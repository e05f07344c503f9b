/** What every run of a buddy allocator keeps, and what alignment of its span adds. */
module BuddyRuns {
  import opened Bits
  import opened Buddy

  // ---- every run keeps an exact, coalesced partition ----

  /** Merging a live block back keeps the invariant, at any alignment. */
  lemma {:induction false} MergeInv(g: Geometry, s: State, b: Block)
    requires Inv(g, s) && b in s.live
    ensures Inv(g, State(Merge(g, s.free, b), s.live - {b}))
    decreases b.level
  {
    if b.level == 0 || BuddyOf(g, b) !in s.free {
      ReleaseInv(g, s, b);
    } else {
      var c, p := BuddyOf(g, b), Parent(g, b);
      var t := State(s.free - {c}, s.live + {c});
      GrabInv(g, s, c);
      FuseInv(g, t, b);
      var u := State(t.free, t.live - {b, c} + {p});
      MergeInv(g, u, p);
      assert u.live - {p} == s.live - {b};
    }
  }

  /** Splitting down from the nearest non-empty level keeps the invariant, at any alignment. */
  lemma {:induction false} CarveInv(g: Geometry, s: State, donor: nat, level: nat, start: nat)
    requires Inv(g, s) && donor <= level < g.levels && Block(donor, start) in s.free
    requires forall i :: donor < i <= level ==> LevelEmpty(s.free, i)
    ensures Inv(g, Carved(g, s, donor, level, start))
    ensures Block(level, start) !in s.live
    decreases level
  {
    if donor == level {
      GrabInv(g, s, Block(level, start));
      assert Remainders(g, start, donor, level) == {};
    } else {
      CarveInv(g, s, donor, level - 1, start);
      var t := Carved(g, s, donor, level - 1, start);
      var b := Block(level - 1, start);
      CarveUnrolls(g, s, donor, level, start);
      SplitInv(g, t, b);
    }
  }

  /** Halving a live block and freeing its right half, when no block of that size is free. */
  lemma {:induction false} SplitInv(g: Geometry, s: State, b: Block)
    requires Inv(g, s) && b in s.live && b.level + 1 < g.levels && LevelEmpty(s.free, b.level + 1)
    ensures Inv(g, State(s.free + {RightHalf(g, b)}, s.live - {b} + {LeftHalf(b)}))
    ensures LeftHalf(b) !in s.live
  {
    var l, r := LeftHalf(b), RightHalf(g, b);
    HalveInv(g, s, b);
    var t := State(s.free, s.live - {b} + {l, r});
    ReleaseInv(g, t, r);
    assert t.live - {r} == s.live - {b} + {l};
  }

  lemma {:induction false} CarveUnrolls(g: Geometry, s: State, donor: nat, level: nat, start: nat)
    requires donor < level && Block(level - 1, start) !in s.live
    requires LevelEmpty(s.free, level)
    ensures LevelEmpty(Carved(g, s, donor, level - 1, start).free, level)
    ensures var t := Carved(g, s, donor, level - 1, start);
      var b := Block(level - 1, start);
      Carved(g, s, donor, level, start) == State(t.free + {RightHalf(g, b)}, t.live - {b} + {LeftHalf(b)})
  {
    var r := RightHalf(g, Block(level - 1, start));
    assert Remainders(g, start, donor, level) == Remainders(g, start, donor, level - 1) + {r};
  }

  lemma {:induction false} StepInv(g: Geometry, s: State, e: Event, t: State)
    requires Inv(g, s) && Step(g, s, e, t)
    ensures Inv(g, t)
  {
    match e
    case Alloc(level, donor, start) => CarveInv(g, s, donor, level, start);
    case Exhausted(_) =>
    case Free(b) => MergeInv(g, s, b);
  }

  /** Over every run of allocations and matching frees, free and live blocks partition the span
      exactly and no two buddies are both free. */
  lemma {:induction false} RunInv(g: Geometry, ss: seq<State>, es: seq<Event>)
    requires Sound(g) && Run(g, ss, es)
    ensures forall i :: 0 <= i < |ss| ==> Inv(g, ss[i])
    decreases |es|
  {
    if es == [] {
      InitInv(g);
    } else {
      var n := |es| - 1;
      RunInv(g, ss[..n + 1], es[..n]);
      assert Inv(g, ss[..n + 1][n]);
      StepInv(g, ss[n], es[n], ss[n + 1]);
      forall i | 0 <= i < |ss| ensures Inv(g, ss[i]) {
        if i <= n { assert ss[i] == ss[..n + 1][i]; }
      }
    }
  }

  // ---- an aligned span: the free set is a function of the live set ----

  /** Two overlapping blocks on the grid are nested. */
  lemma {:induction false} Nested(g: Geometry, b: Block, c: Block)
    requires b.level <= c.level < g.levels
    requires OnGrid(g, b) && OnGrid(g, c) && Overlap(g, b, c)
    ensures b.start <= c.start && c.start + Size(g, c.level) <= b.start + Size(g, b.level)
  {
    var m := Size(g, c.level);
    SizeDivides(g, b.level, c.level);
    MultipleChain(b.start - g.origin, m, Size(g, b.level));
    var a := Quotient(b.start - g.origin, m);
    var k := Quotient(Size(g, b.level), m);
    var j := Quotient(c.start - g.origin, m);
    NestedMultiples(a, k, j, m);
  }

  lemma {:induction false} Quotient(x: nat, m: nat) returns (q: nat)
    requires m > 0 && Multiple(x, m)
    ensures x == q * m
  {
    MultipleIsMod(x, m);
    q := x / m;
  }

  lemma {:induction false} NestedMultiples(a: nat, k: nat, j: nat, m: nat)
    requires a * m < j * m + m && j * m < a * m + k * m
    ensures a * m <= j * m && j * m + m <= a * m + k * m
  {
    assert (j + 1) * m == j * m + m && (a + k) * m == a * m + k * m;
    assert (a + 1) * m == a * m + m;
    MulBelow(a, j + 1, m);
    MulBelow(j, a + k, m);
  }

  lemma {:induction false} MulBelow(a: nat, b: nat, m: nat)
    requires a * m < b * m
    ensures a < b && (a + 1) * m <= b * m
  {
    var d := b - a;
    assert d * m == b * m - a * m;
    assert (-d) * m == -(d * m);
    if d > 0 {
      MulAtLeast(d, m);
    }
  }

  /** When the live blocks agree, what one state has free is free in the other too. */
  lemma {:induction false} FreeAt(g: Geometry, s: State, t: State, b: Block, x: nat) returns (c: Block)
    requires Inv(g, s) && Inv(g, t) && s.live == t.live && b in s.free && Holds(g, b, x)
    ensures c in t.free && Holds(g, c, x)
  {
    assert Fits(g, b) && InSpan(g, x);
    assert Covered(g, t.free + t.live, x);
    c :| c in t.free + t.live && Holds(g, c, x);
    assert Overlap(g, b, c);
  }

  /** When the live blocks agree, a free block of one state overlaps no finer free block of the
      other: the finer block's buddy would have to be tiled by still finer free blocks. */
  lemma {:induction false} NoFinerFree(g: Geometry, s: State, t: State, b: Block, c: Block)
    requires Sound(g) && Aligned(g) && Inv(g, s) && Inv(g, t) && s.live == t.live
    requires b in s.free && c in t.free && Overlap(g, b, c)
    ensures c.level <= b.level
    decreases g.levels - c.level
  {
    if c.level > b.level {
      var d, p := BuddyOf(g, c), Parent(g, c);
      assert Fits(g, b) && Fits(g, c) && OnGrid(g, b) && OnGrid(g, c);
      BuddyOnGrid(g, c);
      BuddyIsAdjacent(g, c);
      SizeHalves(g, c.level - 1);
      assert Overlap(g, b, p);
      Nested(g, b, p);
      var e := FreeAt(g, s, t, b, d.start);
      assert Fits(g, e) && OnGrid(g, e);
      assert Overlap(g, b, e) && Overlap(g, e, d) && Overlap(g, e, p);
      if e.level < c.level {
        assert Overlap(g, e, c) by { Nested(g, e, p); }
      } else if e.level == c.level {
        Nested(g, e, d);
      } else {
        NoFinerFree(g, s, t, b, e);
      }
    }
  }

  /** On an aligned span the free set is determined by the live set. */
  lemma {:induction false} FreeDeterminedByLive(g: Geometry, s: State, t: State)
    requires Sound(g) && Aligned(g) && Inv(g, s) && Inv(g, t) && s.live == t.live
    ensures s.free == t.free
  {
    FreeContained(g, s, t);
    FreeContained(g, t, s);
  }

  lemma {:induction false} FreeContained(g: Geometry, s: State, t: State)
    requires Sound(g) && Aligned(g) && Inv(g, s) && Inv(g, t) && s.live == t.live
    ensures s.free <= t.free
  {
    forall b | b in s.free ensures b in t.free {
      var c := FreeAt(g, s, t, b, b.start);
      assert Fits(g, c) && OnGrid(g, b) && OnGrid(g, c);
      assert Overlap(g, b, c) && Overlap(g, c, b);
      NoFinerFree(g, s, t, b, c);
      NoFinerFree(g, t, s, c, b);
      Nested(g, b, c);
    }
  }

  /** Two runs that end with the same live blocks end with the same free blocks, whatever the
      order in which they allocated and freed. */
  lemma {:induction false} RunsAgree(g: Geometry, ss: seq<State>, es: seq<Event>, ts: seq<State>, fs: seq<Event>)
    requires Sound(g) && Aligned(g) && Run(g, ss, es) && Run(g, ts, fs)
    requires ss[|es|].live == ts[|fs|].live
    ensures ss[|es|] == ts[|fs|]
  {
    RunInv(g, ss, es);
    RunInv(g, ts, fs);
    FreeDeterminedByLive(g, ss[|es|], ts[|fs|]);
  }

  /** Freeing every block, in any order, restores the single top block. */
  lemma {:induction false} AllFreedRestoresTop(g: Geometry, ss: seq<State>, es: seq<Event>)
    requires Sound(g) && Aligned(g) && Run(g, ss, es)
    requires ss[|es|].live == {}
    ensures ss[|es|] == Init(g)
  {
    RunInv(g, ss, es);
    InitInv(g);
    FreeDeterminedByLive(g, ss[|es|], Init(g));
  }

  // ---- exactly when exclusive or agrees with splitting ----

  /** The lowest set bit of a misaligned base names a level whose first block has its buddy
      below the span. */
  lemma {:induction false} OddLevel(g: Geometry, level: nat) returns (m: nat)
    requires Sound(g) && !Aligned(g) && level < g.levels && OnGrid(g, Block(level, g.base))
    ensures 0 < m <= level && OnGrid(g, Block(m, g.base))
    ensures BuddyOf(g, Block(m, g.base)).start + Size(g, m) == g.base
    decreases level
  {
    BuddyOnGrid(g, Block(level, g.base));
    if Multiple(g.base - g.origin, Size(g, level - 1)) {
      m := OddLevel(g, level - 1);
    } else {
      m := level;
    }
  }

  /** The blocks that repeated halving of the span produces, above the smallest size. */
  predicate Splittable(g: Geometry, b: Block) {
    b.level + 1 < g.levels && g.base <= b.start && Multiple(b.start - g.base, Size(g, b.level))
  }

  /** On the grid the halves of a block are each other's buddies. */
  lemma {:induction false} HalvesAreBuddies(g: Geometry, b: Block)
    requires b.level + 1 < g.levels && OnGrid(g, b)
    ensures BuddyOf(g, LeftHalf(b)) == RightHalf(g, b)
    ensures BuddyOf(g, RightHalf(g, b)) == LeftHalf(b)
  {
    SizeDivides(g, b.level, b.level + 1);
    MultipleChain(b.start - g.origin, Size(g, b.level + 1), Size(g, b.level));
    BuddyOnGrid(g, LeftHalf(b));
    BuddyIsAdjacent(g, LeftHalf(b));
  }

  /** Merging's exclusive or undoes splitting's addition, on every block that splitting can
      produce and at every level, exactly when the span is aligned. */
  lemma {:induction false} XorUndoesSplitIffAligned(g: Geometry)
    requires Sound(g)
    ensures (forall b :: Splittable(g, b) ==> BuddyOf(g, LeftHalf(b)) == RightHalf(g, b)) <==> Aligned(g)
  {
    if Aligned(g) {
      forall b | Splittable(g, b) ensures BuddyOf(g, LeftHalf(b)) == RightHalf(g, b) {
        SplitOnGrid(g, b);
        HalvesAreBuddies(g, b);
      }
    } else {
      assert Size(g, g.levels - 1) == Pow2(g.unitBits);
      var m := OddLevel(g, g.levels - 1);
      var b := Block(m - 1, g.base);
      assert Splittable(g, b);
      assert BuddyOf(g, LeftHalf(b)).start < g.base;
    }
  }

  lemma {:induction false} SplitOnGrid(g: Geometry, b: Block)
    requires Sound(g) && Aligned(g) && Splittable(g, b)
    ensures OnGrid(g, b)
  {
    SizeDivides(g, 0, b.level);
    MultipleChain(g.base - g.origin, Size(g, b.level), Size(g, 0));
    MultipleSum(b.start - g.base, g.base - g.origin, Size(g, b.level));
  }

  /** The state after taking one block of `level` from the fresh span and giving it back. */
  ghost function RoundTrip(g: Geometry, level: nat): State
    requires Sound(g) && level < g.levels
  {
    var s := Carved(g, Init(g), 0, level, g.base);
    State(Merge(g, s.free, Block(level, g.base)), s.live - {Block(level, g.base)})
  }

  /** Allocating from the fresh span and freeing again restores it at every level exactly when
      the span is aligned. Otherwise at some level the first block's buddy lies below the span. */
  lemma {:induction false} RoundTripIffAligned(g: Geometry)
    requires Sound(g)
    ensures (forall level :: 0 <= level < g.levels ==> RoundTrip(g, level) == Init(g)) <==> Aligned(g)
  {
    if Aligned(g) {
      forall level | 0 <= level < g.levels ensures RoundTrip(g, level) == Init(g) {
        InitInv(g);
        CarveInv(g, Init(g), 0, level, g.base);
        MergeInv(g, Carved(g, Init(g), 0, level, g.base), Block(level, g.base));
        FreeDeterminedByLive(g, RoundTrip(g, level), Init(g));
      }
    } else {
      assert Size(g, g.levels - 1) == Pow2(g.unitBits);
      var m := OddLevel(g, g.levels - 1);
      var b := Block(m, g.base);
      InitInv(g);
      CarveInv(g, Init(g), 0, m, g.base);
      assert BuddyOf(g, b).start < g.base;
      assert b in RoundTrip(g, m).free;
      assert RoundTrip(g, m) != Init(g);
    }
  }

  // ---- facts the allocators use step by step ----

  /** Distinct blocks of one state start at distinct addresses. */
  lemma {:induction false} StartsDiffer(g: Geometry, s: State, b: Block, c: Block)
    requires Inv(g, s) && b in s.free + s.live && c in s.free + s.live && b != c
    ensures b.start != c.start
  {
    if b.start == c.start { assert Overlap(g, b, c); }
  }

  lemma {:induction false} MissesOthers(g: Geometry, s: State, b: Block, keep: set<Block>)
    requires Inv(g, s) && b in s.free + s.live && keep <= s.free + s.live && b !in keep
    ensures InSpan(g, b.start) && !Covered(g, keep, b.start)
  {
    assert Fits(g, b);
    forall c | c in keep ensures !Holds(g, c, b.start) {
      if Holds(g, c, b.start) { assert Overlap(g, b, c); }
    }
  }

  /** A block of the grid is aligned to every power of two up to its size. */
  lemma {:induction false} GridIsAligned(g: Geometry, b: Block, align: nat)
    requires b.level < g.levels && OnGrid(g, b) && IsPow2(align) && align <= Size(g, b.level)
    ensures Multiple(b.start - g.origin, align)
  {
    var k := g.unitBits + g.levels - 1 - b.level;
    Pow2Order(k, Log2(align));
    Pow2Divides(Log2(align), k);
    MultipleChain(b.start - g.origin, align, Size(g, b.level));
  }

  /** One more level of splitting extends an allocation step by its right half. */
  lemma {:induction false} SplitStep(g: Geometry, s: State, donor: nat, level: nat, start: nat, t: State)
    requires Inv(g, s) && 0 < level < g.levels && LevelEmpty(s.free, level)
    requires Step(g, s, Event.Alloc(level - 1, donor, start), t)
    ensures var b := Block(level - 1, start);
      && b in t.live && b !in s.live && LevelEmpty(t.free, level)
      && Step(g, s, Event.Alloc(level, donor, start),
              State(t.free + {RightHalf(g, b)}, t.live - {b} + {LeftHalf(b)}))
  {
    var b := Block(level - 1, start);
    CarveInv(g, s, donor, level - 1, start);
    CarveUnrolls(g, s, donor, level, start);
  }

  /** Freeing a block whose buddy is free is freeing their parent. */
  lemma {:induction false} MergeUnfolds(g: Geometry, s: State, b: Block, t: State, u: State)
    requires b.level > 0 && b in s.live && BuddyOf(g, b) in s.free && Parent(g, b) !in s.live
    requires t == State(s.free - {BuddyOf(g, b)}, s.live - {b} + {Parent(g, b)})
    requires Step(g, t, Free(Parent(g, b)), u)
    ensures Step(g, s, Free(b), u) && u.live == s.live - {b}
  {
    assert t.live - {Parent(g, b)} == s.live - {b};
  }

  // ---- the level search of the page and frame allocators ----

  lemma {:induction false} SizesDecrease(g: Geometry, l: nat, m: nat)
    requires l < m < g.levels
    ensures Size(g, m) < Size(g, l)
  {
    SizeHalves(g, l);
    SizeDivides(g, l + 1, m);
  }

  /** Exactly the sizes that the search accepts at `level`: it does not round up. */
  predicate ExactLevel(g: Geometry, size: nat, level: nat) {
    level < g.levels && (size == Size(g, level) || (level == g.levels - 1 && size < Size(g, level)))
  }

  /** A size is accepted at one level only: freeing finds the level that allocating used. */
  lemma {:induction false} ExactLevelUnique(g: Geometry, size: nat, l: nat, m: nat)
    requires l < g.levels && (size == Size(g, l) || (l == g.levels - 1 && size < Size(g, l)))
    requires m < g.levels && (size == Size(g, m) || (m == g.levels - 1 && size < Size(g, m)))
    ensures l == m
  {
    if l < m { SizesDecrease(g, l, m); }
    if m < l { SizesDecrease(g, m, l); }
  }

  /** Every power of two up to the span is accepted. */
  lemma {:induction false} PowerHasLevel(g: Geometry, size: nat) returns (level: nat)
    requires g.levels >= 1 && IsPow2(size) && size <= Size(g, 0)
    ensures level < g.levels
    ensures if size < Size(g, g.levels - 1) then level == g.levels - 1 else size == Size(g, level)
    ensures ExactLevel(g, size, level)
  {
    var k := Log2(size);
    Pow2Order(g.unitBits + g.levels - 1, k);
    Pow2Order(k, g.unitBits);
    if k >= g.unitBits {
      level := g.unitBits + g.levels - 1 - k;
    } else {
      level := g.levels - 1;
    }
  }

  // ---- what a request needs ----

  /** Rounding up to a power of two never outgrows a block that the request fits in. */
  lemma {:induction false} RoundedFits(g: Geometry, n: nat, level: nat)
    requires level < g.levels
    ensures NextPow2(n) <= Size(g, level) <==> n <= Size(g, level)
  {
    if n <= Size(g, level) {
      NextPow2IsLeast(n, g.unitBits + g.levels - 1 - level);
    }
  }

  /** The blocks of the level found for a rounded size are the smallest that hold the request. */
  lemma {:induction false} ExactLevelIsSnug(g: Geometry, n: nat, level: nat)
    requires ExactLevel(g, NextPow2(n), level)
    ensures n <= Size(g, level)
    ensures level + 1 < g.levels ==> Size(g, level + 1) < n
  {
    RoundedFits(g, n, level);
    if level + 1 < g.levels {
      SizesDecrease(g, level, level + 1);
      RoundedFits(g, n, level + 1);
    }
  }

  /** The level whose blocks are the smallest that hold `n` bytes is the one the search finds. */
  lemma {:induction false} SnugIsExactLevel(g: Geometry, n: nat, level: nat)
    requires level < g.levels && n <= Size(g, level)
    requires level + 1 < g.levels ==> Size(g, level + 1) < n
    ensures ExactLevel(g, NextPow2(n), level)
  {
    RoundedFits(g, n, level);
    SizeDivides(g, 0, level);
    NextPow2IsPow2(n);
    var l := PowerHasLevel(g, NextPow2(n));
    if l < level { SizesDecrease(g, l, level); }
    if level < l {
      RoundedFits(g, n, level + 1);
      SizeDivides(g, level + 1, l);
    }
  }

  /** A failed search means that no free block has `n` bytes. */
  lemma {:induction false} NothingFits(g: Geometry, s: State, n: nat, level: nat, b: Block)
    requires Inv(g, s) && level < g.levels && b in s.free
    requires n > Size(g, 0) || ((level + 1 < g.levels ==> Size(g, level + 1) < n) && Step(g, s, Exhausted(level), s))
    ensures Size(g, b.level) < n
  {
    assert Fits(g, b);
    if n > Size(g, 0) {
      SizeDivides(g, 0, b.level);
    } else {
      assert b.level <= level ==> LevelEmpty(s.free, b.level);
      if b.level > level { SizeDivides(g, level + 1, b.level); }
    }
  }

  // ---- merging by tags that other allocators may have written ----

  /** Merging `b` while trusting the tags `tagged` meets only buddies inside the span. */
  ghost predicate Sheltered(g: Geometry, tagged: set<Block>, b: Block)
    decreases b.level
  {
    || b.level == 0
    || BuddyOf(g, b) !in tagged
    || (Fits(g, BuddyOf(g, b)) && Sheltered(g, tagged, Parent(g, b)))
  }

  /** The first tagged buddy outside the span that merging meets. */
  ghost function ForeignBuddy(g: Geometry, tagged: set<Block>, b: Block): (c: Block)
    requires !Sheltered(g, tagged, b)
    ensures 0 < c.level <= b.level && c in tagged && !Fits(g, c)
    decreases b.level
  {
    if Fits(g, BuddyOf(g, b)) then ForeignBuddy(g, tagged, Parent(g, b)) else BuddyOf(g, b)
  }

  /** The block that merging ends with, following the tags. */
  ghost function MergedAt(g: Geometry, tagged: set<Block>, b: Block): (m: Block)
    ensures m.level <= b.level
    decreases b.level
  {
    if b.level == 0 || BuddyOf(g, b) !in tagged then b else MergedAt(g, tagged, Parent(g, b))
  }

  lemma {:induction false} MergedAtWithout(g: Geometry, tagged: set<Block>, c: Block, b: Block)
    requires b.level < c.level
    ensures MergedAt(g, tagged, b) == MergedAt(g, tagged - {c}, b)
    decreases b.level
  {
    if b.level > 0 { MergedAtWithout(g, tagged, c, Parent(g, b)); }
  }

  /** It is what merging adds to the tags; everything else that is left was there before. */
  lemma {:induction false} MergeAddsOne(g: Geometry, tagged: set<Block>, b: Block)
    ensures MergedAt(g, tagged, b) in Merge(g, tagged, b)
    ensures Merge(g, tagged, b) <= tagged + {MergedAt(g, tagged, b)}
    decreases b.level
  {
    if b.level > 0 && BuddyOf(g, b) in tagged {
      MergeAddsOne(g, tagged - {BuddyOf(g, b)}, Parent(g, b));
      MergedAtWithout(g, tagged, BuddyOf(g, b), Parent(g, b));
    }
  }

  /** Merging meets a tagged buddy outside the span while the own list of that level, whose length
      is `lens[level]`, is empty. */
  ghost predicate Underflows(g: Geometry, tagged: set<Block>, lens: seq<nat>, b: Block)
    requires b.level < |lens|
    decreases b.level
  {
    && b.level > 0 && BuddyOf(g, b) in tagged
    && ((!Fits(g, BuddyOf(g, b)) && lens[b.level] == 0) || Underflows(g, tagged, lens, Parent(g, b)))
  }

  /** Every buddy that merging looks at is among `keys`. */
  ghost predicate Reaches(g: Geometry, keys: set<nat>, tagged: set<Block>, b: Block)
    decreases b.level
  {
    || b.level == 0
    || (BuddyOf(g, b).start in keys && (BuddyOf(g, b) in tagged ==> Reaches(g, keys, tagged, Parent(g, b))))
  }

  /** What merging with a tagged buddy leaves to be said of the parent. */
  lemma {:induction false} MergingUpwards(g: Geometry, keys: set<nat>, tagged: set<Block>, lens: seq<nat>, b: Block,
                                          p: Block)
    requires 0 < b.level < |lens| && BuddyOf(g, b) in tagged && p == Parent(g, b)
    ensures Reaches(g, keys, tagged, b) ==> Reaches(g, keys, tagged, p)
    ensures Underflows(g, tagged, lens, b) <==>
      (!Fits(g, BuddyOf(g, b)) && lens[b.level] == 0) || Underflows(g, tagged, lens, p)
    ensures Sheltered(g, tagged, b) <==> Fits(g, BuddyOf(g, b)) && Sheltered(g, tagged, p)
    ensures !Sheltered(g, tagged, b) && Fits(g, BuddyOf(g, b)) ==>
      ForeignBuddy(g, tagged, b) == ForeignBuddy(g, tagged, p)
    ensures !Sheltered(g, tagged, b) && !Fits(g, BuddyOf(g, b)) ==> ForeignBuddy(g, tagged, b) == BuddyOf(g, b)
    ensures MergedAt(g, tagged, b) == MergedAt(g, tagged, p)
  {
  }

  /** Sheltered merging never underflows; otherwise it does at the latest when the own list is empty
      at the first foreign buddy. */
  lemma {:induction false} ForeignUnderflows(g: Geometry, tagged: set<Block>, lens: seq<nat>, b: Block)
    requires b.level < |lens|
    ensures Sheltered(g, tagged, b) ==> !Underflows(g, tagged, lens, b)
    ensures !Sheltered(g, tagged, b) && lens[ForeignBuddy(g, tagged, b).level] == 0 ==> Underflows(g, tagged, lens, b)
    decreases b.level
  {
    if b.level > 0 && BuddyOf(g, b) in tagged && Fits(g, BuddyOf(g, b)) {
      ForeignUnderflows(g, tagged, lens, Parent(g, b));
    }
  }

  /** On an aligned span every buddy is inside it, so foreign tags never matter. */
  lemma {:induction false} AlignedIsSheltered(g: Geometry, tagged: set<Block>, b: Block)
    requires Sound(g) && Aligned(g) && Fits(g, b) && OnGrid(g, b)
    ensures Sheltered(g, tagged, b)
    decreases b.level
  {
    if b.level > 0 {
      ParentFits(g, b);
      AlignedIsSheltered(g, tagged, Parent(g, b));
    }
  }

  lemma {:induction false} ParentFits(g: Geometry, b: Block)
    requires Sound(g) && Aligned(g) && Fits(g, b) && OnGrid(g, b) && b.level > 0
    ensures Fits(g, BuddyOf(g, b)) && Fits(g, Parent(g, b)) && OnGrid(g, Parent(g, b))
  {
    var p := Parent(g, b);
    BuddyOnGrid(g, b);
    BuddyIsAdjacent(g, b);
    SizeHalves(g, p.level);
    assert Overlap(g, Top(g), p);
    Nested(g, Top(g), p);
  }

  lemma {:induction false} ShelteredWithout(g: Geometry, tagged: set<Block>, c: Block, b: Block)
    requires b.level < c.level
    ensures Sheltered(g, tagged, b) <==> Sheltered(g, tagged - {c}, b)
    decreases b.level
  {
    if b.level > 0 { ShelteredWithout(g, tagged, c, Parent(g, b)); }
  }

  predicate Outside(g: Geometry, b: Block) {
    b.start + Size(g, b.level) <= g.base || g.base + Size(g, 0) <= b.start
  }

  predicate Within(g: Geometry, b: Block, p: Block) {
    p.start <= b.start && b.start + Size(g, b.level) <= p.start + Size(g, p.level)
  }

  /** A block that sticks out of the span sticks out however far it is merged. */
  lemma {:induction false} StaysOut(g: Geometry, tagged: set<Block>, p: Block, b: Block) returns (d: Block)
    requires Within(g, b, p) && !Within(g, p, Top(g)) && p.level < g.levels
    requires g.origin <= p.start && Multiple(p.start - g.origin, Pow2(g.unitBits))
    ensures d in Merge(g, tagged, p) && !Fits(g, d) && Within(g, b, d)
    decreases p.level
  {
    if p.level == 0 || BuddyOf(g, p) !in tagged {
      d := p;
    } else {
      BuddyIsAdjacent(g, p);
      SizeHalves(g, p.level - 1);
      d := StaysOut(g, tagged - {BuddyOf(g, p)}, Parent(g, p), b);
    }
  }

  /** Whatever foreign blocks carry a matching tag, the block that following the tags leads to lies
      inside the span exactly when merging is sheltered from them. */
  lemma {:induction false} MergeStaysInsideIff(g: Geometry, s: State, foreign: set<Block>, b: Block)
    requires Inv(g, s) && b in s.live
    requires forall c :: c in foreign ==> Outside(g, c)
    ensures (forall c :: c in Merge(g, s.free + foreign, b) - foreign ==> Fits(g, c))
       <==> Sheltered(g, s.free + foreign, b)
    decreases b.level
  {
    var tagged := s.free + foreign;
    assert Fits(g, b);
    var c := BuddyOf(g, b);
    if b.level == 0 || c !in tagged {
      forall d | d in Merge(g, tagged, b) - foreign ensures Fits(g, d) {
        assert d in s.free + s.live;
      }
    } else if c in s.free {
      var p := Parent(g, b);
      assert Fits(g, c);
      GrabInv(g, s, c);
      FuseInv(g, State(s.free - {c}, s.live + {c}), b);
      var t := State(s.free - {c}, s.live + {c} - {b, c} + {p});
      MergeStaysInsideIff(g, t, foreign, p);
      assert t.free + foreign == tagged - {c};
      assert Merge(g, tagged, b) == Merge(g, tagged - {c}, p);
      ShelteredWithout(g, tagged, c, p);
    } else {
      var p := Parent(g, b);
      BuddyIsAdjacent(g, b);
      SizeHalves(g, p.level);
      var d := StaysOut(g, tagged - {c}, p, b);
      assert !Outside(g, d) && d in Merge(g, tagged, b);
    }
  }
}
