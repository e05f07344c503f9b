/**
  An unsheltered merge that looks past the reserved pages of its region, where the first managed frame
  begins, in a region of 260096 frames: its table fills its 2032 pages to the last byte.
 */
module TableEnd {
  import opened Bits
  import opened Buddy
  import opened BuddyRuns
  import opened NodeTags
  import opened FrameAlloc
  import opened Carving
  import opened NodeTables
  import opened ForeignTags

  /** Merging a block that ends at node `e` goes on to the left, through blocks that are tagged, until it
      has the size `2^t` that divides `e` an odd number of times; then it looks at node `e` itself. */
  lemma {:induction false} LooksAtEnd(g: Geometry, e: nat, t: nat, stop: nat, level: nat, keys: set<nat>,
                                      tagged: set<Block>, lens: seq<nat>)
    requires g.unitBits == 5 && 0 < stop <= level < g.levels && Pages(g, stop) == Pow2(t)
    requires e % (2 * Pow2(t)) == Pow2(t) && g.origin + 32 * e !in keys
    requires |lens| == g.levels && Block(stop, g.origin + 32 * e) !in tagged
    requires forall v: nat {:trigger Pages(g, v)} :: stop < v <= level ==>
      2 * Pages(g, v) <= e && LeftOf(g, e, v) in tagged && Fits(g, LeftOf(g, e, v))
    ensures Pages(g, level) <= e
    ensures var b := Block(level, g.origin + 32 * (e - Pages(g, level)));
      !Reaches(g, keys, tagged, b) && !Underflows(g, tagged, lens, b)
    decreases level
  {
    var n := Pages(g, level);
    PagesScale(g, level);
    if level == stop {
      LastParity(e, n);
    } else {
      SmallerDivides(g, e, t, stop, level);
      var b := Block(level, g.origin + 32 * (e - n));
      assert Pages(g, level - 1) == 2 * n;
      assert BuddyOf(g, b) == Block(level, g.origin + 32 * (e - 2 * n));
      LooksAtEnd(g, e, t, stop, level - 1, keys, tagged, lens);
    }
  }

  /** The block of `level` before the one that ends at node `e`. */
  function LeftOf(g: Geometry, e: nat, level: nat): Block
    requires 2 * Pages(g, level) <= e
  {
    Block(level, g.origin + 32 * (e - 2 * Pages(g, level)))
  }

  lemma {:induction false} LastParity(e: nat, n: nat)
    requires n > 0 && e % (2 * n) == n
    ensures n <= e && EvenBlock(32 * (e - n), 32 * n)
  {
    var q := e / (2 * n);
    assert e == q * (2 * n) + n;
    assert 32 * (e - n) == (2 * q) * (32 * n);
    DivUnique(32 * (e - n), 32 * n, 2 * q, 0);
    EvenBlockQuotient(32 * (e - n), 32 * n);
  }

  lemma {:induction false} SmallerDivides(g: Geometry, e: nat, t: nat, stop: nat, level: nat)
    requires stop < level < g.levels && Pages(g, stop) == Pow2(t) && e % (2 * Pow2(t)) == Pow2(t)
    requires 2 * Pages(g, level) <= e
    ensures !EvenBlock(32 * (e - Pages(g, level)), 32 * Pages(g, level))
  {
    Pow2Divides(g.levels - level, g.levels - 1 - stop);
    assert 2 * Pages(g, level) == Pow2(g.levels - level);
    OddMultiple(e, Pages(g, stop), Pages(g, level));
  }

  lemma {:induction false} OddMultiple(e: nat, m: nat, n: nat)
    requires m > 0 && n > 0 && e % (2 * m) == m && Multiple(m, 2 * n) && n <= e
    ensures !EvenBlock(32 * (e - n), 32 * n)
  {
    var q := e / (2 * m);
    OddTimes(e, m, q);
    MultipleTimes(m, 2 * n, 2 * q + 1);
    MultipleScales(e, 2 * n, 32);
    LastIsOdd(32 * e, 32 * n);
  }

  lemma {:induction false} OddTimes(e: nat, m: nat, q: nat)
    requires m > 0 && e % (2 * m) == m && q == e / (2 * m)
    ensures e == (2 * q + 1) * m
  {
    assert e == q * (2 * m) + m;
  }

  // ---- the region ----

  /** The last two allocators of the region are one of 4096 frames and one of 16, which end it. */
  function Large(l: nat): Geometry { Geometry(l, l + 32 * 255984, 5, 13) }

  function Small(l: nat): Geometry { Geometry(l, l + 32 * 260080, 5, 5) }

  lemma {:induction false} LargePowers()
    ensures Pow2(4) == 16 && Pow2(5) == 32 && Pow2(6) == 64 && Pow2(7) == 128 && Pow2(8) == 256
    ensures Pow2(9) == 512 && Pow2(10) == 1024 && Pow2(11) == 2048 && Pow2(12) == 4096 && Pow2(17) == 131072
  {
    PowersUpTo10();
    Pow2Sum(1, 10);
    Pow2Sum(2, 10);
    Pow2Sum(7, 10);
  }

  lemma {:induction false} RegionEnds(base: nat, hddm: nat)
    ensures 258064 == 2 * Pow2(17) - Pow2(12) + Pow2(4) && Pow2(12) == 4096 && Pow2(4) == 16
    ensures IsRunOf(Region(true, base, 260096 * 4096), base + 2032 * 4096, 258064)
    ensures NodeAddress(Region(true, base, 260096 * 4096), hddm, 260096) == base + 2032 * 4096 + hddm
    ensures var end, l := base + 260096 * 4096, base + hddm;
      && SpanOf(13, First(end, l, 12, 4).start + hddm, l) == Large(l)
      && SpanOf(5, Second(end, l, 4).start + hddm, l) == Small(l)
  {
    LargePowers();
    SpanAtIndex(13, base + 255984 * 4096 + hddm, base + hddm, 255984);
    SpanAtIndex(5, base + 260080 * 4096 + hddm, base + hddm, 260080);
  }

  // ---- a state of the larger allocator ----

  function At(l: nat, level: nat, i: nat): Block { Block(level, l + 32 * i) }

  /** Free blocks of 32, 64, up to 1024 frames that end where the last 16 frames begin, and one more of
      16 at the start. The last 16 frames and single frames in between are handed out. */
  ghost function FreeBlocks(l: nat): set<Block> {
    {At(l, 8, 255984), At(l, 7, 260032), At(l, 6, 259968), At(l, 5, 259840), At(l, 4, 259584), At(l, 3, 259072),
     At(l, 2, 258048)}
  }

  ghost function LiveBlocks(l: nat): set<Block> {
    {At(l, 8, 260064)} + Singles(l)
  }

  ghost function Singles(l: nat): set<Block> {
    set i: nat | 256000 <= i < 258048 :: At(l, 12, i)
  }

  lemma {:induction false} LargeSizes(l: nat)
    ensures var g := Large(l);
      && Size(g, 0) == 32 * 4096 && Size(g, 2) == 32 * 1024 && Size(g, 3) == 32 * 512 && Size(g, 4) == 32 * 256
      && Size(g, 5) == 32 * 128 && Size(g, 6) == 32 * 64 && Size(g, 7) == 32 * 32 && Size(g, 8) == 32 * 16
      && Size(g, 12) == 32
  {
    LargePowers();
    var g := Large(l);
    PagesScale(g, 0);
    PagesScale(g, 2);
    PagesScale(g, 3);
    PagesScale(g, 4);
    PagesScale(g, 5);
    PagesScale(g, 6);
    PagesScale(g, 7);
    PagesScale(g, 8);
    PagesScale(g, 12);
  }

  lemma {:induction false} StateApart(l: nat, b: Block, c: Block)
    requires b in FreeBlocks(l) + LiveBlocks(l) && c in FreeBlocks(l) + LiveBlocks(l) && Overlap(Large(l), b, c)
    ensures b == c
  {
    LargeSizes(l);
  }

  lemma {:induction false} StateCovers(l: nat, x: nat)
    requires InSpan(Large(l), x)
    ensures Covered(Large(l), FreeBlocks(l) + LiveBlocks(l), x)
  {
    var g, s := Large(l), FreeBlocks(l) + LiveBlocks(l);
    LargeSizes(l);
    if l + 32 * 256000 <= x < l + 32 * 258048 {
      var i := (x - l) / 32;
      assert At(l, 12, i) in s && Holds(g, At(l, 12, i), x);
    } else {
      assert At(l, 8, 260064) in s;
    }
  }

  lemma {:induction false} StateFits(l: nat, b: Block)
    requires b in FreeBlocks(l) + LiveBlocks(l)
    ensures Fits(Large(l), b)
  {
    LargeSizes(l);
    assert Pow2(5) == 32;
    var i := (b.start - l) / 32;
    assert b.start == l + 32 * i;
    MultipleIsMod(32 * i, 32);
  }

  lemma {:induction false} BuddyAt(l: nat, level: nat, i: nat, n: nat)
    requires level < 13 && n > 0 && Size(Large(l), level) == 32 * n
    ensures (i / n) % 2 == 0 ==> BuddyOf(Large(l), At(l, level, i)) == At(l, level, i + n)
    ensures (i / n) % 2 == 1 ==> i >= n && BuddyOf(Large(l), At(l, level, i)) == At(l, level, i - n)
  {
    var q, r := i / n, i % n;
    assert i == q * n + r;
    assert 32 * i == q * (32 * n) + 32 * r;
    DivUnique(32 * i, 32 * n, q, 32 * r);
    EvenBlockQuotient(32 * i, 32 * n);
  }

  lemma {:induction false} StateCoalesced(l: nat)
    ensures Coalesced(Large(l), FreeBlocks(l))
  {
    forall b | b in FreeBlocks(l) ensures BuddyOf(Large(l), b) !in FreeBlocks(l) { StateSingle(l, b); }
  }

  lemma {:induction false} StateSingle(l: nat, b: Block)
    requires b in FreeBlocks(l)
    ensures BuddyOf(Large(l), b).level == b.level && BuddyOf(Large(l), b) !in FreeBlocks(l)
  {
    assert forall c :: c in FreeBlocks(l) && c.level == b.level ==> c == b;
    LargeSizes(l);
    assert BuddyOf(Large(l), b).start != b.start;
  }

  lemma {:induction false} StateTiles(l: nat)
    ensures Tiles(Large(l), FreeBlocks(l) + LiveBlocks(l))
  {
    var g, s := Large(l), FreeBlocks(l) + LiveBlocks(l);
    forall b | b in s ensures Fits(g, b) { StateFits(l, b); }
    forall b, c | b in s && c in s && Overlap(g, b, c) ensures b == c { StateApart(l, b, c); }
    forall x: nat | InSpan(g, x) ensures Covered(g, s, x) { StateCovers(l, x); }
  }

  lemma {:induction false} LargeIsMisaligned(l: nat)
    ensures !Aligned(Large(l))
  {
    LargeSizes(l);
    MultipleIsMod(32 * 255984, 32 * 4096);
  }

  /** It keeps the allocator's invariant. */
  lemma {:induction false} StateInv(l: nat)
    ensures Inv(Large(l), State(FreeBlocks(l), LiveBlocks(l)))
  {
    StateTiles(l);
    StateCoalesced(l);
    LargeIsMisaligned(l);
  }

  /** With the small allocator untouched, freeing the last 16 frames there meets its block first. One
      more block of that size is free, so merging does not panic, and it ends up looking at the node past
      the reserved pages: it does not stay within a table that maps only those. */
  lemma {:induction false} LeavesTable(l: nat, keys: set<nat>, lens: seq<nat>)
    requires l + 32 * 260096 !in keys && |lens| == 13 && lens[8] > 0
    ensures var tagged := FreeBlocks(l) + {At(l, 8, 260080)};
      && At(l, 8, 260064) in LiveBlocks(l) && Pages(Small(l), 0) == Pages(Large(l), 8)
      && ForeignBuddyIs(Large(l), tagged, At(l, 8, 260064), At(l, 8, 260080))
      && !Underflows(Large(l), tagged, lens, At(l, 8, 260064))
      && !Reaches(Large(l), keys, tagged, At(l, 8, 260064))
  {
    var g, tagged := Large(l), FreeBlocks(l) + {At(l, 8, 260080)};
    LargePowers();
    LargeSizes(l);
    BuddyAt(l, 8, 260064, 16);
    assert Parent(g, At(l, 8, 260064)) == At(l, 7, 260064);
    forall v: nat | 1 < v <= 7
      ensures 2 * Pages(g, v) <= 260096 && LeftOf(g, 260096, v) in tagged && Fits(g, LeftOf(g, 260096, v))
    {
      assert v == 2 || v == 3 || v == 4 || v == 5 || v == 6 || v == 7;
      assert LeftOf(g, 260096, v) in FreeBlocks(l);
      StateFits(l, LeftOf(g, 260096, v));
    }
    LooksAtEnd(g, 260096, 11, 1, 7, keys, tagged, lens);
  }

  ghost predicate ForeignBuddyIs(g: Geometry, tagged: set<Block>, b: Block, c: Block) {
    !Sheltered(g, tagged, b) && ForeignBuddy(g, tagged, b) == c
  }
}
