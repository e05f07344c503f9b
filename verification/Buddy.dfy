/**
  The theory shared by the kernel's three buddy allocators.

  A geometry fixes where the managed span lies, how small its smallest block is, and the
  `origin` that block offsets are measured from when a buddy is computed with exclusive or:
  address zero for the heap, the region start for virtual pages, the node table for frames.
  Nothing here assumes that the span starts on a multiple of its own size; what that
  alignment buys is stated separately.
 */
module Buddy {
  import opened Bits

  datatype Geometry = Geometry(origin: nat, base: nat, unitBits: nat, levels: nat)

  /** Level 0 is the whole span; each further level halves the block. */
  datatype Block = Block(level: nat, start: nat)

  datatype State = State(free: set<Block>, live: set<Block>)

  predicate Sound(g: Geometry) {
    g.levels >= 1 && g.origin <= g.base && Multiple(g.base - g.origin, Pow2(g.unitBits))
  }

  function Size(g: Geometry, level: nat): (n: nat)
    ensures n >= 1
  {
    if level < g.levels then Pow2(g.unitBits + g.levels - 1 - level) else 1
  }

  predicate Aligned(g: Geometry) {
    g.origin <= g.base && Multiple(g.base - g.origin, Size(g, 0))
  }

  function Top(g: Geometry): Block { Block(0, g.base) }

  function Init(g: Geometry): State { State({Top(g)}, {}) }

  /** Where a block starts, measured from the origin. */
  function Offset(g: Geometry, b: Block): nat {
    if g.origin <= b.start then b.start - g.origin else 0
  }

  /** The buddy: exclusive or of the offset with the block size, see `BuddyIsXor`. */
  function BuddyOf(g: Geometry, b: Block): Block {
    Block(b.level, g.origin + Flip(Offset(g, b), Size(g, b.level)))
  }

  function Parent(g: Geometry, b: Block): Block
    requires b.level > 0
  {
    var c := BuddyOf(g, b);
    Block(b.level - 1, if c.start < b.start then c.start else b.start)
  }

  function LeftHalf(b: Block): Block { Block(b.level + 1, b.start) }

  function RightHalf(g: Geometry, b: Block): Block {
    Block(b.level + 1, b.start + Size(g, b.level + 1))
  }

  // ---- what a well-kept set of blocks is ----

  predicate Fits(g: Geometry, b: Block) {
    && b.level < g.levels
    && g.origin <= g.base <= b.start
    && b.start + Size(g, b.level) <= g.base + Size(g, 0)
    && Multiple(b.start - g.origin, Pow2(g.unitBits))
  }

  predicate Overlap(g: Geometry, b: Block, c: Block) {
    b.start < c.start + Size(g, c.level) && c.start < b.start + Size(g, b.level)
  }

  predicate Holds(g: Geometry, b: Block, x: nat) {
    b.start <= x < b.start + Size(g, b.level)
  }

  predicate InSpan(g: Geometry, x: nat) {
    g.base <= x < g.base + Size(g, 0)
  }

  ghost predicate Covered(g: Geometry, s: set<Block>, x: nat) {
    exists b :: b in s && Holds(g, b, x)
  }

  /** The blocks are an exact partition of the span. */
  ghost predicate Tiles(g: Geometry, s: set<Block>) {
    && (forall b {:trigger Fits(g, b)} :: b in s ==> Fits(g, b))
    && (forall b, c {:trigger Overlap(g, b, c)} :: b in s && c in s && Overlap(g, b, c) ==> b == c)
    && (forall x :: InSpan(g, x) ==> Covered(g, s, x))
  }

  /** No free block could be merged with its buddy. */
  ghost predicate Coalesced(g: Geometry, free: set<Block>) {
    forall b {:trigger BuddyOf(g, b)} ::
      b in free && b.level > 0 ==> BuddyOf(g, b) !in free
  }

  predicate OnGrid(g: Geometry, b: Block) {
    g.origin <= b.start && Multiple(b.start - g.origin, Size(g, b.level))
  }

  ghost predicate Inv(g: Geometry, s: State) {
    && s.free !! s.live
    && Tiles(g, s.free + s.live)
    && Coalesced(g, s.free)
    && (Aligned(g) ==> forall b {:trigger OnGrid(g, b)} :: b in s.free + s.live ==> OnGrid(g, b))
  }

  // ---- the steps an allocator takes ----

  /** What remains of a donor block after cutting a block of `level` off its left end. */
  function Remainders(g: Geometry, start: nat, donor: nat, level: nat): set<Block> {
    set i | donor < i <= level :: Block(i, start + Size(g, i))
  }

  function Carved(g: Geometry, s: State, donor: nat, level: nat, start: nat): State {
    State(s.free - {Block(donor, start)} + Remainders(g, start, donor, level),
          s.live + {Block(level, start)})
  }

  /** Adding a block to the free set, after merging it upwards as far as possible. */
  function Merge(g: Geometry, free: set<Block>, b: Block): set<Block>
    decreases b.level
  {
    if b.level == 0 || BuddyOf(g, b) !in free then free + {b}
    else Merge(g, free - {BuddyOf(g, b)}, Parent(g, b))
  }

  predicate LevelEmpty(free: set<Block>, level: nat) {
    forall b :: b in free ==> b.level != level
  }

  datatype Event =
    | Alloc(level: nat, donor: nat, start: nat)
    | Exhausted(level: nat)
    | Free(block: Block)

  ghost predicate Step(g: Geometry, s: State, e: Event, t: State) {
    match e
    case Alloc(level, donor, start) =>
      && donor <= level < g.levels
      && Block(donor, start) in s.free
      && (forall i :: donor < i <= level ==> LevelEmpty(s.free, i))
      && t == Carved(g, s, donor, level, start)
    case Exhausted(level) =>
      && level < g.levels
      && (forall i :: 0 <= i <= level ==> LevelEmpty(s.free, i))
      && t == s
    case Free(b) =>
      && b in s.live
      && t == State(Merge(g, s.free, b), s.live - {b})
  }

  ghost predicate Run(g: Geometry, ss: seq<State>, es: seq<Event>) {
    && |ss| == |es| + 1
    && ss[0] == Init(g)
    && forall i :: 0 <= i < |es| ==> Step(g, ss[i], es[i], ss[i + 1])
  }

  // ---- sizes ----

  lemma {:induction false} SizeHalves(g: Geometry, level: nat)
    requires level + 1 < g.levels
    ensures Size(g, level) == 2 * Size(g, level + 1)
  {
    assert Size(g, level) == Pow2(1 + (g.unitBits + g.levels - 1 - (level + 1)));
  }

  lemma {:induction false} SizeDivides(g: Geometry, coarse: nat, fine: nat)
    requires coarse <= fine < g.levels
    ensures Multiple(Size(g, coarse), Size(g, fine))
    ensures Size(g, fine) <= Size(g, coarse)
    ensures Multiple(Size(g, fine), Pow2(g.unitBits))
  {
    Pow2Divides(g.unitBits + g.levels - 1 - fine, g.unitBits + g.levels - 1 - coarse);
    Pow2Divides(g.unitBits, g.unitBits + g.levels - 1 - fine);
  }

  // ---- buddies ----

  lemma {:induction false} BuddyIsXor(g: Geometry, b: Block)
    requires b.level < g.levels
    ensures BuddyOf(g, b) == Block(b.level, g.origin + Xor(Offset(g, b), Size(g, b.level)))
  {
    XorIsFlip(Offset(g, b), g.unitBits + g.levels - 1 - b.level);
  }

  /** Exclusive or with the block size names an adjacent block of equal size, and is its own
      inverse, whatever the alignment of the span. */
  lemma {:induction false} BuddyIsAdjacent(g: Geometry, b: Block)
    requires b.level < g.levels && g.origin <= b.start
    requires Multiple(b.start - g.origin, Pow2(g.unitBits))
    ensures var c := BuddyOf(g, b); var n := Size(g, b.level);
      && (c.start == b.start + n || c.start + n == b.start)
      && Multiple(c.start - g.origin, Pow2(g.unitBits))
      && BuddyOf(g, c) == b
  {
    SizeDivides(g, b.level, b.level);
    FlipKeepsMultiple(b.start - g.origin, Size(g, b.level), Pow2(g.unitBits));
  }

  /** On its own grid a block is a left half exactly when it is on the grid of its parent. */
  lemma {:induction false} BuddyOnGrid(g: Geometry, b: Block)
    requires 0 < b.level < g.levels && OnGrid(g, b)
    ensures var n := Size(g, b.level);
      if Multiple(b.start - g.origin, Size(g, b.level - 1)) then BuddyOf(g, b).start == b.start + n
      else b.start >= g.origin + n && BuddyOf(g, b).start == b.start - n
    ensures OnGrid(g, Parent(g, b)) && OnGrid(g, BuddyOf(g, b))
    ensures Multiple(b.start - g.origin, Pow2(g.unitBits))
  {
    var n := Size(g, b.level);
    var x := b.start - g.origin;
    SizeHalves(g, b.level - 1);
    MultipleSelf(n);
    EvenMultiple(x, n);
    FlipKeepsMultiple(x, n, n);
    EvenMultiple(Flip(x, n), n);
    SizeDivides(g, b.level, b.level);
    MultipleChain(x, Pow2(g.unitBits), n);
  }

  lemma {:induction false} OneBuddyEach(g: Geometry, b: Block, c: Block)
    requires Fits(g, b) && Fits(g, c) && BuddyOf(g, c) == b
    ensures c == BuddyOf(g, b)
  {
    BuddyIsAdjacent(g, c);
  }

  // ---- the invariant survives each primitive step ----

  lemma {:induction false} InitInv(g: Geometry)
    requires Sound(g)
    ensures Inv(g, Init(g))
  {
    var s := Init(g);
    forall x | InSpan(g, x) ensures Covered(g, s.free + s.live, x) {
      assert Top(g) in s.free + s.live && Holds(g, Top(g), x);
    }
  }

  lemma {:induction false} GrabInv(g: Geometry, s: State, b: Block)
    requires Inv(g, s) && b in s.free
    ensures Inv(g, State(s.free - {b}, s.live + {b}))
  {
    assert (s.free - {b}) + (s.live + {b}) == s.free + s.live;
  }

  lemma {:induction false} ReleaseInv(g: Geometry, s: State, b: Block)
    requires Inv(g, s) && b in s.live
    requires b.level == 0 || BuddyOf(g, b) !in s.free
    ensures Inv(g, State(s.free + {b}, s.live - {b}))
  {
    var free := s.free + {b};
    assert free + (s.live - {b}) == s.free + s.live;
    forall c | c in free && c.level > 0 ensures BuddyOf(g, c) !in free {
      assert Fits(g, c) && Fits(g, b);
      BuddyIsAdjacent(g, c);
      if BuddyOf(g, c) == b { OneBuddyEach(g, b, c); }
    }
  }

  lemma {:induction false} HalveTiles(g: Geometry, s: set<Block>, b: Block)
    requires Tiles(g, s) && b in s && b.level + 1 < g.levels
    ensures Tiles(g, s - {b} + {LeftHalf(b), RightHalf(g, b)})
    ensures LeftHalf(b) !in s && RightHalf(g, b) !in s && LeftHalf(b) != RightHalf(g, b)
  {
    var l, r := LeftHalf(b), RightHalf(g, b);
    var t := s - {b} + {l, r};
    assert Fits(g, b);
    SizeHalves(g, b.level);
    SizeDivides(g, b.level, b.level + 1);
    MultipleSum(b.start - g.origin, Size(g, b.level + 1), Pow2(g.unitBits));
    assert Fits(g, l) && Fits(g, r);
    assert Overlap(g, b, l) && Overlap(g, b, r);
    forall c | c in s && c != b ensures !Overlap(g, l, c) && !Overlap(g, r, c) {
      assert !Overlap(g, b, c);
    }
    forall x | InSpan(g, x) ensures Covered(g, t, x) {
      var c :| c in s && Holds(g, c, x);
      assert c == b ==> Holds(g, l, x) || Holds(g, r, x);
      assert c != b ==> c in t;
    }
  }

  lemma {:induction false} HalveInv(g: Geometry, s: State, b: Block)
    requires Inv(g, s) && b in s.live && b.level + 1 < g.levels
    ensures Inv(g, State(s.free, s.live - {b} + {LeftHalf(b), RightHalf(g, b)}))
    ensures RightHalf(g, b) !in s.live && LeftHalf(b) !in s.live
  {
    var l, r := LeftHalf(b), RightHalf(g, b);
    var live := s.live - {b} + {l, r};
    assert Fits(g, b) && (Aligned(g) ==> OnGrid(g, b));
    HalveTiles(g, s.free + s.live, b);
    assert s.free + live == s.free + s.live - {b} + {l, r};
    if Aligned(g) {
      SizeHalves(g, b.level);
      SizeDivides(g, b.level, b.level + 1);
      MultipleChain(b.start - g.origin, Size(g, b.level + 1), Size(g, b.level));
      MultipleSelf(Size(g, b.level + 1));
      MultipleSum(b.start - g.origin, Size(g, b.level + 1), Size(g, b.level + 1));
    }
  }

  lemma {:induction false} FuseTiles(g: Geometry, s: set<Block>, b: Block)
    requires Tiles(g, s) && b in s && b.level > 0 && BuddyOf(g, b) in s
    ensures Tiles(g, s - {b, BuddyOf(g, b)} + {Parent(g, b)})
    ensures Parent(g, b) !in s
  {
    var c, p := BuddyOf(g, b), Parent(g, b);
    var t := s - {b, c} + {p};
    assert Fits(g, b) && Fits(g, c);
    BuddyIsAdjacent(g, b);
    SizeHalves(g, p.level);
    assert Fits(g, p);
    assert Overlap(g, p, b);
    forall d | d in s && d != b && d != c ensures !Overlap(g, p, d) {
      assert !Overlap(g, b, d) && !Overlap(g, c, d);
    }
    forall x | InSpan(g, x) ensures Covered(g, t, x) {
      var d :| d in s && Holds(g, d, x);
      assert d == b || d == c ==> Holds(g, p, x);
      assert d != b && d != c ==> d in t;
    }
  }

  lemma {:induction false} FuseInv(g: Geometry, s: State, b: Block)
    requires Inv(g, s) && b in s.live && b.level > 0
    requires BuddyOf(g, b) in s.live
    ensures Inv(g, State(s.free, s.live - {b, BuddyOf(g, b)} + {Parent(g, b)}))
    ensures Parent(g, b) !in s.live
  {
    var c, p := BuddyOf(g, b), Parent(g, b);
    var live := s.live - {b, c} + {p};
    FuseTiles(g, s.free + s.live, b);
    assert s.free + live == s.free + s.live - {b, c} + {p};
    assert Fits(g, b);
    if Aligned(g) {
      assert OnGrid(g, b);
      BuddyOnGrid(g, b);
    }
  }
}
