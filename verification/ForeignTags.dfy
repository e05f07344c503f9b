/**
  Two neighbouring allocators of one region, the first twice as large as the second, and exactly when
  freeing the upper half of the first takes the whole of the second for its buddy.
 */
module ForeignTags {
  import opened Bits
  import opened Buddy
  import opened BuddyRuns
  import opened FreeLists
  import opened NodeLists
  import opened NodeTags
  import opened Merging
  import opened FrameAlloc
  import opened Carving
  import opened NodeTables

  /** `2m` frames whose first node has index `s` in the table at `l`, where `m` is `2^k`, and the `m`
      frames that follow. */
  function Lender(l: nat, s: nat, k: nat): Geometry { Geometry(l, l + 32 * s, 5, k + 2) }

  function Sibling(l: nat, s: nat, k: nat): Geometry { Geometry(l, l + 32 * (s + 2 * Pow2(k)), 5, k + 1) }

  /** The halves of the first, and the second as a block of the same size. */
  function Lower(l: nat, s: nat): Block { Block(1, l + 32 * s) }

  function Upper(l: nat, s: nat, k: nat): Block { Block(1, l + 32 * (s + Pow2(k))) }

  function Whole(l: nat, s: nat, k: nat): Block { Block(1, l + 32 * (s + 2 * Pow2(k))) }

  /** Consecutive chunks of one region whose sizes are in that proportion are such a pair. */
  lemma {:induction false} ConsecutiveChunks(r: Region, min: nat, hddm: nat, i: nat, c: Config, d: Config)
    returns (k: nat)
    requires min >= 2 && IsPow2(min) && r.base % 4096 == 0 && hddm > 0 && hddm % 4096 == 0
    requires i + 1 < |RegionChunks(r, min, hddm)|
    requires c == RegionChunks(r, min, hddm)[i] && d == RegionChunks(r, min, hddm)[i + 1] && c.frames == 2 * d.frames
    ensures Placed(c, hddm) && Placed(d, hddm) && d.frames == Pow2(k)
    ensures var s := (c.start + hddm - c.listStart) / 4096;
      GeoOf(c, hddm) == Lender(c.listStart, s, k) && GeoOf(d, hddm) == Sibling(c.listStart, s, k)
  {
    RegionBelongs(r, min, hddm, i);
    RegionBelongs(r, min, hddm, i + 1);
    RegionAdjoins(r, min, hddm, i);
    k := PairOf(c, d, r, hddm);
  }

  lemma {:induction false} RegionAdjoins(r: Region, min: nat, hddm: nat, i: nat)
    requires min >= 2 && IsPow2(min) && i + 1 < |RegionChunks(r, min, hddm)|
    ensures var cs := RegionChunks(r, min, hddm); cs[i + 1].start == cs[i].start + cs[i].bytes
  {
    var total := r.length / 4096;
    ChunksAdjoin(r.base + ReservedPages(total) * 4096, total - ReservedPages(total), min, r.base + hddm, i);
  }

  lemma {:induction false} PairOf(c: Config, d: Config, r: Region, hddm: nat) returns (k: nat)
    requires Belongs(c, r, hddm) && Belongs(d, r, hddm) && r.base % 4096 == 0 && hddm > 0 && hddm % 4096 == 0
    requires d.start == c.start + c.bytes && c.frames == 2 * d.frames
    ensures Placed(c, hddm) && Placed(d, hddm) && d.frames == Pow2(k)
    ensures var s := (c.start + hddm - c.listStart) / 4096;
      GeoOf(c, hddm) == Lender(c.listStart, s, k) && GeoOf(d, hddm) == Sibling(c.listStart, s, k)
  {
    BelongsIsPlaced(c, r, hddm);
    BelongsIsPlaced(d, r, hddm);
    k := Log2(d.frames);
    assert c.frames == Pow2(k + 1);
    TrailingZerosPow2(k);
    TrailingZerosPow2(k + 1);
    FollowingIndex(c.start - r.base, c.frames);
  }

  lemma {:induction false} FollowingIndex(x: nat, f: nat)
    requires x % 4096 == 0
    ensures (x + f * 4096) / 4096 == x / 4096 + f
  {
  }

  lemma {:induction false} PairSizes(l: nat, s: nat, k: nat)
    ensures Size(Lender(l, s, k), 0) == 64 * Pow2(k) && Size(Lender(l, s, k), 1) == 32 * Pow2(k)
    ensures Size(Sibling(l, s, k), 0) == 32 * Pow2(k) && Pages(Sibling(l, s, k), 0) == Pages(Lender(l, s, k), 1)
    ensures Sound(Lender(l, s, k)) && Sound(Sibling(l, s, k))
  {
    PagesScale(Lender(l, s, k), 0);
    PagesScale(Lender(l, s, k), 1);
    PagesScale(Sibling(l, s, k), 0);
    assert Pow2(5) == 32;
    MultipleIsMod(32 * s, 32);
    MultipleIsMod(32 * (s + 2 * Pow2(k)), 32);
  }

  lemma {:induction false} UpperParity(s: nat, m: nat)
    requires m > 0
    ensures EvenBlock(32 * (s + m), 32 * m) <==> s % (2 * m) >= m
  {
    var q, r := s / (2 * m), s % (2 * m);
    assert s == q * (2 * m) + r;
    EvenBlockQuotient(32 * (s + m), 32 * m);
    if r >= m {
      assert 32 * (s + m) == (2 * q + 2) * (32 * m) + 32 * (r - m);
      DivUnique(32 * (s + m), 32 * m, 2 * q + 2, 32 * (r - m));
    } else {
      assert 32 * (s + m) == (2 * q + 1) * (32 * m) + 32 * r;
      DivUnique(32 * (s + m), 32 * m, 2 * q + 1, 32 * r);
    }
  }

  /** The buddy of the upper half is the whole sibling exactly when the first node index leaves a
      remainder of at least `m` modulo `2m`; otherwise it is the lower half, as it should be. */
  lemma {:induction false} UpperBuddy(l: nat, s: nat, k: nat)
    ensures BuddyOf(Lender(l, s, k), Upper(l, s, k)) ==
      if s % (2 * Pow2(k)) >= Pow2(k) then Whole(l, s, k) else Lower(l, s)
  {
    PairSizes(l, s, k);
    UpperParity(s, Pow2(k));
  }

  /** So with the sibling untouched, and its block tagged, that remainder decides whether freeing the
      upper half is safe. */
  lemma {:induction false} ShelteredIffRemainder(l: nat, s: nat, k: nat, tagged: set<Block>)
    requires Whole(l, s, k) in tagged
    ensures Sheltered(Lender(l, s, k), tagged, Upper(l, s, k)) <==> s % (2 * Pow2(k)) < Pow2(k)
  {
    var g := Lender(l, s, k);
    PairSizes(l, s, k);
    UpperBuddy(l, s, k);
    assert Pow2(5) == 32;
    MultipleIsMod(32 * s, 32);
    assert Fits(g, Lower(l, s)) && !Fits(g, Whole(l, s, k));
  }

  /** The first allocator can come to have both halves handed out, and then the lower one back. */
  lemma {:induction false} HalvesComeAndGo(l: nat, s: nat, k: nat)
    ensures var g, lower, upper := Lender(l, s, k), Lower(l, s), Upper(l, s, k);
      && Step(g, Init(g), Alloc(1, 0, lower.start), State({upper}, {lower}))
      && Step(g, State({upper}, {lower}), Alloc(1, 1, upper.start), State({}, {lower, upper}))
      && Step(g, State({}, {lower, upper}), Free(lower), State({lower}, {upper}))
  {
    var g, lower, upper := Lender(l, s, k), Lower(l, s), Upper(l, s, k);
    PairSizes(l, s, k);
    assert Remainders(g, lower.start, 0, 1) == {upper};
    assert Remainders(g, upper.start, 1, 1) == {};
    assert lower != upper;
    assert {lower, upper} - {lower} == {upper};
  }

  /** How many blocks the first allocator lists at level 1 in those two states. */
  lemma {:induction false} OwnListLength(a: FrameAllocator, l: nat, s: nat, k: nat)
    requires a.Valid() && a.Geo() == Lender(l, s, k)
    ensures |a.lists| > 1
    ensures a.free == {} ==> Lengths(a.lists)[1] == 0
    ensures a.free == {Lower(l, s)} ==> Lengths(a.lists)[1] == 1
  {
    var chain := a.chains[1];
    assert DLinked(a.table.node, a.lists[1], chain, PageSizes(a.Geo())[1]);
    forall p ensures p in chain <==> Block(1, p) in a.free { InBlocks(a.chains, Block(1, p)); }
    assert chain != [] ==> chain[0] in chain;
    assert |chain| >= 2 ==> chain[0] != chain[1];
    if a.free == {Lower(l, s)} {
      assert Lower(l, s).start in chain;
      assert forall i :: 0 <= i < |chain| ==> chain[i] in chain;
    }
  }

  /** In the unsafe case merging meets the sibling first, panics exactly if nothing is listed at that
      level, and otherwise makes a block that leaves the span and contains the whole of the sibling. */
  lemma {:induction false} SiblingIsSwallowed(l: nat, s: nat, k: nat, tagged: set<Block>, lens: seq<nat>)
    requires s % (2 * Pow2(k)) >= Pow2(k) && Whole(l, s, k) in tagged && |lens| > 1
    ensures var g, h, upper := Lender(l, s, k), Sibling(l, s, k), Upper(l, s, k);
      && !Sheltered(g, tagged, upper) && ForeignBuddy(g, tagged, upper) == Whole(l, s, k)
      && (Underflows(g, tagged, lens, upper) <==> lens[1] == 0)
      && MergedAt(g, tagged, upper) == Block(0, upper.start)
      && Merge(g, tagged, upper) == tagged - {Whole(l, s, k)} + {Block(0, upper.start)}
      && !Fits(g, Block(0, upper.start))
      && upper.start <= h.base && h.base + Size(h, 0) <= upper.start + Size(g, 0)
  {
    var g, upper, whole := Lender(l, s, k), Upper(l, s, k), Whole(l, s, k);
    PairSizes(l, s, k);
    UpperBuddy(l, s, k);
    assert !Fits(g, whole) && Parent(g, upper) == Block(0, upper.start);
    assert !Underflows(g, tagged, lens, Block(0, upper.start));
  }

  /** The tag of an untouched sibling is the tag of a half of the first. */
  lemma {:induction false} WholeIsTagged(a: FrameAllocator, b: FrameAllocator, l: nat, s: nat, k: nat)
    requires a.Valid() && b.Valid() && a.table == b.table
    requires a.Geo() == Lender(l, s, k) && b.Geo() == Sibling(l, s, k) && b.Abs() == Init(b.Geo())
    ensures Whole(l, s, k) in TaggedAs(a.Geo(), a.table.node)
  {
    PairSizes(l, s, k);
    InBlocks(b.chains, Top(b.Geo()));
    FreeIsOwn(b.Geo(), b.Abs(), Top(b.Geo()));
    TagIffListed(b, b.Geo().base, Pages(b.Geo(), 0));
    InTagged(a.Geo(), a.table.node, Whole(l, s, k));
  }

  /** With both halves handed out and the sibling untouched, freeing the upper half panics. Once the
      lower half has been given back it does not, and the sibling is swallowed. */
  lemma {:induction false} FreeingUpperHalf(a: FrameAllocator, b: FrameAllocator, l: nat, s: nat, k: nat)
    requires a.Valid() && b.Valid() && a.table == b.table && s % (2 * Pow2(k)) >= Pow2(k)
    requires a.Geo() == Lender(l, s, k) && b.Geo() == Sibling(l, s, k) && b.Abs() == Init(b.Geo())
    requires a.free == {} || a.free == {Lower(l, s)}
    ensures |a.lists| > 1
    ensures !Sheltered(a.Geo(), TaggedAs(a.Geo(), a.table.node), Upper(l, s, k))
    ensures Underflows(a.Geo(), TaggedAs(a.Geo(), a.table.node), Lengths(a.lists), Upper(l, s, k)) <==> a.free == {}
  {
    WholeIsTagged(a, b, l, s, k);
    OwnListLength(a, l, s, k);
    SiblingIsSwallowed(l, s, k, TaggedAs(a.Geo(), a.table.node), Lengths(a.lists));
  }

  lemma {:induction false} SiblingHeader(b: FrameAllocator, l: nat, s: nat, k: nat)
    requires b.Valid() && b.Geo() == Sibling(l, s, k) && b.Abs() == Init(b.Geo())
    ensures |b.lists| > 0 && b.lists[0] == DoubleFreeList(Whole(l, s, k).start, 1)
  {
    var chain := b.chains[0];
    assert DLinked(b.table.node, b.lists[0], chain, PageSizes(b.Geo())[0]);
    assert |chain| >= 2 ==> chain[0] != chain[1];
    forall p ensures p in chain <==> p == b.Geo().base { InBlocks(b.chains, Block(0, p)); }
    assert b.Geo().base in chain && forall i :: 0 <= i < |chain| ==> chain[i] in chain;
  }

  /** What the first allocator is left with: the upper half at the front of level 0, and the sibling's
      node blank although the sibling's own header still names it. */
  lemma {:induction false} AfterUpperHalf(a: FrameAllocator, was: Snapshot, l: nat, s: nat, k: nat)
    requires s % (2 * Pow2(k)) >= Pow2(k) && a.Geo() == Lender(l, s, k) && was in TidyStates(a.Geo())
    requires was.s.free == {Lower(l, s)} && Whole(l, s, k) in TaggedAs(a.Geo(), was.node)
    requires 0 < |was.lists| && !Sheltered(a.Geo(), TaggedAs(a.Geo(), was.node), Upper(l, s, k))
    requires a.Now() in Frees(a.Geo(), Upper(l, s, k), true, was)
    ensures |a.lists| > 0 && DLinked(a.table.node, a.lists[0], [Upper(l, s, k).start], Pages(a.Geo(), 0))
    ensures Whole(l, s, k).start in a.table.node && a.table.node[Whole(l, s, k).start] == Node(NULL, NULL, None)
  {
    var g, tagged, upper, whole := a.Geo(), TaggedAs(a.Geo(), was.node), Upper(l, s, k), Whole(l, s, k);
    assert Tidy(g, was.node, was.lists, was.chains, was.s) && Freed(g, upper, true, was, a.Now());
    assert |was.lists| == k + 2;
    SiblingIsSwallowed(l, s, k, tagged, Lengths(was.lists));
    EmptyLevel(was.chains, 0);
    assert [upper.start] + was.chains[0] == [upper.start];
    assert Strayed(g, was.node, a.table.node, whole, upper.start, was.lists[1], was.chains[1], a.lists[1]);
    assert whole.start != upper.start;
  }

  /** Frees the upper half while the lower one is free and the sibling untouched. */
  method FreeUpperHalf(a: FrameAllocator, b: FrameAllocator, ghost l: nat, ghost s: nat, k: nat) returns (ok: bool)
    requires a.Valid() && b.Valid() && a.table == b.table && s % (2 * Pow2(k)) >= Pow2(k)
    requires a.Geo() == Lender(l, s, k) && b.Geo() == Sibling(l, s, k)
    requires a.Abs() == State({Lower(l, s)}, {Upper(l, s, k)}) && b.Abs() == Init(b.Geo())
    requires ForeignHeld(a.Geo(), a.table.node, 1)
    modifies a, a.table
    ensures ok && |a.lists| == k + 2 && DLinked(a.table.node, a.lists[0], [Upper(l, s, k).start], Pages(a.Geo(), 0))
    ensures Whole(l, s, k).start in a.table.node && a.table.node[Whole(l, s, k).start] == Node(NULL, NULL, None)
  {
    ghost var was, upper := a.Now(), Upper(l, s, k);
    PairSizes(l, s, k);
    FreeingUpperHalf(a, b, l, s, k);
    WholeIsTagged(a, b, l, s, k);
    ReachesWhole(a.Geo(), a.table.node, l, s, k);
    var addr := a.virtStart + 4096 * Pow2(k);
    ok := a.DeallocateContiguousFrames(addr, Pow2(k), 1, upper.start);
    AfterUpperHalf(a, was, l, s, k);
  }

  /** After that the two allocators hand out overlapping frames: the first serves `2m` frames from the
      upper half on, the second the last `m` of them. */
  method ServeTwice(a: FrameAllocator, b: FrameAllocator, ghost l: nat, ghost s: nat, k: nat)
    returns (ok: bool, x: Option<nat>, y: Option<nat>)
    requires a != b && a.Valid() && b.Valid() && a.table == b.table && s % (2 * Pow2(k)) >= Pow2(k)
    requires a.Geo() == Lender(l, s, k) && b.Geo() == Sibling(l, s, k)
    requires a.Abs() == State({Lower(l, s)}, {Upper(l, s, k)}) && b.Abs() == Init(b.Geo())
    requires ForeignHeld(a.Geo(), a.table.node, 1)
    modifies a, b, a.table
    ensures ok && x.Some? && y.Some? && y.value == x.value + 4096 * Pow2(k)
    ensures Pages(a.Geo(), 0) == 2 * Pow2(k) && Pages(b.Geo(), 0) == Pow2(k)
  {
    SiblingHeader(b, l, s, k);
    NodesAligned(l, s, k);
    assert b.Static() && |b.lists| == b.levels;
    ok := FreeUpperHalf(a, b, l, s, k);
    LinkedIsPoppable(a.table.node, a.lists[0], [Upper(l, s, k).start], Pages(a.Geo(), 0));
    x := a.ServeWhole([Upper(l, s, k).start]);
    y := b.ServeWhole([]);
  }

  lemma {:induction false} NodesAligned(l: nat, s: nat, k: nat)
    ensures Multiple(Upper(l, s, k).start - l, 32) && Multiple(Whole(l, s, k).start - l, 32)
  {
    Times32(s + Pow2(k));
    Times32(s + 2 * Pow2(k));
  }

  lemma {:induction false} Times32(i: nat)
    ensures Multiple(32 * i, 32)
  {
    MultipleIsMod(32 * i, 32);
  }

  lemma {:induction false} ReachesWhole(g: Geometry, node: map<nat, Node>, l: nat, s: nat, k: nat)
    requires s % (2 * Pow2(k)) >= Pow2(k) && g == Lender(l, s, k) && Whole(l, s, k) in TaggedAs(g, node)
    ensures Reaches(g, node.Keys, TaggedAs(g, node), Upper(l, s, k))
  {
    UpperBuddy(l, s, k);
    InTagged(g, node, Whole(l, s, k));
  }

  /** The first foreign buddy is not the only one at which merging may panic: here it gets past one,
      whose level lists a block, and panics at the next. */
  lemma {:induction false} PanicsLater(g: Geometry, tagged: set<Block>, lens: seq<nat>, b: Block)
    requires g == Geometry(0, 32, 5, 3) && b == Block(2, 128) && lens == [0, 0, 1]
    requires tagged == {Block(2, 32), Block(2, 160), Block(1, 192)}
    ensures Fits(g, b) && !Sheltered(g, tagged, b)
    ensures lens[ForeignBuddy(g, tagged, b).level] > 0 && Underflows(g, tagged, lens, b)
  {
    assert Pow2(5) == 32 && Pow2(6) == 64 && Pow2(7) == 128;
    MultipleIsMod(128, 32);
    EvenBlockQuotient(128, 32);
    EvenBlockQuotient(128, 64);
    assert BuddyOf(g, b) == Block(2, 160) && Parent(g, b) == Block(1, 128);
    assert BuddyOf(g, Parent(g, b)) == Block(1, 192);
  }

  // ---- a region that has such a pair ----

  lemma {:induction false} HighBitIs(n: nat, k: nat)
    requires Pow2(k) <= n < 2 * Pow2(k)
    ensures HighBit(n) == Pow2(k)
  {
    var t := HighBitIsPow2(n);
    assert Pow2(k + 1) == 2 * Pow2(k) && Pow2(t + 1) == 2 * Pow2(t);
    Pow2Order(k, t + 1);
    Pow2Order(t, k + 1);
  }

  /** The last two chunks of a run of frames that ends at `end`, of `2^j` and `2^i` frames. */
  function First(end: nat, l: nat, j: nat, i: nat): Config
    requires end >= (Pow2(j) + Pow2(i)) * 4096
  {
    Config(end - (Pow2(j) + Pow2(i)) * 4096, Pow2(j), Pow2(j) * 4096, l)
  }

  function Second(end: nat, l: nat, i: nat): Config
    requires end >= Pow2(i) * 4096
  {
    Config(end - Pow2(i) * 4096, Pow2(i), Pow2(i) * 4096, l)
  }

  predicate EndsWith(cs: seq<Config>, c: Config, d: Config) {
    |cs| >= 2 && cs[|cs| - 2] == c && cs[|cs| - 1] == d
  }

  lemma {:induction false} TailChunks(end: nat, l: nat, min: nat, j: nat, i: nat)
    requires i < j && 1 <= min <= Pow2(i) && end >= (Pow2(j) + Pow2(i)) * 4096
    ensures Chunks(end - (Pow2(j) + Pow2(i)) * 4096, Pow2(j) + Pow2(i), min, l) ==
      [First(end, l, j, i), Second(end, l, i)]
  {
    Pow2Order(i, j);
    HighBitIs(Pow2(j) + Pow2(i), j);
    HighBitIs(Pow2(i), i);
    assert Chunks(end, 0, min, l) == [];
    assert Chunks(end - Pow2(i) * 4096, Pow2(i), min, l) == [Second(end, l, i)];
  }

  lemma {:induction false} EndsAfterStep(start: nat, remaining: nat, min: nat, l: nat, k: nat, size: nat,
                                         c: Config, d: Config)
    requires size == Pow2(k) && size <= remaining < 2 * size && remaining >= min >= 1
    requires EndsWith(Chunks(start + size * 4096, remaining - size, min, l), c, d)
    ensures EndsWith(Chunks(start, remaining, min, l), c, d)
  {
    HighBitIs(remaining, k);
  }

  /** Carving `2^(k+1) - 2^j + 2^i` frames takes every bit of the count and ends with an allocator of
      `2^j` frames followed by one of `2^i`. */
  lemma {:induction false} CarvesPair(end: nat, l: nat, min: nat, start: nat, frames: nat, k: nat, j: nat, i: nat)
    requires i < j <= k && 1 <= min <= Pow2(i) && frames == 2 * Pow2(k) - Pow2(j) + Pow2(i)
    requires start + frames * 4096 == end >= (Pow2(j) + Pow2(i)) * 4096
    ensures EndsWith(Chunks(start, frames, min, l), First(end, l, j, i), Second(end, l, i))
    decreases k
  {
    Pow2Order(i, j);
    if k == j {
      TailChunks(end, l, min, j, i);
    } else {
      var size := Pow2(k);
      Pow2Order(j, k);
      CarvesPair(end, l, min, start + size * 4096, frames - size, k - 1, j, i);
      EndsAfterStep(start, frames, min, l, k, size, First(end, l, j, i), Second(end, l, i));
    }
  }

  /** So does carving any usable region whose table leaves that many frames. */
  lemma {:induction false} RegionEndsWithPair(r: Region, hddm: nat, min: nat, start: nat, frames: nat,
                                              k: nat, j: nat, i: nat)
    requires i < j <= k && 1 <= min <= Pow2(i) && frames == 2 * Pow2(k) - Pow2(j) + Pow2(i)
    requires IsRunOf(r, start, frames)
    ensures r.length >= (Pow2(j) + Pow2(i)) * 4096
    ensures var end, l := r.base + r.length, r.base + hddm;
      EndsWith(RegionChunks(r, min, hddm), First(end, l, j, i), Second(end, l, i))
  {
    Pow2Order(k, j);
    CarvesPair(r.base + r.length, r.base + hddm, min, start, frames, k, j, i);
  }

  /** The frames from `start` on are what the table of `r` leaves, up to its very end. */
  predicate IsRunOf(r: Region, start: nat, frames: nat) {
    var total := r.length / 4096;
    && r.usable && ReservedPages(total) + frames == total
    && start == r.base + ReservedPages(total) * 4096 && start + frames * 4096 == r.base + r.length
  }

  /** A region of 2048 frames, eight mebibytes, is one, and its pair is of the unsafe kind. */
  lemma {:induction false} EightMebibytes(base: nat, hddm: nat)
    ensures 2032 == 2 * Pow2(10) - Pow2(5) + Pow2(4)
    ensures IsRunOf(Region(true, base, 2048 * 4096), base + 16 * 4096, 2032)
    ensures Pow2(4) == 16 && 2000 % (2 * Pow2(4)) >= Pow2(4)
    ensures var end, l := base + 2048 * 4096, base + hddm;
      && Pow2(5) == 32 && SpanOf(6, First(end, l, 5, 4).start + hddm, l) == Lender(l, 2000, 4)
      && SpanOf(5, Second(end, l, 4).start + hddm, l) == Sibling(l, 2000, 4)
  {
    PowersUpTo10();
    SpanAtIndex(6, base + 2000 * 4096 + hddm, base + hddm, 2000);
    SpanAtIndex(5, base + 2032 * 4096 + hddm, base + hddm, 2032);
  }

  /** In a region of one more frame, freeing the first frame of the last pair reads the node past the
      entries of the table. */
  lemma {:induction false} ReadsPastEntries(base: nat, hddm: nat)
    ensures 2032 == 2 * Pow2(10) - Pow2(5) + Pow2(4) && Pow2(4) == 16
    ensures IsRunOf(Region(true, base, 2049 * 4096), base + 17 * 4096, 2032)
    ensures var end, l := base + 2049 * 4096, base + hddm; var g := SpanOf(5, Second(end, l, 4).start + hddm, l);
      Fits(g, Block(4, l + 32 * 2048)) && BuddyOf(g, Block(4, l + 32 * 2048)).start == l + 32 * 2049
  {
    PowersUpTo10();
    var l := base + hddm;
    SpanAtIndex(5, base + 2033 * 4096 + hddm, l, 2033);
    var g := Geometry(l, 2033 * 32 + l, 5, 5);
    MultipleIsMod(32 * 2048, 32);
    EvenBlockQuotient(32 * 2048, 32);
    assert Size(g, 4) == 32 && Size(g, 0) == 512;
  }

  lemma {:induction false} PowersUpTo10()
    ensures Pow2(4) == 16 && Pow2(5) == 32 && Pow2(6) == 64 && Pow2(7) == 128
    ensures Pow2(8) == 256 && Pow2(9) == 512 && Pow2(10) == 1024
  {
    assert Pow2(5) == 32;
  }
}
