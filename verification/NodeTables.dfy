/** The node table at the start of each region, and how far the allocators of the region read in it. */
module NodeTables {
  import opened Bits
  import opened Buddy
  import opened BuddyRuns
  import opened FreeLists
  import opened NodeLists
  import opened NodeTags
  import opened FrameAlloc
  import opened Carving

  predicate OnNode(p: nat) { p % 32 == 0 }

  /** What the constructor of an allocator insists on, for a chunk at its mapped address. */
  predicate Placed(c: Config, hddm: nat) {
    && c.frames >= 2 && IsPow2(c.frames) && c.bytes == c.frames * 4096
    && c.listStart > 0 && c.start + hddm >= c.listStart
    && (c.start + hddm - c.listStart) % 4096 == 0 && (c.start + hddm) % 4096 == 0
  }

  function GeoOf(c: Config, hddm: nat): Geometry
    requires Placed(c, hddm)
  {
    SpanOf(TrailingZeros(c.frames) + 1, c.start + hddm, c.listStart)
  }

  /** The nodes of the chunk, and every node that its allocator may take for a buddy's, are in the
      table, and the chunk's own are untagged. */
  ghost predicate Ready(c: Config, hddm: nat, node: map<nat, Node>)
    requires Placed(c, hddm)
  {
    && Readable(GeoOf(c, hddm), node)
    && forall p :: OwnNode(GeoOf(c, hddm), p) ==> p in node && node[p].levelSize == None
  }

  lemma {:induction false} LevelsOfChunk(c: Config)
    requires c.frames >= 2 && IsPow2(c.frames)
    ensures TrailingZeros(c.frames) >= 1 && Pow2(TrailingZeros(c.frames)) == c.frames
  {
    TrailingZerosPow2(Log2(c.frames));
  }

  lemma {:induction false} BelongsIsPlaced(c: Config, r: Region, hddm: nat)
    requires Belongs(c, r, hddm) && r.base % 4096 == 0 && hddm > 0 && hddm % 4096 == 0
    ensures Placed(c, hddm)
    ensures GeoOf(c, hddm).base + Size(GeoOf(c, hddm), 0) <= c.listStart + r.length / 4096 * 32
    ensures GeoOf(c, hddm).base == c.listStart + (c.start - r.base) / 4096 * 32
    ensures Size(GeoOf(c, hddm), 0) == 32 * c.frames
  {
    var x, y := c.start - r.base, r.base + hddm;
    assert c.start + hddm == x + y && (x + y) % 4096 == 0;
    LevelsOfChunk(c);
    PagesScale(GeoOf(c, hddm), 0);
    assert x / 4096 + c.frames <= r.length / 4096;
  }

  lemma {:induction false} NodeOfSpan(origin: nat, page: nat, p: nat)
    requires origin == 4096 * page && origin <= p && OnNode(p)
    ensures Multiple(p - origin, Pow2(5))
  {
    assert Pow2(5) == 32;
    assert (p - origin) % 32 == 0;
    MultipleIsMod(p - origin, 32);
  }

  // ---- how far a computed buddy can lie ----

  lemma {:induction false} OddFactor(t: nat, k: nat)
    requires Multiple(127 * t, Pow2(k))
    ensures Multiple(t, Pow2(k))
  {
    if k == 0 {
      MultipleIsMod(t, 1);
    } else {
      var m := Pow2(k - 1);
      var q := Quotient(127 * t, 2 * m);
      HalveFactor(t, m, q);
      DivUnique(127 * (t / 2), m, q, 0);
      MultipleIsMod(127 * (t / 2), m);
      OddFactor(t / 2, k - 1);
      MultipleScales(t / 2, m, 2);
    }
  }

  lemma {:induction false} HalveFactor(t: nat, m: nat, q: nat)
    requires 127 * t == q * (2 * m)
    ensures t == 2 * (t / 2) && 127 * (t / 2) == q * m
  {
    assert q * (2 * m) == 2 * (q * m);
  }

  lemma {:induction false} MultipleScales(x: nat, m: nat, a: nat)
    requires m > 0 && a > 0 && Multiple(x, m)
    ensures a * m > 0 && Multiple(a * x, a * m)
  {
    var q := Quotient(x, m);
    MulAtLeast(a, m);
    assert a * x == q * (a * m);
    DivUnique(a * x, a * m, q, 0);
    MultipleIsMod(a * x, a * m);
  }

  /** In a table that fills its pages exactly, a last chunk makes the frame count even in every block
      size below its own. */
  lemma {:induction false} FullTable(total: nat, f: nat, n: nat, k: nat)
    requires total % 128 == 0 && f > 0 && 2 * n == Pow2(k) && Multiple(f, 2 * n)
    requires Multiple(total - ReservedPages(total), f)
    ensures Multiple(total, 2 * n)
  {
    var t := total / 128;
    assert ReservedPages(total) == t && total - t == 127 * t;
    MultipleChain(127 * t, 2 * n, f);
    OddFactor(t, k);
    MultipleTimes(t, 2 * n, 128);
  }

  lemma {:induction false} MultipleTimes(x: nat, m: nat, a: nat)
    requires m > 0 && Multiple(x, m)
    ensures Multiple(a * x, m)
  {
    var q := Quotient(x, m);
    assert a * x == (a * q) * m;
    DivUnique(a * x, m, a * q, 0);
    MultipleIsMod(a * x, m);
  }

  lemma {:induction false} LastIsOdd(x: nat, n: nat)
    requires n > 0 && x >= n && Multiple(x, 2 * n)
    ensures !EvenBlock(x - n, n)
  {
    MultipleSelf(n);
    MultipleTimes(n, n, 2);
    MultipleChain(x, n, 2 * n);
    EvenMultiple(x, n);
  }

  /** The buddy above the last block of a region is still within the reserved pages. */
  lemma {:induction false} AboveLast(total: nat, f: nat, n: nat, k: nat)
    requires f > 0 && n > 0 && 2 * n == Pow2(k) && Multiple(f, 2 * n) && n <= total
    requires ReservedPages(total) <= total && Multiple(total - ReservedPages(total), f)
    requires EvenBlock(32 * (total - n), 32 * n)
    ensures total < 128 * ReservedPages(total)
  {
    if total % 128 == 0 { FullTableIsOdd(total, f, n, k); }
    PaddedTable(total);
  }

  lemma {:induction false} FullTableIsOdd(total: nat, f: nat, n: nat, k: nat)
    requires total % 128 == 0 && f > 0 && n > 0 && 2 * n == Pow2(k) && Multiple(f, 2 * n) && n <= total
    requires ReservedPages(total) <= total && Multiple(total - ReservedPages(total), f)
    ensures !EvenBlock(32 * (total - n), 32 * n)
  {
    FullTable(total, f, n, k);
    MultipleScales(total, 2 * n, 32);
    LastIsOdd(32 * total, 32 * n);
  }

  lemma {:induction false} PaddedTable(total: nat)
    ensures total % 128 != 0 ==> total < 128 * ReservedPages(total)
  {
  }

  function NodeAddress(r: Region, hddm: nat, j: nat): nat { r.base + hddm + 32 * j }

  /** Every node that is computed as the buddy's of a block inside the span lies in the reserved pages of
      the region, so in no managed frame. It lies past the entries of the table, in the padding of its last page,
      exactly when the block ends with the last whole frame of the region and is an even one of its
      size. */
  lemma {:induction false} BuddyInTable(c: Config, r: Region, hddm: nat, b: Block) returns (j: nat)
    requires Belongs(c, r, hddm) && r.base % 4096 == 0 && hddm > 0 && hddm % 4096 == 0
    requires Placed(c, hddm) && Fits(GeoOf(c, hddm), b) && b.level > 0
    ensures BuddyOf(GeoOf(c, hddm), b).start == NodeAddress(r, hddm, j) && j < 128 * ReservedPages(r.length / 4096)
    ensures j >= r.length / 4096 <==>
      && b.start + Size(GeoOf(c, hddm), b.level) == NodeAddress(r, hddm, r.length / 4096)
      && EvenBlock(b.start - c.listStart, Size(GeoOf(c, hddm), b.level))
  {
    var g, total := GeoOf(c, hddm), r.length / 4096;
    var n := Pages(g, b.level);
    BelongsIsPlaced(c, r, hddm);
    PagesScale(g, b.level);
    assert Pow2(5) == 32;
    var i := Quotient(b.start - c.listStart, 32);
    TableFits(total);
    var x := Flip(32 * i, 32 * n);
    j := if EvenBlock(32 * i, 32 * n) then i + n else i - n;
    if j >= total { AboveRegion(c, r, hddm, b.level, i); }
  }

  lemma {:induction false} AboveRegion(c: Config, r: Region, hddm: nat, level: nat, i: nat)
    requires Belongs(c, r, hddm) && Placed(c, hddm) && 0 < level < GeoOf(c, hddm).levels
    requires var n := Pages(GeoOf(c, hddm), level);
      && n > 0 && r.length / 4096 <= i + n <= (c.start - r.base) / 4096 + c.frames && EvenBlock(32 * i, 32 * n)
    ensures i + Pages(GeoOf(c, hddm), level) == r.length / 4096 < 128 * ReservedPages(r.length / 4096)
  {
    var g, total := GeoOf(c, hddm), r.length / 4096;
    var n := Pages(g, level);
    EndsRegion(c, r, hddm, i, n);
    LevelsOfChunk(c);
    PagesHalve(c, g, level);
    TableFits(total);
    AboveLast(total, c.frames, n, g.levels - level);
  }

  lemma {:induction false} PagesHalve(c: Config, g: Geometry, level: nat)
    requires 0 < level < g.levels && c.frames == Pow2(g.levels - 1)
    ensures 2 * Pages(g, level) == Pow2(g.levels - level) && Multiple(c.frames, 2 * Pages(g, level))
  {
    Pow2Divides(g.levels - level, g.levels - 1);
  }

  lemma {:induction false} EndsRegion(c: Config, r: Region, hddm: nat, i: nat, n: nat)
    requires Belongs(c, r, hddm) && i + n >= r.length / 4096
    requires i + n <= (c.start - r.base) / 4096 + c.frames
    ensures i + n == r.length / 4096 && c.start + c.bytes == r.base + r.length / 4096 * 4096
  {
    var s := (c.start - r.base) / 4096;
    assert c.start - r.base == 4096 * s;
    assert s + c.frames <= r.length / 4096;
  }

  // ---- the tables in memory ----

  /** Nodes are 32 bytes apart and none is tagged. */
  ghost predicate Blank(node: map<nat, Node>) {
    forall p :: p in node ==> OnNode(p) && node[p].levelSize == None
  }

  /** The reserved pages of a region can be read as nodes. */
  ghost predicate TableMapped(r: Region, hddm: nat, node: map<nat, Node>) {
    forall j: nat :: j < 128 * ReservedPages(r.length / 4096) ==> NodeAddress(r, hddm, j) in node
  }

  ghost predicate TablesMapped(rs: seq<Region>, hddm: nat, node: map<nat, Node>) {
    forall n :: 0 <= n < |rs| && rs[n].usable ==> TableMapped(rs[n], hddm, node)
  }

  /** Mapped, untagged reserved pages are all that an allocator needs of the table. */
  lemma {:induction false} ReadyFromTable(c: Config, r: Region, hddm: nat, node: map<nat, Node>)
    requires Belongs(c, r, hddm) && r.base % 4096 == 0 && hddm > 0 && hddm % 4096 == 0
    requires TableMapped(r, hddm, node) && Blank(node)
    ensures Placed(c, hddm) && Ready(c, hddm, node)
  {
    BelongsIsPlaced(c, r, hddm);
    var g := GeoOf(c, hddm);
    forall b | Fits(g, b) && b.level > 0 ensures BuddyOf(g, b).start in node {
      var j := BuddyInTable(c, r, hddm, b);
    }
    forall p: nat | OwnNode(g, p) ensures p in node {
      assert Pow2(5) == 32;
      var j := Quotient(p - g.origin, 32);
      TableFits(r.length / 4096);
      assert p == NodeAddress(r, hddm, j);
    }
  }

  /** The regions that `fill_page_list` does not skip. */
  predicate Filled(r: Region) { r.usable && r.base != 0 && r.length > 4096 * 4 }

  /** `p` is an entry of the table of one of the first regions that are filled. */
  ghost predicate Entry(rs: seq<Region>, hddm: nat, p: nat) {
    exists n, j: nat :: 0 <= n < |rs| && Filled(rs[n]) && j < rs[n].length / 4096 && p == NodeAddress(rs[n], hddm, j)
  }

  ghost predicate FirstEntry(r: Region, hddm: nat, count: nat, p: nat) {
    exists j: nat :: j < count && p == NodeAddress(r, hddm, j)
  }

  /** `node` with the chosen entries blank and everything else as before. */
  ghost predicate BlankedIn(before: map<nat, Node>, node: map<nat, Node>, entry: nat -> bool) {
    && (forall p :: p in node <==> p in before || entry(p))
    && (forall p :: p in node ==> node[p] == if entry(p) then Node(NULL, NULL, None) else before[p])
  }

  /** Writes a blank node for every frame of one region. */
  method FillRegion(r: Region, hddm: nat, table: NodeTable)
    modifies table
    ensures BlankedIn(old(table.node), table.node, (p: nat) => FirstEntry(r, hddm, r.length / 4096, p))
  {
    var needed := r.length / 4096;
    for i := 0 to needed
      invariant BlankedIn(old(table.node), table.node, (p: nat) => FirstEntry(r, hddm, i, p))
    {
      ghost var before := table.node;
      table.node := table.node[NodeAddress(r, hddm, i) := Node(NULL, NULL, None)];
      forall p ensures FirstEntry(r, hddm, i + 1, p) <==> FirstEntry(r, hddm, i, p) || p == NodeAddress(r, hddm, i) { }
    }
  }

  /** Initialises the tables of all regions that are not skipped, and nothing else. */
  method FillPageList(regions: seq<Region>, hddm: nat, table: NodeTable)
    modifies table
    ensures BlankedIn(old(table.node), table.node, (p: nat) => Entry(regions, hddm, p))
    ensures forall r, j: nat | r in regions && r.usable && r.base != 0 && r.length > 4096 * 4 && j < r.length / 4096 ::
      var p := NodeAddress(r, hddm, j); p in table.node && table.node[p] == Node(NULL, NULL, None)
    ensures forall p :: p in table.node && (p in old(table.node) ==> table.node[p] != old(table.node)[p]) ==>
      exists r, j: nat :: r in regions && r.usable && r.base != 0 && r.length > 4096 * 4 && j < r.length / 4096
        && p == NodeAddress(r, hddm, j)
  {
    for n := 0 to |regions|
      invariant BlankedIn(old(table.node), table.node, (p: nat) => Entry(regions[..n], hddm, p))
    {
      forall p { EntryUpTo(regions, n, hddm, p); }
      var region := regions[n];
      if region.usable && region.base != 0 && region.length > 4096 * 4 {
        FillRegion(regions[n], hddm, table);
      }
    }
    assert regions[..|regions|] == regions;
  }

  lemma {:induction false} EntryUpTo(rs: seq<Region>, n: nat, hddm: nat, p: nat)
    requires n < |rs|
    ensures Entry(rs[..n + 1], hddm, p) <==>
      Entry(rs[..n], hddm, p) || (Filled(rs[n]) && FirstEntry(rs[n], hddm, rs[n].length / 4096, p))
  {
    if Entry(rs[..n], hddm, p) {
      var m, j: nat :| 0 <= m < n && Filled(rs[..n][m]) && j < rs[..n][m].length / 4096
                       && p == NodeAddress(rs[..n][m], hddm, j);
      assert rs[..n + 1][m] == rs[m];
    }
    if Filled(rs[n]) && FirstEntry(rs[n], hddm, rs[n].length / 4096, p) {
      assert rs[..n + 1][n] == rs[n];
    }
    if Entry(rs[..n + 1], hddm, p) {
      var m, j: nat :| 0 <= m < n + 1 && Filled(rs[..n + 1][m]) && j < rs[..n + 1][m].length / 4096
                       && p == NodeAddress(rs[..n + 1][m], hddm, j);
      if m < n { assert rs[..n][m] == rs[..n + 1][m]; }
    }
  }

  /** With at least four frames per allocator, a skipped region that is carved all the same starts at
      address zero. */
  lemma {:induction false} SkippedIsCarvedOnlyAtZero(r: Region, min: nat, hddm: nat)
    requires min >= 4 && !Filled(r) && RegionChunks(r, min, hddm) != []
    ensures r.usable && r.base == 0
  {
  }
}
