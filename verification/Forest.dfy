/** The forest of frame allocators that share one table of nodes. */
module Forest {
  import opened Bits
  import opened Buddy
  import opened BuddyRuns
  import opened FreeLists
  import opened NodeLists
  import opened NodeTags
  import opened Merging
  import opened FrameAlloc
  import opened Carving
  import opened NodeTables

  /** Two allocators manage different frames through different nodes. */
  ghost predicate Apart(a: FrameAllocator, b: FrameAllocator) {
    && (a.virtEnd <= b.virtStart || b.virtEnd <= a.virtStart)
    && (a.firstNode + Size(a.Geo(), 0) <= b.firstNode || b.firstNode + Size(b.Geo(), 0) <= a.firstNode)
  }

  ghost predicate ApartFrom(a: FrameAllocator, c: Config, hddm: nat)
    requires Placed(c, hddm)
  {
    var g := GeoOf(c, hddm);
    && (a.virtEnd <= c.start + hddm || c.start + hddm + c.bytes <= a.virtStart)
    && (a.firstNode + Size(a.Geo(), 0) <= g.base || g.base + Size(g, 0) <= a.firstNode)
  }

  ghost predicate ManagesChunk(a: FrameAllocator, c: Config, hddm: nat)
    requires Placed(c, hddm)
  {
    a.Geo() == GeoOf(c, hddm) && a.virtStart == c.start + hddm && a.virtEnd == c.start + hddm + c.bytes
  }

  /** A tagged node of one allocator is on one of its lists, away from any other span. */
  lemma {:induction false} HeldBy(a: FrameAllocator, g: Geometry, p: nat, size: nat)
    requires a.Valid() && InSpan(a.Geo(), p) && OnNode(p)
    requires p in a.table.node && a.table.node[p].levelSize == Some(size)
    requires forall q :: InSpan(a.Geo(), q) ==> !InSpan(g, q)
    ensures Held(g, a.table.node, p, size)
  {
    NodeOfSpan(a.pageListStart, a.tablePage, p);
    assert OwnNode(a.Geo(), p);
    TagIffListed(a, p, size);
    var l :| 0 <= l < a.levels && size == Pages(a.Geo(), l) && p in a.chains[l];
    var k :| 0 <= k < |a.chains[l]| && a.chains[l][k] == p;
    assert DLinked(a.table.node, a.lists[l], a.chains[l], PageSizes(a.Geo())[l]);
    ListedApart(a.Geo(), a.Abs(), a.chains, l);
    assert HeldAt(g, a.table.node, p, size, a.lists[l], a.chains[l], k);
  }

  /** A valid allocator stays valid when only nodes outside its span have changed since `node`. */
  lemma {:induction false} StaysValid(a: FrameAllocator, node: map<nat, Node>, g: Geometry)
    requires a.ValidWith(node) && KeepsOthers(g, node, a.table.node)
    requires forall p :: InSpan(a.Geo(), p) ==> !InSpan(g, p)
    ensures a.Valid()
  {
    var node' := a.table.node;
    var sizes := PageSizes(a.Geo());
    forall l | 0 <= l < a.levels ensures DLinked(node', a.lists[l], a.chains[l], sizes[l]) {
      assert DLinked(node, a.lists[l], a.chains[l], sizes[l]);
      forall p | p in a.chains[l] ensures InSpan(a.Geo(), p) {
        InBlocks(a.chains, Block(l, p));
        FreeIsOwn(a.Geo(), a.Abs(), Block(l, p));
      }
    }
  }

  /** An allocator has handed out the page-aligned block at `addr`, of `level` and inside its range. */
  ghost predicate Serves(a: FrameAllocator, was: State, now: State, pages: nat, addr: nat, level: nat, donor: nat,
                         node: nat) {
    && level < a.levels && pages <= Pages(a.Geo(), level)
    && (level + 1 < a.levels ==> Pages(a.Geo(), level + 1) < pages)
    && LevelOfBytes(a.Geo(), 4096 * pages, level)
    && Step(a.Geo(), was, Event.Alloc(level, donor, node), now)
    && node >= a.pageListStart && addr == a.FrameOf(node) && addr % 4096 == 0
    && a.virtStart <= addr && addr + 4096 * Pages(a.Geo(), level) <= a.virtEnd
  }

  /** The allocator of one chunk whose nodes are initialised, as one free block. */
  method NewAllocator(c: Config, hddm: nat, table: NodeTable) returns (a: FrameAllocator)
    requires Placed(c, hddm) && Ready(c, hddm, table.node)
    modifies table
    ensures fresh(a) && a.table == table && a.Valid() && ManagesChunk(a, c, hddm) && a.Abs() == Init(a.Geo())
    ensures KeepsOthers(GeoOf(c, hddm), old(table.node), table.node)
    ensures forall b: FrameAllocator :: ApartFrom(b, c, hddm) ==> Apart(b, a)
  {
    var levels := TrailingZeros(c.frames) + 1;
    LevelsOfChunk(c);
    SpanArithmetic(levels, c.start + hddm, c.start + hddm + c.bytes, c.listStart);
    a := new FrameAllocator(table, levels, c.start + hddm, c.start + hddm + c.bytes, c.listStart);
  }

  class FrameForest {
    const table: NodeTable
    var allocators: seq<FrameAllocator>

    constructor (table: NodeTable)
      requires Blank(table.node)
      ensures this.table == table && allocators == [] && Valid()
    {
      this.table := table;
      allocators := [];
    }

    ghost predicate Distinct()
      reads this
    {
      && (forall i :: 0 <= i < |allocators| ==> allocators[i].table == table)
      && (forall i, j :: 0 <= i < j < |allocators| ==> allocators[i] != allocators[j])
      && (forall i, j :: 0 <= i < |allocators| && 0 <= j < |allocators| && i != j ==>
        Apart(allocators[i], allocators[j]))
    }

    /** Some allocator manages the node. */
    ghost predicate Manages(p: nat)
      reads this
    {
      exists i :: 0 <= i < |allocators| && InSpan(allocators[i].Geo(), p)
    }

    /** Nodes are 32 bytes apart, and only managed ones are tagged. */
    ghost predicate Orderly(node: map<nat, Node>)
      reads this
    {
      && (forall p :: p in node ==> OnNode(p))
      && forall p {:trigger Manages(p)} :: p in node && node[p].levelSize.Some? ==> Manages(p)
    }

    ghost predicate Valid()
      reads this, allocators, table
    {
      && Distinct() && Orderly(table.node)
      && forall i :: 0 <= i < |allocators| ==> allocators[i].Valid()
    }

    /** Creates the allocator of one chunk whose nodes are initialised. */
    method Add(c: Config, hddm: nat)
      requires Valid() && Placed(c, hddm) && Ready(c, hddm, table.node)
      requires forall j :: 0 <= j < |allocators| ==> ApartFrom(allocators[j], c, hddm)
      modifies this, table
      ensures Valid() && |allocators| == |old(allocators)| + 1 && allocators[..|old(allocators)|] == old(allocators)
      ensures var a := allocators[|old(allocators)|]; fresh(a) && ManagesChunk(a, c, hddm) && a.Abs() == Init(a.Geo())
      ensures KeepsOthers(GeoOf(c, hddm), old(table.node), table.node)
    {
      ghost var before := table.node;
      var a := NewAllocator(c, hddm, table);
      Append(a, before);
    }

    /** Adds an allocator created since the table held `before`. */
    method Append(a: FrameAllocator, ghost before: map<nat, Node>)
      requires Distinct() && a !in allocators && a.table == table && a.Valid()
      requires forall j :: 0 <= j < |allocators| ==> allocators[j].ValidWith(before) && Apart(allocators[j], a)
      requires KeepsOthers(a.Geo(), before, table.node) && Orderly(before)
      modifies this
      ensures Valid() && allocators == old(allocators) + [a]
    {
      allocators := allocators + [a];
      forall p | old(Manages(p)) ensures Manages(p) {
        var i :| 0 <= i < |old(allocators)| && InSpan(old(allocators)[i].Geo(), p);
        assert allocators[i] == old(allocators)[i];
      }
      OthersStayValid(|allocators| - 1, before);
    }

    /** Asks one allocator, leaving the others as they are. */
    method AllocateFrom(i: nat, pages: nat)
      returns (r: Option<nat>, ghost level: nat, ghost donor: nat, ghost node: nat)
      requires Valid() && i < |allocators|
      modifies allocators[i], table
      ensures Valid() && KeepsOthers(allocators[i].Geo(), old(table.node), table.node)
      ensures r.Some? <==> CanServe(allocators[i].Geo(), old(allocators[i].free), pages)
      ensures r.None? ==> allocators[i].Abs() == old(allocators[i].Abs())
      ensures r.None? ==> allocators[i].lists == old(allocators[i].lists) && table.node == old(table.node)
      ensures r.Some? ==>
        Serves(allocators[i], old(allocators[i].Abs()), allocators[i].Abs(), pages, r.value, level, donor, node)
    {
      ghost var before := table.node;
      r, level, donor, node := allocators[i].AllocateContiguousFrames(pages);
      OthersStayValid(i, before);
    }

    /** Tries the allocators in order. It fails, changing nothing, exactly when every one of them
        would; otherwise the first that can serve does, and no other is affected. */
    method AllocateContiguousPages(pages: nat)
      returns (r: Option<nat>, ghost who: nat, ghost level: nat, ghost donor: nat, ghost node: nat)
      requires Valid() && IsPow2(pages)
      modifies allocators, table
      ensures Valid()
      ensures r.None? <==>
        forall i :: 0 <= i < |allocators| ==> !CanServe(allocators[i].Geo(), old(allocators[i].free), pages)
      ensures r.None? ==> table.node == old(table.node)
      ensures r.None? ==> forall i :: 0 <= i < |allocators| ==>
        allocators[i].Abs() == old(allocators[i].Abs()) && allocators[i].lists == old(allocators[i].lists)
      ensures r.Some? ==>
        && who < |allocators|
        && (forall i :: 0 <= i < who ==> !CanServe(allocators[i].Geo(), old(allocators[i].free), pages))
        && (forall i :: 0 <= i < |allocators| && i != who ==> allocators[i].Abs() == old(allocators[i].Abs()))
        && Serves(allocators[who], old(allocators[who].Abs()), allocators[who].Abs(), pages, r.value,
                  level, donor, node)
    {
      r, who, level, donor, node := None, 0, 0, 0, 0;
      for i := 0 to |allocators|
        invariant Valid() && r.None?
        invariant forall j :: 0 <= j < i ==> !CanServe(allocators[j].Geo(), old(allocators[j].free), pages)
        invariant table.node == old(table.node)
        invariant forall j :: 0 <= j < |allocators| ==>
          allocators[j].Abs() == old(allocators[j].Abs()) && allocators[j].lists == old(allocators[j].lists)
      {
        r, level, donor, node := AllocateFrom(i, pages);
        if r.Some? {
          who := i;
          return;
        }
      }
    }

    /** After an operation of one allocator on its own nodes, the whole forest is valid. */
    lemma {:induction false} OthersStayValid(who: nat, node: map<nat, Node>)
      requires Distinct() && who < |allocators| && allocators[who].Valid()
      requires forall i :: 0 <= i < |allocators| && i != who ==> allocators[i].ValidWith(node)
      requires KeepsOthers(allocators[who].Geo(), node, table.node) && Orderly(node)
      ensures Valid()
    {
      StaysOrderly(who, node);
      forall i | 0 <= i < |allocators| && i != who ensures allocators[i].Valid() {
        assert Apart(allocators[i], allocators[who]);
        StaysValid(allocators[i], node, allocators[who].Geo());
      }
    }

    lemma {:induction false} StaysOrderly(who: nat, node: map<nat, Node>)
      requires who < |allocators| && KeepsOthers(allocators[who].Geo(), node, table.node) && Orderly(node)
      ensures Orderly(table.node)
    {
      forall p | p in table.node && table.node[p].levelSize.Some? ensures Manages(p) {
        if !InSpan(allocators[who].Geo(), p) { assert Manages(p); }
      }
    }

    /** A tag outside one allocator's span was written by another, on whose list the node is. */
    lemma {:induction false} TagsAreHeld(who: nat, level: nat)
      requires Valid() && who < |allocators|
      ensures ForeignHeld(allocators[who].Geo(), table.node, level)
    {
      var g := allocators[who].Geo();
      forall p, l: nat | l <= level && l < g.levels && p in table.node && !InSpan(g, p)
                         && table.node[p].levelSize == Some(Pages(g, l))
        ensures Held(g, table.node, p, Pages(g, l))
      {
        assert OnNode(p) && Manages(p);
        var i :| 0 <= i < |allocators| && InSpan(allocators[i].Geo(), p);
        assert Apart(allocators[i], allocators[who]);
        HeldBy(allocators[i], g, p, Pages(g, l));
      }
    }

    /** Gives a block back to one allocator, leaving the headers of the others as they are. */
    method DeallocateIn(i: nat, addr: nat, pages: nat, ghost level: nat, ghost node: nat) returns (ok: bool)
      requires Valid() && i < |allocators|
      requires var a := allocators[i]; var tagged := TaggedAs(a.Geo(), table.node); var b := Block(level, node);
        && LevelOfBytes(a.Geo(), 4096 * pages, level)
        && b in a.live && node >= a.pageListStart && addr == a.FrameOf(node)
        && (Sheltered(a.Geo(), tagged, b) || Reaches(a.Geo(), table.node.Keys, tagged, b))
      modifies allocators[i], table
      ensures allocators[i].Now() in Frees(allocators[i].Geo(), Block(level, node), ok, old(allocators[i].Now()))
      ensures var g := allocators[i].Geo();
        Sheltered(g, TaggedAs(g, old(table.node)), Block(level, node)) ==> Valid()
    {
      var a := allocators[i];
      ghost var before, was := table.node, a.Now();
      TagsAreHeld(i, level);
      ok := a.DeallocateContiguousFrames(addr, pages, level, node);
      if Sheltered(a.Geo(), TaggedAs(a.Geo(), before), Block(level, node)) {
        assert Freed(a.Geo(), Block(level, node), ok, was, a.Now());
        OthersStayValid(i, before);
      }
    }

    /** Finds the one allocator that issued the address and gives the block back to it. If merging is
        sheltered from the tags of the others this is the merging step and no other allocator is
        affected. Otherwise it panics exactly when a foreign buddy is met while the own list of that
        level is empty, and without a panic the issuing allocator is left astray. */
    method DeallocateContiguousPages(addr: nat, pages: nat, ghost who: nat, ghost level: nat, ghost node: nat)
      returns (ok: bool)
      requires Valid() && IsPow2(pages) && who < |allocators|
      requires var a := allocators[who]; var tagged := TaggedAs(a.Geo(), table.node); var b := Block(level, node);
        && LevelOfBytes(a.Geo(), 4096 * pages, level)
        && b in a.live && node >= a.pageListStart && addr == a.FrameOf(node)
        && (Sheltered(a.Geo(), tagged, b) || Reaches(a.Geo(), table.node.Keys, tagged, b))
      modifies allocators, table
      ensures var a := allocators[who]; a.Now() in Frees(a.Geo(), Block(level, node), ok, old(a.Now()))
      ensures var g := allocators[who].Geo();
        Sheltered(g, TaggedAs(g, old(table.node)), Block(level, node)) ==> Valid()
      ensures forall i :: 0 <= i < |allocators| && i != who ==>
        allocators[i].Abs() == old(allocators[i].Abs()) && allocators[i].lists == old(allocators[i].lists)
    {
      FindsIssuer(addr, who, level, node);
      for i := 0 to |allocators|
        invariant i <= who
        invariant Valid()
        invariant unchanged(allocators) && unchanged(table)
      {
        var a := allocators[i];
        if addr >= a.virtStart && addr < a.virtEnd {
          ok := DeallocateIn(i, addr, pages, level, node);
          return;
        }
      }
    }

    /** Exactly the issuing allocator's range holds the address. */
    lemma {:induction false} FindsIssuer(addr: nat, who: nat, level: nat, node: nat)
      requires Valid() && who < |allocators| && Block(level, node) in allocators[who].live
      requires node >= allocators[who].pageListStart && addr == allocators[who].FrameOf(node)
      ensures allocators[who].virtStart <= addr < allocators[who].virtEnd
      ensures forall i :: 0 <= i < |allocators| && i != who ==>
        addr < allocators[i].virtStart || allocators[i].virtEnd <= addr
    {
      allocators[who].FrameInside(Block(level, node));
      PagesPositive(allocators[who].Geo(), level);
      forall i | 0 <= i < |allocators| && i != who
        ensures addr < allocators[i].virtStart || allocators[i].virtEnd <= addr
      {
        assert Apart(allocators[i], allocators[who]);
      }
    }

    /** Frames live at the same time never overlap, in one allocator or across allocators. */
    lemma {:induction false} LiveFramesDisjoint(i: nat, b: Block, j: nat, c: Block)
      requires Valid() && i < |allocators| && j < |allocators|
      requires b in allocators[i].live && c in allocators[j].live && (i != j || b != c)
      ensures b.start >= allocators[i].pageListStart && c.start >= allocators[j].pageListStart
      ensures var p, q := allocators[i].FrameOf(b.start), allocators[j].FrameOf(c.start);
        || p + 4096 * Pages(allocators[i].Geo(), b.level) <= q
        || q + 4096 * Pages(allocators[j].Geo(), c.level) <= p
    {
      allocators[i].FrameInside(b);
      allocators[j].FrameInside(c);
      if i == j {
        var g := allocators[i].Geo();
        assert !Overlap(g, b, c);
        PagesScale(g, b.level);
        PagesScale(g, c.level);
      } else {
        assert Apart(allocators[i], allocators[j]);
      }
    }
  }

  lemma {:induction false} PagesPositive(g: Geometry, level: nat)
    requires level < g.levels
    ensures Pages(g, level) >= 1
  {
  }

  // ---- building the forest from the memory map ----

  /** Disjoint chunks have disjoint nodes: within a region because nodes follow frames, across
      regions because each region keeps its own table. */
  lemma {:induction false} ChunksApart(c: Config, d: Config, q: Region, r: Region, hddm: nat)
    requires Belongs(c, q, hddm) && Belongs(d, r, hddm) && DisjointChunks(c, d)
    requires q == r || q.base + q.length <= r.base || r.base + r.length <= q.base
    requires q.base % 4096 == 0 && r.base % 4096 == 0 && hddm > 0 && hddm % 4096 == 0
    ensures Placed(c, hddm) && Placed(d, hddm)
    ensures var g, h := GeoOf(c, hddm), GeoOf(d, hddm);
      g.base + Size(g, 0) <= h.base || h.base + Size(h, 0) <= g.base
  {
    BelongsIsPlaced(c, q, hddm);
    BelongsIsPlaced(d, r, hddm);
    if q == r {
      NodesFollowFrames(c.start - q.base, c.frames, d.start - q.base);
      NodesFollowFrames(d.start - q.base, d.frames, c.start - q.base);
    }
  }

  lemma {:induction false} NodesFollowFrames(x: nat, frames: nat, y: nat)
    requires x % 4096 == 0 && y % 4096 == 0
    ensures x + frames * 4096 <= y ==> x / 4096 + frames <= y / 4096
  {
  }

  lemma {:induction false} CarvedApart(cs: seq<Config>, rs: seq<Region>, hddm: nat, i: nat, j: nat)
    requires WellCarved(cs, rs, hddm) && Separate(rs) && i < |cs| && j < |cs| && i != j
    requires hddm > 0 && hddm % 4096 == 0
    ensures Placed(cs[i], hddm) && Placed(cs[j], hddm) && DisjointChunks(cs[i], cs[j])
    ensures var g, h := GeoOf(cs[i], hddm), GeoOf(cs[j], hddm);
      g.base + Size(g, 0) <= h.base || h.base + Size(h, 0) <= g.base
  {
    assert InSome(cs[i], rs, hddm) && InSome(cs[j], rs, hddm);
    var m :| 0 <= m < |rs| && Belongs(cs[i], rs[m], hddm);
    var n :| 0 <= n < |rs| && Belongs(cs[j], rs[n], hddm);
    assert DisjointChunks(cs[if i < j then i else j], cs[if i < j then j else i]);
    ChunksApart(cs[i], cs[j], rs[m], rs[n], hddm);
  }

  /** No node of any allocator lies in a frame of any allocator, its own or another's. */
  lemma {:induction false} NodesOutsideFrames(cs: seq<Config>, rs: seq<Region>, hddm: nat, i: nat, j: nat)
    requires WellCarved(cs, rs, hddm) && Separate(rs) && i < |cs| && j < |cs|
    requires hddm > 0 && hddm % 4096 == 0
    ensures Placed(cs[i], hddm)
    ensures var g := GeoOf(cs[i], hddm); var c := cs[j];
      g.base + Size(g, 0) <= c.start + hddm || c.start + hddm + c.bytes <= g.base
  {
    assert InSome(cs[i], rs, hddm) && InSome(cs[j], rs, hddm);
    var m :| 0 <= m < |rs| && Belongs(cs[i], rs[m], hddm);
    var n :| 0 <= n < |rs| && Belongs(cs[j], rs[n], hddm);
    NodesClear(cs[i], rs[m], cs[j], rs[n], hddm);
  }

  lemma {:induction false} NodesClear(c: Config, q: Region, d: Config, r: Region, hddm: nat)
    requires Belongs(c, q, hddm) && Belongs(d, r, hddm)
    requires q == r || q.base + q.length <= r.base || r.base + r.length <= q.base
    requires q.base % 4096 == 0 && hddm > 0 && hddm % 4096 == 0
    ensures Placed(c, hddm)
    ensures var g := GeoOf(c, hddm); g.base + Size(g, 0) <= d.start + hddm || d.start + hddm + d.bytes <= g.base
  {
    BelongsIsPlaced(c, q, hddm);
    TableClear(c, q, d, r, hddm);
  }

  lemma {:induction false} TableClear(c: Config, q: Region, d: Config, r: Region, hddm: nat)
    requires Belongs(c, q, hddm) && Belongs(d, r, hddm)
    requires q == r || q.base + q.length <= r.base || r.base + r.length <= q.base
    ensures c.listStart + q.length / 4096 * 32 <= d.start + hddm || d.start + hddm + d.bytes <= c.listStart
  {
  }

  lemma {:induction false} StaysReady(c: Config, d: Config, hddm: nat, node: map<nat, Node>, node': map<nat, Node>)
    requires Placed(c, hddm) && Placed(d, hddm) && Ready(d, hddm, node) && KeepsOthers(GeoOf(c, hddm), node, node')
    requires var g, h := GeoOf(c, hddm), GeoOf(d, hddm); g.base + Size(g, 0) <= h.base || h.base + Size(h, 0) <= g.base
    ensures Ready(d, hddm, node')
  {
  }

  ghost predicate AllPlaced(cs: seq<Config>, hddm: nat) {
    forall k :: 0 <= k < |cs| ==> Placed(cs[k], hddm)
  }

  ghost predicate ReadyFrom(cs: seq<Config>, n: nat, hddm: nat, node: map<nat, Node>)
    requires AllPlaced(cs, hddm)
  {
    forall k :: n <= k < |cs| ==> Ready(cs[k], hddm, node)
  }

  /** The first `n` chunks have their allocators, each holding one free block. */
  ghost predicate Built(f: FrameForest, cs: seq<Config>, n: nat, hddm: nat)
    requires AllPlaced(cs, hddm) && n <= |cs|
    reads f, f.allocators, f.table
  {
    && f.Valid() && |f.allocators| == n
    && forall k :: 0 <= k < n ==>
         ManagesChunk(f.allocators[k], cs[k], hddm) && f.allocators[k].Abs() == Init(f.allocators[k].Geo())
  }

  /** The frames that the allocators manage together. */
  ghost function ManagedFrames(a: seq<FrameAllocator>): nat {
    if a == [] then 0 else Pages(a[0].Geo(), 0) + ManagedFrames(a[1..])
  }

  lemma {:induction false} ManagedIsSum(a: seq<FrameAllocator>, cs: seq<Config>, hddm: nat)
    requires |a| == |cs| && AllPlaced(cs, hddm) && forall k :: 0 <= k < |cs| ==> ManagesChunk(a[k], cs[k], hddm)
    ensures ManagedFrames(a) == SumFrames(cs)
  {
    if cs != [] {
      assert ManagesChunk(a[0], cs[0], hddm);
      LevelsOfChunk(cs[0]);
      assert forall k :: 0 <= k < |cs[1..]| ==> ManagesChunk(a[1..][k], cs[1..][k], hddm);
      ManagedIsSum(a[1..], cs[1..], hddm);
    }
  }

  /** Some allocator manages exactly the frames of the chunk. */
  ghost predicate HasAllocator(a: seq<FrameAllocator>, c: Config, hddm: nat) {
    exists k :: 0 <= k < |a| && a[k].virtStart == c.start + hddm && a[k].virtEnd == c.start + hddm + c.bytes
  }

  /** What the finished forest covers, whatever the order of its allocators. */
  lemma {:induction false} ForestCovers(a: seq<FrameAllocator>, cs: seq<Config>, rs: seq<Region>, min: nat, hddm: nat)
    requires min >= 1 && IsPow2(min) && multiset(cs) == multiset(AllChunks(rs, min, hddm)) && AllPlaced(cs, hddm)
    requires |a| == |cs| && forall k :: 0 <= k < |cs| ==> ManagesChunk(a[k], cs[k], hddm)
    ensures forall n, c :: 0 <= n < |rs| && c in RegionChunks(rs[n], min, hddm) ==> HasAllocator(a, c, hddm)
    ensures ManagedFrames(a) == SumManageable(rs, min)
  {
    ManagedIsSum(a, cs, hddm);
    SumReordered(cs, AllChunks(rs, min, hddm));
    AllChunksSum(rs, min, hddm);
    SameMembers(cs, AllChunks(rs, min, hddm));
    forall n, c | 0 <= n < |rs| && c in RegionChunks(rs[n], min, hddm) ensures HasAllocator(a, c, hddm) {
      CarvedSomewhere(rs, min, hddm, c);
      var k :| 0 <= k < |cs| && cs[k] == c;
      assert ManagesChunk(a[k], cs[k], hddm);
    }
  }

  method AddNext(f: FrameForest, cs: seq<Config>, n: nat, ghost rs: seq<Region>, hddm: nat)
    requires WellCarved(cs, rs, hddm) && Separate(rs) && hddm > 0 && hddm % 4096 == 0
    requires AllPlaced(cs, hddm) && n < |cs| && Built(f, cs, n, hddm) && ReadyFrom(cs, n, hddm, f.table.node)
    modifies f, f.table
    ensures Built(f, cs, n + 1, hddm) && ReadyFrom(cs, n + 1, hddm, f.table.node)
    ensures f.allocators[..n] == old(f.allocators) && fresh(f.allocators[n])
  {
    forall k | 0 <= k < n ensures ApartFrom(f.allocators[k], cs[n], hddm) {
      CarvedApart(cs, rs, hddm, k, n);
      assert ManagesChunk(f.allocators[k], cs[k], hddm);
    }
    ghost var before := f.table.node;
    assert Ready(cs[n], hddm, before);
    f.Add(cs[n], hddm);
    forall k | n < k < |cs| ensures Ready(cs[k], hddm, f.table.node) {
      CarvedApart(cs, rs, hddm, n, k);
      StaysReady(cs[n], cs[k], hddm, before, f.table.node);
    }
  }

  method BuildForest(cs: seq<Config>, ghost rs: seq<Region>, hddm: nat, maxLevels: nat, table: NodeTable)
    returns (r: Option<FrameForest>)
    requires WellCarved(cs, rs, hddm) && Separate(rs) && hddm > 0 && hddm % 4096 == 0
    requires AllPlaced(cs, hddm) && ReadyFrom(cs, 0, hddm, table.node) && Blank(table.node)
    modifies table
    ensures r.None? <==> exists c :: c in cs && c.frames > 0 && TrailingZeros(c.frames) + 1 > maxLevels
    ensures r.Some? ==> fresh(r.value) && r.value.table == table && Built(r.value, cs, |cs|, hddm)
  {
    var f := new FrameForest(table);
    for n := 0 to |cs|
      invariant fresh(f) && f.table == table && fresh(f.allocators) && Built(f, cs, n, hddm)
      invariant ReadyFrom(cs, n, hddm, table.node)
      invariant forall k :: 0 <= k < n ==> cs[k].frames > 0 && TrailingZeros(cs[k].frames) + 1 <= maxLevels
    {
      assert Placed(cs[n], hddm);
      if TrailingZeros(cs[n].frames) + 1 > maxLevels {
        return None;
      }
      AddNext(f, cs, n, rs, hddm);
    }
    r := Some(f);
  }

  /** Builds the forest for any memory map: one fresh allocator per chunk, largest first, all of
      them apart. `None` stands for the panics on too many allocators or too many levels. */
  method InitForest(regions: seq<Region>, min: nat, hddm: nat, capacity: nat, maxLevels: nat, table: NodeTable)
    returns (r: Option<FrameForest>, ghost configs: seq<Config>)
    requires min >= 2 && IsPow2(min) && Separate(regions) && hddm > 0 && hddm % 4096 == 0
    requires Blank(table.node) && TablesMapped(regions, hddm, table.node)
    modifies table
    ensures r.None? <==>
      || |AllChunks(regions, min, hddm)| > capacity
      || exists c :: c in AllChunks(regions, min, hddm) && c.frames > 0 && TrailingZeros(c.frames) + 1 > maxLevels
    ensures r.Some? ==>
      && multiset(configs) == multiset(AllChunks(regions, min, hddm)) && Descending(configs) && AllPlaced(configs, hddm)
      && fresh(r.value) && Built(r.value, configs, |configs|, hddm)
    ensures r.Some? ==> ManagedFrames(r.value.allocators) == SumManageable(regions, min)
    ensures r.Some? ==> forall n, c :: 0 <= n < |regions| && c in RegionChunks(regions[n], min, hddm) ==>
      HasAllocator(r.value.allocators, c, hddm)
  {
    AllChunksWellCarved(regions, min, hddm);
    var carved := CarveRegions(regions, min, hddm, capacity);
    if carved.None? {
      return None, [];
    }
    var sorted := SortByFrames(carved.value);
    configs := sorted;
    ReorderWellCarved(carved.value, sorted, regions, hddm);
    SortedReady(configs, regions, hddm, table.node);
    SameMembers(sorted, carved.value);
    r := BuildForest(sorted, regions, hddm, maxLevels, table);
    if r.Some? {
      ForestCovers(r.value.allocators, configs, regions, min, hddm);
    }
  }

  lemma {:induction false} SameMembers(cs: seq<Config>, ds: seq<Config>)
    requires multiset(cs) == multiset(ds)
    ensures forall c :: c in cs <==> c in ds
  {
    assert forall c :: c in cs <==> c in multiset(cs);
    assert forall c :: c in ds <==> c in multiset(ds);
  }

  lemma {:induction false} SortedReady(cs: seq<Config>, rs: seq<Region>, hddm: nat, node: map<nat, Node>)
    requires WellCarved(cs, rs, hddm) && Separate(rs) && hddm > 0 && hddm % 4096 == 0
    requires Blank(node) && TablesMapped(rs, hddm, node)
    ensures AllPlaced(cs, hddm) && ReadyFrom(cs, 0, hddm, node)
  {
    forall k | 0 <= k < |cs| ensures Placed(cs[k], hddm) && Ready(cs[k], hddm, node) {
      assert InSome(cs[k], rs, hddm);
      var n :| 0 <= n < |rs| && Belongs(cs[k], rs[n], hddm);
      ReadyFromTable(cs[k], rs[n], hddm, node);
    }
  }

  /** The kernel's own start-up: fill the tables, then carve with at least 16 frames each, room for 100
      allocators and 26 levels. What the tables do not cover is taken to be untagged already. */
  method InitFrameAllocator(regions: seq<Region>, hddm: nat, table: NodeTable)
    returns (r: Option<FrameForest>, ghost configs: seq<Config>)
    requires Separate(regions) && hddm > 0 && hddm % 4096 == 0 && TablesMapped(regions, hddm, table.node)
    requires forall p :: p in table.node && !Entry(regions, hddm, p) ==> OnNode(p) && table.node[p].levelSize == None
    modifies table
    ensures r.None? <==>
      || |AllChunks(regions, 16, hddm)| > 100
      || exists c :: c in AllChunks(regions, 16, hddm) && c.frames > 0 && TrailingZeros(c.frames) + 1 > 26
    ensures r.Some? ==>
      && multiset(configs) == multiset(AllChunks(regions, 16, hddm)) && Descending(configs) && AllPlaced(configs, hddm)
      && fresh(r.value) && Built(r.value, configs, |configs|, hddm)
    ensures r.Some? ==> ManagedFrames(r.value.allocators) == SumManageable(regions, 16)
    ensures r.Some? ==> forall n, c :: 0 <= n < |regions| && c in RegionChunks(regions[n], 16, hddm) ==>
      HasAllocator(r.value.allocators, c, hddm)
  {
    FillPageList(regions, hddm, table);
    forall p | Entry(regions, hddm, p) ensures OnNode(p) {
      EntryOnNode(regions, hddm, p);
    }
    assert IsPow2(16);
    r, configs := InitForest(regions, 16, hddm, 100, 26, table);
  }

  lemma {:induction false} EntryOnNode(rs: seq<Region>, hddm: nat, p: nat)
    requires Separate(rs) && hddm % 4096 == 0 && Entry(rs, hddm, p)
    ensures OnNode(p)
  {
    var n, j: nat :| 0 <= n < |rs| && Filled(rs[n]) && j < rs[n].length / 4096 && p == NodeAddress(rs[n], hddm, j);
    assert rs[n].base % 4096 == 0;
    AddressOnNode(rs[n].base, hddm, j);
  }

  lemma {:induction false} AddressOnNode(base: nat, hddm: nat, j: nat)
    requires base % 4096 == 0 && hddm % 4096 == 0
    ensures OnNode(base + hddm + 32 * j)
  {
    assert base + hddm + 32 * j == 32 * (128 * (base / 4096) + 128 * (hddm / 4096) + j);
  }
}
