/**
  One physical frame allocator.

  Its blocks are ranges of the node table: a node is 32 bytes and stands for one 4096-byte frame,
  so block addresses here are node addresses and a frame address is a node address scaled by 128
  about the start of the table. Offsets are measured from that start, which is in general not
  where the allocator's own nodes begin.
 */
module FrameAlloc {
  import opened Bits
  import opened Buddy
  import opened BuddyRuns
  import opened FreeLists
  import opened NodeLists
  import opened NodeTags
  import opened Merging

  /** In every valid state a node of the span has the tag `Some(size)` exactly when it lies in the
      list of that block size. */
  lemma {:induction false} TagIffListed(a: FrameAllocator, p: nat, size: nat)
    requires a.Valid() && OwnNode(a.Geo(), p)
    ensures p in a.table.node
    ensures a.table.node[p].levelSize == Some(size) <==>
      exists l :: 0 <= l < a.levels && size == Pages(a.Geo(), l) && p in a.chains[l]
  {
    if a.table.node[p].levelSize == Some(size) {
      var l: nat :| l < a.levels && size == Pages(a.Geo(), l) && Block(l, p) in a.free;
      InBlocks(a.chains, Block(l, p));
    }
    forall l | 0 <= l < a.levels && size == Pages(a.Geo(), l) && p in a.chains[l]
      ensures a.table.node[p].levelSize == Some(size)
    {
      TagIsMembership(a.Geo(), a.table.node, a.Abs(), a.lists, a.chains, p, l);
    }
  }

  /** The nodes of the frames from `start` on. */
  function SpanOf(levels: nat, start: nat, pageListStart: nat): Geometry
    requires start >= pageListStart
  {
    Geometry(pageListStart, (start - pageListStart) / 4096 * 32 + pageListStart, 5, levels)
  }

  lemma {:induction false} SpanArithmetic(levels: nat, start: nat, end: nat, pageListStart: nat)
    requires levels >= 1 && end == start + Pow2(levels - 1) * 4096
    requires start >= pageListStart && (start - pageListStart) % 4096 == 0
    ensures var g := SpanOf(levels, start, pageListStart);
      && Sound(g)
      && start == pageListStart + 128 * (g.base - pageListStart)
      && end == start + 128 * Size(g, 0)
      && (end - start) / 4096 == Pages(g, 0)
  {
    var g := SpanOf(levels, start, pageListStart);
    var pageIndex := (start - pageListStart) / 4096;
    assert Pow2(5) == 32;
    MultipleIsMod(32 * pageIndex, 32);
    PagesScale(g, 0);
  }

  /** The span is aligned exactly when its first node's index is a multiple of its frame count. */
  lemma {:induction false} AlignedIffIndexMultiple(levels: nat, start: nat, pageListStart: nat)
    requires levels >= 1 && start >= pageListStart
    ensures Aligned(SpanOf(levels, start, pageListStart)) <==> (start - pageListStart) / 4096 % Pow2(levels - 1) == 0
  {
    var g := SpanOf(levels, start, pageListStart);
    PagesScale(g, 0);
    ScaledMultiple((start - pageListStart) / 4096, Pow2(levels - 1));
    MultipleIsMod(g.base - g.origin, Size(g, 0));
  }

  lemma {:induction false} ScaledMultiple(index: nat, frames: nat)
    requires frames > 0
    ensures (index * 32) % (32 * frames) == 0 <==> index % frames == 0
  {
    var q, r := index / frames, index % frames;
    assert index * 32 == q * (32 * frames) + 32 * r by { assert index == q * frames + r; }
    DivUnique(index * 32, 32 * frames, q, 32 * r);
  }

  lemma {:induction false} TableOnPage(start: nat, offset: nat)
    requires start % 4096 == 0 && offset <= start && offset % 4096 == 0
    ensures start - offset == 4096 * ((start - offset) / 4096)
  {
    assert start - offset == 4096 * (start / 4096 - offset / 4096);
  }

  lemma {:induction false} OneBlock(chains: seq<seq<nat>>, p: nat)
    requires |chains| > 0 && chains[0] == [p] && forall l :: 0 < l < |chains| ==> chains[l] == []
    ensures BlocksOf(chains) == {Block(0, p)}
  {
    forall b ensures b in BlocksOf(chains) <==> b == Block(0, p) { InBlocks(chains, b); }
  }

  lemma {:induction false} BuddyFromTable(g: Geometry, b: Block)
    requires g.unitBits == 5 && b.level < g.levels && g.origin <= b.start
    ensures BuddyOf(g, b) == Block(b.level, g.origin + Xor(b.start - g.origin, Pages(g, b.level) * 32))
  {
    PagesScale(g, b.level);
    BuddyIsXor(g, b);
  }

  class FrameAllocator {
    const table: NodeTable
    const levels: nat
    const virtStart: nat
    const virtEnd: nat
    const pageListStart: nat
    /** The node of the first frame, and the page number of the node table. */
    ghost const firstNode: nat
    ghost const tablePage: nat
    var lists: seq<DoubleFreeList>
    ghost var chains: seq<seq<nat>>
    ghost var free: set<Block>
    /** Blocks handed out, and those in transit inside an operation. */
    ghost var live: set<Block>

    ghost function Geo(): Geometry {
      Geometry(pageListStart, firstNode, 5, levels)
    }

    ghost function Abs(): State
      reads this
    {
      State(free, live)
    }

    ghost function Now(): Snapshot
      reads this, table
    {
      Snapshot(table.node, lists, chains, Abs())
    }

    ghost predicate Static() {
      && levels >= 2 && pageListStart > 0 && pageListStart == 4096 * tablePage && Sound(Geo())
      && virtStart == pageListStart + 128 * (firstNode - pageListStart)
      && virtEnd == virtStart + 128 * Size(Geo(), 0)
    }

    ghost predicate ValidWith(node: map<nat, Node>)
      reads this
    {
      Static() && Tidy(Geo(), node, lists, chains, Abs())
    }

    ghost predicate Valid()
      reads this, table
    {
      ValidWith(table.node)
    }

    /** Manages the frames of `[start, end)`, whose nodes are initialised and untagged. */
    constructor (table: NodeTable, levels: nat, start: nat, end: nat, pageListStart: nat)
      requires levels >= 2 && pageListStart > 0
      requires start % 4096 == 0 && end % 4096 == 0
      requires end == start + Pow2(levels - 1) * 4096
      requires start >= pageListStart && (start - pageListStart) % 4096 == 0
      requires var g := SpanOf(levels, start, pageListStart);
        && Readable(g, table.node)
        && forall p :: OwnNode(g, p) ==> p in table.node && table.node[p].levelSize == None
      modifies table
      ensures Valid() && Abs() == Init(Geo()) && KeepsOthers(Geo(), old(table.node), table.node)
      ensures Geo() == SpanOf(levels, start, pageListStart)
      ensures this.table == table && virtStart == start && virtEnd == end
    {
      this.table := table;
      this.levels := levels;
      virtStart := start;
      virtEnd := end;
      this.pageListStart := pageListStart;
      var pageIndex := (start - pageListStart) / 4096;
      var pagePtr := pageIndex * 32 + pageListStart;
      firstNode := pagePtr;
      tablePage := pageListStart / 4096;
      SpanArithmetic(levels, start, end, pageListStart);
      TableOnPage(start, start - pageListStart);
      ghost var g := SpanOf(levels, start, pageListStart);
      InitInv(g);
      FreeIsOwn(g, Init(g), Top(g));
      var regionPages := (end - start) / 4096;
      var list := DoubleFreeList(NULL, 0).Push(table, pagePtr, regionPages, []);
      TagsAfterPush(g, old(table.node), table.node, {}, Top(g));
      lists := seq(levels, i => if i == 0 then list else DoubleFreeList(NULL, 0));
      chains := seq(levels, i => if i == 0 then [pagePtr] else []);
      free, live := {Top(g)}, {};
      new;
      OneBlock(chains, pagePtr);
    }

    method PopAt(level: nat) returns (r: Option<nat>)
      requires Valid() && level < levels
      modifies this, table
      ensures Valid() && KeepsOthers(Geo(), old(table.node), table.node)
      ensures r.None? ==> unchanged(this) && table.node == old(table.node) && LevelEmpty(free, level)
      ensures r.Some? ==> var b := Block(level, r.value);
        b in old(free) && free == old(free) - {b} && live == old(live) + {b}
      ensures r.Some? ==> Drawn(old(chains), chains, level, level, r.value)
    {
      ghost var was := Now();
      assert DLinked(table.node, lists[level], chains[level], PageSizes(Geo())[level]);
      LinkedIsPoppable(table.node, lists[level], chains[level], Pages(Geo(), level));
      EmptyLevel(chains, level);
      var list, ptr := lists[level].Pop(table, chains[level], Pages(Geo(), level));
      r := ptr;
      if ptr.Some? {
        ghost var now := Pops(Geo(), was, Block(level, ptr.value), table.node, list);
        lists := lists[level := list];
        chains, free, live := now.chains, now.s.free, now.s.live;
        assert Now() == now;
      }
    }

    /** Puts a node on the list of `level`. Unless merging has gone astray it is a block in transit. */
    method PushAt(level: nat, ptr: nat, ghost astray: bool)
      requires Static() && level < levels && |lists| == |chains| == levels
      requires !astray ==> Valid() && Block(level, ptr) in live
      requires !astray ==> level == 0 || BuddyOf(Geo(), Block(level, ptr)) !in free
      requires astray ==> InOrder(Geo(), table.node, lists[level], chains[level], level)
      requires astray ==> ptr != NULL && ptr in table.node && table.node[ptr].levelSize == None
      modifies this, table
      ensures Now() in Pushes(Geo(), Block(level, ptr), old(Now()))
      ensures !astray ==>
        && Valid() && KeepsOthers(Geo(), old(table.node), table.node)
        && free == old(free) + {Block(level, ptr)} && live == old(live) - {Block(level, ptr)}
        && chains == old(chains)[level := [ptr] + old(chains)[level]]
    {
      ghost var chain := [ptr] + chains[level];
      var pages := BlockSize(level);
      if !astray {
        LiveUntagged(Geo(), table.node, Abs(), Block(level, ptr));
        FreeIsOwn(Geo(), Abs(), Block(level, ptr));
        TidyIsInOrder(Geo(), table.node, lists, chains, Abs(), level);
      }
      var list := lists[level].Push(table, ptr, pages, chains[level]);
      PushedKeeps(Geo(), old(table.node), lists[level], chains[level], level, ptr, table.node);
      if !astray {
        TidyAfterPush(Geo(), old(table.node), lists, chains, Abs(), Block(level, ptr), table.node, list);
        free, live := free + {Block(level, ptr)}, live - {Block(level, ptr)};
      }
      lists := lists[level := list];
      chains := chains[level := chain];
    }

    /** The block size of a level in pages. */
    method BlockSize(level: nat) returns (n: nat)
      requires Static() && level < levels
      ensures n == Pages(Geo(), level)
    {
      PagesScale(Geo(), 0);
      ShrPow2(levels - 1, level);
      var totalPages := (virtEnd - virtStart) / 4096;
      n := Shr(totalPages, level);
    }

    /** Takes a block of `level`, splitting the smallest larger free block if it must. */
    method GetFreeBlock(level: nat) returns (r: Option<nat>, ghost donor: nat)
      requires Valid() && level < levels
      modifies this, table
      ensures Valid() && KeepsOthers(Geo(), old(table.node), table.node)
      ensures r.None? ==> Step(Geo(), old(Abs()), Exhausted(level), Abs())
      ensures r.None? ==> unchanged(this) && table.node == old(table.node)
      ensures r.Some? ==> Step(Geo(), old(Abs()), Event.Alloc(level, donor, r.value), Abs())
      ensures r.Some? ==> Drawn(old(chains), chains, donor, level, r.value)
      decreases level, 1
    {
      donor := level;
      r := PopAt(level);
      if r.None? {
        r, donor := SplitLevel(level);
      } else {
        assert Remainders(Geo(), r.value, level, level) == {};
      }
    }

    method SplitLevel(level: nat) returns (r: Option<nat>, ghost donor: nat)
      requires Valid() && level < levels && LevelEmpty(free, level)
      modifies this, table
      ensures Valid() && KeepsOthers(Geo(), old(table.node), table.node)
      ensures r.None? ==> Step(Geo(), old(Abs()), Exhausted(level), Abs())
      ensures r.None? ==> unchanged(this) && table.node == old(table.node)
      ensures r.Some? ==> Step(Geo(), old(Abs()), Event.Alloc(level, donor, r.value), Abs())
      ensures r.Some? ==> Drawn(old(chains), chains, donor, level, r.value)
      decreases level, 0
    {
      if level == 0 {
        return None, 0;
      }
      r, donor := GetFreeBlock(level - 1);
      if r.Some? {
        SplitStep(Geo(), old(Abs()), donor, level, r.value, Abs());
        PushRightHalf(level, r.value);
      }
    }

    /** Halves the block in transit and puts its right half on the list of `level`. */
    method PushRightHalf(level: nat, ptr: nat)
      requires Valid() && 0 < level < levels && Block(level - 1, ptr) in live
      requires LevelEmpty(free, level)
      modifies this, table
      ensures Valid() && KeepsOthers(Geo(), old(table.node), table.node)
      ensures var b := Block(level - 1, ptr);
        Abs() == State(old(free) + {RightHalf(Geo(), b)}, old(live) - {b} + {LeftHalf(b)})
      ensures level < |old(chains)| == |chains| && old(chains)[level] == [] && |chains[level]| == 1
      ensures chains == old(chains)[level := chains[level]]
    {
      ghost var b := Block(level - 1, ptr);
      EmptyLevel(chains, level);
      HalveInv(Geo(), Abs(), b);
      live := live - {b} + {LeftHalf(b), RightHalf(Geo(), b)};
      var pages := BlockSize(level);
      PagesScale(Geo(), level);
      var buddy := ptr + pages * 32;
      PushAt(level, buddy, false);
      assert live == old(live) - {b} + {LeftHalf(b)};
    }

    /** Exclusive or of the offset from the node table with the block size. */
    method BuddyAddress(level: nat, ptr: nat) returns (buddy: nat)
      requires Static() && level < levels && ptr >= pageListStart
      ensures Block(level, buddy) == BuddyOf(Geo(), Block(level, ptr))
    {
      BuddyFromTable(Geo(), Block(level, ptr));
      var pages := BlockSize(level);
      var blockSize := pages * 32;
      var offset := ptr - pageListStart;
      var buddyOffset := Xor(offset, blockSize);
      buddy := pageListStart + buddyOffset;
    }

    /** Returns a block, merging it with its buddy as long as the buddy's tag matches. Buddies inside
        the span are free blocks of this allocator. The first one outside sends merging `astray`: it is
        unlinked from the list of another allocator while this one's list of that level shrinks.
        Merging panics exactly when it meets such a buddy and that list is empty. */
    method MergeBuddies(level: nat, ptr: nat, ghost tagged: set<Block>, ghost lens: seq<nat>, ghost astray: bool)
      returns (ok: bool)
      requires Static() && ptr in LooseNodes(Geo(), table.node) && Now() in Climbing(Geo(), tagged, lens, level)
      requires Block(level, ptr) in LooksWithin(Geo(), table.node.Keys, tagged)
      requires !astray ==> Now() in TidyStates(Geo()) && Block(level, ptr) in live
      modifies this, table
      ensures ok <==> !Underflows(Geo(), tagged, lens, Block(level, ptr))
      ensures ok ==> Now() in Outcomes(Geo(), tagged, lens, Block(level, ptr), astray, old(Now()))
      decreases level, 1
    {
      ghost var b := Block(level, ptr);
      var buddy, found := 0, false;
      assert Reaches(Geo(), table.node.Keys, tagged, b);
      if level > 0 {
        buddy, found := FindBuddy(level, ptr);
      }
      if found {
        ok := MergeUpwards(level, ptr, buddy, tagged, lens, astray);
      } else {
        ghost var was := Now();
        BuddyUntagged(b, tagged, lens, astray);
        PushAt(level, ptr, astray);
        EndsHere(Geo(), tagged, lens, b, astray, was, Now());
        ok := true;
      }
    }

    lemma {:induction false} BuddyUntagged(b: Block, tagged: set<Block>, lens: seq<nat>, astray: bool)
      requires Static() && b.start in LooseNodes(Geo(), table.node) && Now() in Climbing(Geo(), tagged, lens, b.level)
      requires b.level == 0 || BuddyOf(Geo(), b) !in tagged
      requires !astray ==> Now() in TidyStates(Geo()) && b in live
      ensures InOrder(Geo(), table.node, lists[b.level], chains[b.level], b.level)
      ensures !astray ==> b.level == 0 || BuddyOf(Geo(), b) !in free
    {
      assert Upwards(Geo(), table.node, lists, chains, tagged, lens, b.level);
      assert InOrder(Geo(), table.node, lists[b.level], chains[b.level], b.level);
      if !astray && b.level > 0 && BuddyOf(Geo(), b) in free {
        InBlocks(chains, BuddyOf(Geo(), b));
        InTagged(Geo(), table.node, BuddyOf(Geo(), b));
      }
    }

    method MergeUpwards(level: nat, ptr: nat, buddy: nat, ghost tagged: set<Block>, ghost lens: seq<nat>,
                        ghost astray: bool)
      returns (ok: bool)
      requires Static() && ptr in LooseNodes(Geo(), table.node)
      requires level > 0 && Now() in Climbing(Geo(), tagged, lens, level)
      requires BuddyOf(Geo(), Block(level, ptr)) == Block(level, buddy) && Block(level, buddy) in tagged
      requires Block(level, ptr) in LooksWithin(Geo(), table.node.Keys, tagged)
      requires !astray ==> Now() in TidyStates(Geo()) && Block(level, ptr) in live
      modifies this, table
      ensures ok <==> !Underflows(Geo(), tagged, lens, Block(level, ptr))
      ensures ok ==> Now() in Outcomes(Geo(), tagged, lens, Block(level, ptr), astray, old(Now()))
      decreases level, 0
    {
      ghost var b := Block(level, ptr);
      ghost var m := MergedAt(Geo(), tagged, b).start;
      ghost var own := !astray && Fits(Geo(), Block(level, buddy));
      ghost var was := Now();
      StaysWithin(Geo(), table.node.Keys, tagged, lens, b, Parent(Geo(), b));
      var removed, merged := RemoveTagged(level, ptr, buddy, tagged, lens, own, m);
      if !removed {
        return false;
      }
      ghost var mid, p := Now(), Block(level - 1, merged);
      assert p == Parent(Geo(), b) && table.node.Keys == old(table.node.Keys);
      ok := MergeBuddies(level - 1, merged, tagged, lens, !own);
      if ok {
        MergesOn(Geo(), tagged, lens, b, p, astray, own, m, was, mid, Now());
      }
    }

    method FindBuddy(level: nat, ptr: nat) returns (buddy: nat, found: bool)
      requires Static() && 0 < level < levels && |lists| == levels && ptr >= pageListStart
      requires BuddyOf(Geo(), Block(level, ptr)).start in table.node
      ensures Block(level, buddy) == BuddyOf(Geo(), Block(level, ptr))
      ensures found <==> Block(level, buddy) in TaggedAs(Geo(), table.node)
    {
      buddy := BuddyAddress(level, ptr);
      InTagged(Geo(), table.node, Block(level, buddy));
      var pages := BlockSize(level);
      found := lists[level].Contains(table, buddy, pages);
    }

    /** Unlinks the buddy from whatever list holds it. If that is the own list, the two blocks in
        transit become their parent. It panics exactly on a foreign buddy with the own list empty. */
    method RemoveTagged(level: nat, ptr: nat, buddy: nat, ghost tagged: set<Block>, ghost lens: seq<nat>,
                        ghost own: bool, ghost m: nat)
      returns (ok: bool, merged: nat)
      requires Static() && ptr in LooseNodes(Geo(), table.node)
      requires level > 0 && Now() in Climbing(Geo(), tagged, lens, level)
      requires BuddyOf(Geo(), Block(level, ptr)) == Block(level, buddy) && Block(level, buddy) in tagged
      requires own ==> Now() in TidyStates(Geo()) && Block(level, ptr) in live && Fits(Geo(), Block(level, buddy))
      modifies this, table
      ensures ok <==> Fits(Geo(), Block(level, buddy)) || lens[level] > 0
      ensures Block(level - 1, merged) == Parent(Geo(), Block(level, ptr))
      ensures ok ==> merged in LooseNodes(Geo(), table.node) && table.node.Keys == old(table.node.Keys)
      ensures ok ==> Now() in Climbing(Geo(), tagged, lens, level - 1)
      ensures ok ==> Now() in Unlinkings(Geo(), lens, Block(level, ptr), own, m, old(Now()))
      ensures own ==> Now() in TidyStates(Geo()) && Block(level - 1, merged) in live
    {
      merged := if buddy < ptr then buddy else ptr;
      BuddyIsNode(Geo(), Block(level, ptr));
      var r;
      ghost var now;
      r, now := UnlinkBuddy(level, buddy, Block(level, ptr), tagged, lens, own, m);
      if r.None? {
        return false, merged;
      }
      ok := true;
      lists := lists[level := r.value];
      chains, free, live := now.chains, now.s.free, now.s.live;
      assert Now() == now;
    }

    /** The part of `RemoveTagged` that writes to the table. */
    method UnlinkBuddy(level: nat, buddy: nat, ghost b: Block, ghost tagged: set<Block>, ghost lens: seq<nat>,
                       ghost own: bool, ghost m: nat)
      returns (r: Option<DoubleFreeList>, ghost now: Snapshot)
      requires Static() && b.start in LooseNodes(Geo(), table.node)
      requires level > 0 && Now() in Climbing(Geo(), tagged, lens, level)
      requires b.level == level && BuddyOf(Geo(), b) == Block(level, buddy) && Block(level, buddy) in tagged
      requires own ==> Now() in TidyStates(Geo()) && b in live && Fits(Geo(), Block(level, buddy))
      modifies table
      ensures r.Some? <==> Fits(Geo(), Block(level, buddy)) || lens[level] > 0
      ensures table.node.Keys == old(table.node.Keys) && buddy in table.node
      ensures table.node[buddy].levelSize == None && table.node[b.start].levelSize == None
      ensures r.Some? ==> level < |lists| && now.node == table.node && now.lists == lists[level := r.value]
      ensures r.Some? ==> now in Climbing(Geo(), tagged, lens, level - 1)
      ensures r.Some? ==> now in Unlinkings(Geo(), lens, b, own, m, old(Now()))
      ensures own ==> now in TidyStates(Geo()) && Parent(Geo(), b) in now.s.live
    {
      ghost var c, was := Block(level, buddy), Now();
      ghost var owner, nodes, k;
      BuddyIsNode(Geo(), b);
      assert Upwards(Geo(), table.node, lists, chains, tagged, lens, level);
      assert InOrder(Geo(), table.node, lists[level], chains[level], level);
      owner, nodes, k := HolderOf(Geo(), table.node, lists[level], chains[level], c);
      UnlinkedLoose(table.node, owner, nodes, Pages(Geo(), level), k, b.start);
      r := lists[level].Remove(table, buddy, owner, nodes, Pages(Geo(), level), k);
      now := was;
      if r.Some? {
        now := Unlinks(Geo(), tagged, lens, b, own, m, was, owner, nodes, k, r.value);
      }
    }

    /** Succeeds exactly on block sizes and on sizes below one page: it does not round up. */
    method GetLevelFromSize(size: nat) returns (r: Option<nat>)
      requires Static()
      ensures r.Some? ==> r.value < levels
      ensures forall l: nat :: l < levels ==>
        (r == Some(l) <==> size == 4096 * Pages(Geo(), l) || (l == levels - 1 && size < 4096 * Pages(Geo(), l)))
    {
      PagesScale(Geo(), 0);
      var level := 0;
      var blockSize := virtEnd - virtStart;
      while blockSize > size && level + 1 < levels
        invariant 0 <= level < levels && blockSize == 4096 * Pages(Geo(), level)
        invariant forall l :: 0 <= l < level ==> size < 4096 * Pages(Geo(), l)
      {
        level := level + 1;
        blockSize := blockSize / 2;
      }
      forall l: nat | level < l < levels ensures Pages(Geo(), l) < Pages(Geo(), level) {
        Pow2Order(levels - 1 - l, levels - 1 - level);
      }
      if size > blockSize {
        return None;
      }
      return Some(level);
    }

    /** The address of the frame that a node stands for. */
    ghost function FrameOf(node: nat): nat
      requires node >= pageListStart
    {
      pageListStart + 128 * (node - pageListStart)
    }

    /** Hands out a block of `level`, by the address of its first frame. */
    method HandOut(level: nat) returns (r: Option<nat>, ghost donor: nat, ghost node: nat)
      requires Valid() && level < levels
      modifies this, table
      ensures Valid() && KeepsOthers(Geo(), old(table.node), table.node)
      ensures r.Some? <==> exists b :: b in old(free) && b.level <= level
      ensures r.None? ==> Abs() == old(Abs()) && lists == old(lists) && table.node == old(table.node)
      ensures r.Some? ==>
        && Step(Geo(), old(Abs()), Event.Alloc(level, donor, node), Abs())
        && node >= pageListStart && r.value == FrameOf(node)
        && r.value % 4096 == 0
        && virtStart <= r.value && r.value + 4096 * Pages(Geo(), level) <= virtEnd
    {
      node := 0;
      var block;
      block, donor := GetFreeBlock(level);
      if block.None? {
        NoneAtOrAbove(old(free), level);
        return None, donor, node;
      }
      node := block.value;
      FrameInside(Block(level, node));
      var blockIndex := (block.value - pageListStart) / 32;
      var actualPage := pageListStart + blockIndex * 4096;
      assert actualPage == 4096 * (tablePage + blockIndex);
      r := Some(actualPage);
    }

    /** Hands out the smallest kind of block that has the frames. It fails, changing nothing, exactly when
        the count is neither zero nor a power of two or no free block has that many. The whole block of
        a result lies between `virtStart` and `virtEnd`. */
    method AllocateContiguousFrames(frames: nat)
      returns (r: Option<nat>, ghost level: nat, ghost donor: nat, ghost node: nat)
      requires Valid()
      modifies this, table
      ensures Valid() && KeepsOthers(Geo(), old(table.node), table.node)
      ensures r.Some? <==> CanServe(Geo(), old(free), frames)
      ensures r.None? ==> Abs() == old(Abs()) && lists == old(lists) && table.node == old(table.node)
      ensures r.Some? ==>
        && level < levels && frames <= Pages(Geo(), level)
        && (level + 1 < levels ==> Pages(Geo(), level + 1) < frames)
        && LevelOfBytes(Geo(), 4096 * frames, level)
        && Step(Geo(), old(Abs()), Event.Alloc(level, donor, node), Abs())
        && node >= pageListStart && r.value == FrameOf(node)
        && r.value % 4096 == 0
        && virtStart <= r.value && r.value + 4096 * Pages(Geo(), level) <= virtEnd
    {
      level, donor, node := 0, 0, 0;
      var size := 4096 * frames;
      var found := GetLevelFromSize(size);
      if found.None? {
        NoLevel(Geo(), free, frames);
        return None, level, donor, node;
      }
      level := found.value;
      ServeAt(Geo(), free, frames, found.value);
      r, donor, node := HandOut(found.value);
    }

    /** A request for as many frames as the whole span, whatever state the lists are in: it gets what the
        head of level 0 names, since that level cannot be split. */
    method ServeWhole(ghost nodes: seq<nat>) returns (r: Option<nat>)
      requires Static() && |lists| == levels && Poppable(table.node, lists[0])
      requires lists[0].next != NULL ==> lists[0].next >= pageListStart && Multiple(lists[0].next - pageListStart, 32)
      modifies this`lists, table
      ensures old(lists)[0].next == NULL ==> r == None
      ensures old(lists)[0].next != NULL ==>
        old(lists)[0].next >= pageListStart && r == Some(FrameOf(old(lists)[0].next))
      ensures DLinked(old(table.node), old(lists)[0], nodes, Pages(Geo(), 0)) && nodes != [] ==>
        OnlyTouches(old(table.node), table.node, nodes, nodes[0])
    {
      var size := virtEnd - virtStart;
      PagesScale(Geo(), 0);
      var found := GetLevelFromSize(size);
      assert LevelOfBytes(Geo(), size, 0) && found.Some?;
      LevelOfBytesUnique(Geo(), size, found.value, 0);
      var list, block := lists[found.value].Pop(table, nodes, Pages(Geo(), 0));
      lists := lists[found.value := list];
      if block.None? {
        return None;
      }
      MultipleIsMod(block.value - pageListStart, 32);
      var blockIndex := (block.value - pageListStart) / 32;
      r := Some(pageListStart + blockIndex * 4096);
    }

    lemma {:induction false} FrameInside(b: Block)
      requires Valid() && b in live
      ensures b.level < levels && b.start >= pageListStart
      ensures (b.start - pageListStart) / 32 * 4096 == 128 * (b.start - pageListStart)
      ensures virtStart <= FrameOf(b.start) && FrameOf(b.start) + 4096 * Pages(Geo(), b.level) <= virtEnd
    {
      assert Fits(Geo(), b);
      assert Pow2(5) == 32;
      MultipleIsMod(b.start - pageListStart, 32);
      PagesScale(Geo(), b.level);
    }

    /** Takes back a block that was handed out for the same number of frames: the address and the
        count lead to the node and the level that allocating used. If merging is sheltered from the
        tags of other allocators it is the merging step. Otherwise it panics exactly when it meets a
        foreign buddy while the own list of that level is empty. If it does not panic, the own list of
        the first such level is left with a header that counts one node too few, and that names a
        foreign node if the buddy was first on its list. */
    method DeallocateContiguousFrames(addr: nat, frames: nat, ghost level: nat, ghost node: nat) returns (ok: bool)
      requires Valid() && LevelOfBytes(Geo(), 4096 * frames, level)
      requires Block(level, node) in live && node >= pageListStart && addr == FrameOf(node)
      requires ForeignHeld(Geo(), table.node, level)
      requires var tagged := TaggedAs(Geo(), table.node);
        Sheltered(Geo(), tagged, Block(level, node)) || Reaches(Geo(), table.node.Keys, tagged, Block(level, node))
      modifies this, table
      ensures Now() in Frees(Geo(), Block(level, node), ok, old(Now()))
    {
      ghost var b, was := Block(level, node), Now();
      var ptr, at := Locate(addr, frames, level, node);
      ghost var tagged, lens := TaggedAs(Geo(), table.node), Lengths(lists);
      ReadyToMerge(b, tagged);
      ok := MergeBuddies(at, ptr, tagged, lens, false);
      FreedNow(Geo(), b, ok, was, Now());
    }

    /** The node and the level of a block, from its address and its size. */
    method Locate(addr: nat, frames: nat, ghost level: nat, ghost node: nat) returns (ptr: nat, at: nat)
      requires Valid() && LevelOfBytes(Geo(), 4096 * frames, level)
      requires Block(level, node) in live && node >= pageListStart && addr == FrameOf(node)
      ensures ptr == node && at == level
    {
      FrameInside(Block(level, node));
      var pageIndex := (addr - pageListStart) / 4096;
      ptr := pageListStart + pageIndex * 32;
      var size := 4096 * frames;
      var found := GetLevelFromSize(size);
      assert found.Some?;
      LevelOfBytesUnique(Geo(), size, found.value, level);
      at := found.value;
    }

    lemma {:induction false} ReadyToMerge(b: Block, tagged: set<Block>)
      requires Valid() && b in live && ForeignHeld(Geo(), table.node, b.level) && tagged == TaggedAs(Geo(), table.node)
      requires Sheltered(Geo(), tagged, b) || Reaches(Geo(), table.node.Keys, tagged, b)
      ensures b.start in LooseNodes(Geo(), table.node) && Now() in Climbing(Geo(), tagged, Lengths(lists), b.level)
      ensures b in LooksWithin(Geo(), table.node.Keys, tagged)
      ensures Sheltered(Geo(), tagged, b) ==> !Underflows(Geo(), tagged, Lengths(lists), b)
      ensures forall l :: 0 <= l < levels ==> NoDup(chains[l]) && Lengths(lists)[l] == |chains[l]|
    {
      LiveUntagged(Geo(), table.node, Abs(), b);
      FreeIsOwn(Geo(), Abs(), b);
      TidyIsUpwards(Geo(), table.node, lists, chains, Abs(), Lengths(lists), b.level);
      ForeignUnderflows(Geo(), tagged, Lengths(lists), b);
      if Sheltered(Geo(), tagged, b) {
        ShelteredReaches(Geo(), table.node, tagged, b);
      }
      forall l | 0 <= l < levels ensures NoDup(chains[l]) && Lengths(lists)[l] == |chains[l]| {
        assert DLinked(table.node, lists[l], chains[l], PageSizes(Geo())[l]);
      }
    }
  }

  /** Exactly the byte sizes that the level search accepts. */
  predicate LevelOfBytes(g: Geometry, size: nat, level: nat) {
    && level < g.levels
    && (size == 4096 * Pages(g, level) || (level == g.levels - 1 && size < 4096 * Pages(g, level)))
  }

  lemma {:induction false} LevelOfBytesUnique(g: Geometry, size: nat, l: nat, m: nat)
    requires LevelOfBytes(g, size, l) && LevelOfBytes(g, size, m)
    ensures l == m
  {
    Pow2Order(g.levels - 1 - l, g.levels - 1 - m);
    Pow2Order(g.levels - 1 - m, g.levels - 1 - l);
  }

  /** Some free block has the frames, and their count is one that some level has or is zero. */
  ghost predicate CanServe(g: Geometry, free: set<Block>, frames: nat) {
    (frames == 0 || IsPow2(frames)) && exists b :: b in free && frames <= Pages(g, b.level)
  }

  lemma {:induction false} NoneAtOrAbove(free: set<Block>, level: nat)
    requires forall i :: 0 <= i <= level ==> LevelEmpty(free, i)
    ensures !exists b :: b in free && b.level <= level
  {
    forall b | b in free ensures b.level > level {
      assert b.level <= level ==> LevelEmpty(free, b.level);
    }
  }

  lemma {:induction false} PagesOrder(g: Geometry, l: nat, m: nat)
    requires l < g.levels && m < g.levels
    ensures Pages(g, l) < Pages(g, m) <==> m < l
  {
    Pow2Order(g.levels - 1 - l, g.levels - 1 - m);
  }

  /** The level found is the smallest that has the frames, and only free blocks at or above it do. */
  lemma {:induction false} ServeAt(g: Geometry, free: set<Block>, frames: nat, level: nat)
    requires LevelOfBytes(g, 4096 * frames, level) && forall b :: b in free ==> b.level < g.levels
    ensures frames <= Pages(g, level) && (level + 1 < g.levels ==> Pages(g, level + 1) < frames)
    ensures CanServe(g, free, frames) <==> exists b :: b in free && b.level <= level
  {
    Pow2IsPow2(g.levels - 1 - level);
    assert Pow2(0) == 1;
    if level + 1 < g.levels { PagesOrder(g, level + 1, level); }
    forall b | b in free ensures frames <= Pages(g, b.level) <==> b.level <= level {
      PagesOrder(g, b.level, level);
    }
  }

  /** Every power of two that fits some level is the size of one. */
  lemma {:induction false} LevelOfPower(g: Geometry, frames: nat, fits: nat) returns (level: nat)
    requires (frames == 0 || IsPow2(frames)) && fits < g.levels && frames <= Pages(g, fits)
    ensures LevelOfBytes(g, 4096 * frames, level)
  {
    level := g.levels - 1;
    if frames > 0 {
      Pow2Order(g.levels - 1 - fits, Log2(frames));
      level := g.levels - 1 - Log2(frames);
    }
  }

  lemma {:induction false} NoLevel(g: Geometry, free: set<Block>, frames: nat)
    requires g.levels >= 1 && forall b :: b in free ==> b.level < g.levels
    requires forall l: nat :: l < g.levels ==> !LevelOfBytes(g, 4096 * frames, l)
    ensures !CanServe(g, free, frames)
  {
    if CanServe(g, free, frames) {
      var b :| b in free && frames <= Pages(g, b.level);
      var l := LevelOfPower(g, frames, b.level);
    }
  }
}
