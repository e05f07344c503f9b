/** What the tags in the shared node table say about one frame allocator and about its neighbours. */
module NodeTags {
  import opened Bits
  import opened Buddy
  import opened BuddyRuns
  import opened FreeLists
  import opened NodeLists

  /** Block size of a level in pages. */
  function Pages(g: Geometry, level: nat): nat {
    if level < g.levels then Pow2(g.levels - 1 - level) else 0
  }

  function PageSizes(g: Geometry): (s: seq<nat>)
    ensures |s| == g.levels
    ensures forall l :: 0 <= l < g.levels ==> s[l] == Pages(g, l)
  {
    seq(g.levels, l requires 0 <= l => Pages(g, l))
  }

  lemma {:induction false} PagesScale(g: Geometry, level: nat)
    requires g.unitBits == 5 && level < g.levels
    ensures Size(g, level) == 32 * Pages(g, level)
  {
    Pow2Sum(5, g.levels - 1 - level);
    assert Pow2(5) == 32;
  }

  lemma {:induction false} PagesInjective(g: Geometry, l: nat, m: nat)
    requires l < g.levels && m < g.levels && Pages(g, l) == Pages(g, m)
    ensures l == m
  {
    Pow2Order(g.levels - 1 - l, g.levels - 1 - m);
    Pow2Order(g.levels - 1 - m, g.levels - 1 - l);
  }

  // ---- tags ----

  predicate OwnNode(g: Geometry, p: nat) {
    g.origin <= p && InSpan(g, p) && Multiple(p - g.origin, Pow2(g.unitBits))
  }

  /** `p` is the address of a node, in the span or not. */
  predicate NodeOf(g: Geometry, p: nat) {
    g.origin <= p && Multiple(p - g.origin, Pow2(g.unitBits))
  }

  lemma {:induction false} BuddyIsNode(g: Geometry, b: Block)
    requires b.level < g.levels && NodeOf(g, b.start)
    ensures NodeOf(g, BuddyOf(g, b).start) && (b.level > 0 ==> NodeOf(g, Parent(g, b).start))
  {
    BuddyIsAdjacent(g, b);
  }

  /** A tag on node `p` names the list that really holds it. */
  ghost predicate TagHeld(g: Geometry, free: set<Block>, p: nat, tag: Option<nat>) {
    tag.None? || exists l: nat :: l < g.levels && tag.value == Pages(g, l) && Block(l, p) in free
  }

  ghost predicate TagsExact(g: Geometry, node: map<nat, Node>, free: set<Block>) {
    forall p {:trigger OwnNode(g, p)} ::
      OwnNode(g, p) ==> p in node && TagHeld(g, free, p, node[p].levelSize)
  }

  /** The blocks that the tags claim to be free, whoever wrote them. */
  ghost function TaggedAs(g: Geometry, node: map<nat, Node>): set<Block> {
    set a, l | a in node && 0 <= l < g.levels && node[a].levelSize == Some(Pages(g, l)) :: Block(l, a)
  }

  lemma {:induction false} InTagged(g: Geometry, node: map<nat, Node>, b: Block)
    ensures b in TaggedAs(g, node) <==>
      b.start in node && b.level < g.levels && node[b.start].levelSize == Some(Pages(g, b.level))
  {
  }

  /** Every buddy that merging may compute can be read. */
  ghost predicate Readable(g: Geometry, node: map<nat, Node>) {
    forall b {:trigger BuddyOf(g, b)} :: Fits(g, b) && b.level > 0 ==> BuddyOf(g, b).start in node
  }

  /** Nodes outside the span are untouched. */
  ghost predicate KeepsOthers(g: Geometry, node: map<nat, Node>, node': map<nat, Node>) {
    node'.Keys == node.Keys && forall a :: a in node && !InSpan(g, a) ==> node'[a] == node[a]
  }

  lemma {:induction false} FreeIsOwn(g: Geometry, s: State, b: Block)
    requires Inv(g, s) && b in s.free + s.live
    ensures Fits(g, b) && OwnNode(g, b.start)
  {
    assert Fits(g, b);
  }

  lemma {:induction false} TagsAfterPush(g: Geometry, node: map<nat, Node>, node': map<nat, Node>, free: set<Block>,
                                         b: Block)
    requires TagsExact(g, node, free) && b.level < g.levels
    requires node'.Keys == node.Keys
    requires forall a :: a in node && a != b.start ==> node'[a].levelSize == node[a].levelSize
    requires b.start in node' && node'[b.start].levelSize == Some(Pages(g, b.level))
    ensures TagsExact(g, node', free + {b})
  {
    forall p | OwnNode(g, p) ensures p in node' && TagHeld(g, free + {b}, p, node'[p].levelSize) {
      if p != b.start && node'[p].levelSize.Some? {
        var l: nat :| l < g.levels && node[p].levelSize.value == Pages(g, l) && Block(l, p) in free;
        assert Block(l, p) in free + {b};
      } else if p == b.start {
        assert Block(b.level, p) in free + {b};
      }
    }
  }

  lemma {:induction false} TagsAfterDrop(g: Geometry, node: map<nat, Node>, node': map<nat, Node>, free: set<Block>,
                                         b: Block)
    requires TagsExact(g, node, free)
    requires node'.Keys == node.Keys
    requires forall a :: a in node && a != b.start ==> node'[a].levelSize == node[a].levelSize
    requires b.start in node' && node'[b.start].levelSize == None
    ensures TagsExact(g, node', free - {b})
    ensures TaggedAs(g, node') <= TaggedAs(g, node)
  {
    forall p | OwnNode(g, p) ensures p in node' && TagHeld(g, free - {b}, p, node'[p].levelSize) {
      if p != b.start && node'[p].levelSize.Some? {
        var l: nat :| l < g.levels && node[p].levelSize.value == Pages(g, l) && Block(l, p) in free;
        assert Block(l, p) in free - {b};
      }
    }
  }

  /** The constant-time tag test is membership in the free set, for a node of the span. */
  lemma {:induction false} TagIsMembership(g: Geometry, node: map<nat, Node>, s: State, lists: seq<DoubleFreeList>,
                                           chains: seq<seq<nat>>, p: nat, level: nat)
    requires Inv(g, s) && TagsExact(g, node, s.free) && s.free == BlocksOf(chains)
    requires AllDLinked(node, lists, chains, PageSizes(g)) && level < g.levels && OwnNode(g, p)
    ensures p in node && (node[p].levelSize == Some(Pages(g, level)) <==> p in chains[level])
  {
    InBlocks(chains, Block(level, p));
    if node[p].levelSize == Some(Pages(g, level)) {
      var l: nat :| l < g.levels && node[p].levelSize.value == Pages(g, l) && Block(l, p) in s.free;
      PagesInjective(g, l, level);
    }
    if p in chains[level] {
      assert DLinked(node, lists[level], chains[level], PageSizes(g)[level]);
    }
  }

  lemma {:induction false} LiveUntagged(g: Geometry, node: map<nat, Node>, s: State, b: Block)
    requires Inv(g, s) && TagsExact(g, node, s.free) && b in s.live
    ensures b.start in node && node[b.start].levelSize == None
  {
    FreeIsOwn(g, s, b);
    if node[b.start].levelSize.Some? {
      var l: nat :| l < g.levels && node[b.start].levelSize.value == Pages(g, l) && Block(l, b.start) in s.free;
      StartsDiffer(g, s, b, Block(l, b.start));
    }
  }

  /** Sheltered merging looks only at buddies that are known to be readable. */
  lemma {:induction false} ShelteredReaches(g: Geometry, node: map<nat, Node>, tagged: set<Block>, b: Block)
    requires Readable(g, node) && Fits(g, b) && Sheltered(g, tagged, b)
    ensures Reaches(g, node.Keys, tagged, b)
    decreases b.level
  {
    if b.level > 0 && BuddyOf(g, b) in tagged {
      BuddyIsAdjacent(g, b);
      SizeHalves(g, b.level - 1);
      ShelteredReaches(g, node, tagged, Parent(g, b));
    }
  }

  // ---- one allocator's lists, tags and blocks together ----

  ghost predicate Tidy(g: Geometry, node: map<nat, Node>, lists: seq<DoubleFreeList>, chains: seq<seq<nat>>, s: State) {
    && AllDLinked(node, lists, chains, PageSizes(g))
    && s.free == BlocksOf(chains)
    && TagsExact(g, node, s.free)
    && Readable(g, node)
    && Inv(g, s)
  }

  /** Taking `ptr` off the list of `level`, which leaves `rest` on it. */
  lemma {:induction false} TidyAfterTake(g: Geometry, node: map<nat, Node>, lists: seq<DoubleFreeList>,
                                         chains: seq<seq<nat>>,
                                         s: State, level: nat, node': map<nat, Node>, list: DoubleFreeList, ptr: nat,
                                         rest: seq<nat>)
    requires Tidy(g, node, lists, chains, s) && level < g.levels && Block(level, ptr) in s.free
    requires DLinked(node', list, rest, Pages(g, level)) && OnlyTouches(node, node', chains[level], ptr)
    requires forall q :: q in rest <==> q in chains[level] && q != ptr
    requires ptr in node' && node'[ptr].levelSize == None
    ensures Tidy(g, node', lists[level := list], chains[level := rest],
                 State(s.free - {Block(level, ptr)}, s.live + {Block(level, ptr)}))
    ensures KeepsOthers(g, node, node')
  {
    var b := Block(level, ptr);
    ListedApart(g, s, chains, level);
    RemovedBlock(chains, level, rest, ptr);
    InBlocks(chains, b);
    GrabInv(g, s, b);
    TagsAfterDrop(g, node, node', s.free, b);
    Rethreaded(node, lists, chains, PageSizes(g), level, node', list, rest);
  }

  /** Taking the first block off a list. */
  lemma {:induction false} TidyAfterPop(g: Geometry, node: map<nat, Node>, lists: seq<DoubleFreeList>,
                                        chains: seq<seq<nat>>,
                                        s: State, b: Block, node': map<nat, Node>, list: DoubleFreeList)
    requires Tidy(g, node, lists, chains, s) && b.level < g.levels && IsFront(chains, b.level, b.start)
    requires DLinked(node', list, chains[b.level][1..], Pages(g, b.level))
    requires OnlyTouches(node, node', chains[b.level], b.start)
    requires b.start in node' && node'[b.start].levelSize == None
    ensures Tidy(g, node', lists[b.level := list], chains[b.level := chains[b.level][1..]],
                 State(s.free - {b}, s.live + {b}))
    ensures KeepsOthers(g, node, node') && b in s.free
  {
    assert DLinked(node, lists[b.level], chains[b.level], PageSizes(g)[b.level]);
    TailMembers(chains[b.level]);
    InBlocks(chains, b);
    TidyAfterTake(g, node, lists, chains, s, b.level, node', list, b.start, chains[b.level][1..]);
  }

  /** Putting a block on the list of its level. */
  lemma {:induction false} TidyAfterPush(g: Geometry, node: map<nat, Node>, lists: seq<DoubleFreeList>,
                                         chains: seq<seq<nat>>,
                                         s: State, b: Block, node': map<nat, Node>, list: DoubleFreeList)
    requires Tidy(g, node, lists, chains, s) && b in s.live && b.level < g.levels
    requires b.level == 0 || BuddyOf(g, b) !in s.free
    requires DLinked(node', list, [b.start] + chains[b.level], Pages(g, b.level))
    requires OnlyTouches(node, node', chains[b.level], b.start)
    requires b.start in node' && node'[b.start].levelSize == Some(Pages(g, b.level))
    ensures Tidy(g, node', lists[b.level := list], chains[b.level := [b.start] + chains[b.level]],
                 State(s.free + {b}, s.live - {b}))
    ensures KeepsOthers(g, node, node')
  {
    FreeIsOwn(g, s, b);
    NotListed(g, s, chains, b);
    ListedApart(g, s, chains, b.level);
    ReleaseInv(g, s, b);
    AddedBlock(chains, b.level, [b.start] + chains[b.level], b.start);
    TagsAfterPush(g, node, node', s.free, b);
    Rethreaded(node, lists, chains, PageSizes(g), b.level, node', list, [b.start] + chains[b.level]);
  }

  /** Taking the free buddy of a block in transit off its list, where it is the `k`th, and making the
      two one block in transit. */
  lemma {:induction false} TidyAfterFuse(g: Geometry, node: map<nat, Node>, lists: seq<DoubleFreeList>,
                                         chains: seq<seq<nat>>,
                                         s: State, b: Block, k: nat, list: DoubleFreeList)
    requires Tidy(g, node, lists, chains, s) && b in s.live && 0 < b.level < g.levels
    requires k < |chains[b.level]| && BuddyOf(g, b).start == chains[b.level][k]
    requires list.len == lists[b.level].len - 1
    requires list.next == if k == 0 then NodeAt(chains[b.level], 1) else lists[b.level].next
    ensures forall i :: 0 <= i < |chains[b.level]| ==> chains[b.level][i] in node
    ensures var node' := Unlinked(node, chains[b.level], k);
      && Tidy(g, node', lists[b.level := list], chains[b.level := Without(chains[b.level], k)],
              State(s.free - {BuddyOf(g, b)}, s.live - {b} + {Parent(g, b)}))
      && KeepsOthers(g, node, node')
    ensures Parent(g, b) !in s.live
  {
    var c := BuddyOf(g, b);
    var chain := chains[b.level];
    assert DLinked(node, lists[b.level], chain, PageSizes(g)[b.level]);
    UnlinkedIsLinked(node, lists[b.level], chain, Pages(g, b.level), k);
    UnlinkedTouches(node, chain, k);
    WithoutMembers(chain, k);
    InBlocks(chains, c);
    TidyAfterTake(g, node, lists, chains, s, b.level, Unlinked(node, chain, k), list, c.start, Without(chain, k));
    FuseInv(g, State(s.free - {c}, s.live + {c}), b);
    assert s.live + {c} - {b, c} + {Parent(g, b)} == s.live - {b} + {Parent(g, b)} by { NotBoth(g, s, b, c); }
  }

  lemma {:induction false} NotBoth(g: Geometry, s: State, b: Block, c: Block)
    requires Inv(g, s) && b in s.live && c in s.free
    ensures c !in s.live && b != c
  {
  }

  // ---- merging that may meet the tags of other allocators ----

  /** Some list holds the node, and none of its nodes is in the span. */
  ghost predicate HeldAt(g: Geometry, node: map<nat, Node>, p: nat, size: nat, owner: DoubleFreeList, nodes: seq<nat>,
                         k: nat) {
    DLinked(node, owner, nodes, size) && k < |nodes| && nodes[k] == p && forall q :: q in nodes ==> !InSpan(g, q)
  }

  ghost predicate Held(g: Geometry, node: map<nat, Node>, p: nat, size: nat) {
    exists owner, nodes, k: nat :: HeldAt(g, node, p, size, owner, nodes, k)
  }

  /** Nodes outside the span with the tag of a level up to `level` are on lists outside it. */
  ghost predicate ForeignHeld(g: Geometry, node: map<nat, Node>, level: nat) {
    forall p, l: nat {:trigger Held(g, node, p, Pages(g, l))} ::
      l <= level && l < g.levels && p in node && !InSpan(g, p) && node[p].levelSize == Some(Pages(g, l)) ==>
        Held(g, node, p, Pages(g, l))
  }

  /** One list is in order, as far as its own nodes and tags show. */
  ghost predicate InOrder(g: Geometry, node: map<nat, Node>, list: DoubleFreeList, chain: seq<nat>, level: nat) {
    && DLinked(node, list, chain, Pages(g, level))
    && (forall p :: p in chain ==> Fits(g, Block(level, p)))
    && (forall p {:trigger OwnNode(g, p)} ::
          OwnNode(g, p) && p in node && node[p].levelSize == Some(Pages(g, level)) ==> p in chain)
  }

  /** What merging from `level` upwards relies on, whatever happened to the lists below: its lists are
      in order, foreign tags are on foreign lists, and `tagged` and `lens` record the tags and the
      lengths. */
  ghost predicate Upwards(g: Geometry, node: map<nat, Node>, lists: seq<DoubleFreeList>, chains: seq<seq<nat>>,
                          tagged: set<Block>, lens: seq<nat>, level: nat) {
    && |lists| == |chains| == |lens| == g.levels && level < g.levels
    && (forall l {:trigger InOrder(g, node, lists[l], chains[l], l)} ::
          0 <= l <= level ==> InOrder(g, node, lists[l], chains[l], l))
    && (forall l :: 0 <= l <= level ==> lists[l].len == lens[l])
    && ForeignHeld(g, node, level)
    && (forall b: Block {:trigger b in tagged} :: b.level <= level ==> (b in tagged <==> b in TaggedAs(g, node)))
  }

  lemma {:induction false} TidyIsInOrder(g: Geometry, node: map<nat, Node>, lists: seq<DoubleFreeList>,
                                         chains: seq<seq<nat>>,
                                         s: State, level: nat)
    requires Tidy(g, node, lists, chains, s) && level < g.levels
    ensures InOrder(g, node, lists[level], chains[level], level)
  {
    assert DLinked(node, lists[level], chains[level], PageSizes(g)[level]);
    forall p | p in chains[level] ensures Fits(g, Block(level, p)) {
      InBlocks(chains, Block(level, p));
      FreeIsOwn(g, s, Block(level, p));
    }
    forall p | OwnNode(g, p) && p in node && node[p].levelSize == Some(Pages(g, level)) ensures p in chains[level] {
      TagIsMembership(g, node, s, lists, chains, p, level);
    }
  }

  /** The list that holds a tagged node: the own one inside the span, another one outside. */
  lemma {:induction false} HolderOf(g: Geometry, node: map<nat, Node>, list: DoubleFreeList, chain: seq<nat>, c: Block)
    returns (owner: DoubleFreeList, nodes: seq<nat>, k: nat)
    requires InOrder(g, node, list, chain, c.level) && ForeignHeld(g, node, c.level) && c in TaggedAs(g, node)
    requires g.origin <= c.start && Multiple(c.start - g.origin, Pow2(g.unitBits))
    ensures DLinked(node, owner, nodes, Pages(g, c.level)) && k < |nodes| && nodes[k] == c.start
    ensures Fits(g, c) <==> InSpan(g, c.start)
    ensures Fits(g, c) ==> owner == list && nodes == chain
    ensures !Fits(g, c) ==> forall q :: q in nodes ==> !InSpan(g, q)
  {
    InTagged(g, node, c);
    if InSpan(g, c.start) {
      assert OwnNode(g, c.start);
      owner, nodes := list, chain;
      k :| 0 <= k < |nodes| && nodes[k] == c.start;
    } else {
      assert Held(g, node, c.start, Pages(g, c.level));
      owner, nodes, k :| HeldAt(g, node, c.start, Pages(g, c.level), owner, nodes, k);
    }
  }

  /** Unlinking a node of one block size leaves the lists of every other size in order. */
  lemma {:induction false} OtherInOrder(g: Geometry, node: map<nat, Node>, list: DoubleFreeList, chain: seq<nat>,
                                        level: nat,
                                        owner: DoubleFreeList, nodes: seq<nat>, size: nat, k: nat)
    requires InOrder(g, node, list, chain, level) && size != Pages(g, level)
    requires DLinked(node, owner, nodes, size) && k < |nodes|
    ensures InOrder(g, Unlinked(node, nodes, k), list, chain, level)
  {
    UnlinkedTouches(node, nodes, k);
    OtherLinked(node, list, chain, Pages(g, level), owner, nodes, size, k);
  }

  lemma {:induction false} OtherLinked(node: map<nat, Node>, list: DoubleFreeList, chain: seq<nat>, s: nat,
                                       owner: DoubleFreeList, nodes: seq<nat>, size: nat, k: nat)
    requires DLinked(node, list, chain, s) && s != size && DLinked(node, owner, nodes, size) && k < |nodes|
    ensures DLinked(Unlinked(node, nodes, k), list, chain, s)
  {
    var node' := Unlinked(node, nodes, k);
    UnlinkedTouches(node, nodes, k);
    SizesApart(node, list, chain, s, owner, nodes, size);
    forall i | 0 <= i < |chain| ensures chain[i] in node' && node'[chain[i]] == node[chain[i]] {
      assert chain[i] in chain && chain[i] !in nodes && nodes[k] in nodes;
    }
  }

  lemma {:induction false} SizesApart(node: map<nat, Node>, list: DoubleFreeList, chain: seq<nat>, s: nat,
                                      owner: DoubleFreeList, nodes: seq<nat>, size: nat)
    requires DLinked(node, list, chain, s) && DLinked(node, owner, nodes, size) && s != size
    ensures forall p :: p in chain ==> p !in nodes
  {
    forall p | p in chain ensures p !in nodes {
      assert node[p].levelSize == Some(s);
    }
  }

  lemma {:induction false} OtherHeld(g: Geometry, node: map<nat, Node>, p: nat, s: nat,
                                     owner: DoubleFreeList, nodes: seq<nat>, size: nat, k: nat)
    requires Held(g, node, p, s) && DLinked(node, owner, nodes, size) && k < |nodes| && s != size
    ensures Held(g, Unlinked(node, nodes, k), p, s)
  {
    var o, ns, j: nat :| HeldAt(g, node, p, s, o, ns, j);
    OtherLinked(node, o, ns, s, owner, nodes, size, k);
    assert HeldAt(g, Unlinked(node, nodes, k), p, s, o, ns, j);
  }

  /** After a tagged buddy of `level` has been unlinked, wherever it was, merging may go on one level
      up. */
  lemma {:induction false} GoesOnUpwards(g: Geometry, node: map<nat, Node>, lists: seq<DoubleFreeList>,
                                         chains: seq<seq<nat>>,
                                         tagged: set<Block>, lens: seq<nat>, level: nat,
                                         owner: DoubleFreeList, nodes: seq<nat>, k: nat)
    requires Upwards(g, node, lists, chains, tagged, lens, level) && level > 0
    requires DLinked(node, owner, nodes, Pages(g, level)) && k < |nodes|
    ensures Upwards(g, Unlinked(node, nodes, k), lists, chains, tagged, lens, level - 1)
  {
    var node' := Unlinked(node, nodes, k);
    forall l | 0 <= l <= level - 1 ensures InOrder(g, node', lists[l], chains[l], l) {
      assert InOrder(g, node, lists[l], chains[l], l);
      if Pages(g, level) == Pages(g, l) { PagesInjective(g, l, level); }
      OtherInOrder(g, node, lists[l], chains[l], l, owner, nodes, Pages(g, level), k);
    }
    TagsElsewhere(g, node, owner, nodes, level, k);
    HeldElsewhere(g, node, owner, nodes, level, k);
  }

  /** What becomes of the list of `level` does not matter further up. */
  lemma {:induction false} UpwardsIgnores(g: Geometry, node: map<nat, Node>, lists: seq<DoubleFreeList>,
                                          chains: seq<seq<nat>>,
                                          tagged: set<Block>, lens: seq<nat>, level: nat, list: DoubleFreeList,
                                          chain: seq<nat>)
    requires level > 0 && level < g.levels && Upwards(g, node, lists, chains, tagged, lens, level - 1)
    ensures Upwards(g, node, lists[level := list], chains[level := chain], tagged, lens, level - 1)
  {
    var lists', chains' := lists[level := list], chains[level := chain];
    forall l | 0 <= l <= level - 1 ensures InOrder(g, node, lists'[l], chains'[l], l) {
      assert InOrder(g, node, lists[l], chains[l], l);
    }
  }

  lemma {:induction false} UnlinkedLoose(node: map<nat, Node>, owner: DoubleFreeList, nodes: seq<nat>, size: nat,
                                         k: nat, ptr: nat)
    requires DLinked(node, owner, nodes, size) && k < |nodes| && ptr in node && node[ptr].levelSize == None
    ensures var node' := Unlinked(node, nodes, k);
      && node'.Keys == node.Keys && nodes[k] in node'
      && node'[nodes[k]].levelSize == None && node'[ptr].levelSize == None
  {
    UnlinkedTouches(node, nodes, k);
  }

  lemma {:induction false} HeldElsewhere(g: Geometry, node: map<nat, Node>, owner: DoubleFreeList, nodes: seq<nat>,
                                         level: nat, k: nat)
    requires 0 < level < g.levels && DLinked(node, owner, nodes, Pages(g, level)) && k < |nodes|
    requires ForeignHeld(g, node, level)
    ensures ForeignHeld(g, Unlinked(node, nodes, k), level - 1)
  {
    var node' := Unlinked(node, nodes, k);
    UnlinkedTouches(node, nodes, k);
    forall p, l: nat | l <= level - 1 && p in node' && !InSpan(g, p) && node'[p].levelSize == Some(Pages(g, l))
      ensures Held(g, node', p, Pages(g, l))
    {
      if Pages(g, level) == Pages(g, l) { PagesInjective(g, l, level); }
      assert Held(g, node, p, Pages(g, l));
      OtherHeld(g, node, p, Pages(g, l), owner, nodes, Pages(g, level), k);
    }
  }

  lemma {:induction false} TagsElsewhere(g: Geometry, node: map<nat, Node>, owner: DoubleFreeList, nodes: seq<nat>,
                                         level: nat, k: nat)
    requires level < g.levels && DLinked(node, owner, nodes, Pages(g, level)) && k < |nodes|
    ensures forall b: Block :: b.level < level ==> (b in TaggedAs(g, node) <==>
      b in TaggedAs(g, Unlinked(node, nodes, k)))
  {
    var node' := Unlinked(node, nodes, k);
    UnlinkedTouches(node, nodes, k);
    forall b: Block | b.level < level ensures b in TaggedAs(g, node) <==> b in TaggedAs(g, node') {
      InTagged(g, node, b);
      InTagged(g, node', b);
      if Pages(g, b.level) == Pages(g, level) { PagesInjective(g, b.level, level); }
    }
  }

  lemma {:induction false} TidyIsUpwards(g: Geometry, node: map<nat, Node>, lists: seq<DoubleFreeList>,
                                         chains: seq<seq<nat>>,
                                         s: State, lens: seq<nat>, level: nat)
    requires Tidy(g, node, lists, chains, s) && ForeignHeld(g, node, level) && level < g.levels
    requires |lens| == |lists| && forall l :: 0 <= l < |lists| ==> lens[l] == lists[l].len
    ensures Upwards(g, node, lists, chains, TaggedAs(g, node), lens, level)
  {
    forall l | 0 <= l <= level ensures InOrder(g, node, lists[l], chains[l], l) {
      TidyIsInOrder(g, node, lists, chains, s, l);
    }
  }

  // ---- what merging leaves alone, and what a foreign buddy does to it ----

  /** Lists of blocks smaller than those of `level` stay as they are. */
  ghost predicate SmallerKept(g: Geometry, before: map<nat, Node>, after: map<nat, Node>, level: nat) {
    forall list, chain, l: nat {:trigger DLinked(after, list, chain, Pages(g, l))} ::
      level < l < g.levels && DLinked(before, list, chain, Pages(g, l)) ==> DLinked(after, list, chain, Pages(g, l))
  }

  /** Nodes on no list stay as they are, except `m`. */
  ghost predicate UntaggedKept(before: map<nat, Node>, after: map<nat, Node>, m: nat) {
    forall q :: q in before && before[q].levelSize == None && q != m ==> q in after && after[q] == before[q]
  }

  lemma {:induction false} UnlinkedKeeps(g: Geometry, node: map<nat, Node>, owner: DoubleFreeList, nodes: seq<nat>,
                                         level: nat, k: nat, m: nat)
    requires level < g.levels && DLinked(node, owner, nodes, Pages(g, level)) && k < |nodes|
    ensures SmallerKept(g, node, Unlinked(node, nodes, k), level)
    ensures UntaggedKept(node, Unlinked(node, nodes, k), m)
  {
    var node' := Unlinked(node, nodes, k);
    UnlinkedTouches(node, nodes, k);
    forall list, chain, l: nat | level < l < g.levels && DLinked(node, list, chain, Pages(g, l))
      ensures DLinked(node', list, chain, Pages(g, l))
    {
      if Pages(g, l) == Pages(g, level) { PagesInjective(g, l, level); }
      OtherLinked(node, list, chain, Pages(g, l), owner, nodes, Pages(g, level), k);
    }
    forall q | q in node && node[q].levelSize == None ensures node'[q] == node[q] {
      assert q !in nodes;
    }
  }

  lemma {:induction false} PushedKeeps(g: Geometry, node: map<nat, Node>, list: DoubleFreeList, chain: seq<nat>,
                                       level: nat, ptr: nat, node': map<nat, Node>)
    requires level < g.levels && DLinked(node, list, chain, Pages(g, level))
    requires ptr in node && node[ptr].levelSize == None && OnlyTouches(node, node', chain, ptr)
    ensures SmallerKept(g, node, node', level) && UntaggedKept(node, node', ptr)
  {
    forall o, ns, l: nat | level < l < g.levels && DLinked(node, o, ns, Pages(g, l))
      ensures DLinked(node', o, ns, Pages(g, l))
    {
      if Pages(g, l) == Pages(g, level) { PagesInjective(g, l, level); }
      SizesApart(node, o, ns, Pages(g, l), list, chain, Pages(g, level));
      assert forall i :: 0 <= i < |ns| ==> ns[i] in ns;
    }
    forall q | q in node && node[q].levelSize == None && q != ptr ensures node'[q] == node[q] {
      assert q !in chain;
    }
  }

  lemma {:induction false} KeptTwice(g: Geometry, before: map<nat, Node>, mid: map<nat, Node>, after: map<nat, Node>,
                                     level: nat, m: nat)
    requires level > 0 && SmallerKept(g, before, mid, level) && SmallerKept(g, mid, after, level - 1)
    requires UntaggedKept(before, mid, m) && UntaggedKept(mid, after, m)
    ensures SmallerKept(g, before, after, level) && UntaggedKept(before, after, m)
  {
    forall list, chain, l: nat | level < l < g.levels && DLinked(before, list, chain, Pages(g, l))
      ensures DLinked(after, list, chain, Pages(g, l))
    {
      assert DLinked(mid, list, chain, Pages(g, l));
    }
  }

  /** The header that `remove` leaves behind when the node was the `k`th of `nodes`. */
  function Shortened(list: DoubleFreeList, nodes: seq<nat>, k: nat): DoubleFreeList {
    DoubleFreeList(if k == 0 then NodeAt(nodes, 1) else list.next, if list.len > 0 then list.len - 1 else 0)
  }

  /** The foreign block `c` was the `k`th of the foreign list `nodes` with header `owner`. The own list
      `was` of that level is left with a header one short, which names the next foreign node if `k` is
      zero and the old head otherwise; its own nodes are still linked as before. The rest of the foreign
      list is linked, though its own header was not told. The node of `c` is blank, unless it is `m`. */
  ghost predicate StrayedBy(g: Geometry, before: map<nat, Node>, after: map<nat, Node>, c: Block, m: nat,
                            was: DoubleFreeList, chain: seq<nat>, list: DoubleFreeList,
                            owner: DoubleFreeList, nodes: seq<nat>, k: nat) {
    && HeldAt(g, before, c.start, Pages(g, c.level), owner, nodes, k)
    && was.len > 0 && list == Shortened(was, nodes, k)
    && DLinked(after, was, chain, Pages(g, c.level))
    && DLinked(after, Shortened(owner, nodes, k), Without(nodes, k), Pages(g, c.level))
    && (c.start != m ==> c.start in after && after[c.start] == Node(NULL, NULL, None))
  }

  ghost predicate Strayed(g: Geometry, before: map<nat, Node>, after: map<nat, Node>, c: Block, m: nat,
                          was: DoubleFreeList, chain: seq<nat>, list: DoubleFreeList) {
    exists owner, nodes, k: nat :: StrayedBy(g, before, after, c, m, was, chain, list, owner, nodes, k)
  }

  /** On one table, lists with the same head run through the same nodes. */
  lemma {:induction false} HeadDecides(node: map<nat, Node>, list: DoubleFreeList, chain: seq<nat>,
                                       other: DoubleFreeList, nodes: seq<nat>, size: nat, i: nat)
    requires DLinked(node, list, chain, size) && DLinked(node, other, nodes, size) && list.next == other.next
    requires i <= |chain| && i <= |nodes|
    ensures NodeAt(chain, i) == NodeAt(nodes, i)
  {
    if i > 0 {
      HeadDecides(node, list, chain, other, nodes, size, i - 1);
      assert chain[i - 1] == nodes[i - 1];
    }
  }

  /** What the shortened header denotes. If the foreign block was first on its list, the header names a
      foreign node or nothing. Otherwise it names the old head, and no list at all fits its length. */
  lemma {:induction false} StrayedHeader(g: Geometry, before: map<nat, Node>, after: map<nat, Node>, c: Block, m: nat,
                                         was: DoubleFreeList, chain: seq<nat>, list: DoubleFreeList,
                                         owner: DoubleFreeList, nodes: seq<nat>, k: nat)
    requires StrayedBy(g, before, after, c, m, was, chain, list, owner, nodes, k)
    ensures k == 0 ==> list.next == NULL || !InSpan(g, list.next)
    ensures k > 0 ==> list.next == was.next && forall ns :: !DLinked(after, list, ns, Pages(g, c.level))
  {
    if k > 0 {
      forall ns ensures !DLinked(after, list, ns, Pages(g, c.level)) {
        if DLinked(after, list, ns, Pages(g, c.level)) {
          HeadDecides(after, was, chain, list, ns, Pages(g, c.level), |ns|);
        }
      }
    }
  }

  /** Unlinking a foreign block strays. */
  lemma {:induction false} Strays(g: Geometry, node: map<nat, Node>, c: Block, m: nat, was: DoubleFreeList,
                                  chain: seq<nat>, owner: DoubleFreeList, nodes: seq<nat>, k: nat)
    requires HeldAt(g, node, c.start, Pages(g, c.level), owner, nodes, k)
    requires InOrder(g, node, was, chain, c.level) && was.len > 0
    ensures Strayed(g, node, Unlinked(node, nodes, k), c, m, was, chain, Shortened(was, nodes, k))
  {
    var node' := Unlinked(node, nodes, k);
    UnlinkedIsLinked(node, owner, nodes, Pages(g, c.level), k);
    UnlinkedTouches(node, nodes, k);
    forall i | 0 <= i < |chain| ensures chain[i] in node' && node'[chain[i]] == node[chain[i]] {
      assert chain[i] in chain && Fits(g, Block(c.level, chain[i])) && InSpan(g, chain[i]);
      assert nodes[k] in nodes;
    }
    assert StrayedBy(g, node, node', c, m, was, chain, Shortened(was, nodes, k), owner, nodes, k);
  }

  /** Merging further up leaves it at that. */
  lemma {:induction false} StrayedKept(g: Geometry, before: map<nat, Node>, mid: map<nat, Node>, after: map<nat, Node>,
                                       c: Block, m: nat, was: DoubleFreeList, chain: seq<nat>, list: DoubleFreeList)
    requires Strayed(g, before, mid, c, m, was, chain, list) && 0 < c.level < g.levels
    requires SmallerKept(g, mid, after, c.level - 1) && UntaggedKept(mid, after, m)
    ensures Strayed(g, before, after, c, m, was, chain, list)
  {
    var owner, nodes, k: nat :| StrayedBy(g, before, mid, c, m, was, chain, list, owner, nodes, k);
    assert DLinked(after, was, chain, Pages(g, c.level));
    assert DLinked(after, Shortened(owner, nodes, k), Without(nodes, k), Pages(g, c.level));
    assert StrayedBy(g, before, after, c, m, was, chain, list, owner, nodes, k);
  }

  /** Own steps before it do not matter either. */
  lemma {:induction false} StrayedBefore(g: Geometry, before: map<nat, Node>, mid: map<nat, Node>,
                                         after: map<nat, Node>, c: Block, m: nat, was: DoubleFreeList,
                                         chain: seq<nat>, list: DoubleFreeList)
    requires Strayed(g, mid, after, c, m, was, chain, list) && KeepsOthers(g, before, mid)
    ensures Strayed(g, before, after, c, m, was, chain, list)
  {
    var owner, nodes, k: nat :| StrayedBy(g, mid, after, c, m, was, chain, list, owner, nodes, k);
    assert forall i :: 0 <= i < |nodes| ==> nodes[i] in nodes;
    assert HeldAt(g, before, c.start, Pages(g, c.level), owner, nodes, k);
    assert StrayedBy(g, before, after, c, m, was, chain, list, owner, nodes, k);
  }

  /** No choice of blocks makes these lists and tags the lists and tags of an allocator. */
  ghost predicate NeverTidy(g: Geometry, node: map<nat, Node>, lists: seq<DoubleFreeList>) {
    forall chains, s :: !Tidy(g, node, lists, chains, s)
  }

  /** A header that counts fewer nodes than still carry the tag of its level is beyond repair. */
  lemma {:induction false} ShortIsNeverTidy(g: Geometry, node: map<nat, Node>, lists: seq<DoubleFreeList>, level: nat,
                                            was: DoubleFreeList, chain: seq<nat>)
    requires level < g.levels == |lists| && DLinked(node, was, chain, Pages(g, level)) && lists[level].len < |chain|
    requires forall p :: p in chain ==> OwnNode(g, p)
    ensures NeverTidy(g, node, lists)
  {
    forall chains, s ensures !Tidy(g, node, lists, chains, s) {
      if Tidy(g, node, lists, chains, s) {
        forall p | p in chain ensures p in chains[level] {
          TagIsMembership(g, node, s, lists, chains, p, level);
        }
        assert DLinked(node, lists[level], chains[level], PageSizes(g)[level]);
        Outnumbered(chain, chains[level]);
      }
    }
  }

  lemma {:induction false} Outnumbered(s: seq<nat>, t: seq<nat>)
    requires NoDup(s) && NoDup(t) && forall p :: p in s ==> p in t
    ensures |s| <= |t|
    decreases |s|
  {
    if s != [] {
      assert s[0] in t;
      var i :| 0 <= i < |t| && t[i] == s[0];
      TailMembers(s);
      WithoutMembers(t, i);
      Outnumbered(s[1..], Without(t, i));
    }
  }
}
