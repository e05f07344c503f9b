/** Merging in a frame allocator, step by step and as a whole, over snapshots of its state. */
module Merging {
  import opened Bits
  import opened Buddy
  import opened BuddyRuns
  import opened FreeLists
  import opened NodeLists
  import opened NodeTags

  /** One allocator's part of the machine, as values. */
  datatype Snapshot = Snapshot(node: map<nat, Node>, lists: seq<DoubleFreeList>, chains: seq<seq<nat>>, s: State)

  ghost function TidyStates(g: Geometry): iset<Snapshot> {
    iset x: Snapshot | Tidy(g, x.node, x.lists, x.chains, x.s)
  }

  /** Taking the first block off a list. */
  lemma {:induction false} Pops(g: Geometry, was: Snapshot, b: Block, node: map<nat, Node>, list: DoubleFreeList)
    returns (now: Snapshot)
    requires was in TidyStates(g) && b.level < g.levels && IsFront(was.chains, b.level, b.start)
    requires DLinked(node, list, was.chains[b.level][1..], Pages(g, b.level))
    requires OnlyTouches(was.node, node, was.chains[b.level], b.start)
    requires b.start in node && node[b.start].levelSize == None
    ensures now in TidyStates(g) && KeepsOthers(g, was.node, node) && b in was.s.free && b.level < |was.lists|
    ensures now == Snapshot(node, was.lists[b.level := list], was.chains[b.level := was.chains[b.level][1..]],
                            State(was.s.free - {b}, was.s.live + {b}))
  {
    assert Tidy(g, was.node, was.lists, was.chains, was.s);
    TidyAfterPop(g, was.node, was.lists, was.chains, was.s, b, node, list);
    now := Snapshot(node, was.lists[b.level := list], was.chains[b.level := was.chains[b.level][1..]],
                    State(was.s.free - {b}, was.s.live + {b}));
    InTidyStates(g, now);
  }

  lemma {:induction false} InTidyStates(g: Geometry, x: Snapshot)
    requires Tidy(g, x.node, x.lists, x.chains, x.s)
    ensures x in TidyStates(g)
  {
  }

  /** The states from which merging may go on at `level`. */
  ghost function Climbing(g: Geometry, tagged: set<Block>, lens: seq<nat>, level: nat): iset<Snapshot> {
    iset x: Snapshot | Upwards(g, x.node, x.lists, x.chains, tagged, lens, level)
  }

  lemma {:induction false} ClimbsFrom(g: Geometry, tagged: set<Block>, lens: seq<nat>, level: nat, x: Snapshot)
    requires Upwards(g, x.node, x.lists, x.chains, tagged, lens, level)
    ensures x in Climbing(g, tagged, lens, level)
  {
  }

  /** The nodes on no list, which merging may push or look for a buddy of. */
  ghost function LooseNodes(g: Geometry, node: map<nat, Node>): iset<nat> {
    iset p: nat | NodeOf(g, p) && p in node && node[p].levelSize == None
  }

  /** The blocks whose merging looks only at `keys`. */
  ghost function LooksWithin(g: Geometry, keys: set<nat>, tagged: set<Block>): iset<Block> {
    iset b: Block | Reaches(g, keys, tagged, b)
  }

  lemma {:induction false} StaysWithin(g: Geometry, keys: set<nat>, tagged: set<Block>, lens: seq<nat>,
                                       b: Block, p: Block)
    requires 0 < b.level < |lens| && BuddyOf(g, b) in tagged && p == Parent(g, b)
    requires b in LooksWithin(g, keys, tagged)
    ensures p in LooksWithin(g, keys, tagged)
    ensures Underflows(g, tagged, lens, b) <==>
      (!Fits(g, BuddyOf(g, b)) && lens[b.level] == 0) || Underflows(g, tagged, lens, p)
  {
    MergingUpwards(g, keys, tagged, lens, b, p);
  }

  /** Unlinking the buddy of `b`, which merging will end up filing at `m`. */
  ghost predicate Removes(g: Geometry, lens: seq<nat>, b: Block, own: bool, m: nat, was: Snapshot, now: Snapshot) {
    && 0 < b.level < g.levels == |was.lists| == |was.chains| == |now.lists| == |now.chains| == |lens|
    && now.lists == was.lists[b.level := now.lists[b.level]] && now.lists[b.level].len + 1 == lens[b.level]
    && now.chains == was.chains[b.level := now.chains[b.level]]
    && SmallerKept(g, was.node, now.node, b.level) && UntaggedKept(was.node, now.node, m)
    && (!Fits(g, BuddyOf(g, b)) ==>
          Strayed(g, was.node, now.node, BuddyOf(g, b), m, was.lists[b.level], was.chains[b.level], now.lists[b.level]))
    && (own ==>
          && KeepsOthers(g, was.node, now.node) && BuddyOf(g, b) in was.s.free && Parent(g, b) !in was.s.live
          && now.s == State(was.s.free - {BuddyOf(g, b)}, was.s.live - {b} + {Parent(g, b)}))
  }

  /** Merging `b` all the way without a panic. Unless it was astray already it is the merging step if
      sheltered, and strays at the first foreign buddy otherwise. */
  ghost predicate Merges(g: Geometry, tagged: set<Block>, lens: seq<nat>, b: Block, astray: bool,
                         was: Snapshot, now: Snapshot) {
    var m := MergedAt(g, tagged, b);
    && Filed(g, now.node, now.lists, was.lists, was.chains, lens, m, b.level)
    && (forall l :: b.level < l < |was.lists| ==> now.lists[l] == was.lists[l])
    && SmallerKept(g, was.node, now.node, b.level) && UntaggedKept(was.node, now.node, m.start)
    && (!astray && Sheltered(g, tagged, b) ==>
          && Tidy(g, now.node, now.lists, now.chains, now.s) && KeepsOthers(g, was.node, now.node)
          && Step(g, was.s, Free(b), now.s))
    && (!astray && !Sheltered(g, tagged, b) ==>
          var c := ForeignBuddy(g, tagged, b);
          Strayed(g, was.node, now.node, c, m.start, was.lists[c.level], was.chains[c.level], now.lists[c.level]))
  }

  /** The states that these lead to. */
  ghost function Unlinkings(g: Geometry, lens: seq<nat>, b: Block, own: bool, m: nat, was: Snapshot): iset<Snapshot> {
    iset now: Snapshot | Removes(g, lens, b, own, m, was, now)
  }

  ghost function Outcomes(g: Geometry, tagged: set<Block>, lens: seq<nat>, b: Block, astray: bool,
                          was: Snapshot): iset<Snapshot> {
    iset now: Snapshot | Merges(g, tagged, lens, b, astray, was, now)
  }

  ghost predicate PushedTo(g: Geometry, b: Block, was: Snapshot, now: Snapshot) {
    && b.level < |was.lists| == |was.chains| == |now.lists|
    && now.lists == was.lists[b.level := now.lists[b.level]]
    && DLinked(now.node, now.lists[b.level], [b.start] + was.chains[b.level], Pages(g, b.level))
    && SmallerKept(g, was.node, now.node, b.level) && UntaggedKept(was.node, now.node, b.start)
  }

  ghost function Pushes(g: Geometry, b: Block, was: Snapshot): iset<Snapshot> {
    iset now: Snapshot | PushedTo(g, b, was, now)
  }

  lemma {:induction false} EndsHere(g: Geometry, tagged: set<Block>, lens: seq<nat>, b: Block, astray: bool,
                                    was: Snapshot, now: Snapshot)
    requires now in Pushes(g, b, was) && |lens| == |was.lists| && (b.level == 0 || BuddyOf(g, b) !in tagged)
    requires !astray ==> b in was.s.live && (b.level == 0 || BuddyOf(g, b) !in was.s.free)
    requires !astray ==> now.s == State(was.s.free + {b}, was.s.live - {b})
    requires !astray ==> Tidy(g, now.node, now.lists, now.chains, now.s) && KeepsOthers(g, was.node, now.node)
    ensures now in Outcomes(g, tagged, lens, b, astray, was)
  {
    assert PushedTo(g, b, was, now);
    assert Merges(g, tagged, lens, b, astray, was, now);
  }

  lemma {:induction false} UnlinksOwn(g: Geometry, b: Block, was: Snapshot, k: nat, list: DoubleFreeList, now: Snapshot)
    requires was in TidyStates(g) && b in was.s.live && 0 < b.level < |was.lists| == |was.chains|
    requires k < |was.chains[b.level]| && was.chains[b.level][k] == BuddyOf(g, b).start
    requires was.lists[b.level].len > 0 && list == Shortened(was.lists[b.level], was.chains[b.level], k)
    requires forall i :: 0 <= i < |was.chains[b.level]| ==> was.chains[b.level][i] in was.node
    requires now == Snapshot(Unlinked(was.node, was.chains[b.level], k), was.lists[b.level := list],
                             was.chains[b.level := Without(was.chains[b.level], k)],
                             State(was.s.free - {BuddyOf(g, b)}, was.s.live - {b} + {Parent(g, b)}))
    ensures now in TidyStates(g) && KeepsOthers(g, was.node, now.node)
    ensures BuddyOf(g, b) in was.s.free && Parent(g, b) !in was.s.live
  {
    assert Tidy(g, was.node, was.lists, was.chains, was.s);
    InBlocks(was.chains, BuddyOf(g, b));
    TidyAfterFuse(g, was.node, was.lists, was.chains, was.s, b, k, list);
  }

  /** Unlinking the buddy from the list that holds it, with the header that `remove` returns. */
  lemma {:induction false} Unlinks(g: Geometry, tagged: set<Block>, lens: seq<nat>, b: Block, own: bool, m: nat,
                                   was: Snapshot, owner: DoubleFreeList, nodes: seq<nat>, k: nat, list: DoubleFreeList)
    returns (now: Snapshot)
    requires b.level > 0 && was in Climbing(g, tagged, lens, b.level) && BuddyOf(g, b) in tagged
    requires DLinked(was.node, owner, nodes, Pages(g, b.level)) && k < |nodes| && nodes[k] == BuddyOf(g, b).start
    requires b.level < |was.lists| == |was.chains| && was.lists[b.level].len > 0
    requires list == Shortened(was.lists[b.level], nodes, k)
    requires if Fits(g, BuddyOf(g, b)) then owner == was.lists[b.level] && nodes == was.chains[b.level]
      else forall q :: q in nodes ==> !InSpan(g, q)
    requires own ==> was in TidyStates(g) && b in was.s.live && Fits(g, BuddyOf(g, b))
    ensures now.node == Unlinked(was.node, nodes, k) && now.lists == was.lists[b.level := list]
    ensures now in Climbing(g, tagged, lens, b.level - 1)
    ensures now in Unlinkings(g, lens, b, own, m, was)
    ensures own ==> now in TidyStates(g) && Parent(g, b) in now.s.live
  {
    var c, p, level := BuddyOf(g, b), Parent(g, b), b.level;
    var chain := if own then Without(was.chains[level], k) else was.chains[level];
    now := Snapshot(Unlinked(was.node, nodes, k), was.lists[level := list], was.chains[level := chain],
                    if own then State(was.s.free - {c}, was.s.live - {b} + {p}) else was.s);
    assert Upwards(g, was.node, was.lists, was.chains, tagged, lens, level);
    GoesOnUpwards(g, was.node, was.lists, was.chains, tagged, lens, level, owner, nodes, k);
    UpwardsIgnores(g, now.node, was.lists, was.chains, tagged, lens, level, list, chain);
    ClimbsFrom(g, tagged, lens, level - 1, now);
    UnlinkedKeeps(g, was.node, owner, nodes, level, k, m);
    if !Fits(g, c) {
      assert InOrder(g, was.node, was.lists[level], was.chains[level], level);
      Strays(g, was.node, c, m, was.lists[level], was.chains[level], owner, nodes, k);
    }
    if own { UnlinksOwn(g, b, was, k, list, now); }
    assert Removes(g, lens, b, own, m, was, now);
  }

  lemma {:induction false} FiledBefore(g: Geometry, lens: seq<nat>, b: Block, own: bool, m: Block,
                                       was: Snapshot, mid: Snapshot, now: Snapshot)
    requires Removes(g, lens, b, own, m.start, was, mid) && m.level < b.level
    requires Filed(g, now.node, now.lists, mid.lists, mid.chains, lens, m, b.level - 1)
    requires forall l :: b.level - 1 < l < |mid.lists| ==> now.lists[l] == mid.lists[l]
    ensures Filed(g, now.node, now.lists, was.lists, was.chains, lens, m, b.level)
    ensures forall l :: b.level < l < |was.lists| ==> now.lists[l] == was.lists[l]
    ensures now.lists[b.level] == mid.lists[b.level]
  {
  }

  lemma {:induction false} MergesOn(g: Geometry, tagged: set<Block>, lens: seq<nat>, b: Block, p: Block, astray: bool,
                                    own: bool, at: nat, was: Snapshot, mid: Snapshot, now: Snapshot)
    requires b.level > 0 && BuddyOf(g, b) in tagged && (!astray ==> b in was.s.live) && p == Parent(g, b)
    requires (own <==> !astray && Fits(g, BuddyOf(g, b))) && at == MergedAt(g, tagged, b).start
    requires mid in Unlinkings(g, lens, b, own, at, was)
    requires now in Outcomes(g, tagged, lens, p, !own, mid)
    ensures now in Outcomes(g, tagged, lens, b, astray, was)
  {
    assert Removes(g, lens, b, own, at, was, mid) && Merges(g, tagged, lens, p, !own, mid, now);
    var c, m := BuddyOf(g, b), MergedAt(g, tagged, b);
    MergingUpwards(g, {}, tagged, lens, b, p);
    FiledBefore(g, lens, b, own, m, was, mid, now);
    KeptTwice(g, was.node, mid.node, now.node, b.level, m.start);
    if astray {
    } else if !Fits(g, c) {
      StrayedKept(g, was.node, mid.node, now.node, c, m.start, was.lists[b.level], was.chains[b.level],
                  now.lists[b.level]);
    } else if Sheltered(g, tagged, b) {
      MergeUnfolds(g, was.s, b, mid.s, now.s);
    } else {
      var d := ForeignBuddy(g, tagged, p);
      StrayedBefore(g, was.node, mid.node, now.node, d, m.start, was.lists[d.level], was.chains[d.level],
                    now.lists[d.level]);
    }
  }

  /** What merging from `level` to the block `m` leaves: `m` in front of its level's list, every list it
      passed one shorter, and the lists further up alone. */
  ghost predicate Filed(g: Geometry, node: map<nat, Node>, lists: seq<DoubleFreeList>, was: seq<DoubleFreeList>,
                        chains: seq<seq<nat>>, lens: seq<nat>, m: Block, level: nat) {
    && m.level <= level < |lists| == |was| == |chains| == |lens|
    && DLinked(node, lists[m.level], [m.start] + chains[m.level], Pages(g, m.level))
    && (forall l :: m.level < l <= level ==> lists[l].len + 1 == lens[l])
    && (forall l :: 0 <= l < m.level ==> lists[l] == was[l])
  }

  function Lengths(lists: seq<DoubleFreeList>): (lens: seq<nat>)
    ensures |lens| == |lists| && forall l :: 0 <= l < |lists| ==> lens[l] == lists[l].len
  {
    seq(|lists|, l requires 0 <= l < |lists| => lists[l].len)
  }

  /** What an unsheltered free of `b` that does not panic leaves: the header of the first foreign level
      as `Strayed` says, and lists that no choice of blocks could put right. */
  ghost predicate LeftAstray(g: Geometry, before: map<nat, Node>, after: map<nat, Node>, was: seq<DoubleFreeList>,
                             chains: seq<seq<nat>>, lists: seq<DoubleFreeList>, b: Block)
    requires !Sheltered(g, TaggedAs(g, before), b)
  {
    var c, m := ForeignBuddy(g, TaggedAs(g, before), b), MergedAt(g, TaggedAs(g, before), b);
    && c.level < |was| == |chains| == |lists|
    && Strayed(g, before, after, c, m.start, was[c.level], chains[c.level], lists[c.level])
    && NeverTidy(g, after, lists)
  }

  lemma {:induction false} BeyondRepair(g: Geometry, before: map<nat, Node>, after: map<nat, Node>,
                                        was: seq<DoubleFreeList>, chains: seq<seq<nat>>, lists: seq<DoubleFreeList>,
                                        s: State, b: Block)
    requires Tidy(g, before, was, chains, s) && |lists| == g.levels && b.level < g.levels
    requires !Sheltered(g, TaggedAs(g, before), b)
    requires var c, m := ForeignBuddy(g, TaggedAs(g, before), b), MergedAt(g, TaggedAs(g, before), b);
      Strayed(g, before, after, c, m.start, was[c.level], chains[c.level], lists[c.level])
    ensures LeftAstray(g, before, after, was, chains, lists, b)
  {
    var c, m := ForeignBuddy(g, TaggedAs(g, before), b), MergedAt(g, TaggedAs(g, before), b);
    var chain := chains[c.level];
    var owner, nodes, k: nat :|
      StrayedBy(g, before, after, c, m.start, was[c.level], chain, lists[c.level], owner, nodes, k);
    forall p | p in chain ensures OwnNode(g, p) {
      InBlocks(chains, Block(c.level, p));
      FreeIsOwn(g, s, Block(c.level, p));
    }
    ShortIsNeverTidy(g, after, lists, c.level, was[c.level], chain);
  }

  /** The whole effect of giving back `b`. It goes through exactly if merging does not underflow. It is the
      merging step if merging is sheltered, and leaves the allocator astray otherwise. */
  ghost predicate Freed(g: Geometry, b: Block, ok: bool, was: Snapshot, now: Snapshot) {
    var tagged := TaggedAs(g, was.node);
    && b.level < |was.lists|
    && (ok <==> !Underflows(g, tagged, Lengths(was.lists), b))
    && (ok ==> Filed(g, now.node, now.lists, was.lists, was.chains, Lengths(was.lists),
                     MergedAt(g, tagged, b), b.level))
    && (Sheltered(g, tagged, b) ==>
          && ok && Tidy(g, now.node, now.lists, now.chains, now.s) && KeepsOthers(g, was.node, now.node)
          && Step(g, was.s, Free(b), now.s))
    && (ok && !Sheltered(g, tagged, b) ==>
          LeftAstray(g, was.node, now.node, was.lists, was.chains, now.lists, b))
  }

  /** The states that it leads to. */
  ghost function Frees(g: Geometry, b: Block, ok: bool, was: Snapshot): iset<Snapshot> {
    iset now: Snapshot | Freed(g, b, ok, was, now)
  }

  lemma {:induction false} FreedNow(g: Geometry, b: Block, ok: bool, was: Snapshot, now: Snapshot)
    requires was in TidyStates(g) && b.level < g.levels == |was.lists|
    requires ok <==> !Underflows(g, TaggedAs(g, was.node), Lengths(was.lists), b)
    requires ok ==> now in Outcomes(g, TaggedAs(g, was.node), Lengths(was.lists), b, false, was)
    ensures now in Frees(g, b, ok, was)
  {
    var tagged, lens := TaggedAs(g, was.node), Lengths(was.lists);
    assert Tidy(g, was.node, was.lists, was.chains, was.s);
    ForeignUnderflows(g, tagged, lens, b);
    if ok {
      assert Merges(g, tagged, lens, b, false, was, now);
      if !Sheltered(g, tagged, b) {
        BeyondRepair(g, was.node, now.node, was.lists, was.chains, now.lists, was.s, b);
      }
    }
    assert Freed(g, b, ok, was, now);
  }
}
