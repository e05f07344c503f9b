/** Free lists: the sequences they denote, and the intrusive singly linked form of the heap. */
module FreeLists {
  import opened Buddy
  import opened BuddyRuns

  datatype Option<+T> = None | Some(value: T)

  const NULL: nat := 0

  ghost predicate NoDup(s: seq<nat>) {
    forall i, j :: 0 <= i < j < |s| ==> s[i] != s[j]
  }

  /** The blocks denoted by one sequence of block addresses per level. */
  ghost function BlocksOf(chains: seq<seq<nat>>): set<Block> {
    set level, p | 0 <= level < |chains| && p in chains[level] :: Block(level, p)
  }

  function Without(s: seq<nat>, k: nat): seq<nat>
    requires k < |s|
  {
    s[..k] + s[k + 1..]
  }

  ghost predicate LosesOne(was: seq<nat>, now: seq<nat>) {
    exists k :: 0 <= k < |was| && now == Without(was, k)
  }

  /** What returning a block of `level` that merges into `m` does to the lists: `m` joins its list at the
      front or at the back, every list passed on the way loses one entry, and no order changes. */
  ghost predicate Refiled(was: seq<seq<nat>>, now: seq<seq<nat>>, m: Block, level: nat, front: bool) {
    && m.level <= level < |was| == |now|
    && (forall l :: 0 <= l < |was| && (l < m.level || level < l) ==> now[l] == was[l])
    && (forall l :: m.level < l <= level ==> LosesOne(was[l], now[l]))
    && now[m.level] == if front then [m.start] + was[m.level] else was[m.level] + [m.start]
  }

  /** What serving `p` at `level` from a block of `donor` does to the lists: the donor's list loses its front,
      every empty list below it down to `level` gets one half, and nothing else changes. */
  ghost predicate Drawn(was: seq<seq<nat>>, now: seq<seq<nat>>, donor: nat, level: nat, p: nat) {
    && donor <= level < |was| == |now|
    && was[donor] == [p] + now[donor]
    && (forall l :: donor < l <= level ==> was[l] == [] && |now[l]| == 1)
    && (forall l :: 0 <= l < |was| && (l < donor || level < l) ==> now[l] == was[l])
  }

  /** Taking the buddy off its list before returning the parent. */
  lemma {:induction false} RefiledUpwards(
      g: Geometry, free: set<Block>, b: Block, was: seq<seq<nat>>, mid: seq<seq<nat>>, now: seq<seq<nat>>, front: bool)
    requires 0 < b.level < |was| == |mid| && BuddyOf(g, b) in free
    requires mid == was[b.level := mid[b.level]] && LosesOne(was[b.level], mid[b.level])
    requires Refiled(mid, now, MergedAt(g, free - {BuddyOf(g, b)}, Parent(g, b)), b.level - 1, front)
    ensures Refiled(was, now, MergedAt(g, free, b), b.level, front)
  {
    MergedAtWithout(g, free, BuddyOf(g, b), Parent(g, b));
  }

  /** `p` is what a list hands out next. */
  ghost predicate IsFront(chains: seq<seq<nat>>, level: nat, p: nat) {
    level < |chains| && chains[level] != [] && chains[level][0] == p
  }

  lemma {:induction false} InBlocks(chains: seq<seq<nat>>, b: Block)
    ensures b in BlocksOf(chains) <==> b.level < |chains| && b.start in chains[b.level]
  {
  }

  lemma {:induction false} AddedBlock(chains: seq<seq<nat>>, level: nat, chain: seq<nat>, p: nat)
    requires level < |chains|
    requires forall q :: q in chain <==> q in chains[level] || q == p
    ensures BlocksOf(chains[level := chain]) == BlocksOf(chains) + {Block(level, p)}
  {
    forall b ensures b in BlocksOf(chains[level := chain]) <==> b in BlocksOf(chains) + {Block(level, p)} {
      InBlocks(chains, b);
      InBlocks(chains[level := chain], b);
    }
  }

  lemma {:induction false} RemovedBlock(chains: seq<seq<nat>>, level: nat, chain: seq<nat>, p: nat)
    requires level < |chains|
    requires forall q :: q in chain <==> q in chains[level] && q != p
    ensures BlocksOf(chains[level := chain]) == BlocksOf(chains) - {Block(level, p)}
  {
    forall b ensures b in BlocksOf(chains[level := chain]) <==> b in BlocksOf(chains) - {Block(level, p)} {
      InBlocks(chains, b);
      InBlocks(chains[level := chain], b);
    }
  }

  lemma {:induction false} WithoutMembers(s: seq<nat>, k: nat)
    requires k < |s| && NoDup(s)
    ensures NoDup(Without(s, k))
    ensures forall q :: q in Without(s, k) <==> q in s && q != s[k]
  {
    var t := Without(s, k);
    forall q ensures q in t <==> q in s && q != s[k] {
      if q in s && q != s[k] {
        var i :| 0 <= i < |s| && s[i] == q;
        assert t[if i < k then i else i - 1] == q;
      }
      if q in t {
        var i :| 0 <= i < |t| && t[i] == q;
        assert q == s[if i < k then i else i + 1];
      }
    }
  }

  lemma {:induction false} TailMembers(s: seq<nat>)
    requires s != [] && NoDup(s)
    ensures s == [s[0]] + s[1..]
    ensures forall q :: q in s[1..] <==> q in s && q != s[0]
  {
    WithoutMembers(s, 0);
    assert Without(s, 0) == s[1..];
  }

  lemma {:induction false} EmptyLevel(chains: seq<seq<nat>>, level: nat)
    requires level < |chains|
    ensures LevelEmpty(BlocksOf(chains), level) <==> chains[level] == []
  {
    if chains[level] != [] {
      InBlocks(chains, Block(level, chains[level][0]));
    }
  }

  /** No list holds the start of a live block. */
  lemma {:induction false} NotListed(g: Geometry, s: State, chains: seq<seq<nat>>, b: Block)
    requires Inv(g, s) && s.free == BlocksOf(chains) && b in s.live
    ensures forall l :: 0 <= l < |chains| ==> b.start !in chains[l]
  {
    forall l | 0 <= l < |chains| ensures b.start !in chains[l] {
      if b.start in chains[l] {
        InBlocks(chains, Block(l, b.start));
        StartsDiffer(g, s, b, Block(l, b.start));
      }
    }
  }

  /** No node of one list is a node of another, or lies in a live block. */
  lemma {:induction false} ListedApart(g: Geometry, s: State, chains: seq<seq<nat>>, level: nat)
    requires Inv(g, s) && s.free == BlocksOf(chains) && level < |chains|
    ensures forall p, l :: 0 <= l < |chains| && l != level && p in chains[level] ==> p !in chains[l]
    ensures forall p :: p in chains[level] ==> InSpan(g, p) && !Covered(g, s.live, p)
  {
    forall p | p in chains[level] ensures InSpan(g, p) && !Covered(g, s.live, p) {
      InBlocks(chains, Block(level, p));
      MissesOthers(g, s, Block(level, p), s.live);
    }
    forall p, l | 0 <= l < |chains| && l != level && p in chains[level] ensures p !in chains[l] {
      if p in chains[l] {
        InBlocks(chains, Block(level, p));
        InBlocks(chains, Block(l, p));
        StartsDiffer(g, s, Block(level, p), Block(l, p));
      }
    }
  }

  // ---- the intrusive list ----

  /** Flat memory: aligned eight-byte words by address. A word holding zero reads as `None`. */
  class Memory {
    var word: map<nat, nat>

    constructor (contents: map<nat, nat>)
      ensures word == contents
    {
      word := contents;
    }
  }

  function NodeAt(nodes: seq<nat>, i: nat): nat {
    if i < |nodes| then nodes[i] else NULL
  }

  /** `list` is a well-formed, acyclic list through `nodes`, and its length field is exact. */
  ghost predicate Linked(word: map<nat, nat>, list: FreeList, nodes: seq<nat>) {
    && list.len == |nodes|
    && NoDup(nodes)
    && list.head == NodeAt(nodes, 0)
    && forall i :: 0 <= i < |nodes| ==>
         nodes[i] != NULL && nodes[i] in word && word[nodes[i]] == NodeAt(nodes, i + 1)
  }

  ghost predicate AllLinked(word: map<nat, nat>, lists: seq<FreeList>, chains: seq<seq<nat>>) {
    && |lists| == |chains|
    && forall l {:trigger Linked(word, lists[l], chains[l])} ::
         0 <= l < |lists| ==> Linked(word, lists[l], chains[l])
  }

  /** Replacing one list leaves the others linked when no word of theirs changed. */
  lemma {:induction false} Relinked(word: map<nat, nat>, lists: seq<FreeList>, chains: seq<seq<nat>>,
                                    level: nat, word': map<nat, nat>, list: FreeList, chain: seq<nat>)
    requires AllLinked(word, lists, chains) && level < |lists|
    requires Linked(word', list, chain)
    requires forall l, p :: 0 <= l < |lists| && l != level && p in chains[l] && p in word ==>
      p in word' && word'[p] == word[p]
    ensures AllLinked(word', lists[level := list], chains[level := chain])
  {
    var lists', chains' := lists[level := list], chains[level := chain];
    forall l | 0 <= l < |lists| ensures Linked(word', lists'[l], chains'[l]) {
      assert Linked(word, lists[l], chains[l]);
    }
  }

  /** A list header is a plain value stored in the allocator; its nodes are in memory. */
  datatype FreeList = FreeList(head: nat, len: nat) {

    method Push(mem: Memory, ptr: nat, ghost nodes: seq<nat>) returns (r: FreeList)
      requires Linked(mem.word, this, nodes)
      requires ptr != NULL && ptr in mem.word && ptr !in nodes
      modifies mem
      ensures Linked(mem.word, r, [ptr] + nodes) && r.len == |nodes| + 1
      ensures mem.word == old(mem.word)[ptr := head]
    {
      mem.word := mem.word[ptr := head];
      r := FreeList(ptr, len + 1);
    }

    method Pop(mem: Memory, ghost nodes: seq<nat>) returns (r: FreeList, ptr: Option<nat>)
      requires Linked(mem.word, this, nodes)
      ensures nodes == [] ==> ptr == None && r == this
      ensures nodes != [] ==> ptr == Some(nodes[0]) && Linked(mem.word, r, nodes[1..]) && r.len == |nodes| - 1
    {
      if head != NULL {
        r := FreeList(mem.word[head], len - 1);
        ptr := Some(head);
        assert forall i :: 0 <= i < |nodes[1..]| ==> nodes[1..][i] == nodes[i + 1];
      } else {
        r, ptr := this, None;
      }
    }

    method Exists(mem: Memory, ptr: nat, ghost nodes: seq<nat>) returns (found: bool)
      requires Linked(mem.word, this, nodes)
      ensures found <==> ptr in nodes
    {
      var current := head;
      ghost var i := 0;
      while current != NULL
        invariant 0 <= i <= |nodes| && current == NodeAt(nodes, i)
        invariant ptr !in nodes[..i]
        decreases |nodes| - i
      {
        if current == ptr {
          return true;
        }
        current := mem.word[current];
        i := i + 1;
      }
      return false;
    }

    /** Unlinks `ptr`, writing at most one word, that of a node of this list. */
    method Remove(mem: Memory, ptr: nat, ghost nodes: seq<nat>) returns (r: FreeList, ghost rest: seq<nat>)
      requires Linked(mem.word, this, nodes)
      modifies mem
      ensures Linked(mem.word, r, rest) && NoDup(rest) && r.len == |rest|
      ensures forall q :: q in rest <==> q in nodes && q != ptr
      ensures rest == nodes || exists k :: 0 <= k < |nodes| && rest == Without(nodes, k)
      ensures mem.word.Keys == old(mem.word.Keys)
      ensures forall a :: a in mem.word && a !in nodes ==> mem.word[a] == old(mem.word[a])
      ensures ptr !in nodes ==> mem.word == old(mem.word) && r == this
    {
      var current, prev := head, NULL;
      ghost var i := 0;
      while current != NULL
        invariant 0 <= i <= |nodes| && current == NodeAt(nodes, i)
        invariant prev == if i == 0 then NULL else nodes[i - 1]
        invariant ptr !in nodes[..i]
        invariant mem.word == old(mem.word)
        decreases |nodes| - i
      {
        if current == ptr {
          WithoutMembers(nodes, i);
          rest := Without(nodes, i);
          if prev != NULL {
            mem.word := mem.word[prev := mem.word[current]];
            r := FreeList(head, len - 1);
          } else {
            r := FreeList(mem.word[current], len - 1);
          }
          UnlinkedAt(old(mem.word), this, nodes, i, mem.word, r);
          return;
        }
        prev := current;
        current := mem.word[current];
        i := i + 1;
      }
      r, rest := this, nodes;
    }
  }

  lemma {:induction false} WithoutNext(nodes: seq<nat>, k: nat, i: nat)
    requires k < |nodes| && i < |nodes| - 1
    ensures var j := if i < k then i else i + 1; var rest := Without(nodes, k);
      && rest[i] == nodes[j]
      && NodeAt(rest, i + 1) == (if j + 1 == k then NodeAt(nodes, k + 1) else NodeAt(nodes, j + 1))
  {
  }

  lemma {:induction false} UnlinkedAt(word: map<nat, nat>, list: FreeList, nodes: seq<nat>, k: nat,
                                      word': map<nat, nat>, list': FreeList)
    requires Linked(word, list, nodes) && k < |nodes|
    requires list'.len == list.len - 1
    requires list'.head == if k == 0 then NodeAt(nodes, 1) else list.head
    requires word' == if k == 0 then word else word[nodes[k - 1] := NodeAt(nodes, k + 1)]
    ensures Linked(word', list', Without(nodes, k))
  {
    var rest := Without(nodes, k);
    WithoutMembers(nodes, k);
    forall i | 0 <= i < |rest|
      ensures rest[i] != NULL && rest[i] in word' && word'[rest[i]] == NodeAt(rest, i + 1)
    {
      var j := if i < k then i else i + 1;
      WithoutNext(nodes, k, i);
      assert word[nodes[j]] == NodeAt(nodes, j + 1);
    }
  }
}
