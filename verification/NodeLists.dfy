/** The frame allocators' doubly linked free lists, kept in a table of tagged nodes. */
module NodeLists {
  import opened FreeLists

  /** `levelSize` is the block size, in pages, of the list that holds the node. */
  datatype Node = Node(next: nat, prev: nat, levelSize: Option<nat>)

  /** The nodes of every frame, by address, shared by all allocators of a region. */
  class NodeTable {
    var node: map<nat, Node>

    constructor (contents: map<nat, Node>)
      ensures node == contents
    {
      node := contents;
    }
  }

  function PrevAt(nodes: seq<nat>, i: nat): nat
    requires i <= |nodes|
  {
    if i == 0 then NULL else nodes[i - 1]
  }

  /** `list` runs through `nodes`: `next` and `prev` are mutually inverse, the length is exact,
      and every node carries the tag of this list. */
  ghost predicate DLinked(node: map<nat, Node>, list: DoubleFreeList, nodes: seq<nat>, size: nat) {
    && list.len == |nodes|
    && NoDup(nodes)
    && list.next == NodeAt(nodes, 0)
    && forall i :: 0 <= i < |nodes| ==>
         && nodes[i] != NULL && nodes[i] in node
         && node[nodes[i]] == Node(NodeAt(nodes, i + 1), PrevAt(nodes, i), Some(size))
  }

  /** Only nodes in `touched` may differ, and only `p` may change its tag. */
  ghost predicate OnlyTouches(node: map<nat, Node>, node': map<nat, Node>, touched: seq<nat>, p: nat) {
    && node'.Keys == node.Keys
    && (forall a :: a in node && a !in touched && a != p ==> node'[a] == node[a])
    && (forall a :: a in node && a != p ==> node'[a].levelSize == node[a].levelSize)
  }

  /** Nothing that popping looks at is missing, and the length does not underflow. */
  predicate Poppable(node: map<nat, Node>, list: DoubleFreeList) {
    list.next != NULL ==>
      list.len > 0 && list.next in node && (node[list.next].next != NULL ==> node[list.next].next in node)
  }

  lemma {:induction false} LinkedIsPoppable(node: map<nat, Node>, list: DoubleFreeList, nodes: seq<nat>, size: nat)
    requires DLinked(node, list, nodes, size)
    ensures Poppable(node, list) && (list.next == NULL <==> nodes == [])
  {
  }

  datatype DoubleFreeList = DoubleFreeList(next: nat, len: nat) {

    method Push(table: NodeTable, ptr: nat, size: nat, ghost nodes: seq<nat>) returns (r: DoubleFreeList)
      requires DLinked(table.node, this, nodes, size)
      requires ptr != NULL && ptr in table.node && ptr !in nodes
      modifies table
      ensures DLinked(table.node, r, [ptr] + nodes, size)
      ensures OnlyTouches(old(table.node), table.node, nodes, ptr)
      ensures table.node[ptr].levelSize == Some(size)
    {
      if next != NULL {
        table.node := table.node[next := table.node[next].(prev := ptr)];
      }
      table.node := table.node[ptr := Node(next, NULL, Some(size))];
      r := DoubleFreeList(ptr, len + 1);
    }

    /** Hands out whatever the head names. On a well-formed list that is its first node. */
    method Pop(table: NodeTable, ghost nodes: seq<nat>, ghost size: nat)
      returns (r: DoubleFreeList, ptr: Option<nat>)
      requires Poppable(table.node, this)
      modifies table
      ensures ptr == if next == NULL then None else Some(next)
      ensures next == NULL ==> r == this && table.node == old(table.node)
      ensures DLinked(old(table.node), this, nodes, size) && nodes != [] ==>
        && next == nodes[0]
        && DLinked(table.node, r, nodes[1..], size)
        && OnlyTouches(old(table.node), table.node, nodes, nodes[0])
        && table.node[nodes[0]].levelSize == None
    {
      if next == NULL {
        return this, None;
      }
      var after := table.node[next].next;
      if after != NULL {
        table.node := table.node[after := table.node[after].(prev := NULL)];
      }
      table.node := table.node[next := Node(NULL, NULL, None)];
      r := DoubleFreeList(after, len - 1);
      ptr := Some(next);
      assert nodes != [] ==> forall i :: 0 <= i < |nodes[1..]| ==> nodes[1..][i] == nodes[i + 1];
    }

    /** Unlinks a node in constant time, trusting that it is on this list. Whichever list really
        holds it as its `k`th node, that list is unlinked there, while the head and the length that
        change are those of this one. `None` stands for the panic when the length is already zero. */
    method Remove(table: NodeTable, ptr: nat, ghost owner: DoubleFreeList, ghost nodes: seq<nat>, ghost size: nat,
                  ghost k: nat)
      returns (r: Option<DoubleFreeList>)
      requires DLinked(table.node, owner, nodes, size) && k < |nodes| && nodes[k] == ptr
      modifies table
      ensures table.node == Unlinked(old(table.node), nodes, k)
      ensures r.None? <==> len == 0
      ensures r.Some? ==> r.value.len == len - 1 && r.value.next == if k == 0 then NodeAt(nodes, 1) else next
    {
      var n := table.node[ptr];
      assert n == Node(NodeAt(nodes, k + 1), PrevAt(nodes, k), Some(size));
      var head := next;
      if n.prev != NULL {
        table.node := table.node[n.prev := table.node[n.prev].(next := n.next)];
      } else {
        head := n.next;
      }
      if n.next != NULL {
        table.node := table.node[n.next := table.node[n.next].(prev := n.prev)];
      }
      table.node := table.node[ptr := Node(NULL, NULL, None)];
      assert table.node == Unlinked(old(table.node), nodes, k);
      if len == 0 {
        return None;
      }
      r := Some(DoubleFreeList(head, len - 1));
    }

    /** The constant-time membership test: compares the node's tag. */
    method Contains(table: NodeTable, ptr: nat, size: nat) returns (found: bool)
      requires ptr in table.node
      ensures found <==> table.node[ptr].levelSize == Some(size)
    {
      var tag := table.node[ptr].levelSize;
      found := tag.Some? && tag.value == size;
    }
  }

  /** The table after unlinking the `k`th of `nodes`. */
  ghost function Unlinked(node: map<nat, Node>, nodes: seq<nat>, k: nat): map<nat, Node>
    requires k < |nodes| && forall i :: 0 <= i < |nodes| ==> nodes[i] in node
  {
    var n1 := if k == 0 then node else node[nodes[k - 1] := node[nodes[k - 1]].(next := NodeAt(nodes, k + 1))];
    var n2 := if k + 1 == |nodes| then n1 else n1[nodes[k + 1] := n1[nodes[k + 1]].(prev := PrevAt(nodes, k))];
    n2[nodes[k] := Node(NULL, NULL, None)]
  }

  lemma {:induction false} UnlinkedNode(node: map<nat, Node>, nodes: seq<nat>, k: nat, j: nat)
    requires k < |nodes| && j < |nodes| && j != k && NoDup(nodes)
    requires forall i :: 0 <= i < |nodes| ==> nodes[i] in node
    ensures nodes[j] in Unlinked(node, nodes, k)
    ensures Unlinked(node, nodes, k)[nodes[j]] ==
      node[nodes[j]].(next := if j + 1 == k then NodeAt(nodes, k + 1) else node[nodes[j]].next,
                      prev := if j == k + 1 then PrevAt(nodes, k) else node[nodes[j]].prev)
  {
    assert nodes[j] != nodes[k];
    assert k > 0 && j != k - 1 ==> nodes[j] != nodes[k - 1];
    assert k + 1 < |nodes| && j != k + 1 ==> nodes[j] != nodes[k + 1];
    assert 0 < k < |nodes| - 1 ==> nodes[k - 1] != nodes[k + 1];
  }

  lemma {:induction false} WithoutNeighbours(nodes: seq<nat>, k: nat, i: nat)
    requires k < |nodes| && i < |nodes| - 1
    ensures var j := if i < k then i else i + 1; var rest := Without(nodes, k);
      && rest[i] == nodes[j]
      && NodeAt(rest, i + 1) == (if j + 1 == k then NodeAt(nodes, k + 1) else NodeAt(nodes, j + 1))
      && PrevAt(rest, i) == (if j == k + 1 then PrevAt(nodes, k) else PrevAt(nodes, j))
  {
    WithoutNext(nodes, k, i);
  }

  lemma {:induction false} UnlinkedEntry(node: map<nat, Node>, list: DoubleFreeList, nodes: seq<nat>, size: nat,
                                         k: nat, i: nat)
    requires DLinked(node, list, nodes, size) && k < |nodes| && i < |nodes| - 1
    ensures var rest, node' := Without(nodes, k), Unlinked(node, nodes, k);
      && rest[i] != NULL && rest[i] in node'
      && node'[rest[i]] == Node(NodeAt(rest, i + 1), PrevAt(rest, i), Some(size))
  {
    var j := if i < k then i else i + 1;
    WithoutNeighbours(nodes, k, i);
    UnlinkedNode(node, nodes, k, j);
    assert node[nodes[j]] == Node(NodeAt(nodes, j + 1), PrevAt(nodes, j), Some(size));
  }

  lemma {:induction false} UnlinkedIsLinked(node: map<nat, Node>, list: DoubleFreeList, nodes: seq<nat>, size: nat,
                                            k: nat)
    requires DLinked(node, list, nodes, size) && k < |nodes|
    ensures DLinked(Unlinked(node, nodes, k),
                    DoubleFreeList(if k == 0 then NodeAt(nodes, 1) else list.next, list.len - 1),
                    Without(nodes, k), size)
  {
    forall i | 0 <= i < |nodes| - 1
      ensures var rest, node' := Without(nodes, k), Unlinked(node, nodes, k);
        && rest[i] != NULL && rest[i] in node'
        && node'[rest[i]] == Node(NodeAt(rest, i + 1), PrevAt(rest, i), Some(size))
    {
      UnlinkedEntry(node, list, nodes, size, k, i);
    }
    WithoutMembers(nodes, k);
  }

  lemma {:induction false} UnlinkedTouches(node: map<nat, Node>, nodes: seq<nat>, k: nat)
    requires k < |nodes| && forall i :: 0 <= i < |nodes| ==> nodes[i] in node
    ensures OnlyTouches(node, Unlinked(node, nodes, k), nodes, nodes[k])
  {
    var node' := Unlinked(node, nodes, k);
    assert node'.Keys == node.Keys;
    assert k > 0 ==> nodes[k - 1] in nodes;
    assert k + 1 < |nodes| ==> nodes[k + 1] in nodes;
  }

  ghost predicate AllDLinked(node: map<nat, Node>, lists: seq<DoubleFreeList>, chains: seq<seq<nat>>, sizes: seq<nat>) {
    && |lists| == |chains| == |sizes|
    && forall l {:trigger DLinked(node, lists[l], chains[l], sizes[l])} ::
         0 <= l < |lists| ==> DLinked(node, lists[l], chains[l], sizes[l])
  }

  /** Replacing one list leaves the others linked when no node of theirs changed. */
  lemma {:induction false} Rethreaded(node: map<nat, Node>, lists: seq<DoubleFreeList>, chains: seq<seq<nat>>,
                                      sizes: seq<nat>, level: nat,
                                      node': map<nat, Node>, list: DoubleFreeList, chain: seq<nat>)
    requires AllDLinked(node, lists, chains, sizes) && level < |lists|
    requires DLinked(node', list, chain, sizes[level])
    requires forall l, p :: 0 <= l < |lists| && l != level && p in chains[l] && p in node ==>
      p in node' && node'[p] == node[p]
    ensures AllDLinked(node', lists[level := list], chains[level := chain], sizes)
  {
    var lists', chains' := lists[level := list], chains[level := chain];
    forall l | 0 <= l < |lists| ensures DLinked(node', lists'[l], chains'[l], sizes[l]) {
      assert DLinked(node, lists[l], chains[l], sizes[l]);
    }
  }
}
