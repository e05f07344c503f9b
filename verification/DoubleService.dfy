/** A run of the forest that ends with two allocators handing out the same frames. */
module DoubleService {
  import opened Bits
  import opened Buddy
  import opened BuddyRuns
  import opened FreeLists
  import opened NodeLists
  import opened NodeTags
  import opened Merging
  import opened FrameAlloc
  import opened Forest
  import opened ForeignTags

  /** The only step that hands out half of the fresh first allocator, and then the only one that hands
      out the other half. */
  lemma {:induction false} FirstHalf(l: nat, s: nat, k: nat, level: nat, donor: nat, node: nat, t: State)
    requires var g := Lender(l, s, k);
      LevelOfBytes(g, 4096 * Pow2(k), level) && Step(g, Init(g), Event.Alloc(level, donor, node), t)
    ensures level == 1 && node == Lower(l, s).start && t == State({Upper(l, s, k)}, {Lower(l, s)})
  {
    var g := Lender(l, s, k);
    PairSizes(l, s, k);
    LevelOfBytesUnique(g, 4096 * Pow2(k), level, 1);
    assert Remainders(g, node, 0, 1) == {Upper(l, s, k)};
  }

  lemma {:induction false} SecondHalf(l: nat, s: nat, k: nat, level: nat, donor: nat, node: nat, t: State)
    requires var g := Lender(l, s, k);
      && LevelOfBytes(g, 4096 * Pow2(k), level)
      && Step(g, State({Upper(l, s, k)}, {Lower(l, s)}), Event.Alloc(level, donor, node), t)
    ensures level == 1 && node == Upper(l, s, k).start && t == State({}, {Lower(l, s), Upper(l, s, k)})
  {
    var g := Lender(l, s, k);
    PairSizes(l, s, k);
    LevelOfBytesUnique(g, 4096 * Pow2(k), level, 1);
    assert Remainders(g, node, 1, 1) == {};
  }

  lemma {:induction false} LowerBack(l: nat, s: nat, k: nat, t: State)
    requires Step(Lender(l, s, k), State({}, {Lower(l, s), Upper(l, s, k)}), Free(Lower(l, s)), t)
    ensures t == State({Lower(l, s)}, {Upper(l, s, k)})
  {
    PairSizes(l, s, k);
    assert {Lower(l, s), Upper(l, s, k)} - {Lower(l, s)} == {Upper(l, s, k)};
  }

  /** The lower half's buddy is before the span, so what the first allocator does leaves its tag alone. */
  lemma {:induction false} LowerBuddyUntagged(l: nat, s: nat, k: nat, node: map<nat, Node>, node': map<nat, Node>)
    requires s % (2 * Pow2(k)) >= Pow2(k) && KeepsOthers(Lender(l, s, k), node, node')
    requires BuddyOf(Lender(l, s, k), Lower(l, s)) !in TaggedAs(Lender(l, s, k), node)
    ensures BuddyOf(Lender(l, s, k), Lower(l, s)) !in TaggedAs(Lender(l, s, k), node')
  {
    var g := Lender(l, s, k);
    var c := BuddyOf(g, Lower(l, s));
    PairSizes(l, s, k);
    LowerParity(s, Pow2(k));
    assert !InSpan(g, c.start);
    InTagged(g, node, c);
    InTagged(g, node', c);
  }

  lemma {:induction false} LowerParity(s: nat, m: nat)
    requires m > 0 && s % (2 * m) >= m
    ensures !EvenBlock(32 * s, 32 * m)
  {
    var q, r := s / (2 * m), s % (2 * m);
    assert s == q * (2 * m) + r;
    assert 32 * s == (2 * q + 1) * (32 * m) + 32 * (r - m);
    DivUnique(32 * s, 32 * m, 2 * q + 1, 32 * (r - m));
    EvenBlockQuotient(32 * s, 32 * m);
  }

  /** In any valid forest where both of a pair of the unsafe kind are fresh and nothing else is tagged
      as the lower half's buddy: hand out both halves, take the lower one back, free the upper one, and
      both allocators then serve the same frames. */
  method HandOutTwice(f: FrameForest, i: nat, j: nat, ghost l: nat, ghost s: nat, k: nat)
    returns (x: Option<nat>, y: Option<nat>)
    requires f.Valid() && i < |f.allocators| && j < |f.allocators| && i != j && s % (2 * Pow2(k)) >= Pow2(k)
    requires var a, b := f.allocators[i], f.allocators[j];
      && a.Geo() == Lender(l, s, k) && a.Abs() == Init(a.Geo())
      && b.Geo() == Sibling(l, s, k) && b.Abs() == Init(b.Geo())
      && BuddyOf(a.Geo(), Lower(l, s)) !in TaggedAs(a.Geo(), f.table.node)
    modifies f.allocators, f.table
    ensures x.Some? && y.Some? && y.value == x.value + 4096 * Pow2(k)
    ensures Pages(f.allocators[i].Geo(), 0) == 2 * Pow2(k) && Pages(f.allocators[j].Geo(), 0) == Pow2(k)
  {
    var a, b := f.allocators[i], f.allocators[j];
    ghost var before := f.table.node;
    assert a != b;
    TakeHalves(f, i, l, s, k);
    LowerBuddyUntagged(l, s, k, before, f.table.node);
    GiveLowerBack(f, i, l, s, k);
    f.TagsAreHeld(i, 1);
    var ok;
    ok, x, y := ServeTwice(a, b, l, s, k);
  }

  /** Hands out both halves of the first allocator. */
  method TakeHalves(f: FrameForest, i: nat, ghost l: nat, ghost s: nat, k: nat)
    requires f.Valid() && i < |f.allocators|
    requires f.allocators[i].Geo() == Lender(l, s, k) && f.allocators[i].Abs() == Init(f.allocators[i].Geo())
    modifies f.allocators[i], f.table
    ensures f.Valid() && f.allocators[i].Abs() == State({}, {Lower(l, s), Upper(l, s, k)})
    ensures KeepsOthers(f.allocators[i].Geo(), old(f.table.node), f.table.node)
  {
    ghost var g := Lender(l, s, k);
    PairSizes(l, s, k);
    Pow2IsPow2(k);
    assert CanServe(g, {Top(g)}, Pow2(k)) by { assert Top(g) in {Top(g)}; }
    var r;
    ghost var level, donor, node;
    r, level, donor, node := f.AllocateFrom(i, Pow2(k));
    FirstHalf(l, s, k, level, donor, node, f.allocators[i].Abs());
    assert CanServe(g, {Upper(l, s, k)}, Pow2(k)) by { assert Upper(l, s, k) in {Upper(l, s, k)}; }
    r, level, donor, node := f.AllocateFrom(i, Pow2(k));
    SecondHalf(l, s, k, level, donor, node, f.allocators[i].Abs());
  }

  /** Takes the lower half back. Its buddy is not tagged, so merging is sheltered. */
  method GiveLowerBack(f: FrameForest, i: nat, ghost l: nat, ghost s: nat, k: nat)
    requires f.Valid() && i < |f.allocators|
    requires var a := f.allocators[i];
      && a.Geo() == Lender(l, s, k) && a.Abs() == State({}, {Lower(l, s), Upper(l, s, k)})
      && BuddyOf(a.Geo(), Lower(l, s)) !in TaggedAs(a.Geo(), f.table.node)
    modifies f.allocators[i], f.table
    ensures f.Valid() && f.allocators[i].Abs() == State({Lower(l, s)}, {Upper(l, s, k)})
  {
    var a := f.allocators[i];
    ghost var was := a.Now();
    PairSizes(l, s, k);
    var ok := f.DeallocateIn(i, a.virtStart, Pow2(k), 1, Lower(l, s).start);
    assert Freed(a.Geo(), Lower(l, s), ok, was, a.Now());
    LowerBack(l, s, k, a.Abs());
  }
}
