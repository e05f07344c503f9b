/** One NVMe queue pair: the phase-bit protocol of its completion ring, and submission. */
module NvmeQueue {
  import opened Bits
  import opened FreeLists

  datatype Command = Command(opcode: nat, cid: nat, nsid: nat, data: seq<nat>)

  /** Bit 0 of `status` is the phase tag. */
  datatype Completion = Completion(result: nat, sqHead: nat, sqId: nat, cid: nat, status: nat)

  function PhaseBit(c: Completion): bool { And(c.status, 1) != 0 }

  lemma {:induction false} PhaseBitIsParity(c: Completion)
    ensures PhaseBit(c) <==> c.status % 2 == 1
  {
    assert Pow2(0) == 1;
    TestBit(c.status, 0);
  }

  /** The ring slot of the `k`th entry ever posted. */
  function Slot(k: nat, size: nat): (s: nat)
    requires size > 0
    ensures s < size
  {
    if k < size then k else Slot(k - size, size)
  }

  /** The phase of the pass that the `k`th entry belongs to: true on the first, then alternating. */
  predicate Phase(k: nat, size: nat)
    requires size > 0
  {
    k < size || !Phase(k - size, size)
  }

  /** Slots repeat with every pass, and passes alternate. */
  lemma {:induction false} SlotOfPass(pass: nat, i: nat, size: nat)
    requires i < size
    ensures Slot(pass * size + i, size) == i
    ensures Phase(pass * size + i, size) <==> pass % 2 == 0
  {
    if pass > 0 {
      SlotOfPass(pass - 1, i, size);
      assert pass * size + i == ((pass - 1) * size + i) + size;
    }
  }

  lemma {:induction false} SlotAfter(k: nat, d: nat, size: nat)
    requires size > 0 && d <= size
    ensures Slot(k + d, size) == if Slot(k, size) + d < size then Slot(k, size) + d else Slot(k, size) + d - size
    ensures Phase(k + d, size) == if Slot(k, size) + d < size then Phase(k, size) else !Phase(k, size)
    decreases k
  {
    if k >= size {
      SlotAfter(k - size, d, size);
    } else if k + d >= size {
      assert Slot(k + d, size) == Slot(k + d - size, size);
    }
  }

  class Queue {
    const size: nat
    const sq: array<Command>
    const cq: array<Completion>
    var sqHead: nat
    var sqTail: nat
    var cqHead: nat
    var cqPhase: bool

    /** Every command accepted so far. */
    ghost var submitted: seq<Command>
    /** Every completion the controller has posted, and every one handed to the driver. */
    ghost var posted: seq<Completion>
    ghost var delivered: seq<Completion>

    ghost predicate Valid()
      reads this, sq, cq
    {
      && size >= 1 && sq.Length == size && cq.Length == size
      // submission: the head never moves, so the tail counts the commands
      && sqHead == 0 && sqTail == |submitted| < size
      && (forall i :: 0 <= i < |submitted| ==> sq[i] == submitted[i] && submitted[i].cid == i)
      // completion: what was delivered is a prefix of what was posted, at most one ring behind
      && delivered <= posted && |posted| <= |delivered| + size
      && cqHead == Slot(|delivered|, size) && cqPhase == Phase(|delivered|, size)
      && RingHolds(cq[..], posted, size)
    }

    /** A zeroed queue, as `new` builds it. */
    constructor (size: nat, blankCommand: Command, blank: Completion)
      requires blank.status == 0
      ensures size >= 1 ==> Valid()
      ensures this.size == size && submitted == [] && posted == [] && delivered == []
      ensures fresh(sq) && fresh(cq)
    {
      this.size := size;
      sq := new Command[size](_ => blankCommand);
      cq := new Completion[size](_ => blank);
      sqHead, sqTail, cqHead, cqPhase := 0, 0, 0, true;
      submitted, posted, delivered := [], [], [];
    }

    /** Appends a command under its slot number; refuses it exactly when `size - 1` commands have
        been accepted since the queue was made, because the head never advances. */
    method SubmitCommand(cmd: Command) returns (r: Option<nat>)
      requires Valid()
      modifies this`sqTail, this`submitted, sq
      ensures Valid()
      ensures r.None? <==> |old(submitted)| == size - 1
      ensures r.None? ==> submitted == old(submitted)
      ensures r.Some? ==> r.value == |old(submitted)| && submitted == old(submitted) + [cmd.(cid := r.value)]
    {
      Wraps(sqTail, size);
      var nextTail := (sqTail + 1) % size;
      if nextTail == sqHead {
        return None;
      }
      var cid := sqTail;
      sq[sqTail] := cmd.(cid := cid);
      submitted := submitted + [cmd.(cid := cid)];
      sqTail := nextTail;
      r := Some(cid);
    }

    /** The controller's side: it posts in ring order, tags each entry with the phase of its pass,
        and is never more than `size` entries ahead of the driver. */
    method ControllerPosts(slot: nat, c: Completion)
      requires Valid() && |posted| < |delivered| + size
      requires slot == Slot(|posted|, size) && PhaseBit(c) == Phase(|posted|, size)
      modifies this`posted, cq
      ensures Valid() && posted == old(posted) + [c]
    {
      RingExtends(cq[..], posted, size, c);
      cq[slot] := c;
      posted := posted + [c];
      assert cq[..] == old(cq[..])[slot := c];
    }

    /** Delivers the next completion: every posted one exactly once and in order, and none exactly
        when everything posted has been delivered. */
    method CheckCompletion() returns (r: Option<Completion>)
      requires Valid()
      modifies this`cqHead, this`cqPhase, this`delivered
      ensures Valid()
      ensures r.None? <==> old(delivered) == posted
      ensures r.None? ==> delivered == old(delivered)
      ensures r.Some? ==> |old(delivered)| < |posted| && r.value == posted[|old(delivered)|]
      ensures r.Some? ==> delivered == old(delivered) + [r.value]
    {
      var completion := cq[cqHead];
      PhaseTells(cq[..], posted, size, |delivered|);
      if PhaseBit(completion) == cqPhase {
        SlotAfter(|delivered|, 1, size);
        Wraps(cqHead, size);
        cqHead := (cqHead + 1) % size;
        if cqHead == 0 {
          cqPhase := !cqPhase;
        }
        delivered := delivered + [completion];
        r := Some(completion);
      } else {
        r := None;
      }
    }
  }

  lemma {:induction false} Wraps(i: nat, size: nat)
    requires i < size
    ensures (i + 1) % size == if i + 1 == size then 0 else i + 1
  {
    if i + 1 == size { DivUnique(i + 1, size, 1, 0); } else { DivUnique(i + 1, size, 0, i + 1); }
  }

  /** Each slot holds the last entry posted to it, tagged with the phase of its pass; a slot that
      was never written still reads as phase zero. */
  ghost predicate RingHolds(ring: seq<Completion>, posted: seq<Completion>, size: nat)
    requires size > 0
  {
    && |ring| == size
    && (forall k :: 0 <= k < |posted| ==> PhaseBit(posted[k]) == Phase(k, size))
    && (forall k: nat :: k < |posted| <= k + size ==> ring[Slot(k, size)] == posted[k])
    && (forall i :: |posted| <= i < size ==> !PhaseBit(ring[i]))
  }

  lemma {:induction false} RingExtends(ring: seq<Completion>, posted: seq<Completion>, size: nat, c: Completion)
    requires size > 0 && RingHolds(ring, posted, size) && PhaseBit(c) == Phase(|posted|, size)
    ensures RingHolds(ring[Slot(|posted|, size) := c], posted + [c], size)
  {
    var n := |posted|;
    var ring', posted' := ring[Slot(n, size) := c], posted + [c];
    forall k: nat | k < n + 1 <= k + size ensures ring'[Slot(k, size)] == posted'[k] {
      SlotAfter(k, n - k, size);
    }
  }

  /** Reading the phase tag of the next slot tells whether the next entry has been posted. */
  lemma {:induction false} PhaseTells(ring: seq<Completion>, posted: seq<Completion>, size: nat, n: nat)
    requires size > 0 && RingHolds(ring, posted, size) && n <= |posted| <= n + size
    ensures PhaseBit(ring[Slot(n, size)]) == Phase(n, size) <==> n < |posted|
    ensures n < |posted| ==> ring[Slot(n, size)] == posted[n]
  {
    if n == |posted| && n >= size {
      var k := n - size;
      assert ring[Slot(k, size)] == posted[k];
      assert Slot(n, size) == Slot(k, size) && Phase(n, size) == !Phase(k, size);
    }
  }
}
