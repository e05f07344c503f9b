/** The MSI-X pending bit array: written byte by byte, read in 64-bit words. */
module MsixPending {
  import opened Bits

  datatype PciError = InvalidDevice | MsiXSetupFailed

  datatype Result<+T> = Ok(value: T) | Err(error: PciError)

  // ---- little-endian words over bytes ----

  ghost predicate AreBytes(bs: seq<nat>) {
    forall i :: 0 <= i < |bs| ==> bs[i] < 256
  }

  function LittleEndian(bs: seq<nat>): nat {
    if bs == [] then 0 else bs[0] + 256 * LittleEndian(bs[1..])
  }

  lemma {:induction false} BitConcat(x: nat, y: nat, n: nat, j: nat)
    requires x < Pow2(n)
    ensures Bit(x + Shl(y, n), j) <==> if j < n then Bit(x, j) else Bit(y, j - n)
  {
    if n > 0 {
      var s := Shl(y, n - 1);
      assert (x + 2 * s) / 2 == x / 2 + s && (x + 2 * s) % 2 == x % 2;
      if j > 0 { BitConcat(x / 2, y, n - 1, j - 1); }
    }
  }

  lemma {:induction false} ByteShift(y: nat)
    ensures Shl(y, 8) == 256 * y && Pow2(8) == 256
  {
    ShiftsDivide(y, 8);
    assert Pow2(8) == 256;
  }

  /** Bit `j` of a little-endian word is bit `j % 8` of byte `j / 8`. */
  lemma {:induction false} LittleEndianBit(bs: seq<nat>, j: nat)
    requires AreBytes(bs) && j < 8 * |bs|
    ensures Bit(LittleEndian(bs), j) <==> Bit(bs[j / 8], j % 8)
  {
    var rest := LittleEndian(bs[1..]);
    ByteShift(rest);
    BitConcat(bs[0], rest, 8, j);
    if j >= 8 {
      LittleEndianBit(bs[1..], j - 8);
      assert (j - 8) / 8 == j / 8 - 1 && (j - 8) % 8 == j % 8;
    }
  }

  lemma {:induction false} LittleEndianFits(bs: seq<nat>)
    requires AreBytes(bs)
    ensures LittleEndian(bs) < Pow2(8 * |bs|)
  {
    if bs != [] {
      LittleEndianFits(bs[1..]);
      ByteShift(Pow2(8 * |bs| - 8));
      ShlPow2(8 * |bs| - 8, 8);
    }
  }

  /** The array is large enough for whole words. */
  ghost predicate Holds(bytes: seq<nat>, vectors: nat) {
    AreBytes(bytes) && |bytes| == 8 * ((vectors + 63) / 64)
  }

  function Qword(bytes: seq<nat>, q: nat): nat
    requires 8 * q + 8 <= |bytes|
  {
    LittleEndian(bytes[8 * q..8 * q + 8])
  }

  predicate Pending(bytes: seq<nat>, i: nat)
    requires 8 * (i / 64) + 8 <= |bytes|
  {
    Bit(Qword(bytes, i / 64), i % 64)
  }

  lemma {:induction false} PendingIsByteBit(bytes: seq<nat>, vectors: nat, i: nat)
    requires Holds(bytes, vectors) && i < vectors
    ensures Pending(bytes, i) <==> Bit(bytes[i / 8], i % 8)
  {
    var q := i / 64;
    LittleEndianBit(bytes[8 * q..8 * q + 8], i % 64);
    assert bytes[8 * q..8 * q + 8][i % 64 / 8] == bytes[i / 8];
  }

  /** The pending bit of every vector. */
  function Flags(bytes: seq<nat>, vectors: nat): (flags: seq<bool>)
    requires |bytes| == 8 * ((vectors + 63) / 64)
    ensures |flags| == vectors
  {
    seq(vectors, i requires 0 <= i < vectors => Pending(bytes, i))
  }

  lemma {:induction false} FlagsOfQword(bytes: seq<nat>, vectors: nat, q: nat, bit: nat)
    requires |bytes| == 8 * ((vectors + 63) / 64) && bit < 64 && 64 * q + bit < vectors
    ensures 8 * q + 8 <= |bytes| && Flags(bytes, vectors)[64 * q + bit] == Bit(Qword(bytes, q), bit)
  {
    assert (64 * q + bit) / 64 == q && (64 * q + bit) % 64 == bit;
  }

  // ---- the pending vectors ----

  /** The indices below `n` whose flag is set, in ascending order. */
  function PendingBelow(flags: seq<bool>, n: nat): seq<nat>
    requires n <= |flags|
  {
    if n == 0 then [] else PendingBelow(flags, n - 1) + (if flags[n - 1] then [n - 1] else [])
  }

  lemma {:induction false} PendingBelowExact(flags: seq<bool>, n: nat)
    requires n <= |flags|
    ensures forall i: nat :: i in PendingBelow(flags, n) <==> i < n && flags[i]
    ensures forall j, k :: 0 <= j < k < |PendingBelow(flags, n)| ==>
      PendingBelow(flags, n)[j] < PendingBelow(flags, n)[k]
  {
    if n > 0 {
      var before := PendingBelow(flags, n - 1);
      PendingBelowExact(flags, n - 1);
      forall j | 0 <= j < |before| ensures before[j] < n - 1 { assert before[j] in before; }
    }
  }

  /** The bits of `word` are the flags from `start` on. */
  ghost predicate WordAt(flags: seq<bool>, start: nat, word: nat) {
    forall j: nat {:trigger FlagAt(flags, start, word, j)} :: j < 64 && start + j < |flags| ==>
      FlagAt(flags, start, word, j)
  }

  predicate FlagAt(flags: seq<bool>, start: nat, word: nat, j: nat)
    requires start + j < |flags|
  {
    flags[start + j] == Bit(word, j)
  }

  lemma {:induction false} CountInWord(flags: seq<bool>, start: nat, word: nat, v: nat)
    requires v <= 64 && start + v <= |flags| && WordAt(flags, start, word)
    ensures |PendingBelow(flags, start + v)| == |PendingBelow(flags, start)| + BitsBelow(word, v)
  {
    if v > 0 {
      CountInWord(flags, start, word, v - 1);
      assert FlagAt(flags, start, word, v - 1);
    }
  }

  /** Where the 64 vectors from `start` end in a table of `n`. */
  function WordEnd(start: nat, n: nat): (e: nat)
    requires start <= n
    ensures start <= e <= n && e <= start + 64
  {
    if start + 64 < n then start + 64 else n
  }

  /** Appends the pending vectors of one word, stopping at the table size. */
  method ScanWord(bits: nat, q: nat, n: nat, before: seq<nat>, ghost flags: seq<bool>) returns (pending: seq<nat>)
    requires |flags| == n && 64 * q < n && WordAt(flags, 64 * q, bits) && before == PendingBelow(flags, 64 * q)
    ensures pending == PendingBelow(flags, WordEnd(64 * q, n))
  {
    pending := before;
    var bit := 0;
    while bit < 64
      invariant 0 <= bit <= 64 && 64 * q + bit <= n
      invariant pending == PendingBelow(flags, 64 * q + bit)
    {
      var vector := q * 64 + bit;
      if vector >= n {
        break;
      }
      TestBit(bits, bit);
      assert FlagAt(flags, 64 * q, bits, bit);
      if And(bits, Pow2(bit)) != 0 {
        pending := pending + [vector];
      }
      bit := bit + 1;
    }
  }

  /** Counts one word after masking off what lies beyond the table. */
  method CountWord(bits: nat, q: nat, n: nat, ghost flags: seq<bool>) returns (ones: nat)
    requires |flags| == n && 64 * q < n && WordAt(flags, 64 * q, bits)
    ensures |PendingBelow(flags, 64 * q)| + ones == |PendingBelow(flags, WordEnd(64 * q, n))|
  {
    var vectors := if n - q * 64 < 64 then n - q * 64 else 64;
    var mask := if vectors == 64 then Pow2(64) - 1 else Pow2(vectors) - 1;
    MaskedCount(bits, vectors);
    CountInWord(flags, 64 * q, bits, vectors);
    ones := CountOnes(And(bits, mask));
  }

  class MsixInfo {
    const tableSize: nat
    /** The mapped array, or none before `map_structures`. */
    const mapped: bool
    const pba: array<nat>

    ghost predicate Valid()
      reads pba
    {
      Holds(pba[..], tableSize)
    }

    constructor (tableSize: nat, mapped: bool, pba: array<nat>)
      requires Holds(pba[..], tableSize)
      ensures Valid() && this.tableSize == tableSize && this.mapped == mapped && this.pba == pba
    {
      this.tableSize := tableSize;
      this.mapped := mapped;
      this.pba := pba;
    }

    ghost function Abs(): (flags: seq<bool>)
      requires Valid()
      reads pba
      ensures |flags| == tableSize
    {
      Flags(pba[..], tableSize)
    }

    method ReadQword(q: nat) returns (w: nat)
      requires Valid() && 64 * q < tableSize
      ensures WordAt(Abs(), 64 * q, w) && w < Pow2(64)
    {
      ghost var bytes := pba[..];
      assert bytes[8 * q..8 * q + 8] == pba[8 * q..8 * q + 8];
      LittleEndianFits(pba[8 * q..8 * q + 8]);
      w := LittleEndian(pba[8 * q..8 * q + 8]);
      forall j: nat | j < 64 && 64 * q + j < tableSize ensures FlagAt(Abs(), 64 * q, w, j) {
        FlagsOfQword(bytes, tableSize, q, j);
      }
    }

    method IsVectorPending(index: nat) returns (r: Result<bool>)
      requires Valid()
      ensures index >= tableSize ==> r == Err(InvalidDevice)
      ensures index < tableSize && !mapped ==> r == Err(MsiXSetupFailed)
      ensures index < tableSize && mapped ==> r == Ok(Abs()[index]) && r == Ok(Bit(pba[index / 8], index % 8))
    {
      if index >= tableSize {
        return Err(InvalidDevice);
      }
      if !mapped {
        return Err(MsiXSetupFailed);
      }
      var q, bit := index / 64, index % 64;
      var bits := ReadQword(q);
      TestBit(bits, bit);
      PendingIsByteBit(pba[..], tableSize, index);
      assert index == 64 * q + bit && FlagAt(Abs(), 64 * q, bits, bit);
      r := Ok(And(bits, Pow2(bit)) != 0);
    }

    /** The ascending list of the vectors that `IsVectorPending` reports. */
    method ReadPendingVectors() returns (r: Result<seq<nat>>)
      requires Valid()
      ensures r == if mapped then Ok(PendingBelow(Abs(), tableSize)) else Err(MsiXSetupFailed)
    {
      if !mapped {
        return Err(MsiXSetupFailed);
      }
      var pending: seq<nat> := [];
      var qwords := (tableSize + 63) / 64;
      ghost var done := 0;
      for q := 0 to qwords
        invariant done == if 64 * q < tableSize then 64 * q else tableSize
        invariant pending == PendingBelow(Abs(), done)
      {
        var bits := ReadQword(q);
        pending := ScanWord(bits, q, tableSize, pending, Abs());
        done := WordEnd(64 * q, tableSize);
      }
      r := Ok(pending);
    }

    /** The masked population counts add up to the number of pending vectors. */
    method GetPendingCount() returns (r: Result<nat>)
      requires Valid()
      ensures r == if mapped then Ok(|PendingBelow(Abs(), tableSize)|) else Err(MsiXSetupFailed)
    {
      if !mapped {
        return Err(MsiXSetupFailed);
      }
      var count := 0;
      var qwords := (tableSize + 63) / 64;
      ghost var done := 0;
      for q := 0 to qwords
        invariant done == if 64 * q < tableSize then 64 * q else tableSize
        invariant count == |PendingBelow(Abs(), done)|
      {
        var bits := ReadQword(q);
        var ones := CountWord(bits, q, tableSize, Abs());
        count := count + ones;
        done := WordEnd(64 * q, tableSize);
      }
      r := Ok(count);
    }

    method HasPendingInterrupts() returns (r: Result<bool>)
      requires Valid()
      ensures r == if mapped then Ok(true in Abs()) else Err(MsiXSetupFailed)
    {
      var count := GetPendingCount();
      if count.Err? {
        return Err(count.error);
      }
      ghost var all := PendingBelow(Abs(), tableSize);
      PendingBelowExact(Abs(), tableSize);
      assert |all| > 0 ==> all[0] in all;
      assert true in Abs() ==> exists i: nat :: i < tableSize && Abs()[i];
      r := Ok(count.value > 0);
    }

    /** Zeroes `tableSize.div_ceil(8)` bytes: afterwards no vector is pending. */
    method ZeroPba()
      requires Valid()
      modifies pba
      ensures Valid()
      ensures mapped ==> true !in Abs() && PendingBelow(Abs(), tableSize) == []
      ensures mapped ==> forall j :: 0 <= j < (tableSize + 7) / 8 ==> pba[j] == 0
      ensures forall j :: 0 <= j < pba.Length && (mapped ==> j >= (tableSize + 7) / 8) ==> pba[j] == old(pba[j])
    {
      if mapped {
        var n := (tableSize + 7) / 8;
        for i := 0 to n
          invariant Valid()
          invariant forall j :: 0 <= j < i ==> pba[j] == 0
          invariant forall j :: i <= j < pba.Length ==> pba[j] == old(pba[j])
        {
          pba[i] := 0;
        }
        NothingPending(pba[..], tableSize);
        NoneBelow(Abs(), tableSize);
      }
    }
  }

  lemma {:induction false} NothingPending(bytes: seq<nat>, vectors: nat)
    requires Holds(bytes, vectors) && forall j :: 0 <= j < (vectors + 7) / 8 ==> bytes[j] == 0
    ensures true !in Flags(bytes, vectors)
  {
    forall i | 0 <= i < vectors ensures !Flags(bytes, vectors)[i] {
      PendingIsByteBit(bytes, vectors, i);
      BitOfZero(i % 8);
    }
  }

  lemma {:induction false} NoneBelow(flags: seq<bool>, n: nat)
    requires n <= |flags| && true !in flags
    ensures PendingBelow(flags, n) == []
  {
    if n > 0 { NoneBelow(flags, n - 1); }
  }
}
