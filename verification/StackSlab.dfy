/** The slab of 128 kernel stacks and its bitmap. */
module StackSlab {
  import opened Bits
  import opened FreeLists

  /** A stack block is four pages, the lowest of them a guard page. */
  const KERNEL_TASKS_START: nat := 0xFFFF_F300_0000_0000

  /** The address handed out for block `i`: the highest 16-byte aligned address inside it. */
  function StackTop(i: nat): nat {
    KERNEL_TASKS_START + i * 0x4000 + 0x3FF0
  }

  function BlockOf(addr: nat): nat
    requires addr >= KERNEL_TASKS_START
  {
    (addr - KERNEL_TASKS_START) / 0x4000
  }

  lemma {:induction false} BlockOfStackTop(i: nat)
    ensures BlockOf(StackTop(i)) == i
  {
    assert (i * 0x4000 + 0x3FF0) / 0x4000 == i;
  }

  /** The mapped pages of different blocks never overlap, and a guard page separates them. */
  lemma {:induction false} StacksDisjoint(i: nat, j: nat)
    requires i < j
    ensures StackTop(i) + 16 <= KERNEL_TASKS_START + j * 0x4000
    ensures KERNEL_TASKS_START + j * 0x4000 + 0x1000 <= StackTop(j)
  {
  }

  // ---- masks ----

  lemma {:induction false} AndOnes(x: nat, n: nat)
    requires x < Pow2(n)
    ensures And(x, Pow2(n) - 1) == x
  {
    if x > 0 {
      AndOnes(x / 2, n - 1);
      AndOdd(x, Pow2(n - 1) - 1);
    }
  }

  lemma {:induction false} AndOdd(x: nat, m: nat)
    ensures And(x, 2 * m + 1) == 2 * And(x / 2, m) + x % 2
  {
    assert (2 * m + 1) / 2 == m && (2 * m + 1) % 2 == 1;
  }

  /** Masking with the complement of `2^k - 1` clears the low `k` bits. */
  lemma {:induction false} AndHighMask(x: nat, n: nat, k: nat)
    requires x < Pow2(n) && k <= n
    ensures Pow2(k) <= Pow2(n) && And(x, Pow2(n) - Pow2(k)) == Shl(Shr(x, k), k)
  {
    Pow2Divides(k, n);
    if k == 0 {
      AndOnes(x, n);
    } else {
      AndHighMask(x / 2, n - 1, k - 1);
      MaskStep(x, Pow2(n - 1) - Pow2(k - 1));
    }
  }

  lemma {:induction false} MaskStep(x: nat, m: nat)
    ensures And(x, 2 * m) == 2 * And(x / 2, m)
  {
    assert (2 * m) / 2 == m && (2 * m) % 2 == 0;
  }

  lemma {:induction false} RoundDown(x: nat, k: nat, p: nat)
    requires x < Pow2(64) && k <= 64 && p == Pow2(k)
    ensures p - 1 < Pow2(64) && And(x, Not(64, p - 1)) == x / p * p
  {
    AndHighMask(x, 64, k);
    ShiftsDivide(x, k);
    ShiftsDivide(x / p, k);
  }

  /** The address arithmetic of `get_stack`. */
  lemma {:induction false} TopAddress(index: nat)
    requires index < 128
    ensures 0xF < Pow2(64)
    ensures And(KERNEL_TASKS_START + index * 4 * 0x1000 + 4 * 0x1000 - 1, Not(64, 0xF)) == StackTop(index)
  {
    WordBounds();
    RoundDown(KERNEL_TASKS_START + index * 4 * 0x1000 + 4 * 0x1000 - 1, 4, 16);
    RoundedTop(index, KERNEL_TASKS_START / 16);
  }

  lemma {:induction false} RoundedTop(index: nat, s: nat)
    ensures (16 * s + index * 4 * 0x1000 + 4 * 0x1000 - 1) / 16 * 16 == 16 * s + index * 0x4000 + 0x3FF0
  {
    assert 16 * s + index * 4 * 0x1000 + 4 * 0x1000 - 1 == 16 * (s + index * 0x400 + 0x3FF) + 15;
  }

  /** The address arithmetic of `return_stack`. */
  lemma {:induction false} IndexOfAddress(addr: nat)
    requires KERNEL_TASKS_START <= addr < Pow2(64)
    ensures 0x3FFF < Pow2(64)
    ensures And(addr - KERNEL_TASKS_START, Not(64, 0x3FFF)) / 0x4000 == BlockOf(addr)
  {
    WordBounds();
    RoundDown(addr - KERNEL_TASKS_START, 14, 0x4000);
  }

  lemma {:induction false} WordBounds()
    ensures Pow2(4) == 0x10 && Pow2(14) == 0x4000 && Pow2(64) == 0x1_0000_0000_0000_0000
  {
    assert Pow2(7) == 128;
    Pow2Sum(7, 7);
    assert Pow2(8) == 256;
    Pow2Sum(8, 8);
    Pow2Sum(16, 16);
    Pow2Sum(32, 32);
  }

  class KernelSlab {
    var bitmap: nat

    ghost predicate Valid()
      reads this
    {
      bitmap < Pow2(128)
    }

    constructor ()
      ensures Valid() && bitmap == 0
    {
      bitmap := 0;
    }

    /** Takes the lowest free block. `mapped` is the outcome of mapping its pages; there is no stack
        exactly when all 128 are taken or mapping failed, and then nothing changes. */
    method GetStack(mapped: bool) returns (r: Option<nat>)
      requires Valid()
      modifies this
      ensures Valid()
      ensures r.Some? <==> mapped && exists i :: 0 <= i < 128 && !Bit(old(bitmap), i)
      ensures r.None? ==> bitmap == old(bitmap)
      ensures r.Some? ==> exists i: nat :: Taken(old(bitmap), bitmap, i) && r.value == StackTop(i)
    {
      var index := TrailingOnes(bitmap);
      TrailingOnesIsFirstClear(bitmap, index);
      if index >= 128 {
        forall i: nat | i < 128 ensures Bit(bitmap, i) { TrailingOnesIsFirstClear(bitmap, i); }
        return None;
      }
      assert !Bit(bitmap, index);
      var blockStart := KERNEL_TASKS_START + index * 4 * 0x1000;
      if !mapped {
        return None;
      }
      forall i: nat | i < index ensures Bit(bitmap, i) { TrailingOnesIsFirstClear(bitmap, i); }
      SetBit(128, bitmap, index);
      TopAddress(index);
      var stackTop := And(blockStart + 4 * 0x1000 - 1, Not(64, 0xF));
      bitmap := Or(bitmap, Pow2(index));
      assert Taken(old(bitmap), bitmap, index);
      r := Some(stackTop);
    }

    /** Frees the block that an address lies in, which must be taken. */
    method ReturnStack(addr: nat)
      requires Valid() && KERNEL_TASKS_START <= addr < Pow2(64)
      requires BlockOf(addr) < 128 && Bit(bitmap, BlockOf(addr))
      modifies this
      ensures Valid()
      ensures forall i: nat :: Bit(bitmap, i) <==> Bit(old(bitmap), i) && i != BlockOf(addr)
    {
      var offset := addr - KERNEL_TASKS_START;
      IndexOfAddress(addr);
      var index := And(offset, Not(64, 0x3FFF)) / 0x4000;
      assert index == BlockOf(addr);
      ClearBit(128, bitmap, index);
      bitmap := And(bitmap, Not(128, Pow2(index)));
    }
  }

  /** `after` is `before` with the lowest clear bit `i` set. */
  ghost predicate Taken(before: nat, after: nat, i: nat) {
    && i < 128 && !Bit(before, i)
    && (forall j: nat :: j < i ==> Bit(before, j))
    && (forall j: nat :: Bit(after, j) <==> Bit(before, j) || j == i)
    && after < Pow2(128)
  }
}
