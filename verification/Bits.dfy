/**
  Machine words as natural numbers.

  Bitwise operators are defined bit by bit, so that what the kernel does with `^`, `|`, `&`,
  `!` and `count_ones` is derived here and not assumed. `1 << k` is `Pow2(k)`.
 */
module Bits {

  function Pow2(k: nat): (p: nat)
    ensures p >= 1
  {
    if k == 0 then 1 else 2 * Pow2(k - 1)
  }

  function Xor(x: nat, y: nat): nat
    decreases x + y
  {
    if x == 0 && y == 0 then 0
    else 2 * Xor(x / 2, y / 2) + (if x % 2 == y % 2 then 0 else 1)
  }

  function Or(x: nat, y: nat): nat
    decreases x + y
  {
    if x == 0 && y == 0 then 0
    else 2 * Or(x / 2, y / 2) + (if x % 2 == 1 || y % 2 == 1 then 1 else 0)
  }

  function And(x: nat, y: nat): nat
  {
    if x == 0 then 0
    else 2 * And(x / 2, y / 2) + (if x % 2 == 1 && y % 2 == 1 then 1 else 0)
  }

  /** `!x` on a word of the given width. */
  function Not(width: nat, x: nat): nat
    requires x < Pow2(width)
  {
    Pow2(width) - 1 - x
  }

  function Shl(x: nat, k: nat): nat {
    if k == 0 then x else 2 * Shl(x, k - 1)
  }

  function Shr(x: nat, k: nat): nat {
    if k == 0 then x else Shr(x / 2, k - 1)
  }

  predicate Bit(x: nat, i: nat) {
    if i == 0 then x % 2 == 1 else Bit(x / 2, i - 1)
  }

  function CountOnes(x: nat): nat {
    if x == 0 then 0 else x % 2 + CountOnes(x / 2)
  }

  function TrailingOnes(x: nat): nat {
    if x % 2 == 0 then 0 else 1 + TrailingOnes(x / 2)
  }

  predicate IsPow2(n: nat) {
    n == 1 || (n > 1 && n % 2 == 0 && IsPow2(n / 2))
  }

  function Log2(n: nat): (k: nat)
    requires IsPow2(n)
    ensures Pow2(k) == n
  {
    if n == 1 then 0 else 1 + Log2(n / 2)
  }

  /** How many of the low `n` bits of `x` are set. */
  function BitsBelow(x: nat, n: nat): nat {
    if n == 0 then 0 else BitsBelow(x, n - 1) + (if Bit(x, n - 1) then 1 else 0)
  }

  // ---- divisibility ----

  lemma {:induction false} ModSum(x: nat, y: nat, m: nat)
    requires m > 0 && y % m == 0
    ensures (x + y) % m == x % m
    ensures (x + y) / m == x / m + y / m
  {
    var q := y / m;
    assert y == q * m;
    var r := x / m;
    assert x == r * m + x % m;
    assert (r + q) * m == r * m + q * m;
    DivUnique(x + y, m, r + q, x % m);
  }

  lemma {:induction false} ModDifference(x: nat, y: nat, m: nat)
    requires m > 0 && y % m == 0 && y <= x
    ensures (x - y) % m == x % m
    ensures (x - y) / m == x / m - y / m
  {
    ModSum(x - y, y, m);
  }

  lemma {:induction false} DivUnique(x: int, m: nat, q: int, r: int)
    requires m > 0 && 0 <= r < m && x == q * m + r
    ensures x / m == q && x % m == r
  {
    var d := x / m - q;
    assert d * m == (x / m) * m - q * m;
    assert x == (x / m) * m + x % m;
    if d > 0 {
      MulAtLeast(d, m);
    } else if d < 0 {
      assert (-d) * m == -(d * m);
      MulAtLeast(-d, m);
    }
  }

  lemma {:induction false} MulAtLeast(a: nat, m: nat)
    requires a > 0
    ensures a * m >= m
  {
    assert a * m == (a - 1) * m + m;
  }

  /** `x / (2m)` is `(x / 2) / m`, and `x / m` halves to `x / (2m)`. */
  lemma {:induction false} DivDouble(x: nat, m: nat)
    requires m > 0
    ensures x / (2 * m) == (x / 2) / m
    ensures x / (2 * m) == (x / m) / 2
  {
    var q, r := x / (2 * m), x % (2 * m);
    assert x == q * (2 * m) + r;
    assert x / 2 == q * m + r / 2;
    DivUnique(x / 2, m, q, r / 2);
    if r < m {
      assert x == (2 * q) * m + r;
      DivUnique(x, m, 2 * q, r);
    } else {
      assert x == (2 * q + 1) * m + (r - m);
      DivUnique(x, m, 2 * q + 1, r - m);
    }
  }

  lemma {:induction false} ModChain(x: nat, m: nat, n: nat)
    requires m > 0 && n > 0 && n % m == 0 && x % n == 0
    ensures x % m == 0
  {
    var a, b := x / n, n / m;
    assert x == a * n && n == b * m;
    assert x == (a * b) * m;
    DivUnique(x, m, a * b, 0);
  }

  /** Divisibility by repeated subtraction, which keeps division out of the proofs that use it. */
  predicate Multiple(x: nat, m: nat)
    requires m > 0
  {
    x == 0 || (x >= m && Multiple(x - m, m))
  }

  lemma {:induction false} MultipleIsMod(x: nat, m: nat)
    requires m > 0
    ensures Multiple(x, m) <==> x % m == 0
    decreases x
  {
    if x >= m {
      MultipleIsMod(x - m, m);
      DivUnique(m, m, 1, 0);
      ModDifference(x, m, m);
    } else {
      DivUnique(x, m, 0, x);
    }
  }

  lemma {:induction false} MultipleSum(x: nat, y: nat, m: nat)
    requires m > 0 && Multiple(y, m)
    ensures Multiple(x + y, m) <==> Multiple(x, m)
  {
    MultipleIsMod(x, m);
    MultipleIsMod(y, m);
    MultipleIsMod(x + y, m);
    ModSum(x, y, m);
  }

  lemma {:induction false} MultipleChain(x: nat, m: nat, n: nat)
    requires m > 0 && n > 0 && Multiple(n, m) && Multiple(x, n)
    ensures Multiple(x, m)
  {
    MultipleIsMod(x, m);
    MultipleIsMod(n, m);
    MultipleIsMod(x, n);
    ModChain(x, m, n);
  }

  lemma {:induction false} MultipleSelf(m: nat)
    requires m > 0
    ensures Multiple(m, m)
  {
    assert Multiple(m - m, m);
  }

  lemma {:induction false} Pow2Sum(a: nat, b: nat)
    ensures Pow2(a + b) == Pow2(a) * Pow2(b)
  {
    if a > 0 {
      Pow2Sum(a - 1, b);
      assert Pow2(a + b) == 2 * Pow2(a + b - 1);
    }
  }

  lemma {:induction false} ShlPow2(a: nat, k: nat)
    ensures Shl(Pow2(a), k) == Pow2(a + k)
  {
    if k > 0 {
      ShlPow2(a, k - 1);
      assert Pow2(a + k) == 2 * Pow2(a + k - 1);
    }
  }

  lemma {:induction false} ShrPow2(a: nat, k: nat)
    requires k <= a
    ensures Shr(Pow2(a), k) == Pow2(a - k)
  {
    if k > 0 {
      assert Pow2(a) / 2 == Pow2(a - 1);
      ShrPow2(a - 1, k - 1);
    }
  }

  lemma {:induction false} ShiftsDivide(x: nat, k: nat)
    ensures Shr(x, k) == x / Pow2(k) && Shl(x, k) == x * Pow2(k)
  {
    if k > 0 {
      ShiftsDivide(x / 2, k - 1);
      ShiftsDivide(x, k - 1);
      DivDouble(x, Pow2(k - 1));
      MulDouble(x, Pow2(k - 1));
    }
  }

  lemma {:induction false} MulDouble(x: nat, m: nat)
    ensures x * (2 * m) == 2 * (x * m)
  {
  }

  lemma {:induction false} Pow2Divides(a: nat, b: nat)
    requires a <= b
    ensures Multiple(Pow2(b), Pow2(a))
    ensures Pow2(b) % Pow2(a) == 0
    ensures Pow2(b) / Pow2(a) == Pow2(b - a)
    ensures Pow2(a) <= Pow2(b)
  {
    Pow2Sum(b - a, a);
    DivUnique(Pow2(b), Pow2(a), Pow2(b - a), 0);
    MultipleIsMod(Pow2(b), Pow2(a));
  }

  /** Powers of two are ordered as their exponents are. */
  lemma {:induction false} Pow2Order(a: nat, b: nat)
    ensures Pow2(a) < Pow2(b) <==> a < b
  {
    if a < b {
      Pow2Divides(a + 1, b);
    } else {
      Pow2Divides(b, a);
    }
  }

  lemma {:induction false} Pow2IsPow2(k: nat)
    ensures IsPow2(Pow2(k))
  {
    if k > 0 { Pow2IsPow2(k - 1); }
  }

  // ---- rounding and searching ----

  /** `usize::next_power_of_two`: the least power of two not below `n`. */
  function NextPow2(n: nat): (p: nat)
    ensures p >= n
  {
    if n <= 1 then 1 else 2 * NextPow2((n + 1) / 2)
  }

  lemma {:induction false} NextPow2IsPow2(n: nat)
    ensures IsPow2(NextPow2(n))
  {
    if n > 1 { NextPow2IsPow2((n + 1) / 2); }
  }

  /** No smaller power of two would do. */
  lemma {:induction false} NextPow2IsLeast(n: nat, k: nat)
    requires Pow2(k) >= n
    ensures Pow2(k) >= NextPow2(n)
  {
    if n > 1 { NextPow2IsLeast((n + 1) / 2, k - 1); }
  }

  /** The number of zero bits below the lowest set bit. */
  function TrailingZeros(n: nat): nat
    requires n > 0
  {
    if n % 2 == 1 then 0 else 1 + TrailingZeros(n / 2)
  }

  lemma {:induction false} TrailingZerosPow2(k: nat)
    ensures TrailingZeros(Pow2(k)) == k
  {
    if k > 0 { TrailingZerosPow2(k - 1); }
  }

  // ---- single bits ----

  lemma {:induction false} BitQuotient(x: nat, i: nat)
    ensures Bit(x, i) <==> (x / Pow2(i)) % 2 == 1
  {
    if i > 0 {
      BitQuotient(x / 2, i - 1);
      DivDouble(x, Pow2(i - 1));
    }
  }

  lemma {:induction false} XorZero(x: nat)
    ensures Xor(x, 0) == x
  {
    if x > 0 { XorZero(x / 2); }
  }

  lemma {:induction false} XorDouble(x: nat, p: nat)
    requires p > 0
    ensures Xor(x, 2 * p) == 2 * Xor(x / 2, p) + x % 2
  {
    assert (2 * p) / 2 == p && (2 * p) % 2 == 0;
  }

  lemma {:induction false} XorFlips(x: nat, k: nat)
    ensures Bit(x, k) ==> x >= Pow2(k)
    ensures Xor(x, Pow2(k)) == if Bit(x, k) then x - Pow2(k) else x + Pow2(k)
  {
    if k == 0 {
      XorZero(x / 2);
    } else {
      var h, p := x / 2, Pow2(k - 1);
      XorFlips(h, k - 1);
      XorDouble(x, p);
    }
  }

  /** Whether `x` lies in an even-numbered block of size `n`, by repeated subtraction. */
  predicate EvenBlock(x: nat, n: nat)
    requires n > 0
  {
    x < n || !EvenBlock(x - n, n)
  }

  /** From `x` to the same place in the other block of its pair. */
  function Flip(x: nat, n: nat): (y: nat)
    requires n > 0
    ensures y == x + n || y + n == x
  {
    if EvenBlock(x, n) then x + n else x - n
  }

  lemma {:induction false} EvenBlockQuotient(x: nat, n: nat)
    requires n > 0
    ensures EvenBlock(x, n) <==> (x / n) % 2 == 0
    decreases x
  {
    if x < n {
      DivUnique(x, n, 0, x);
    } else {
      EvenBlockQuotient(x - n, n);
      DivUnique(n, n, 1, 0);
      ModDifference(x, n, n);
    }
  }

  /** Exclusive or with a power of two moves to the neighbouring block of that size. */
  lemma {:induction false} XorIsFlip(x: nat, k: nat)
    ensures Xor(x, Pow2(k)) == Flip(x, Pow2(k))
  {
    XorFlips(x, k);
    BitQuotient(x, k);
    EvenBlockQuotient(x, Pow2(k));
  }

  lemma {:induction false} FlipKeepsMultiple(x: nat, n: nat, m: nat)
    requires n > 0 && m > 0 && Multiple(n, m) && Multiple(x, m)
    ensures Multiple(Flip(x, n), m)
  {
    MultipleSum(x, n, m);
    if x >= n { MultipleSum(x - n, n, m); }
  }

  /** A multiple of `n` is a multiple of `2n` exactly when it starts an even-numbered block. */
  lemma {:induction false} EvenMultiple(x: nat, n: nat)
    requires n > 0 && Multiple(x, n)
    ensures Multiple(x, 2 * n) <==> EvenBlock(x, n)
    decreases x
  {
    if x >= 2 * n {
      assert Multiple(x - n, n) && Multiple(x - n - n, n);
      EvenMultiple(x - 2 * n, n);
      assert EvenBlock(x, n) == !EvenBlock(x - n, n) == EvenBlock(x - n - n, n);
    } else {
      assert x == 0 || Multiple(x - n, n);
      assert x == 0 || x == n;
    }
  }

  lemma {:induction false} BitOfZero(i: nat)
    ensures !Bit(0, i)
  {
    if i > 0 { BitOfZero(i - 1); }
  }

  lemma {:induction false} BitOfPow2(k: nat, i: nat)
    ensures Bit(Pow2(k), i) <==> i == k
  {
    if k == 0 {
      if i > 0 { BitOfZero(i - 1); }
    } else if i > 0 {
      BitOfPow2(k - 1, i - 1);
    }
  }

  lemma {:induction false} BitOfOr(x: nat, y: nat, i: nat)
    ensures Bit(Or(x, y), i) <==> Bit(x, i) || Bit(y, i)
  {
    if x == 0 && y == 0 {
      BitOfZero(i);
    } else if i > 0 {
      BitOfOr(x / 2, y / 2, i - 1);
      assert Or(x, y) / 2 == Or(x / 2, y / 2);
    }
  }

  lemma {:induction false} BitOfAnd(x: nat, y: nat, i: nat)
    ensures Bit(And(x, y), i) <==> Bit(x, i) && Bit(y, i)
  {
    if x == 0 {
      BitOfZero(i);
    } else if i > 0 {
      BitOfAnd(x / 2, y / 2, i - 1);
      assert And(x, y) / 2 == And(x / 2, y / 2);
    }
  }

  lemma {:induction false} BitOfNot(width: nat, x: nat, i: nat)
    requires x < Pow2(width)
    ensures Bit(Not(width, x), i) <==> i < width && !Bit(x, i)
  {
    if width == 0 {
      BitOfZero(i);
    } else {
      assert Not(width, x) / 2 == Not(width - 1, x / 2);
      assert Not(width, x) % 2 == 1 - x % 2;
      if i > 0 { BitOfNot(width - 1, x / 2, i - 1); }
    }
  }

  /** `Pow2(n) - 1` is the mask of the low `n` bits. */
  lemma {:induction false} BitOfMask(n: nat, i: nat)
    ensures Bit(Pow2(n) - 1, i) <==> i < n
  {
    BitOfNot(n, 0, i);
    BitOfZero(i);
  }

  lemma {:induction false} HighBitsClear(x: nat, width: nat, i: nat)
    requires x < Pow2(width) && i >= width
    ensures !Bit(x, i)
  {
    if width == 0 {
      BitOfZero(i);
    } else {
      HighBitsClear(x / 2, width - 1, i - 1);
    }
  }

  lemma {:induction false} OrFits(x: nat, y: nat, width: nat)
    requires x < Pow2(width) && y < Pow2(width)
    ensures Or(x, y) < Pow2(width)
  {
    if width > 0 { OrFits(x / 2, y / 2, width - 1); }
  }

  lemma {:induction false} AndFits(x: nat, y: nat)
    ensures And(x, y) <= x
  {
    if x > 0 { AndFits(x / 2, y / 2); }
  }

  /** A non-zero word has a set bit. */
  lemma {:induction false} ZeroWhenNoBits(x: nat)
    requires forall i: nat :: !Bit(x, i)
    ensures x == 0
  {
    if x > 0 {
      assert !Bit(x, 0);
      forall i: nat ensures !Bit(x / 2, i) { assert !Bit(x, i + 1); }
      ZeroWhenNoBits(x / 2);
    }
  }

  /** The test `x & (1 << k) != 0` reads bit `k`. */
  lemma {:induction false} TestBit(x: nat, k: nat)
    ensures And(x, Pow2(k)) != 0 <==> Bit(x, k)
  {
    BitOfPow2(k, k);
    BitOfAnd(x, Pow2(k), k);
    if And(x, Pow2(k)) == 0 {
      BitOfZero(k);
    } else if !Bit(x, k) {
      forall i: nat ensures !Bit(And(x, Pow2(k)), i) {
        BitOfAnd(x, Pow2(k), i);
        BitOfPow2(k, i);
      }
      ZeroWhenNoBits(And(x, Pow2(k)));
    }
  }

  /** `x | (1 << k)` sets bit `k` and no other, and stays inside the word. */
  lemma {:induction false} SetBit(width: nat, x: nat, k: nat)
    requires x < Pow2(width) && k < width
    ensures Or(x, Pow2(k)) < Pow2(width)
    ensures forall i: nat :: Bit(Or(x, Pow2(k)), i) <==> Bit(x, i) || i == k
  {
    Pow2Order(k, width);
    OrFits(x, Pow2(k), width);
    forall i: nat ensures Bit(Or(x, Pow2(k)), i) <==> Bit(x, i) || i == k {
      BitOfOr(x, Pow2(k), i);
      BitOfPow2(k, i);
    }
  }

  /** `x & !(1 << k)` clears bit `k` and no other, and stays inside the word. */
  lemma {:induction false} ClearBit(width: nat, x: nat, k: nat)
    requires x < Pow2(width) && k < width
    ensures Pow2(k) < Pow2(width)
    ensures And(x, Not(width, Pow2(k))) < Pow2(width)
    ensures forall i: nat :: Bit(And(x, Not(width, Pow2(k))), i) <==> Bit(x, i) && i != k
  {
    Pow2Order(k, width);
    AndFits(x, Not(width, Pow2(k)));
    forall i: nat ensures Bit(And(x, Not(width, Pow2(k))), i) <==> Bit(x, i) && i != k {
      BitOfAnd(x, Not(width, Pow2(k)), i);
      BitOfNot(width, Pow2(k), i);
      BitOfPow2(k, i);
      if i >= width { HighBitsClear(x, width, i); }
    }
  }

  lemma {:induction false} TrailingOnesIsFirstClear(x: nat, i: nat)
    ensures !Bit(x, TrailingOnes(x))
    ensures i < TrailingOnes(x) ==> Bit(x, i)
  {
    if x % 2 == 1 {
      TrailingOnesIsFirstClear(x / 2, if i > 0 then i - 1 else 0);
    }
  }

  // ---- counting ----

  lemma {:induction false} BitsBelowShift(x: nat, n: nat)
    requires n > 0
    ensures BitsBelow(x, n) == x % 2 + BitsBelow(x / 2, n - 1)
  {
    if n > 1 { BitsBelowShift(x, n - 1); }
  }

  lemma {:induction false} BitsBelowZero(n: nat)
    ensures BitsBelow(0, n) == 0
  {
    if n > 0 { BitsBelowZero(n - 1); BitOfZero(n - 1); }
  }

  /** The population count of a word is its number of set bits, position by position. */
  lemma {:induction false} CountOnesCountsBits(x: nat, width: nat)
    requires x < Pow2(width)
    ensures CountOnes(x) == BitsBelow(x, width)
  {
    if x == 0 {
      BitsBelowZero(width);
    } else {
      CountOnesCountsBits(x / 2, width - 1);
      BitsBelowShift(x, width);
    }
  }

  lemma {:induction false} BitsBelowAgree(x: nat, y: nat, n: nat)
    requires forall i: nat :: i < n ==> (Bit(x, i) <==> Bit(y, i))
    ensures BitsBelow(x, n) == BitsBelow(y, n)
  {
    if n > 0 { BitsBelowAgree(x, y, n - 1); }
  }

  /** Masking with `(1 << n) - 1` before counting counts exactly the low `n` bits. */
  lemma {:induction false} MaskedCount(x: nat, n: nat)
    ensures CountOnes(And(x, Pow2(n) - 1)) == BitsBelow(x, n)
  {
    var m := And(x, Pow2(n) - 1);
    forall i: nat ensures Bit(m, i) <==> Bit(x, i) && i < n {
      BitOfAnd(x, Pow2(n) - 1, i);
      BitOfMask(n, i);
    }
    FitsWhenHighBitsClear(m, n);
    CountOnesCountsBits(m, n);
    BitsBelowAgree(m, x, n);
  }

  lemma {:induction false} FitsWhenHighBitsClear(x: nat, width: nat)
    requires forall i: nat :: Bit(x, i) ==> i < width
    ensures x < Pow2(width)
  {
    if width == 0 {
      ZeroWhenNoBits(x);
    } else {
      forall i: nat | Bit(x / 2, i) ensures i < width - 1 { assert Bit(x, i + 1); }
      FitsWhenHighBitsClear(x / 2, width - 1);
    }
  }
}
