/** Bitwise operations on the unsigned reading of machine words. */
module Bits {
  import Values

  function Pow2(k: nat): (p: nat)
    ensures p >= 1
  {
    if k == 0 then 1 else 2 * Pow2(k - 1)
  }

  function BitAnd(a: nat, b: nat): nat
    decreases a
  {
    if a == 0 || b == 0 then 0
    else 2 * BitAnd(a / 2, b / 2) + (if a % 2 == 1 && b % 2 == 1 then 1 else 0)
  }

  function BitOr(a: nat, b: nat): nat
    decreases a
  {
    if a == 0 then b
    else if b == 0 then a
    else 2 * BitOr(a / 2, b / 2) + (if a % 2 == 1 || b % 2 == 1 then 1 else 0)
  }

  lemma DivModDouble(x: nat, m: nat)
    requires m >= 1
    ensures x % (2 * m) == 2 * (x / 2 % m) + x % 2 && x / (2 * m) == x / 2 / m
  {
    var h := x / 2;
    var q, r := h / m, 2 * (h % m) + x % 2;
    assert h == m * q + h % m;
    assert (2 * m) * q == 2 * (m * q);
    Values.QuotientIs(x, 2 * m, q, r);
  }

  /** The number the `k` low bits of `x` stand for. */
  function LowBits(x: nat, k: nat): nat
    decreases k
  {
    if k == 0 then 0 else 2 * LowBits(x / 2, k - 1) + x % 2
  }

  /** Dropping the `n` low bits. */
  function ShiftRight(x: nat, n: nat): (r: nat)
    ensures r <= x
    decreases n
  {
    if n == 0 then x else ShiftRight(x / 2, n - 1)
  }

  lemma {:induction false} LowBitsIsMod(x: nat, k: nat)
    ensures LowBits(x, k) == x % Pow2(k)
    decreases k
  {
    if k == 0 {
      Values.QuotientIs(x, 1, x, 0);
    } else {
      LowBitsIsMod(x / 2, k - 1);
      DivModDouble(x, Pow2(k - 1));
    }
  }

  lemma {:induction false} ShiftIsDiv(x: nat, n: nat)
    ensures ShiftRight(x, n) == x / Pow2(n)
    decreases n
  {
    if n == 0 {
      Values.QuotientIs(x, 1, x, 0);
    } else {
      ShiftIsDiv(x / 2, n - 1);
      DivModDouble(x, Pow2(n - 1));
    }
  }

  /** Masking with `2^k - 1` keeps the `k` low bits. */
  lemma {:induction false} AndLowMask(x: nat, k: nat)
    ensures BitAnd(x, Pow2(k) - 1) == LowBits(x, k)
    decreases k
  {
    if k > 0 {
      var m := Pow2(k) - 1;
      assert m == 2 * (Pow2(k - 1) - 1) + 1 && m / 2 == Pow2(k - 1) - 1 && m % 2 == 1;
      AndLowMask(x / 2, k - 1);
      LowBitsOfZero(k - 1);
    }
  }

  lemma {:induction false} LowBitsOfZero(k: nat)
    ensures LowBits(0, k) == 0
    decreases k
  {
    if k > 0 { LowBitsOfZero(k - 1); }
  }

  lemma {:induction false} Pow2Sum(a: nat, b: nat)
    ensures Pow2(a + b) == Pow2(a) * Pow2(b)
    decreases a
  {
    if a > 0 { Pow2Sum(a - 1, b); }
  }

  lemma {:induction false} Pow2Mono(a: nat, b: nat)
    requires a <= b
    ensures Pow2(a) <= Pow2(b) && (a < b ==> 2 * Pow2(a) <= Pow2(b))
    decreases b
  {
    if a < b { Pow2Mono(a, b - 1); }
  }

  function Bit(x: nat, i: nat): nat
    decreases i
  {
    if i == 0 then x % 2 else Bit(x / 2, i - 1)
  }

  /** Both operations act bit by bit. */
  lemma {:induction false} BitByBit(a: nat, b: nat, i: nat)
    ensures Bit(BitAnd(a, b), i) == (if Bit(a, i) == 1 && Bit(b, i) == 1 then 1 else 0)
    ensures Bit(BitOr(a, b), i) == (if Bit(a, i) == 1 || Bit(b, i) == 1 then 1 else 0)
    decreases i
  {
    ZeroBit(i);
    BitRange(a, i); BitRange(b, i);
    if i > 0 {
      BitByBit(a / 2, b / 2, i - 1);
    }
  }

  lemma {:induction false} ZeroBit(i: nat)
    ensures Bit(0, i) == 0
    decreases i
  {
    if i > 0 { ZeroBit(i - 1); }
  }

  lemma {:induction false} BitRange(x: nat, i: nat)
    ensures Bit(x, i) == 0 || Bit(x, i) == 1
    decreases i
  {
    if i > 0 { BitRange(x / 2, i - 1); }
  }

  lemma {:induction false} AndCommutes(a: nat, b: nat)
    ensures BitAnd(a, b) == BitAnd(b, a)
    decreases a
  {
    if a != 0 && b != 0 { AndCommutes(a / 2, b / 2); }
  }

  lemma {:induction false} OrCommutes(a: nat, b: nat)
    ensures BitOr(a, b) == BitOr(b, a)
    decreases a
  {
    if a != 0 && b != 0 { OrCommutes(a / 2, b / 2); }
  }

  lemma {:induction false} AndSelf(a: nat)
    ensures BitAnd(a, a) == a
    decreases a
  {
    if a != 0 { AndSelf(a / 2); }
  }

  /** `m & (m + 1)` is zero exactly for the numbers `2^k - 1`. */
  lemma {:induction false} LowRun(m: nat) returns (k: nat)
    ensures BitAnd(m, m + 1) == 0 ==> m == Pow2(k) - 1
    decreases m
  {
    k := 0;
    if m > 0 {
      if m % 2 == 0 {
        assert (m + 1) / 2 == m / 2;
        AndSelf(m / 2);
      } else {
        assert (m + 1) / 2 == m / 2 + 1 && (m + 1) % 2 == 0;
        k := LowRun(m / 2);
        k := k + 1;
      }
    }
  }

  lemma {:induction false} LowRunAnd(k: nat)
    ensures BitAnd(Pow2(k) - 1, Pow2(k)) == 0
    decreases k
  {
    if k > 0 {
      assert (Pow2(k) - 1) / 2 == Pow2(k - 1) - 1 && Pow2(k) / 2 == Pow2(k - 1) && Pow2(k) % 2 == 0;
      LowRunAnd(k - 1);
    }
  }

  /** Or-ing with `2^k - 1` changes nothing exactly below `2^k`. */
  lemma {:induction false} OrLowMask(x: nat, k: nat)
    ensures BitOr(x, Pow2(k) - 1) == Pow2(k) - 1 <==> x < Pow2(k)
    decreases k
  {
    if k > 0 {
      var m := Pow2(k) - 1;
      assert m / 2 == Pow2(k - 1) - 1 && m % 2 == 1;
      OrLowMask(x / 2, k - 1);
    }
  }

  /** Or-ing with the bits `k` to `w - 1` changes nothing exactly when the low
      `k` bits are clear. */
  lemma {:induction false} OrHighMask(x: nat, m: nat, k: nat, w: nat)
    requires k <= w && x < Pow2(w) && m == Pow2(w) - Pow2(k)
    ensures BitOr(x, m) == m <==> LowBits(x, k) == 0
    decreases k
  {
    if k == 0 {
      OrLowMask(x, w);
      assert Pow2(0) == 1;
    } else {
      Pow2Mono(k - 1, w - 1);
      var h := Pow2(w - 1) - Pow2(k - 1);
      assert m == 2 * h;
      OrHighMask(x / 2, h, k - 1, w - 1);
      OrEven(x, h);
    }
  }

  lemma OrEven(x: nat, h: nat)
    ensures BitOr(x, 2 * h) == 2 * BitOr(x / 2, h) + x % 2
  {
    assert 2 * h / 2 == h && 2 * h % 2 == 0;
  }
}
