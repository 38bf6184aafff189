/** Arithmetic on unbounded naturals that stands in for the bitwise
    operators and powers of two used by the prefix code. */
module Bits {

  /** `2^32` and `2^128`, written out so that no literal power is unfolded. */
  const Two32: nat := 0x1_0000_0000
  const Two128: nat := 0x1_0000_0000_0000_0000_0000_0000_0000_0000

  function Pow2(n: nat): (r: nat)
    ensures r >= 1
  {
    if n == 0 then 1 else 2 * Pow2(n - 1)
  }

  /** Bitwise `|` on non-negative integers. */
  function Or(a: nat, b: nat): nat
    decreases a + b
  {
    if a == 0 then b
    else if b == 0 then a
    else 2 * Or(a / 2, b / 2) + (if a % 2 == 1 || b % 2 == 1 then 1 else 0)
  }

  /** Bitwise `&` on non-negative integers. */
  function And(a: nat, b: nat): nat
    decreases a + b
  {
    if a == 0 || b == 0 then 0
    else 2 * And(a / 2, b / 2) + (if a % 2 == 1 && b % 2 == 1 then 1 else 0)
  }

  lemma Pow2Add(m: nat, n: nat)
    ensures Pow2(m + n) == Pow2(m) * Pow2(n)
  {
    if m > 0 {
      Pow2Add(m - 1, n);
    }
  }

  lemma Pow2Monotone(m: nat, n: nat)
    requires m <= n
    ensures Pow2(m) <= Pow2(n)
  {
    if m < n {
      Pow2Monotone(m, n - 1);
    }
  }

  lemma Pow2Of8()
    ensures Pow2(8) == 0x100
  {
    assert Pow2(2) == 4;
    Pow2Add(2, 2);
    Pow2Add(4, 4);
  }

  lemma Pow2Of16()
    ensures Pow2(16) == 0x1_0000
  {
    Pow2Of8();
    Pow2Add(8, 8);
  }

  lemma Pow2Of32()
    ensures Pow2(32) == 0x1_0000_0000
  {
    Pow2Of16();
    Pow2Add(16, 16);
  }

  lemma Pow2Of48()
    ensures Pow2(48) == 0x1_0000_0000_0000
  {
    Pow2Of16();
    Pow2Of32();
    Pow2Add(32, 16);
  }

  lemma Pow2Of96()
    ensures Pow2(96) == 0x1_0000_0000_0000_0000_0000_0000
  {
    Pow2Of48();
    Pow2Add(48, 48);
  }

  lemma Pow2Of128()
    ensures Pow2(128) == 0x1_0000_0000_0000_0000_0000_0000_0000_0000
  {
    Pow2Of32();
    Pow2Of96();
    Pow2Add(96, 32);
  }

  lemma Pow2Values()
    ensures Pow2(16) == 0x1_0000
    ensures Pow2(32) == 0x1_0000_0000
    ensures Pow2(48) == 0x1_0000_0000_0000
    ensures Pow2(96) == 0x1_0000_0000_0000_0000_0000_0000
    ensures Pow2(128) == 0x1_0000_0000_0000_0000_0000_0000_0000_0000
  {
    Pow2Of16();
    Pow2Of32();
    Pow2Of48();
    Pow2Of96();
    Pow2Of128();
  }

  lemma MulNonneg(a: int, b: int)
    requires a >= 0 && b >= 0
    ensures a * b >= 0
  {
  }

  /** A non-zero multiple of a positive `m` is at least `m` away from 0. */
  lemma MulSign(d: int, m: int)
    requires m > 0
    ensures d >= 1 ==> d * m >= m
    ensures d <= -1 ==> d * m <= -m
  {
    if d >= 1 {
      MulNonneg(d - 1, m);
      assert d * m == (d - 1) * m + m;
    } else if d <= -1 {
      MulNonneg(-d - 1, m);
      assert d * m == -((-d - 1) * m) - m;
    }
  }

  /** Euclidean division is determined by any quotient/remainder pair. */
  lemma DivModUnique(x: int, m: int, q: int, r: int)
    requires m > 0 && 0 <= r < m && x == q * m + r
    ensures x / m == q && x % m == r
  {
    var d := q - x / m;
    assert x == (x / m) * m + x % m;
    assert d * m == q * m - (x / m) * m;
    MulSign(d, m);
  }

  /** Dividing a natural by a positive number leaves a natural quotient and
      a remainder no larger than the dividend. */
  lemma DivNonneg(x: int, p: int)
    requires x >= 0 && p > 0
    ensures x / p >= 0 && x % p <= x
  {
    assert x == (x / p) * p + x % p;
    MulSign(x / p, p);
    MulNonneg(x / p, p);
  }

  /** `x % 2p` splits into the low bit and the remainder of `x / 2` by `p`. */
  lemma ModDouble(x: nat, p: nat)
    requires p > 0
    ensures x % (2 * p) == 2 * ((x / 2) % p) + x % 2
  {
    var h := x / 2;
    var q := h / p;
    var r := h % p;
    assert h == q * p + r;
    assert x == 2 * h + x % 2;
    assert x == q * (2 * p) + (2 * r + x % 2);
    DivModUnique(x, 2 * p, q, 2 * r + x % 2);
  }

  /** `x % 2^(k+1)` splits into the low bit and the remaining `k` bits of `x / 2`. */
  lemma ModPow2Step(x: nat, k: nat)
    ensures x % Pow2(k + 1) == 2 * ((x / 2) % Pow2(k)) + x % 2
  {
    ModDouble(x, Pow2(k));
  }

  /** When the low `k` bits of `a` are zero and `b` fits in `k` bits, `a | b` is `a + b`. */
  lemma {:induction false} OrDisjointIsSum(a: nat, b: nat, k: nat)
    requires a % Pow2(k) == 0
    requires b < Pow2(k)
    ensures Or(a, b) == a + b
  {
    if k == 0 {
      assert b == 0;
    } else if a != 0 && b != 0 {
      ModPow2Step(a, k - 1);
      assert (a / 2) % Pow2(k - 1) == 0;
      assert a % 2 == 0;
      OrDisjointIsSum(a / 2, b / 2, k - 1);
    }
  }

  /** Masking with `2^k - 1` keeps exactly the low `k` bits. */
  lemma {:induction false} AndLowMask(x: nat, k: nat)
    ensures And(x, Pow2(k) - 1) == x % Pow2(k)
  {
    if k == 0 {
      DivModUnique(x, 1, x, 0);
    } else if x == 0 {
      DivModUnique(0, Pow2(k), 0, 0);
    } else {
      var h := Pow2(k - 1) - 1;
      assert Pow2(k) == 2 * h + 2;
      AndLowMask(x / 2, k - 1);
      AndMaskStep(x, h);
    }
  }

  /** Widening a mask of low bits by one bit widens the remainder by one bit. */
  lemma AndMaskStep(x: nat, h: nat)
    requires x != 0
    requires And(x / 2, h) == (x / 2) % (h + 1)
    ensures And(x, 2 * h + 1) == x % (2 * h + 2)
  {
    AndStep(x, h);
    ModDouble(x, h + 1);
    Combine(And(x, 2 * h + 1), And(x / 2, h), x % (2 * h + 2), (x / 2) % (h + 1), x % 2);
  }

  /** Two quantities built the same way from equal halves are equal. */
  lemma Combine(a1: int, a0: int, m1: int, m0: int, b: int)
    requires a1 == 2 * a0 + b && m1 == 2 * m0 + b && a0 == m0
    ensures a1 == m1
  {
  }

  /** One step of `&` against a mask whose low bit is set. */
  lemma AndStep(x: nat, h: nat)
    requires x != 0
    ensures And(x, 2 * h + 1) == 2 * And(x / 2, h) + x % 2
  {
    DivModUnique(2 * h + 1, 2, h, 1);
  }

  /** A multiple of `p` is its quotient times `p`. */
  lemma MultipleIsProduct(a: int, p: int)
    requires p > 0 && a % p == 0
    ensures a == (a / p) * p
  {
  }

  /** `c * p` is a multiple of `p` with quotient `c`. */
  lemma ProductIsMultiple(c: int, p: int)
    requires p > 0
    ensures (c * p) % p == 0 && (c * p) / p == c
  {
    DivModUnique(c * p, p, c, 0);
  }

  /** A multiple of `p * q` is a multiple of `p`. */
  lemma MultipleOfMultiple(a: int, p: int, q: int)
    requires p > 0 && q > 0 && a % (p * q) == 0
    ensures a % p == 0
  {
    MulSign(q, p);
    var c := a / (p * q);
    MultipleIsProduct(a, p * q);
    assert a == (c * q) * p;
    ProductIsMultiple(c * q, p);
  }

  /** Sums of multiples of `p` are multiples of `p`. */
  lemma MultipleAdd(a: int, b: int, p: int)
    requires p > 0 && a % p == 0 && b % p == 0
    ensures (a + b) % p == 0
  {
    MultipleIsProduct(a, p);
    MultipleIsProduct(b, p);
    assert a + b == (a / p + b / p) * p;
    ProductIsMultiple(a / p + b / p, p);
  }

  /** Differences of multiples of `p` are multiples of `p`. */
  lemma MultipleSub(a: int, b: int, p: int)
    requires p > 0 && a % p == 0 && b % p == 0
    ensures (a - b) % p == 0
  {
    MultipleIsProduct(a, p);
    MultipleIsProduct(b, p);
    assert a - b == (a / p - b / p) * p;
    ProductIsMultiple(a / p - b / p, p);
  }

  /** Two distinct multiples of `p` are at least `p` apart. */
  lemma MultipleGap(a: int, b: int, p: int)
    requires p > 0 && a < b && a % p == 0 && b % p == 0
    ensures a + p <= b
  {
    MultipleSub(b, a, p);
    var d := b - a;
    MultipleIsProduct(d, p);
    MulSign(d / p, p);
  }

  /** Facts about `x - x % p`, the largest multiple of `p` not above `x`. */
  lemma RoundDown(x: int, p: int)
    requires x >= 0 && p > 0
    ensures 0 <= x % p <= x
    ensures (x - x % p) % p == 0
    ensures x < x - x % p + p
  {
    DivNonneg(x, p);
    assert x - x % p == (x / p) * p;
    ProductIsMultiple(x / p, p);
  }
}
