/** Powers of two and the bitwise operators of C on non-negative integers. */
module Bits {

  function Pow2(n: nat): (p: nat)
    ensures p >= 1
  {
    if n == 0 then 1 else 2 * Pow2(n - 1)
  }

  lemma Pow2Of8()
    ensures Pow2(8) == 256
  {
  }

  /** `a & b`, bit by bit from the low end. */
  function And(a: nat, b: nat): (r: nat)
    ensures r <= a && r <= b
  {
    if a == 0 || b == 0 then 0
    else (if a % 2 == 1 && b % 2 == 1 then 1 else 0) + 2 * And(a / 2, b / 2)
  }

  /** `a | b`, bit by bit from the low end. */
  function Or(a: nat, b: nat): (r: nat)
    ensures r >= a && r >= b
  {
    if a == 0 then b else if b == 0 then a
    else (if a % 2 == 1 || b % 2 == 1 then 1 else 0) + 2 * Or(a / 2, b / 2)
  }

  /** The quotient and remainder of a division are determined by their bounds. */
  lemma DivModUnique(x: int, d: int, q: int, r: int)
    requires d > 0 && x == d * q + r && 0 <= r < d
    ensures x / d == q && x % d == r
  {
    var q', r' := x / d, x % d;
    assert x == d * q' + r' && 0 <= r' < d;
    MulDistributes(d, q, q');
    if q > q' { MulAtLeast(d, q - q'); }
    if q < q' { MulAtLeast(d, q' - q); }
  }

  lemma MulAtLeast(d: int, k: int)
    requires d > 0 && k >= 1
    ensures d * k >= d
  {
  }

  lemma MulDistributes(d: int, q: int, q': int)
    ensures d * (q - q') == d * q - d * q'
    ensures d * (q' - q) == d * q' - d * q
  {
  }

  lemma MulMod(q: int, d: int)
    requires d > 0
    ensures (d * q) % d == 0 && (q * d) % d == 0 && (q * d) / d == q
  {
    DivModUnique(d * q, d, q, 0);
  }

  lemma AddMulMod(x: int, q: int, d: int)
    requires d > 0
    ensures (x + d * q) % d == x % d && (x + d * q) / d == x / d + q
  {
    assert x == d * (x / d) + x % d;
    assert d * (x / d + q) == d * (x / d) + d * q;
    DivModUnique(x + d * q, d, x / d + q, x % d);
  }

  lemma DivModSplit(q: int, d: int, r: int)
    requires 0 <= r < d
    ensures (q * d + r) % d == r && (q * d + r) / d == q
  {
    DivModUnique(q * d + r, d, q, r);
  }

  lemma {:induction false} Pow2Add(m: nat, n: nat)
    ensures Pow2(m + n) == Pow2(m) * Pow2(n)
  {
    if m == 0 {
    } else {
      Pow2Add(m - 1, n);
      assert 2 * (Pow2(m - 1) * Pow2(n)) == 2 * Pow2(m - 1) * Pow2(n);
    }
  }

  lemma {:induction false} Pow2Mono(m: nat, n: nat)
    requires m <= n
    ensures Pow2(m) <= Pow2(n)
    decreases n - m
  {
    if m < n { Pow2Mono(m + 1, n); }
  }

  /** Halving commutes with taking a remainder by an even modulus. */
  lemma ModDouble(a: nat, p: nat)
    requires p > 0
    ensures a % (2 * p) == a % 2 + 2 * ((a / 2) % p)
    ensures a / (2 * p) == (a / 2) / p
  {
    var h, r := a / 2, a % 2;
    var q, s := h / p, h % p;
    assert h == p * q + s;
    assert a == (2 * p) * q + (2 * s + r) by {
      assert (2 * p) * q == 2 * (p * q);
    }
    DivModUnique(a, 2 * p, q, 2 * s + r);
  }

  /** Masking with `k` low ones is the remainder modulo `2^k`. */
  lemma {:induction false} AndLowOnes(a: nat, k: nat)
    ensures And(a, Pow2(k) - 1) == a % Pow2(k)
  {
    if k == 0 {
    } else {
      var p := Pow2(k - 1);
      ModDouble(a, p);
      AndLowOnes(a / 2, k - 1);
      assert (Pow2(k) - 1) % 2 == 1 && (Pow2(k) - 1) / 2 == p - 1;
      if a != 0 && p == 1 { assert And(a / 2, 0) == 0; }
    }
  }

  lemma AndOnesKeeps(a: nat, k: nat, p: nat)
    requires p == Pow2(k) && a < p
    ensures And(a, p - 1) == a
  {
    AndLowOnes(a, k);
    DivModUnique(a, p, 0, a);
  }

  lemma OrHalves(a: nat, b: nat)
    requires a != 0 && b != 0
    ensures Or(a, b) == (if a % 2 == 1 || b % 2 == 1 then 1 else 0) + 2 * Or(a / 2, b / 2)
  {
  }

  /** The next bit above `k` low ones. */
  lemma {:induction false} OrNextBit(k: nat)
    ensures Or(Pow2(k) - 1, Pow2(k)) == Pow2(k + 1) - 1
  {
    if k != 0 {
      var p := Pow2(k - 1);
      OrNextBit(k - 1);
      OrHalves(2 * p - 1, 2 * p);
      assert (2 * p - 1) / 2 == p - 1 && (2 * p) / 2 == p;
    }
  }

  /** A number that a divisor divides is the divisor times some quotient. */
  lemma Quotient(v: nat, p: nat) returns (q: nat)
    requires p > 0 && v % p == 0
    ensures v == p * q
  {
    q := v / p;
  }

  /** `a | b` and `a & b` together hold the bits of `a` and `b` together. */
  lemma {:induction false} OrPlusAnd(a: nat, b: nat)
    ensures Or(a, b) + And(a, b) == a + b
  {
    if a != 0 && b != 0 { OrPlusAnd(a / 2, b / 2); }
  }

  lemma AndHalves(a: nat, b: nat)
    ensures And(a, b) == (if a % 2 == 1 && b % 2 == 1 then 1 else 0) + 2 * And(a / 2, b / 2)
  {
  }

  /** The bits of `a` under a mask and under its complement make up `a`. */
  lemma {:induction false} AndComplement(a: nat, m: nat, k: nat)
    requires a < Pow2(k) && m < Pow2(k)
    ensures And(a, m) + And(a, Pow2(k) - 1 - m) == a
  {
    if k == 0 || a == 0 {
    } else {
      var c := Pow2(k) - 1 - m;
      assert c / 2 == Pow2(k - 1) - 1 - m / 2 && c % 2 == 1 - m % 2;
      AndComplement(a / 2, m / 2, k - 1);
      AndHalves(a, m);
      AndHalves(a, c);
    }
  }

  /** An or that stays below `2^k`. */
  lemma {:induction false} OrBound(a: nat, b: nat, k: nat)
    requires a < Pow2(k) && b < Pow2(k)
    ensures Or(a, b) < Pow2(k)
  {
    if k != 0 && a != 0 && b != 0 { OrBound(a / 2, b / 2, k - 1); }
  }

  /** Disjoint bits: a multiple of `2^k` and a number below `2^k`. */
  lemma {:induction false} AndDisjoint(hi: nat, lo: nat, k: nat)
    requires hi % Pow2(k) == 0 && lo < Pow2(k)
    ensures And(hi, lo) == 0
  {
    if k != 0 && hi != 0 && lo != 0 {
      ModDouble(hi, Pow2(k - 1));
      AndDisjoint(hi / 2, lo / 2, k - 1);
    }
  }
}
