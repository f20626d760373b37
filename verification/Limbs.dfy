/**
  Numbers as sequences of 32-bit limbs, lowest first, and the arithmetic needed
  to reason about them (src/arith_uint256.h).
 */
module Limbs {

  const BASE := 0x1_0000_0000
  const WIDTH := 8
  const BITS := 256

  function Pow2(n: nat): (p: int)
    ensures p > 0
  {
    if n == 0 then 1 else 2 * Pow2(n - 1)
  }

  predicate IsLimb(x: int) {
    0 <= x < BASE
  }

  predicate AllLimbs(s: seq<int>) {
    forall i | 0 <= i < |s| :: IsLimb(s[i])
  }

  /** The limbs of a 256-bit number. */
  predicate IsWide(s: seq<int>) {
    |s| == WIDTH && AllLimbs(s)
  }

  /** The number that the first `n` limbs stand for. */
  function Val(s: seq<int>, n: nat): int
    requires n <= |s|
  {
    if n == 0 then 0 else Val(s, n - 1) + s[n - 1] * Pow2(32 * (n - 1))
  }

  function Value(s: seq<int>): int {
    Val(s, |s|)
  }

  // ----- powers of two

  lemma {:induction false} Pow2Add(m: nat, n: nat)
    ensures Pow2(m + n) == Pow2(m) * Pow2(n)
  {
    if m > 0 {
      Pow2Add(m - 1, n);
      MulAssoc(2, Pow2(m - 1), Pow2(n));
    }
  }

  lemma {:induction false} MulAssoc(x: int, y: int, z: int)
    ensures x * y * z == x * (y * z)
  {
  }

  lemma {:induction false} Double(x: int, y: int)
    ensures x * (2 * y) == 2 * (x * y)
  {
  }

  lemma {:induction false} Pow2Limb(i: nat)
    ensures Pow2(32 * (i + 1)) == Pow2(32 * i) * BASE
  {
    Pow2Add(32 * i, 32);
    Pow2Is32();
  }

  lemma {:induction false} Pow2Is32()
    ensures Pow2(32) == BASE
  {
    assert Pow2(8) == 256;
    Pow2Add(8, 8);
    Pow2Add(16, 16);
  }

  lemma {:induction false} Pow2Monotone(m: nat, n: nat)
    requires m <= n
    ensures Pow2(m) <= Pow2(n)
  {
    if m < n {
      Pow2Monotone(m, n - 1);
    }
  }

  // ----- products and remainders

  lemma {:induction false} Distribute(x: int, y: int, z: int)
    ensures (x + y) * z == x * z + y * z
  {
  }

  lemma {:induction false} ProductMonotone(x: int, y: int, z: int)
    requires x <= y && z >= 0
    ensures x * z <= y * z
  {
    assert (y - x) * z >= 0;
    Distribute(x, y - x, z);
  }

  lemma {:induction false} DivMod(x: int, t: int)
    requires t > 0
    ensures x == (x / t) * t + x % t && 0 <= x % t < t
  {
  }

  /** Writing a number as quotient and remainder can be done in one way only. */
  lemma {:induction false} DivModUnique(a: int, d: int, q: int, r: int)
    requires d > 0 && 0 <= r < d && a == q * d + r
    ensures a / d == q && a % d == r
  {
    var q', r' := a / d, a % d;
    assert a == q' * d + r' && 0 <= r' < d;
    if q < q' {
      ProductMonotone(q + 1, q', d);
      Distribute(q, 1, d);
    } else if q' < q {
      ProductMonotone(q' + 1, q, d);
      Distribute(q', 1, d);
    }
  }

  lemma {:induction false} QuotientBelow(x: int, t: int, u: int)
    requires 0 <= x < t * u && t > 0 && u > 0
    ensures 0 <= x / t < u
  {
    var h := x / t;
    assert x == t * h + x % t;
    if h >= u {
      ProductMonotone(u, h, t);
      assert false;
    }
  }

  // ----- values

  lemma {:induction false} ValBound(s: seq<int>, n: nat)
    requires n <= |s| && AllLimbs(s)
    ensures 0 <= Val(s, n) < Pow2(32 * n)
  {
    if n > 0 {
      ValBound(s, n - 1);
      var p := Pow2(32 * (n - 1));
      Pow2Limb(n - 1);
      assert IsLimb(s[n - 1]);
      ProductMonotone(0, s[n - 1], p);
      ProductMonotone(s[n - 1] + 1, BASE, p);
      Distribute(s[n - 1], 1, p);
    }
  }

  lemma {:induction false} ValSame(s: seq<int>, t: seq<int>, n: nat)
    requires n <= |s| && n <= |t| && forall i | 0 <= i < n :: s[i] == t[i]
    ensures Val(s, n) == Val(t, n)
  {
    if n > 0 {
      ValSame(s, t, n - 1);
    }
  }

  lemma {:induction false} ValUpdate(s: seq<int>, n: nat, i: nat, x: int)
    requires i < n <= |s|
    ensures Val(s[i := x], n) == Val(s, n) + (x - s[i]) * Pow2(32 * i)
  {
    if i == n - 1 {
      ValSame(s, s[i := x], n - 1);
      Distribute(x - s[i], s[i], Pow2(32 * i));
    } else {
      ValUpdate(s, n - 1, i, x);
    }
  }

  lemma {:induction false} ValZero(s: seq<int>, n: nat)
    requires n <= |s| && forall i | 0 <= i < n :: s[i] == 0
    ensures Val(s, n) == 0
  {
    if n > 0 {
      ValZero(s, n - 1);
    }
  }

  /** A digit and its carry in place `i`. */
  lemma {:induction false} CarryStep(i: nat, n: int, lo: int, hi: int)
    requires n == lo + hi * BASE
    ensures lo * Pow2(32 * i) + hi * Pow2(32 * (i + 1)) == n * Pow2(32 * i)
  {
    var p := Pow2(32 * i);
    Pow2Limb(i);
    assert hi * (p * BASE) == (hi * BASE) * p;
    Distribute(lo, hi * BASE, p);
  }

  // ----- bitwise or

  function Or(x: nat, y: nat): nat
    decreases x + y
  {
    if x == 0 && y == 0 then 0 else 2 * Or(x / 2, y / 2) + if x % 2 == 1 || y % 2 == 1 then 1 else 0
  }

  lemma {:induction false} OrZero(x: nat)
    ensures Or(x, 0) == x && Or(0, x) == x
  {
    if x > 0 {
      OrZero(x / 2);
    }
  }

  /** The or of numbers without a common bit is their sum. */
  lemma {:induction false} OrIsSum(q: nat, y: nat, s: nat)
    requires y < Pow2(s)
    ensures Or(q * Pow2(s), y) == q * Pow2(s) + y
    ensures Or(y, q * Pow2(s)) == q * Pow2(s) + y
  {
    if s == 0 {
      OrZero(q);
    } else {
      OrIsSum(q, y / 2, s - 1);
      Double(q, Pow2(s - 1));
    }
  }
}
