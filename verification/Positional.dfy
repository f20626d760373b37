/**
  Positional numbers: digits, values, and how many digits of one base hold the
  numbers of another.
 */
module Positional {
  import opened Limbs

  function Pow(b: nat, n: nat): (p: nat)
    ensures b > 0 ==> p > 0
  {
    if n == 0 then 1 else b * Pow(b, n - 1)
  }

  predicate IsDigits(d: seq<nat>, b: nat) {
    forall i | 0 <= i < |d| :: d[i] < b
  }

  /** The value of the first `n` digits, the highest first. */
  function Num(d: seq<nat>, b: nat, n: nat): nat
    requires n <= |d|
  {
    if n == 0 then 0 else Num(d, b, n - 1) * b + d[n - 1]
  }

  /** The value of the last `n` digits. */
  function Low(d: seq<nat>, b: nat, n: nat): nat
    requires n <= |d|
  {
    if n == 0 then 0 else Low(d, b, n - 1) + d[|d| - n] * Pow(b, n - 1)
  }

  /** The digits of a number, without leading zeros. */
  function Digits(v: nat, b: nat): (d: seq<nat>)
    requires b >= 2
    ensures IsDigits(d, b) && (|d| > 0 ==> d[0] != 0)
  {
    if v == 0 then [] else Digits(v / b, b) + [v % b]
  }

  function Zeros(n: nat): (d: seq<nat>)
    ensures |d| == n && forall i | 0 <= i < n :: d[i] == 0
  {
    seq(n, _ => 0)
  }

  /** The number of zeros at the front. */
  function Leading(d: seq<nat>, k: nat): (z: nat)
    requires k <= |d| && forall i | 0 <= i < k :: d[i] == 0
    ensures z <= |d| && (forall i | 0 <= i < z :: d[i] == 0) && (z < |d| ==> d[z] != 0)
    decreases |d| - k
  {
    if k < |d| && d[k] == 0 then Leading(d, k + 1) else k
  }

  // ----- powers

  lemma {:induction false} PowAdd(b: nat, m: nat, n: nat)
    ensures Pow(b, m + n) == Pow(b, m) * Pow(b, n)
  {
    if m > 0 {
      PowAdd(b, m - 1, n);
      MulAssoc(b, Pow(b, m - 1), Pow(b, n));
    }
  }

  lemma {:induction false} PowPow(b: nat, m: nat, n: nat)
    ensures Pow(Pow(b, m), n) == Pow(b, m * n)
  {
    if n > 0 {
      PowPow(b, m, n - 1);
      PowAdd(b, m, m * (n - 1));
      assert m + m * (n - 1) == m * n;
    }
  }

  lemma {:induction false} PowMonotone(b: nat, m: nat, n: nat)
    requires b > 0 && m <= n
    ensures Pow(b, m) <= Pow(b, n)
  {
    if m < n {
      PowMonotone(b, m, n - 1);
      ProductMonotone(1, b, Pow(b, n - 1));
    }
  }

  lemma {:induction false} BaseMonotone(x: nat, y: nat, n: nat)
    requires x <= y
    ensures Pow(x, n) <= Pow(y, n)
  {
    if n > 0 {
      BaseMonotone(x, y, n - 1);
      ProductMonotone(x, y, Pow(x, n - 1));
      ProductMonotone(Pow(x, n - 1), Pow(y, n - 1), y);
    }
  }

  lemma {:induction false} BaseStrict(x: nat, y: nat, n: nat)
    requires x < y && n > 0
    ensures Pow(x, n) < Pow(y, n)
  {
    BaseMonotone(x, y, n - 1);
    ProductMonotone(Pow(x, n - 1), Pow(y, n - 1), x);
    ProductMonotone(x + 1, y, Pow(y, n - 1));
    Distribute(x, 1, Pow(y, n - 1));
  }

  lemma {:induction false} PowSwap(a: nat, n: nat, p: nat)
    ensures Pow(Pow(a, n), p) == Pow(Pow(a, p), n)
  {
    PowPow(a, n, p);
    PowPow(a, p, n);
    Commute(n, p);
  }

  lemma {:induction false} PowPowMonotone(b: nat, q: nat, n: nat, s: nat, p: nat)
    requires b > 0 && q * n <= s * p
    ensures Pow(Pow(b, q), n) <= Pow(Pow(b, s), p)
  {
    PowPow(b, q, n);
    PowPow(b, s, p);
    PowMonotone(b, q * n, s * p);
  }

  lemma {:induction false} RoomPowers(a: nat, b: nat, p: nat, q: nat, n: nat, s: nat)
    requires a > 0 && b > 0 && Pow(a, p) <= Pow(b, q) && q * n <= s * p
    ensures Pow(Pow(a, n), p) <= Pow(Pow(b, s), p)
  {
    PowSwap(a, n, p);
    BaseMonotone(Pow(a, p), Pow(b, q), n);
    PowPowMonotone(b, q, n, s, p);
  }

  lemma {:induction false} Commute(x: int, y: int)
    ensures x * y == y * x
  {
  }

  /** If `p` digits of base `a` fit into `q` of base `b`, then `n` fit into `s`
      whenever s / n is at least q / p. */
  lemma {:induction false} RoomEnough(a: nat, b: nat, p: nat, q: nat, n: nat, s: nat)
    requires a > 0 && b > 0 && p > 0 && Pow(a, p) <= Pow(b, q) && q * n <= s * p
    ensures Pow(a, n) <= Pow(b, s)
  {
    RoomPowers(a, b, p, q, n, s);
    if Pow(a, n) > Pow(b, s) {
      BaseStrict(Pow(b, s), Pow(a, n), p);
    }
  }

  // ----- values

  lemma {:induction false} NumBound(d: seq<nat>, b: nat, z: nat, n: nat)
    requires z <= n <= |d| && b > 0 && IsDigits(d, b) && forall i | 0 <= i < z :: d[i] == 0
    ensures Num(d, b, n) < Pow(b, n - z)
  {
    if n == z {
      NumZero(d, b, n);
    } else {
      NumBound(d, b, z, n - 1);
      ProductMonotone(Num(d, b, n - 1) + 1, Pow(b, n - 1 - z), b);
      Distribute(Num(d, b, n - 1), 1, b);
    }
  }

  lemma {:induction false} NumZero(d: seq<nat>, b: nat, n: nat)
    requires n <= |d| && forall i | 0 <= i < n :: d[i] == 0
    ensures Num(d, b, n) == 0
  {
    if n > 0 {
      NumZero(d, b, n - 1);
    }
  }

  lemma {:induction false} NumSame(d: seq<nat>, e: seq<nat>, b: nat, n: nat)
    requires n <= |d| && n <= |e| && forall i | 0 <= i < n :: d[i] == e[i]
    ensures Num(d, b, n) == Num(e, b, n)
  {
    if n > 0 {
      NumSame(d, e, b, n - 1);
    }
  }

  /** Leading zeros do not count. */
  lemma {:induction false} NumDrop(d: seq<nat>, b: nat, z: nat, n: nat)
    requires z <= n <= |d| && forall i | 0 <= i < z :: d[i] == 0
    ensures Num(d, b, n) == Num(d[z..], b, n - z)
  {
    if n == z {
      NumZero(d, b, n);
    } else {
      NumDrop(d, b, z, n - 1);
    }
  }

  lemma {:induction false} NumLow(d: seq<nat>, b: nat, k: nat)
    requires k <= |d|
    ensures Num(d, b, |d| - k) * Pow(b, k) + Low(d, b, k) == Num(d, b, |d|)
  {
    if k > 0 {
      NumLow(d, b, k - 1);
      var h, x, p := Num(d, b, |d| - k), d[|d| - k], Pow(b, k - 1);
      Distribute(h * b, x, p);
      MulAssoc(h, b, p);
    }
  }

  /** A number is the value of its digits. */
  lemma {:induction false} NumOfDigits(v: nat, b: nat)
    requires b >= 2
    ensures Num(Digits(v, b), b, |Digits(v, b)|) == v
  {
    if v > 0 {
      NumOfDigits(v / b, b);
      var d := Digits(v / b, b);
      NumSame(Digits(v, b), d, b, |d|);
      DivMod(v, b);
    }
  }

  /** Digits that do not start with zero are those of their value. */
  lemma {:induction false} DigitsOfNum(d: seq<nat>, b: nat, n: nat)
    requires b >= 2 && n <= |d| && IsDigits(d, b) && (n > 0 ==> d[0] != 0)
    ensures Digits(Num(d, b, n), b) == d[..n]
  {
    if n > 0 {
      DigitsOfNum(d, b, n - 1);
      var v := Num(d, b, n);
      DivModUnique(v, b, Num(d, b, n - 1), d[n - 1]);
      ProductZeroFactor(Num(d, b, n - 1), b);
    }
  }

  lemma {:induction false} ProductZeroFactor(x: nat, b: nat)
    requires b > 0
    ensures x * b == 0 ==> x == 0
  {
  }

  lemma {:induction false} DigitsOfAll(d: seq<nat>, b: nat)
    requires b >= 2 && IsDigits(d, b) && (|d| > 0 ==> d[0] != 0)
    ensures Digits(Num(d, b, |d|), b) == d
  {
    DigitsOfNum(d, b, |d|);
    assert d[..|d|] == d;
  }

  lemma {:induction false} SplitZeros(d: seq<nat>, z: nat)
    requires z <= |d| && forall i | 0 <= i < z :: d[i] == 0
    ensures d == Zeros(z) + d[z..]
  {
  }

  /** Any digits are zeros followed by the digits of their value. */
  lemma {:induction false} Canonical(d: seq<nat>, b: nat)
    requires b >= 2 && IsDigits(d, b)
    ensures d == Zeros(Leading(d, 0)) + Digits(Num(d, b, |d|), b)
  {
    var z := Leading(d, 0);
    NumDrop(d, b, z, |d|);
    DigitsOfAll(d[z..], b);
    SplitZeros(d, z);
  }

  // ----- the two buffer sizes

  /** 138 / 100 base-58 digits to the byte are enough. */
  lemma {:induction false} EncodeRoom(n: nat)
    ensures Pow(256, n) <= Pow(58, n * 138 / 100 + 1)
  {
    Powers256();
    RoomEnough(256, 58, 8, 11, n, n * 138 / 100 + 1);
  }

  /** 733 / 1000 bytes to the base-58 digit are enough. */
  lemma {:induction false} DecodeRoom(n: nat)
    ensures Pow(58, n) <= Pow(256, n * 733 / 1000 + 1)
  {
    Powers58();
    RoomEnough(58, 256, 71, 52, n, n * 733 / 1000 + 1);
  }

  lemma {:induction false} Powers256()
    ensures Pow(256, 8) <= Pow(58, 11)
  {
    assert Pow(256, 4) == 4294967296;
    PowAdd(256, 4, 4);
    assert Pow(58, 3) == 195112;
    assert Pow(58, 4) == 11316496;
    PowAdd(58, 4, 4);
    PowAdd(58, 8, 3);
  }

  lemma {:induction false} Powers58()
    ensures Pow(58, 71) <= Pow(256, 52)
  {
    assert Pow(58, 3) == 195112;
    assert Pow(58, 4) == 11316496;
    PowAdd(58, 4, 4);
    assert Pow(58, 8) == 128063081718016;
    PowAdd(58, 8, 8);
    assert Pow(58, 16) == 16400152899115243850138976256;
    PowAdd(58, 16, 16);
    assert Pow(58, 32) == 268965015114358137726910587140455987105619365599731777536;
    PowAdd(58, 32, 32);
    PowAdd(58, 4, 3);
    assert Pow(58, 7) == 2207984167552;
    PowAdd(58, 64, 7);
    assert Pow(256, 4) == 4294967296;
    PowAdd(256, 4, 4);
    assert Pow(256, 8) == 18446744073709551616;
    PowAdd(256, 8, 8);
    PowAdd(256, 16, 16);
    PowAdd(256, 32, 16);
    PowAdd(256, 48, 4);
  }
}
