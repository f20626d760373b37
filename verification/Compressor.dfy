/**
  The compact form of amounts (src/compressor.cpp): trailing zeros become an
  exponent.  On numbers without bound the two directions are inverse to each
  other; the code works modulo 2^64.
 */
module Compressor {
  import opened Common
  import opened Limbs

  const COIN := 100000000
  const MAX_MONEY := 666000000 * COIN

  datatype Trimmed = Trimmed(n: nat, e: nat)

  function Pow10(e: nat): (p: nat)
    ensures p > 0
  {
    if e == 0 then 1 else 10 * Pow10(e - 1)
  }

  /** Divides by ten while that leaves no rest, nine times at most. */
  function Trim(n: nat, e: nat): Trimmed
    decreases 9 - e
  {
    if n % 10 == 0 && e < 9 then Trim(n / 10, e + 1) else Trimmed(n, e)
  }

  /** Mantissa and exponent in one number. */
  function Join(t: Trimmed): int {
    if t.e < 9 then 1 + (t.n / 10 * 9 + t.n % 10 - 1) * 10 + t.e else 1 + (t.n - 1) * 10 + 9
  }

  function Split(x: nat): Trimmed
    requires x > 0
  {
    var e, y := (x - 1) % 10, (x - 1) / 10;
    if e < 9 then Trimmed(y / 9 * 10 + y % 9 + 1, e) else Trimmed(y + 1, e)
  }

  function Compress(n: nat): int {
    if n == 0 then 0 else Join(Trim(n, 0))
  }

  function Decompress(x: nat): nat {
    if x == 0 then 0 else Split(x).n * Pow10(Split(x).e)
  }

  /** What comes out of Trim on a positive number. */
  predicate Proper(t: Trimmed) {
    t.n > 0 && t.e <= 9 && (t.e < 9 ==> t.n % 10 != 0)
  }

  lemma {:induction false} TrimExact(n: nat, e: nat)
    requires n > 0 && e <= 9
    ensures Proper(Trim(n, e)) && e <= Trim(n, e).e && Trim(n, e).n * Pow10(Trim(n, e).e - e) == n
    decreases 9 - e
  {
    if n % 10 == 0 && e < 9 {
      TrimExact(n / 10, e + 1);
      var t := Trim(n, e);
      TenTimes(t.n, Pow10(t.e - e - 1));
    }
  }

  lemma {:induction false} TenTimes(x: int, p: int)
    ensures x * (10 * p) == 10 * (x * p)
  {
  }

  lemma {:induction false} TrimOfProduct(m: nat, e: nat, k: nat)
    requires k + e <= 9 && Proper(Trimmed(m, k + e))
    ensures m * Pow10(e) >= 0 && Trim(m * Pow10(e), k) == Trimmed(m, k + e)
    decreases e
  {
    if e > 0 {
      TenTimes(m, Pow10(e - 1));
      TrimOfProduct(m, e - 1, k + 1);
      TrimTen(m * Pow10(e - 1), k);
    }
  }

  lemma {:induction false} TrimTen(x: nat, k: nat)
    requires k < 9
    ensures Trim(10 * x, k) == Trim(x, k + 1)
  {
  }

  lemma {:induction false} SplitJoin(t: Trimmed)
    requires Proper(t)
    ensures Join(t) > 0 && Split(Join(t)) == t
  {
    if t.e < 9 {
      var q, d := t.n / 10, t.n % 10;
      var y := q * 9 + d - 1;
      assert (y * 10 + t.e) / 10 == y && (y * 10 + t.e) % 10 == t.e;
      assert y / 9 == q && y % 9 == d - 1;
    }
  }

  lemma {:induction false} JoinSplit(x: nat)
    requires x > 0
    ensures Proper(Split(x)) && Join(Split(x)) == x
  {
    var e, y := (x - 1) % 10, (x - 1) / 10;
    if e < 9 {
      var n := y / 9 * 10 + y % 9 + 1;
      assert n / 10 == y / 9 && n % 10 == y % 9 + 1;
    }
  }

  /** Nothing is lost. */
  lemma {:induction false} DecompressCompress(n: nat)
    ensures Compress(n) >= 0 && Decompress(Compress(n)) == n
  {
    if n > 0 {
      TrimExact(n, 0);
      SplitJoin(Trim(n, 0));
    }
  }

  /** Every number is the compact form of one amount. */
  lemma {:induction false} CompressDecompress(x: nat)
    ensures Compress(Decompress(x)) == x
  {
    if x > 0 {
      JoinSplit(x);
      TrimOfProduct(Split(x).n, Split(x).e, 0);
      ProductPositive(Split(x).n, Pow10(Split(x).e));
    }
  }

  lemma {:induction false} ProductPositive(x: int, y: int)
    requires x > 0 && y > 0
    ensures x * y > 0
  {
  }

  /** The compact form is at most nine times the amount. */
  lemma {:induction false} CompressBound(n: nat)
    ensures 0 <= Compress(n) <= 9 * n
  {
    if n > 0 {
      TrimExact(n, 0);
      var t := Trim(n, 0);
      if t.e > 0 {
        TenTimes(t.n, Pow10(t.e - 1));
        ProductMonotone(1, Pow10(t.e - 1), t.n);
      } else {
        assert Pow10(0) == 1;
      }
    }
  }

  /** So valid amounts never overflow 64 bits. */
  lemma {:induction false} MoneyFits(n: nat)
    requires n <= MAX_MONEY
    ensures 0 <= Compress(n) < WORD && Decompress(Compress(n)) == n
  {
    CompressBound(n);
    DecompressCompress(n);
  }

  /** CompressAmount in 64-bit arithmetic; the assertion on the digit holds. */
  method CompressAmount(amount: nat) returns (r: nat)
    requires amount < WORD
    ensures r == Compress(amount) % WORD
    ensures amount <= MAX_MONEY ==> r == Compress(amount)
  {
    CompressBound(amount);
    if amount == 0 {
      return 0;
    }
    var n: nat, e: nat := amount, 0;
    TrimExact(amount, 0);
    while n % 10 == 0 && e < 9
      invariant 0 <= e <= 9 && n < WORD && Trim(n, e) == Trim(amount, 0)
      decreases 9 - e
    {
      n := n / 10;
      e := e + 1;
    }
    r := JoinWords(n, e);
  }

  /** The last part of CompressAmount. */
  method JoinWords(m: nat, e: nat) returns (r: nat)
    requires m < WORD && Proper(Trimmed(m, e))
    ensures r == Join(Trimmed(m, e)) % WORD
  {
    if e < 9 {
      var d := m % 10;
      assert 1 <= d <= 9;
      var n := m / 10;
      WrapInside(n * 9, d - 1, 1 + e);
      r := (((n * 9) % WORD + (d - 1)) % WORD * 10 + (1 + e)) % WORD;
    } else {
      r := (1 + (m - 1) * 10 + 9) % WORD;
    }
  }

  /** Wrapping on the way does not matter. */
  lemma {:induction false} WrapInside(a: int, b: int, c: int)
    ensures ((a % WORD + b) % WORD * 10 + c) % WORD == ((a + b) * 10 + c) % WORD
  {
    var q := a / WORD;
    var s := a % WORD + b;
    var k := s / WORD;
    var x, y := s % WORD * 10 + c, (a + b) * 10 + c;
    assert a == q * WORD + a % WORD && s == k * WORD + s % WORD;
    assert y == x + (10 * q + 10 * k) * WORD;
    DivModUnique(y, WORD, x / WORD + (10 * q + 10 * k), x % WORD);
  }

  /** DecompressAmount in 64-bit arithmetic. */
  method DecompressAmount(compact: nat) returns (n: nat)
    requires compact < WORD
    ensures n == Decompress(compact) % WORD
  {
    if compact == 0 {
      return 0;
    }
    var x := compact - 1;
    var e := x % 10;
    x := x / 10;
    if e < 9 {
      var d := x % 9 + 1;
      x := x / 9;
      n := x * 10 + d;
    } else {
      n := x + 1;
    }
    n := Scale(n, e);
  }

  /** The loop that puts the zeros back. */
  method Scale(m: nat, exponent: nat) returns (n: nat)
    requires m < WORD
    ensures n == (m * Pow10(exponent)) % WORD
  {
    n := m;
    var e: nat := exponent;
    assert m * Pow10(0) == m;
    while e != 0
      invariant 0 <= e <= exponent && n == (m * Pow10(exponent - e)) % WORD
    {
      TenTimes(m, Pow10(exponent - e));
      ModTen(m * Pow10(exponent - e), n);
      n := (n * 10) % WORD;
      e := e - 1;
    }
  }

  lemma {:induction false} ModTen(y: nat, n: nat)
    requires n == y % WORD
    ensures (n * 10) % WORD == (10 * y) % WORD
  {
  }

  // ----- the round trip in 64 bits

  /** What becomes of an amount on its way through both methods. */
  function Trip(n: nat): nat {
    Decompress(Compress(n) % WORD) % WORD
  }

  /** The largest amount such that it and all below it fit. */
  const LARGEST := 2049638230412172402

  /** An amount that ends in a zero becomes smaller. */
  lemma {:induction false} RoundFits(n: nat)
    requires n < WORD && n % 10 == 0
    ensures 0 <= Compress(n) < WORD
  {
    if n > 0 {
      TrimExact(n, 0);
      var t := Trim(n, 0);
      assert t.e > 0;
      TenTimes(t.n, Pow10(t.e - 1));
      ProductMonotone(1, Pow10(t.e - 1), t.n);
      assert 10 * t.n <= n;
    }
  }

  /** The compact form of `10 * q + d`, where `d` is not zero. */
  function Whole(q: nat, d: nat): int {
    90 * q + 10 * d - 9
  }

  lemma {:induction false} CompressWhole(q: nat, d: nat)
    requires 1 <= d <= 9
    ensures Compress(10 * q + d) == Whole(q, d)
  {
    DivModUnique(10 * q + d, 10, q, d);
  }

  lemma {:induction false} FitsIff(n: nat)
    requires n < WORD
    ensures 0 <= Compress(n) && (Compress(n) < WORD <==> n % 10 == 0 || n <= LARGEST)
  {
    if n % 10 == 0 {
      RoundFits(n);
    } else {
      CompressWhole(n / 10, n % 10);
      WholeFits(n / 10, n % 10);
    }
  }

  lemma {:induction false} WholeFits(q: nat, d: nat)
    requires 1 <= d <= 9
    ensures 0 <= Whole(q, d) && (Whole(q, d) < WORD <==> 10 * q + d <= LARGEST)
  {
  }

  /** The compact form has wrapped `k` times. */
  predicate Wraps(q: nat, d: nat, k: nat) {
    1 <= d <= 9 && 10 * q + d < WORD && k * WORD < Whole(q, d) < (k + 1) * WORD
  }

  /** What is read from the rest. */
  lemma {:induction false} Misread(q: nat, d: nat, x: nat, e: nat, a: nat, b: nat) returns (off: nat)
    requires 1 <= d <= 9 && e < 9 && b < 9 && x > 0 && x + 90 * a + 10 * b - e == Whole(q, d)
    ensures off <= 1 && Split(x).e == e && Split(x).n == 10 * q + d - (10 * a + b + off)
  {
    var z := 9 * (q - a) + (d - 1 - b);
    off := if d - 1 >= b then 0 else 1;
    DivModUnique(x - 1, 10, z, e);
    DivModUnique(z, 9, q - a - off, d - 1 - b + 9 * off);
  }

  /** A linear congruence modulo 2^64 with an odd factor has one solution; `t` and
      `u` are the multiples of 2^64 that its inverse brings in. */
  lemma {:induction false} OneSolution(n: nat, r: nat, f: int, c: int, j: int, inverse: int, t: int, u: int)
    requires n < WORD && r < WORD && n * f == c + j * WORD
    requires inverse * f == 1 + t * WORD && inverse * c == r + u * WORD
    ensures n == r
  {
    Swap(n, inverse, f);
    Distribute(c, j * WORD, inverse);
    MulAssoc(inverse, j, WORD);
    Distribute(1, t * WORD, n);
    MulAssoc(n, t, WORD);
    WithinWord(n, r, u + inverse * j - n * t);
  }

  lemma {:induction false} WithinWord(n: nat, r: nat, k: int)
    requires n < WORD && r < WORD && n == r + k * WORD
    ensures n == r
  {
  }

  lemma {:induction false} Swap(x: int, y: int, z: int)
    ensures x * (y * z) == y * (x * z)
  {
  }

  lemma {:induction false} Quotient(y: int, n: int) returns (j: int)
    requires y % WORD == n
    ensures y == n + j * WORD
  {
    j := y / WORD;
  }

  lemma {:induction false} Expand(n: int, d: int, p: int)
    ensures (n - d) * p == n * p - d * p && n * (p - 1) == n * p - n
  {
  }

  /** The amount misread is not the amount, unless it is the one solution. */
  lemma {:induction false} NotReturned(n: nat, d: nat, p: int, inverse: int, t: int, r: nat, u: int)
    requires n < WORD && r < WORD && n != r
    requires inverse * (p - 1) == 1 + t * WORD && inverse * (d * p) == r + u * WORD
    ensures (n - d) * p % WORD != n
  {
    if (n - d) * p % WORD == n {
      var j := Quotient((n - d) * p, n);
      Expand(n, d, p);
      OneSolution(n, r, p - 1, d * p, j, inverse, t, u);
    }
  }

  /** The solution `10 * q + d` is no amount whose compact form wraps `k` times. */
  predicate RuledOut(q: nat, d: nat, k: nat) {
    10 * q + d < WORD && d <= 9 && !Wraps(q, d, k)
  }

  lemma {:induction false} NotTheOne(q: nat, d: nat, k: nat, q0: nat, d0: nat)
    requires Wraps(q, d, k) && RuledOut(q0, d0, k)
    ensures 10 * q + d != 10 * q0 + d0
  {
    if 10 * q + d == 10 * q0 + d0 {
      SameDigits(q, d, q0, d0);
    }
  }

  lemma {:induction false} SameDigits(q: nat, d: nat, q0: nat, d0: nat)
    requires 10 * q + d == 10 * q0 + d0 && d <= 9 && d0 <= 9
    ensures q == q0 && d == d0
  {
  }

  lemma {:induction false} RestIs(q: nat, d: nat, k: nat, x: nat)
    requires Wraps(q, d, k) && x == Whole(q, d) - k * WORD
    ensures 0 < x && Compress(10 * q + d) % WORD == x
  {
    CompressWhole(q, d);
    DivModUnique(Whole(q, d), WORD, k, x);
  }

  /** What comes of the amount. */
  lemma {:induction false} TripIs(q: nat, d: nat, k: nat, e: nat, a: nat, b: nat) returns (off: nat)
    requires Wraps(q, d, k) && e < 9 && b < 9 && k * WORD + e == 10 * (9 * a + b)
    ensures off <= 1 && 10 * q + d >= 10 * a + b + off
    ensures Trip(10 * q + d) == (10 * q + d - (10 * a + b + off)) * Pow10(e) % WORD
  {
    var x := Whole(q, d) - k * WORD;
    RestIs(q, d, k, x);
    off := Misread(q, d, x, e, a, b);
  }

  /** The constants of one number of times that the compact form can have wrapped:
      `10 * q + d` solves the congruence for an amount misread by `off` more. */
  predicate Solves(k: nat, p: int, a: nat, b: nat, inverse: int, t: int, off: nat, q: nat, d: nat, u: int) {
    RuledOut(q, d, k) && inverse * (p - 1) == 1 + t * WORD &&
    inverse * ((10 * a + b + off) * p) == 10 * q + d + u * WORD
  }

  lemma {:induction false} Wrapped(
    q: nat, d: nat, k: nat, e: nat, p: int, a: nat, b: nat, inverse: int, t: int,
    q0: nat, d0: nat, u0: int, q1: nat, d1: nat, u1: int)
    requires Wraps(q, d, k) && e < 9 && p == Pow10(e) && b < 9 && k * WORD + e == 10 * (9 * a + b)
    requires Solves(k, p, a, b, inverse, t, 0, q0, d0, u0) && Solves(k, p, a, b, inverse, t, 1, q1, d1, u1)
    ensures Trip(10 * q + d) != 10 * q + d
  {
    var off := TripIs(q, d, k, e, a, b);
    if off == 0 {
      WrappedBy(q, d, k, p, a, b, inverse, t, 0, q0, d0, u0);
    } else {
      WrappedBy(q, d, k, p, a, b, inverse, t, 1, q1, d1, u1);
    }
  }

  lemma {:induction false} WrappedBy(
    q: nat, d: nat, k: nat, p: int, a: nat, b: nat, inverse: int, t: int, off: nat, q0: nat, d0: nat, u0: int)
    requires Wraps(q, d, k) && Solves(k, p, a, b, inverse, t, off, q0, d0, u0)
    ensures (10 * q + d - (10 * a + b + off)) * p % WORD != 10 * q + d
  {
    NotTheOne(q, d, k, q0, d0);
    NotReturned(10 * q + d, 10 * a + b + off, p, inverse, t, 10 * q0 + d0, u0);
  }

  /** Wrapped five times: what is read is smaller. */
  lemma {:induction false} WrappedFive(q: nat, d: nat)
    requires Wraps(q, d, 5)
    ensures Trip(10 * q + d) != 10 * q + d
  {
    var off := TripIs(q, d, 5, 0, 1024819115206086200, 8);
    Smaller(10 * q + d, 10248191152060862008 + off);
  }

  lemma {:induction false} Smaller(n: nat, d: nat)
    requires 0 < d <= n < WORD
    ensures (n - d) * Pow10(0) % WORD != n
  {
    DivModUnique(n - d, WORD, 0, n - d);
  }

  lemma {:induction false} PowersOfTen()
    ensures Pow10(2) == 100 && Pow10(4) == 10000 && Pow10(6) == 1000000 && Pow10(8) == 100000000
  {
    assert Pow10(1) == 10 && Pow10(3) == 1000 && Pow10(5) == 100000 && Pow10(7) == 10000000;
  }

  lemma {:induction false} WrappedOnce(q: nat, d: nat)
    requires Wraps(q, d, 1)
    ensures Trip(10 * q + d) != 10 * q + d
  {
    PowersOfTen();
    Wrapped(q, d, 1, 4, 10000, 204963823041217240, 2, 13458245626333751279, 7295,
            1528855063276942358, 4, 14953606251481945867176, 1030005218539362324, 8, 14953606251481945874472);
  }

  lemma {:induction false} WrappedTwice(q: nat, d: nat)
    requires Wraps(q, d, 2)
    ensures Trip(10 * q + d) != 10 * q + d
  {
    PowersOfTen();
    Wrapped(q, d, 2, 8, 100000000, 409927646082434480, 4, 300153063250403071, 1627133,
            1448086897432983040, 0, 6670068072231179356278725, 1478102203758023347, 2, 6670068072231179357905858);
  }

  lemma {:induction false} WrappedThrice(q: nat, d: nat)
    requires Wraps(q, d, 3)
    ensures Trip(10 * q + d) != 10 * q + d
  {
    PowersOfTen();
    Wrapped(q, d, 3, 2, 100, 614891469123651720, 5, 12670490878911611211, 68,
            192541773159931346, 8, 422349695963720373677, 1459590861051092468, 0, 422349695963720373745);
  }

  lemma {:induction false} WrappedFour(q: nat, d: nat)
    requires Wraps(q, d, 4)
    ensures Trip(10 * q + d) != 10 * q + d
  {
    PowersOfTen();
    Wrapped(q, d, 4, 6, 1000000, 819855292164868960, 7, 1672254362768354751, 90653,
            1416166157257761184, 0, 743224161230379889323260, 1583391593534596659, 2, 743224161230379889413913);
  }

  lemma {:induction false} WrappedSix(q: nat, d: nat)
    requires Wraps(q, d, 6)
    ensures Trip(10 * q + d) != 10 * q + d
  {
    PowersOfTen();
    Wrapped(q, d, 6, 4, 10000, 1229782938247303441, 1, 13458245626333751279, 7295,
            448608187544458376, 0, 89721637508891675195765, 1794432750177833504, 0, 89721637508891675203060);
  }

  lemma {:induction false} WrappedSeven(q: nat, d: nat)
    requires Wraps(q, d, 7)
    ensures Trip(10 * q + d) != 10 * q + d
  {
    PowersOfTen();
    Wrapped(q, d, 7, 8, 100000000, 1434746761288520681, 3, 300153063250403071, 1627133,
            426602816263012428, 8, 23345238252809127745348407, 456618122588052736, 0, 23345238252809127746975540);
  }

  lemma {:induction false} WrappedEight(q: nat, d: nat)
    requires Wraps(q, d, 8)
    ensures Trip(10 * q + d) != 10 * q + d
  {
    PowersOfTen();
    Wrapped(q, d, 8, 2, 100, 1639710584329737921, 4, 12670490878911611211, 68,
            743252651230272618, 4, 1126265855903254329851, 165627331750478578, 0, 1126265855903254329920);
  }

  lemma {:induction false} WrappedDiffers(q: nat, d: nat, k: nat)
    requires Wraps(q, d, k) && 1 <= k <= 8
    ensures Trip(10 * q + d) != 10 * q + d
  {
    match k
    case 1 => WrappedOnce(q, d);
    case 2 => WrappedTwice(q, d);
    case 3 => WrappedThrice(q, d);
    case 4 => WrappedFour(q, d);
    case 5 => WrappedFive(q, d);
    case 6 => WrappedSix(q, d);
    case 7 => WrappedSeven(q, d);
    case _ => WrappedEight(q, d);
  }

  lemma {:induction false} HowOften(q: nat, d: nat) returns (k: nat)
    requires 1 <= d <= 9 && LARGEST < 10 * q + d < WORD
    ensures 1 <= k <= 8 && Wraps(q, d, k)
  {
    k := Whole(q, d) / WORD;
    var r := Whole(q, d) % WORD;
    assert Whole(q, d) == k * WORD + r;
    if r == 0 {
      NeverEven(q, d, k);
    }
  }

  /** The compact form is odd if the amount does not end in a zero. */
  lemma {:induction false} NeverEven(q: nat, d: nat, k: nat)
    ensures Whole(q, d) != k * WORD
  {
  }

  lemma {:induction false} FittingReturns(n: nat)
    requires n < WORD && 0 <= Compress(n) < WORD
    ensures Trip(n) == n
  {
    DecompressCompress(n);
    SmallTrip(n, Compress(n));
  }

  lemma {:induction false} SmallTrip(n: nat, x: nat)
    requires n < WORD && x < WORD && Compress(n) == x && Decompress(x) == n
    ensures Trip(n) == n
  {
    DivModUnique(x, WORD, 0, x);
    DivModUnique(n, WORD, 0, n);
  }

  lemma {:induction false} OthersDiffer(q: nat, d: nat)
    requires 1 <= d <= 9 && LARGEST < 10 * q + d < WORD
    ensures Trip(10 * q + d) != 10 * q + d
  {
    var k := HowOften(q, d);
    WrappedDiffers(q, d, k);
  }

  /** A 64-bit amount comes back from its compact form if and only if it ends in
      a zero or is at most 2049638230412172402. */
  lemma {:induction false} ReturnsIff(n: nat)
    requires n < WORD
    ensures Trip(n) == n <==> n % 10 == 0 || n <= LARGEST
  {
    FitsIff(n);
    if n % 10 == 0 || n <= LARGEST {
      FittingReturns(n);
    } else {
      OthersDiffer(n / 10, n % 10);
    }
  }

  /** The smallest amount that does not come back. */
  lemma {:induction false} LostAmountExample()
    ensures Trip(2049638230412172403) != 2049638230412172403
  {
    ReturnsIff(2049638230412172403);
  }
}
