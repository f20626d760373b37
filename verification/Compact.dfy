/**
  The 32-bit floating form of a proof-of-work target: one byte of exponent, a
  sign bit and 23 bits of mantissa (src/arith_uint256.cpp).  Sizes count bytes;
  256^k is written Pow2(8 * k).
 */
module Compact {
  import opened Limbs

  const SIGN := 0x80_0000
  const UNIT := 0x100_0000

  predicate Is32(c: int) {
    0 <= c < BASE
  }

  function Exponent(c: int): int { c / UNIT }

  function Mantissa(c: int): int { c % SIGN }

  predicate SignBit(c: int) { (c / SIGN) % 2 == 1 }

  /** mantissa * 256^(exponent - 3), rounded down, with no bound on its size. */
  function Scaled(e: nat, m: int): int {
    if e <= 3 then m / Pow2(8 * (3 - e)) else m * Pow2(8 * (e - 3))
  }

  function Meaning(c: int): int
    requires Is32(c)
  {
    Scaled(Exponent(c), Mantissa(c))
  }

  /** The bytes that `x` takes up. */
  function ByteSize(x: nat): nat {
    if x == 0 then 0 else 1 + ByteSize(x / 256)
  }

  /** The three bytes of `x` at the top, out of `n`. */
  function Lead(x: nat, n: nat): int {
    if n <= 3 then x * Pow2(8 * (3 - n)) else x / Pow2(8 * (n - 3))
  }

  datatype Parts = Parts(size: nat, mantissa: int)

  /** Exponent and mantissa of `x`: the leading bytes, moved down by one byte
      where the sign bit would be taken. */
  function Encode(x: nat): Parts {
    var n := ByteSize(x);
    var m := Lead(x, n);
    if m >= SIGN then Parts(n + 1, m / 256) else Parts(n, m)
  }

  function Pack(p: Parts, negative: bool): int {
    p.size * UNIT + p.mantissa + if negative then SIGN else 0
  }

  // ----- bytes

  lemma {:induction false} Byte(k: nat)
    ensures Pow2(8 * (k + 1)) == 256 * Pow2(8 * k)
  {
    Pow2Add(8, 8 * k);
    assert Pow2(8) == 256;
  }

  lemma {:induction false} SmallPowers()
    ensures Pow2(0) == 1 && Pow2(8) == 256 && Pow2(16) == 0x1_0000 && Pow2(24) == UNIT && Pow2(23) == SIGN
  {
    assert Pow2(8) == 256;
    Pow2Add(8, 8);
    Pow2Add(8, 16);
    assert Pow2(24) == 2 * Pow2(23);
  }

  lemma {:induction false} ByteSizeBounds(x: nat)
    ensures x < Pow2(8 * ByteSize(x))
    ensures x > 0 ==> ByteSize(x) > 0 && Pow2(8 * (ByteSize(x) - 1)) <= x
  {
    if x > 0 {
      ByteSizeBounds(x / 256);
      Byte(ByteSize(x / 256));
      if x / 256 > 0 {
        Byte(ByteSize(x / 256) - 1);
      }
    }
  }

  lemma {:induction false} ByteSizeUnique(x: nat, n: nat)
    requires x < Pow2(8 * n) && (n > 0 ==> Pow2(8 * (n - 1)) <= x)
    ensures ByteSize(x) == n
  {
    ByteSizeBounds(x);
    var k := ByteSize(x);
    if k < n {
      Pow2Monotone(8 * k, 8 * (n - 1));
    } else if n < k {
      Pow2Monotone(8 * n, 8 * (k - 1));
    }
  }

  /** The size in bytes from the size in bits. */
  lemma {:induction false} BitsToBytes(x: nat, bits: nat)
    requires bits == 0 <==> x == 0
    requires bits > 0 ==> Pow2(bits - 1) <= x < Pow2(bits)
    ensures ByteSize(x) == (bits + 7) / 8
  {
    var n := (bits + 7) / 8;
    if bits > 0 {
      Pow2Monotone(bits, 8 * n);
      Pow2Monotone(8 * (n - 1), bits - 1);
      ByteSizeUnique(x, n);
    }
  }

  // ----- the leading bytes

  lemma {:induction false} DivBounds(x: int, d: int, q: int)
    requires d > 0
    ensures x >= q * d ==> x / d >= q
    ensures x < q * d ==> x / d < q
  {
    DivBack(x, d);
    if x / d < q {
      ProductMonotone(x / d + 1, q, d);
      Distribute(x / d, 1, d);
    } else {
      ProductMonotone(q, x / d, d);
    }
  }

  lemma {:induction false} DivBack(x: int, d: int)
    requires d > 0
    ensures (x / d) * d <= x < (x / d) * d + d
  {
  }

  lemma {:induction false} DivSmaller(x: int, d: int)
    requires x >= 0 && d > 0
    ensures 0 <= x / d <= x
  {
    DivBounds(x, d, 0);
    DivBack(x, d);
    ProductMonotone(1, d, x / d);
  }

  /** Three bytes, the first of them not zero. */
  lemma {:induction false} LeadBounds(x: nat)
    ensures 0 <= Lead(x, ByteSize(x)) < UNIT
    ensures x > 0 ==> Lead(x, ByteSize(x)) >= 0x1_0000
  {
    ByteSizeBounds(x);
    if ByteSize(x) > 3 {
      LongLead(x, ByteSize(x) - 3);
    } else {
      ShortLead(x, ByteSize(x));
    }
  }

  lemma {:induction false} LongLead(x: nat, k: nat)
    requires k > 0 && Pow2(8 * (k + 2)) <= x < Pow2(8 * (k + 3))
    ensures 0x1_0000 <= x / Pow2(8 * k) < UNIT
  {
    var p := Pow2(8 * k);
    SmallPowers();
    Pow2Add(24, 8 * k);
    Pow2Add(16, 8 * k);
    DivBounds(x, p, UNIT);
    DivBounds(x, p, 0x1_0000);
  }

  lemma {:induction false} ShortLead(x: nat, n: nat)
    requires n <= 3 && x < Pow2(8 * n) && (x > 0 ==> n > 0 && Pow2(8 * (n - 1)) <= x)
    ensures 0 <= x * Pow2(8 * (3 - n)) < UNIT
    ensures x > 0 ==> x * Pow2(8 * (3 - n)) >= 0x1_0000
  {
    var p := Pow2(8 * (3 - n));
    SmallPowers();
    Pow2Add(8 * n, 8 * (3 - n));
    ProductMonotone(0, x, p);
    ProductMonotone(x + 1, Pow2(8 * n), p);
    Distribute(x, 1, p);
    if x > 0 {
      Pow2Add(8 * (n - 1), 8 * (3 - n));
      ProductMonotone(Pow2(8 * (n - 1)), x, p);
    }
  }

  lemma {:induction false} EncodeBounds(x: nat)
    ensures 0 <= Encode(x).mantissa < SIGN
    ensures x > 0 ==> Encode(x).mantissa >= 0x8000 && Encode(x).size > 0
    ensures x == 0 ==> Encode(x) == Parts(0, 0)
    ensures x < Pow2(BITS) ==> Encode(x).size <= 33
  {
    LeadBounds(x);
    ByteSizeBounds(x);
    if x < Pow2(BITS) && ByteSize(x) > 32 {
      Pow2Monotone(BITS, 8 * (ByteSize(x) - 1));
    }
  }

  /** The whole of a packed word can be read back. */
  lemma {:induction false} Unpack(p: Parts, negative: bool)
    requires 0 <= p.mantissa < SIGN && p.size < 256
    ensures Is32(Pack(p, negative))
    ensures Exponent(Pack(p, negative)) == p.size && Mantissa(Pack(p, negative)) == p.mantissa
    ensures SignBit(Pack(p, negative)) == negative
  {
  }

  /** The bytes below the three that are kept. */
  function Dropped(p: Parts): nat {
    if p.size <= 3 then 0 else p.size - 3
  }

  /** Encoding and decoding clears the low-order bytes and nothing else. */
  lemma {:induction false} DecodeEncode(x: nat, negative: bool)
    requires x < Pow2(BITS)
    ensures Is32(Pack(Encode(x), negative))
    ensures Meaning(Pack(Encode(x), negative)) == x / Pow2(8 * Dropped(Encode(x))) * Pow2(8 * Dropped(Encode(x)))
    ensures Meaning(Pack(Encode(x), negative)) <= x
    ensures SignBit(Pack(Encode(x), negative)) == negative
  {
    var p := Encode(x);
    EncodeBounds(x);
    Unpack(p, negative);
    assert Meaning(Pack(p, negative)) == Scaled(p.size, p.mantissa);
    DecodeParts(x);
    DivBack(x, Pow2(8 * Dropped(p)));
  }

  lemma {:induction false} DecodeParts(x: nat)
    ensures
      Scaled(Encode(x).size, Encode(x).mantissa) == x / Pow2(8 * Dropped(Encode(x))) * Pow2(8 * Dropped(Encode(x)))
  {
    if ByteSize(x) >= 3 {
      LongMeaning(x);
      var m := Encode(x).mantissa;
      assert Pow2(0) == 1 && m / 1 == m;
    } else {
      ShortMeaning(x);
      assert Pow2(0) == 1 && x / 1 == x;
    }
  }

  /** Three bytes and more: the mantissa is what a shift leaves. */
  lemma {:induction false} LongMeaning(x: nat)
    requires ByteSize(x) >= 3
    ensures Encode(x).mantissa == x / Pow2(8 * Dropped(Encode(x)))
  {
    var n := ByteSize(x);
    LeadThree(x);
    Byte(n - 3);
    DivDiv(x, Pow2(8 * (n - 3)), 256);
  }

  lemma {:induction false} LeadThree(x: nat)
    requires ByteSize(x) >= 3
    ensures Lead(x, ByteSize(x)) == x / Pow2(8 * (ByteSize(x) - 3))
  {
    assert Pow2(0) == 1;
    assert x / 1 == x;
  }

  lemma {:induction false} DivDiv(x: int, d: int, e: int)
    requires d > 0 && e > 0
    ensures x / d / e == x / (e * d)
  {
    var q := x / d;
    DivBack(q, e);
    DivBack(x, d);
    var h := q / e;
    var r := x - h * (e * d);
    MulAssoc(h, e, d);
    Distribute(h * e, q - h * e, d);
    ProductMonotone(0, q - h * e, d);
    ProductMonotone(q - h * e + 1, e, d);
    Distribute(q - h * e, 1, d);
    DivModUnique(x, e * d, h, r);
  }

  /** Fewer than three bytes: shifting up and down again loses nothing. */
  lemma {:induction false} ShortMeaning(x: nat)
    requires ByteSize(x) < 3
    ensures Encode(x).size <= 3 && Encode(x).mantissa / Pow2(8 * (3 - Encode(x).size)) == x
  {
    var n := ByteSize(x);
    Byte(2 - n);
    UpDown(x, Pow2(8 * (2 - n)));
  }

  lemma {:induction false} UpDown(x: int, h: int)
    requires h > 0
    ensures x * (256 * h) / (256 * h) == x && x * (256 * h) / 256 / h == x
  {
    DivModUnique(x * (256 * h), 256 * h, x, 0);
    DivDiv(x * (256 * h), 256, h);
    assert h * 256 == 256 * h;
  }

  /** The encoding is the best there is: no 32-bit word stands for a value
      between the decoded one and `x`. */
  lemma {:induction false} EncodeIsLargest(x: nat, c: int)
    requires x < Pow2(BITS) && Is32(c) && Meaning(c) <= x
    ensures Is32(Pack(Encode(x), false)) && Meaning(c) <= Meaning(Pack(Encode(x), false))
  {
    DecodeEncode(x, false);
    var k := Dropped(Encode(x));
    if k > 0 {
      KeptBits(x);
      RoundedIsLargest(x, k, c);
    } else {
      DivByOne(x);
    }
  }

  lemma {:induction false} DivByOne(x: int)
    ensures x / Pow2(0) * Pow2(0) == x
  {
    assert Pow2(0) == 1;
    assert x / 1 == x;
  }

  lemma {:induction false} RoundedIsLargest(x: nat, k: nat, c: int)
    requires k > 0 && x / Pow2(8 * k) >= 0x8000 && Is32(c) && Meaning(c) <= x
    ensures Meaning(c) <= x / Pow2(8 * k) * Pow2(8 * k)
  {
    var e, m := Exponent(c), Mantissa(c);
    if e >= k + 3 {
      LargeMeaning(e, m, k, x);
    } else {
      SmallMeaning(c, k);
      ProductMonotone(0x8000, x / Pow2(8 * k), Pow2(8 * k));
    }
  }

  lemma {:induction false} LargeMeaning(e: nat, m: int, k: nat, x: int)
    requires k > 0 && e >= k + 3 && m * Pow2(8 * (e - 3)) <= x
    ensures m * Pow2(8 * (e - 3)) <= x / Pow2(8 * k) * Pow2(8 * k)
  {
    var t, u := Pow2(8 * k), Pow2(8 * (e - 3 - k));
    Pow2Add(8 * (e - 3 - k), 8 * k);
    MulAssoc(m, u, t);
    DivBounds(x, t, m * u);
    ProductMonotone(m * u, x / t, t);
  }

  lemma {:induction false} KeptBits(x: nat)
    requires Dropped(Encode(x)) > 0
    ensures x / Pow2(8 * Dropped(Encode(x))) >= 0x8000
  {
    EncodeBounds(x);
    LongMeaning(x);
  }

  lemma {:induction false} ScaledSmall(e: nat, m: nat, k: nat)
    requires m < SIGN && k > 0 && e < k + 3
    ensures Scaled(e, m) <= 0x8000 * Pow2(8 * k)
  {
    Byte(k - 1);
    if e <= 3 {
      DivSmaller(m, Pow2(8 * (3 - e)));
      Pow2Monotone(0, 8 * (k - 1));
    } else {
      Pow2Monotone(8 * (e - 3), 8 * (k - 1));
      ProductMonotone(Pow2(8 * (e - 3)), Pow2(8 * (k - 1)), m);
      ProductMonotone(m, SIGN, Pow2(8 * (k - 1)));
    }
  }

  lemma {:induction false} SmallMeaning(c: int, k: nat)
    requires Is32(c) && k > 0 && Exponent(c) < k + 3
    ensures Meaning(c) <= 0x8000 * Pow2(8 * k)
  {
    ScaledSmall(Exponent(c), Mantissa(c), k);
  }

  /** Encoding the decoded value gives the same word again. */
  lemma {:induction false} Reencode(x: nat)
    requires x < Pow2(BITS)
    ensures Is32(Pack(Encode(x), false)) && 0 <= Meaning(Pack(Encode(x), false))
    ensures Encode(Meaning(Pack(Encode(x), false))) == Encode(x)
  {
    DecodeEncode(x, false);
    var n, k := ByteSize(x), Dropped(Encode(x));
    var t := Pow2(8 * k);
    var y := x / t * t;
    if k == 0 {
      assert y == x;
    } else {
      KeptBits(x);
      ProductMonotone(0x8000, x / t, t);
      SameSize(x, k);
      LeadBounds(x);
      SmallPowers();
      SameLead(x, n, k);
    }
  }

  lemma {:induction false} SameSize(x: nat, k: nat)
    requires k > 0 && k == Dropped(Encode(x))
    ensures 0 <= x / Pow2(8 * k) * Pow2(8 * k) && ByteSize(x / Pow2(8 * k) * Pow2(8 * k)) == ByteSize(x)
  {
    var y := x / Pow2(8 * k) * Pow2(8 * k);
    TopByteKept(x, k);
    ByteSizeBounds(x);
    DivBack(x, Pow2(8 * k));
    ByteSizeUnique(y, ByteSize(x));
  }

  lemma {:induction false} TopByteKept(x: nat, k: nat)
    requires k > 0 && k == Dropped(Encode(x))
    ensures ByteSize(x) > 0 && Pow2(8 * (ByteSize(x) - 1)) <= x / Pow2(8 * k) * Pow2(8 * k)
  {
    var n, t := ByteSize(x), Pow2(8 * k);
    var top := x / t;
    SmallPowers();
    if Encode(x).size == n {
      LeadBounds(x);
      LongMeaning(x);
      Pow2Add(16, 8 * k);
      ProductMonotone(0x1_0000, top, t);
    } else {
      KeptBits(x);
      Pow2Add(8, 8 * k);
      ProductMonotone(256, top, t);
    }
  }

  lemma {:induction false} SameLead(x: nat, n: nat, k: nat)
    requires n == ByteSize(x) && k > 0 && k == Dropped(Encode(x))
    requires 0 <= x / Pow2(8 * k) * Pow2(8 * k)
    ensures n >= 3
    ensures
      var y := x / Pow2(8 * k) * Pow2(8 * k);
      ByteSize(y) == n ==>
        if Lead(x, n) >= SIGN then Lead(y, n) >= SIGN && Lead(y, n) / 256 == Lead(x, n) / 256
        else Lead(y, n) == Lead(x, n)
  {
    var y := x / Pow2(8 * k) * Pow2(8 * k);
    LeadThree(x);
    if ByteSize(y) == n {
      LeadThree(y);
      LeadOfMultiple(x, n - 3);
      CutByte(Lead(x, n));
    }
  }

  lemma {:induction false} CutByte(l: int)
    ensures l / 256 * 256 / 256 == l / 256
    ensures l >= SIGN ==> l / 256 * 256 >= SIGN
  {
  }

  lemma {:induction false} LeadOfMultiple(x: nat, j: nat)
    ensures x / Pow2(8 * j) * Pow2(8 * j) / Pow2(8 * j) == x / Pow2(8 * j)
    ensures x / Pow2(8 * (j + 1)) * Pow2(8 * (j + 1)) / Pow2(8 * j) == x / Pow2(8 * j) / 256 * 256
  {
    var d := Pow2(8 * j);
    var low, top := x / d, x / (256 * d);
    Byte(j);
    DivDiv(x, d, 256);
    MulAssoc(top, 256, d);
    DivModUnique(top * (256 * d), d, top * 256, 0);
    DivModUnique(low * d, d, low, 0);
  }

  /** The test for overflow, exact. */
  lemma {:induction false} OverflowExact(size: nat, word: int)
    requires 3 < size < 256 && 0 <= word < SIGN
    ensures word * Pow2(8 * (size - 3)) >= Pow2(BITS) <==>
            word != 0 && (size > 34 || (word > 0xff && size > 33) || (word > 0xffff && size > 32))
  {
    var p, w := Pow2(8 * (size - 3)), Pow2(BITS);
    SmallPowers();
    if size > 34 {
      Pow2Monotone(BITS, 8 * (size - 3));
      if word != 0 {
        ProductMonotone(1, word, p);
      }
    } else {
      var room := BITS - 8 * (size - 3);
      Pow2Add(room, 8 * (size - 3));
      if size == 34 {
        Threshold(word, 256, p);
      } else if size == 33 {
        Threshold(word, 0x1_0000, p);
      } else {
        Pow2Monotone(24, room);
        Threshold(word, Pow2(room), p);
      }
    }
  }

  lemma {:induction false} Threshold(word: int, room: int, p: int)
    requires p > 0
    ensures word * p >= room * p <==> word >= room
  {
    if word >= room {
      ProductMonotone(room, word, p);
    } else {
      ProductMonotone(word + 1, room, p);
      Distribute(word, 1, p);
    }
  }
}
