/**
  The code of SetCompact, GetCompact (src/arith_uint256.cpp) and GetBlockProof
  (src/chain.cpp) on 256-bit numbers.
 */
module Target {
  import opened Limbs
  import opened Arith256
  import opened Compact

  /** The number is the meaning of the word modulo 2^256, and the overflow flag
      says exactly whether that lost anything. */
  method SetCompact(t: BaseUint, c: int) returns (negative: bool, overflow: bool)
    requires t.pn.Length == WIDTH && Is32(c)
    modifies t.pn
    ensures t.Valid() && t.V() == Meaning(c) % W()
    ensures overflow == (Meaning(c) >= W())
    ensures negative == (Meaning(c) != 0 && SignBit(c))
  {
    var size, word := c / UNIT, c % SIGN;
    ghost var mantissa := word;
    if size <= 3 {
      word := word / Pow2(8 * (3 - size));
      DivSmaller(mantissa, Pow2(8 * (3 - size)));
      t.SetUint64(word);
      SmallIsBelow(word);
    } else {
      t.SetUint64(word);
      t.Shl(8 * (size - 3));
      OverflowExact(size, word);
      ProductZero(word, Pow2(8 * (size - 3)));
    }
    negative := word != 0 && (c / SIGN) % 2 == 1;
    overflow := word != 0 && (size > 34 || (word > 0xff && size > 33) || (word > 0xffff && size > 32));
  }

  lemma {:induction false} SmallIsBelow(word: int)
    requires 0 <= word < SIGN
    ensures word < W() && word % W() == word
  {
    SmallPowers();
    Pow2Monotone(23, BITS);
    DivModUnique(word, W(), 0, word);
  }

  lemma {:induction false} ProductZero(x: int, p: int)
    requires p > 0
    ensures x * p == 0 <==> x == 0
  {
  }

  /** The word encodes the number; both assertions of the source hold. */
  method GetCompact(t: BaseUint, negative: bool) returns (c: int)
    requires t.Valid()
    ensures t.V() >= 0 && Is32(c) && c == Pack(Encode(t.V()), negative && t.V() != 0)
  {
    ghost var x := t.V();
    ValBound(t.pn[..], WIDTH);
    var bits := t.Bits();
    var size: nat := (bits + 7) / 8;
    BitsToBytes(x, bits);
    EncodeBounds(x);
    LeadBounds(x);
    var m := LeadOf(t, size);
    TopBitTest(m);
    if (m / SIGN) % 2 == 1 {
      m := m / 256;
      size := size + 1;
    }
    assert m < SIGN;
    assert size < 256;
    c := Join(m, size, negative);
    Unpack(Encode(x), negative && x != 0);
  }

  lemma {:induction false} TopBitTest(m: int)
    requires 0 <= m < UNIT
    ensures (m / SIGN) % 2 == 1 <==> m >= SIGN
  {
  }

  /** Puts the three fields of the word together with bitwise or. */
  method Join(m: int, size: nat, negative: bool) returns (c: int)
    requires 0 <= m < SIGN && size < 256
    ensures c == Pack(Parts(size, m), negative && m != 0)
  {
    c := Or(m, size * UNIT);
    JoinSize(m, size);
    MantissaOf(m, size);
    if negative && c % SIGN != 0 {
      JoinSign(m, size);
      c := Or(c, SIGN);
    }
  }

  lemma {:induction false} MantissaOf(m: int, size: nat)
    requires 0 <= m < SIGN
    ensures (size * UNIT + m) % SIGN == m
  {
  }

  method LeadOf(t: BaseUint, size: nat) returns (m: int)
    requires t.Valid() && t.V() >= 0 && size == ByteSize(t.V())
    ensures m == Lead(t.V(), size)
  {
    LeadBounds(t.V());
    if size <= 3 {
      var low := t.GetLow64();
      ByteSizeBounds(t.V());
      SmallLow(t.V(), size);
      m := (low * Pow2(8 * (3 - size))) % (BASE * BASE) % BASE;
      Low32(Lead(t.V(), size));
    } else {
      var bn := new BaseUint(t.pn[..]);
      bn.Shr(8 * (size - 3));
      var low := bn.GetLow64();
      Low32(Lead(t.V(), size));
      m := low % BASE;
    }
  }

  lemma {:induction false} Low32(x: int)
    requires 0 <= x < UNIT
    ensures x % (BASE * BASE) == x && x % BASE == x
  {
  }

  lemma {:induction false} SmallLow(x: int, size: nat)
    requires 0 <= x < Pow2(8 * size) && size <= 3
    ensures x % (BASE * BASE) == x
  {
    SmallPowers();
    Pow2Monotone(8 * size, 24);
  }

  lemma {:induction false} JoinSize(m: int, size: nat)
    requires 0 <= m < SIGN && size < 256
    ensures Or(m, size * UNIT) == size * UNIT + m
  {
    SmallPowers();
    OrIsSum(size, m, 24);
  }

  lemma {:induction false} JoinSign(m: int, size: nat)
    requires 0 <= m < SIGN && size < 256
    ensures Or(size * UNIT + m, SIGN) == size * UNIT + m + SIGN
  {
    SmallPowers();
    OrSplit(size, m, 0, SIGN, 24);
    OrIsSum(1, m, 23);
    OrZero(size);
  }

  /** Two numbers cut at the same place are joined part by part. */
  lemma {:induction false} OrSplit(q: nat, x: nat, q': nat, y: nat, s: nat)
    requires x < Pow2(s) && y < Pow2(s)
    ensures q * Pow2(s) >= 0 && q' * Pow2(s) >= 0
    ensures Or(q * Pow2(s) + x, q' * Pow2(s) + y) == Or(q, q') * Pow2(s) + Or(x, y)
  {
    if s == 0 {
      assert x == 0 && y == 0;
    } else {
      OrSplit(q, x / 2, q', y / 2, s - 1);
      var p := Pow2(s - 1);
      Double(q, p);
      Double(q', p);
      Double(Or(q, q'), p);
      OrStep(q * p, x, q' * p, y);
    }
  }

  lemma {:induction false} OrStep(a: nat, x: nat, b: nat, y: nat)
    ensures Or(2 * a + x, 2 * b + y) ==
            2 * Or(a + x / 2, b + y / 2) + if x % 2 == 1 || y % 2 == 1 then 1 else 0
  {
    assert (2 * a + x) / 2 == a + x / 2 && (2 * b + y) / 2 == b + y / 2;
  }

  /** A header whose word is negative, too large or zero counts for nothing. */
  predicate Accepted(c: int)
    requires Is32(c)
  {
    0 < Meaning(c) < W() && !SignBit(c)
  }

  /** The expected number of hashes: floor(2^256 / (target + 1)). */
  method GetBlockProof(bits: int) returns (r: BaseUint)
    requires Is32(bits)
    ensures r.Valid() && r.V() == if Accepted(bits) then W() / (Meaning(bits) + 1) else 0
  {
    var t, rejected := ReadTarget(bits);
    if rejected {
      r := Zero();
    } else {
      r := Proof(t);
    }
  }

  method Zero() returns (r: BaseUint)
    ensures fresh(r.pn) && r.Valid() && r.V() == 0
  {
    r := new BaseUint([0, 0, 0, 0, 0, 0, 0, 0]);
    r.Clear();
  }

  /** Decodes the target and rejects it where the source returns zero. */
  method ReadTarget(bits: int) returns (t: BaseUint, rejected: bool)
    requires Is32(bits)
    ensures t.Valid() && rejected == !Accepted(bits)
    ensures !rejected ==> t.V() == Meaning(bits) && 0 < t.V() < W() - 1
  {
    t := Zero();
    var negative, overflow := SetCompact(t, bits);
    var isZero := t.EqualTo(0);
    rejected := negative || overflow || isZero;
    Judged(bits, t.V(), negative, overflow);
  }

  /** The tests before the division pick out the accepted words. */
  lemma {:induction false} Judged(c: int, v: int, negative: bool, overflow: bool)
    requires Is32(c) && v == Meaning(c) % W() && overflow == (Meaning(c) >= W())
    requires negative == (Meaning(c) != 0 && SignBit(c))
    ensures Accepted(c) == !(negative || overflow || v == 0)
    ensures Accepted(c) ==> v == Meaning(c) && 0 < v < W() - 1
  {
    MeaningNonNegative(c);
    if !overflow {
      DivModUnique(Meaning(c), W(), 0, Meaning(c));
      MeaningHasRoom(c);
    }
  }

  /** (~t / (t + 1)) + 1, with neither a wrap-around nor a zero divisor. */
  method Proof(t: BaseUint) returns (r: BaseUint)
    requires t.Valid() && 0 < t.V() < W() - 1
    ensures r.Valid() && r.V() == W() / (t.V() + 1)
  {
    ghost var v := t.V();
    var d := PlusOne(t);
    DivModUnique(v + 1, W(), 0, v + 1);
    var q := new BaseUint(t.pn[..]);
    q.Complement();
    var ok, rem := q.Div(d.pn[..]);
    assert ok;
    ProofQuotient(v, W());
    r := PlusOne(q);
  }

  /** operator+ with 1 */
  method PlusOne(t: BaseUint) returns (r: BaseUint)
    requires t.Valid()
    ensures fresh(r.pn) && r.Valid() && r.V() == (t.V() + 1) % W()
  {
    var one := new BaseUint(t.pn[..]);
    one.SetUint64(1);
    r := new BaseUint(t.pn[..]);
    r.Add(one);
  }

  lemma {:induction false} ProofQuotient(v: int, w: int)
    requires 0 < v < w - 1
    ensures (w - 1 - v) / (v + 1) + 1 == w / (v + 1)
    ensures ((w - 1 - v) / (v + 1) + 1) % w == w / (v + 1)
  {
    var d := v + 1;
    var q, r := (w - d) / d, (w - d) % d;
    DivMod(w - d, d);
    Distribute(q, 1, d);
    DivModUnique(w, d, q + 1, r);
    DivBounds(w, d, 0);
    ProductMonotone(2, d, q + 1);
    DivModUnique(q + 1, w, 0, q + 1);
  }

  lemma {:induction false} MeaningNonNegative(c: int)
    requires Is32(c)
    ensures Meaning(c) >= 0
  {
    var e, m := Exponent(c), Mantissa(c);
    if e <= 3 {
      DivSmaller(m, Pow2(8 * (3 - e)));
    } else {
      ProductMonotone(0, m, Pow2(8 * (e - 3)));
    }
  }

  lemma {:induction false} EvenBelow(a: int, b: int)
    requires 2 * a < 2 * b
    ensures 2 * a < 2 * b - 1
  {
  }

  lemma {:induction false} ScaledHasRoom(e: nat, m: nat)
    requires m < SIGN && Scaled(e, m) < W()
    ensures Scaled(e, m) < W() - 1
  {
    if e <= 3 {
      DivSmaller(m, Pow2(8 * (3 - e)));
      SmallPowers();
      Pow2Monotone(24, BITS);
    } else {
      var h := Pow2(8 * (e - 3) - 1);
      Double(m, h);
      EvenBelow(m * h, Pow2(BITS - 1));
    }
  }

  /** No word stands for the largest 256-bit number. */
  lemma {:induction false} MeaningHasRoom(c: int)
    requires Is32(c) && Meaning(c) < W()
    ensures Meaning(c) < W() - 1
  {
    ScaledHasRoom(Exponent(c), Mantissa(c));
  }
}
