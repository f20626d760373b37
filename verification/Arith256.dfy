/**
  base_uint<256>: unsigned 256-bit integers as an array of eight limbs that the
  operators update in place (src/arith_uint256.h, src/arith_uint256.cpp).
  Every operator is proved to compute its integer counterpart.
 */
module Arith256 {
  import opened Limbs

  function W(): int {
    Pow2(BITS)
  }

  class BaseUint {
    const pn: array<int>

    ghost predicate Valid()
      reads this, pn
    {
      IsWide(pn[..])
    }

    ghost function V(): int
      reads this, pn
    {
      Value(pn[..])
    }

    constructor (b: seq<int>)
      requires IsWide(b)
      ensures fresh(pn) && pn[..] == b
    {
      var p := new int[WIDTH];
      for i := 0 to WIDTH
        invariant forall j | 0 <= j < i :: p[j] == b[j]
      {
        p[i] := b[i];
      }
      pn := p;
    }

    /** Sets one limb. */
    method Put(i: nat, x: int)
      requires Valid() && i < WIDTH && IsLimb(x)
      modifies pn
      ensures Valid() && pn[..] == old(pn[..])[i := x]
      ensures V() == old(V()) + (x - old(pn[i])) * Pow2(32 * i)
    {
      ValUpdate(pn[..], WIDTH, i, x);
      pn[i] := x;
    }

    /** operator+= ; `b` may be the number itself. */
    method Add(b: BaseUint)
      requires Valid() && b.Valid()
      modifies pn
      ensures Valid() && V() == (old(V()) + old(b.V())) % W()
    {
      ghost var a, c := pn[..], b.pn[..];
      var carry := 0;
      for i := 0 to WIDTH
        invariant Valid() && 0 <= carry <= 1
        invariant forall j | i <= j < WIDTH :: pn[j] == a[j] && b.pn[j] == c[j]
        invariant Val(pn[..], i) + carry * Pow2(32 * i) == Val(a, i) + Val(c, i)
      {
        var n := carry + pn[i] + b.pn[i];
        ghost var before := pn[..];
        AddStep(before, a, c, i, carry);
        Put(i, n % BASE);
        carry := n / BASE;
        ValSame(before, pn[..], i);
      }
      ValBound(pn[..], WIDTH);
      DivModUnique(Value(a) + Value(c), W(), carry, V());
    }

    /** operator~, in place */
    method Complement()
      requires Valid()
      modifies pn
      ensures Valid() && V() == W() - 1 - old(V())
    {
      ghost var a := pn[..];
      for i := 0 to WIDTH
        invariant Valid()
        invariant forall j | 0 <= j < i :: pn[j] == BASE - 1 - a[j]
        invariant forall j | i <= j < WIDTH :: pn[j] == a[j]
      {
        pn[i] := BASE - 1 - pn[i];
      }
      ComplementValue(a, pn[..], WIDTH);
    }

    /** operator++ */
    method Increment()
      requires Valid()
      modifies pn
      ensures Valid() && V() == (old(V()) + 1) % W()
    {
      var i := 0;
      Bump(0);
      while pn[i] == 0 && i < WIDTH - 1
        invariant Valid() && 0 <= i < WIDTH
        invariant V() == old(V()) + 1 - if pn[i] == 0 then Pow2(32 * (i + 1)) else 0
        decreases WIDTH - i
      {
        i := i + 1;
        Bump(i);
      }
      ValBound(pn[..], WIDTH);
      assert pn[i] == 0 ==> i == WIDTH - 1;
      Remainder(old(V()) + 1, V(), W(), pn[i] == 0);
    }

    /** `++pn[i]`, with wrap-around */
    method Bump(i: nat)
      requires Valid() && i < WIDTH
      modifies pn
      ensures Valid()
      ensures V() == old(V()) + Pow2(32 * i) - if pn[i] == 0 then Pow2(32 * (i + 1)) else 0
    {
      Pow2Limb(i);
      var x := (pn[i] + 1) % BASE;
      StepUp(pn[i], x, Pow2(32 * i));
      Put(i, x);
    }

    /** operator-- */
    method Decrement()
      requires Valid()
      modifies pn
      ensures Valid() && V() == (old(V()) - 1) % W()
    {
      var i := 0;
      Drop(0);
      while pn[i] == BASE - 1 && i < WIDTH - 1
        invariant Valid() && 0 <= i < WIDTH
        invariant V() == old(V()) - 1 + if pn[i] == BASE - 1 then Pow2(32 * (i + 1)) else 0
        decreases WIDTH - i
      {
        i := i + 1;
        Drop(i);
      }
      ValBound(pn[..], WIDTH);
      DivModUnique(old(V()) - 1, W(), if pn[i] == BASE - 1 then -1 else 0, V());
    }

    /** `--pn[i]`, with wrap-around */
    method Drop(i: nat)
      requires Valid() && i < WIDTH
      modifies pn
      ensures Valid()
      ensures V() == old(V()) - Pow2(32 * i) + if pn[i] == BASE - 1 then Pow2(32 * (i + 1)) else 0
    {
      Pow2Limb(i);
      var x := (pn[i] - 1) % BASE;
      StepDown(pn[i], x, Pow2(32 * i));
      Put(i, x);
    }

    /** operator-, in place: two's complement */
    method Negate()
      requires Valid()
      modifies pn
      ensures Valid() && V() == (-old(V())) % W()
    {
      ghost var v := V();
      Complement();
      Increment();
      ValBound(old(pn[..]), WIDTH);
      assert V() == (W() - v) % W();
      ModShift(-v, W());
    }

    /** operator-= : add the negation */
    method Sub(b: seq<int>)
      requires Valid() && IsWide(b)
      modifies pn
      ensures Valid() && V() == (old(V()) - Value(b)) % W()
    {
      var minus := new BaseUint(b);
      minus.Negate();
      ghost var a, m := V(), minus.V();
      Add(minus);
      ModDiff(a, Value(b), m, W());
    }

    /** operator*= by a 32-bit number */
    method MulSmall(b32: int)
      requires Valid() && IsLimb(b32)
      modifies pn
      ensures Valid() && V() == (old(V()) * b32) % W()
    {
      ghost var a := pn[..];
      var carry := 0;
      for i := 0 to WIDTH
        invariant Valid() && IsLimb(carry)
        invariant forall j | i <= j < WIDTH :: pn[j] == a[j]
        invariant Val(pn[..], i) + carry * Pow2(32 * i) == Val(a, i) * b32
      {
        var n := carry + b32 * pn[i];
        ghost var before := pn[..];
        SmallProduct(carry, b32, pn[i], 0);
        MulSmallStep(before, a, b32, i, carry);
        Put(i, n % BASE);
        carry := n / BASE;
        ValSame(before, pn[..], i);
      }
      ValBound(pn[..], WIDTH);
      DivModUnique(Value(a) * b32, W(), carry, V());
    }

    /** `*this = 0` */
    method Clear()
      requires pn.Length == WIDTH
      modifies pn
      ensures Valid() && V() == 0 && forall j | 0 <= j < WIDTH :: pn[j] == 0
    {
      for i := 0 to WIDTH
        invariant forall j | 0 <= j < i :: pn[j] == 0
      {
        pn[i] := 0;
      }
      ValZero(pn[..], WIDTH);
    }

    /** operator=(uint64_t) */
    method SetUint64(b: int)
      requires pn.Length == WIDTH && 0 <= b < BASE * BASE
      modifies pn
      ensures Valid() && V() == b
    {
      Clear();
      Put(0, b % BASE);
      Put(1, b / BASE);
      LowLimbs(b);
    }

    method GetLow64() returns (r: int)
      requires Valid()
      ensures r == V() % (BASE * BASE)
    {
      assert IsLimb(pn[..][0]) && IsLimb(pn[..][1]);
      r := Or(pn[0], pn[1] * BASE);
      LowOr(pn[0], pn[1]);
      LowRest(pn[..], WIDTH);
      DivModUnique(V(), BASE * BASE, (V() - r) / (BASE * BASE), r);
    }

    method EqualTo(b: int) returns (r: bool)
      requires Valid() && 0 <= b < BASE * BASE
      ensures r == (V() == b)
    {
      var i := WIDTH - 1;
      while i >= 2
        invariant 1 <= i < WIDTH
        invariant forall j | i < j < WIDTH :: pn[j] == 0
      {
        if pn[i] != 0 {
          LimbBelow(pn[..], WIDTH, i);
          HighLimb(i);
          return false;
        }
        i := i - 1;
      }
      LowTwo(pn[..], WIDTH);
      assert IsLimb(pn[..][0]) && IsLimb(pn[..][1]);
      return pn[1] == b / BASE && pn[0] == b % BASE;
    }

    /** operator*= ; the number is set to 0 before `b` is read, so that a number
        multiplied by itself comes out as 0. */
    method Mul(b: BaseUint)
      requires Valid() && b.Valid()
      modifies pn
      ensures Valid()
      ensures b.pn != pn ==> V() == (old(V()) * b.V()) % W()
      ensures b.pn == pn ==> V() == 0
    {
      var a := pn[..];
      Clear();
      ghost var q := 0;
      for j := 0 to WIDTH
        invariant Valid() && b.Valid()
        invariant b.pn != pn ==> V() + q * W() == Val(a, j) * b.V()
        invariant b.pn == pn ==> AllZero()
      {
        ghost var dq := MulRow(a[j], b, j);
        if b.pn != pn {
          RowSum(a, b.pn[..], j, V(), q, dq);
        }
        q := q + dq;
      }
      if b.pn != pn {
        ValBound(pn[..], WIDTH);
        DivModUnique(Value(a) * b.V(), W(), q, V());
      } else {
        ValZero(pn[..], WIDTH);
      }
    }

    ghost predicate AllZero()
      reads this, pn
    {
      pn.Length == WIDTH && forall j | 0 <= j < WIDTH :: pn[j] == 0
    }

    /** The inner loop: adds `d * b`, shifted by `j` limbs; `q` counts what runs
        over the top. */
    method MulRow(d: int, b: BaseUint, j: nat) returns (ghost q: int)
      requires Valid() && b.Valid() && IsLimb(d) && j < WIDTH && (b.pn == pn ==> AllZero())
      modifies pn
      ensures Valid() && (b.pn == pn ==> AllZero())
      ensures b.pn != pn ==> V() + q * W() == old(V()) + d * b.V() * Pow2(32 * j)
    {
      ghost var start := V();
      var carry := 0;
      var i := 0;
      while i + j < WIDTH
        invariant Valid() && b.Valid() && 0 <= i <= WIDTH - j && IsLimb(carry)
        invariant b.pn == pn ==> AllZero() && carry == 0
        invariant b.pn != pn ==>
          V() + carry * Pow2(32 * (i + j)) == start + d * Val(b.pn[..], i) * Pow2(32 * j)
      {
        carry := MulDigit(d, b, i, j, carry, start);
        i := i + 1;
      }
      q := 0;
      if b.pn != pn {
        var high := Upper(b.pn[..], i);
        RowRest(b.pn[..], d, i, j, high);
        q := carry + d * high;
        Distribute(carry, d * high, W());
      }
    }

    /** One digit of the inner loop. */
    method MulDigit(d: int, b: BaseUint, i: nat, j: nat, carry: int, ghost start: int) returns (r: int)
      requires Valid() && b.Valid() && IsLimb(d) && i + j < WIDTH && IsLimb(carry)
      requires b.pn == pn ==> AllZero() && carry == 0
      requires b.pn != pn ==> V() + carry * Pow2(32 * (i + j)) == start + d * Val(b.pn[..], i) * Pow2(32 * j)
      modifies pn
      ensures Valid() && b.Valid() && IsLimb(r)
      ensures b.pn == pn ==> AllZero() && r == 0
      ensures b.pn != pn ==> V() + r * Pow2(32 * (i + 1 + j)) == start + d * Val(b.pn[..], i + 1) * Pow2(32 * j)
    {
      var n := carry + pn[i + j] + d * b.pn[i];
      assert IsLimb(pn[..][i + j]) && IsLimb(b.pn[..][i]);
      SmallProduct(carry, d, b.pn[i], pn[i + j]);
      if b.pn != pn {
        RowStep(b.pn[..], d, i, j, carry, pn[i + j], V(), start);
      } else {
        assert n == 0;
      }
      Put(i + j, n % BASE);
      r := n / BASE;
    }

    /** `pn[i] |= x` where `x` is a multiple of 2^s and the limb below 2^s, or
        the other way round. */
    method OrInto(i: nat, x: int, ghost s: nat, ghost m: int)
      requires Valid() && i < WIDTH && IsLimb(x) && IsLimb(pn[i] + x)
      requires m >= 0 && ((x == m * Pow2(s) && pn[i] < Pow2(s)) || (pn[i] == m * Pow2(s) && x < Pow2(s)))
      modifies pn
      ensures Valid() && pn[..] == old(pn[..])[i := old(pn[i]) + x]
      ensures V() == old(V()) + x * Pow2(32 * i)
    {
      assert IsLimb(pn[..][i]);
      if x == m * Pow2(s) {
        OrIsSum(m, pn[i], s);
      } else {
        OrIsSum(m, x, s);
      }
      Put(i, Or(pn[i], x));
    }

    /** `pn[i] |= x` on a zero limb. */
    method OrZeroLimb(i: nat, x: int)
      requires Valid() && i < WIDTH && IsLimb(x) && pn[i] == 0
      modifies pn
      ensures Valid() && pn[..] == old(pn[..])[i := x] && V() == old(V()) + x * Pow2(32 * i)
    {
      OrZero(x);
      Put(i, Or(pn[i], x));
    }

    /** operator<<= */
    method Shl(shift: nat)
      requires Valid()
      modifies pn
      ensures Valid() && V() == (old(V()) * Pow2(shift)) % W()
    {
      var a := pn[..];
      Clear();
      var k, s := shift / 32, shift % 32;
      ghost var q := 0;
      for i := 0 to WIDTH
        invariant Valid() && V() + q * W() == Val(a, i) * Pow2(shift)
        invariant forall j | i + k < j < WIDTH :: pn[j] == 0
        invariant i + k < WIDTH ==> pn[i + k] < Pow2(s)
      {
        ghost var dq := ShlDigit(a[i], i + k, s);
        ShlSum(a, i, k, s, shift, q, dq, V());
        q := q + dq;
      }
      ValBound(pn[..], WIDTH);
      DivModUnique(Value(a) * Pow2(shift), W(), q, V());
    }

    /** One round of operator<<=: adds `x << s` at limb `pos`. */
    method ShlDigit(x: int, pos: nat, s: nat) returns (ghost dq: int)
      requires Valid() && IsLimb(x) && s < 32
      requires forall j | pos < j < WIDTH :: pn[j] == 0
      requires pos < WIDTH ==> pn[pos] < Pow2(s)
      modifies pn
      ensures Valid() && V() + dq * W() == old(V()) + x * Pow2(s) * Pow2(32 * pos)
      ensures forall j | pos + 1 < j < WIDTH :: pn[j] == 0
      ensures pos + 1 < WIDTH ==> pn[pos + 1] < Pow2(s)
    {
      if pos >= WIDTH {
        dq := ShlOver(x * Pow2(s), pos);
        return;
      }
      ghost var m, hi, lo := ShlDigits(x, s);
      CarryStep(pos, x * Pow2(s), lo, hi);
      dq := if pos + 1 < WIDTH then 0 else hi;
      if pos + 1 < WIDTH && s != 0 {
        OrInto(pos + 1, x / Pow2(32 - s), s, 0);
      }
      assert V() + dq * W() == old(V()) + hi * Pow2(32 * (pos + 1));
      OrInto(pos, (x * Pow2(s)) % BASE, s, m);
    }

    /** operator>>= */
    method Shr(shift: nat)
      requires Valid()
      modifies pn
      ensures Valid() && V() == old(V()) / Pow2(shift)
    {
      var a := pn[..];
      Clear();
      var k, s := shift / 32, shift % 32;
      ghost var rem := 0;
      for i := 0 to WIDTH
        invariant Valid() && V() * Pow2(shift) + rem == Val(a, i) && 0 <= rem < Pow2(shift)
        invariant i <= k ==> V() == 0
        invariant forall j | 0 <= i - k <= j < WIDTH :: pn[j] == 0
        invariant i <= k ==> forall j | 0 <= j < WIDTH :: pn[j] == 0
        invariant i > k ==> pn[i - k - 1] < Pow2(32 - s)
      {
        rem := ShrDigit(a, i, k, s, shift, rem);
      }
      DivModUnique(Value(a), Pow2(shift), V(), rem);
    }

    /** One round of operator>>=. */
    method ShrDigit(a: seq<int>, i: nat, k: nat, s: nat, shift: nat, ghost rem: int) returns (ghost rem': int)
      requires Valid() && IsWide(a) && i < WIDTH && s < 32 && shift == 32 * k + s
      requires V() * Pow2(shift) + rem == Val(a, i) && 0 <= rem < Pow2(shift)
      requires i <= k ==> V() == 0
      requires forall j | 0 <= i - k <= j < WIDTH :: pn[j] == 0
      requires i <= k ==> forall j | 0 <= j < WIDTH :: pn[j] == 0
      requires i > k ==> pn[i - k - 1] < Pow2(32 - s)
      modifies pn
      ensures Valid() && V() * Pow2(shift) + rem' == Val(a, i + 1) && 0 <= rem' < Pow2(shift)
      ensures i + 1 <= k ==> V() == 0
      ensures forall j | 0 <= i + 1 - k <= j < WIDTH :: pn[j] == 0
      ensures i + 1 <= k ==> forall j | 0 <= j < WIDTH :: pn[j] == 0
      ensures i + 1 > k ==> pn[i - k] < Pow2(32 - s)
    {
      if i < k {
        rem' := Val(a, i + 1);
        ValBound(a, i + 1);
        Pow2Monotone(32 * (i + 1), shift);
      } else if i == k {
        rem' := ShrStart(a, k, s, shift, rem);
      } else {
        ghost var up := ShrMore(a[i], i - k, s);
        rem' := rem;
        ShrNextValue(a, i, k, s, shift, old(V()), V(), up, rem);
      }
    }

    /** The first limb that leaves something above the shift. */
    method ShrStart(a: seq<int>, k: nat, s: nat, shift: nat, ghost rem: int) returns (ghost rem': int)
      requires Valid() && IsWide(a) && k < WIDTH && s < 32 && shift == 32 * k + s
      requires V() == 0 && rem == Val(a, k) && forall j | 0 <= j < WIDTH :: pn[j] == 0
      modifies pn
      ensures Valid() && V() * Pow2(shift) + rem' == Val(a, k + 1) && 0 <= rem' < Pow2(shift)
      ensures pn[0] < Pow2(32 - s) && forall j | 1 <= j < WIDTH :: pn[j] == 0
    {
      ghost var r, up := ShrDigits(a[k], s);
      OrZeroLimb(0, a[k] / Pow2(s));
      rem' := rem + r * Pow2(32 * k);
      ValBound(a, k);
      ShrFirst(a[k], k, s, shift, r, rem);
    }

    /** A later limb: its low part completes the limb below. */
    method ShrMore(x: int, pos: nat, s: nat) returns (ghost up: int)
      requires Valid() && IsLimb(x) && 0 < pos < WIDTH && s < 32
      requires pn[pos - 1] < Pow2(32 - s) && forall j | pos <= j < WIDTH :: pn[j] == 0
      modifies pn
      ensures Valid()
      ensures up == (x % Pow2(s)) * Pow2(32 - s)
      ensures V() == old(V()) + up * Pow2(32 * (pos - 1)) + (x / Pow2(s)) * Pow2(32 * pos)
      ensures pn[pos] < Pow2(32 - s) && forall j | pos < j < WIDTH :: pn[j] == 0
    {
      ghost var r;
      r, up := ShrDigits(x, s);
      if s != 0 {
        var low := (x * Pow2(32 - s)) % BASE;
        OrInto(pos - 1, low, 32 - s, r);
      } else {
        ZeroTimes(up, Pow2(32 * (pos - 1)));
      }
      OrZeroLimb(pos, x / Pow2(s));
    }

    /** The position of the highest bit set plus one, or zero. */
    method Bits() returns (r: nat)
      requires Valid()
      ensures r <= BITS && (r == 0 <==> V() == 0)
      ensures r > 0 ==> Pow2(r - 1) <= V() < Pow2(r)
    {
      var pos := WIDTH;
      while pos > 0
        invariant 0 <= pos <= WIDTH && V() == Val(pn[..], pos)
      {
        pos := pos - 1;
        assert IsLimb(pn[..][pos]);
        if pn[pos] != 0 {
          var bit := LimbBits(pn[pos]);
          TopLimb(pn[..], pos, bit);
          return 32 * pos + bit + 1;
        }
      }
      return 0;
    }

    /** -1, 0 or 1 */
    method CompareTo(b: seq<int>) returns (r: int)
      requires Valid() && IsWide(b)
      ensures r == if V() < Value(b) then -1 else if V() > Value(b) then 1 else 0
    {
      var i := WIDTH;
      while i > 0
        invariant 0 <= i <= WIDTH && V() - Value(b) == Val(pn[..], i) - Val(b, i)
      {
        i := i - 1;
        if pn[i] < b[i] {
          HigherDigit(pn[..], b, i);
          return -1;
        }
        if pn[i] > b[i] {
          HigherDigit(b, pn[..], i);
          return 1;
        }
      }
      return 0;
    }

    /** operator/= ; `ok` is false where the source throws.  The remainder is
        what is left in `num`. */
    method Div(b: seq<int>) returns (ok: bool, ghost rem: int)
      requires Valid() && IsWide(b)
      modifies pn
      ensures Valid() && ok == (Value(b) != 0)
      ensures ok ==> V() == old(V()) / Value(b) && rem == old(V()) % Value(b)
      ensures !ok ==> V() == 0
    {
      var div := new BaseUint(b);
      var num := new BaseUint(pn[..]);
      Clear();
      var numBits := num.Bits();
      var divBits := div.Bits();
      ValBound(b, WIDTH);
      ValBound(num.pn[..], WIDTH);
      if divBits == 0 {
        return false, 0;
      }
      ghost var n, d := old(V()), Value(b);
      if divBits > numBits {
        Pow2Monotone(numBits, divBits - 1);
        DivModUnique(n, d, 0, n);
        return true, n;
      }
      var shift := numBits - divBits;
      AlignBound(n, d, numBits, divBits);
      div.Shl(shift);
      rem := DivLoop(num, div, shift, n, d);
      return true, rem;
    }

    /** The shift-subtract loop, from a divisor aligned with the numerator. */
    method DivLoop(num: BaseUint, div: BaseUint, top: nat, ghost n: int, ghost d: int) returns (ghost rem: int)
      requires Valid() && num.Valid() && div.Valid() && num.pn != pn && div.pn != pn && num.pn != div.pn
      requires top < BITS && d > 0 && V() == 0 && forall j | 0 <= j < WIDTH :: pn[j] == 0
      requires num.V() == n && div.V() == d * Pow2(top) && n < d * Pow2(top + 1)
      modifies pn, num.pn, div.pn
      ensures Valid() && V() == n / d && rem == n % d && num.Valid() && num.V() == rem
    {
      var shift: int := top;
      ZeroIsClear(pn[..], top + 1);
      while shift >= 0
        invariant -1 <= shift <= top && Valid() && num.Valid() && div.Valid()
        invariant shift >= 0 ==> div.V() == d * Pow2(shift)
        invariant V() * d + num.V() == n && num.V() < d * Pow2(shift + 1)
        invariant LowClear(pn[..], shift + 1)
      {
        ghost var q, a := V(), num.V();
        DivStep(num, div, shift);
        DivArith(n, d, shift, q, a, V(), num.V());
        shift := shift - 1;
      }
      ValBound(num.pn[..], WIDTH);
      rem := num.V();
      DivModUnique(n, d, V(), rem);
    }

    /** One turn of the loop: subtract the divisor where it fits, halve it. */
    method DivStep(num: BaseUint, div: BaseUint, shift: nat)
      requires Valid() && num.Valid() && div.Valid() && num.pn != pn && div.pn != pn && num.pn != div.pn
      requires shift < BITS && LowClear(pn[..], shift + 1)
      modifies pn, num.pn, div.pn
      ensures Valid() && num.Valid() && div.Valid() && LowClear(pn[..], shift)
      ensures div.V() == old(div.V()) / Pow2(1)
      ensures num.V() == if old(num.V()) >= old(div.V()) then old(num.V()) - old(div.V()) else old(num.V())
      ensures V() == if old(num.V()) >= old(div.V()) then old(V()) + Pow2(shift) else old(V())
    {
      var c := num.CompareTo(div.pn[..]);
      if c >= 0 {
        num.SubExact(div.pn[..]);
        SetBit(shift);
      } else {
        ClearLower(pn[..], shift);
      }
      div.Shr(1);
    }

    method SubExact(b: seq<int>)
      requires Valid() && IsWide(b) && V() >= Value(b)
      modifies pn
      ensures Valid() && V() == old(V()) - Value(b)
    {
      ValBound(pn[..], WIDTH);
      ValBound(b, WIDTH);
      DivModUnique(V() - Value(b), W(), 0, V() - Value(b));
      Sub(b);
    }

    /** `pn[n / 32] |= 1 << (n & 31)`, where no bit up to `n` is set yet. */
    method SetBit(n: nat)
      requires Valid() && n < BITS && LowClear(pn[..], n + 1)
      modifies pn
      ensures Valid() && V() == old(V()) + Pow2(n) && LowClear(pn[..], n)
    {
      var i, t := n / 32, n % 32;
      assert IsLimb(pn[..][i]);
      ghost var m := BitRoom(pn[i], t);
      OrInto(i, Pow2(t), t + 1, m);
      Pow2Add(t, 32 * i);
      BitSetClear(old(pn[..]), n);
    }
  }

  lemma {:induction false} LowLimbs(b: int)
    ensures b % BASE * Pow2(32 * 0) + b / BASE * Pow2(32 * 1) == b
  {
    Pow2Is32();
  }

  lemma {:induction false} LowOr(x: int, y: int)
    requires IsLimb(x) && IsLimb(y)
    ensures Or(x, y * BASE) == x + y * BASE
  {
    Pow2Is32();
    OrIsSum(y, x, 32);
  }

  /** Above the two lowest limbs only multiples of 2^64 follow. */
  lemma {:induction false} LowRest(s: seq<int>, n: nat)
    requires 2 <= n <= |s|
    ensures (Val(s, n) - (s[0] + s[1] * BASE)) % (BASE * BASE) == 0
  {
    Pow2Is32();
    if n == 2 {
      assert Val(s, 1) == s[0];
    } else {
      LowRest(s, n - 1);
      Pow2Add(64, 32 * (n - 1) - 64);
      Pow2Add(32, 32);
      var p := Pow2(32 * (n - 1) - 64);
      assert s[n - 1] * (BASE * BASE * p) == (s[n - 1] * p) * (BASE * BASE);
      MultipleSum(Val(s, n - 1) - (s[0] + s[1] * BASE), s[n - 1] * p, BASE * BASE);
    }
  }

  lemma {:induction false} MultipleSum(x: int, k: int, d: int)
    requires d > 0 && x % d == 0
    ensures (x + k * d) % d == 0
  {
    Distribute(x / d, k, d);
    DivModUnique(x + k * d, d, x / d + k, 0);
  }

  lemma {:induction false} LowTwo(s: seq<int>, n: nat)
    requires 2 <= n <= |s| && forall j | 2 <= j < n :: s[j] == 0
    ensures Val(s, n) == s[0] + s[1] * BASE
  {
    Pow2Is32();
    if n == 2 {
      assert Val(s, 1) == s[0];
    } else {
      LowTwo(s, n - 1);
    }
  }

  lemma {:induction false} LimbBelow(s: seq<int>, n: nat, i: nat)
    requires i < n <= |s| && AllLimbs(s) && s[i] != 0
    ensures Val(s, n) >= Pow2(32 * i)
  {
    if i == n - 1 {
      ValBound(s, i);
      assert IsLimb(s[i]);
      ProductMonotone(1, s[i], Pow2(32 * i));
    } else {
      LimbBelow(s, n - 1, i);
      assert IsLimb(s[n - 1]);
      ProductMonotone(0, s[n - 1], Pow2(32 * (n - 1)));
    }
  }

  lemma {:induction false} HighLimb(i: nat)
    requires i >= 2
    ensures Pow2(32 * i) >= BASE * BASE
  {
    Pow2Is32();
    Pow2Add(32, 32);
    Pow2Monotone(64, 32 * i);
  }

  /** All bits below `n` are zero. */
  predicate LowClear(s: seq<int>, n: nat) {
    forall j | 0 <= j < |s| :: LimbClear(s[j], n - 32 * j)
  }

  /** The lowest `d` bits of a limb are clear. */
  predicate LimbClear(x: int, d: int) {
    if d >= 32 then x == 0 else d > 0 ==> x % Pow2(d) == 0
  }

  lemma {:induction false} ZeroIsClear(s: seq<int>, n: nat)
    requires forall j | 0 <= j < |s| :: s[j] == 0
    ensures LowClear(s, n)
  {
    forall j | 0 <= j < |s| && 32 * j < n
      ensures s[j] % Pow2(n - 32 * j) == 0
    {
      DivModUnique(s[j], Pow2(n - 32 * j), 0, 0);
    }
  }

  /** A sum that is short by `w` or by nothing. */
  lemma {:induction false} Remainder(a: int, r: int, w: int, wrapped: bool)
    requires 0 <= r < w && r == a - if wrapped then w else 0
    ensures r == a % w
  {
    DivModUnique(a, w, if wrapped then 1 else 0, r);
  }

  lemma {:induction false} HalfMultiple(x: int, t: nat)
    requires x % Pow2(t + 1) == 0
    ensures x % Pow2(t) == 0 && (x + Pow2(t)) % Pow2(t) == 0
  {
    var q, p := x / Pow2(t + 1), Pow2(t);
    assert x == q * (2 * p);
    assert x == (2 * q) * p;
    DivModUnique(x, p, 2 * q, 0);
    Distribute(2 * q, 1, p);
    DivModUnique(x + p, p, 2 * q + 1, 0);
  }

  lemma {:induction false} LimbClearer(x: int, d: int)
    requires LimbClear(x, d + 1)
    ensures LimbClear(x, d)
  {
    if 0 < d < 31 {
      HalfMultiple(x, d);
    }
  }

  lemma {:induction false} ClearLower(s: seq<int>, n: nat)
    requires LowClear(s, n + 1)
    ensures LowClear(s, n)
  {
    forall j | 0 <= j < |s|
      ensures LimbClear(s[j], n - 32 * j)
    {
      LimbClearer(s[j], n - 32 * j);
    }
  }

  lemma {:induction false} BitSetClear(s: seq<int>, n: nat)
    requires LowClear(s, n + 1) && n / 32 < |s|
    ensures LowClear(s[n / 32 := s[n / 32] + Pow2(n % 32)], n)
  {
    ClearLower(s, n);
    var i, t := n / 32, n % 32;
    if t > 0 {
      if n + 1 < 32 * i + 32 {
        HalfMultiple(s[i], t);
      } else {
        assert Pow2(t) % Pow2(t) == 0;
      }
    }
  }

  lemma {:induction false} BitRoom(x: int, t: nat) returns (m: int)
    requires IsLimb(x) && t < 32 && (if t + 1 == 32 then x == 0 else x % Pow2(t + 1) == 0)
    ensures m >= 0 && x == m * Pow2(t + 1) && Pow2(t) < Pow2(t + 1) && IsLimb(Pow2(t)) && IsLimb(x + Pow2(t))
  {
    var p, u := Pow2(t + 1), Pow2(31 - t);
    if t + 1 == 32 {
      m := 0;
    } else {
      m := x / p;
      DivMod(x, p);
    }
    Pow2Add(31 - t, t + 1);
    Pow2Is32();
    assert u * p == BASE;
    MultipleBelow(x, m, p, u);
    assert p == 2 * Pow2(t);
  }

  lemma {:induction false} MultipleBelow(x: int, m: int, p: int, u: int)
    requires p > 0 && x == m * p && 0 <= x < u * p
    ensures m >= 0 && x + p <= u * p
  {
    if m >= u {
      ProductMonotone(u, m, p);
    } else {
      ProductMonotone(m + 1, u, p);
      Distribute(m, 1, p);
    }
    if m < 0 {
      ProductMonotone(m, -1, p);
    }
  }

  lemma {:induction false} DivArith(n: int, d: int, shift: nat, q: int, a: int, q': int, a': int)
    requires q * d + a == n && a < d * Pow2(shift + 1)
    requires q' == if a >= d * Pow2(shift) then q + Pow2(shift) else q
    requires a' == if a >= d * Pow2(shift) then a - d * Pow2(shift) else a
    ensures q' * d + a' == n && a' < d * Pow2(shift)
    ensures shift > 0 ==> (d * Pow2(shift)) / Pow2(1) == d * Pow2(shift - 1)
  {
    if shift > 0 {
      HalfShift(d, shift);
    }
    Distribute(q, Pow2(shift), d);
    Double(d, Pow2(shift));
  }

  lemma {:induction false} HalfShift(d: int, shift: nat)
    requires shift > 0
    ensures (d * Pow2(shift)) / Pow2(1) == d * Pow2(shift - 1)
  {
    Double(d, Pow2(shift - 1));
    assert Pow2(1) == 2;
  }

  /** Aligned, the divisor fits and its double exceeds the numerator. */
  lemma {:induction false} AlignBound(n: int, d: int, nb: nat, db: nat)
    requires 0 < db <= nb <= BITS && Pow2(db - 1) <= d < Pow2(db) && Pow2(nb - 1) <= n < Pow2(nb)
    ensures (d * Pow2(nb - db)) % W() == d * Pow2(nb - db)
    ensures n < d * Pow2(nb - db + 1)
  {
    var k := nb - db;
    Pow2Add(db, k);
    ProductMonotone(d + 1, Pow2(db), Pow2(k));
    Distribute(d, 1, Pow2(k));
    Pow2Monotone(nb, BITS);
    ProductMonotone(0, d, Pow2(k));
    DivModUnique(d * Pow2(k), W(), 0, d * Pow2(k));
    Pow2Add(db - 1, k + 1);
    ProductMonotone(Pow2(db - 1), d, Pow2(k + 1));
  }

  /** The highest bit of a limb that is not zero. */
  method LimbBits(x: int) returns (bit: nat)
    requires 0 < x < BASE
    ensures bit < 32 && Pow2(bit) <= x < Pow2(bit + 1)
  {
    Pow2Is32();
    bit := 31;
    while bit > 0
      invariant 0 <= bit <= 31 && x < Pow2(bit + 1)
    {
      TopBit(x, bit);
      if (x / Pow2(bit)) % 2 == 1 {
        return bit;
      }
      bit := bit - 1;
    }
  }

  lemma {:induction false} TopBit(x: int, bit: nat)
    requires 0 <= x < Pow2(bit + 1)
    ensures (x / Pow2(bit)) % 2 == 1 <==> x >= Pow2(bit)
  {
    var p := Pow2(bit);
    if x >= p {
      DivModUnique(x, p, 1, x - p);
    } else {
      DivModUnique(x, p, 0, x);
    }
  }

  lemma {:induction false} TopLimb(s: seq<int>, pos: nat, bit: nat)
    requires pos < |s| && AllLimbs(s) && Pow2(bit) <= s[pos] < Pow2(bit + 1)
    ensures Pow2(32 * pos + bit) <= Val(s, pos + 1) < Pow2(32 * pos + bit + 1)
  {
    var p := Pow2(32 * pos);
    ValBound(s, pos);
    Pow2Add(bit, 32 * pos);
    Pow2Add(bit + 1, 32 * pos);
    ProductMonotone(Pow2(bit), s[pos], p);
    ProductMonotone(s[pos] + 1, Pow2(bit + 1), p);
    Distribute(s[pos], 1, p);
  }

  lemma {:induction false} HigherDigit(s: seq<int>, t: seq<int>, i: nat)
    requires |s| == |t| && AllLimbs(s) && AllLimbs(t) && i < |s| && s[i] < t[i]
    ensures Val(s, i + 1) < Val(t, i + 1)
  {
    var p := Pow2(32 * i);
    ValBound(s, i);
    ValBound(t, i);
    ProductMonotone(s[i] + 1, t[i], p);
    Distribute(s[i], 1, p);
  }

  lemma {:induction false} ShrNextValue(
    a: seq<int>, i: nat, k: nat, s: nat, shift: nat, v: int, v': int, up: int, rem: int)
    requires i < |a| && AllLimbs(a) && shift == 32 * k + s && s < 32 && i > k
    requires v * Pow2(shift) + rem == Val(a, i)
    requires up == (a[i] % Pow2(s)) * Pow2(32 - s)
    requires v' == v + up * Pow2(32 * (i - k - 1)) + (a[i] / Pow2(s)) * Pow2(32 * (i - k))
    ensures v' * Pow2(shift) + rem == Val(a, i + 1)
  {
    DivMod(a[i], Pow2(s));
    ShrNext(a[i], i, k, s, shift, a[i] % Pow2(s));
    Distribute(v, v' - v, Pow2(shift));
  }

  /** A number below `t * u`, times `u`: what stays below and what goes over. */
  lemma {:induction false} SplitTimes(x: int, t: int, u: int)
    requires 0 <= x < t * u && t > 0 && u > 0
    ensures x * u == (x % t) * u + (x / t) * (t * u)
    ensures 0 <= (x % t) * u && (x % t) * u + u <= t * u
    ensures (x * u) % (t * u) == (x % t) * u && 0 <= x / t < u
  {
    var h, m := x / t, x % t;
    QuotientBelow(x, t, u);
    Distribute(h * t, m, u);
    MulAssoc(h, t, u);
    ProductMonotone(m + 1, t, u);
    Distribute(m, 1, u);
    ProductMonotone(0, m, u);
    DivModUnique(x * u, t * u, h, m * u);
  }

  /** The two parts of a limb shifted left. */
  lemma {:induction false} ShlDigits(x: int, s: nat) returns (m: int, hi: int, lo: int)
    requires IsLimb(x) && s < 32
    ensures lo == (x * Pow2(s)) % BASE && hi == x / Pow2(32 - s)
    ensures x * Pow2(s) == lo + hi * BASE && lo == m * Pow2(s) && m >= 0
    ensures 0 <= hi < Pow2(s) && 0 <= lo && lo + Pow2(s) <= BASE
    ensures s == 0 ==> hi == 0
  {
    var t, u := Pow2(32 - s), Pow2(s);
    Pow2Add(32 - s, s);
    Pow2Is32();
    SplitTimes(x, t, u);
    hi, m := x / t, x % t;
    lo := m * u;
  }

  lemma {:induction false} ShlSum(a: seq<int>, i: nat, k: nat, s: nat, shift: nat, q: int, dq: int, v: int)
    requires i < |a| && shift == 32 * k + s
    requires v + dq * W() == Val(a, i) * Pow2(shift) - q * W() + a[i] * Pow2(s) * Pow2(32 * (i + k))
    ensures v + (q + dq) * W() == Val(a, i + 1) * Pow2(shift)
  {
    Distribute(q, dq, W());
    Distribute(Val(a, i), a[i] * Pow2(32 * i), Pow2(shift));
    Pow2Add(32 * k, s);
    Pow2Add(32 * i, 32 * k);
    Rearrange(a[i], Pow2(s), Pow2(32 * i), Pow2(32 * k));
  }

  lemma {:induction false} Rearrange(x: int, s: int, i: int, k: int)
    ensures x * s * (i * k) == x * i * (k * s)
  {
    assert x * s * (i * k) == x * (s * (i * k));
    assert x * i * (k * s) == x * (i * (k * s));
    assert s * (i * k) == i * (k * s);
  }

  lemma {:induction false} ShlOver(y: int, pos: nat) returns (dq: int)
    requires pos >= WIDTH
    ensures dq * W() == y * Pow2(32 * pos)
  {
    dq := y * Pow2(32 * (pos - WIDTH));
    Pow2Add(32 * (pos - WIDTH), 32 * WIDTH);
    MulAssoc(y, Pow2(32 * (pos - WIDTH)), W());
  }

  /** The two parts of a limb shifted right. */
  lemma {:induction false} ShrDigits(x: int, s: nat) returns (r: int, up: int)
    requires IsLimb(x) && s < 32
    ensures r == x % Pow2(s) && x == (x / Pow2(s)) * Pow2(s) + r && 0 <= r < Pow2(s)
    ensures up == (x * Pow2(32 - s)) % BASE && up == r * Pow2(32 - s)
    ensures up + Pow2(32 - s) <= BASE && 0 <= x / Pow2(s) < Pow2(32 - s) && up >= 0
    ensures s == 0 ==> r == 0 && up == 0
  {
    var t, u := Pow2(s), Pow2(32 - s);
    Pow2Add(s, 32 - s);
    Pow2Is32();
    SplitTimes(x, t, u);
    DivMod(x, t);
    r := x % t;
    up := r * u;
  }

  lemma {:induction false} ShrFirst(x: int, k: nat, s: nat, shift: nat, r: int, rem: int)
    requires shift == 32 * k + s && x == (x / Pow2(s)) * Pow2(s) + r && 0 <= r < Pow2(s)
    requires 0 <= rem < Pow2(32 * k)
    ensures (x / Pow2(s)) * Pow2(shift) + r * Pow2(32 * k) == x * Pow2(32 * k)
    ensures 0 <= rem + r * Pow2(32 * k) < Pow2(shift)
  {
    Pow2Add(32 * k, s);
    LowPart(x / Pow2(s), Pow2(s), Pow2(32 * k), r, rem);
  }

  lemma {:induction false} LowPart(h: int, u: int, p: int, r: int, rem: int)
    requires 0 <= r < u && 0 <= rem < p
    ensures h * (p * u) + r * p == (h * u + r) * p
    ensures 0 <= rem + r * p < p * u
  {
    Distribute(h * u, r, p);
    MulAssoc(h, u, p);
    ProductMonotone(r + 1, u, p);
    Distribute(r, 1, p);
    ProductMonotone(0, r, p);
  }

  lemma {:induction false} ShrNext(x: int, i: nat, k: nat, s: nat, shift: nat, r: int)
    requires shift == 32 * k + s && s < 32 && i > k && x == (x / Pow2(s)) * Pow2(s) + r
    ensures (r * Pow2(32 - s) * Pow2(32 * (i - k - 1)) + (x / Pow2(s)) * Pow2(32 * (i - k))) * Pow2(shift) ==
            x * Pow2(32 * i)
  {
    var h := x / Pow2(s);
    Pow2Add(32 - s, 32 * (i - k - 1));
    Pow2Add(32 - s + 32 * (i - k - 1), shift);
    Pow2Add(32 * (i - k), shift);
    Pow2Add(s, 32 * i);
    var a, b, c := Pow2(32 - s), Pow2(32 * (i - k - 1)), Pow2(32 * (i - k));
    MulAssoc(r, a, b);
    Distribute(r * (a * b), h * c, Pow2(shift));
    MulAssoc(r, a * b, Pow2(shift));
    MulAssoc(h, c, Pow2(shift));
    MulAssoc(h, Pow2(s), Pow2(32 * i));
    Distribute(h * Pow2(s), r, Pow2(32 * i));
    assert 32 - s + 32 * (i - k - 1) + shift == 32 * i && 32 * (i - k) + shift == s + 32 * i;
  }

  /** The digits above `m` as a number. */
  lemma {:induction false} Upper(b: seq<int>, m: nat) returns (h: int)
    requires m <= |b|
    ensures Value(b) == Val(b, m) + h * Pow2(32 * m)
  {
    h := UpperFrom(b, m, |b|);
  }

  lemma {:induction false} UpperFrom(b: seq<int>, m: nat, n: nat) returns (h: int)
    requires m <= n <= |b|
    ensures Val(b, n) == Val(b, m) + h * Pow2(32 * m)
  {
    if m == n {
      h := 0;
    } else {
      var g := UpperFrom(b, m, n - 1);
      var d := Pow2(32 * (n - 1 - m));
      Pow2Add(32 * (n - 1 - m), 32 * m);
      MulAssoc(b[n - 1], d, Pow2(32 * m));
      h := g + b[n - 1] * d;
      Distribute(g, b[n - 1] * d, Pow2(32 * m));
    }
  }

  lemma {:induction false} RowStep(b: seq<int>, d: int, i: nat, j: nat, carry: int, digit: int, v: int, start: int)
    requires i < |b|
    requires v + carry * Pow2(32 * (i + j)) == start + d * Val(b, i) * Pow2(32 * j)
    ensures var n := carry + digit + d * b[i];
            v + (n % BASE - digit) * Pow2(32 * (i + j)) + (n / BASE) * Pow2(32 * (i + 1 + j)) ==
            start + d * Val(b, i + 1) * Pow2(32 * j)
  {
    var n := carry + digit + d * b[i];
    var p, pi, pj := Pow2(32 * (i + j)), Pow2(32 * i), Pow2(32 * j);
    CarryStep(i + j, n, n % BASE, n / BASE);
    Distribute(n % BASE - digit, digit, p);
    Distribute(carry + d * b[i], digit, p);
    Distribute(carry, d * b[i], p);
    Pow2Add(32 * i, 32 * j);
    Distribute(d * Val(b, i), d * (b[i] * pi), pj);
    assert d * Val(b, i + 1) == d * Val(b, i) + d * (b[i] * pi);
    Regroup(d, b[i], pi, pj);
  }

  lemma {:induction false} Regroup(d: int, x: int, y: int, z: int)
    ensures d * x * (y * z) == d * (x * y) * z
  {
    MulAssoc(d * x, y, z);
    MulAssoc(d, x, y);
  }

  lemma {:induction false} RowRest(b: seq<int>, d: int, i: nat, j: nat, h: int)
    requires i <= |b| && Value(b) == Val(b, i) + h * Pow2(32 * i)
    ensures d * Value(b) * Pow2(32 * j) == d * Val(b, i) * Pow2(32 * j) + d * h * Pow2(32 * (i + j))
  {
    Pow2Add(32 * i, 32 * j);
    SplitProduct(d, Val(b, i), h, Pow2(32 * i), Pow2(32 * j));
  }

  lemma {:induction false} SplitProduct(d: int, low: int, h: int, y: int, z: int)
    ensures d * (low + h * y) * z == d * low * z + d * h * (y * z)
  {
    Distribute(d * low, d * (h * y), z);
    assert d * (low + h * y) == d * low + d * (h * y);
    Regroup(d, h, y, z);
  }

  lemma {:induction false} RowSum(a: seq<int>, b: seq<int>, j: nat, v: int, q: int, dq: int)
    requires j < |a|
    requires v + dq * W() == Val(a, j) * Value(b) - q * W() + a[j] * Value(b) * Pow2(32 * j)
    ensures v + (q + dq) * W() == Val(a, j + 1) * Value(b)
  {
    Distribute(q, dq, W());
    Distribute(Val(a, j), a[j] * Pow2(32 * j), Value(b));
    var p := Pow2(32 * j);
    assert a[j] * Value(b) * p == a[j] * p * Value(b);
  }

  lemma {:induction false} ComplementValue(a: seq<int>, c: seq<int>, n: nat)
    requires n <= |a| == |c| && forall i | 0 <= i < n :: c[i] == BASE - 1 - a[i]
    ensures Val(c, n) == Pow2(32 * n) - 1 - Val(a, n)
  {
    if n > 0 {
      ComplementValue(a, c, n - 1);
      Pow2Limb(n - 1);
      var p := Pow2(32 * (n - 1));
      Distribute(BASE - 1 - a[n - 1], a[n - 1], p);
      Distribute(BASE - 1, 1, p);
    }
  }

  lemma {:induction false} ModShift(x: int, w: int)
    requires w > 0
    ensures (x + w) % w == x % w
  {
    DivModUnique(x + w, w, x / w + 1, x % w);
  }

  lemma {:induction false} ModSum(x: int, y: int, w: int)
    requires w > 0
    ensures (x + y % w) % w == (x + y) % w
  {
    var q := y / w;
    var t := x + y % w;
    assert x + y == t + q * w;
    Distribute(t / w, q, w);
    DivModUnique(x + y, w, t / w + q, t % w);
  }

  lemma {:induction false} ZeroTimes(x: int, p: int)
    requires x == 0
    ensures x * p == 0
  {
  }

  lemma {:induction false} ModDiff(x: int, y: int, m: int, w: int)
    requires w > 0 && m == (-y) % w
    ensures (x + m) % w == (x - y) % w
  {
    ModSum(x, -y, w);
  }

  lemma {:induction false} StepUp(o: int, x: int, p: int)
    requires IsLimb(o) && x == (o + 1) % BASE
    ensures (x - o) * p == if x == 0 then p - p * BASE else p
  {
    if o == BASE - 1 {
      assert x == 0;
    } else {
      assert x == o + 1;
    }
  }

  lemma {:induction false} StepDown(o: int, x: int, p: int)
    requires IsLimb(o) && x == (o - 1) % BASE
    ensures (x - o) * p == if x == BASE - 1 then p * BASE - p else -p
  {
    if o == 0 {
      assert x == BASE - 1;
    } else {
      assert x == o - 1;
    }
  }

  /** A 32-bit product with two 32-bit summands fits 64 bits. */
  lemma {:induction false} SmallProduct(carry: int, x: int, y: int, z: int)
    requires IsLimb(carry) && IsLimb(x) && IsLimb(y) && IsLimb(z)
    ensures 0 <= carry + z + x * y < BASE * BASE
    ensures IsLimb((carry + z + x * y) / BASE)
  {
    ProductMonotone(0, x, y);
    ProductMonotone(x, BASE - 1, y);
    var n := carry + z + x * y;
    assert (BASE - 1) * y <= (BASE - 1) * (BASE - 1);
  }

  lemma {:induction false} MulSmallStep(p: seq<int>, a: seq<int>, b32: int, i: nat, carry: int)
    requires |p| == |a| == WIDTH && i < WIDTH
    requires Val(p, i) + carry * Pow2(32 * i) == Val(a, i) * b32
    ensures var n := carry + b32 * a[i];
            Val(p, i) + (n % BASE) * Pow2(32 * i) + (n / BASE) * Pow2(32 * (i + 1)) == Val(a, i + 1) * b32
  {
    var n := carry + b32 * a[i];
    CarryStep(i, n, n % BASE, n / BASE);
    var q := Pow2(32 * i);
    Distribute(carry, b32 * a[i], q);
    Distribute(Val(a, i), a[i] * q, b32);
    assert b32 * a[i] * q == a[i] * q * b32;
  }

  lemma {:induction false} AddStep(p: seq<int>, a: seq<int>, b: seq<int>, i: nat, carry: int)
    requires |p| == |a| == |b| == WIDTH && i < WIDTH
    requires Val(p, i) + carry * Pow2(32 * i) == Val(a, i) + Val(b, i)
    ensures var n := carry + a[i] + b[i];
            Val(p, i) + (n % BASE) * Pow2(32 * i) + (n / BASE) * Pow2(32 * (i + 1)) == Val(a, i + 1) + Val(b, i + 1)
  {
    var n := carry + a[i] + b[i];
    CarryStep(i, n, n % BASE, n / BASE);
    var p2 := Pow2(32 * i);
    Distribute(carry, a[i] + b[i], p2);
    Distribute(a[i], b[i], p2);
  }
}
