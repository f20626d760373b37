/**
  The loops of EncodeBase58 and DecodeBase58 over a digit buffer
  (src/base58.cpp), proved to compute Encode and Decode.  The buffer holds the
  highest digit first; the hash of the checksum is a parameter.
 */
module Base58Code {
  import opened Common
  import opened Limbs
  import opened Positional
  import opened Base58

  /** The buffer stands for `v`, and only its last `length` digits are in use. */
  ghost predicate Holding(buf: seq<nat>, base: nat, length: nat, v: nat) {
    length <= |buf| && IsDigits(buf, base) && Num(buf, base, |buf|) == v &&
    forall i | 0 <= i < |buf| - length :: buf[i] == 0
  }

  /** "buf = buf * mul + carry".  The buffer is large enough, so that nothing is
      left to carry: the assertion of the source. */
  method MulAdd(buf: array<nat>, base: nat, mul: nat, c: nat, length: nat, ghost v: nat) returns (r: nat)
    requires base >= 2 && c < mul && Holding(buf[..], base, length, v) && v * mul + c < Pow(base, buf.Length)
    modifies buf
    ensures Holding(buf[..], base, r, v * mul + c)
  {
    ghost var was := buf[..];
    var carry;
    carry, r := MulLoop(buf, base, mul, c, length);
    MulDone(was, buf[..], base, mul, c, carry, r, length, v);
    assert carry == 0;
  }

  /** The first `i` digits from the low end are done. */
  ghost predicate DigitsDone(was: seq<nat>, now: seq<nat>, base: nat, mul: nat, c: nat, carry: nat, i: nat) {
    |was| == |now| && i <= |now| && carry < mul && IsDigits(now, base) &&
    (forall j | 0 <= j < |now| - i :: now[j] == was[j]) &&
    Low(now, base, i) + carry * Pow(base, i) == Low(was, base, i) * mul + c
  }

  method MulLoop(buf: array<nat>, base: nat, mul: nat, c: nat, length: nat) returns (carry: nat, i: nat)
    requires base >= 2 && c < mul && length <= buf.Length && IsDigits(buf[..], base)
    modifies buf
    ensures DigitsDone(old(buf[..]), buf[..], base, mul, c, carry, i)
    ensures i == buf.Length || (carry == 0 && i >= length)
  {
    ghost var was := buf[..];
    carry, i := c, 0;
    while (carry != 0 || i < length) && i < buf.Length
      invariant 0 <= i <= buf.Length && DigitsDone(was, buf[..], base, mul, c, carry, i)
    {
      carry := StepDigit(buf, i, base, mul, carry, was, c);
      i := i + 1;
    }
  }

  /** The digit `i` from the low end. */
  method StepDigit(buf: array<nat>, i: nat, base: nat, mul: nat, carry: nat, ghost was: seq<nat>, ghost c: nat)
    returns (r: nat)
    requires base >= 2 && i < buf.Length && DigitsDone(was, buf[..], base, mul, c, carry, i)
    modifies buf
    ensures DigitsDone(was, buf[..], base, mul, c, r, i + 1)
  {
    var at := buf.Length - 1 - i;
    var n: nat := carry + mul * buf[at];
    var low: nat := n % base;
    DigitStep(was, buf[..], base, mul, c, carry, i, n, low);
    buf[at] := low;
    r := n / base;
  }

  lemma {:induction false} MulDone(was: seq<nat>, now: seq<nat>, base: nat, mul: nat, c: nat, carry: nat, i: nat,
                                   length: nat, v: nat)
    requires base >= 2 && Holding(was, base, length, v) && v * mul + c < Pow(base, |was|)
    requires DigitsDone(was, now, base, mul, c, carry, i) && (i == |now| || (carry == 0 && i >= length))
    ensures carry == 0 && Holding(now, base, i, v * mul + c)
  {
    NumLow(now, base, |now|);
    NumLow(was, base, |was|);
    if i < |now| {
      LowOnly(now, base, i);
      LowOnly(was, base, i);
    } else {
      NoCarry(Low(now, base, i), carry, Pow(base, |now|), v * mul + c);
    }
  }

  lemma {:induction false} NoCarry(low: int, carry: nat, p: int, total: int)
    requires low >= 0 && p > 0 && total < p && low + carry * p == total
    ensures carry == 0
  {
    if carry > 0 {
      ProductMonotone(1, carry, p);
    }
  }

  lemma {:induction false} LowSame(d: seq<nat>, e: seq<nat>, b: nat, n: nat)
    requires |d| == |e| && n <= |d| && forall j | |d| - n <= j < |d| :: d[j] == e[j]
    ensures Low(d, b, n) == Low(e, b, n)
  {
    if n > 0 {
      LowSame(d, e, b, n - 1);
    }
  }

  lemma {:induction false} LowOnly(d: seq<nat>, b: nat, i: nat)
    requires i <= |d| && forall j | 0 <= j < |d| - i :: d[j] == 0
    ensures Low(d, b, |d|) == Low(d, b, i)
    decreases |d| - i
  {
    if i < |d| {
      LowOnly(d, b, i + 1);
    }
  }

  lemma {:induction false} DigitStep(was: seq<nat>, now: seq<nat>, base: nat, mul: nat, c: nat, carry: nat, i: nat,
                                     n: nat, low: nat)
    requires base >= 2 && DigitsDone(was, now, base, mul, c, carry, i) && i < |now|
    requires n == carry + mul * now[|now| - 1 - i] && low == n % base
    ensures 0 <= n / base && DigitsDone(was, now[|now| - 1 - i := low], base, mul, c, n / base, i + 1)
  {
    var at := |now| - 1 - i;
    CarryBelow(carry, mul, now[at], base);
    LowSame(now[at := low], now, base, i);
    CarryValue(Low(now, base, i), Low(was, base, i), carry, now[at], mul, c, n, base, Pow(base, i));
  }

  lemma {:induction false} CarryBelow(carry: nat, mul: nat, d: nat, base: nat)
    requires carry < mul && d < base
    ensures 0 <= (carry + mul * d) / base < mul
  {
    var n := carry + mul * d;
    ProductMonotone(d + 1, base, mul);
    Distribute(d, 1, mul);
    assert n < base * mul;
    var q := n / base;
    assert q * base <= n;
    if q >= mul {
      ProductMonotone(mul, q, base);
    }
  }

  lemma {:induction false} CarryValue(
    now: int, was: int, carry: int, d: int, mul: int, c: int, n: int, base: int, p: int)
    requires base > 0 && n == carry + mul * d && now + carry * p == was * mul + c
    ensures now + n % base * p + n / base * (base * p) == (was + d * p) * mul + c
  {
    var q, r := n / base, n % base;
    assert n == q * base + r;
    MulAssoc(q, base, p);
    Distribute(q * base, r, p);
    Distribute(carry, mul * d, p);
    Distribute(was, d * p, mul);
    assert mul * d * p == d * p * mul;
  }

  /** The next digit leaves the number below what the buffer can hold. */
  lemma {:induction false} RoomFor(d: seq<nat>, mul: nat, z: nat, k: nat, room: nat, base: nat, size: nat)
    requires z <= k < |d| && mul > 0 && IsDigits(d, mul) && (forall i | 0 <= i < z :: d[i] == 0)
    requires k + 1 - z <= room && Pow(mul, room) <= Pow(base, size)
    ensures Num(d, mul, k) * mul + d[k] < Pow(base, size)
  {
    NumBound(d, mul, z, k + 1);
    PowMonotone(mul, k + 1 - z, room);
  }

  /** The digits that are left once leading zeros are skipped. */
  method Significant(buf: array<nat>, base: nat, length: nat, ghost v: nat) returns (d: seq<nat>)
    requires base >= 2 && Holding(buf[..], base, length, v)
    ensures d == Digits(v, base)
  {
    var it := buf.Length - length;
    while it < buf.Length && buf[it] == 0
      invariant 0 <= it <= buf.Length && forall i | 0 <= i < it :: buf[i] == 0
    {
      it := it + 1;
    }
    d := buf[it..];
    NumDrop(buf[..], base, it, buf.Length);
    assert buf[..][it..] == d;
    DigitsOfAll(d, base);
  }

  method EncodeBase58(bytes: seq<nat>) returns (str: string)
    requires IsDigits(bytes, 256)
    ensures str == Encode(bytes)
  {
    var zeroes := 0;
    while zeroes < |bytes| && bytes[zeroes] == 0
      invariant 0 <= zeroes <= |bytes| && forall i | 0 <= i < zeroes :: bytes[i] == 0
    {
      zeroes := zeroes + 1;
    }
    LeadingFrom(bytes, 0, zeroes);
    var d := Convert(bytes, zeroes);
    str := Text(Zeros(zeroes) + d);
  }

  /** The number of the bytes in base 58. */
  method Convert(bytes: seq<nat>, zeroes: nat) returns (d: seq<nat>)
    requires IsDigits(bytes, 256) && zeroes <= |bytes| && forall i | 0 <= i < zeroes :: bytes[i] == 0
    ensures d == Digits(Num(bytes, 256, |bytes|), 58)
  {
    var size := (|bytes| - zeroes) * 138 / 100 + 1;
    var b58 := ZeroBuffer(size, 58);
    var length := 0;
    NumZero(bytes, 256, zeroes);
    EncodeRoom(|bytes| - zeroes);
    for p := zeroes to |bytes|
      invariant Holding(b58[..], 58, length, Num(bytes, 256, p))
    {
      RoomFor(bytes, 256, zeroes, p, |bytes| - zeroes, 58, size);
      length := MulAdd(b58, 58, 256, bytes[p], length, Num(bytes, 256, p));
    }
    d := Significant(b58, 58, length, Num(bytes, 256, |bytes|));
  }

  /** The values of characters, with zero for what is not in the alphabet. */
  function Vals(s: string): (d: seq<nat>)
    ensures |d| == |s| && IsDigits(d, 58)
    ensures forall i | 0 <= i < |s| :: Reads(s[i], d[i])
  {
    seq(|s|, i requires 0 <= i < |s| => if DigitOf(s[i]).Some? then DigitOf(s[i]).value else 0)
  }

  predicate Reads(c: char, v: nat) {
    v == if DigitOf(c).Some? then DigitOf(c).value else 0
  }

  predicate InAlphabet(c: char) {
    DigitOf(c).Some?
  }

  /** strchr in the alphabet */
  method Find(c: char) returns (found: bool, v: nat)
    ensures found == InAlphabet(c) && Reads(c, v) && v < 58
  {
    match DigitOf(c) {
      case Some(d) => found, v := true, d;
      case None => found, v := false, 0;
    }
  }

  /** One word between spaces, after `zeroes` leading ones. */
  ghost predicate WordAt(psz: string, start: nat, core: string, zeroes: nat, vals: seq<nat>) {
    start + |core| <= |psz| && core == psz[start..start + |core|] && zeroes <= |core| == |vals| &&
    (forall i | 0 <= i < |core| :: !IsSpace(core[i])) &&
    (start + |core| < |psz| ==> IsSpace(psz[start + |core|])) &&
    IsDigits(vals, 58) && (forall i | 0 <= i < |core| :: Reads(core[i], vals[i])) &&
    (forall i | 0 <= i < zeroes :: core[i] == '1' && vals[i] == 0)
  }

  predicate AlphabetUpTo(core: string, k: nat, n: nat)
    requires n <= |core|
  {
    forall i | k <= i < n :: InAlphabet(core[i])
  }

  lemma {:induction false} WordStep(psz: string, start: nat, core: string, zeroes: nat, vals: seq<nat>, at: nat,
                                    found: bool, v: nat)
    requires WordAt(psz, start, core, zeroes, vals) && start + zeroes <= at <= start + |core| && at < |psz|
    requires !IsSpace(psz[at]) && found == InAlphabet(psz[at]) && Reads(psz[at], v)
    requires AlphabetUpTo(core, zeroes, at - start)
    ensures at < start + |core| && v == vals[at - start]
    ensures found ==> AlphabetUpTo(core, zeroes, at - start + 1)
    ensures !found ==> !AlphabetUpTo(core, zeroes, |core|)
  {
    var k := at - start;
    assert psz[at] == core[k];
    assert Reads(core[k], vals[k]);
  }

  /** One digit more. */
  method TakeDigit(buf: array<nat>, v: nat, length: nat, ghost vals: seq<nat>, ghost k: nat, ghost zeroes: nat,
                   ghost room: nat) returns (r: nat)
    requires zeroes <= k < |vals| && IsDigits(vals, 58) && v == vals[k] && forall i | 0 <= i < zeroes :: vals[i] == 0
    requires k + 1 - zeroes <= room && Pow(58, room) <= Pow(256, buf.Length)
    requires Holding(buf[..], 256, length, Num(vals, 58, k))
    modifies buf
    ensures Holding(buf[..], 256, r, Num(vals, 58, k + 1))
  {
    RoomFor(vals, 58, zeroes, k, room, 256, buf.Length);
    r := MulAdd(buf, 256, 58, v, length, Num(vals, 58, k));
  }

  /** Reads characters up to a space; false at the first one outside the alphabet. */
  method ConvertText(psz: string, start: nat, zeroes: nat, ghost core: string, ghost vals: seq<nat>)
    returns (valid: bool, at: nat, d: seq<nat>)
    requires WordAt(psz, start, core, zeroes, vals)
    ensures valid <==> AlphabetUpTo(core, zeroes, |core|)
    ensures valid ==> at == start + |core| && d == Digits(Num(vals, 58, |core|), 256)
  {
    var room := |psz| - (start + zeroes);
    var b256 := ZeroBuffer(room * 733 / 1000 + 1, 256);
    NumZero(vals, 58, zeroes);
    DecodeRoom(room);
    var length;
    valid, at, length := TextLoop(psz, start, zeroes, b256, core, vals);
    d := [];
    if valid {
      d := Significant(b256, 256, length, Num(vals, 58, |core|));
    }
  }

  method ZeroBuffer(size: nat, base: nat) returns (b: array<nat>)
    requires base > 0
    ensures fresh(b) && b.Length == size && Holding(b[..], base, 0, 0)
  {
    b := new nat[size](_ => 0);
    NumZero(b[..], base, size);
  }

  method TextLoop(psz: string, start: nat, zeroes: nat, b256: array<nat>, ghost core: string, ghost vals: seq<nat>)
    returns (valid: bool, at: nat, length: nat)
    requires WordAt(psz, start, core, zeroes, vals) && Num(vals, 58, zeroes) == 0 && Holding(b256[..], 256, 0, 0)
    requires Pow(58, |psz| - (start + zeroes)) <= Pow(256, b256.Length)
    modifies b256
    ensures valid <==> AlphabetUpTo(core, zeroes, |core|)
    ensures valid ==> at == start + |core| && Holding(b256[..], 256, length, Num(vals, 58, |core|))
  {
    length := 0;
    at := start + zeroes;
    while at < |psz| && !IsSpace(psz[at])
      invariant start + zeroes <= at <= start + |core| && AlphabetUpTo(core, zeroes, at - start)
      invariant Holding(b256[..], 256, length, Num(vals, 58, at - start))
    {
      var found, v := Find(psz[at]);
      WordStep(psz, start, core, zeroes, vals, at, found, v);
      if !found {
        return false, at, length;
      }
      length := TakeDigit(b256, v, length, vals, at - start, zeroes, |psz| - (start + zeroes));
      at := at + 1;
    }
    valid := true;
  }

  /** Text without the terminating zero; false where the source returns false. */
  method DecodeBase58(psz: string) returns (ok: bool, vch: seq<nat>)
    ensures ok == Decode(psz).Some?
    ensures ok ==> vch == Decode(psz).value
  {
    var start := 0;
    while start < |psz| && IsSpace(psz[start])
      invariant 0 <= start <= |psz| && Skip(psz, start, true) == Skip(psz, 0, true)
    {
      start := start + 1;
    }
    ghost var end := Skip(psz, start, false);
    ghost var core := psz[start..end];
    var zeroes := CountOnes(psz, start, core);
    Ones(core, zeroes);
    var valid, at, d := ConvertText(psz, start, zeroes, core, Vals(core));
    if !valid {
      return false, [];
    }
    while at < |psz| && IsSpace(psz[at])
      invariant end <= at <= |psz| && Skip(psz, at, true) == Skip(psz, end, true)
    {
      at := at + 1;
    }
    if at != |psz| {
      return false, [];
    }
    DecodeParts(psz, core, zeroes, d);
    return true, Zeros(zeroes) + d;
  }

  /** Skips the leading ones. */
  method CountOnes(psz: string, start: nat, ghost core: string) returns (zeroes: nat)
    requires start + |core| <= |psz| && core == psz[start..start + |core|]
    requires start + |core| < |psz| ==> IsSpace(psz[start + |core|])
    ensures zeroes <= |core| && forall i | 0 <= i < zeroes :: core[i] == '1'
    ensures zeroes < |core| ==> core[zeroes] != '1'
  {
    zeroes := 0;
    while start + zeroes < |psz| && psz[start + zeroes] == '1'
      invariant zeroes <= |core| && forall i | 0 <= i < zeroes :: core[i] == '1'
    {
      assert zeroes < |core| ==> core[zeroes] == psz[start + zeroes];
      zeroes := zeroes + 1;
    }
    assert zeroes < |core| ==> core[zeroes] == psz[start + zeroes];
  }

  /** The character for zero is the digit 1, and no other is. */
  lemma {:induction false} Ones(core: string, zeroes: nat)
    requires zeroes <= |core| && forall i | 0 <= i < zeroes :: core[i] == '1'
    requires zeroes < |core| ==> core[zeroes] != '1'
    ensures forall i | 0 <= i < zeroes :: Vals(core)[i] == 0 && InAlphabet(core[i])
    ensures zeroes < |core| && InAlphabet(core[zeroes]) ==> Vals(core)[zeroes] != 0
  {
    forall i | 0 <= i < zeroes
      ensures Vals(core)[i] == 0 && InAlphabet(core[i])
    {
      assert Reads(core[i], Vals(core)[i]);
    }
    if zeroes < |core| {
      assert Reads(core[zeroes], Vals(core)[zeroes]);
    }
  }

  lemma {:induction false} DecodeParts(psz: string, core: string, zeroes: nat, d: seq<nat>)
    requires core == Core(psz) && OneWord(psz) && forall i | 0 <= i < |core| :: InAlphabet(core[i])
    requires zeroes <= |core| && (forall i | 0 <= i < zeroes :: Vals(core)[i] == 0)
    requires zeroes < |core| ==> Vals(core)[zeroes] != 0
    requires d == Digits(Num(Vals(core), 58, |core|), 256)
    ensures Decode(psz) == Some(Zeros(zeroes) + d)
  {
    forall i | 0 <= i < |core|
      ensures DigitOf(core[i]) == Some(Vals(core)[i])
    {
      assert InAlphabet(core[i]) && Reads(core[i], Vals(core)[i]);
    }
    assert Values(core) == Vals(core);
    LeadingFrom(Vals(core), 0, zeroes);
  }

  method EncodeBase58Check(bytes: seq<nat>, sum: seq<nat> -> seq<nat>) returns (str: string)
    requires IsDigits(bytes, 256) && IsChecksum(sum, bytes)
    ensures str == EncodeCheck(bytes, sum)
  {
    str := EncodeBase58(bytes + sum(bytes));
  }

  method DecodeBase58Check(psz: string, sum: seq<nat> -> seq<nat>) returns (ok: bool, vch: seq<nat>)
    ensures ok == DecodeCheck(psz, sum).Some?
    ensures vch == if ok then DecodeCheck(psz, sum).value else []
  {
    ok, vch := DecodeBase58(psz);
    if !ok || |vch| < 4 {
      return false, [];
    }
    var n := |vch| - 4;
    if sum(vch[..n]) != vch[n..] {
      return false, [];
    }
    vch := vch[..n];
  }

  // ----- a std::string, passed on as a C string

  /** The text before the first NUL. */
  function UpToNul(s: string): (r: string)
    ensures r <= s && '\0' !in r && (r == s || s[|r|] == '\0')
  {
    if s == [] || s[0] == '\0' then [] else [s[0]] + UpToNul(s[1..])
  }

  lemma {:induction false} NulRefused(s: string)
    requires '\0' in s
    ensures Decode(s) == None
  {
    var k :| 0 <= k < |s| && s[k] == '\0';
    var i := Skip(s, 0, true);
    var j := Skip(s, i, false);
    if OneWord(s) {
      assert i <= k < j;
      assert Core(s)[k - i] == '\0' && DigitOf('\0') == None;
    }
  }

  /** Text with a NUL in it is read otherwise than as a whole exactly if the part
      before the NUL can be read. */
  lemma {:induction false} NulCutsIff(s: string)
    ensures Decode(UpToNul(s)) == Decode(s) <==> '\0' !in s || Decode(UpToNul(s)) == None
  {
    if '\0' in s {
      NulRefused(s);
    } else {
      NoNul(s);
    }
  }

  lemma {:induction false} NoNul(s: string)
    requires '\0' !in s
    ensures UpToNul(s) == s
  {
    if s != [] {
      NoNul(s[1..]);
    }
  }

  method DecodeBase58String(str: string) returns (ok: bool, vch: seq<nat>)
    ensures ok == Decode(UpToNul(str)).Some?
    ensures ok ==> vch == Decode(UpToNul(str)).value
  {
    ok, vch := DecodeBase58(UpToNul(str));
  }

  method DecodeBase58CheckString(str: string, sum: seq<nat> -> seq<nat>) returns (ok: bool, vch: seq<nat>)
    ensures ok == DecodeCheck(UpToNul(str), sum).Some?
    ensures vch == if ok then DecodeCheck(UpToNul(str), sum).value else []
  {
    ok, vch := DecodeBase58Check(UpToNul(str), sum);
  }
}
