/**
  Base-58 text for byte strings (src/base58.cpp).  A byte is a number below 256.
 */
module Base58 {
  import opened Common
  import opened Positional

  /** The alphabet: digits and letters without 0, I, O and l. */
  function CharOf(d: nat): char
    requires d < 58
  {
    if d < 9 then '1' + d as char
    else if d < 17 then 'A' + (d - 9) as char
    else if d < 22 then 'J' + (d - 17) as char
    else if d < 33 then 'P' + (d - 22) as char
    else if d < 44 then 'a' + (d - 33) as char
    else 'm' + (d - 44) as char
  }

  /** The place in the alphabet, or None. */
  function DigitOf(c: char): Option<nat> {
    if '1' <= c <= '9' then Some(c as nat - '1' as nat)
    else if 'A' <= c <= 'H' then Some(c as nat - 'A' as nat + 9)
    else if 'J' <= c <= 'N' then Some(c as nat - 'J' as nat + 17)
    else if 'P' <= c <= 'Z' then Some(c as nat - 'P' as nat + 22)
    else if 'a' <= c <= 'k' then Some(c as nat - 'a' as nat + 33)
    else if 'm' <= c <= 'z' then Some(c as nat - 'm' as nat + 44)
    else None
  }

  predicate IsSpace(c: char) {
    c == ' ' || '\t' <= c <= '\r'
  }

  lemma {:induction false} AlphabetInverse(d: nat)
    requires d < 58
    ensures DigitOf(CharOf(d)) == Some(d) && !IsSpace(CharOf(d))
  {
  }

  lemma {:induction false} AlphabetOnto(c: char)
    requires DigitOf(c).Some?
    ensures DigitOf(c).value < 58 && CharOf(DigitOf(c).value) == c && !IsSpace(c)
  {
  }

  const ALPHABET := "123456789" + "ABCDEFGH" + "JKLMN" + "PQRSTUVWXYZ" + "abcdefghijk" + "mnopqrstuvwxyz"

  /** The alphabet, letter by letter. */
  lemma {:induction false} Alphabet(d: nat)
    requires d < 58
    ensures |ALPHABET| == 58 && CharOf(d) == ALPHABET[d]
  {
    var i := if d < 9 then d
             else if d < 17 then d - 9
             else if d < 22 then d - 17 else if d < 33 then d - 22 else if d < 44 then d - 33 else d - 44;
    assert i == 0 || i == 1 || i == 2 || i == 3 || i == 4 || i == 5 || i == 6 || i == 7 ||
           i == 8 || i == 9 || i == 10 || i == 11 || i == 12 || i == 13;
  }

  predicate IsText(s: string) {
    forall i | 0 <= i < |s| :: DigitOf(s[i]).Some?
  }

  function Values(s: string): (d: seq<nat>)
    requires IsText(s)
    ensures |d| == |s| && IsDigits(d, 58) && forall i | 0 <= i < |s| :: Some(d[i]) == DigitOf(s[i])
  {
    seq(|s|, i requires 0 <= i < |s| => DigitOf(s[i]).value)
  }

  function Text(d: seq<nat>): (s: string)
    requires IsDigits(d, 58)
    ensures |s| == |d| && forall i | 0 <= i < |s| :: s[i] == CharOf(d[i])
  {
    seq(|d|, i requires 0 <= i < |d| => CharOf(d[i]))
  }

  /** As many leading zeros as before, then the same number in the new base. */
  function Rebase(d: seq<nat>, a: nat, b: nat): (r: seq<nat>)
    requires b >= 2
    ensures IsDigits(r, b)
  {
    Zeros(Leading(d, 0)) + Digits(Num(d, a, |d|), b)
  }

  function Encode(bytes: seq<nat>): string {
    Text(Rebase(bytes, 256, 58))
  }

  /** The first place from `k` on that is a space or is not one. */
  function Skip(s: string, k: nat, space: bool): (r: nat)
    requires k <= |s|
    ensures k <= r <= |s| && (forall i | k <= i < r :: IsSpace(s[i]) == space) && (r < |s| ==> IsSpace(s[r]) != space)
    decreases |s| - k
  {
    if k < |s| && IsSpace(s[k]) == space then Skip(s, k + 1, space) else k
  }

  /** The text between outer spaces, up to the first space inside. */
  function Core(s: string): string {
    var i := Skip(s, 0, true);
    s[i..Skip(s, i, false)]
  }

  /** Nothing but spaces follows the core. */
  predicate OneWord(s: string) {
    Skip(s, Skip(s, Skip(s, 0, true), false), true) == |s|
  }

  function Decode(s: string): Option<seq<nat>> {
    if OneWord(s) && IsText(Core(s)) then Some(Rebase(Values(Core(s)), 58, 256)) else None
  }

  // ----- round trips

  lemma {:induction false} LeadingOfRebase(z: nat, v: nat, b: nat)
    requires b >= 2
    ensures Leading(Zeros(z) + Digits(v, b), 0) == z
  {
    LeadingFrom(Zeros(z) + Digits(v, b), 0, z);
  }

  lemma {:induction false} LeadingFrom(d: seq<nat>, k: nat, z: nat)
    requires k <= z <= |d| && (forall i | 0 <= i < z :: d[i] == 0) && (z < |d| ==> d[z] != 0)
    ensures Leading(d, k) == z
    decreases z - k
  {
    if k < z {
      LeadingFrom(d, k + 1, z);
    }
  }

  lemma {:induction false} NumOfRebase(z: nat, v: nat, b: nat)
    requires b >= 2
    ensures Num(Zeros(z) + Digits(v, b), b, z + |Digits(v, b)|) == v
  {
    var d := Zeros(z) + Digits(v, b);
    NumDrop(d, b, z, |d|);
    assert d[z..] == Digits(v, b);
    NumOfDigits(v, b);
  }

  /** Changing the base and back gives the digits again, zeros included. */
  lemma {:induction false} RebaseBack(d: seq<nat>, a: nat, b: nat)
    requires a >= 2 && b >= 2 && IsDigits(d, a)
    ensures Rebase(Rebase(d, a, b), b, a) == d
  {
    var z, v := Leading(d, 0), Num(d, a, |d|);
    LeadingOfRebase(z, v, b);
    NumOfRebase(z, v, b);
    Canonical(d, a);
  }

  lemma {:induction false} ValuesOfText(d: seq<nat>)
    requires IsDigits(d, 58)
    ensures IsText(Text(d)) && Values(Text(d)) == d
    ensures forall i | 0 <= i < |d| :: !IsSpace(Text(d)[i])
  {
    var s := Text(d);
    forall i | 0 <= i < |d|
      ensures DigitOf(s[i]) == Some(d[i]) && !IsSpace(s[i])
    {
      AlphabetInverse(d[i]);
    }
  }

  lemma {:induction false} TextOfValues(s: string)
    requires IsText(s)
    ensures Text(Values(s)) == s
  {
    forall i | 0 <= i < |s|
      ensures CharOf(Values(s)[i]) == s[i]
    {
      AlphabetOnto(s[i]);
    }
  }

  lemma {:induction false} SkipAll(s: string, k: nat, space: bool)
    requires k <= |s| && forall i | k <= i < |s| :: IsSpace(s[i]) == space
    ensures Skip(s, k, space) == |s|
    decreases |s| - k
  {
    if k < |s| {
      SkipAll(s, k + 1, space);
    }
  }

  lemma {:induction false} SkipTo(s: string, k: nat, r: nat, space: bool)
    requires k <= r <= |s| && (forall i | k <= i < r :: IsSpace(s[i]) == space) && (r < |s| ==> IsSpace(s[r]) != space)
    ensures Skip(s, k, space) == r
    decreases |s| - k
  {
    if k < r {
      SkipTo(s, k + 1, r, space);
    }
  }

  lemma {:induction false} NoSpaces(s: string)
    requires forall i | 0 <= i < |s| :: !IsSpace(s[i])
    ensures OneWord(s) && Core(s) == s
  {
    SkipAll(s, 0, false);
  }

  /** What was encoded comes back byte for byte. */
  lemma {:induction false} DecodeEncode(bytes: seq<nat>)
    requires IsDigits(bytes, 256)
    ensures Decode(Encode(bytes)) == Some(bytes)
  {
    var d := Rebase(bytes, 256, 58);
    ValuesOfText(d);
    NoSpaces(Text(d));
    RebaseBack(bytes, 256, 58);
  }

  /** Text that decodes is the encoding of what it decodes to, but for spaces
      around it. */
  lemma {:induction false} EncodeDecode(s: string)
    requires Decode(s).Some?
    ensures Encode(Decode(s).value) == Core(s) && IsDigits(Decode(s).value, 256)
  {
    var d := Values(Core(s));
    RebaseBack(d, 58, 256);
    TextOfValues(Core(s));
  }

  /** Nothing but space, tab, newline, vertical tab, form feed or return. */
  predicate Blank(s: string) {
    forall i | 0 <= i < |s| :: s[i] as nat in {32, 9, 10, 11, 12, 13}
  }

  lemma {:induction false} BlankIff(c: char)
    ensures IsSpace(c) <==> c as nat in {32, 9, 10, 11, 12, 13}
  {
    if 9 <= c as nat <= 13 {
      assert c as nat == 9 || c as nat == 10 || c as nat == 11 || c as nat == 12 || c as nat == 13;
    }
  }

  /** Blanks around a word are skipped, and nothing else. */
  lemma {:induction false} Padded(a: string, t: string, b: string)
    requires Blank(a) && Blank(b) && forall i | 0 <= i < |t| :: !IsSpace(t[i])
    ensures OneWord(a + t + b) && Core(a + t + b) == t
  {
    var s := a + t + b;
    forall i | 0 <= i < |s|
      ensures IsSpace(s[i]) == (i < |a| || i >= |a| + |t|)
    {
      BlankIff(s[i]);
    }
    if t == [] {
      SkipTo(s, 0, |s|, true);
    } else {
      SkipTo(s, 0, |a|, true);
      SkipTo(s, |a|, |a| + |t|, false);
      SkipTo(s, |a| + |t|, |s|, true);
    }
  }

  /** Text that decodes is a word between blanks. */
  lemma {:induction false} Unpadded(s: string)
    requires OneWord(s)
    ensures exists a: string, b: string :: Blank(a) && Blank(b) && s == a + Core(s) + b
  {
    var i := Skip(s, 0, true);
    var j := Skip(s, i, false);
    var a, b := s[..i], s[j..];
    forall k | 0 <= k < |a|
      ensures a[k] as nat in {32, 9, 10, 11, 12, 13}
    {
      BlankIff(s[k]);
    }
    forall k | 0 <= k < |b|
      ensures b[k] as nat in {32, 9, 10, 11, 12, 13}
    {
      BlankIff(s[j + k]);
    }
    assert Blank(a) && Blank(b) && s == a + Core(s) + b;
  }

  /** Text decodes to given bytes exactly if it is their encoding between blanks. */
  lemma {:induction false} DecodesIff(s: string, bytes: seq<nat>)
    requires IsDigits(bytes, 256)
    ensures Decode(s) == Some(bytes) <==>
            exists a: string, b: string :: Blank(a) && Blank(b) && s == a + Encode(bytes) + b
  {
    if Decode(s) == Some(bytes) {
      EncodeDecode(s);
      Unpadded(s);
    }
    if a: string, b: string :| Blank(a) && Blank(b) && s == a + Encode(bytes) + b {
      PaddedDecodes(a, b, bytes);
    }
  }

  lemma {:induction false} PaddedDecodes(a: string, b: string, bytes: seq<nat>)
    requires IsDigits(bytes, 256) && Blank(a) && Blank(b)
    ensures Decode(a + Encode(bytes) + b) == Some(bytes)
  {
    var d := Rebase(bytes, 256, 58);
    ValuesOfText(d);
    Padded(a, Text(d), b);
    RebaseBack(bytes, 256, 58);
  }

  // ----- with a checksum

  /** The first four bytes of the hash. */
  predicate IsChecksum(sum: seq<nat> -> seq<nat>, b: seq<nat>) {
    |sum(b)| == 4 && IsDigits(sum(b), 256)
  }

  function EncodeCheck(bytes: seq<nat>, sum: seq<nat> -> seq<nat>): string {
    Encode(bytes + sum(bytes))
  }

  function DecodeCheck(s: string, sum: seq<nat> -> seq<nat>): Option<seq<nat>> {
    var r := Decode(s);
    if r.None? || |r.value| < 4 then None
    else
      var n := |r.value| - 4;
      if sum(r.value[..n]) != r.value[n..] then None else Some(r.value[..n])
  }

  lemma {:induction false} DecodeEncodeCheck(bytes: seq<nat>, sum: seq<nat> -> seq<nat>)
    requires IsDigits(bytes, 256) && IsChecksum(sum, bytes)
    ensures DecodeCheck(EncodeCheck(bytes, sum), sum) == Some(bytes)
  {
    var b := bytes + sum(bytes);
    DecodeEncode(b);
    assert b[..|b| - 4] == bytes && b[|b| - 4..] == sum(bytes);
  }

  /** Text is accepted exactly when it is the encoding of something. */
  lemma {:induction false} CheckAccepts(s: string, sum: seq<nat> -> seq<nat>, bytes: seq<nat>)
    requires IsDigits(bytes, 256) && IsChecksum(sum, bytes)
    ensures DecodeCheck(s, sum) == Some(bytes) <==> OneWord(s) && Core(s) == EncodeCheck(bytes, sum)
  {
    var b := bytes + sum(bytes);
    if DecodeCheck(s, sum) == Some(bytes) {
      var v := Decode(s).value;
      assert v == v[..|v| - 4] + v[|v| - 4..];
      EncodeDecode(s);
    }
    if OneWord(s) && Core(s) == EncodeCheck(bytes, sum) {
      var d := Rebase(b, 256, 58);
      ValuesOfText(d);
      RebaseBack(b, 256, 58);
      assert Decode(s) == Some(b);
      assert b[..|b| - 4] == bytes && b[|b| - 4..] == sum(bytes);
    }
  }
}
