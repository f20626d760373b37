/**
  The list of indexes in a BlockTransactionsRequest: ascending 16-bit numbers,
  sent as the distances between them (src/blockencodings.h).
 */
module BlockRequest {
  import opened Common

  datatype Decoded = Overflow | Good(indexes: seq<nat>, offset: nat)

  predicate Ascending(x: seq<nat>) {
    forall i, j | 0 <= i < j < |x| :: x[i] < x[j]
  }

  predicate All16(x: seq<nat>) {
    forall i | 0 <= i < |x| :: x[i] <= MAX16
  }

  /** The distance that is written for entry `i`. */
  function Distance(x: seq<nat>, i: nat): int
    requires i < |x|
  {
    x[i] as int - (if i == 0 then 0 else x[i - 1] + 1)
  }

  /** What the first `n` numbers read amount to; the offset is kept in 16 bits. */
  function Decode(d: seq<nat>, n: nat): (r: Decoded)
    requires n <= |d|
    ensures r.Good? ==> |r.indexes| == n && r.offset <= MAX16 && All16(r.indexes)
  {
    if n == 0 then Good([], 0)
    else
      var r := Decode(d, n - 1);
      if r.Overflow? || d[n - 1] > MAX16 || d[n - 1] + r.offset > MAX16 then Overflow
      else Good(r.indexes + [d[n - 1] + r.offset], (d[n - 1] + r.offset + 1) % (MAX16 + 1))
  }

  /** Distances go out as 64-bit numbers; an ascending list needs no wrap. */
  method Write(x: seq<nat>) returns (d: seq<nat>)
    requires All16(x)
    ensures |d| == |x| && forall i | 0 <= i < |x| :: d[i] == Distance(x, i) % WORD
    ensures Ascending(x) ==> forall i | 0 <= i < |x| :: d[i] == Distance(x, i)
  {
    d := [];
    for i := 0 to |x|
      invariant |d| == i && forall j | 0 <= j < i :: d[j] == Distance(x, j) % WORD
    {
      var before: int := if i == 0 then 0 else x[i - 1] + 1;
      d := d + [(x[i] as int - before) % WORD];
    }
  }

  /** Reading: the numbers first, each checked for 16 bits, then the sums. */
  method Read(d: seq<nat>) returns (ok: bool, indexes: seq<nat>)
    ensures ok == Decode(d, |d|).Good?
    ensures ok ==> indexes == Decode(d, |d|).indexes
  {
    indexes := [];
    for i := 0 to |d|
      invariant indexes == d[..i] && All16(indexes)
    {
      if d[i] > MAX16 {
        OverflowStays(d, i + 1, |d|);
        return false, indexes;
      }
      indexes := indexes + [d[i]];
    }
    assert indexes == d;
    ok, indexes := AddUp(d);
  }

  /** The second loop: each number becomes the sum so far. */
  method AddUp(d: seq<nat>) returns (ok: bool, indexes: seq<nat>)
    requires All16(d)
    ensures ok == Decode(d, |d|).Good?
    ensures ok ==> indexes == Decode(d, |d|).indexes
  {
    indexes := d;
    var offset: nat := 0;
    for j := 0 to |d|
      invariant Summed(d, j, indexes, offset)
    {
      NextSum(d, j, indexes, offset);
      if indexes[j] + offset > MAX16 {
        OverflowStays(d, j + 1, |d|);
        return false, indexes;
      }
      indexes := indexes[j := indexes[j] + offset];
      offset := (indexes[j] + 1) % (MAX16 + 1);
    }
    return true, indexes;
  }

  /** The first `j` distances have been added up in place. */
  predicate Summed(d: seq<nat>, j: nat, indexes: seq<nat>, offset: nat)
    requires j <= |d|
  {
    |indexes| == |d| && indexes[j..] == d[j..] && Decode(d, j) == Good(indexes[..j], offset)
  }

  lemma {:induction false} NextSum(d: seq<nat>, j: nat, indexes: seq<nat>, offset: nat)
    requires All16(d) && j < |d| && Summed(d, j, indexes, offset)
    ensures indexes[j] + offset > MAX16 ==> Decode(d, j + 1).Overflow?
    ensures var x := indexes[j] + offset;
            x <= MAX16 ==> Summed(d, j + 1, indexes[j := x], (x + 1) % (MAX16 + 1))
  {
    assert indexes[j] == indexes[j..][0] == d[j];
    var x := indexes[j] + offset;
    assert indexes[j := x][..j + 1] == indexes[..j] + [x];
    assert indexes[j := x][j + 1..] == indexes[j..][1..] == d[j + 1..];
  }

  lemma {:induction false} OverflowStays(d: seq<nat>, m: nat, n: nat)
    requires m <= n <= |d| && Decode(d, m).Overflow?
    ensures Decode(d, n).Overflow?
  {
    if m < n {
      OverflowStays(d, m, n - 1);
    }
  }

  /** The next distance leads to the next index. */
  lemma {:induction false} RestoredNext(x: seq<nat>, d: seq<nat>, i: nat)
    requires Ascending(x) && All16(x) && |d| == |x| && i < |x| && d[i] == Distance(x, i)
    requires Decode(d, i).Good? && Decode(d, i).indexes == x[..i]
    requires i > 0 ==> Decode(d, i).offset == (x[i - 1] + 1) % (MAX16 + 1)
    ensures Decode(d, i + 1) == Good(x[..i + 1], (x[i] + 1) % (MAX16 + 1))
  {
    if i > 0 {
      assert x[i - 1] < x[i] <= MAX16;
    }
    assert d[i] + Decode(d, i).offset == x[i];
    assert x[..i + 1] == x[..i] + [x[i]];
  }

  /** Every ascending list of 16-bit numbers survives the trip. */
  lemma {:induction false} RoundTrip(x: seq<nat>, d: seq<nat>, n: nat)
    requires Ascending(x) && All16(x) && |d| == |x| && n <= |x|
    requires forall i | 0 <= i < |x| :: d[i] == Distance(x, i)
    ensures Decode(d, n).Good? && Decode(d, n).indexes == x[..n]
    ensures n > 0 ==> Decode(d, n).offset == (x[n - 1] + 1) % (MAX16 + 1)
  {
    if n > 0 {
      RoundTrip(x, d, n - 1);
      RestoredNext(x, d, n - 1);
    }
  }

  /** The number that the first `n` distances reach without any wrap-around. */
  function Reach(d: seq<nat>, n: nat): int
    requires n <= |d|
  {
    if n == 0 then -1 else Reach(d, n - 1) + d[n - 1] + 1
  }

  /** Some entry before the last arrives at 65535, where the 16-bit offset wraps. */
  predicate Wraps(d: seq<nat>, n: nat)
    requires n <= |d|
  {
    exists k | 0 < k < n :: Reach(d, k) == MAX16
  }

  /** Lists that are not ascending are let through: 65535 and then 0. */
  lemma {:induction false} NotAscendingExample()
    ensures Decode([MAX16, 0], 2) == Good([MAX16, 0], 1) && !Ascending([MAX16, 0])
  {
    var d := [MAX16, 0];
    assert Decode(d, 1) == Good([MAX16], 0);
    assert d[0] > d[1];
  }

  /** An accepted list is ascending exactly when the offset never wraps; then the
      distances can be read off it again. */
  lemma {:induction false} AcceptedAscending(d: seq<nat>)
    requires Decode(d, |d|).Good?
    ensures Ascending(Decode(d, |d|).indexes) <==> !Wraps(d, |d|)
    ensures !Wraps(d, |d|) ==> forall i | 0 <= i < |d| :: d[i] == Distance(Decode(d, |d|).indexes, i)
  {
    if Wraps(d, |d|) {
      var k := FirstWrap(d, |d|);
      WrapBreaks(d, k);
    } else {
      NoWrapAscends(d, |d|);
    }
  }

  lemma {:induction false} DecodePrefix(d: seq<nat>, m: nat, n: nat)
    requires m <= n <= |d| && Decode(d, n).Good?
    ensures Decode(d, m).Good? && Decode(d, m).indexes == Decode(d, n).indexes[..m]
  {
    if m < n {
      DecodePrefix(d, m, n - 1);
    }
  }

  lemma {:induction false} FirstWrap(d: seq<nat>, n: nat) returns (k: nat)
    requires n <= |d| && Wraps(d, n)
    ensures 0 < k < n && Reach(d, k) == MAX16 && !Wraps(d, k)
  {
    if Wraps(d, n - 1) {
      k := FirstWrap(d, n - 1);
    } else {
      k := n - 1;
    }
  }

  /** Without a wrap the entries are the plain sums. */
  lemma {:induction false} NoWrapLast(d: seq<nat>, n: nat)
    requires n <= |d| && Decode(d, n).Good? && !Wraps(d, n)
    ensures n > 0 ==> Decode(d, n).indexes[n - 1] == Reach(d, n)
    ensures Decode(d, n).offset == (Reach(d, n) + 1) % (MAX16 + 1)
  {
    if n > 0 {
      NoWrapLast(d, n - 1);
      assert n > 1 ==> Reach(d, n - 1) != MAX16;
      NoWrapNext(d, n - 1);
    }
  }

  lemma {:induction false} NoWrapNext(d: seq<nat>, n: nat)
    requires n < |d| && Decode(d, n + 1).Good? && -1 <= Reach(d, n) < MAX16
    requires Decode(d, n).offset == (Reach(d, n) + 1) % (MAX16 + 1)
    ensures Decode(d, n + 1).indexes[n] == Reach(d, n + 1)
    ensures Decode(d, n + 1).offset == (Reach(d, n + 1) + 1) % (MAX16 + 1)
  {
    assert Decode(d, n).offset == Reach(d, n) + 1;
  }

  lemma {:induction false} NoWrapAt(d: seq<nat>, n: nat, i: nat)
    requires i < n <= |d| && Decode(d, n).Good? && !Wraps(d, n)
    ensures Decode(d, n).indexes[i] == Reach(d, i + 1)
  {
    DecodePrefix(d, i + 1, n);
    NoWrapLast(d, i + 1);
  }

  lemma {:induction false} ReachGrows(d: seq<nat>, m: nat, n: nat)
    requires m < n <= |d|
    ensures Reach(d, m) < Reach(d, n)
  {
    if m < n - 1 {
      ReachGrows(d, m, n - 1);
    }
  }

  lemma {:induction false} NoWrapAscends(d: seq<nat>, n: nat)
    requires n <= |d| && Decode(d, n).Good? && !Wraps(d, n)
    ensures Ascending(Decode(d, n).indexes)
    ensures forall i | 0 <= i < n :: d[i] == Distance(Decode(d, n).indexes, i)
  {
    var x := Decode(d, n).indexes;
    forall i, j | 0 <= i < j < n
      ensures x[i] < x[j]
    {
      NoWrapAt(d, n, i);
      NoWrapAt(d, n, j);
      ReachGrows(d, i + 1, j + 1);
    }
    forall i | 0 <= i < n
      ensures d[i] == Distance(x, i)
    {
      NoWrapAt(d, n, i);
      if i > 0 {
        NoWrapAt(d, n, i - 1);
      }
    }
  }

  lemma {:induction false} WrapBreaks(d: seq<nat>, k: nat)
    requires 0 < k < |d| && Decode(d, |d|).Good? && Reach(d, k) == MAX16 && !Wraps(d, k)
    ensures !Ascending(Decode(d, |d|).indexes)
  {
    DecodePrefix(d, k, |d|);
    NoWrapLast(d, k);
    var x := Decode(d, |d|).indexes;
    assert x[k - 1] == x[..k][k - 1] == Reach(d, k);
    assert x[k] <= MAX16;
  }
}
