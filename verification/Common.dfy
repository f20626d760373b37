/**
  What several modules share.
 */
module Common {

  /** `None` stands for a missing value, and in some functions for an assertion of
      the source that fires. */
  datatype Option<+T> = None | Some(value: T) {
    predicate IsFailure() { None? }
    function PropagateFailure<U>(): Option<U> requires None? { None }
    function Extract(): T requires Some? { value }
  }

  datatype Assertion = Holds | Fires {
    predicate IsFailure() { Fires? }
    function PropagateFailure<U>(): Option<U> requires Fires? { None }
  }

  function Assert(b: bool): Assertion {
    if b then Holds else Fires
  }

  /** The largest 16-bit number, and how many 32-bit and 64-bit numbers there are. */
  const MAX16 := 0xffff
  const TWO_32 := 0x1_0000_0000
  const WORD := 0x1_0000_0000_0000_0000

  function Max(a: int, b: int): int {
    if a < b then b else a
  }

  function Min(a: int, b: int): int {
    if a < b then a else b
  }

  lemma {:induction false} SomeElement<T>(s: set<T>) returns (x: T)
    requires s != {}
    ensures x in s
  {
    x :| x in s;
  }

  lemma {:induction false} SubsetSize<T>(s: set<T>, t: set<T>)
    requires s <= t
    ensures |s| <= |t|
  {
    assert t == s + (t - s);
  }
}
