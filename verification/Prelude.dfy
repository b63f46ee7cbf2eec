/** Datatypes shared by every part of the model. */
module Prelude {

  /** An optional value: the source's `T | None`. */
  datatype Option<+T> = None | Some(value: T)

  /** A returned value or a raised exception. */
  datatype Result<+T, +E> = Success(value: T) | Failure(error: E)

  /** The length of the run of `false` that ends `s`: the reference meaning of every failure streak in the source. */
  function TrailingFailures(s: seq<bool>): nat
  {
    if s == [] || s[|s| - 1] then 0 else 1 + TrailingFailures(s[..|s| - 1])
  }

  lemma TrailingAppend(s: seq<bool>, ok: bool)
    ensures TrailingFailures(s + [ok]) == if ok then 0 else TrailingFailures(s) + 1
  {
    assert (s + [ok])[..|s|] == s;
  }

  /** Some number lies above every member of a finite set, so a fresh identifier can always be had. */
  lemma {:induction false} AboveAll(s: set<nat>) returns (n: nat)
    ensures forall m :: m in s ==> m < n
    decreases |s|
  {
    if s == {} {
      n := 0;
    } else {
      var x :| x in s;
      var k := AboveAll(s - {x});
      n := if k > x then k else x + 1;
      assert forall m :: m in s ==> m == x || m in s - {x};
    }
  }
}
