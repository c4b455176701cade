/** What several parts share. */
module Basics {

  datatype Option<+T> = None | Some(value: T)

  predicate Distinct(s: seq<int>) {
    forall i, j :: 0 <= i < j < |s| ==> s[i] != s[j]
  }

  function Zeroes(n: nat): seq<int> {
    seq(n, _ => 0)
  }
}
