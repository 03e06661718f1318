/** Stock types and predicates shared by the models. */
module Wrappers {

  datatype Option<+T> = None | Some(value: T)

  ghost predicate NoDuplicates(s: seq<nat>) {
    forall i, j :: 0 <= i < j < |s| ==> s[i] != s[j]
  }

  /** All elements are below the bound. */
  ghost predicate Below(s: seq<nat>, bound: nat) {
    forall i :: 0 <= i < |s| ==> s[i] < bound
  }
}
