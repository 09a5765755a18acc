/** Option, for lookups and searches that may come back empty, and a
    sequence fact the loops use. */
module Wrappers {

  datatype Option<+T> = None | Some(value: T)

  /** Extending a prefix by one element. */
  lemma TakeOneMore<T>(s: seq<T>, i: nat)
    requires i < |s|
    ensures s[..i + 1] == s[..i] + [s[i]]
  {
  }
}
