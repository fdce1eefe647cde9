/** The optional value used for Python's `None`, and one fact about appending to a list. */
module Wrappers {
  datatype Option<+T> = None | Some(value: T) {
    function GetOr(default: T): T {
      match this
      case Some(v) => v
      case None => default
    }
  }

  /** Appending to a sequence keeps its elements and puts the new one last. */
  lemma SnocPointwise<T>(xs: seq<T>, x: T)
    ensures forall j :: 0 <= j < |xs| ==> (xs + [x])[j] == xs[j]
    ensures (xs + [x])[|xs|] == x
  {
  }
}
