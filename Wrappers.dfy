/** The optional value used throughout the model for the source's `null`s, and a
    few facts about sequences. */
module Wrappers {
  datatype Option<+T> = None | Some(value: T) {
    function GetOr(default: T): T {
      match this
      case Some(v) => v
      case None => default
    }
  }

  /** Regrouping a concatenation, stated apart from the facts of a larger proof. */
  lemma AppendAssoc<T>(a: seq<T>, b: seq<T>, c: seq<T>)
    ensures a + b + c == a + (b + c)
  {
  }

  /** Slicing a sequence with one more element in front. */
  lemma SliceCons<T>(x: T, tl: seq<T>, n: nat)
    requires n <= |tl|
    ensures ([x] + tl)[..n + 1] == [x] + tl[..n]
    ensures ([x] + tl)[n + 1..] == tl[n..]
  {
  }
}
