/** Concatenation is associative, as a lemma to be asked for where it is needed. */
module Concatenation {
  lemma Regroup<T>(a: seq<T>, b: seq<T>, c: seq<T>)
    ensures a + (b + c) == (a + b) + c
  {
  }

  lemma EmptyAddsNothing<T>(a: seq<T>, b: seq<T>)
    ensures a + [] + b == a + b && a + b + [] == a + b && [] + a == a
  {
  }
}
