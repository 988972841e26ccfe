/** The one fact about sequences that the loops over sequences of work share. */
module Sequences {

  lemma AppendAssociates<T>(a: seq<T>, b: seq<T>, c: seq<T>)
    ensures a + b + c == a + (b + c)
  {
  }
}
