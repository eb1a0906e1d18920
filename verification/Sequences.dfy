/** Concatenation laws, for the loops that move an element from what is left to what is done. */
module Sequences {

  lemma Associative<T>(a: seq<T>, b: seq<T>, c: seq<T>)
    ensures (a + b) + c == a + (b + c)
  {
  }

  lemma EmptyIsNeutral<T>(a: seq<T>)
    ensures [] + a == a && a + [] == a
  {
  }
}
