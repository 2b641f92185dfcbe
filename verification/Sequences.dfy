/** Laws of concatenation. */
module Sequences {
  lemma Assoc<T>(a: seq<T>, b: seq<T>, c: seq<T>)
    ensures a + b + c == a + (b + c)
  {}

  lemma EmptyRight<T>(s: seq<T>)
    ensures s + [] == s
  {}

  lemma EmptyLeft<T>(s: seq<T>)
    ensures [] + s == s
  {}

  lemma PrefixOf<T>(a: seq<T>, b: seq<T>)
    ensures a <= a + b
  {}
}
