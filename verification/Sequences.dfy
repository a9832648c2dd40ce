/** Facts about sequences that several modules need. */
module Sequences {

  /** Behind the same front, what is equal as a whole is equal. */
  lemma SamePrefix<T>(front: seq<T>, x: seq<T>, y: seq<T>)
    ensures front + x == front + y <==> x == y
  {
    assert (front + x)[|front|..] == x && (front + y)[|front|..] == y;
  }
}
