/** Small facts about sequence concatenation and slicing, used by the other modules. */
module Sequences {

  /** A non-empty sequence is its head followed by its tail, also under concatenation. */
  lemma HeadTail<T>(a: seq<T>, b: seq<T>)
    requires a != []
    ensures a == [a[0]] + a[1..]
    ensures a + b == [a[0]] + (a[1..] + b)
  {
  }

  /** Concatenation is associative. */
  lemma Assoc<T>(x: seq<T>, y: seq<T>, z: seq<T>)
    ensures x + (y + z) == (x + y) + z
  {
  }

  /** The empty sequence is a unit of concatenation. */
  lemma Unit<T>(x: seq<T>)
    ensures [] + x == x && x + [] == x
  {
  }
}
