/** Small option type for values the source may leave nil, and sequence facts used throughout. */
module Prelude {
  datatype Option<+T> = None | Some(value: T)

  lemma Assoc<T>(a: seq<T>, b: seq<T>, c: seq<T>)
    ensures (a + b) + c == a + (b + c)
  {
  }

  lemma Neutral<T>(a: seq<T>)
    ensures [] + a == a == a + []
  {
  }
}
