/** Keys and records exchanged between the stages of the bigram job. */
module Keys {

  /** Java's nullable reference, as used for the mapper's `prev` word. */
  datatype Option<T> = None | Some(value: T)

  /** A PairOfStrings key: the left word and the right word or the marker. */
  datatype Pair = Pair(left: string, right: string)

  /** The reserved right element that stands for "all bigrams starting with left". */
  const Marker: string := "*"

  /** A key is a marginal key when its right element equals the marker (a value test, as in the source). */
  predicate IsMarginal(k: Pair) {
    k.right == Marker
  }

  /** One (key, value) pair handed to an OutputCollector. */
  datatype Record<V> = Record(key: Pair, value: V)
}
