/** What the iterators share: a direction, and where a range of keys begins. */
module Ranges {
  datatype Direction = Forward | Reverse

  datatype Low<K> = Start | After(k: K) | From(k: K)
}
