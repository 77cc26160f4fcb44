// A non-negative integer used as a key that is known to be dense and close to
// zero (include/flipsta/core/dense.hpp).
module DenseIndex {

  /** The wrapped integer; construction requires it to be non-negative. */
  datatype Dense = Dense(value: nat)

  function MakeDense(v: int): (d: Dense)
    requires v >= 0
    ensures d.value == v
  {
    Dense(v)
  }

  /** Two wrapped values are equal exactly when the integers are. */
  lemma EqualIffValuesEqual(a: Dense, b: Dense)
    ensures a == b <==> a.value == b.value
  {
  }

  predicate Less(a: Dense, b: Dense) { a.value < b.value }
  predicate LessOrEqual(a: Dense, b: Dense) { a.value <= b.value }
  predicate Greater(a: Dense, b: Dense) { a.value > b.value }
  predicate GreaterOrEqual(a: Dense, b: Dense) { a.value >= b.value }

  /** The comparisons form the strict and non-strict versions of one total order. */
  lemma ComparisonsAgree(a: Dense, b: Dense, c: Dense)
    ensures !Less(a, a)
    ensures Less(a, b) && Less(b, c) ==> Less(a, c)
    ensures Less(a, b) || a == b || Less(b, a)
    ensures LessOrEqual(a, b) <==> Less(a, b) || a == b
    ensures Greater(a, b) <==> Less(b, a)
    ensures GreaterOrEqual(a, b) <==> !Less(a, b)
  {
  }

  /** The hash of a wrapped value is the hash of the integer it wraps. */
  function Hash(d: Dense, hashInt: int -> int): (h: int)
    ensures h == hashInt(d.value)
  {
    hashInt(d.value)
  }
}
