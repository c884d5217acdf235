/**
 * The ordering capability that the attribute relies on: a three-way comparison
 * whose result is negative, zero or positive, as `IComparable.CompareTo` gives it.
 * The attribute only ever looks at the sign of a comparison.
 */
module Ordering {

  /** The contract every well-behaved `CompareTo` honours. */
  ghost predicate IsComparer<K(!new)>(cmp: (K, K) -> int) {
    // an instance compares equal to itself
    && (forall x :: cmp(x, x) == 0)
    // swapping the operands flips the sign (and so keeps zero at zero)
    && (forall x, y :: cmp(x, y) < 0 <==> cmp(y, x) > 0)
    // "at most" is transitive
    && (forall x, y, z :: cmp(x, y) <= 0 && cmp(y, z) <= 0 ==> cmp(x, z) <= 0)
  }

  /** `a` orders at or before `b`. */
  predicate AtMost<K>(cmp: (K, K) -> int, a: K, b: K) {
    cmp(a, b) <= 0
  }

  /** `Int32.CompareTo`: -1, 0 or 1 according to the numeric order. */
  function IntCompare(a: int, b: int): (r: int)
    ensures -1 <= r <= 1
    ensures r < 0 <==> a < b
    ensures r > 0 <==> a > b
  {
    if a < b then -1 else if a > b then 1 else 0
  }

  lemma IntCompareIsComparer()
    ensures IsComparer(IntCompare)
  {
  }

  /** Equal ranks are interchangeable on either side of "at most". */
  lemma {:induction false} EquivalentAtMost<K(!new)>(cmp: (K, K) -> int, a: K, b: K, c: K)
    requires IsComparer(cmp)
    requires cmp(a, b) == 0
    ensures AtMost(cmp, a, c) <==> AtMost(cmp, b, c)
    ensures AtMost(cmp, c, a) <==> AtMost(cmp, c, b)
  {
    assert cmp(b, a) == 0;
  }
}
