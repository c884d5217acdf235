/**
 * What `CompareRangeAttribute.IsValid` promises across calls: which guard fires
 * first, what the outcome does not depend on, and, for a comparer that honours
 * the `IComparable` contract, that the accepted values are exactly the closed
 * interval between the two bounds.
 */
module CompareRangeProperties {
  import opened Ordering
  import opened DataAnnotations

  /**
   * While the configuration is unusable the value is never looked at: every
   * value gets the same fault.
   */
  lemma FaultIgnoresValue<K(!new)>(attr: CompareRangeAttribute, cmp: (K, K) -> int, v1: Value<K>, v2: Value<K>, context: ValidationContext<K>)
    requires !BoundsOrdered(cmp, context.objectInstance, attr.MinPropertyName, attr.MaxPropertyName)
    ensures attr.IsValid(cmp, v1, context).Thrown?
    ensures attr.IsValid(cmp, v1, context) == attr.IsValid(cmp, v2, context)
  {
  }

  /**
   * Both properties exist but not both hold comparable values: NotSupported,
   * naming the minimum when its value is at fault, else the maximum.
   */
  lemma NonComparableBound<K(!new)>(attr: CompareRangeAttribute, cmp: (K, K) -> int, value: Value<K>, context: ValidationContext<K>)
    requires attr.MinPropertyName in context.objectInstance && attr.MaxPropertyName in context.objectInstance
    requires !BoundsResolve(context.objectInstance, attr.MinPropertyName, attr.MaxPropertyName)
    ensures attr.IsValid(cmp, value, context).Thrown?
    ensures attr.IsValid(cmp, value, context).fault.Exception() == NotSupported
    ensures attr.IsValid(cmp, value, context).fault ==
      PropertyNotIComparable(if context.objectInstance[attr.MinPropertyName].Comparable? then attr.MaxPropertyName else attr.MinPropertyName)
  {
  }

  /** A minimum ordered after the maximum is an InvalidOperation fault, whatever the value. */
  lemma InvertedBounds<K(!new)>(attr: CompareRangeAttribute, cmp: (K, K) -> int, value: Value<K>, context: ValidationContext<K>)
    requires BoundsResolve(context.objectInstance, attr.MinPropertyName, attr.MaxPropertyName)
    requires cmp(context.objectInstance[attr.MinPropertyName].key, context.objectInstance[attr.MaxPropertyName].key) > 0
    ensures attr.IsValid(cmp, value, context) == Thrown(MinGreaterThanMax(attr.MinPropertyName, attr.MaxPropertyName))
    ensures attr.IsValid(cmp, value, context).fault.Exception() == InvalidOperation
  {
  }

  /**
   * Once the bounds are usable, a value that is not comparable (null included)
   * is a NotSupported fault naming the validated member.
   */
  lemma NonComparableValue<K(!new)>(attr: CompareRangeAttribute, cmp: (K, K) -> int, value: Value<K>, context: ValidationContext<K>)
    requires BoundsOrdered(cmp, context.objectInstance, attr.MinPropertyName, attr.MaxPropertyName)
    requires !value.Comparable?
    ensures attr.IsValid(cmp, value, context) == Thrown(ValueNotIComparable(context.memberName))
    ensures attr.IsValid(cmp, value, context).fault.Exception() == NotSupported
  {
  }

  /**
   * With usable bounds and a comparable value, the outcome is never an
   * exception: it is success exactly when min <= value <= max, both ends
   * included, and otherwise a failed result carrying the two bounds.
   */
  lemma {:induction false} InclusiveRange<K(!new)>(attr: CompareRangeAttribute, cmp: (K, K) -> int, t: K, context: ValidationContext<K>)
    requires IsComparer(cmp)
    requires BoundsOrdered(cmp, context.objectInstance, attr.MinPropertyName, attr.MaxPropertyName)
    ensures var min := context.objectInstance[attr.MinPropertyName].key;
            var max := context.objectInstance[attr.MaxPropertyName].key;
            && (attr.IsValid(cmp, Comparable(t), context) == Success <==> AtMost(cmp, min, t) && AtMost(cmp, t, max))
            && (attr.IsValid(cmp, Comparable(t), context) != Success ==> attr.IsValid(cmp, Comparable(t), context) == Invalid(min, max))
  {
    var min := context.objectInstance[attr.MinPropertyName].key;
    assert cmp(t, min) >= 0 <==> cmp(min, t) <= 0;
  }

  /** Both bounds are themselves valid values: the range is inclusive at each end. */
  lemma {:induction false} BoundsAreAccepted<K(!new)>(attr: CompareRangeAttribute, cmp: (K, K) -> int, context: ValidationContext<K>)
    requires IsComparer(cmp)
    requires BoundsOrdered(cmp, context.objectInstance, attr.MinPropertyName, attr.MaxPropertyName)
    ensures attr.IsValid(cmp, Comparable(context.objectInstance[attr.MinPropertyName].key), context) == Success
    ensures attr.IsValid(cmp, Comparable(context.objectInstance[attr.MaxPropertyName].key), context) == Success
  {
    var min := context.objectInstance[attr.MinPropertyName].key;
    var max := context.objectInstance[attr.MaxPropertyName].key;
    assert cmp(max, min) >= 0;
  }

  /** Every value ordered between two accepted values is accepted. */
  lemma {:induction false} AcceptedValuesAreConvex<K(!new)>(attr: CompareRangeAttribute, cmp: (K, K) -> int, lo: K, t: K, hi: K, context: ValidationContext<K>)
    requires IsComparer(cmp)
    requires attr.IsValid(cmp, Comparable(lo), context) == Success
    requires attr.IsValid(cmp, Comparable(hi), context) == Success
    requires AtMost(cmp, lo, t) && AtMost(cmp, t, hi)
    ensures attr.IsValid(cmp, Comparable(t), context) == Success
  {
    InclusiveRange(attr, cmp, lo, context);
    InclusiveRange(attr, cmp, hi, context);
    InclusiveRange(attr, cmp, t, context);
  }

  /** Values that compare equal get the same outcome. */
  lemma {:induction false} EquivalentValuesAgree<K(!new)>(attr: CompareRangeAttribute, cmp: (K, K) -> int, a: K, b: K, context: ValidationContext<K>)
    requires IsComparer(cmp)
    requires cmp(a, b) == 0
    ensures attr.IsValid(cmp, Comparable(a), context) == attr.IsValid(cmp, Comparable(b), context)
  {
    if BoundsOrdered(cmp, context.objectInstance, attr.MinPropertyName, attr.MaxPropertyName) {
      var min := context.objectInstance[attr.MinPropertyName].key;
      var max := context.objectInstance[attr.MaxPropertyName].key;
      InclusiveRange(attr, cmp, a, context);
      InclusiveRange(attr, cmp, b, context);
      EquivalentAtMost(cmp, a, b, max);
      EquivalentAtMost(cmp, a, b, min);
    }
  }

  /**
   * Only the two named properties and the member name are read: two objects
   * that agree on those give the same outcome.
   */
  lemma OnlyNamedPropertiesRead<K(!new)>(attr: CompareRangeAttribute, cmp: (K, K) -> int, value: Value<K>, c1: ValidationContext<K>, c2: ValidationContext<K>)
    requires c1.memberName == c2.memberName
    requires forall name :: name in {attr.MinPropertyName, attr.MaxPropertyName} ==>
      (name in c1.objectInstance <==> name in c2.objectInstance)
      && (name in c1.objectInstance ==> c1.objectInstance[name] == c2.objectInstance[name])
    ensures attr.IsValid(cmp, value, c1) == attr.IsValid(cmp, value, c2)
  {
  }

  /** The integers from `a` to `b`, both included; a helper for counting accepted integers. */
  function Interval(a: int, b: int): (s: set<int>)
    ensures forall t :: t in s <==> a <= t <= b
    ensures |s| == if a <= b then b - a + 1 else 0
    decreases b - a + 1
  {
    if b < a then {} else Interval(a, b - 1) + {b}
  }

  /** The integers in the window from `lo` to `hi` that validate successfully. */
  ghost function AcceptedIntegers(attr: CompareRangeAttribute, context: ValidationContext<int>, lo: int, hi: int): set<int> {
    set t | lo <= t <= hi && attr.IsValid(IntCompare, Comparable(t), context) == Success
  }

  /**
   * For integer bounds, searching any window that covers the bounds finds
   * exactly the integers from min to max: max - min + 1 of them, so neither
   * end is dropped and nothing outside is admitted.
   */
  lemma {:induction false} AcceptedIntegersAreTheClosedInterval(attr: CompareRangeAttribute, context: ValidationContext<int>, lo: int, hi: int)
    requires BoundsOrdered(IntCompare, context.objectInstance, attr.MinPropertyName, attr.MaxPropertyName)
    requires lo <= context.objectInstance[attr.MinPropertyName].key
    requires context.objectInstance[attr.MaxPropertyName].key <= hi
    ensures AcceptedIntegers(attr, context, lo, hi)
      == Interval(context.objectInstance[attr.MinPropertyName].key, context.objectInstance[attr.MaxPropertyName].key)
    ensures |AcceptedIntegers(attr, context, lo, hi)|
      == context.objectInstance[attr.MaxPropertyName].key - context.objectInstance[attr.MinPropertyName].key + 1
  {
    var min := context.objectInstance[attr.MinPropertyName].key;
    var max := context.objectInstance[attr.MaxPropertyName].key;
    IntCompareIsComparer();
    forall t | lo <= t <= hi
      ensures attr.IsValid(IntCompare, Comparable(t), context) == Success <==> min <= t <= max
    {
      InclusiveRange(attr, IntCompare, t, context);
    }
  }
}
