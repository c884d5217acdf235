/**
 * `CompareRangeAttribute`: a validation rule that accepts a value when it lies
 * between the values of two other properties of the object being validated,
 * both ends included.
 *
 * The object is seen through its properties by name; a property's current value
 * is either an `IComparable` instance (of key type `K`), an instance of a type
 * that does not implement `IComparable`, or null. The exceptions that `IsValid`
 * throws become the `Thrown` outcome, which says which exception type and which
 * property name the message carries.
 */
module DataAnnotations {
  import opened Ordering

  /** A property value, or the value under validation. */
  datatype Value<K> = Comparable(key: K) | NonComparable | Null

  /**
   * What the host passes to `IsValid`: the instance whose properties can be
   * looked up by name, and the name of the member being validated (empty when
   * the host did not set one).
   */
  datatype ValidationContext<K> = ValidationContext(objectInstance: map<string, Value<K>>, memberName: string)

  datatype ExceptionType = InvalidOperation | NotSupported

  /** The misconfigurations that `IsValid` reports by throwing. */
  datatype Fault =
    | PropertyNotFound(propertyName: string)
    | PropertyNotIComparable(propertyName: string)
    | ValueNotIComparable(memberName: string)
    | MinGreaterThanMax(minPropertyName: string, maxPropertyName: string)
  {
    /**
     * The exception type thrown for this fault: a missing property or inverted
     * bounds is an invalid operation; a property or value whose type is not
     * `IComparable` is not supported.
     */
    function Exception(): (e: ExceptionType)
      ensures e == InvalidOperation <==> PropertyNotFound? || MinGreaterThanMax?
      ensures e == NotSupported <==> PropertyNotIComparable? || ValueNotIComparable?
    {
      if PropertyNotIComparable? || ValueNotIComparable? then NotSupported else InvalidOperation
    }
  }

  /**
   * `Success` is `ValidationResult.Success`; `Invalid` is a failed validation
   * result whose message is formatted from the two bounds; `Thrown` is an exception.
   */
  datatype Outcome<K> = Success | Invalid(min: K, max: K) | Thrown(fault: Fault)

  /** An intermediate step that either yields a value or stops with a fault. */
  datatype Result<T> = Ok(value: T) | Err(fault: Fault)

  /**
   * The value's comparisons against the two bounds, made from the value's side
   * as `CompareTo` is called on it. For a lawful comparer this is membership
   * of the closed interval from `min` to `max`.
   */
  function IsWithin<K(!new)>(cmp: (K, K) -> int, t: K, min: K, max: K): (r: bool)
    ensures IsComparer(cmp) ==> (r <==> AtMost(cmp, min, t) && AtMost(cmp, t, max))
  {
    cmp(t, min) >= 0 && cmp(t, max) <= 0
  }

  /** The two bounds are properties of `inst`, and both hold comparable values. */
  predicate BoundsResolve<K>(inst: map<string, Value<K>>, minName: string, maxName: string) {
    && minName in inst && inst[minName].Comparable?
    && maxName in inst && inst[maxName].Comparable?
  }

  /**
   * The configuration is usable for `inst`: both bounds resolve and the minimum
   * does not order after the maximum.
   */
  predicate BoundsOrdered<K>(cmp: (K, K) -> int, inst: map<string, Value<K>>, minName: string, maxName: string) {
    && BoundsResolve(inst, minName, maxName)
    && cmp(inst[minName].key, inst[maxName].key) <= 0
  }

  /**
   * The attribute; both property names are fixed when it is constructed and are
   * never reassigned.
   */
  datatype CompareRangeAttribute = CompareRangeAttribute(MinPropertyName: string, MaxPropertyName: string)
  {
    /**
     * Looks up both bound properties, then checks that each holds a comparable
     * value: the minimum's lookup first, then the maximum's, then the minimum's
     * value, then the maximum's.
     */
    function ResolveBounds<K>(instance: map<string, Value<K>>): (r: Result<(K, K)>)
      ensures r.Ok? <==> BoundsResolve(instance, MinPropertyName, MaxPropertyName)
      ensures r.Ok? ==> r.value == (instance[MinPropertyName].key, instance[MaxPropertyName].key)
      // a missing property is reported before any value is inspected, the minimum before the maximum
      ensures MinPropertyName !in instance ==> r == Err(PropertyNotFound(MinPropertyName))
      ensures MinPropertyName in instance && MaxPropertyName !in instance ==> r == Err(PropertyNotFound(MaxPropertyName))
      // with both present, a bad minimum value is reported before a bad maximum value
      ensures MinPropertyName in instance && MaxPropertyName in instance && !instance[MinPropertyName].Comparable?
        ==> r == Err(PropertyNotIComparable(MinPropertyName))
      ensures MinPropertyName in instance && MaxPropertyName in instance
        && instance[MinPropertyName].Comparable? && !instance[MaxPropertyName].Comparable?
        ==> r == Err(PropertyNotIComparable(MaxPropertyName))
    {
      if MinPropertyName !in instance then Err(PropertyNotFound(MinPropertyName))
      else if MaxPropertyName !in instance then Err(PropertyNotFound(MaxPropertyName))
      else if !instance[MinPropertyName].Comparable? then Err(PropertyNotIComparable(MinPropertyName))
      else if !instance[MaxPropertyName].Comparable? then Err(PropertyNotIComparable(MaxPropertyName))
      else Ok((instance[MinPropertyName].key, instance[MaxPropertyName].key))
    }

    /**
     * Validates `value` against the bounds read from `context`. The checks run
     * in a fixed order: the bounds resolve, the minimum does not exceed the
     * maximum, the value is comparable; only then is the value compared with
     * each bound.
     */
    function IsValid<K(!new)>(cmp: (K, K) -> int, value: Value<K>, context: ValidationContext<K>): (r: Outcome<K>)
      // it throws exactly when the configuration or the value's type is wrong
      ensures r.Thrown? <==> !BoundsOrdered(cmp, context.objectInstance, MinPropertyName, MaxPropertyName) || !value.Comparable?
      // the bounds are resolved before the value is examined
      ensures ResolveBounds(context.objectInstance).Err? ==> r == Thrown(ResolveBounds(context.objectInstance).fault)
      // corollaries of the exact-fault clauses: each fault names the property or member at fault
      ensures r.Thrown? && r.fault.PropertyNotFound? ==>
        r.fault.propertyName !in context.objectInstance
        && r.fault.propertyName in {MinPropertyName, MaxPropertyName}
      ensures r.Thrown? && r.fault.PropertyNotIComparable? ==>
        r.fault.propertyName in {MinPropertyName, MaxPropertyName}
      ensures r.Thrown? && r.fault.ValueNotIComparable? ==> r.fault.memberName == context.memberName
      ensures r.Thrown? && r.fault.MinGreaterThanMax? ==>
        && BoundsResolve(context.objectInstance, MinPropertyName, MaxPropertyName)
        && cmp(context.objectInstance[MinPropertyName].key, context.objectInstance[MaxPropertyName].key) > 0
      // inverted bounds throw InvalidOperation naming both properties, before the value is examined
      ensures BoundsResolve(context.objectInstance, MinPropertyName, MaxPropertyName)
        && cmp(context.objectInstance[MinPropertyName].key, context.objectInstance[MaxPropertyName].key) > 0
        ==> r == Thrown(MinGreaterThanMax(MinPropertyName, MaxPropertyName))
      // with usable bounds, a value that is not comparable throws NotSupported naming the validated member
      ensures BoundsOrdered(cmp, context.objectInstance, MinPropertyName, MaxPropertyName) && !value.Comparable?
        ==> r == Thrown(ValueNotIComparable(context.memberName))
      // an ordinary failure carries the two bounds, and the value lies outside them
      ensures r.Invalid? ==>
        && BoundsResolve(context.objectInstance, MinPropertyName, MaxPropertyName)
        && r.min == context.objectInstance[MinPropertyName].key
        && r.max == context.objectInstance[MaxPropertyName].key
        && value.Comparable?
        && (cmp(value.key, r.min) < 0 || cmp(value.key, r.max) > 0)
      // success only for a value that compares at or above the minimum and at or below the maximum
      ensures r.Success? ==>
        && BoundsOrdered(cmp, context.objectInstance, MinPropertyName, MaxPropertyName)
        && value.Comparable?
        && cmp(value.key, context.objectInstance[MinPropertyName].key) >= 0
        && cmp(value.key, context.objectInstance[MaxPropertyName].key) <= 0
    {
      match ResolveBounds(context.objectInstance)
      case Err(fault) => Thrown(fault)
      case Ok((minValue, maxValue)) =>
        if cmp(minValue, maxValue) > 0 then Thrown(MinGreaterThanMax(MinPropertyName, MaxPropertyName))
        else if !value.Comparable? then Thrown(ValueNotIComparable(context.memberName))
        else if IsWithin(cmp, value.key, minValue, maxValue) then Success
        else Invalid(minValue, maxValue)
    }
  }
}
