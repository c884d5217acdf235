/**
 * The scenarios of the repository's unit tests, on an object with integer
 * properties MinRange = 10, MaxRange = 20 and InvalidMaxRange = 5, and two
 * properties whose values are of a type that is not `IComparable`.
 */
module CompareRangeScenarios {
  import opened Ordering
  import opened DataAnnotations

  /** The test object; the host leaves the member name unset. */
  const TestContext: ValidationContext<int> := ValidationContext(
    map[
      "MinRange" := Comparable(10),
      "MaxRange" := Comparable(20),
      "InvalidMaxRange" := Comparable(5),
      "InvalidMinRangeType" := NonComparable,
      "InvalidMaxRangeType" := NonComparable],
    "")

  /** 15 lies in [10, 20]; 50 does not and the failure carries 10 and 20; a non-comparable value throws. */
  lemma CanValidate()
    ensures CompareRangeAttribute("MinRange", "MaxRange").IsValid(IntCompare, Comparable(15), TestContext) == Success
    ensures CompareRangeAttribute("MinRange", "MaxRange").IsValid(IntCompare, Comparable(50), TestContext) == Invalid(10, 20)
    ensures CompareRangeAttribute("MinRange", "MaxRange").IsValid(IntCompare, NonComparable, TestContext)
      == Thrown(ValueNotIComparable(""))
  {
  }

  /** Non-comparable bound values throw NotSupported, naming the minimum first. */
  lemma CanThrowNotSupportedException()
    ensures CompareRangeAttribute("InvalidMinRangeType", "InvalidMaxRangeType").IsValid(IntCompare, Comparable(22), TestContext)
      == Thrown(PropertyNotIComparable("InvalidMinRangeType"))
    ensures CompareRangeAttribute("MinRange", "InvalidMaxRangeType").IsValid(IntCompare, Comparable(22), TestContext)
      == Thrown(PropertyNotIComparable("InvalidMaxRangeType"))
    ensures CompareRangeAttribute("InvalidMinRangeType", "MaxRange").IsValid(IntCompare, Comparable(22), TestContext)
      == Thrown(PropertyNotIComparable("InvalidMinRangeType"))
    ensures PropertyNotIComparable("InvalidMinRangeType").Exception() == NotSupported
  {
  }

  /** A missing property, or a minimum above the maximum, throws InvalidOperation. */
  lemma CanThrowInvalidOperationException()
    ensures CompareRangeAttribute("MissingProperty", "MaxRange").IsValid(IntCompare, Comparable(22), TestContext)
      == Thrown(PropertyNotFound("MissingProperty"))
    ensures CompareRangeAttribute("MinRange", "MissingProperty").IsValid(IntCompare, Comparable(22), TestContext)
      == Thrown(PropertyNotFound("MissingProperty"))
    ensures CompareRangeAttribute("MinRange", "InvalidMaxRange").IsValid(IntCompare, Comparable(22), TestContext)
      == Thrown(MinGreaterThanMax("MinRange", "InvalidMaxRange"))
    ensures PropertyNotFound("MissingProperty").Exception() == InvalidOperation
    ensures MinGreaterThanMax("MinRange", "InvalidMaxRange").Exception() == InvalidOperation
  {
  }
}
