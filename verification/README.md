# CompareRangeAttribute, modelled in Dafny

`CompareRangeAttribute` is a data-annotation validation attribute. It is built with
the names of two properties, `MinPropertyName` and `MaxPropertyName`. It accepts a
value when that value lies between the current values of those two properties of
the object being validated, with both ends included. Misconfiguration is reported
by throwing an exception. This covers a missing property, a property or value whose
type is not `IComparable`, and a minimum greater than the maximum. An out-of-range
value is an ordinary failed `ValidationResult` whose message is formatted from the
two bounds.

## Layout

- `ordering.dfy`, module `Ordering`: the three-way comparison that `IComparable.CompareTo`
  provides, the contract a well-behaved comparer honours (`IsComparer`: reflexive zero,
  sign flips when the operands swap, "at most" is transitive), and `Int32.CompareTo`
  as `IntCompare`.
- `compare_range.dfy`, module `DataAnnotations`: the attribute as an immutable datatype.
  `ResolveBounds` covers the property lookups and their `IComparable` checks, and
  `IsWithin` the two comparisons. `IsValid` chains them into a function from the value
  and the validation context to an `Outcome`:
  - `Success`;
  - `Invalid(min, max)`, a failed result carrying the two bounds;
  - `Thrown(fault)`, where the fault says which exception type is thrown
    (`InvalidOperation` or `NotSupported`, given by `Fault.Exception`) and which name
    its message carries. A bound property that is not `IComparable`
    (`PropertyNotIComparable`) and a value that is not (`ValueNotIComparable`) are
    distinct faults, as their messages differ.
- `compare_range_properties.dfy`, module `CompareRangeProperties`: lemmas about the
  order in which the guards fire, what the outcome does not depend on, and the
  inclusive range.
- `compare_range_scenarios.dfy`, module `CompareRangeScenarios`: the unit-test scenarios
  (bounds 10 and 20, an inverted maximum of 5, two non-comparable properties).

The object being validated is a `map` from property name to `Value`. A value is
`Comparable(key)`, `NonComparable` or `Null`. The key type `K` and the comparer `cmp`
are parameters, so the model holds for any `IComparable` type. `IsValid` demands
nothing of `cmp`, just as the source does. The lemmas about range membership assume
`IsComparer(cmp)`.

The constructor and the get-only `MinPropertyName` and `MaxPropertyName`
(`CompareRangeAttribute.cs:40-61`) are the datatype `DataAnnotations.CompareRangeAttribute`
and its two fields. The table has no row for them because they are not functions. The
attribute is a datatype, so `IsValid` cannot change the two property names or the
context. The names are fixed when the attribute is constructed, and a call has no
state that carries over to the next.

Note on the tests: `CompareRangeAttributeTest.cs:28-29` expects a non-success *result*
when the value is not comparable. The code at `CompareRangeAttribute.cs:104-107` throws
`NotSupportedException` there instead. The model follows the code, and
`CompareRangeScenarios.CanValidate` states the thrown outcome.

## Model

| member | source | states |
|---|---|---|
| `DataAnnotations.CompareRangeAttribute.IsValid` | Adita.PlexNet.ComponentModel.DataAnnotations/DataAnnotations/CompareRangeAttribute.cs:79-115 | Throws exactly when a bound property is missing, a bound value is not comparable, min > max, or the value is not comparable. A missing min property is reported first. A missing max property comes before any look at the values, and a lookup or IComparable fault is exactly the one `ResolveBounds` gives. Comparable bounds with min > max throw exactly `MinGreaterThanMax(min name, max name)`. With usable bounds, a non-comparable value throws exactly `ValueNotIComparable` naming the validated member. A failed result carries the min and max values, and the value lies outside them. Success implies min <= max and the value compares at or above min and at or below max. |
| `DataAnnotations.CompareRangeAttribute.ResolveBounds` | Adita.PlexNet.ComponentModel.DataAnnotations/DataAnnotations/CompareRangeAttribute.cs:85-96 | Yields the (min, max) values exactly when both properties exist and hold comparable values. Otherwise it gives the first failing check, in this order: missing min property, missing max property, non-comparable min value, non-comparable max value. |
| `DataAnnotations.IsWithin` | Adita.PlexNet.ComponentModel.DataAnnotations/DataAnnotations/CompareRangeAttribute.cs:109 | For a lawful comparer, the range test holds exactly when min <= value <= max. (The value-side form, value.CompareTo(min) >= 0 and value.CompareTo(max) <= 0, is stated in `IsValid`'s contract.) |
| `DataAnnotations.Fault.Exception` | Adita.PlexNet.ComponentModel.DataAnnotations/DataAnnotations/CompareRangeAttribute.cs:85-106 | A missing property (lines 85, 86) and inverted bounds (line 100) throw InvalidOperationException. A bound property (lines 90, 95) or a value (line 106) whose type is not IComparable throws NotSupportedException. |
| `CompareRangeProperties.FaultIgnoresValue` | Adita.PlexNet.ComponentModel.DataAnnotations/DataAnnotations/CompareRangeAttribute.cs:85-101 | While the bounds are missing, not comparable or inverted, every value gets the same exception: the checks on the configuration run before the value is examined. |
| `CompareRangeProperties.NonComparableBound` | Adita.PlexNet.ComponentModel.DataAnnotations/DataAnnotations/CompareRangeAttribute.cs:88-96 | Both properties exist but a bound value is not comparable (null included): a NotSupported exception that names the min property when its value is at fault, else the max property. |
| `CompareRangeProperties.InvertedBounds` | Adita.PlexNet.ComponentModel.DataAnnotations/DataAnnotations/CompareRangeAttribute.cs:98-101 | Comparable bounds with min > max give an InvalidOperation exception naming both properties, whatever the value. |
| `CompareRangeProperties.NonComparableValue` | Adita.PlexNet.ComponentModel.DataAnnotations/DataAnnotations/CompareRangeAttribute.cs:104-107 | With usable bounds, a value that is not comparable (null included) gives a NotSupported exception naming the validated member. |
| `CompareRangeProperties.InclusiveRange` | Adita.PlexNet.ComponentModel.DataAnnotations/DataAnnotations/CompareRangeAttribute.cs:109-114 | For a lawful comparer, usable bounds and a comparable value, the outcome is Success exactly when min <= value and value <= max. Otherwise it is a failed result carrying (min, max), never an exception. |
| `CompareRangeProperties.BoundsAreAccepted` | Adita.PlexNet.ComponentModel.DataAnnotations/DataAnnotations/CompareRangeAttribute.cs:109-111 | The min value and the max value are themselves accepted: both ends are inclusive. |
| `CompareRangeProperties.AcceptedValuesAreConvex` | Adita.PlexNet.ComponentModel.DataAnnotations/DataAnnotations/CompareRangeAttribute.cs:109-111 | Any value ordered between two accepted values is accepted. |
| `CompareRangeProperties.EquivalentValuesAgree` | Adita.PlexNet.ComponentModel.DataAnnotations/DataAnnotations/CompareRangeAttribute.cs:104-114 | Two values that compare equal get the same outcome: only the comparisons decide. |
| `CompareRangeProperties.OnlyNamedPropertiesRead` | Adita.PlexNet.ComponentModel.DataAnnotations/DataAnnotations/CompareRangeAttribute.cs:83-93 | Two objects that agree on the two named properties (presence and value) and on the member name give the same outcome. |
| `CompareRangeProperties.AcceptedIntegersAreTheClosedInterval` | Adita.PlexNet.ComponentModel.DataAnnotations/DataAnnotations/CompareRangeAttribute.cs:109-111 | For integer bounds, the accepted integers in any window covering the bounds are exactly min..max. There are max - min + 1 of them. |
| `CompareRangeScenarios.CanValidate` | Adita.PlexNet.ComponentModel.DataAnnotations.Test/DataAnnotations/CompareRangeAttributeTest.cs:17-30 | 15 in [10, 20] succeeds. 50 fails with a result carrying 10 and 20. A non-comparable value throws NotSupported, as the code does. |
| `CompareRangeScenarios.CanThrowNotSupportedException` | Adita.PlexNet.ComponentModel.DataAnnotations.Test/DataAnnotations/CompareRangeAttributeTest.cs:32-43 | A non-comparable min, max or both throws NotSupported, naming the min property when both are bad. |
| `CompareRangeScenarios.CanThrowInvalidOperationException` | Adita.PlexNet.ComponentModel.DataAnnotations.Test/DataAnnotations/CompareRangeAttributeTest.cs:45-56 | A missing min or max property, or min 10 above max 5, throws InvalidOperation. |

## Left out

- Reflection: `GetType().GetProperty` and `GetValue` become a map lookup. Property
  visibility, inheritance, indexers, ambiguous matches and getters that throw belong
  to the .NET runtime and are not modelled.
- The failure message: `string.Format(ErrorMessageString, min, max)` uses a template
  and localization from the base class `ValidationAttribute`, which is not part of this
  model. The `Invalid` outcome carries `(min, max)` instead of the formatted string.
- Exception messages: a `Fault` carries the names that the message interpolates, not
  the message text.
- The `ArgumentNullException` for a null validation context and
  `RequiresValidationContext`: host-framework plumbing. The context is always present.
- `ValidationContext.MemberName` may be null in .NET. The model uses a string, which
  is empty when the host set no name, as the message's interpolation renders it.
- Cross-type `CompareTo`, such as an `int` compared with a `long`, throws in .NET. That
  is library behaviour. All comparable values share one key type `K` and one comparer.
- The `AttributeUsage` metadata: declarative, with no behaviour.
