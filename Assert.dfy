/** The argument validators (`Assert`). Each check passes or fails with the exception
    the validator throws. A non-empty description replaces the default exception by an
    `ArgumentException` carrying it; the `IsTrue` checks use their text as the message
    of an `InvalidOperationException`. */
module Assertions {
  import opened Wrappers
  import opened Strings

  /** The exception of a failed check: the described one when a description is given,
      else the validator's own. */
  function Described(description: Option<string>, otherwise: Error): (e: Error)
    ensures IsNotNullNorEmpty(description) ==> e == ArgumentException(description.value)
    ensures !IsNotNullNorEmpty(description) ==> e == otherwise
  {
    if IsNotNullNorEmpty(description) then ArgumentException(description.value) else otherwise
  }

  function NotNull<T>(value: Option<T>, description: Option<string>): (r: Outcome)
    ensures r.Pass? <==> value.Some?
    ensures r.Fail? ==> r.error == Described(description, ArgumentNullException(None))
  {
    if value.None? then Fail(Described(description, ArgumentNullException(None))) else Pass
  }

  function NotZero(value: int, description: Option<string>): (r: Outcome)
    ensures r.Pass? <==> value != 0
    ensures r.Fail? ==> r.error == Described(description, ArgumentNullException(None))
  {
    if value == 0 then Fail(Described(description, ArgumentNullException(None))) else Pass
  }

  function IsPositive(value: int, description: Option<string>): (r: Outcome)
    ensures r.Pass? <==> value > 0
    ensures r.Fail? ==> r.error == Described(description, ArgumentNullException(Some("Value must be strictly positive.")))
  {
    if value <= 0 then Fail(Described(description, ArgumentNullException(Some("Value must be strictly positive."))))
    else Pass
  }

  /** The nullable overload: an absent value fails first, then the value is checked. */
  function IsPositiveNullable(value: Option<int>, description: Option<string>): (r: Outcome)
    ensures r.Pass? <==> value.Some? && value.value > 0
    ensures value.None? ==> r == Fail(Described(description, ArgumentNullException(Some("Value is undefined."))))
    ensures value.Some? ==> r == IsPositive(value.value, description)
  {
    if value.None? then Fail(Described(description, ArgumentNullException(Some("Value is undefined."))))
    else IsPositive(value.value, description)
  }

  function NotNullOrEmpty(value: Option<string>, description: Option<string>): (r: Outcome)
    ensures r.Pass? <==> value.Some? && |value.value| > 0
    ensures r.Fail? ==> r.error == Described(description, ArgumentException("Value cannot be null or empty"))
  {
    if IsNullOrEmpty(value) then Fail(Described(description, ArgumentException("Value cannot be null or empty")))
    else Pass
  }

  /** `String.IsNullOrWhiteSpace`, with the set of white-space characters a parameter. */
  predicate IsNullOrWhiteSpace(value: Option<string>, isWhiteSpace: char -> bool)
  {
    value.None? || forall i | 0 <= i < |value.value| :: isWhiteSpace(value.value[i])
  }

  function NotNullOrWhiteSpace(value: Option<string>, description: Option<string>, isWhiteSpace: char -> bool): (r: Outcome)
    ensures r.Pass? <==> value.Some? && exists i | 0 <= i < |value.value| :: !isWhiteSpace(value.value[i])
    ensures r.Fail? ==> r.error == Described(description, ArgumentException("Value cannot be null or empty or contain only whitespaces"))
  {
    if IsNullOrWhiteSpace(value, isWhiteSpace)
    then Fail(Described(description, ArgumentException("Value cannot be null or empty or contain only whitespaces")))
    else Pass
  }

  /** The exception of a collection holding a null. */
  const NullElement: Error := ArgumentNullException(Some("Value cannot contain null values"))

  /** A null collection passes; one holding a null element fails. */
  function NotNullElements<T>(values: Option<seq<Option<T>>>): (r: Outcome)
    ensures r.Pass? <==> values.None? || forall i | 0 <= i < |values.value| :: values.value[i].Some?
    ensures r.Fail? ==> r.error == NullElement
  {
    if values.Some? && exists i | 0 <= i < |values.value| :: values.value[i].None? then Fail(NullElement) else Pass
  }

  /** The key/value overload: a pair with a null key or a null value fails. */
  function NotNullPairElements<K, V>(values: Option<seq<(Option<K>, Option<V>)>>): (r: Outcome)
    ensures r.Pass? <==> values.None? || forall i | 0 <= i < |values.value| :: values.value[i].0.Some? && values.value[i].1.Some?
    ensures r.Fail? ==> r.error == NullElement
  {
    if values.Some? && exists i | 0 <= i < |values.value| :: values.value[i].0.None? || values.value[i].1.None?
    then Fail(NullElement)
    else Pass
  }

  /** The collection itself is checked first, then its elements. */
  function NotNullOrNullElements<T>(values: Option<seq<Option<T>>>): (r: Outcome)
    ensures r.Pass? <==> values.Some? && forall i | 0 <= i < |values.value| :: values.value[i].Some?
    ensures values.None? ==> r == Fail(ArgumentNullException(None))
    ensures values.Some? ==> r == NotNullElements(values)
  {
    var collection := NotNull(values, None);
    if collection.Fail? then collection else NotNullElements(values)
  }

  function IsTrue(condition: bool, description: string): (r: Outcome)
    ensures r.Pass? <==> condition
    ensures r.Fail? ==> r.error == InvalidOperationException(description)
  {
    if !condition then Fail(InvalidOperationException(description)) else Pass
  }

  function IsTrueDefault(condition: bool): (r: Outcome)
    ensures r == IsTrue(condition, "assertion failed")
  {
    if !condition then Fail(InvalidOperationException("assertion failed")) else Pass
  }

  function HasItems<T>(values: Option<seq<T>>): (r: Outcome)
    ensures r.Pass? <==> values.Some? && |values.value| > 0
    ensures r.Fail? ==> r.error == ArgumentNullException(None)
  {
    if values.None? || |values.value| == 0 then Fail(ArgumentNullException(None)) else Pass
  }

  /** The white-space check is the stricter one: whatever it accepts, the emptiness
      check accepts too, and both reject null and "". */
  lemma WhiteSpaceStricter(value: Option<string>, description: Option<string>, isWhiteSpace: char -> bool)
    ensures NotNullOrWhiteSpace(value, description, isWhiteSpace).Pass? ==> NotNullOrEmpty(value, description).Pass?
    ensures value.None? || value == Some("") ==>
              NotNullOrWhiteSpace(value, description, isWhiteSpace).Fail? && NotNullOrEmpty(value, description).Fail?
  {
  }

  /** With a description every failing check reports the same `ArgumentException`. */
  lemma DescriptionWins(description: string, value: int)
    requires description != ""
    ensures NotZero(0, Some(description)) == Fail(ArgumentException(description))
    ensures value <= 0 ==> IsPositive(value, Some(description)) == Fail(ArgumentException(description))
    ensures IsPositiveNullable(None, Some(description)) == Fail(ArgumentException(description))
    ensures NotNull<int>(None, Some(description)) == Fail(ArgumentException(description))
  {
  }
}
