/** The string helpers (`StringExtensions`). A null string is `None`. The helpers that
    do not depend on `Assert` are in `Strings`; `Left` and `Right`, which validate their
    count through `Assert.IsTrue` (and `Assert` itself uses `IsNotNullNorEmpty`), are in
    `StringSlices`. */
module Strings {
  import opened Wrappers

  /** What `String.Concat` makes of a null string argument: nothing. */
  function Text(s: Option<string>): string
  {
    if s.Some? then s.value else ""
  }

  predicate IsNullOrEmpty(value: Option<string>)
  {
    value.None? || value.value == ""
  }

  /** True exactly when the string is neither null nor empty. */
  predicate IsNotNullNorEmpty(value: Option<string>): (r: bool)
    ensures r <==> value.Some? && |value.value| > 0
  {
    !IsNullOrEmpty(value)
  }

  /** `Concatenate(value, str1)`: `value` followed by `str1`, a null one counting as
      empty. */
  function Concatenate(value: Option<string>, str1: Option<string>): (r: string)
    ensures |r| == |Text(value)| + |Text(str1)|
    ensures r[..|Text(value)|] == Text(value) && r[|Text(value)|..] == Text(str1)
  {
    Text(value) + Text(str1)
  }

  /** The joined text of the elements, in order, a null element counting as empty. */
  function Joined(values: seq<Option<string>>): string
  {
    if values == [] then "" else Joined(values[..|values| - 1]) + Text(values[|values| - 1])
  }

  /** `Concatenate(value, params string[] values)`: the joined `values`, without
      `value`; a null array fails as `String.Concat` does. */
  function ConcatenateStrings(value: Option<string>, values: Option<seq<Option<string>>>): (r: Result<string>)
    ensures values.None? ==> r == Err(ArgumentNullException(Some("values")))
    ensures values.Some? ==> r == Ok(Joined(values.value))
  {
    if values.None? then Err(ArgumentNullException(Some("values"))) else Ok(Joined(values.value))
  }

  /** `Concatenate(value, params object[] values)`, each object given by the text its
      `ToString` returns: the joined texts, without `value`. */
  function ConcatenateObjects(value: Option<string>, values: Option<seq<Option<string>>>): (r: Result<string>)
    ensures values.None? ==> r == Err(ArgumentNullException(Some("args")))
    ensures values.Some? ==> r == Ok(Joined(values.value))
  {
    if values.None? then Err(ArgumentNullException(Some("args"))) else Ok(Joined(values.value))
  }

  /** `Concatenate(value, object obj1)`: the object's text alone, without `value`. */
  function ConcatenateObject(value: Option<string>, obj1: Option<string>): (r: string)
    ensures r == Concatenate(None, obj1)
  {
    Text(obj1)
  }

  /** Only the two-string overload keeps `value`: the others return the same text
      whatever `value` is. */
  lemma OverloadsDropValue(a: Option<string>, b: Option<string>, values: Option<seq<Option<string>>>, obj1: Option<string>)
    ensures ConcatenateStrings(a, values) == ConcatenateStrings(b, values)
    ensures ConcatenateObjects(a, values) == ConcatenateObjects(b, values)
    ensures ConcatenateObject(a, obj1) == ConcatenateObject(b, obj1)
  {
  }

  /** Joining is concatenation of the parts: two arrays one after the other join to
      the two texts one after the other. */
  lemma {:induction false} JoinedAppend(xs: seq<Option<string>>, ys: seq<Option<string>>)
    ensures Joined(xs + ys) == Joined(xs) + Joined(ys)
    decreases |ys|
  {
    if ys == [] {
      assert xs + ys == xs;
    } else {
      var init := ys[..|ys| - 1];
      assert (xs + ys)[..|xs + ys| - 1] == xs + init;
      JoinedAppend(xs, init);
    }
  }
}

/** `Left` and `Right` of `StringExtensions`. */
module StringSlices {
  import opened Wrappers
  import opened Assertions

  /** The first `count` characters: a negative count fails the assertion, 0 gives ""
      (even for a null string), a count beyond the length fails like `Substring`. */
  function Left(value: Option<string>, count: int): (r: Result<string>)
    ensures count < 0 ==> r == Err(InvalidOperationException("count must >= 0"))
    ensures count == 0 ==> r == Ok("")
    ensures count > 0 && value.None? ==> r == Err(NullDereference)
    ensures count > 0 && value.Some? && count > |value.value| ==> r == Err(ArgumentOutOfRangeException)
    ensures 0 <= count && value.Some? && count <= |value.value| ==>
              r.Ok? && |r.value| == count && value.value == r.value + value.value[count..]
  {
    var checked := IsTrue(count >= 0, "count must >= 0");
    if checked.Fail? then Err(checked.error)
    else if count == 0 then Ok("")
    else if value.None? then Err(NullDereference)
    else Substring(value.value, 0, count)
  }

  /** The last `count` characters. The start is clamped to 0 but the length is not, so a
      count beyond the length fails. */
  function Right(value: Option<string>, count: int): (r: Result<string>)
    ensures count < 0 ==> r == Err(InvalidOperationException("count must >= 0"))
    ensures count == 0 ==> r == Ok("")
    ensures count > 0 && value.None? ==> r == Err(NullDereference)
    ensures count > 0 && value.Some? && count > |value.value| ==> r == Err(ArgumentOutOfRangeException)
    ensures 0 <= count && value.Some? && count <= |value.value| ==>
              r.Ok? && |r.value| == count && value.value == value.value[..|value.value| - count] + r.value
  {
    var checked := IsTrue(count >= 0, "count must >= 0");
    if checked.Fail? then Err(checked.error)
    else if count == 0 then Ok("")
    else if value.None? then Err(NullDereference)
    else
      var start := if |value.value| - count > 0 then |value.value| - count else 0;
      Substring(value.value, start, count)
  }

  /** `String.Substring(start, length)`. */
  function Substring(s: string, start: int, length: int): (r: Result<string>)
    ensures r.Ok? <==> 0 <= start && 0 <= length && start + length <= |s|
    ensures r.Ok? ==> r.value == s[start..start + length]
  {
    if 0 <= start && 0 <= length && start + length <= |s| then Ok(s[start..start + length])
    else Err(ArgumentOutOfRangeException)
  }

  /** The left `n` and the right `|s| - n` characters put back together give the
      string. */
  lemma LeftThenRight(s: string, n: int)
    requires 0 <= n <= |s|
    ensures Left(Some(s), n).Ok? && Right(Some(s), |s| - n).Ok?
    ensures Left(Some(s), n).value + Right(Some(s), |s| - n).value == s
  {
  }
}
