/** The in-place collection helpers (`ICollectionExtensions`). The collection has list
    semantics: `Add` appends, `Remove` takes out the first equal element, `Clear`
    empties. Every helper returns the collection it was given. A null reference is
    `null` for the collection and `None` for a sequence or a predicate argument. */
module CollectionExtensions {
  import opened Wrappers
  import opened Seqs

  class Collection<T(==)> {
    var items: seq<T>

    constructor (items: seq<T>)
      ensures this.items == items
    {
      this.items := items;
    }

    method Add(x: T)
      modifies this
      ensures items == old(items) + [x]
    {
      items := items + [x];
    }

    method Remove(x: T)
      modifies this
      ensures items == RemoveFirst(old(items), x)
    {
      items := RemoveFirst(items, x);
    }

    method Clear()
      modifies this
      ensures items == []
    {
      items := [];
    }
  }

  /** What LINQ raises when its source sequence is null. */
  const NullSource: Error := ArgumentNullException(Some("source"))

  /** The given elements, or none for a null sequence. */
  function OrEmpty<T>(items: Option<seq<T>>): seq<T>
  {
    if items.Some? then items.value else []
  }

  /** Appends every element, in order; a null sequence adds nothing. */
  method AddRange<T(==)>(value: Collection?<T>, items: Option<seq<T>>) returns (r: Result<Collection<T>>)
    modifies value
    ensures value == null ==> r == Err(ArgumentNullException(Some("value")))
    ensures value != null ==> r == Ok(value) && value.items == old(value.items) + OrEmpty(items)
  {
    if value == null {
      return Err(ArgumentNullException(Some("value")));
    }
    if items.None? {
      return Ok(value);
    }
    var xs := items.value;
    var i := 0;
    while i < |xs|
      invariant 0 <= i <= |xs|
      invariant value.items == old(value.items) + xs[..i]
    {
      value.Add(xs[i]);
      assert xs[..i + 1] == xs[..i] + [xs[i]];
      i := i + 1;
    }
    assert xs[..i] == xs;
    r := Ok(value);
  }

  /** Removes one occurrence per element, in order; a null sequence removes nothing. */
  method RemoveRange<T(==)>(value: Collection?<T>, items: Option<seq<T>>) returns (r: Result<Collection<T>>)
    modifies value
    ensures value == null ==> r == Err(ArgumentNullException(Some("value")))
    ensures value != null ==> r == Ok(value) && value.items == RemoveEach(old(value.items), OrEmpty(items))
  {
    if value == null {
      return Err(ArgumentNullException(Some("value")));
    }
    if items.None? {
      return Ok(value);
    }
    var xs := items.value;
    var i := 0;
    while i < |xs|
      invariant 0 <= i <= |xs|
      invariant RemoveEach(old(value.items), xs) == RemoveEach(value.items, xs[i..])
    {
      assert xs[i..] == [xs[i]] + xs[i + 1..];
      value.Remove(xs[i]);
      i := i + 1;
    }
    r := Ok(value);
  }

  /** Snapshots the matching elements, then removes one occurrence of each. */
  method RemoveWhere<T(==)>(value: Collection?<T>, pred: Option<T -> bool>) returns (r: Result<Collection<T>>)
    modifies value
    ensures pred.None? ==> r == Err(ArgumentNullException(Some("predicate")))
    ensures pred.Some? && value == null ==> r == Err(NullSource)
    ensures pred.Some? && value != null ==>
              r == Ok(value) && value.items == Filter(old(value.items), Not(pred.value))
  {
    if pred.None? {
      return Err(ArgumentNullException(Some("predicate")));
    }
    if value == null {
      return Err(NullSource);
    }
    var matches := Filter(value.items, pred.value);
    RemoveEachFilter(value.items, pred.value);
    r := RemoveRange(value, Some(matches));
  }

  /** `FirstOrDefault`: the first element satisfying `p`, else the type's default. */
  function FirstOrDefault<T>(s: seq<T>, p: T -> bool, dflt: T): (r: T)
    ensures (exists x <- s :: p(x)) ==> r in s && p(r)
    ensures (forall x <- s :: !p(x)) ==> r == dflt
    ensures FirstIndex(s, p).Some? ==> r == s[FirstIndex(s, p).value]
    decreases s
  {
    if s == [] then dflt else if p(s[0]) then s[0] else FirstOrDefault(s[1..], p, dflt)
  }

  /** The element type, as far as `element != null` can tell: for a reference type the
      default is null, and `element != null` fails exactly for it; for a value type the
      test always succeeds, whatever `element` is. */
  datatype ElementKind<T(==)> = ReferenceType(nullValue: T) | ValueType(zero: T) {
    function Default(): T
    {
      if ReferenceType? then nullValue else zero
    }

    predicate NotNull(element: T)
    {
      ValueType? || element != nullValue
    }
  }

  /** `RemoveFirst` as written: the first match, or the default, is removed if it is
      not null. For a value type a miss therefore removes one copy of the default
      value (see `RemoveFirstMissRemovesDefault`). */
  method RemoveFirstAsWritten<T(==)>(value: Collection?<T>, pred: Option<T -> bool>, kind: ElementKind<T>) returns (r: Result<Collection<T>>)
    modifies value
    ensures pred.None? ==> r == Err(ArgumentNullException(Some("predicate")))
    ensures pred.Some? && value == null ==> r == Err(NullSource)
    ensures pred.Some? && value != null ==>
              var element := FirstOrDefault(old(value.items), pred.value, kind.Default());
              r == Ok(value)
              && value.items == if kind.NotNull(element) then RemoveFirst(old(value.items), element) else old(value.items)
  {
    if pred.None? {
      return Err(ArgumentNullException(Some("predicate")));
    }
    if value == null {
      return Err(NullSource);
    }
    var element := FirstOrDefault(value.items, pred.value, kind.Default());
    if kind.NotNull(element) {
      value.Remove(element);
    }
    r := Ok(value);
  }

  /** A collection of integers that holds a 0 and no element above 10: asking to remove
      the first element above 10 removes the 0. */
  lemma RemoveFirstMissRemovesDefault()
    ensures var s := [0, 7];
            var element := FirstOrDefault(s, (x: int) => x > 10, ValueType(0).Default());
            ValueType(0).NotNull(element) && RemoveFirst(s, element) == [7]
  {
    var s := [0, 7];
    assert FirstOrDefault(s[1..], (x: int) => x > 10, 0) == FirstOrDefault(s[2..], (x: int) => x > 10, 0);
  }

  /** The position of the first element satisfying `p`, if any. */
  function FirstIndex<T>(s: seq<T>, p: T -> bool): (r: Option<nat>)
    ensures r.Some? ==> r.value < |s| && p(s[r.value]) && forall j | 0 <= j < r.value :: !p(s[j])
    ensures r.None? ==> forall x <- s :: !p(x)
    decreases s
  {
    if s == [] then None
    else if p(s[0]) then Some(0)
    else match FirstIndex(s[1..], p)
      case None => None
      case Some(i) => Some(i + 1)
  }

  /** `RemoveFirst` as intended: the first element satisfying the predicate, and only
      it, is removed; on a miss nothing changes, whatever the element type. */
  method RemoveFirstWhere<T(==)>(value: Collection?<T>, pred: Option<T -> bool>) returns (r: Result<Collection<T>>)
    modifies value
    ensures pred.None? ==> r == Err(ArgumentNullException(Some("predicate")))
    ensures pred.Some? && value == null ==> r == Err(NullSource)
    ensures pred.Some? && value != null ==>
              r == Ok(value)
              && var i := FirstIndex(old(value.items), pred.value);
                 value.items == if i.None? then old(value.items) else old(value.items)[..i.value] + old(value.items)[i.value + 1..]
  {
    if pred.None? {
      return Err(ArgumentNullException(Some("predicate")));
    }
    if value == null {
      return Err(NullSource);
    }
    var i := FirstIndex(value.items, pred.value);
    if i.Some? {
      value.items := value.items[..i.value] + value.items[i.value + 1..];
    }
    r := Ok(value);
  }

  /** Empties the collection, then appends the given elements. */
  method ReplaceAll<T(==)>(value: Collection?<T>, items: Option<seq<T>>) returns (r: Result<Collection<T>>)
    modifies value
    ensures value == null ==> r == Err(ArgumentNullException(Some("value")))
    ensures value != null ==> r == Ok(value) && value.items == OrEmpty(items)
  {
    if value == null {
      return Err(ArgumentNullException(Some("value")));
    }
    value.Clear();
    r := AddRange(value, items);
  }

  // ---------------------------------------------------------------------------
  // Properties

  /** `RemoveRange` is multiset difference: one copy fewer per listed element, absent
      elements ignored. */
  lemma RemoveRangeIsDifference<T>(s: seq<T>, items: seq<T>)
    ensures multiset(RemoveEach(s, items)) == multiset(s) - multiset(items)
    ensures (forall x <- items :: x !in s) ==> RemoveEach(s, items) == s
  {
    RemoveEachMultiset(s, items);
    if forall x <- items :: x !in s {
      RemoveEachAbsent(s, items);
    }
  }

  lemma {:induction false} RemoveEachAbsent<T>(s: seq<T>, items: seq<T>)
    requires forall x <- items :: x !in s
    ensures RemoveEach(s, items) == s
    decreases items
  {
    if items != [] {
      RemoveFirstAbsent(s, items[0]);
      RemoveEachAbsent(s, items[1..]);
    }
  }

  /** `RemoveWhere` removes every match, keeps every other element in order; doing it
      twice is doing it once. */
  lemma RemoveWhereIdempotent<T>(s: seq<T>, p: T -> bool)
    ensures forall x <- Filter(s, Not(p)) :: !p(x)
    ensures Filter(Filter(s, Not(p)), Not(p)) == Filter(s, Not(p))
  {
    FilterAll(Filter(s, Not(p)), Not(p));
  }

  lemma {:induction false} FilterAll<T>(s: seq<T>, p: T -> bool)
    requires forall x <- s :: p(x)
    ensures Filter(s, p) == s
    decreases s
  {
    if s != [] {
      FilterAll(s[1..], p);
    }
  }

  /** For a reference element type, or when some element matches, the intended and the
      written `RemoveFirst` agree. */
  lemma {:induction false} RemoveFirstAgreesOnHit<T>(s: seq<T>, p: T -> bool, kind: ElementKind<T>)
    requires FirstIndex(s, p).Some?
    requires kind.NotNull(s[FirstIndex(s, p).value])
    ensures var i := FirstIndex(s, p).value;
            RemoveFirst(s, FirstOrDefault(s, p, kind.Default())) == s[..i] + s[i + 1..]
    decreases s
  {
    var i := FirstIndex(s, p).value;
    if i > 0 {
      assert FirstIndex(s[1..], p).value == i - 1;
      RemoveFirstAgreesOnHit(s[1..], p, kind);
      assert FirstOrDefault(s, p, kind.Default()) == FirstOrDefault(s[1..], p, kind.Default());
      assert s[..i] == [s[0]] + s[1..][..i - 1];
      assert s[i + 1..] == s[1..][i..];
      assert s[0] != s[i] by {
        assert !p(s[0]);
      }
    }
  }
}
