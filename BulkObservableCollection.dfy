/** The observable collection with bulk operations (`BulkObservableCollection`). Each
    bulk operation changes the underlying list element by element, without the per-item
    notifications of the base observable collection, and then raises one notification
    for the whole batch. Raised notifications are recorded, in order, in `raised`. */
module BulkCollections {
  import opened Wrappers
  import opened Seqs
  import opened CollectionExtensions

  datatype ChangeAction = Add | Remove | Replace | Move | Reset

  /** A collection-change notification: the action, the new and the old items (null
      when the action has none) and the starting index. */
  datatype ChangeArgs<T> = ChangeArgs(action: ChangeAction, newItems: Option<seq<T>>, oldItems: Option<seq<T>>, index: int)

  datatype Notification<T> = CollectionChanged(args: ChangeArgs<T>) | PropertyChanged(propertyName: string)

  /** What a list enumerator raises once the list has changed under it. */
  const EnumFailedVersion: Error := InvalidOperationException("Collection was modified; enumeration operation may not execute.")

  class BulkObservableCollection<T(==)> {
    /** The underlying list (`base.Items`). */
    var items: seq<T>
    /** The underlying list's modification counter, which its enumerators check. */
    var version: nat
    var raised: seq<Notification<T>>

    constructor (items: seq<T>)
      ensures this.items == items && raised == []
    {
      this.items := items;
      version := 0;
      raised := [];
    }

    // The underlying list's own operations.

    method ItemsAdd(x: T)
      modifies this
      ensures items == old(items) + [x] && version == old(version) + 1 && raised == old(raised)
    {
      items := items + [x];
      version := version + 1;
    }

    /** Removes the first equal element; the list counts a change only when there was one. */
    method ItemsRemove(x: T)
      modifies this
      ensures items == RemoveFirst(old(items), x) && raised == old(raised)
      ensures version == if x in old(items) then old(version) + 1 else old(version)
    {
      if x in items {
        version := version + 1;
      }
      items := RemoveFirst(items, x);
    }

    method ItemsClear()
      modifies this
      ensures items == [] && version == old(version) + 1 && raised == old(raised)
    {
      items := [];
      version := version + 1;
    }

    method OnCollectionChanged(e: ChangeArgs<T>)
      modifies this
      ensures raised == old(raised) + [CollectionChanged(e)]
      ensures items == old(items) && version == old(version)
    {
      raised := raised + [CollectionChanged(e)];
    }

    method OnPropertyChanged(propertyName: string)
      modifies this
      ensures raised == old(raised) + [PropertyChanged(propertyName)]
      ensures items == old(items) && version == old(version)
    {
      raised := raised + [PropertyChanged(propertyName)];
    }

    /** Appends the elements in order, then raises one Add notification whose index is
        the count before the call. A null argument fails before any change. */
    method AddRange(xs: Option<seq<T>>) returns (outcome: Outcome)
      modifies this
      ensures xs.None? ==> outcome == Fail(ArgumentNullException(Some("items")))
                           && items == old(items) && raised == old(raised)
      ensures xs.Some? ==> outcome == Pass && items == old(items) + xs.value
                           && raised == old(raised) + [CollectionChanged(ChangeArgs(Add, xs, None, |old(items)|))]
    {
      if xs.None? {
        return Fail(ArgumentNullException(Some("items")));
      }
      var index := |items|;
      var i := 0;
      while i < |xs.value|
        invariant 0 <= i <= |xs.value|
        invariant items == old(items) + xs.value[..i] && raised == old(raised)
      {
        ItemsAdd(xs.value[i]);
        assert xs.value[..i + 1] == xs.value[..i] + [xs.value[i]];
        i := i + 1;
      }
      assert xs.value[..i] == xs.value;
      OnCollectionChanged(ChangeArgs(Add, xs, None, index));
      outcome := Pass;
    }

    /** Removes the first occurrence of each element, then raises one Remove
        notification with index 0. A null argument fails before any change. */
    method RemoveRange(xs: Option<seq<T>>) returns (outcome: Outcome)
      modifies this
      ensures xs.None? ==> outcome == Fail(ArgumentNullException(Some("items")))
                           && items == old(items) && raised == old(raised)
      ensures xs.Some? ==> outcome == Pass && items == RemoveEach(old(items), xs.value)
                           && raised == old(raised) + [CollectionChanged(ChangeArgs(Remove, None, xs, 0))]
    {
      if xs.None? {
        return Fail(ArgumentNullException(Some("items")));
      }
      var i := 0;
      while i < |xs.value|
        invariant 0 <= i <= |xs.value|
        invariant RemoveEach(old(items), xs.value) == RemoveEach(items, xs.value[i..])
        invariant raised == old(raised)
      {
        assert xs.value[i..] == [xs.value[i]] + xs.value[i + 1..];
        ItemsRemove(xs.value[i]);
        i := i + 1;
      }
      OnCollectionChanged(ChangeArgs(Remove, None, xs, 0));
      outcome := Pass;
    }

    /** `RemoveWhere` as written: the filter handed to `RemoveRange` is lazy and reads
        the very list that `RemoveRange` changes. Enumeration stops with the list's
        "collection was modified" error right after the first match has been removed,
        and no notification is raised. Only when nothing matches does it complete,
        raising a Remove notification with no items. */
    method RemoveWhereAsWritten(pred: Option<T -> bool>) returns (outcome: Outcome)
      modifies this
      ensures pred.None? ==> outcome == Fail(ArgumentNullException(Some("predicate")))
                             && items == old(items) && raised == old(raised)
      ensures pred.Some? && FirstIndex(old(items), pred.value).None? ==>
                outcome == Pass && items == old(items)
                && raised == old(raised) + [CollectionChanged(ChangeArgs(Remove, None, Some([]), 0))]
      ensures pred.Some? && FirstIndex(old(items), pred.value).Some? ==>
                var i := FirstIndex(old(items), pred.value).value;
                outcome == Fail(EnumFailedVersion) && raised == old(raised)
                && items == old(items)[..i] + old(items)[i + 1..]
    {
      if pred.None? {
        return Fail(ArgumentNullException(Some("predicate")));
      }
      var p := pred.value;
      // foreach over the lazy filter: the filter's enumerator walks the live list
      var expected := version;
      var cursor := 0;
      while true
        invariant 0 <= cursor <= |old(items)|
        invariant raised == old(raised)
        invariant version == expected ==> items == old(items) && forall j | 0 <= j < cursor :: !p(old(items)[j])
        invariant version != expected ==>
                    FirstIndex(old(items), p).Some? && FirstIndex(old(items), p).value == cursor - 1
                    && items == old(items)[..cursor - 1] + old(items)[cursor..]
        decreases |old(items)| - cursor, if version == expected then 1 else 0
      {
        if version != expected {
          return Fail(EnumFailedVersion);
        }
        if cursor >= |items| {
          break;
        }
        var x := items[cursor];
        cursor := cursor + 1;
        if p(x) {
          FirstIndexAt(old(items), p, cursor - 1);
          RemoveFirstAt(old(items), x, cursor - 1);
          ItemsRemove(x);
        }
      }
      // no element matched: the second enumeration of the filter finds nothing either
      assert FirstIndex(old(items), p).None? by {
        NoneBefore(old(items), p, cursor);
      }
      FilterNone(items, p);
      OnCollectionChanged(ChangeArgs(Remove, None, Some(Filter(items, p)), 0));
      outcome := Pass;
    }

    /** `RemoveWhere` as intended: the matches are snapshotted first, so every one of
        them is removed and the others keep their order. */
    method RemoveWhere(pred: Option<T -> bool>) returns (outcome: Outcome)
      modifies this
      ensures pred.None? ==> outcome == Fail(ArgumentNullException(Some("predicate")))
                             && items == old(items) && raised == old(raised)
      ensures pred.Some? ==> outcome == Pass && items == Filter(old(items), Not(pred.value))
                             && raised == old(raised) + [CollectionChanged(ChangeArgs(Remove, None, Some(Filter(old(items), pred.value)), 0))]
    {
      if pred.None? {
        return Fail(ArgumentNullException(Some("predicate")));
      }
      var matches := Filter(items, pred.value);
      RemoveEachFilter(items, pred.value);
      outcome := RemoveRange(Some(matches));
    }

    /** Snapshot, clear, append; then "Count", then "Item[]", then one Replace
        notification carrying the new items and the snapshot. */
    method ReplaceAll(xs: Option<seq<T>>) returns (outcome: Outcome)
      modifies this
      ensures xs.None? ==> outcome == Fail(ArgumentNullException(Some("items")))
                           && items == old(items) && raised == old(raised)
      ensures xs.Some? ==> outcome == Pass && items == xs.value
                           && raised == old(raised) + [PropertyChanged("Count"), PropertyChanged("Item[]"),
                                                       CollectionChanged(ChangeArgs(Replace, xs, Some(old(items)), -1))]
    {
      if xs.None? {
        return Fail(ArgumentNullException(Some("items")));
      }
      var oldItems := items;
      ItemsClear();
      var i := 0;
      while i < |xs.value|
        invariant 0 <= i <= |xs.value|
        invariant items == xs.value[..i] && raised == old(raised)
      {
        ItemsAdd(xs.value[i]);
        assert xs.value[..i + 1] == xs.value[..i] + [xs.value[i]];
        i := i + 1;
      }
      assert xs.value[..i] == xs.value;
      OnPropertyChanged("Count");
      OnPropertyChanged("Item[]");
      OnCollectionChanged(ChangeArgs(Replace, xs, Some(oldItems), -1));
      outcome := Pass;
    }
  }

  // ---------------------------------------------------------------------------
  // Helpers of the lazy-filter model

  lemma FirstIndexAt<T>(s: seq<T>, p: T -> bool, k: nat)
    requires k < |s| && p(s[k]) && forall j | 0 <= j < k :: !p(s[j])
    ensures FirstIndex(s, p) == Some(k)
  {
  }

  lemma NoneBefore<T>(s: seq<T>, p: T -> bool, k: nat)
    requires k >= |s| && forall j | 0 <= j < |s| :: !p(s[j])
    ensures FirstIndex(s, p).None?
  {
  }

  lemma {:induction false} RemoveFirstAt<T>(s: seq<T>, x: T, k: nat)
    requires k < |s| && s[k] == x && forall j | 0 <= j < k :: s[j] != x
    ensures RemoveFirst(s, x) == s[..k] + s[k + 1..]
    decreases s
  {
    if k > 0 {
      RemoveFirstAt(s[1..], x, k - 1);
      assert s[..k] == [s[0]] + s[1..][..k - 1];
      assert s[k + 1..] == s[1..][k..];
    }
  }

  lemma {:induction false} FilterNone<T>(s: seq<T>, p: T -> bool)
    requires FirstIndex(s, p).None?
    ensures Filter(s, p) == []
    decreases s
  {
    if s != [] {
      FilterNone(s[1..], p);
    }
  }

  // ---------------------------------------------------------------------------
  // Properties

  /** An observer that applies a notification to its copy of the list: Add inserts the
      new items at the index; Replace substitutes the new items for the old ones when
      they are the whole list; Move and Reset are not applied. */
  function Replay<T(==)>(view: seq<T>, e: ChangeArgs<T>): (r: Option<seq<T>>)
    ensures e.action == Add && e.newItems.Some? && 0 <= e.index <= |view| ==>
              r.Some? && |r.value| == |view| + |e.newItems.value|
              && r.value[..e.index] == view[..e.index]
    ensures e.action == Replace && e.newItems.Some? && e.oldItems == Some(view) ==> r == Some(e.newItems.value)
  {
    match e.action
    case Add =>
      if e.newItems.Some? && 0 <= e.index <= |view|
      then Some(view[..e.index] + e.newItems.value + view[e.index..])
      else None
    case Replace =>
      if e.newItems.Some? && e.oldItems == Some(view) then Some(e.newItems.value) else None
    case _ => None
  }

  /** The Add notification of `AddRange` brings an observer's copy of the list up to
      date, and the Replace notification of `ReplaceAll` does too. */
  lemma BulkNotificationsDescribeTheChange<T>(before: seq<T>, xs: seq<T>)
    ensures Replay(before, ChangeArgs(Add, Some(xs), None, |before|)) == Some(before + xs)
    ensures Replay(before, ChangeArgs(Replace, Some(xs), Some(before), -1)) == Some(xs)
  {
    assert before[..|before|] == before && before[|before|..] == [];
    assert before + xs + [] == before + xs;
  }

  /** On `[a, b]` with a predicate matching both, the written `RemoveWhere` removes `a`,
      leaves `b`, raises nothing and fails; the intended one removes both. */
  lemma RemoveWhereDiscrepancy(a: int, b: int)
    ensures var s := [a, b];
            var p := (x: int) => x == a || x == b;
            FirstIndex(s, p) == Some(0)
            && s[..0] + s[1..] == [b]
            && Filter(s, Not(p)) == []
  {
    var s := [a, b];
    var p := (x: int) => x == a || x == b;
    assert s[1..] == [b];
    assert Filter(s[1..], Not(p)) == Filter(s[2..], Not(p));
  }
}
