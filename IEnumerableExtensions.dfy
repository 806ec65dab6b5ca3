/** The sequence helpers (`IEnumerableExtensions`). A null sequence, action or predicate
    is `None`. An action's side effect is recorded as the list of elements it was
    applied to, in order. */
module EnumerableExtensions {
  import opened Wrappers
  import opened Seqs

  /** What `Assert.NotNull` raises when it is given no description. */
  const NullArgument: Error := ArgumentNullException(None)

  /** An action delegate, by identity. */
  datatype ActionRef = ActionRef(id: nat)

  /** Applies the action to every element, in order, and returns the input. */
  method ForEach<T>(value: Option<seq<T>>, action: Option<ActionRef>) returns (r: Result<seq<T>>, applied: seq<T>)
    ensures value.None? || action.None? ==> r == Err(NullArgument) && applied == []
    ensures value.Some? && action.Some? ==> r == Ok(value.value) && applied == value.value
  {
    if value.None? || action.None? {
      return Err(NullArgument), [];
    }
    var xs := value.value;
    applied := [];
    var i := 0;
    while i < |xs|
      invariant 0 <= i <= |xs|
      invariant applied == xs[..i]
    {
      assert xs[..i + 1] == xs[..i] + [xs[i]];
      applied := applied + [xs[i]];
      i := i + 1;
    }
    assert xs[..i] == xs;
    r := Ok(xs);
  }

  /** Applies the action to the elements satisfying the predicate, in order; a null
      predicate selects every element. The input is returned. */
  method ForEachWhere<T>(value: Option<seq<T>>, action: Option<ActionRef>, pred: Option<T -> bool>)
    returns (r: Result<seq<T>>, applied: seq<T>)
    ensures value.None? || action.None? ==> r == Err(NullArgument) && applied == []
    ensures value.Some? && action.Some? ==>
              r == Ok(value.value)
              && applied == Filter(value.value, if pred.Some? then pred.value else (_: T) => true)
  {
    if value.None? || action.None? {
      return Err(NullArgument), [];
    }
    var p := if pred.Some? then pred.value else (_: T) => true;
    var _, done := ForEach(Some(Filter(value.value, p)), action);
    r, applied := Ok(value.value), done;
  }

  /** A possibly null sequence of tree nodes, as `Flatten` walks it. */
  datatype Enumerable<T> = Null | Items(items: seq<Node<T>>)

  /** A tree node; `children` is what the children selector returns for it. */
  datatype Node<T> = Node(item: T, children: Enumerable<T>)

  /** The elements of a sequence; none for null. */
  function Contents<T>(e: Enumerable<T>): seq<Node<T>>
  {
    if e.Null? then [] else e.items
  }

  /** The flattened sequence as specified: null stays null; otherwise the nodes given,
      then, element by element, each node's flattened children. */
  function Flattened<T>(e: Enumerable<T>): Enumerable<T>
    decreases e, 1, 0
  {
    if e.Null? then Null else Items(e.items + Descendants(e, |e.items|))
  }

  /** The flattened children of the first `k` nodes of `e`, in order; null children
      contribute nothing. */
  function Descendants<T>(e: Enumerable<T>, k: nat): seq<Node<T>>
    requires e.Items? && k <= |e.items|
    decreases e, 0, k
  {
    if k == 0 then [] else Descendants(e, k - 1) + Contents(Flattened(e.items[k - 1].children))
  }

  /** The number of nodes in the forest: an independent count. */
  function Size<T>(e: Enumerable<T>): nat
    decreases e, 1, 0
  {
    if e.Null? then 0 else SizeUpTo(e, |e.items|)
  }

  function SizeUpTo<T>(e: Enumerable<T>, k: nat): nat
    requires e.Items? && k <= |e.items|
    decreases e, 0, k
  {
    if k == 0 then 0 else SizeUpTo(e, k - 1) + 1 + Size(e.items[k - 1].children)
  }

  /** `Flatten`: null gives null; otherwise the result starts as the input and grows
      by each element's flattened children, when those are not null. */
  method Flatten<T>(value: Enumerable<T>) returns (r: Enumerable<T>)
    ensures r == Flattened(value)
    decreases value, 2
  {
    if value.Null? {
      return Null;
    }
    var more := FlattenEach(value);
    r := Items(value.items + more);
  }

  /** The loop of `Flatten`, accumulating the flattened children of each element. */
  method FlattenEach<T>(value: Enumerable<T>) returns (acc: seq<Node<T>>)
    requires value.Items?
    ensures acc == Descendants(value, |value.items|)
    decreases value, 1
  {
    acc := [];
    for i := 0 to |value.items|
      invariant acc == Descendants(value, i)
    {
      var children := FlattenChildren(value, i);
      DescendantsStep(value, i, acc, children);
      if children.Items? {
        acc := acc + children.items;
      }
    }
  }

  /** The recursive call of the loop: the flattened children of the `i`-th element. */
  method FlattenChildren<T>(value: Enumerable<T>, i: nat) returns (children: Enumerable<T>)
    requires value.Items? && i < |value.items|
    ensures children == Flattened(value.items[i].children)
    decreases value, 0
  {
    children := Flatten(value.items[i].children);
  }

  /** One more element adds its flattened children, or nothing when they are null. */
  lemma DescendantsStep<T>(value: Enumerable<T>, i: nat, acc: seq<Node<T>>, children: Enumerable<T>)
    requires value.Items? && i < |value.items|
    requires acc == Descendants(value, i) && children == Flattened(value.items[i].children)
    ensures children.Items? ==> Descendants(value, i + 1) == acc + children.items
    ensures children.Null? ==> Descendants(value, i + 1) == acc
  {
  }

  /** The flattened sequence holds one entry per node of the forest and starts with the
      input itself; null gives null. */
  lemma {:induction false} FlattenedSize<T>(e: Enumerable<T>)
    ensures Flattened(e).Null? <==> e.Null?
    ensures |Contents(Flattened(e))| == Size(e)
    ensures Contents(Flattened(e))[..|Contents(e)|] == Contents(e)
    decreases e, 1, 0
  {
    if e.Items? {
      DescendantsSize(e, |e.items|);
    }
  }

  lemma {:induction false} DescendantsSize<T>(e: Enumerable<T>, k: nat)
    requires e.Items? && k <= |e.items|
    ensures k + |Descendants(e, k)| == SizeUpTo(e, k)
    decreases e, 0, k
  {
    if k > 0 {
      DescendantsSize(e, k - 1);
      FlattenedSize(e.items[k - 1].children);
    }
  }

  /** A node whose children are null flattens to itself alone. */
  lemma FlattenLeaf<T>(x: T)
    ensures Flattened(Items([Node(x, Null)])) == Items([Node(x, Null)])
  {
    var e := Items([Node(x, Null)]);
    assert Descendants(e, 1) == Descendants(e, 0) + [];
  }

  /** A deferred `Convert`: nothing is checked until the sequence is enumerated. */
  datatype Converted<!T, U> = Converted(source: Option<seq<T>>, action: Option<T -> U>)

  /** `Convert` returns an iterator at once, whatever its arguments: it cannot fail. Its
      null checks come only when the iterator is enumerated, and then it yields the
      converted elements in order. */
  function Convert<T, U>(value: Option<seq<T>>, action: Option<T -> U>): (r: Converted<T, U>)
    ensures value.None? ==> Enumerate(r) == Err(ArgumentNullException(Some("value")))
    ensures value.Some? && action.None? ==> Enumerate(r) == Err(ArgumentNullException(Some("action")))
    ensures value.Some? && action.Some? ==>
              && Enumerate(r).Ok? && |Enumerate(r).value| == |value.value|
              && forall i | 0 <= i < |value.value| :: Enumerate(r).value[i] == action.value(value.value[i])
  {
    Converted(value, action)
  }

  /** Enumerating the iterator: the null checks, in order, then `action(x)` for each
      `x`, in order. */
  function Enumerate<T, U>(c: Converted<T, U>): (r: Result<seq<U>>)
    ensures c.source.None? ==> r == Err(ArgumentNullException(Some("value")))
    ensures c.source.Some? && c.action.None? ==> r == Err(ArgumentNullException(Some("action")))
    ensures c.source.Some? && c.action.Some? ==>
              r.Ok? && |r.value| == |c.source.value|
              && forall i | 0 <= i < |r.value| :: r.value[i] == c.action.value(c.source.value[i])
  {
    if c.source.None? then Err(ArgumentNullException(Some("value")))
    else if c.action.None? then Err(ArgumentNullException(Some("action")))
    else Ok(Map(c.source.value, c.action.value))
  }

  /** Converting twice is converting once by the composition. */
  lemma ConvertComposes<T, U, V>(xs: seq<T>, f: T -> U, g: U -> V)
    ensures Enumerate(Convert(Some(Enumerate(Convert(Some(xs), Some(f))).value), Some(g)))
         == Enumerate(Convert(Some(xs), Some((x: T) => g(f(x)))))
  {
    var once := Enumerate(Convert(Some(xs), Some(f))).value;
    var twice := Enumerate(Convert(Some(once), Some(g))).value;
    var direct := Enumerate(Convert(Some(xs), Some((x: T) => g(f(x))))).value;
    assert |twice| == |direct|;
    assert forall i | 0 <= i < |twice| :: twice[i] == direct[i];
    assert twice == direct;
  }
}
