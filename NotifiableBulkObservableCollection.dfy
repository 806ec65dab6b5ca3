/** The bulk collection that relays its items' property changes
    (`NotifiableBulkObservableCollection`). Its collection-change override attaches the
    collection's handler to every item that arrives and detaches it from every item
    that leaves, then raises the base notification; the handler re-raises an item's
    change on the collection's own `PropertyChanged` event, with the item as sender.
    The steps the override takes are recorded, in order, in `log`. */
module NotifiableBulkCollections {
  import opened Wrappers
  import opened BulkCollections

  /** One step of the override: the handler attached to (`+=`) or detached from (`-=`)
      an item's `PropertyChanged` event, or the base notification raised. */
  datatype Step<T> = Attach(item: T) | Detach(item: T) | RaiseBase(args: ChangeArgs<T>)

  /** A listener of the collection's own `PropertyChanged` event, by identity. */
  datatype Listener = Listener(id: nat)

  /** One invocation of a listener: the sender and the property name it receives. */
  datatype ListenerCall<T> = ListenerCall(listener: Listener, sender: T, propertyName: string)

  /** One step's effect on the attachment counts, under the usual event semantics:
      `+=` adds one copy, `-=` removes one copy if there is one. */
  function Apply<T>(m: multiset<T>, step: Step<T>): multiset<T>
  {
    match step
    case Attach(x) => m + multiset{x}
    case Detach(x) => m - multiset{x}
    case RaiseBase(_) => m
  }

  /** The number of times the handler is attached to each item after `log`. */
  function Attached<T>(log: seq<Step<T>>): multiset<T>
    decreases |log|
  {
    if log == [] then multiset{} else Apply(Attached(log[..|log| - 1]), log[|log| - 1])
  }

  /** The steps of the override for one notification, before the base raise: Add
      attaches to each new item, Remove detaches from each old one, Replace and Reset
      detach from the old items and then attach to the new ones, in list order, with a
      null list taken as empty; Move does nothing. */
  function Reaction<T>(e: ChangeArgs<T>): (r: seq<Step<T>>)
    ensures e.action.Move? ==> r == []
    ensures e.action.Add? ==>
              && |r| == |OrNone(e.newItems)|
              && forall i | 0 <= i < |r| :: r[i] == Attach(OrNone(e.newItems)[i])
    ensures e.action.Remove? ==>
              && |r| == |OrNone(e.oldItems)|
              && forall i | 0 <= i < |r| :: r[i] == Detach(OrNone(e.oldItems)[i])
    ensures (e.action.Replace? || e.action.Reset?) ==>
              var olds, news := OrNone(e.oldItems), OrNone(e.newItems);
              && |r| == |olds| + |news|
              && (forall i | 0 <= i < |olds| :: r[i] == Detach(olds[i]))
              && (forall j | 0 <= j < |news| :: r[|olds| + j] == Attach(news[j]))
  {
    AttachAllSteps(OrNone(e.newItems));
    DetachAllSteps(OrNone(e.oldItems));
    match e.action
    case Add => AttachAll(OrNone(e.newItems))
    case Remove => DetachAll(OrNone(e.oldItems))
    case Replace | Reset => DetachAll(OrNone(e.oldItems)) + AttachAll(OrNone(e.newItems))
    case Move => []
  }

  /** A null item list is skipped, like an empty one. */
  function OrNone<T>(xs: Option<seq<T>>): seq<T>
  {
    if xs.Some? then xs.value else []
  }

  function AttachAll<T>(xs: seq<T>): (r: seq<Step<T>>)
    ensures |r| == |xs|
    decreases |xs|
  {
    if xs == [] then [] else AttachAll(xs[..|xs| - 1]) + [Attach(xs[|xs| - 1])]
  }

  lemma {:induction false} AttachAllSteps<T>(xs: seq<T>)
    ensures forall i | 0 <= i < |xs| :: AttachAll(xs)[i] == Attach(xs[i])
    decreases |xs|
  {
    if xs != [] {
      AttachAllSteps(xs[..|xs| - 1]);
    }
  }

  function DetachAll<T>(xs: seq<T>): (r: seq<Step<T>>)
    ensures |r| == |xs|
    decreases |xs|
  {
    if xs == [] then [] else DetachAll(xs[..|xs| - 1]) + [Detach(xs[|xs| - 1])]
  }

  lemma {:induction false} DetachAllSteps<T>(xs: seq<T>)
    ensures forall i | 0 <= i < |xs| :: DetachAll(xs)[i] == Detach(xs[i])
    decreases |xs|
  {
    if xs != [] {
      DetachAllSteps(xs[..|xs| - 1]);
    }
  }

  /** `Delegate.Remove`: the last occurrence goes; absent, nothing changes. */
  function RemoveLast<T(==)>(s: seq<T>, x: T): (r: seq<T>)
    ensures x !in s ==> r == s
    ensures x in s ==> |r| == |s| - 1
    decreases |s|
  {
    if s == [] then []
    else if s[|s| - 1] == x then s[..|s| - 1]
    else RemoveLast(s[..|s| - 1], x) + [s[|s| - 1]]
  }

  class NotifiableBulkObservableCollection<T> {
    var log: seq<Step<T>>
    /** The invocation list of the collection's own `PropertyChanged` event. */
    var listeners: seq<Listener>

    constructor ()
      ensures log == [] && listeners == []
    {
      log := [];
      listeners := [];
    }

    /** The override: attach or detach according to the action (the old items are
        detached before the new ones are attached), then raise the base notification. */
    method OnCollectionChanged(e: ChangeArgs<T>)
      modifies this
      ensures log == old(log) + Reaction(e) + [RaiseBase(e)]
      ensures listeners == old(listeners)
    {
      match e.action {
        case Add =>
          if e.newItems.Some? { Subscribe(e.newItems.value); }
        case Remove =>
          if e.oldItems.Some? { UnSubscribe(e.oldItems.value); }
        case Replace =>
          if e.oldItems.Some? { UnSubscribe(e.oldItems.value); }
          if e.newItems.Some? { Subscribe(e.newItems.value); }
        case Reset =>
          if e.oldItems.Some? { UnSubscribe(e.oldItems.value); }
          if e.newItems.Some? { Subscribe(e.newItems.value); }
        case Move =>
      }
      log := log + [RaiseBase(e)];
    }

    /** Attaches the handler to each item, in order. */
    method Subscribe(xs: seq<T>)
      modifies this
      ensures log == old(log) + AttachAll(xs) && listeners == old(listeners)
    {
      var i := 0;
      while i < |xs|
        invariant 0 <= i <= |xs|
        invariant log == old(log) + AttachAll(xs[..i]) && listeners == old(listeners)
      {
        assert xs[..i + 1][..i] == xs[..i];
        log := log + [Attach(xs[i])];
        i := i + 1;
      }
      assert xs[..i] == xs;
    }

    /** Detaches the handler from each item, in order. */
    method UnSubscribe(xs: seq<T>)
      modifies this
      ensures log == old(log) + DetachAll(xs) && listeners == old(listeners)
    {
      var i := 0;
      while i < |xs|
        invariant 0 <= i <= |xs|
        invariant log == old(log) + DetachAll(xs[..i]) && listeners == old(listeners)
      {
        assert xs[..i + 1][..i] == xs[..i];
        log := log + [Detach(xs[i])];
        i := i + 1;
      }
      assert xs[..i] == xs;
    }

    method AddPropertyChanged(l: Listener)
      modifies this
      ensures listeners == old(listeners) + [l] && log == old(log)
    {
      listeners := listeners + [l];
    }

    method RemovePropertyChanged(l: Listener)
      modifies this
      ensures listeners == RemoveLast(old(listeners), l) && log == old(log)
    {
      listeners := RemoveLast(listeners, l);
    }

    /** The handler attached to the items: a null name is passed on as "". */
    method ItemPropertyChanged(sender: T, propertyName: Option<string>) returns (calls: seq<ListenerCall<T>>)
      ensures |calls| == |listeners|
      ensures forall i | 0 <= i < |calls| ::
                calls[i] == ListenerCall(listeners[i], sender, if propertyName.Some? then propertyName.value else "")
    {
      calls := OnPropertyChanged(sender, if propertyName.None? then "" else propertyName.value);
    }

    /** Raises the collection's own event with the item as sender: every listener, in
        the order they were added; nobody when there is no listener. */
    method OnPropertyChanged(item: T, propertyName: string) returns (calls: seq<ListenerCall<T>>)
      ensures |calls| == |listeners|
      ensures forall i | 0 <= i < |calls| :: calls[i] == ListenerCall(listeners[i], item, propertyName)
    {
      calls := [];
      if listeners != [] {
        var i := 0;
        while i < |listeners|
          invariant 0 <= i <= |listeners|
          invariant |calls| == i
          invariant forall j | 0 <= j < i :: calls[j] == ListenerCall(listeners[j], item, propertyName)
        {
          calls := calls + [ListenerCall(listeners[i], item, propertyName)];
          i := i + 1;
        }
      }
    }
  }

  // ---------------------------------------------------------------------------
  // Properties of the attachment counts

  lemma AttachedSnoc<T>(log: seq<Step<T>>, step: Step<T>)
    ensures Attached(log + [step]) == Apply(Attached(log), step)
  {
    assert (log + [step])[..|log|] == log;
  }

  /** Attaching to each of `xs` adds one attachment per element. */
  lemma {:induction false} AttachAllCount<T>(log: seq<Step<T>>, xs: seq<T>)
    ensures Attached(log + AttachAll(xs)) == Attached(log) + multiset(xs)
    decreases |xs|
  {
    if xs == [] {
      assert log + [] == log;
    } else {
      var init, last := xs[..|xs| - 1], xs[|xs| - 1];
      AttachAllCount(log, init);
      AppendOne(log, AttachAll(init), Attach(last));
      PlusStep(Attached(log), xs);
    }
  }

  /** Detaching from each of `xs` removes one attachment per element, where there is one. */
  lemma {:induction false} DetachAllCount<T>(log: seq<Step<T>>, xs: seq<T>)
    ensures Attached(log + DetachAll(xs)) == Attached(log) - multiset(xs)
    decreases |xs|
  {
    if xs == [] {
      assert log + [] == log;
    } else {
      var init, last := xs[..|xs| - 1], xs[|xs| - 1];
      DetachAllCount(log, init);
      AppendOne(log, DetachAll(init), Detach(last));
      MinusStep(Attached(log), xs);
    }
  }

  lemma AppendOne<T>(log: seq<Step<T>>, steps: seq<Step<T>>, step: Step<T>)
    ensures Attached(log + (steps + [step])) == Apply(Attached(log + steps), step)
  {
    assert log + (steps + [step]) == (log + steps) + [step];
    AttachedSnoc(log + steps, step);
  }

  lemma Regroup<T>(log: seq<Step<T>>, a: seq<Step<T>>, b: seq<Step<T>>)
    ensures log + (a + b) == (log + a) + b
  {
  }

  lemma PlusStep<T>(m: multiset<T>, xs: seq<T>)
    requires xs != []
    ensures (m + multiset(xs[..|xs| - 1])) + multiset{xs[|xs| - 1]} == m + multiset(xs)
  {
    assert xs == xs[..|xs| - 1] + [xs[|xs| - 1]];
  }

  lemma MinusStep<T>(m: multiset<T>, xs: seq<T>)
    requires xs != []
    ensures (m - multiset(xs[..|xs| - 1])) - multiset{xs[|xs| - 1]} == m - multiset(xs)
  {
    var init, last := xs[..|xs| - 1], xs[|xs| - 1];
    assert xs == init + [last];
    assert multiset(xs) == multiset(init) + multiset{last};
    forall y
      ensures ((m - multiset(init)) - multiset{last})[y] == (m - multiset(xs))[y]
    {
    }
  }

  /** After an Add notification each new item carries one more attachment; after a
      Remove, one fewer; after a Replace or a Reset, the old items lose one first and
      then the new items gain one; after a Move, nothing changes. */
  lemma {:induction false} ReactionCounts<T>(log: seq<Step<T>>, e: ChangeArgs<T>)
    ensures var after := Attached(log + Reaction(e) + [RaiseBase(e)]);
            var olds := multiset(OrNone(e.oldItems));
            var news := multiset(OrNone(e.newItems));
            && (e.action == Add ==> after == Attached(log) + news)
            && (e.action == Remove ==> after == Attached(log) - olds)
            && (e.action in {Replace, Reset} ==> after == (Attached(log) - olds) + news)
            && (e.action == Move ==> after == Attached(log))
  {
    var steps := Reaction(e);
    AttachedSnoc(log + steps, RaiseBase(e));
    var news, olds := OrNone(e.newItems), OrNone(e.oldItems);
    match e.action
    case Add => AttachAllCount(log, news);
    case Remove => DetachAllCount(log, olds);
    case Replace | Reset =>
      DetachAllCount(log, olds);
      AttachAllCount(log + DetachAll(olds), news);
      Regroup(log, DetachAll(olds), AttachAll(news));
    case Move =>
      assert log + steps == log;
  }

  /** The order of a Replace matters: an item that is both removed and added, and was
      not attached, ends up attached once, since the detach finds nothing to remove. */
  lemma ReplaceOrderMatters<T>(log: seq<Step<T>>, x: T)
    requires Attached(log)[x] == 0
    ensures Attached(log + Reaction(ChangeArgs(Replace, Some([x]), Some([x]), -1)) + [RaiseBase(ChangeArgs(Replace, Some([x]), Some([x]), -1))])[x] == 1
  {
    var e := ChangeArgs(Replace, Some([x]), Some([x]), -1);
    ReactionCounts(log, e);
    assert OrNone(e.oldItems) == [x] && OrNone(e.newItems) == [x];
    assert multiset([x]) == multiset{x};
    var m := Attached(log);
    assert (m - multiset{x})[x] == 0;
  }

  /** Attaching first and detaching after would leave that item detached. */
  lemma AttachThenDetachCancels<T>(log: seq<Step<T>>, x: T)
    requires Attached(log)[x] == 0
    ensures Attached(log + [Attach(x), Detach(x)])[x] == 0
  {
    AttachedSnoc(log, Attach(x));
    AttachedSnoc(log + [Attach(x)], Detach(x));
    assert log + [Attach(x), Detach(x)] == log + [Attach(x)] + [Detach(x)];
  }

  /** The notifications of the bulk operations, relayed: `AddRange` attaches to each
      added element, `RemoveRange` detaches from each removed one, `ReplaceAll` detaches
      from the previous contents and attaches to the new. */
  lemma BulkOperationsAttach<T>(log: seq<Step<T>>, before: seq<T>, xs: seq<T>)
    ensures Attached(log + Reaction(ChangeArgs(Add, Some(xs), None, |before|)) + [RaiseBase(ChangeArgs(Add, Some(xs), None, |before|))])
         == Attached(log) + multiset(xs)
    ensures Attached(log + Reaction(ChangeArgs(Remove, None, Some(xs), 0)) + [RaiseBase(ChangeArgs(Remove, None, Some(xs), 0))])
         == Attached(log) - multiset(xs)
    ensures Attached(log + Reaction(ChangeArgs(Replace, Some(xs), Some(before), -1)) + [RaiseBase(ChangeArgs(Replace, Some(xs), Some(before), -1))])
         == (Attached(log) - multiset(before)) + multiset(xs)
  {
    ReactionCounts(log, ChangeArgs(Add, Some(xs), None, |before|));
    ReactionCounts(log, ChangeArgs(Remove, None, Some(xs), 0));
    ReactionCounts(log, ChangeArgs(Replace, Some(xs), Some(before), -1));
  }

  /** With two listeners, an item change with no name reaches both, in order, with the
      item as sender and "" as the name; with none it reaches nobody. */
  method RelayToListeners<T>(item: T, a: Listener, b: Listener) returns (silent: seq<ListenerCall<T>>, relayed: seq<ListenerCall<T>>)
    ensures silent == []
    ensures relayed == [ListenerCall(a, item, ""), ListenerCall(b, item, "")]
  {
    var c := new NotifiableBulkObservableCollection<T>();
    silent := c.ItemPropertyChanged(item, None);
    c.AddPropertyChanged(a);
    c.AddPropertyChanged(b);
    relayed := c.ItemPropertyChanged(item, None);
  }
}
