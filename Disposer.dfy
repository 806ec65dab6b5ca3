/** The disposal helper (`Disposer`): two FIFO lists, removal actions and weakly held
    disposables, drained once by `Dispose`. Each action, and each slot, is handled while
    it is still at the head of its list and removed only after, so one that throws stays
    where it is, with everything behind it. */
module Disposers {
  import opened Wrappers
  import opened Runtime

  /** A registered removal action, as data. `Null` is a null delegate (invoking it throws
      a `NullReferenceException`). A `Run` action, when invoked, registers the actions in
      `registers` and the disposables in `disposables` on the same disposer (the two go to
      separate lists, so their interleaving does not matter), then calls `Dispose` on it
      again if `disposesAgain`, then throws if `throws`. */
  datatype Action =
    | Null
    | Run(id: nat, registers: seq<Action>, disposables: seq<Referent?>, disposesAgain: bool, throws: bool)

  /** What disposing did, in order: an action was invoked, or a live disposable had its
      own `Dispose` called. */
  datatype Event = Invoked(action: Action) | DisposedItem(item: Referent)

  /** The result of draining the action list: what ran, what is left, the weak slots the
      running actions registered, and how it ended. */
  datatype Drained = Drained(trace: seq<Event>, left: seq<Action>, added: seq<WeakRef>, outcome: Outcome)

  /** The result of draining the slots: what was disposed, which slots are left, how it
      ended. */
  datatype SlotsDrained = SlotsDrained(trace: seq<Event>, left: seq<WeakRef>, outcome: Outcome)

  /** The weak slots `Register(IDisposable)` makes for these disposables, in order. */
  function Slots(disposables: seq<Referent?>): (r: seq<WeakRef>)
    ensures |r| == |disposables|
  {
    if disposables == [] then []
    else Slots(disposables[..|disposables| - 1]) + [WeakRef(disposables[|disposables| - 1])]
  }

  /** The number of invocations an action causes, counting those it registers. */
  function Weight(a: Action): nat
    decreases a
  {
    match a
    case Null => 1
    case Run(_, registers, _, _, _) => 1 + TotalWeight(registers)
  }

  function TotalWeight(s: seq<Action>): nat
    decreases s
  {
    if s == [] then 0 else Weight(s[0]) + TotalWeight(s[1..])
  }

  lemma {:induction false} TotalWeightAppend(a: seq<Action>, b: seq<Action>)
    ensures TotalWeight(a + b) == TotalWeight(a) + TotalWeight(b)
    decreases a
  {
    if a == [] {
      assert a + b == b;
    } else {
      assert (a + b)[1..] == a[1..] + b;
      TotalWeightAppend(a[1..], b);
    }
  }

  /** Invoking the head action and taking it off leaves one invocation less to do. */
  lemma HeadStep(actions: seq<Action>)
    requires actions != [] && actions[0].Run?
    ensures TotalWeight(actions[1..] + actions[0].registers) == TotalWeight(actions) - 1
  {
    TotalWeightAppend(actions[1..], actions[0].registers);
  }

  /** The action loop: invoke the head; on a throw stop with the head (and whatever it
      registered) left in place, otherwise remove it and go on with the list as it now
      is, including what the head registered. A nested `Dispose` does nothing, because
      the disposed flag is already set. */
  function DrainActions(actions: seq<Action>): (r: Drained)
    ensures forall e <- r.trace :: e.Invoked?
    ensures r.outcome.Pass? <==> r.left == []
    decreases TotalWeight(actions)
  {
    if actions == [] then Drained([], [], [], Pass)
    else
      match actions[0]
      case Null => Drained([], actions, [], Fail(NullDereference))
      case Run(id, registers, disposables, _, throws) =>
        if throws then Drained([Invoked(actions[0])], actions + registers, Slots(disposables), Fail(Raised(id)))
        else
          HeadStep(actions);
          var rest := DrainActions(actions[1..] + registers);
          Drained([Invoked(actions[0])] + rest.trace, rest.left, Slots(disposables) + rest.added, rest.outcome)
  }

  /** The objects the weak slots refer to: the only heap state the item loop reads. */
  function Targets(items: seq<WeakRef>): set<Referent>
  {
    set w | w in items && w.target != null :: w.target
  }

  /** The item loop when no disposable throws: every slot whose disposable is still
      alive has it disposed, in order; dead slots are skipped. */
  function DisposedAll(items: seq<WeakRef>): (r: seq<Event>)
    reads Targets(items)
    ensures |r| <= |items|
    ensures forall e <- r :: e.DisposedItem? && e.item.alive && WeakRef(e.item) in items
    ensures forall w <- items :: w.IsAlive() ==> DisposedItem(w.target) in r
    decreases items
  {
    if items == [] then []
    else
      assert Targets(items[1..]) <= Targets(items);
      (if items[0].IsAlive() then [DisposedItem(items[0].target)] else []) + DisposedAll(items[1..])
  }

  /** What handling one slot disposes: its disposable if it is still alive. */
  function SlotPre(w: WeakRef): seq<Event>
    reads w.Footprint()
  {
    if w.IsAlive() then [DisposedItem(w.target)] else []
  }

  /** The item loop, given the disposables whose own `Dispose` throws, each with the id of
      what it throws. Each slot is handled at the head of the list and removed only
      after: a live disposable is disposed, a dead slot skipped. A throwing `Dispose`
      stops the loop with that slot and every later one still registered. */
  function DrainSlots(items: seq<WeakRef>, failing: map<Referent, nat>): (r: SlotsDrained)
    reads Targets(items)
    ensures r.outcome.Pass? <==> r.left == []
    decreases items
  {
    if items == [] then SlotsDrained([], [], Pass)
    else
      assert Targets(items[1..]) <= Targets(items);
      var w := items[0];
      if w.IsAlive() && w.target in failing then SlotsDrained([DisposedItem(w.target)], items, Fail(Raised(failing[w.target])))
      else
        var rest := DrainSlots(items[1..], failing);
        SlotsDrained(SlotPre(w) + rest.trace, rest.left, rest.outcome)
  }

  /** One step of the slot loop, by the head slot. */
  lemma SlotHead(items: seq<WeakRef>, failing: map<Referent, nat>)
    requires items != []
    ensures Targets(items[1..]) <= Targets(items)
    ensures items[0].IsAlive() && items[0].target in failing ==>
              DrainSlots(items, failing)
              == SlotsDrained([DisposedItem(items[0].target)], items, Fail(Raised(failing[items[0].target])))
    ensures !(items[0].IsAlive() && items[0].target in failing) ==>
              DrainSlots(items, failing)
              == var rest := DrainSlots(items[1..], failing);
                 SlotsDrained(SlotPre(items[0]) + rest.trace, rest.left, rest.outcome)
  {
    assert Targets(items[1..]) <= Targets(items);
  }

  predicate Completes(a: Action)
    decreases a
  {
    match a
    case Null => false
    case Run(_, registers, _, _, throws) => !throws && AllComplete(registers)
  }

  /** No action, nor any action it registers, is null or throws. */
  predicate AllComplete(s: seq<Action>)
    decreases s
  {
    s == [] || (Completes(s[0]) && AllComplete(s[1..]))
  }

  lemma {:induction false} AllCompleteAppend(a: seq<Action>, b: seq<Action>)
    requires AllComplete(a) && AllComplete(b)
    ensures AllComplete(a + b)
    decreases a
  {
    if a == [] {
      assert a + b == b;
    } else {
      assert (a + b)[1..] == a[1..] + b;
      AllCompleteAppend(a[1..], b);
    }
  }

  class Disposer {
    var isDisposed: bool
    var items: seq<WeakRef>
    var actions: seq<Action>

    constructor ()
      ensures !isDisposed && items == [] && actions == []
    {
      isDisposed := false;
      items := [];
      actions := [];
    }

    /** `Register(IDisposable)`: a weak slot at the end; returns this disposer. */
    method RegisterDisposable(disposable: Referent?) returns (r: Disposer)
      modifies this
      ensures r == this
      ensures items == old(items) + [WeakRef(disposable)]
      ensures actions == old(actions) && isDisposed == old(isDisposed)
    {
      items := items + [WeakRef(disposable)];
      r := this;
    }

    /** `Register(Action)`: the action at the end; returns this disposer. */
    method RegisterAction(removeAction: Action) returns (r: Disposer)
      modifies this
      ensures r == this
      ensures actions == old(actions) + [removeAction]
      ensures items == old(items) && isDisposed == old(isDisposed)
    {
      actions := actions + [removeAction];
      r := this;
    }

    /** Acts once. The flag is set first; then the actions are drained, then the slots,
        including those the actions registered. A throwing action stops everything, with
        the slots untouched; a throwing disposable stops the slot loop, with its slot and
        the later ones still registered. `failing` says which disposables throw. */
    method Dispose(failing: map<Referent, nat>) returns (trace: seq<Event>, outcome: Outcome)
      modifies this
      decreases if isDisposed then 0 else 3
      ensures isDisposed
      ensures old(isDisposed) ==> trace == [] && outcome == Pass
                                  && actions == old(actions) && items == old(items)
      ensures !old(isDisposed) ==>
                var drained := DrainActions(old(actions));
                if drained.outcome.Fail?
                then trace == drained.trace && outcome == drained.outcome
                     && actions == drained.left && items == old(items) + drained.added
                else var slots := DrainSlots(old(items) + drained.added, failing);
                     trace == drained.trace + slots.trace && outcome == slots.outcome
                     && actions == [] && items == slots.left
    {
      trace := [];
      outcome := Pass;
      if isDisposed {
        return;
      }
      isDisposed := true;
      trace, outcome := DrainActionList(failing);
      if outcome.Pass? {
        ghost var pending := items;
        var slots, left;
        slots, left, outcome := DisposeSlots(items, failing);
        trace := trace + slots;
        assert forall q <- Targets(pending) :: q as object != this;
        items := left;
        assert DrainSlots(pending, failing) == SlotsDrained(slots, left, outcome);
      }
    }

    /** The first loop of `Dispose`, entered with the flag already set. */
    method DrainActionList(failing: map<Referent, nat>) returns (trace: seq<Event>, outcome: Outcome)
      requires isDisposed
      modifies this
      decreases 2
      ensures isDisposed
      ensures var d := DrainActions(old(actions));
              trace == d.trace && actions == d.left && outcome == d.outcome && items == old(items) + d.added
    {
      ghost var whole := DrainActions(actions);
      ghost var added: seq<WeakRef> := [];
      trace := [];
      outcome := Pass;
      assert whole == After([], [], DrainActions(actions));
      while |actions| > 0
        invariant isDisposed && items == old(items) + added
        invariant whole == After(trace, added, DrainActions(actions))
        decreases TotalWeight(actions)
      {
        var action := actions[0];
        ActionLoopStep(whole, trace, added, actions);
        if action.Null? {
          outcome := Fail(NullDereference);
          return;
        }
        trace := trace + [Invoked(action)];
        ghost var itemsBefore := items;
        Invoke(action, failing);
        assert items == old(items) + (added + Slots(action.disposables)) by {
          assert itemsBefore == old(items) + added;
        }
        added := added + Slots(action.disposables);
        if action.throws {
          outcome := Fail(Raised(action.id));
          return;
        }
        actions := actions[1..];
      }
    }

    /** A running action, up to its throw: its registrations, then its nested `Dispose`,
        which does nothing because the flag is set. */
    method Invoke(action: Action, failing: map<Referent, nat>)
      requires isDisposed && action.Run?
      modifies this
      decreases 1
      ensures isDisposed
      ensures actions == old(actions) + action.registers
      ensures items == old(items) + Slots(action.disposables)
    {
      RunRegistrations(action.registers, action.disposables);
      if action.disposesAgain {
        var nestedTrace, nestedOutcome := Dispose(failing);
      }
    }

    /** The `Register` calls a running action makes: its actions, then its disposables. */
    method RunRegistrations(registers: seq<Action>, disposables: seq<Referent?>)
      modifies this
      ensures actions == old(actions) + registers
      ensures items == old(items) + Slots(disposables)
      ensures isDisposed == old(isDisposed)
    {
      var k := 0;
      while k < |registers|
        invariant 0 <= k <= |registers|
        invariant items == old(items) && isDisposed == old(isDisposed)
        invariant actions == old(actions) + registers[..k]
      {
        var _ := RegisterAction(registers[k]);
        assert registers[..k + 1] == registers[..k] + [registers[k]];
        k := k + 1;
      }
      assert registers[..k] == registers;
      var j := 0;
      while j < |disposables|
        invariant 0 <= j <= |disposables|
        invariant actions == old(actions) + registers && isDisposed == old(isDisposed)
        invariant items == old(items) + Slots(disposables[..j])
      {
        var _ := RegisterDisposable(disposables[j]);
        assert disposables[..j + 1][..j] == disposables[..j];
        j := j + 1;
      }
      assert disposables[..j] == disposables;
    }
  }

  /** The second loop of `Dispose`, over the slot list: the head slot's disposable is
      disposed if it is still alive, and the slot is taken off only after that returns;
      what is left comes back to be stored. Clearing the slot's target before removing
      it is not modelled, since the slot goes at once. No object is reclaimed meanwhile. */
  method DisposeSlots(slots: seq<WeakRef>, failing: map<Referent, nat>)
    returns (trace: seq<Event>, left: seq<WeakRef>, outcome: Outcome)
    ensures DrainSlots(slots, failing) == SlotsDrained(trace, left, outcome)
  {
    trace := [];
    outcome := Pass;
    left := slots;
    assert DrainSlots(slots, failing) == SlotsAfter([], DrainSlots(left, failing));
    while |left| > 0
      invariant DrainSlots(slots, failing) == SlotsAfter(trace, DrainSlots(left, failing))
      decreases |left|
    {
      var wr := left[0];
      if wr.IsAlive() && wr.target in failing {
        // the disposable's own Dispose throws: the slot stays
        SlotHead(left, failing);
        assert DrainSlots(left, failing) == SlotsDrained([DisposedItem(wr.target)], left, Fail(Raised(failing[wr.target])));
        trace := trace + [DisposedItem(wr.target)];
        outcome := Fail(Raised(failing[wr.target]));
        return;
      }
      SlotLoopStep(DrainSlots(slots, failing), trace, left, failing);
      trace := trace + SlotPre(wr);
      left := left[1..];
    }
  }

  /** One turn of the action loop, by the head action, in terms of what is already done:
      a null head ends the drain where it is; a throwing head ends it after its
      invocation and registrations; otherwise those move to what is done and the drain
      goes on with the rest followed by what the head registered. */
  lemma ActionLoopStep(whole: Drained, done: seq<Event>, doneAdded: seq<WeakRef>, before: seq<Action>)
    requires before != [] && whole == After(done, doneAdded, DrainActions(before))
    ensures before[0].Null? ==> whole == Drained(done, before, doneAdded, Fail(NullDereference))
    ensures before[0].Run? && before[0].throws ==>
              whole == Drained(done + [Invoked(before[0])], before + before[0].registers,
                               doneAdded + Slots(before[0].disposables), Fail(Raised(before[0].id)))
    ensures before[0].Run? && !before[0].throws ==>
              && (before + before[0].registers)[1..] == before[1..] + before[0].registers
              && TotalWeight(before[1..] + before[0].registers) < TotalWeight(before)
              && whole == After(done + [Invoked(before[0])], doneAdded + Slots(before[0].disposables),
                                DrainActions(before[1..] + before[0].registers))
  {
    DrainHead(before);
    if before[0].Null? {
      assert done + [] == done && doneAdded + [] == doneAdded;
    } else if !before[0].throws {
      AfterAppend(done, doneAdded, Invoked(before[0]), Slots(before[0].disposables),
                  DrainActions(before[1..] + before[0].registers));
    }
  }

  /** Handling a head slot whose disposable does not throw moves its events from the
      rest of the drain to what is done. */
  lemma SlotLoopStep(whole: SlotsDrained, done: seq<Event>, items: seq<WeakRef>, failing: map<Referent, nat>)
    requires items != [] && !(items[0].IsAlive() && items[0].target in failing)
    requires whole == SlotsAfter(done, DrainSlots(items, failing))
    ensures whole == SlotsAfter(done + SlotPre(items[0]), DrainSlots(items[1..], failing))
  {
    SlotHead(items, failing);
    var rest := DrainSlots(items[1..], failing);
    assert done + (SlotPre(items[0]) + rest.trace) == done + SlotPre(items[0]) + rest.trace;
  }

  /** A drain that follows the events `done` and the slots `addedBefore`. */
  function After(done: seq<Event>, addedBefore: seq<WeakRef>, d: Drained): Drained
  {
    Drained(done + d.trace, d.left, addedBefore + d.added, d.outcome)
  }

  lemma AfterAppend(done: seq<Event>, addedBefore: seq<WeakRef>, e: Event, s: seq<WeakRef>, d: Drained)
    ensures After(done, addedBefore, Drained([e] + d.trace, d.left, s + d.added, d.outcome))
         == After(done + [e], addedBefore + s, d)
  {
    assert done + ([e] + d.trace) == done + [e] + d.trace;
    assert addedBefore + (s + d.added) == addedBefore + s + d.added;
  }

  /** A slot drain that follows the events `done`. */
  function SlotsAfter(done: seq<Event>, d: SlotsDrained): SlotsDrained
  {
    SlotsDrained(done + d.trace, d.left, d.outcome)
  }

  /** One step of the drain, by the head of the list: a null head stops with the list
      as it is; a throwing head stops after its invocation, with what it registered
      behind it; otherwise the head's invocation comes first and the drain goes on with
      the rest followed by what it registered, which weighs less. */
  lemma DrainHead(before: seq<Action>)
    requires before != []
    ensures before[0].Null? ==> DrainActions(before) == Drained([], before, [], Fail(NullDereference))
    ensures before[0].Run? && before[0].throws ==>
              DrainActions(before)
              == Drained([Invoked(before[0])], before + before[0].registers, Slots(before[0].disposables), Fail(Raised(before[0].id)))
    ensures before[0].Run? && !before[0].throws ==>
              && (before + before[0].registers)[1..] == before[1..] + before[0].registers
              && TotalWeight(before[1..] + before[0].registers) < TotalWeight(before)
              && DrainActions(before)
                 == var d := DrainActions(before[1..] + before[0].registers);
                    Drained([Invoked(before[0])] + d.trace, d.left, Slots(before[0].disposables) + d.added, d.outcome)
  {
    if before[0].Run? {
      HeadStep(before);
    }
  }

  // ---------------------------------------------------------------------------
  // Properties of draining

  /** When nothing throws, the drain ends with an empty list, having invoked each action
      once, including every action registered while draining. */
  lemma {:induction false} DrainCompletes(actions: seq<Action>)
    requires AllComplete(actions)
    ensures DrainActions(actions).outcome == Pass && DrainActions(actions).left == []
    ensures |DrainActions(actions).trace| == TotalWeight(actions)
    decreases TotalWeight(actions)
  {
    if actions != [] {
      var a := actions[0];
      assert Completes(a) && AllComplete(actions[1..]);
      HeadStep(actions);
      AllCompleteAppend(actions[1..], a.registers);
      DrainCompletes(actions[1..] + a.registers);
    }
  }

  /** First in, first out: when nothing throws, the actions present when draining starts
      are invoked first, in registration order, before any action they register. */
  lemma {:induction false} DrainFifo(actions: seq<Action>)
    requires AllComplete(actions)
    ensures |DrainActions(actions).trace| >= |actions|
    ensures forall i | 0 <= i < |actions| :: DrainActions(actions).trace[i] == Invoked(actions[i])
    decreases TotalWeight(actions)
  {
    if actions != [] {
      var a := actions[0];
      var next := actions[1..] + a.registers;
      assert Completes(a) && AllComplete(actions[1..]);
      HeadStep(actions);
      AllCompleteAppend(actions[1..], a.registers);
      DrainFifo(next);
      var r := DrainActions(actions);
      assert r.trace == [Invoked(a)] + DrainActions(next).trace;
      forall i | 0 <= i < |actions|
        ensures r.trace[i] == Invoked(actions[i])
      {
        if i > 0 {
          assert next[i - 1] == actions[i];
        }
      }
    }
  }

  /** A drain that fails stops at the action that failed, which is left at the head: a
      null action raises the null dereference without being invoked; a throwing action
      was invoked last and its own exception comes out. */
  lemma {:induction false} DrainStopsAtFailure(actions: seq<Action>)
    requires DrainActions(actions).outcome.Fail?
    ensures var r := DrainActions(actions);
            r.left != [] && (r.left[0].Null? || r.left[0].throws)
            && (r.left[0].Null? ==> r.outcome == Fail(NullDereference))
            && (r.left[0].Run? ==> r.outcome == Fail(Raised(r.left[0].id))
                                   && r.trace != [] && r.trace[|r.trace| - 1] == Invoked(r.left[0]))
    decreases TotalWeight(actions)
  {
    var a := actions[0];
    if a.Run? && !a.throws {
      HeadStep(actions);
      var next := actions[1..] + a.registers;
      DrainStopsAtFailure(next);
      var rest := DrainActions(next);
      assert DrainActions(actions).trace == [Invoked(a)] + rest.trace;
    }
  }

  // ---------------------------------------------------------------------------
  // Properties of the slot loop

  /** When no live disposable throws, the slot loop disposes exactly what `DisposedAll`
      describes and leaves no slot behind. */
  lemma {:induction false} DrainSlotsCompletes(items: seq<WeakRef>, failing: map<Referent, nat>)
    requires forall w <- items :: w.IsAlive() ==> w.target !in failing
    ensures DrainSlots(items, failing) == SlotsDrained(DisposedAll(items), [], Pass)
    decreases items
  {
    if items != [] {
      assert forall w <- items[1..] :: w in items;
      DrainSlotsCompletes(items[1..], failing);
    }
  }

  /** The slots left are a suffix of the list: the loop only ever takes slots off the
      head. */
  lemma {:induction false} SlotsLeftSuffix(items: seq<WeakRef>, failing: map<Referent, nat>)
    ensures var r := DrainSlots(items, failing);
            |r.left| <= |items| && r.left == items[|items| - |r.left|..]
    decreases items
  {
    if items != [] {
      SlotHead(items, failing);
      if !(items[0].IsAlive() && items[0].target in failing) {
        SlotsLeftSuffix(items[1..], failing);
        var k := |DrainSlots(items[1..], failing).left|;
        assert items[1..][|items| - 1 - k..] == items[|items| - k..];
      }
    }
  }

  /** A slot loop that fails stops at the first live disposable that throws: that slot
      heads what is left, its `Dispose` was the last call made and its exception comes
      out; every slot before it was handled, its live disposable disposed. */
  lemma {:induction false} SlotsStopAtFailure(items: seq<WeakRef>, failing: map<Referent, nat>)
    requires DrainSlots(items, failing).outcome.Fail?
    ensures var r := DrainSlots(items, failing);
            && r.left != [] && r.left[0].IsAlive() && r.left[0].target in failing
            && r.outcome == Fail(Raised(failing[r.left[0].target]))
            && r.trace != [] && r.trace[|r.trace| - 1] == DisposedItem(r.left[0].target)
            && |r.left| <= |items| && r.left == items[|items| - |r.left|..]
            && (forall i | 0 <= i < |items| - |r.left| ::
                  items[i].IsAlive() ==> items[i].target !in failing && DisposedItem(items[i].target) in r.trace)
    decreases items
  {
    var w := items[0];
    SlotHead(items, failing);
    SlotsLeftSuffix(items, failing);
    if !(w.IsAlive() && w.target in failing) {
      SlotsStopAtFailure(items[1..], failing);
      var r := DrainSlots(items, failing);
      var rest := DrainSlots(items[1..], failing);
      assert r.trace == SlotPre(w) + rest.trace && r.left == rest.left;
      forall i | 0 <= i < |items| - |r.left|
        ensures items[i].IsAlive() ==> items[i].target !in failing && DisposedItem(items[i].target) in r.trace
      {
        if i > 0 {
          assert items[i] == items[1..][i - 1];
        }
      }
    }
  }

  // ---------------------------------------------------------------------------
  // End-to-end behaviour on a fresh disposer

  /** An action registered while disposing still runs, after the one that registered
      it, and a disposable registered while disposing is disposed with the others, after
      them; the dead disposable is skipped. A second `Dispose` does nothing. */
  method RegisteredWhileDraining(a: nat, b: nat)
    returns (first: seq<Event>, firstOutcome: Outcome, second: seq<Event>, live: Referent, late: Referent)
    ensures first == [Invoked(Run(a, [Run(b, [], [], false, false)], [late], true, false)),
                      Invoked(Run(b, [], [], false, false)), DisposedItem(live), DisposedItem(late)]
    ensures firstOutcome == Pass && second == []
  {
    var d := new Disposer();
    late := new Referent();
    var inner := Run(b, [], [], false, false);
    var outer := Run(a, [inner], [late], true, false);
    var _ := d.RegisterAction(outer);
    live := new Referent();
    var dead := new Referent();
    var _ := d.RegisterDisposable(live);
    var _ := d.RegisterDisposable(dead);
    dead.Collect();
    assert d.actions == [outer] && d.items == [WeakRef(live), WeakRef(dead)];
    var o2;
    DrainRegistering(a, b, late);
    first, firstOutcome := d.Dispose(map[]);
    DisposedLiveThenDead(live, dead, late);
    second, o2 := d.Dispose(map[]);
  }

  /** Draining an action that registers another runs both, in that order, and collects
      the slot the first one registered. */
  lemma DrainRegistering(a: nat, b: nat, late: Referent)
    ensures DrainActions([Run(a, [Run(b, [], [], false, false)], [late], true, false)])
         == Drained([Invoked(Run(a, [Run(b, [], [], false, false)], [late], true, false)), Invoked(Run(b, [], [], false, false))],
                    [], [WeakRef(late)], Pass)
  {
    var inner := Run(b, [], [], false, false);
    var outer := Run(a, [inner], [late], true, false);
    assert Slots([]) == [];
    assert Slots([late]) == [WeakRef(late)];
    assert DrainActions([inner]) == Drained([Invoked(inner)], [], [], Pass);
    assert [outer][1..] + outer.registers == [inner];
  }

  lemma DisposedLiveThenDead(live: Referent, dead: Referent, late: Referent)
    requires live.alive && !dead.alive && late.alive
    ensures DrainSlots([WeakRef(live), WeakRef(dead)] + [WeakRef(late)], map[])
         == SlotsDrained([DisposedItem(live), DisposedItem(late)], [], Pass)
  {
    var s := [WeakRef(live), WeakRef(dead)] + [WeakRef(late)];
    assert s[1..] == [WeakRef(dead), WeakRef(late)];
    assert s[1..][1..] == [WeakRef(late)];
    assert s[1..][1..][1..] == [];
    SlotHead(s[1..][1..], map[]);
    assert DrainSlots(s[1..][1..], map[]) == SlotsDrained([DisposedItem(late)], [], Pass);
    SlotHead(s[1..], map[]);
    assert DrainSlots(s[1..], map[]) == SlotsDrained([DisposedItem(late)], [], Pass);
    SlotHead(s, map[]);
  }

  /** A throwing action stays at the head of the list; because the flag is already set,
      disposing again never runs it nor the actions behind it. */
  method ThrowingActionBlocksTheRest(a: nat, b: nat) returns (first: Outcome, second: Outcome, left: seq<Action>)
    ensures first == Fail(Raised(a)) && second == Pass
    ensures left == [Run(a, [], [], false, true), Run(b, [], [], false, false)]
  {
    var d := new Disposer();
    var _ := d.RegisterAction(Run(a, [], [], false, true));
    var _ := d.RegisterAction(Run(b, [], [], false, false));
    var t1, t2;
    assert Slots([]) == [];
    t1, first := d.Dispose(map[]);
    t2, second := d.Dispose(map[]);
    left := d.actions;
  }

  /** A disposable whose own `Dispose` throws stops the slot loop: the one before it was
      disposed, its exception comes out, and its slot and the one after it stay
      registered for good, since disposing again does nothing. */
  method ThrowingDisposableKeepsTheRest(n: nat)
    returns (first: seq<Event>, firstOutcome: Outcome, second: Outcome, left: seq<WeakRef>,
             x: Referent, y: Referent, z: Referent)
    ensures first == [DisposedItem(x), DisposedItem(y)] && firstOutcome == Fail(Raised(n))
    ensures second == Pass && left == [WeakRef(y), WeakRef(z)]
  {
    var d := new Disposer();
    x := new Referent();
    y := new Referent();
    z := new Referent();
    var _ := d.RegisterDisposable(x);
    var _ := d.RegisterDisposable(y);
    var _ := d.RegisterDisposable(z);
    var s := [WeakRef(x), WeakRef(y), WeakRef(z)];
    assert d.items == s && d.actions == [];
    assert s[1..] == [WeakRef(y), WeakRef(z)];
    assert [] + s == s;
    var t2;
    first, firstOutcome := d.Dispose(map[y := n]);
    t2, second := d.Dispose(map[y := n]);
    left := d.items;
  }
}
