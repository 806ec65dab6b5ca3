/** The change-notifying base object (`NotifiableObject`). It owns a registry that is
    created lazily, on first use, with the object itself as the source; it forwards
    handler registration, subscriptions and notifications to that registry; and it is
    disposed at most once, through a guard flag, the registry being disposed only on the
    explicit path. */
module Notifiable {
  import opened Wrappers
  import opened Runtime
  import opened Seqs
  import opened PropertyChanged

  /** The compiler-generated lambdas `n => callback()` of the untyped subscribe and
      unsubscribe wrappers: two distinct instance methods on their closures. */
  const SubscribeLambda: MethodInfo := MethodInfo(0, false)
  const UnsubscribeLambda: MethodInfo := MethodInfo(1, false)
  /** The delegate type of both lambdas. */
  const ActionOfNotifiable: TypeKey := TypeKey(0)

  /** The debug-only check's message for an unknown property; a null name formats as
      nothing. */
  function UnknownProperty(propertyName: Option<string>): Error
  {
    ArgumentException("Unknown property name (" + (if propertyName.Some? then propertyName.value else "") + ")")
  }

  class NotifiableObject {
    /** This object's identity, and its lifetime, as seen by the registry. */
    const self: Referent
    /** The lazily created registry; null until first needed. */
    var manager: PropertyChangedManager?
    var isDisposed: bool
    /** How many times the `OnDispose` hook has run. */
    var onDisposeCalls: nat

    ghost predicate Valid()
      reads this, Repr()
    {
      manager != null ==> manager.Valid() && manager.source == WeakRef(self)
    }

    /** The registry, once it exists. */
    function Repr(): set<object>
      reads this
    {
      if manager == null then {} else {manager}
    }

    /** The registry's entries; none while the registry does not exist. */
    function Subscriptions(): seq<Subscription>
      reads this, Repr()
    {
      if manager == null then [] else manager.subscriptions
    }

    /** The registry is never replaced, except by a fresh one where none existed. */
    twostate predicate ManagerKept()
      reads this
    {
      (old(manager) != null ==> manager == old(manager))
      && (old(manager) == null && manager != null ==> fresh(manager))
    }

    /** Only disposal disposes the registry: a registry created here starts undisposed. */
    twostate predicate DisposalUntouched()
      reads this, Repr()
    {
      manager != null ==> manager.isDisposed == (old(manager) != null && old(manager.isDisposed))
    }

    constructor (self: Referent)
      ensures Valid() && this.self == self
      ensures manager == null && !isDisposed && onDisposeCalls == 0
    {
      this.self := self;
      manager := null;
      isDisposed := false;
      onDisposeCalls := 0;
    }

    /** The `PropertyChangedManager` property: creates the registry on first access,
        with this object as its source, and afterwards always returns that one. */
    method Manager() returns (m: PropertyChangedManager)
      requires Valid()
      modifies this
      ensures Valid() && manager == m
      ensures old(manager) != null ==> m == old(manager)
      ensures old(manager) == null ==> fresh(m) && m.subscriptions == [] && !m.isDisposed
      ensures m.source == WeakRef(self)
      ensures isDisposed == old(isDisposed) && onDisposeCalls == old(onDisposeCalls)
      ensures Subscriptions() == old(Subscriptions())
    {
      if manager == null {
        manager := new PropertyChangedManager(self);
      }
      m := manager;
    }

    /** The deserialization hook: a new lazy holder, so the next access creates a new
        registry. */
    method OnDeserializing()
      modifies this
      ensures manager == null && Valid()
      ensures isDisposed == old(isDisposed) && onDisposeCalls == old(onDisposeCalls)
    {
      manager := null;
    }

    /** `PropertyChanged += handler`: a null handler is ignored (the registry is not
        even created); otherwise one wildcard entry is appended after the purge. */
    method AddPropertyChanged(handler: Option<Delegate>)
      requires Valid()
      modifies this, Repr()
      ensures Valid() && ManagerKept() && DisposalUntouched()
      ensures isDisposed == old(isDisposed) && onDisposeCalls == old(onDisposeCalls)
      ensures handler.None? ==> manager == old(manager) && Subscriptions() == old(Subscriptions())
      ensures handler.Some? ==>
                var subs := Subscriptions();
                |subs| == |Purged(old(Subscriptions()))| + 1
                && subs[..|subs| - 1] == Purged(old(Subscriptions()))
                && subs[|subs| - 1] !in old(Subscriptions())
                && subs[|subs| - 1].propertyName == None
                && subs[|subs| - 1].subscriberReference == WeakRef(handler.value.target)
                && subs[|subs| - 1].methodCallback == handler.value.methodInfo
    {
      if handler.Some? {
        var m := Manager();
        var token := m.AddHandler(handler.value);
        assert Subscriptions()[..|Subscriptions()| - 1] == Purged(old(Subscriptions()));
        assert forall q <- Receivers(old(Subscriptions())) :: unchanged(q);
      }
    }

    /** `PropertyChanged -= handler`: a null handler is ignored; otherwise the purge
        and then the removal of every entry with the handler's target and method. */
    method RemovePropertyChanged(handler: Option<Delegate>)
      requires Valid()
      modifies this, Repr()
      ensures Valid() && ManagerKept() && DisposalUntouched()
      ensures isDisposed == old(isDisposed) && onDisposeCalls == old(onDisposeCalls)
      ensures handler.None? ==> manager == old(manager) && Subscriptions() == old(Subscriptions())
      ensures handler.Some? ==>
                manager != null
                && Subscriptions() == Filter(Purged(old(Subscriptions())), Not(SameHandler(handler.value)))
    {
      if handler.Some? {
        var m := Manager();
        m.RemoveHandler(handler.value);
        assert forall q <- Receivers(old(Subscriptions())) :: unchanged(q);
      }
    }

    /** `OnPropertyChanged`: in a debug build an unknown name is rejected before
        anything happens; otherwise the registry (created if need be) notifies. */
    method OnPropertyChanged(propertyName: Option<string>, debugBuild: bool, isProperty: Option<string> -> bool)
      returns (calls: seq<Invocation>, outcome: Outcome)
      requires Valid()
      modifies this, Repr()
      ensures Valid() && ManagerKept() && DisposalUntouched()
      ensures isDisposed == old(isDisposed) && onDisposeCalls == old(onDisposeCalls)
      ensures debugBuild && !isProperty(propertyName) ==>
                outcome == Fail(UnknownProperty(propertyName)) && calls == []
                && manager == old(manager) && Subscriptions() == old(Subscriptions())
      ensures !debugBuild || isProperty(propertyName) ==>
                outcome == Pass && manager != null
                && Subscriptions() == Purged(old(Subscriptions()))
                && calls == if self.alive then Dispatch(Subscriptions(), propertyName, self) else []
    {
      if debugBuild && !isProperty(propertyName) {
        calls := [];
        outcome := Fail(UnknownProperty(propertyName));
        return;
      }
      var m := Manager();
      calls := m.NotifyPropertyChanged(propertyName);
      outcome := Pass;
      assert forall q <- Receivers(old(Subscriptions())) :: unchanged(q);
    }

    /** The typed subscription, forwarded. */
    method SubscribeToPropertyChanged(propertyName: Option<string>, callback: Delegate) returns (token: SubscriptionReference)
      requires Valid()
      modifies this, Repr()
      ensures Valid() && ManagerKept() && DisposalUntouched()
      ensures isDisposed == old(isDisposed) && onDisposeCalls == old(onDisposeCalls)
      ensures manager != null && token.manager == manager && fresh(token.entry)
      ensures Subscriptions() == Purged(old(Subscriptions())) + [token.entry]
      ensures token.entry.propertyName == propertyName
      ensures token.entry.subscriberReference == WeakRef(callback.target)
      ensures token.entry.methodCallback == callback.methodInfo
    {
      var m := Manager();
      token := m.SubscribeToPropertyChanged(propertyName, callback);
      assert forall q <- Receivers(old(Subscriptions())) :: unchanged(q);
    }

    /** The untyped subscription: the callback is wrapped in a fresh closure, and the
        registry holds that closure, weakly, as the receiver. */
    method SubscribeToPropertyChangedUntyped(propertyName: Option<string>, callback: Delegate)
      returns (token: SubscriptionReference, closure: Referent)
      requires Valid()
      modifies this, Repr()
      ensures Valid() && ManagerKept() && DisposalUntouched()
      ensures isDisposed == old(isDisposed) && onDisposeCalls == old(onDisposeCalls)
      ensures fresh(closure) && manager != null && token.manager == manager && fresh(token.entry)
      ensures Subscriptions() == Purged(old(Subscriptions())) + [token.entry]
      ensures token.entry.propertyName == propertyName
      ensures token.entry.subscriberReference == WeakRef(closure)
      ensures token.entry.methodCallback == SubscribeLambda
    {
      closure := new Referent();
      token := SubscribeToPropertyChanged(propertyName, Delegate(closure, SubscribeLambda, ActionOfNotifiable));
    }

    /** The typed unsubscription, forwarded: no purge, name and method matched. */
    method UnsubscribeToPropertyChanged(propertyName: Option<string>, callback: Delegate)
      requires Valid()
      modifies this, Repr()
      ensures Valid() && ManagerKept() && DisposalUntouched()
      ensures isDisposed == old(isDisposed) && onDisposeCalls == old(onDisposeCalls)
      ensures manager != null
      ensures Subscriptions() == Filter(old(Subscriptions()), Not(SameNameAndMethod(propertyName, callback.methodInfo)))
    {
      var m := Manager();
      m.UnsubscribeToPropertyChanged(propertyName, callback);
    }

    /** The untyped unsubscription: it wraps the callback in a lambda of its own, so it
        matches only entries made with that lambda, never those of the untyped
        subscription (see `UntypedUnsubscribeKeepsUntypedEntries`). */
    method UnsubscribeToPropertyChangedUntyped(propertyName: Option<string>, callback: Delegate)
      requires Valid()
      modifies this, Repr()
      ensures Valid() && ManagerKept() && DisposalUntouched()
      ensures isDisposed == old(isDisposed) && onDisposeCalls == old(onDisposeCalls)
      ensures manager != null
      ensures Subscriptions() == Filter(old(Subscriptions()), Not(SameNameAndMethod(propertyName, UnsubscribeLambda)))
    {
      var closure := new Referent();
      UnsubscribeToPropertyChanged(propertyName, Delegate(closure, UnsubscribeLambda, ActionOfNotifiable));
    }

    /** `IDisposable.Dispose`. */
    method Dispose()
      requires Valid()
      modifies this, Repr()
      ensures Valid() && ManagerKept() && isDisposed
      ensures old(isDisposed) ==> manager == old(manager) && Subscriptions() == old(Subscriptions())
                                  && onDisposeCalls == old(onDisposeCalls)
      ensures !old(isDisposed) ==> manager != null && manager.isDisposed
                                   && onDisposeCalls == old(onDisposeCalls) + 1
                                   && Subscriptions() == if old(manager) != null && old(manager.isDisposed)
                                                         then old(Subscriptions()) else []
    {
      DisposeCore(true);
    }

    /** The finalizer path: the flag is set, the registry and the hook are left alone. */
    method Finalize()
      requires Valid()
      modifies this, Repr()
      ensures Valid() && ManagerKept() && isDisposed
      ensures manager == old(manager) && Subscriptions() == old(Subscriptions())
      ensures onDisposeCalls == old(onDisposeCalls)
    {
      DisposeCore(false);
    }

    /** `Dispose(bool)`: acts once; only the explicit path disposes the registry (creating
        it first if it did not exist) and runs the hook. */
    method DisposeCore(disposing: bool)
      requires Valid()
      modifies this, Repr()
      ensures Valid() && ManagerKept() && isDisposed
      ensures old(isDisposed) || !disposing ==>
                manager == old(manager) && Subscriptions() == old(Subscriptions())
                && onDisposeCalls == old(onDisposeCalls)
                && (manager != null ==> manager.isDisposed == old(manager.isDisposed))
      ensures !old(isDisposed) && disposing ==>
                manager != null && manager.isDisposed
                && onDisposeCalls == old(onDisposeCalls) + 1
                && Subscriptions() == if old(manager) != null && old(manager.isDisposed)
                                      then old(Subscriptions()) else []
    {
      if !isDisposed {
        isDisposed := true;
        if disposing {
          var m := Manager();
          m.Dispose();
          onDisposeCalls := onDisposeCalls + 1;
        }
      }
    }
  }

  // ---------------------------------------------------------------------------
  // Properties

  /** The untyped unsubscription never removes an entry made by the untyped
      subscription, whatever the name and the callback: the two lambdas differ. */
  lemma UntypedUnsubscribeKeepsUntypedEntries(subs: seq<Subscription>, propertyName: Option<string>)
    ensures forall s <- subs :: s.methodCallback == SubscribeLambda
              ==> s in Filter(subs, Not(SameNameAndMethod(propertyName, UnsubscribeLambda)))
  {
  }

  /** The registry is created once: a notification, a handler and a subscription in a
      row all go to the same registry, whose source is the object. */
  method LazyManagerCreatedOnce(self: Referent, propertyName: Option<string>, handler: Delegate, callback: Delegate)
    returns (first: PropertyChangedManager, second: PropertyChangedManager, third: PropertyChangedManager)
    ensures first == second == third && first.source == WeakRef(self)
  {
    var o := new NotifiableObject(self);
    var calls, outcome := o.OnPropertyChanged(propertyName, false, (p: Option<string>) => true);
    first := o.manager;
    o.AddPropertyChanged(Some(handler));
    second := o.manager;
    var token := o.SubscribeToPropertyChanged(propertyName, callback);
    third := o.manager;
  }

  /** A null handler is ignored: the registry is not even created. */
  method NullHandlerIgnored(self: Referent) returns (created: bool)
    ensures !created
  {
    var o := new NotifiableObject(self);
    o.AddPropertyChanged(None);
    o.RemovePropertyChanged(None);
    created := o.manager != null;
  }

  /** Explicit disposal clears the registry and runs the hook once; disposing again, or
      finalizing afterwards, does nothing more. */
  method DisposeOnce(self: Referent, propertyName: Option<string>, callback: Delegate) returns (hookRuns: nat, entries: nat)
    ensures hookRuns == 1 && entries == 0
  {
    var o := new NotifiableObject(self);
    var token := o.SubscribeToPropertyChanged(propertyName, callback);
    o.Dispose();
    o.Dispose();
    o.Finalize();
    hookRuns := o.onDisposeCalls;
    entries := |o.Subscriptions()|;
  }

  /** Finalizing first leaves the registry and its entries as they were and skips the
      hook, and a later explicit disposal can no longer reach them. */
  method FinalizeThenDispose(self: Referent, propertyName: Option<string>, callback: Delegate) returns (hookRuns: nat, entries: nat)
    ensures hookRuns == 0 && entries == 1
  {
    var o := new NotifiableObject(self);
    var token := o.SubscribeToPropertyChanged(propertyName, callback);
    assert o.Subscriptions() == [token.entry];
    o.Finalize();
    o.Dispose();
    hookRuns := o.onDisposeCalls;
    entries := |o.Subscriptions()|;
  }

  /** The untyped unsubscription of the same name and callback leaves the untyped
      subscription in place. */
  method UntypedPairDoesNotCancel(self: Referent, propertyName: Option<string>, callback: Delegate) returns (entries: nat)
    ensures entries == 1
  {
    var o := new NotifiableObject(self);
    var token, closure := o.SubscribeToPropertyChangedUntyped(propertyName, callback);
    assert o.Subscriptions() == [token.entry];
    o.UnsubscribeToPropertyChangedUntyped(propertyName, callback);
    assert Filter([token.entry], Not(SameNameAndMethod(propertyName, UnsubscribeLambda))) == [token.entry];
    entries := |o.Subscriptions()|;
  }
}
