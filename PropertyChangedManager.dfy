/** The weak-reference change-notification registry (`PropertyChangedManager`).
    One ordered list of subscriptions serves one source object. Receivers are held
    weakly: an entry whose receiver has been reclaimed is purged, lazily, before the
    next subscribe, handler removal or notification. Reflective invocation is replaced
    by a dispatch trace: notifying returns the `(subscription, arguments)` pairs that
    would have been invoked, in order. */
module PropertyChanged {
  import opened Wrappers
  import opened Runtime
  import opened Seqs

  /** One entry of the registry. The fields never change after construction, and the
      registry compares entries by object identity. */
  class Subscription {
    const isStatic: bool
    /** None marks a wildcard entry (a `PropertyChanged` handler). */
    const propertyName: Option<string>
    const subscriberReference: WeakRef
    const methodCallback: MethodInfo

    constructor (isStatic: bool, propertyName: Option<string>, subscriberReference: WeakRef, methodCallback: MethodInfo)
      ensures this.isStatic == isStatic && this.propertyName == propertyName
      ensures this.subscriberReference == subscriberReference && this.methodCallback == methodCallback
    {
      this.isStatic := isStatic;
      this.propertyName := propertyName;
      this.subscriberReference := subscriberReference;
      this.methodCallback := methodCallback;
    }
  }

  /** An entry is static exactly when its callback had no target. */
  predicate WellFormed(s: Subscription)
  {
    s.isStatic <==> s.subscriberReference.target == null
  }

  /** The arguments a callback receives: the source alone in the first loop, the
      source and the changed property's name (possibly null) in the wildcard loop. */
  datatype Args = SourceOnly(source: Referent) | SourceAndName(source: Referent, propertyName: Option<string>)

  /** One dispatch: the entry whose method is invoked, on the entry's weak target. */
  datatype Invocation = Invocation(subscription: Subscription, args: Args)

  /** The receivers of the entries: the only heap state the purge looks at. */
  function Receivers(subs: seq<Subscription>): set<Referent>
  {
    set s | s in subs && s.subscriberReference.target != null :: s.subscriberReference.target
  }

  /** The purge condition: not static, and the weakly held receiver is gone. */
  predicate IsDead(s: Subscription)
    reads s.subscriberReference.Footprint()
  {
    !s.isStatic && !s.subscriberReference.IsAlive()
  }

  /** The list after the purge: the dead entries dropped, the others in their order. */
  function Purged(subs: seq<Subscription>): (r: seq<Subscription>)
    reads Receivers(subs)
    ensures |r| <= |subs|
    ensures forall s <- r :: s in subs && !IsDead(s)
    ensures forall s <- subs :: !IsDead(s) ==> s in r
    decreases subs
  {
    if subs == [] then []
    else
      assert Receivers(subs[1..]) <= Receivers(subs);
      (if IsDead(subs[0]) then [] else [subs[0]]) + Purged(subs[1..])
  }

  /** The first loop's match: the entry's name equals the notified one, so a null name
      matches the wildcard entries. */
  function NamedExactly(propertyName: Option<string>): Subscription -> bool
  {
    (s: Subscription) => s.propertyName == propertyName
  }

  const Wildcard: Subscription -> bool := (s: Subscription) => s.propertyName == None

  function TypedCall(source: Referent): Subscription -> Invocation
  {
    (s: Subscription) => Invocation(s, SourceOnly(source))
  }

  function UntypedCall(source: Referent, propertyName: Option<string>): Subscription -> Invocation
  {
    (s: Subscription) => Invocation(s, SourceAndName(source, propertyName))
  }

  /** What a notification of `propertyName` dispatches over `subs`: every entry named
      exactly so, in list order, with the source; then every wildcard entry, in list
      order, with the source and the name. A null name reaches the wildcard entries in
      both loops. */
  function Dispatch(subs: seq<Subscription>, propertyName: Option<string>, source: Referent): seq<Invocation>
  {
    Map(Filter(subs, NamedExactly(propertyName)), TypedCall(source))
    + Map(Filter(subs, Wildcard), UntypedCall(source, propertyName))
  }

  function SameNameAndMethod(propertyName: Option<string>, m: MethodInfo): Subscription -> bool
  {
    (s: Subscription) => s.propertyName == propertyName && s.methodCallback == m
  }

  /** The `RemoveHandler` match. The source compares the entry's weak target; after the
      purge that is the stored target (see `PurgedTargetsResolve`). */
  function SameHandler(handler: Delegate): Subscription -> bool
  {
    (s: Subscription) => s.subscriberReference.target == handler.target && s.methodCallback == handler.methodInfo
  }

  class PropertyChangedManager {
    var subscriptions: seq<Subscription>
    const source: WeakRef
    var isDisposed: bool

    ghost predicate Valid()
      reads this
    {
      Distinct(subscriptions) && forall s <- subscriptions :: WellFormed(s)
    }

    constructor (source: Referent?)
      ensures Valid() && subscriptions == [] && !isDisposed
      ensures this.source == WeakRef(source)
    {
      subscriptions := [];
      this.source := WeakRef(source);
      isDisposed := false;
    }

    /** Typed subscription to one property: purge, then append one entry at the end. A
        null name makes a wildcard entry. */
    method SubscribeToPropertyChanged(propertyName: Option<string>, callback: Delegate) returns (token: SubscriptionReference)
      requires Valid()
      modifies this
      ensures Valid() && isDisposed == old(isDisposed)
      ensures fresh(token) && fresh(token.entry) && token.manager == this
      ensures subscriptions == Purged(old(subscriptions)) + [token.entry]
      ensures token.entry.propertyName == propertyName
      ensures token.entry.subscriberReference == WeakRef(callback.target)
      ensures token.entry.methodCallback == callback.methodInfo
      ensures token.entry.isStatic <==> callback.target == null
    {
      var entry := new Subscription(callback.target == null, propertyName, WeakRef(callback.target), callback.methodInfo);
      token := AddSubscription(entry);
      assert forall q <- Receivers(old(subscriptions)) :: unchanged(q);
    }

    /** Removes every entry with this name and method, whatever its receiver; no purge.
        A null name removes the wildcard entries with that method. */
    method UnsubscribeToPropertyChanged(propertyName: Option<string>, callback: Delegate)
      requires Valid()
      modifies this
      ensures Valid() && isDisposed == old(isDisposed)
      ensures subscriptions == Filter(old(subscriptions), Not(SameNameAndMethod(propertyName, callback.methodInfo)))
    {
      // the collection extension: snapshot the matches, then remove each one
      var matching := SameNameAndMethod(propertyName, callback.methodInfo);
      var matches := Filter(subscriptions, matching);
      RemoveEachFilter(subscriptions, matching);
      FilterDistinct(subscriptions, Not(matching));
      subscriptions := RemoveEach(subscriptions, matches);
    }

    /** Untyped handler: purge, then append one wildcard entry at the end. */
    method AddHandler(handler: Delegate) returns (token: SubscriptionReference)
      requires Valid()
      modifies this
      ensures Valid() && isDisposed == old(isDisposed)
      ensures fresh(token) && fresh(token.entry) && token.manager == this
      ensures subscriptions == Purged(old(subscriptions)) + [token.entry]
      ensures token.entry.propertyName == None
      ensures token.entry.subscriberReference == WeakRef(handler.target)
      ensures token.entry.methodCallback == handler.methodInfo
      ensures token.entry.isStatic <==> handler.target == null
    {
      var entry := new Subscription(handler.target == null, None, WeakRef(handler.target), handler.methodInfo);
      token := AddSubscription(entry);
      assert forall q <- Receivers(old(subscriptions)) :: unchanged(q);
    }

    /** Purge, then remove every entry with the handler's target and method. */
    method RemoveHandler(handler: Delegate)
      requires Valid()
      modifies this
      ensures Valid() && isDisposed == old(isDisposed)
      ensures subscriptions == Filter(Purged(old(subscriptions)), Not(SameHandler(handler)))
    {
      CleanupSubscribers();
      PurgedTargetsResolve(subscriptions);
      FilterDistinct(subscriptions, Not(SameHandler(handler)));
      subscriptions := Filter(subscriptions, Not(SameHandler(handler)));
      assert forall q <- Receivers(old(subscriptions)) :: unchanged(q);
    }

    /** Purge, then dispatch to the exact-name entries followed by the wildcard entries.
        Nothing is dispatched while the source is reclaimed. */
    method NotifyPropertyChanged(propertyName: Option<string>) returns (calls: seq<Invocation>)
      requires Valid()
      modifies this
      ensures Valid()
      ensures isDisposed == old(isDisposed)
      ensures subscriptions == Purged(old(subscriptions))
      ensures calls == if source.IsAlive() then Dispatch(subscriptions, propertyName, source.target) else []
    {
      CleanupSubscribers();
      var named := DispatchNamed(subscriptions, propertyName, source);
      var wildcards := DispatchWildcards(subscriptions, propertyName, source);
      calls := named + wildcards;
      assert forall q <- Receivers(old(subscriptions)) :: unchanged(q);
    }

    method AddSubscription(entry: Subscription) returns (token: SubscriptionReference)
      requires Valid() && WellFormed(entry) && entry !in subscriptions
      modifies this
      ensures Valid() && isDisposed == old(isDisposed)
      ensures fresh(token) && token.manager == this && token.entry == entry
      ensures subscriptions == Purged(old(subscriptions)) + [entry]
    {
      CleanupSubscribers();
      subscriptions := subscriptions + [entry];
      token := new SubscriptionReference(this, entry);
      assert forall q <- Receivers(old(subscriptions)) :: unchanged(q);
    }

    /** Drops exactly the non-static entries whose receiver has been reclaimed. */
    method CleanupSubscribers()
      requires Valid()
      modifies this
      ensures Valid() && isDisposed == old(isDisposed)
      ensures subscriptions == Purged(old(subscriptions))
    {
      PurgedDistinct(subscriptions);
      subscriptions := Purged(subscriptions);
      assert forall q <- Receivers(old(subscriptions)) :: unchanged(q);
    }

    /** `IDisposable.Dispose`. */
    method Dispose()
      requires Valid()
      modifies this
      ensures Valid() && isDisposed
      ensures subscriptions == if old(isDisposed) then old(subscriptions) else []
    {
      DisposeCore(true);
    }

    /** The finalizer path: marks the manager disposed without touching the list. */
    method Finalize()
      requires Valid()
      modifies this
      ensures Valid() && isDisposed && subscriptions == old(subscriptions)
    {
      DisposeCore(false);
    }

    /** `Dispose(bool)`: acts once; only the explicit path clears the list. */
    method DisposeCore(disposing: bool)
      requires Valid()
      modifies this
      ensures Valid() && isDisposed
      ensures subscriptions == if !old(isDisposed) && disposing then [] else old(subscriptions)
    {
      if !isDisposed {
        isDisposed := true;
        if disposing {
          subscriptions := [];
        }
      }
    }
  }

  /** The disposal token returned by a subscription. It removes its own entry, by
      identity, from the owning list. */
  class SubscriptionReference {
    const manager: PropertyChangedManager
    const entry: Subscription

    constructor (manager: PropertyChangedManager, entry: Subscription)
      ensures this.manager == manager && this.entry == entry
    {
      this.manager := manager;
      this.entry := entry;
    }

    method Dispose()
      requires manager.Valid()
      modifies manager
      ensures manager.Valid() && manager.isDisposed == old(manager.isDisposed)
      ensures manager.subscriptions == RemoveFirst(old(manager.subscriptions), entry)
    {
      RemoveFirstDistinct(manager.subscriptions, entry);
      manager.subscriptions := RemoveFirst(manager.subscriptions, entry);
    }
  }

  /** The first dispatch loop of a notification: every entry named `propertyName`, in
      list order, called with the source, provided the source is still alive. */
  method DispatchNamed(subs: seq<Subscription>, propertyName: Option<string>, source: WeakRef) returns (calls: seq<Invocation>)
    ensures calls == if source.IsAlive() then Map(Filter(subs, NamedExactly(propertyName)), TypedCall(source.target)) else []
  {
    calls := [];
    var i := 0;
    while i < |subs|
      invariant 0 <= i <= |subs|
      invariant calls == if source.IsAlive()
                         then Map(Filter(subs[..i], NamedExactly(propertyName)), TypedCall(source.target))
                         else []
    {
      var s := subs[i];
      if s.propertyName == propertyName && source.IsAlive() {
        calls := calls + [Invocation(s, SourceOnly(source.target))];
      }
      assert subs[..i + 1] == subs[..i] + [s];
      if source.IsAlive() {
        MapFilterSnoc(subs[..i], s, NamedExactly(propertyName), TypedCall(source.target));
      }
      i := i + 1;
    }
    assert subs[..i] == subs;
  }

  /** The second dispatch loop: every wildcard entry, in list order, called with the
      source and the name, provided the source is still alive. */
  method DispatchWildcards(subs: seq<Subscription>, propertyName: Option<string>, source: WeakRef) returns (calls: seq<Invocation>)
    ensures calls == if source.IsAlive() then Map(Filter(subs, Wildcard), UntypedCall(source.target, propertyName)) else []
  {
    calls := [];
    var j := 0;
    while j < |subs|
      invariant 0 <= j <= |subs|
      invariant calls == if source.IsAlive()
                         then Map(Filter(subs[..j], Wildcard), UntypedCall(source.target, propertyName))
                         else []
    {
      var s := subs[j];
      if s.propertyName == None && source.IsAlive() {
        calls := calls + [Invocation(s, SourceAndName(source.target, propertyName))];
      }
      assert subs[..j + 1] == subs[..j] + [s];
      if source.IsAlive() {
        MapFilterSnoc(subs[..j], s, Wildcard, UntypedCall(source.target, propertyName));
      }
      j := j + 1;
    }
    assert subs[..j] == subs;
  }

  // ---------------------------------------------------------------------------
  // Properties of the purge

  /** The purge works entry by entry: it distributes over concatenation, which with
      the single-entry case says that the survivors keep their relative order. */
  lemma {:induction false} PurgedAppend(a: seq<Subscription>, b: seq<Subscription>)
    ensures Purged(a + b) == Purged(a) + Purged(b)
    decreases a
  {
    if a == [] {
      assert a + b == b;
    } else {
      assert (a + b)[1..] == a[1..] + b;
      PurgedAppend(a[1..], b);
    }
  }

  lemma PurgedSingle(s: Subscription)
    ensures Purged([s]) == if IsDead(s) then [] else [s]
  {
    assert [s][1..] == [];
  }

  /** A second purge with no reclamation in between removes nothing. */
  lemma {:induction false} PurgedIdempotent(subs: seq<Subscription>)
    ensures Purged(Purged(subs)) == Purged(subs)
    decreases subs
  {
    if subs != [] {
      PurgedIdempotent(subs[1..]);
      var head := if IsDead(subs[0]) then [] else [subs[0]];
      PurgedAppend(head, Purged(subs[1..]));
      if !IsDead(subs[0]) {
        PurgedSingle(subs[0]);
      }
    }
  }

  lemma {:induction false} PurgedDistinct(subs: seq<Subscription>)
    requires Distinct(subs)
    ensures Distinct(Purged(subs))
    decreases subs
  {
    if subs != [] {
      assert Distinct(subs[1..]);
      PurgedDistinct(subs[1..]);
      assert subs[0] !in subs[1..];
    }
  }

  /** After the purge every entry's weak target is its stored target: the live
      receiver for an instance entry, null for a static one. */
  lemma PurgedTargetsResolve(subs: seq<Subscription>)
    requires forall s <- subs :: WellFormed(s)
    ensures forall s <- Purged(subs) :: s.subscriberReference.Target() == s.subscriberReference.target
  {
  }

  // ---------------------------------------------------------------------------
  // Properties of dispatch

  function Subscribers(calls: seq<Invocation>): seq<Subscription>
  {
    Map(calls, (c: Invocation) => c.subscription)
  }

  /** The entries a notification reaches: the exact-name entries in list order, then
      the wildcard entries in list order, and nothing else. */
  lemma DispatchOrder(subs: seq<Subscription>, propertyName: Option<string>, source: Referent)
    ensures Subscribers(Dispatch(subs, propertyName, source))
         == Filter(subs, NamedExactly(propertyName)) + Filter(subs, Wildcard)
  {
    var exact := Filter(subs, NamedExactly(propertyName));
    var wild := Filter(subs, Wildcard);
    var calls := Dispatch(subs, propertyName, source);
    assert |calls| == |exact| + |wild|;
    forall i | 0 <= i < |calls|
      ensures Subscribers(calls)[i] == (exact + wild)[i]
    {
    }
  }

  /** Every dispatch is either a first-loop call with the source, to an entry under the
      notified name, or a wildcard call with the source and the notified name. For a
      non-null name each entry gets only the call of its kind; a null name gives the
      wildcard entries both. */
  lemma DispatchArgs(subs: seq<Subscription>, propertyName: Option<string>, source: Referent, c: Invocation)
    requires c in Dispatch(subs, propertyName, source)
    ensures c.subscription in subs
    ensures c.args == SourceOnly(source) || c.args == SourceAndName(source, propertyName)
    ensures c.args.SourceOnly? ==> c.subscription.propertyName == propertyName
    ensures c.args.SourceAndName? ==> c.subscription.propertyName == None
    ensures propertyName.Some? && c.subscription.propertyName == propertyName ==> c.args == SourceOnly(source)
    ensures propertyName.Some? && c.subscription.propertyName == None ==> c.args == SourceAndName(source, propertyName)
  {
  }

  /** An entry registered under another concrete name is never reached. */
  lemma OtherNamesNotReached(subs: seq<Subscription>, propertyName: Option<string>, source: Referent, s: Subscription, other: string)
    requires Some(other) != propertyName && s.propertyName == Some(other)
    ensures s !in Subscribers(Dispatch(subs, propertyName, source))
  {
    DispatchOrder(subs, propertyName, source);
  }

  lemma {:induction false} DistinctOccursOnce<T>(s: seq<T>, x: T)
    requires Distinct(s)
    ensures multiset(s)[x] == if x in s then 1 else 0
    decreases s
  {
    if s != [] {
      assert s == [s[0]] + s[1..];
      assert Distinct(s[1..]);
      DistinctOccursOnce(s[1..], x);
    }
  }

  /** On a registry without duplicate entries, an entry is invoked once per loop that
      selects it: once when it is under the notified name or a wildcard, twice when it
      is a wildcard and the name is null, never otherwise. */
  lemma DispatchExactlyOnce(subs: seq<Subscription>, propertyName: Option<string>, source: Referent, s: Subscription)
    requires Distinct(subs) && s in subs
    ensures multiset(Subscribers(Dispatch(subs, propertyName, source)))[s]
         == (if s.propertyName == propertyName then 1 else 0) + (if s.propertyName == None then 1 else 0)
    ensures propertyName.Some? && (s.propertyName == propertyName || s.propertyName == None) ==>
              multiset(Subscribers(Dispatch(subs, propertyName, source)))[s] == 1
  {
    var exact := Filter(subs, NamedExactly(propertyName));
    var wild := Filter(subs, Wildcard);
    DispatchOrder(subs, propertyName, source);
    FilterDistinct(subs, NamedExactly(propertyName));
    FilterDistinct(subs, Wildcard);
    DistinctOccursOnce(exact, s);
    DistinctOccursOnce(wild, s);
    assert multiset(exact + wild) == multiset(exact) + multiset(wild);
  }

  // ---------------------------------------------------------------------------
  // Properties of token disposal

  /** Disposing a token removes its entry and only it, so an entry with the same name
      and method survives; a second disposal removes nothing more. */
  lemma TokenDisposeRemovesOne(subs: seq<Subscription>, entry: Subscription)
    requires Distinct(subs)
    ensures entry !in RemoveFirst(subs, entry)
    ensures forall s <- subs :: s != entry ==> s in RemoveFirst(subs, entry)
    ensures entry in subs ==> |RemoveFirst(subs, entry)| == |subs| - 1
    ensures RemoveFirst(RemoveFirst(subs, entry), entry) == RemoveFirst(subs, entry)
  {
    RemoveFirstDistinct(subs, entry);
    RemoveFirstAbsent(RemoveFirst(subs, entry), entry);
    if entry in subs {
      RemoveFirstMultiset(subs, entry);
      assert |multiset(RemoveFirst(subs, entry))| == |multiset(subs)| - 1;
    }
  }

  // ---------------------------------------------------------------------------
  // End-to-end behaviour on a fresh registry

  /** Subscribing and then notifying the same name invokes the callback exactly once,
      with the source. */
  method SubscribeThenNotify(src: Referent, propertyName: string, callback: Delegate) returns (calls: seq<Invocation>)
    requires src.alive
    requires callback.target != null ==> callback.target.alive
    ensures |calls| == 1
    ensures calls[0].subscription.methodCallback == callback.methodInfo
    ensures calls[0].args == SourceOnly(src)
  {
    var m := new PropertyChangedManager(src);
    var token := m.SubscribeToPropertyChanged(Some(propertyName), callback);
    assert m.subscriptions == [token.entry];
    calls := m.NotifyPropertyChanged(Some(propertyName));
    assert Filter([token.entry], NamedExactly(Some(propertyName))) == [token.entry];
    assert Filter([token.entry], Wildcard) == [];
  }

  /** After its token is disposed, the callback is not invoked, even twice disposed. */
  method DisposedTokenSilences(src: Referent, propertyName: Option<string>, callback: Delegate) returns (calls: seq<Invocation>, count: nat)
    ensures calls == [] && count == 0
  {
    var m := new PropertyChangedManager(src);
    var token := m.SubscribeToPropertyChanged(propertyName, callback);
    assert m.subscriptions == [token.entry];
    token.Dispose();
    token.Dispose();
    calls := m.NotifyPropertyChanged(propertyName);
    count := |m.subscriptions|;
  }

  /** A receiver reclaimed after subscribing is not invoked, and its entry is purged. */
  method ReclaimedReceiverPurged(src: Referent, propertyName: Option<string>, m: MethodInfo, t: TypeKey) returns (calls: seq<Invocation>, before: nat, after: nat)
    ensures calls == [] && before == 1 && after == 0
  {
    var receiver := new Referent();
    var manager := new PropertyChangedManager(src);
    var token := manager.SubscribeToPropertyChanged(propertyName, Delegate(receiver, m, t));
    before := |manager.subscriptions|;
    receiver.Collect();
    calls := manager.NotifyPropertyChanged(propertyName);
    after := |manager.subscriptions|;
  }

  /** With one entry for "Age" and one wildcard handler, notifying "Name" reaches only
      the wildcard handler, with the name. */
  method OnlyWildcardForOtherName(src: Referent, typed: Delegate, handler: Delegate) returns (calls: seq<Invocation>)
    requires src.alive
    requires typed.target == null && handler.target == null
    ensures |calls| == 1 && calls[0].subscription.propertyName == None
    ensures calls[0].args == SourceAndName(src, Some("Name"))
  {
    var m := new PropertyChangedManager(src);
    var t1 := m.SubscribeToPropertyChanged(Some("Age"), typed);
    var t2 := m.AddHandler(handler);
    assert m.subscriptions == [t1.entry, t2.entry];
    PurgedStaticPair(t1.entry, t2.entry);
    calls := m.NotifyPropertyChanged(Some("Name"));
    DispatchOnlyWildcard(t1.entry, t2.entry, src);
  }

  lemma PurgedStaticPair(a: Subscription, b: Subscription)
    requires a.isStatic && b.isStatic
    ensures Purged([a, b]) == [a, b]
  {
    PurgedAppend([a], [b]);
    PurgedSingle(a);
    PurgedSingle(b);
    assert [a] + [b] == [a, b];
  }

  lemma DispatchOnlyWildcard(a: Subscription, b: Subscription, src: Referent)
    requires a.propertyName == Some("Age") && b.propertyName == None
    ensures Dispatch([a, b], Some("Name"), src) == [Invocation(b, SourceAndName(src, Some("Name")))]
  {
    assert [a, b][1..] == [b] && [b][1..] == [];
    assert Filter([a, b], NamedExactly(Some("Name"))) == [];
    assert Filter([a, b], Wildcard) == [b];
  }

  /** A null name: a subscription under it is a wildcard entry, and notifying it calls
      every wildcard entry twice, first with the source alone, then with the source and
      the null name; the "Age" entry is not reached. */
  method NullNameReachesWildcardsTwice(src: Referent, typed: Delegate, untyped: Delegate)
    returns (wildcard: bool, calls: seq<Invocation>)
    requires src.alive
    requires typed.target == null && untyped.target == null
    ensures wildcard
    ensures |calls| == 2 && calls[0].subscription == calls[1].subscription
    ensures calls[0].args == SourceOnly(src) && calls[1].args == SourceAndName(src, None)
  {
    var m := new PropertyChangedManager(src);
    var t1 := m.SubscribeToPropertyChanged(Some("Age"), typed);
    var t2 := m.SubscribeToPropertyChanged(None, untyped);
    wildcard := t2.entry.propertyName == None;
    assert m.subscriptions == [t1.entry, t2.entry];
    PurgedStaticPair(t1.entry, t2.entry);
    calls := m.NotifyPropertyChanged(None);
    DispatchNullName(t1.entry, t2.entry, src);
  }

  lemma DispatchNullName(a: Subscription, b: Subscription, src: Referent)
    requires a.propertyName == Some("Age") && b.propertyName == None
    ensures Dispatch([a, b], None, src) == [Invocation(b, SourceOnly(src)), Invocation(b, SourceAndName(src, None))]
  {
    assert [a, b][1..] == [b] && [b][1..] == [];
    assert Filter([a, b], NamedExactly(None)) == [b];
    assert Filter([a, b], Wildcard) == [b];
  }
}
