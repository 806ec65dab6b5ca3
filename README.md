# MyFramework.Net object-model core, in Dafny

This project models the change-notification and disposal core of the MyFramework.Net
common library, together with its companion helpers and the set-then-freeze provider
slots of its data and IoC layers. It proves properties of those models.

- **`PropertyChangedManager`** is a list of subscriptions. The subscribers and the
  source are held through weak references.
  - Subscribing, `RemoveHandler` and a notification first purge the entries whose
    receiver has been reclaimed. `UnsubscribeToPropertyChanged` and a token's `Dispose`
    do not purge.
  - A notification calls every entry subscribed under the exact property name, in list
    order, and then every wildcard (`PropertyChanged`) entry.
  - Each subscription hands back a token that removes that entry and only that entry.
- **`WeakDelegate`** keeps a method and a weak reference to the method's target. It
  rebuilds the delegate while the target lives.
- **`NotifiableObject`** is the base object. It creates its manager lazily, forwards to
  it, and disposes it once.
- **`Disposer`** holds two FIFO lists: removal actions, and disposables held weakly. It
  drains them once.
- **`BulkObservableCollection` and `NotifiableBulkObservableCollection`** are bulk
  operations that raise one notification each. The second one attaches its handler to
  every item a notification lists as new. It detaches the handler from every item a
  notification lists as old. A `Clear` raises a Reset with no old items, so the
  handler stays attached to the items it removes.
- **Collection, sequence and string helpers:** `ICollectionExtensions`,
  `IEnumerableExtensions` and `StringExtensions`.
- **`Assert`:** the argument validators.
- **`TillMaxRetryStrategy`:** count-bounded retrying.
- **`QueryRepositoryBase`:** counting and paging.
- **The in-memory repository builders.**
- **The provider slots of `UnitOfWorkFactory` and `IoCHelper`.**
- **The exception-text builders of `IoCExceptionHelper`.**

## How the runtime is modelled

- **Objects the garbage collector may reclaim** are instances of `Runtime.Referent`.
  Collection is the method `Collect`, which the environment calls. A weak reference is
  the value `WeakRef(target)`, which is alive while its target is.
- **Methods and delegates** are the value types `MethodInfo` and `Delegate`.
- **Invocation by reflection** becomes a returned trace of `Invocation`s.
- **Thrown exceptions** become `Result`/`Outcome` values that carry an `Error`. A null
  argument is `None` or `null`.
- **Static classes** (`IoCHelper`, `UnitOfWorkFactory`) become one object, whose fields
  are the static fields.

## Model

| member | source | states |
|---|---|---|
| PropertyChanged.Subscription.constructor | Common/AC.Common/ObjectModel/PropertyChangedManager.cs:146-152 | The four entry fields are set as given and never change afterwards |
| PropertyChanged.PropertyChangedManager.constructor | Common/AC.Common/ObjectModel/PropertyChangedManager.cs:21-24 | The registry starts empty and undisposed, and holds its source only weakly |
| PropertyChanged.PropertyChangedManager.SubscribeToPropertyChanged | Common/AC.Common/ObjectModel/PropertyChangedManager.cs:35-45 | The list becomes the purged old list plus exactly one new entry at the end. It carries the property name, which may be null and then makes a wildcard entry, a weak reference to the callback's target and its method; it is static exactly when the target is null, and the token refers to that entry |
| PropertyChanged.PropertyChangedManager.UnsubscribeToPropertyChanged | Common/AC.Common/ObjectModel/PropertyChangedManager.cs:47-51 | Every entry with that name and method is removed, whatever its receiver; a null name removes the wildcard entries with that method. There is no purge, and the other entries keep their order |
| PropertyChanged.PropertyChangedManager.AddHandler | Common/AC.Common/ObjectModel/PropertyChangedManager.cs:53-61 | Purges, then appends one wildcard entry (no property name) for the handler's target and method |
| PropertyChanged.PropertyChangedManager.RemoveHandler | Common/AC.Common/ObjectModel/PropertyChangedManager.cs:63-68 | Purges, then removes every entry whose target and method match the handler |
| PropertyChanged.PropertyChangedManager.NotifyPropertyChanged | Common/AC.Common/ObjectModel/PropertyChangedManager.cs:70-81 | The list is purged. While the source lives, the calls are the entries under the notified name, then the wildcard entries, each with its own arguments; a null name reaches the wildcard entries in both loops. After the source is reclaimed there are no calls |
| PropertyChanged.PropertyChangedManager.AddSubscription | Common/AC.Common/ObjectModel/PropertyChangedManager.cs:87-94 | Purges, appends the entry and returns a token for exactly that entry |
| PropertyChanged.PropertyChangedManager.CleanupSubscribers | Common/AC.Common/ObjectModel/PropertyChangedManager.cs:96-99 | The list becomes `Purged` of the old list |
| PropertyChanged.PropertyChangedManager.Dispose | Common/AC.Common/ObjectModel/PropertyChangedManager.cs:105-109 | The first disposal clears the list; a later one changes nothing |
| PropertyChanged.PropertyChangedManager.Finalize | Common/AC.Common/ObjectModel/PropertyChangedManager.cs:26-29 | The finalizer marks the registry disposed and leaves the list untouched |
| PropertyChanged.PropertyChangedManager.DisposeCore | Common/AC.Common/ObjectModel/PropertyChangedManager.cs:111-123 | Acts only once; only the explicit path (`disposing`) clears the list |
| PropertyChanged.SubscriptionReference.constructor | Common/AC.Common/ObjectModel/PropertyChangedManager.cs:134-138 | The token remembers its registry and its entry |
| PropertyChanged.SubscriptionReference.Dispose | Common/AC.Common/ObjectModel/PropertyChangedManager.cs:140-143 | Removes the first occurrence of its own entry and nothing else |
| PropertyChanged.DispatchNamed | Common/AC.Common/ObjectModel/PropertyChangedManager.cs:74-76 | While the source lives, the first loop calls the entries whose name equals `propertyName` (the wildcard entries for a null name), in list order, with the source as the only argument; otherwise it calls nothing |
| PropertyChanged.DispatchWildcards | Common/AC.Common/ObjectModel/PropertyChangedManager.cs:78-80 | While the source lives, the second loop calls the wildcard entries, in list order, with the source and the property name, null included |
| PropertyChanged.Purged | Common/AC.Common/ObjectModel/PropertyChangedManager.cs:98 | The purge keeps exactly the entries that are static or still alive, and never grows the list |
| PropertyChanged.PurgedAppend | Common/AC.Common/ObjectModel/PropertyChangedManager.cs:98 | The purge works entry by entry: it distributes over concatenation |
| PropertyChanged.PurgedSingle | Common/AC.Common/ObjectModel/PropertyChangedManager.cs:98 | A single entry is dropped exactly when it is dead |
| PropertyChanged.PurgedIdempotent | Common/AC.Common/ObjectModel/PropertyChangedManager.cs:98 | A second purge with no reclamation in between removes nothing |
| PropertyChanged.PurgedDistinct | Common/AC.Common/ObjectModel/PropertyChangedManager.cs:98 | The purge keeps a list free of duplicates |
| PropertyChanged.PurgedTargetsResolve | Common/AC.Common/ObjectModel/PropertyChangedManager.cs:67-98 | After the purge, every entry's weak reference resolves to its stored target, so `RemoveHandler`'s comparison through `Target` is a comparison of the stored targets |
| PropertyChanged.DispatchOrder | Common/AC.Common/ObjectModel/PropertyChangedManager.cs:70-81 | A notification reaches the exact-name entries in list order, then the wildcard entries in list order |
| PropertyChanged.DispatchArgs | Common/AC.Common/ObjectModel/PropertyChangedManager.cs:76-80 | Every call comes from a registered entry and is either a first-loop call with the source alone, to an entry under the notified name, or a wildcard call with the source and the name. For a non-null name an entry gets only the call of its kind |
| PropertyChanged.OtherNamesNotReached | Common/AC.Common/ObjectModel/PropertyChangedManager.cs:74 | An entry registered under another concrete name is never called |
| PropertyChanged.DistinctOccursOnce | Common/AC.Common/ObjectModel/PropertyChangedManager.cs:91 | In a list without duplicates an element occurs once or not at all |
| PropertyChanged.DispatchExactlyOnce | Common/AC.Common/ObjectModel/PropertyChangedManager.cs:70-81 | On a registry without duplicates, an entry is called once for each loop that selects it: once when it is under a non-null notified name or a wildcard, twice when it is a wildcard and the name is null, and never otherwise |
| PropertyChanged.TokenDisposeRemovesOne | Common/AC.Common/ObjectModel/PropertyChangedManager.cs:140-143 | Disposing a token removes its own entry, keeps every other entry, shortens the list by one, and is idempotent |
| PropertyChanged.SubscribeThenNotify | Common/AC.Common/ObjectModel/PropertyChangedManager.cs:35-81 | On a fresh registry, subscribing and then notifying the same name calls the callback once, with the source |
| PropertyChanged.DisposedTokenSilences | Common/AC.Common/ObjectModel/PropertyChangedManager.cs:140-143 | After its token is disposed (twice), no callback is called and the list is empty |
| PropertyChanged.ReclaimedReceiverPurged | Common/AC.Common/ObjectModel/PropertyChangedManager.cs:96-99 | A receiver reclaimed after subscribing is not called, and its entry is purged |
| PropertyChanged.OnlyWildcardForOtherName | Common/AC.Common/ObjectModel/PropertyChangedManager.cs:74-80 | With one "Age" entry and one wildcard handler, notifying "Name" calls only the handler, with the source and "Name" |
| PropertyChanged.NullNameReachesWildcardsTwice | Common/AC.Common/ObjectModel/PropertyChangedManager.cs:35-81 | A subscription under a null name is a wildcard entry; notifying a null name calls it twice, first with the source alone and then with the source and the null name, and does not reach the "Age" entry |
| PropertyChanged.DispatchNullName | Common/AC.Common/ObjectModel/PropertyChangedManager.cs:74-80 | The dispatch of the scenario above, as a value |
| PropertyChanged.PurgedStaticPair | Common/AC.Common/ObjectModel/PropertyChangedManager.cs:98 | Static entries are never purged |
| PropertyChanged.DispatchOnlyWildcard | Common/AC.Common/ObjectModel/PropertyChangedManager.cs:74-80 | The dispatch of the scenario above, as a value |
| WeakDelegates.WeakDelegate.Target | Common/AC.Common/ObjectModel/WeakDelegate.cs:52-61 | Null exactly when the weak target is no longer alive (or never existed); otherwise the live stored target |
| WeakDelegates.WeakDelegate.GetDelegate | Common/AC.Common/ObjectModel/WeakDelegate.cs:71-82 | A static method always gives an unbound delegate. An instance method gives a delegate exactly while its target lives, bound to that target, with the stored method and type |
| WeakDelegates.NewWithTarget | Common/AC.Common/ObjectModel/WeakDelegate.cs:25-33 | A null delegate is rejected with `ArgumentNullException("item")`; otherwise the method and type come from it and the target is the one given |
| WeakDelegates.New | Common/AC.Common/ObjectModel/WeakDelegate.cs:39-42 | The delegate's own target is used. A null delegate fails with a null dereference, because `item.Target` is read before the null check |
| WeakDelegates.RebuildWhileAlive | Common/AC.Common/ObjectModel/WeakDelegate.cs:39-82 | Round trip: an ordinary delegate that is wrapped and rebuilt while its target lives is the same delegate |
| WeakDelegates.ReclaimedTargetGivesNone | Common/AC.Common/ObjectModel/WeakDelegate.cs:56-81 | Once the target is reclaimed, `Target` is null and only a static method can still be rebuilt |
| WeakDelegates.RebuildThenReclaim | Common/AC.Common/ObjectModel/WeakDelegate.cs:71-82 | Rebuilding before reclamation gives the original delegate back; after it, nothing |
| Notifiable.NotifiableObject.constructor | Common/AC.Common/ObjectModel/NotifiableObject.cs:36-40 | No registry exists yet, nothing is disposed, and the hook has not run |
| Notifiable.NotifiableObject.Manager | Common/AC.Common/ObjectModel/NotifiableObject.cs:24-39 | The first access creates an empty registry on this object; every later access returns the same one. The entries and the disposal state are unchanged |
| Notifiable.NotifiableObject.OnDeserializing | Common/AC.Common/ObjectModel/NotifiableObject.cs:51-60 | A new lazy holder: the next access creates a new registry |
| Notifiable.NotifiableObject.AddPropertyChanged | Common/AC.Common/ObjectModel/NotifiableObject.cs:71 | A null handler is ignored without creating the registry; otherwise one wildcard entry is appended after the purge |
| Notifiable.NotifiableObject.RemovePropertyChanged | Common/AC.Common/ObjectModel/NotifiableObject.cs:72 | A null handler is ignored; otherwise it is the registry's purge-and-remove |
| Notifiable.NotifiableObject.OnPropertyChanged | Common/AC.Common/ObjectModel/NotifiableObject.cs:79-98 | In a debug build a name the property check rejects (a null name is checked too) fails before anything changes; otherwise the registry is notified of the name, null included |
| Notifiable.NotifiableObject.SubscribeToPropertyChanged | Common/AC.Common/ObjectModel/NotifiableObject.cs:110-114 | Forwards the typed subscription: one entry under the given name, a wildcard entry for a null name, for the callback's target and method |
| Notifiable.NotifiableObject.SubscribeToPropertyChangedUntyped | Common/AC.Common/ObjectModel/NotifiableObject.cs:122-125 | The untyped callback is wrapped in a fresh closure, and the entry refers to the closure, not to the caller's callback |
| Notifiable.NotifiableObject.UnsubscribeToPropertyChanged | Common/AC.Common/ObjectModel/NotifiableObject.cs:133-137 | Forwards the typed unsubscription: every entry with that name (null included) and method goes |
| Notifiable.NotifiableObject.UnsubscribeToPropertyChangedUntyped | Common/AC.Common/ObjectModel/NotifiableObject.cs:144-147 | Removes the entries carrying the unsubscribe lambda's own method, never the subscribe lambda's |
| Notifiable.NotifiableObject.Dispose | Common/AC.Common/ObjectModel/NotifiableObject.cs:156-160 | The first disposal disposes the registry (creating it if needed), clears it and runs the hook once; a later one changes nothing |
| Notifiable.NotifiableObject.Finalize | Common/AC.Common/ObjectModel/NotifiableObject.cs:42-45 | Sets the flag only: the registry, its entries and the hook are left alone |
| Notifiable.NotifiableObject.DisposeCore | Common/AC.Common/ObjectModel/NotifiableObject.cs:162-174 | Acts once; only the explicit path disposes the registry and runs the hook |
| Notifiable.UntypedUnsubscribeKeepsUntypedEntries | Common/AC.Common/ObjectModel/NotifiableObject.cs:124-146 | Over entries made by the untyped subscription, the untyped unsubscription removes nothing |
| Notifiable.LazyManagerCreatedOnce | Common/AC.Common/ObjectModel/NotifiableObject.cs:24-39 | A notification, a handler and a subscription in a row all use one registry, bound to this object |
| Notifiable.NullHandlerIgnored | Common/AC.Common/ObjectModel/NotifiableObject.cs:71 | Adding a null handler does not even create the registry |
| Notifiable.DisposeOnce | Common/AC.Common/ObjectModel/NotifiableObject.cs:156-174 | Disposing twice runs the hook once and leaves no entry |
| Notifiable.FinalizeThenDispose | Common/AC.Common/ObjectModel/NotifiableObject.cs:42-174 | After the finalizer path, `Dispose` does nothing: the entry stays and the hook never runs |
| Notifiable.UntypedPairDoesNotCancel | Common/AC.Common/ObjectModel/NotifiableObject.cs:122-147 | Untyped subscribe then untyped unsubscribe, with the same name and callback, leaves the entry in place |
| Disposers.Disposer.constructor | Common/AC.Common/ObjectModel/Disposer/Disposer.cs:11-15 | Both lists start empty, not disposed |
| Disposers.Disposer.RegisterDisposable | Common/AC.Common/ObjectModel/Disposer/Disposer.cs:17-21 | One weak slot at the end of the item list; the fluent result is the disposer |
| Disposers.Disposer.RegisterAction | Common/AC.Common/ObjectModel/Disposer/Disposer.cs:23-27 | The action at the end of the action list; the fluent result is the disposer |
| Disposers.Disposer.Dispose | Common/AC.Common/ObjectModel/Disposer/Disposer.cs:31-56 | Acts once: a second call changes nothing and returns no events. The actions are drained as `DrainActions` says, and the disposables they register join the slot list. On a throw from an action the drain stops there: the throwing action stays at the head and the slots are untouched. Otherwise the slots are drained as `DrainSlots` says, and the action list ends empty while the slot list keeps exactly what that drain leaves |
| Disposers.Disposer.DrainActionList | Common/AC.Common/ObjectModel/Disposer/Disposer.cs:37-42 | The action loop does exactly what `DrainActions` specifies, including the actions and disposables registered while it runs and nested `Dispose` calls |
| Disposers.Disposer.Invoke | Common/AC.Common/ObjectModel/Disposer/Disposer.cs:39-40 | A running action appends its registered actions and disposables, in order; a nested `Dispose` it makes changes nothing because the flag is set |
| Disposers.Disposer.RunRegistrations | Common/AC.Common/ObjectModel/Disposer/Disposer.cs:17-27 | A running action's `Register` calls append its actions and then one weak slot per disposable, in order, and leave the flag alone |
| Disposers.DrainActions | Common/AC.Common/ObjectModel/Disposer/Disposer.cs:37-42 | The drain records invocations only, and it completes exactly when it leaves no action |
| Disposers.Slots | Common/AC.Common/ObjectModel/Disposer/Disposer.cs:17-21 | One weak slot per registered disposable |
| Disposers.DisposedAll | Common/AC.Common/ObjectModel/Disposer/Disposer.cs:44-54 | The item loop when no disposable throws: every disposed item is a live registered one, and every live slot is disposed |
| Disposers.DrainSlots | Common/AC.Common/ObjectModel/Disposer/Disposer.cs:44-54 | The item loop where some disposables throw: it passes exactly when it leaves no slot |
| Disposers.SlotHead | Common/AC.Common/ObjectModel/Disposer/Disposer.cs:46-53 | One step of the item loop: a live throwing disposable stops it with that slot and all later ones kept; otherwise the slot's events come first and the loop goes on with the rest |
| Disposers.DisposeSlots | Common/AC.Common/ObjectModel/Disposer/Disposer.cs:44-54 | The item loop computes exactly what `DrainSlots` specifies: its events, the slots it leaves and its outcome |
| Disposers.ActionLoopStep | Common/AC.Common/ObjectModel/Disposer/Disposer.cs:37-42 | One turn of the action loop, by its head: a null head stops at once; a throwing head stops after its invocation and registrations; otherwise the drain goes on with the rest followed by what the head registered |
| Disposers.SlotLoopStep | Common/AC.Common/ObjectModel/Disposer/Disposer.cs:44-54 | One turn of the item loop over a slot that does not throw moves its events to what is done |
| Disposers.DrainSlotsCompletes | Common/AC.Common/ObjectModel/Disposer/Disposer.cs:44-54 | When no live disposable throws, the item loop disposes exactly the live ones, in order, and leaves no slot |
| Disposers.SlotsLeftSuffix | Common/AC.Common/ObjectModel/Disposer/Disposer.cs:44-54 | The slots left are a suffix of the list: the loop only takes slots off the head |
| Disposers.SlotsStopAtFailure | Common/AC.Common/ObjectModel/Disposer/Disposer.cs:44-54 | A failing item loop stops at the first live disposable that throws: that slot heads what is left, its `Dispose` was the last call and its exception comes out, and every live slot before it was disposed |
| Disposers.HeadStep | Common/AC.Common/ObjectModel/Disposer/Disposer.cs:39-41 | Running the head leaves one invocation less to do, so the drain of a finite registration tree ends |
| Disposers.DrainHead | Common/AC.Common/ObjectModel/Disposer/Disposer.cs:39-41 | Each drain step, by case: a null head stops at once; a throwing head stops after its invocation and stays in the list; otherwise the drain goes on with the rest followed by what the head registered |
| Disposers.DrainCompletes | Common/AC.Common/ObjectModel/Disposer/Disposer.cs:37-42 | When nothing throws, the drain empties the list and invokes every action once, including those registered while draining |
| Disposers.DrainFifo | Common/AC.Common/ObjectModel/Disposer/Disposer.cs:37-42 | When nothing throws, the actions present at the start run first, in registration order |
| Disposers.DrainStopsAtFailure | Common/AC.Common/ObjectModel/Disposer/Disposer.cs:39-41 | A failed drain stops at the failing action, which is left at the head. A null action raises a null dereference without being invoked; a throwing action was the last one invoked and its own exception comes out |
| Disposers.RegisteredWhileDraining | Common/AC.Common/ObjectModel/Disposer/Disposer.cs:31-56 | An action registered during disposal runs after the one that registered it, and its nested `Dispose` does nothing; then the live disposable is disposed, the dead one is skipped, the disposable registered during draining is disposed last, and a second `Dispose` does nothing |
| Disposers.DrainRegistering | Common/AC.Common/ObjectModel/Disposer/Disposer.cs:37-42 | The action drain of the scenario above: both actions run in order and the registered disposable joins the slots |
| Disposers.DisposedLiveThenDead | Common/AC.Common/ObjectModel/Disposer/Disposer.cs:44-54 | The item drain of the scenario above: a reclaimed disposable is skipped and the live ones are disposed in order |
| Disposers.ThrowingActionBlocksTheRest | Common/AC.Common/ObjectModel/Disposer/Disposer.cs:33-42 | A throwing action stays at the head, and because the flag is already set, the actions behind it never run |
| Disposers.ThrowingDisposableKeepsTheRest | Common/AC.Common/ObjectModel/Disposer/Disposer.cs:31-56 | A disposable whose `Dispose` throws stops the item loop after the ones before it; its exception comes out; its slot and the later ones stay registered for good |
| CollectionExtensions.AddRange | Common/AC.Common/ObjectModel/ICollectionExtensions.cs:11-22 | A null collection fails; otherwise every element is appended in order and a null sequence adds nothing |
| CollectionExtensions.RemoveRange | Common/AC.Common/ObjectModel/ICollectionExtensions.cs:30-41 | A null collection fails; otherwise one occurrence per listed element is removed, in order |
| CollectionExtensions.RemoveWhere | Common/AC.Common/ObjectModel/ICollectionExtensions.cs:49-55 | A null predicate fails first, then a null collection; otherwise exactly the non-matching elements remain, in order |
| CollectionExtensions.FirstOrDefault | Common/AC.Common/ObjectModel/ICollectionExtensions.cs:68 | The first matching element, at the first index where the predicate holds, when one exists; otherwise the given default |
| CollectionExtensions.RemoveFirstAsWritten | Common/AC.Common/ObjectModel/ICollectionExtensions.cs:63-74 | As written: the first match, or on a miss the default value, is removed when it is not null |
| CollectionExtensions.RemoveFirstMissRemovesDefault | Common/AC.Common/ObjectModel/ICollectionExtensions.cs:68-71 | On `[0, 7]`, asking to remove the first element above 10 removes the 0 |
| CollectionExtensions.FirstIndex | Common/AC.Common/ObjectModel/ICollectionExtensions.cs:68 | The position of the first match; none exactly when nothing matches |
| CollectionExtensions.RemoveFirstWhere | Common/AC.Common/ObjectModel/ICollectionExtensions.cs:63-74 | As intended: the first matching element, and only it, is removed; a miss changes nothing |
| CollectionExtensions.ReplaceAll | Common/AC.Common/ObjectModel/ICollectionExtensions.cs:83-91 | A null collection fails; otherwise the contents become exactly the given elements |
| CollectionExtensions.RemoveRangeIsDifference | Common/AC.Common/ObjectModel/ICollectionExtensions.cs:30-41 | `RemoveRange` is multiset difference; listing only absent elements changes nothing |
| CollectionExtensions.RemoveEachAbsent | Common/AC.Common/ObjectModel/ICollectionExtensions.cs:37-38 | Removing absent elements one by one leaves the list as it was |
| CollectionExtensions.RemoveWhereIdempotent | Common/AC.Common/ObjectModel/ICollectionExtensions.cs:49-55 | After `RemoveWhere` no element matches, and doing it again changes nothing |
| CollectionExtensions.FilterAll | Common/AC.Common/ObjectModel/ICollectionExtensions.cs:54 | Filtering by a predicate that every element satisfies keeps the whole list |
| CollectionExtensions.RemoveFirstAgreesOnHit | Common/AC.Common/ObjectModel/ICollectionExtensions.cs:63-74 | When some element matches and it is not null, the written and the intended `RemoveFirst` agree |
| BulkCollections.BulkObservableCollection.AddRange | Common/AC.Common/ObjectModel/BulkObservableCollection.cs:33-44 | A null argument fails with nothing changed. Otherwise the elements are appended, then one Add notification is raised with them and the old count as index |
| BulkCollections.BulkObservableCollection.RemoveRange | Common/AC.Common/ObjectModel/BulkObservableCollection.cs:46-55 | A null argument fails with nothing changed. Otherwise one occurrence of each element is removed, then one Remove notification is raised with index 0 |
| BulkCollections.BulkObservableCollection.RemoveWhereAsWritten | Common/AC.Common/ObjectModel/BulkObservableCollection.cs:57-63 | As written: when something matches, only the first match is removed and the enumeration fails with "collection was modified", raising nothing; when nothing matches, an empty Remove notification is raised |
| BulkCollections.BulkObservableCollection.RemoveWhere | Common/AC.Common/ObjectModel/BulkObservableCollection.cs:57-63 | As intended: every match is removed, the rest keep their order, and one Remove notification carries the matches |
| BulkCollections.BulkObservableCollection.ReplaceAll | Common/AC.Common/ObjectModel/BulkObservableCollection.cs:65-86 | A null argument fails. Otherwise the contents become the new elements, then come "Count", "Item[]" and one Replace notification carrying the new elements and the old ones |
| BulkCollections.Replay | Common/AC.Common/ObjectModel/BulkObservableCollection.cs:43-84 | An observer's copy of the list: an Add notification inserts at its index and a Replace notification swaps the contents |
| BulkCollections.BulkNotificationsDescribeTheChange | Common/AC.Common/ObjectModel/BulkObservableCollection.cs:33-86 | An observer that replays the Add notification of `AddRange`, or the Replace notification of `ReplaceAll`, ends with the collection's new contents |
| BulkCollections.RemoveWhereDiscrepancy | Common/AC.Common/ObjectModel/BulkObservableCollection.cs:62 | On `[a, b]` with both matching, the written `RemoveWhere` leaves `[b]` while the intended one leaves `[]` |
| NotifiableBulkCollections.NotifiableBulkObservableCollection.OnCollectionChanged | Common/AC.Common/ObjectModel/NotifiableBulkObservableCollection.cs:8-28 | Per action: Add attaches to the new items; Remove detaches from the old ones; Replace and Reset detach the old items, then attach the new ones; then the base notification is raised |
| NotifiableBulkCollections.NotifiableBulkObservableCollection.Subscribe | Common/AC.Common/ObjectModel/NotifiableBulkObservableCollection.cs:30-37 | Attaches to each item, in order |
| NotifiableBulkCollections.NotifiableBulkObservableCollection.UnSubscribe | Common/AC.Common/ObjectModel/NotifiableBulkObservableCollection.cs:39-46 | Detaches from each item, in order |
| NotifiableBulkCollections.NotifiableBulkObservableCollection.AddPropertyChanged | Common/AC.Common/ObjectModel/NotifiableBulkObservableCollection.cs:53 | The listener is appended to the event's invocation list |
| NotifiableBulkCollections.NotifiableBulkObservableCollection.RemovePropertyChanged | Common/AC.Common/ObjectModel/NotifiableBulkObservableCollection.cs:53 | The last occurrence of the listener leaves the invocation list |
| NotifiableBulkCollections.RemoveLast | Common/AC.Common/ObjectModel/NotifiableBulkObservableCollection.cs:53 | Removing an absent listener changes nothing; removing a present one shortens the list by one |
| NotifiableBulkCollections.NotifiableBulkObservableCollection.ItemPropertyChanged | Common/AC.Common/ObjectModel/NotifiableBulkObservableCollection.cs:48-51 | Every listener receives the item as sender, with a null name passed on as "" |
| NotifiableBulkCollections.NotifiableBulkObservableCollection.OnPropertyChanged | Common/AC.Common/ObjectModel/NotifiableBulkObservableCollection.cs:55-59 | Every listener is called once, in the order added, with the item and the name; nobody is called when there is no listener |
| NotifiableBulkCollections.AttachAllCount | Common/AC.Common/ObjectModel/NotifiableBulkObservableCollection.cs:34-35 | Attaching to each item adds one attachment per item |
| NotifiableBulkCollections.AttachAllSteps | Common/AC.Common/ObjectModel/NotifiableBulkObservableCollection.cs:30-37 | The `+=` steps follow the item list one for one, in order |
| NotifiableBulkCollections.DetachAllSteps | Common/AC.Common/ObjectModel/NotifiableBulkObservableCollection.cs:39-46 | The `-=` steps follow the item list one for one, in order |
| NotifiableBulkCollections.DetachAllCount | Common/AC.Common/ObjectModel/NotifiableBulkObservableCollection.cs:43-44 | Detaching from each item removes one attachment per item, where there is one |
| NotifiableBulkCollections.Reaction | Common/AC.Common/ObjectModel/NotifiableBulkObservableCollection.cs:8-28 | The override's steps before the base raise: Add attaches to each new item, Remove detaches from each old one, Replace and Reset detach from every old item and then attach to every new one, in list order with a null list as empty, and Move does nothing |
| NotifiableBulkCollections.ReactionCounts | Common/AC.Common/ObjectModel/NotifiableBulkObservableCollection.cs:8-28 | The attachment counts after each kind of notification: Add adds the new items, Remove subtracts the old ones, Replace and Reset subtract the old items and then add the new ones, and Move changes nothing |
| NotifiableBulkCollections.ReplaceOrderMatters | Common/AC.Common/ObjectModel/NotifiableBulkObservableCollection.cs:18-22 | An item that is both removed and added by a Replace, and was not attached, ends attached exactly once |
| NotifiableBulkCollections.AttachThenDetachCancels | Common/AC.Common/ObjectModel/NotifiableBulkObservableCollection.cs:20-21 | The opposite order would leave that item detached |
| NotifiableBulkCollections.BulkOperationsAttach | Common/AC.Common/ObjectModel/NotifiableBulkObservableCollection.cs:8-28 | The notifications of `AddRange`, `RemoveRange` and `ReplaceAll`, relayed through the override, attach to the added items and detach from the removed ones |
| NotifiableBulkCollections.RelayToListeners | Common/AC.Common/ObjectModel/NotifiableBulkObservableCollection.cs:48-59 | With no listener, an item change reaches nobody. With two, a nameless change reaches both, in order, as "" |
| EnumerableExtensions.ForEach | Common/AC.Common/ObjectModel/IEnumerableExtensions.cs:24-33 | A null sequence or action fails; otherwise the action is applied to every element, in order, and the input is returned |
| EnumerableExtensions.ForEachWhere | Common/AC.Common/ObjectModel/IEnumerableExtensions.cs:42-53 | The action is applied to exactly the matching elements, in order; a null predicate selects all |
| EnumerableExtensions.Flatten | Common/AC.Common/ObjectModel/IEnumerableExtensions.cs:62-78 | `Flatten` computes exactly the specification `Flattened`: null stays null; otherwise the input, then each element's flattened children in turn |
| EnumerableExtensions.FlattenEach | Common/AC.Common/ObjectModel/IEnumerableExtensions.cs:68-74 | The loop accumulates the flattened children of every element, in order, skipping null ones |
| EnumerableExtensions.FlattenChildren | Common/AC.Common/ObjectModel/IEnumerableExtensions.cs:70 | The recursive call flattens one element's children |
| EnumerableExtensions.DescendantsStep | Common/AC.Common/ObjectModel/IEnumerableExtensions.cs:72-73 | One more element adds its flattened children, or nothing when they are null |
| EnumerableExtensions.FlattenedSize | Common/AC.Common/ObjectModel/IEnumerableExtensions.cs:62-78 | The flattened sequence is null exactly for null input, starts with the input, and holds one entry per node of the forest (an independent count) |
| EnumerableExtensions.DescendantsSize | Common/AC.Common/ObjectModel/IEnumerableExtensions.cs:68-74 | The first `k` elements and their descendants make up the first `k` subtrees |
| EnumerableExtensions.FlattenLeaf | Common/AC.Common/ObjectModel/IEnumerableExtensions.cs:62-78 | A node whose children are null flattens to itself |
| EnumerableExtensions.Enumerate | Common/AC.Common/ObjectModel/IEnumerableExtensions.cs:88-97 | On enumeration the null checks run in order (`value`, then `action`); then the result is `action(x)` for each `x`, in order and of the same length |
| EnumerableExtensions.Convert | Common/AC.Common/ObjectModel/IEnumerableExtensions.cs:88-97 | Never fails when called. Enumerating the result fails for a null sequence, then for a null action; otherwise it yields `action` of each element, in order and one for one |
| EnumerableExtensions.ConvertComposes | Common/AC.Common/ObjectModel/IEnumerableExtensions.cs:88-97 | Converting twice is converting once by the composition |
| Strings.IsNotNullNorEmpty | Common/AC.Common/ObjectModel/StringExtensions.cs:13-16 | True exactly for a non-null, non-empty string |
| Strings.Concatenate | Common/AC.Common/ObjectModel/StringExtensions.cs:33-36 | `value` followed by `str1`, with null counting as empty |
| Strings.ConcatenateStrings | Common/AC.Common/ObjectModel/StringExtensions.cs:44-47 | A null array fails; otherwise the parts joined. `value` is dropped |
| Strings.ConcatenateObjects | Common/AC.Common/ObjectModel/StringExtensions.cs:55-58 | A null array fails; otherwise the objects' texts joined. `value` is dropped |
| Strings.ConcatenateObject | Common/AC.Common/ObjectModel/StringExtensions.cs:66-69 | The object's text alone, without `value` |
| Strings.OverloadsDropValue | Common/AC.Common/ObjectModel/StringExtensions.cs:44-69 | The three overloads other than the two-string one give the same result whatever `value` is |
| Strings.JoinedAppend | Common/AC.Common/ObjectModel/StringExtensions.cs:44-58 | Joining distributes over concatenation of the parts |
| StringSlices.Left | Common/AC.Common/ObjectModel/StringExtensions.cs:85-91 | A negative count fails the assertion; 0 gives "" even for null; otherwise the first `count` characters, while a null string or a count past the end fail |
| StringSlices.Right | Common/AC.Common/ObjectModel/StringExtensions.cs:96-102 | The same failures as `Left`, otherwise the last `count` characters; the start is clamped but the length is not, so a count past the end fails |
| StringSlices.Substring | Common/AC.Common/ObjectModel/StringExtensions.cs:89-100 | Succeeds exactly for an in-range slice, and gives that slice |
| StringSlices.LeftThenRight | Common/AC.Common/ObjectModel/StringExtensions.cs:85-102 | `Left(s, n) + Right(s, |s| - n) == s` |
| Assertions.Described | Common/AC.Common/ObjectModel/Assert.cs:25 | A non-empty description gives `ArgumentException(description)`; otherwise the validator's own exception |
| Assertions.NotNull | Common/AC.Common/ObjectModel/Assert.cs:20-27 | Passes exactly for a non-null value; otherwise fails with the described exception or `ArgumentNullException()` |
| Assertions.NotZero | Common/AC.Common/ObjectModel/Assert.cs:35-41 | Passes exactly for a non-zero value |
| Assertions.IsPositive | Common/AC.Common/ObjectModel/Assert.cs:49-55 | Passes exactly for a value above 0. Otherwise a given description wins (`ArgumentException`); without one a non-positive value raises `ArgumentNullException` whose parameter name is "Value must be strictly positive." |
| Assertions.IsPositiveNullable | Common/AC.Common/ObjectModel/Assert.cs:63-71 | An absent value fails first, without a description with `ArgumentNullException` whose parameter name is "Value is undefined."; a present one is checked as by `IsPositive` |
| Assertions.NotNullOrEmpty | Common/AC.Common/ObjectModel/Assert.cs:78-84 | Passes exactly for a non-empty string |
| Assertions.NotNullOrWhiteSpace | Common/AC.Common/ObjectModel/Assert.cs:91-97 | Passes exactly when some character is not white space |
| Assertions.NotNullElements | Common/AC.Common/ObjectModel/Assert.cs:133-181 | A null collection passes; a collection passes exactly when it holds no null element |
| Assertions.NotNullPairElements | Common/AC.Common/ObjectModel/Assert.cs:119-189 | Passes exactly when no pair has a null key or a null value |
| Assertions.NotNullOrNullElements | Common/AC.Common/ObjectModel/Assert.cs:105-110 | The collection itself is checked first, then its elements |
| Assertions.IsTrue | Common/AC.Common/ObjectModel/Assert.cs:147-151 | Passes exactly when the condition holds; otherwise `InvalidOperationException(description)` |
| Assertions.IsTrueDefault | Common/AC.Common/ObjectModel/Assert.cs:153-157 | The overload without a description is `IsTrue` with "assertion failed" |
| Assertions.HasItems | Common/AC.Common/ObjectModel/Assert.cs:165-170 | Passes exactly for a non-null, non-empty collection |
| Assertions.WhiteSpaceStricter | Common/AC.Common/ObjectModel/Assert.cs:78-97 | Whatever the white-space check accepts, the emptiness check accepts too, and both reject null and "" |
| Assertions.DescriptionWins | Common/AC.Common/ObjectModel/Assert.cs:25-67 | With a description, every failing check reports the same `ArgumentException` |
| RetryPattern.DelayMilliseconds | Common/AC.Common/RetryPattern/TillMaxRetryStrategy.cs:60 | The wait `Task.Delay` asks for: the interval in whole milliseconds, truncated toward zero |
| RetryPattern.DelayError | Common/AC.Common/RetryPattern/TillMaxRetryStrategy.cs:60 | `Task.Delay` throws `ArgumentOutOfRangeException` exactly when that wait is below -1 ms or above `Int32.MaxValue` ms: never for an interval from 0 to `Int32.MaxValue` ticks, always for one at or below -2 ms |
| RetryPattern.TillMaxRetryStrategy.Retry | Common/AC.Common/RetryPattern/TillMaxRetryStrategy.cs:36-64 | No call when `maxRetries <= 0`; otherwise 1 to `maxRetries` calls, every one but the last having thrown. It passes exactly when the last call returned, and a failure after `maxRetries` calls carries the last call's exception. With a valid interval, every failure is of that kind, and there is one wait of the set interval after each failed call but the last. With an interval out of `Task.Delay`'s range and `maxRetries > 1`, a first call that throws is followed by `ArgumentOutOfRangeException` and no further call |
| RetryPattern.AlwaysThrowing | Common/AC.Common/RetryPattern/TillMaxRetryStrategy.cs:36-64 | Logic that always throws, or a null action, is called `maxRetries` times and its exception comes out |
| RetryPattern.NegativeIntervalFailsAtFirstWait | Common/AC.Common/RetryPattern/TillMaxRetryStrategy.cs:53-60 | An interval of -2 ms makes the first wait throw `ArgumentOutOfRangeException`, after one call |
| RetryPattern.SecondAttemptSucceeds | Common/AC.Common/RetryPattern/TillMaxRetryStrategy.cs:36-64 | Logic that throws once is called twice, with one wait between |
| QueryRepositories.Wrap32 | Data/AC.Data/Repositories/QueryRepositoryBaseOfT.cs:203 | Two's-complement truncation: the identity within range, and always congruent mod 2^32 |
| QueryRepositories.GetItemsToSkipAsWritten | Data/AC.Data/Repositories/QueryRepositoryBaseOfT.cs:199-204 | As written: the page check first, then the size check; the product in 32 bits, exact when it fits |
| QueryRepositories.SkipWrapsAround | Data/AC.Data/Repositories/QueryRepositoryBaseOfT.cs:203 | Page 65537 of size 65536 skips 0 items as written, instead of 2^32 |
| QueryRepositories.GetItemsToSkip | Data/AC.Data/Repositories/QueryRepositoryBaseOfT.cs:199-204 | As intended: the same checks in the same order, then exactly `(selectedPage - 1) * pageSize`, so page 1 skips nothing |
| QueryRepositories.SkipAgreesWhenSmall | Data/AC.Data/Repositories/QueryRepositoryBaseOfT.cs:203 | The written and the intended versions agree whenever the product fits in 32 bits |
| QueryRepositories.Skip | Data/AC.Data/Repositories/QueryRepositoryBaseOfT.cs:82 | LINQ `Skip`: a count at or below 0 skips nothing, one past the end leaves nothing |
| QueryRepositories.Take | Data/AC.Data/Repositories/QueryRepositoryBaseOfT.cs:82 | LINQ `Take`: the prefix of that length, cut at the end |
| QueryRepositories.PageAsWritten | Data/AC.Data/Repositories/QueryRepositoryBaseOfT.cs:81-82 | As written, over the wrapped skip count: fails exactly when `GetItemsToSkipAsWritten` does, with its error; otherwise the ordered result with the wrapped count skipped, cut to `pageSize` entities; a count wrapped below 0 skips nothing, so the first page comes back |
| QueryRepositories.PageAgreesWhenSmall | Data/AC.Data/Repositories/QueryRepositoryBaseOfT.cs:81-82 | The written and the intended pages are equal whenever the skip count fits in 32 bits |
| QueryRepositories.PageWrapsToWholeResult | Data/AC.Data/Repositories/QueryRepositoryBaseOfT.cs:81-82 | Page 40000 of size 60000 over 10 entities shows all 10 as written, and none as intended |
| QueryRepositories.Page | Data/AC.Data/Repositories/QueryRepositoryBaseOfT.cs:81-82 | As intended, over the exact skip count: fails exactly when `GetItemsToSkip` does, with its error; a page never holds more than `pageSize` entities |
| QueryRepositories.PageIsSlice | Data/AC.Data/Repositories/QueryRepositoryBaseOfT.cs:81-82 | A page is the slice between `(p-1)*size` and `p*size`, cut at the end |
| QueryRepositories.PagesAdjacent | Data/AC.Data/Repositories/QueryRepositoryBaseOfT.cs:81-82 | Pages `p` and `p+1` together are the contiguous slice covering both: no entity is skipped or shown twice |
| QueryRepositories.QueryRepository.Count | Data/AC.Data/Repositories/QueryRepositoryBaseOfT.cs:38-41 | The number of entities `GetAll` returns |
| QueryRepositories.QueryRepository.CountWhere | Data/AC.Data/Repositories/QueryRepositoryBaseOfT.cs:48-51 | The number of matching entities, never more than `Count()` |
| QueryRepositories.QueryRepository.GetByLambdaOrderedPageAsWritten | Data/AC.Data/Repositories/QueryRepositoryBaseOfT.cs:79-123 | As written: fails exactly for a bad page or size, in that order; otherwise the ordered matches with the wrapped skip count skipped and cut to `pageSize`; that is the intended page whenever the count fits in 32 bits, and the first page when it wraps below 0 |
| QueryRepositories.QueryRepository.GetByLambdaOrderedPage | Data/AC.Data/Repositories/QueryRepositoryBaseOfT.cs:79-123 | As intended: fails exactly for a bad page or size, in that order; otherwise the slice of the ordered matches that the page covers |
| QueryRepositories.QueryRepository.GetAllOrderedPageAsWritten | Data/AC.Data/Repositories/QueryRepositoryBaseOfT.cs:148-191 | As written, the same over every entity |
| QueryRepositories.QueryRepository.GetAllOrderedPage | Data/AC.Data/Repositories/QueryRepositoryBaseOfT.cs:148-191 | As intended, the same over every entity |
| QueryRepositories.CountWhereExtremes | Data/AC.Data/Repositories/QueryRepositoryBaseOfT.cs:38-51 | An always-true predicate counts `Count()`; an always-false one counts 0 |
| RepositoryBuilders.BuildOutcome | Data/AC.Data/Repositories/Builders/MemoryRepositoryBuilderOfT.cs:38-45 | The unit of work is checked first, then the type, then the null result of the `as` cast. It succeeds exactly when all three pass, giving the type built with that unit of work; each failure carries its own message (the third is written out although the generic constraint keeps it from arising) |
| RepositoryBuilders.MemoryRepositoryBuilder.constructor | Data/AC.Data/Repositories/Builders/MemoryRepositoryBuilderOfT.cs:6-18 | Neither a unit of work nor a type is set |
| RepositoryBuilders.MemoryRepositoryBuilder.FromUnitOfWork | Data/AC.Data/Repositories/Builders/MemoryRepositoryBuilderOfT.cs:20-24 | Records the unit of work, keeps the type, and returns the builder |
| RepositoryBuilders.MemoryRepositoryBuilder.FixDefaultRepositoryIfNeeded | Data/AC.Data/Repositories/Builders/MemoryRepositoryBuilderOfT.cs:31-36 | Records the type, replacing any earlier one despite the name, and returns the builder |
| RepositoryBuilders.MemoryRepositoryBuilder.Build | Data/AC.Data/Repositories/Builders/MemoryRepositoryBuilderOfT.cs:38-45 | Gives exactly `BuildOutcome` of the builder's state |
| RepositoryBuilders.FluentBuild | Data/AC.Data/Repositories/Builders/MemoryRepositoryBuilderOfT.cs:20-45 | A fresh builder fails on the unit of work first; the chain builds the last type with the last unit of work |
| RepositoryBuilderProviders.Lookup | Data/AC.Data/Repositories/Builders/MemoryRepositoryBuilderProvider.cs:34-62 | `TryGetValue` followed by the cast: a builder exactly when one for that repository is stored under the key |
| RepositoryBuilderProviders.MemoryRepositoryBuilderProvider.constructor | Data/AC.Data/Repositories/Builders/MemoryRepositoryBuilderProvider.cs:8-12 | An empty table, not configured, not disposed |
| RepositoryBuilderProviders.MemoryRepositoryBuilderProvider.Configure | Data/AC.Data/Repositories/Builders/MemoryRepositoryBuilderProvider.cs:14-25 | Sets `IsConfigured` and nothing else |
| RepositoryBuilderProviders.MemoryRepositoryBuilderProvider.SetBuilder | Data/AC.Data/Repositories/Builders/MemoryRepositoryBuilderProvider.cs:47-52 | Stores or replaces the builder under `IRepositoryBuilder<TRepository>` |
| RepositoryBuilderProviders.MemoryRepositoryBuilderProvider.GetRepository | Data/AC.Data/Repositories/Builders/MemoryRepositoryBuilderProvider.cs:32-39 | Without a suitable builder it fails with "Can't build repository instance"; otherwise the builder keeps the unit of work and the result is its `Build` |
| RepositoryBuilderProviders.MemoryRepositoryBuilderProvider.GetBuilder | Data/AC.Data/Repositories/Builders/MemoryRepositoryBuilderProvider.cs:59-65 | Looks under `TRepository` itself, a key `SetBuilder` never writes, so on any table `SetBuilder` built it fails |
| RepositoryBuilderProviders.MemoryRepositoryBuilderProvider.FixDefaultBuilderIfNeeded | Data/AC.Data/Repositories/Builders/MemoryRepositoryBuilderProvider.cs:71-80 | Gives what `GetBuilder` gives: it throws rather than returning null, so the default branch never runs |
| RepositoryBuilderProviders.MemoryRepositoryBuilderProvider.Dispose | Data/AC.Data/Repositories/Builders/MemoryRepositoryBuilderProvider.cs:109-115 | The first disposal clears the table; a later one changes nothing |
| RepositoryBuilderProviders.MemoryRepositoryBuilderProvider.DisposeCore | Data/AC.Data/Repositories/Builders/MemoryRepositoryBuilderProvider.cs:85-100 | Acts once; the table is cleared only when disposing |
| RepositoryBuilderProviders.StoredBuilderIsNotFound | Data/AC.Data/Repositories/Builders/MemoryRepositoryBuilderProvider.cs:34-61 | A stored builder serves `GetRepository` but is found by neither `GetBuilder` nor `FixDefaultBuilderIfNeeded` |
| RepositoryBuilderProviders.DisposeClearsOnce | Data/AC.Data/Repositories/Builders/MemoryRepositoryBuilderProvider.cs:85-115 | After `Dispose` nothing can be built and the table is empty |
| UnitOfWorkFactories.UnitOfWorkFactory.constructor | Data/AC.Data/UnitOfWorks/Builders/UnitOfWorkFactory.cs:34-65 | Starts with the in-memory provider and frozen |
| UnitOfWorkFactories.UnitOfWorkFactory.SetProvider | Data/AC.Data/UnitOfWorks/Builders/UnitOfWorkFactory.cs:25-32 | Refused while frozen, leaving the provider unchanged; otherwise installs. The flag is never changed |
| UnitOfWorkFactories.UnitOfWorkFactory.SetFrozen | Data/AC.Data/UnitOfWorks/Builders/UnitOfWorkFactory.cs:48-54 | Sets the flag only |
| UnitOfWorkFactories.UnitOfWorkFactory.Create | Data/AC.Data/UnitOfWorks/Builders/UnitOfWorkFactory.cs:72-92 | Both overloads answer as the current provider does |
| UnitOfWorkFactories.UnitOfWorkFactory.IsRegistered | Data/AC.Data/UnitOfWorks/Builders/UnitOfWorkFactory.cs:94-108 | Both overloads answer as the current provider does |
| UnitOfWorkFactories.ReplaceProviders | Data/AC.Data/UnitOfWorks/Builders/UnitOfWorkFactory.cs:25-108 | Out of the box a new provider is refused. Once unfrozen, any number are accepted, the flag stays cleared, and calls follow the last provider |
| UnitOfWorkFactories.Refreeze | Data/AC.Data/UnitOfWorks/Builders/UnitOfWorkFactory.cs:25-55 | Freezing again keeps the provider installed before |
| IoCHelpers.IoCHelper.constructor | IoC/AC.IoC/IoCHelper.cs:15-45 | No provider, not frozen |
| IoCHelpers.IoCHelper.GetProvider | IoC/AC.IoC/IoCHelper.cs:21-25 | An empty slot fails with "An IoC provider is necessary!"; otherwise the provider |
| IoCHelpers.IoCHelper.SetProvider | IoC/AC.IoC/IoCHelper.cs:26-31 | Refused while frozen, changing nothing; otherwise installs the provider and freezes the slot |
| IoCHelpers.IoCHelper.SetFrozen | IoC/AC.IoC/IoCHelper.cs:34 | Sets the flag only |
| IoCHelpers.IoCHelper.ConfigureInstalled | IoC/AC.IoC/IoCHelper.cs:47-53 | Fails on an empty slot; otherwise the installed provider ends configured |
| IoCHelpers.IoCHelper.Configure | IoC/AC.IoC/IoCHelper.cs:55-62 | The provider is configured first and installed afterwards, so on a frozen slot it ends configured but not installed |
| IoCHelpers.FreezeLifecycle | IoC/AC.IoC/IoCHelper.cs:19-34 | The slot starts empty; the first write succeeds and freezes it; the next is refused; clearing `Frozen` lets exactly one more write through |
| IoCHelpers.IoCHelper.IsConfigured | IoC/AC.IoC/IoCHelper.cs:67-70 | False without a provider; otherwise exactly the installed provider's own `IsConfigured` |
| IoCHelpers.ConfiguredScenario | IoC/AC.IoC/IoCHelper.cs:47-70 | `IsConfigured` is false without a provider and follows the installed provider's flag; `Configure(provider)` on a frozen slot leaves the first provider installed |
| ExceptionDetails.StringBuilder.Append | IoC/AC.IoC/Exception/IoCExceptionHelper.cs:361-362 | Appends the text |
| ExceptionDetails.StringBuilder.AppendLine | IoC/AC.IoC/Exception/IoCExceptionHelper.cs:267 | Appends the text and a line break |
| ExceptionDetails.Messages | IoC/AC.IoC/Exception/IoCExceptionHelper.cs:359-364 | One message per exception of the chain, outermost first |
| ExceptionDetails.GetFullExceptionMessage | IoC/AC.IoC/Exception/IoCExceptionHelper.cs:354-367 | Every message of the chain, outermost first, each followed by ". " |
| ExceptionDetails.FullMessageStep | IoC/AC.IoC/Exception/IoCExceptionHelper.cs:359-364 | One step of the walk: the head's message and ". ", then the rest of the chain |
| ExceptionDetails.TerminatedAppend | IoC/AC.IoC/Exception/IoCExceptionHelper.cs:361-362 | Terminating each part distributes over concatenation of the parts |
| ExceptionDetails.MessagesAttach | IoC/AC.IoC/Exception/IoCExceptionHelper.cs:363 | Hanging a chain below another puts its messages after the other's |
| ExceptionDetails.FullMessageAttach | IoC/AC.IoC/Exception/IoCExceptionHelper.cs:354-367 | So the full message of the joined chain is the two full messages one after the other |
| ExceptionDetails.OptionalLine | IoC/AC.IoC/Exception/IoCExceptionHelper.cs:269-278 | A line exactly when the text is non-null and non-empty, with the caption |
| ExceptionDetails.OwnLines | IoC/AC.IoC/Exception/IoCExceptionHelper.cs:267-278 | One to four lines of its own, starting with the message line |
| ExceptionDetails.DataDetailLines | IoC/AC.IoC/Exception/IoCExceptionHelper.cs:294-313 | The message line, the source line whether or not there is a source, one line per `Data` entry in order, then the inner chain in the two-argument format |
| ExceptionDetails.DataLines | IoC/AC.IoC/Exception/IoCExceptionHelper.cs:300-303 | One "key: value" line per entry, in order |
| ExceptionDetails.DetailLineCount | IoC/AC.IoC/Exception/IoCExceptionHelper.cs:265-288 | A chain of depth `d` writes between `2d-1` and `5d-1` lines, with exactly `d-1` "InnerException: " lines |
| ExceptionDetails.BuildExceptionDetailInto | IoC/AC.IoC/Exception/IoCExceptionHelper.cs:265-288 | A null exception fails with nothing appended. Otherwise the chain's lines, each ended by a line break, are appended after what the builder already held, and the same builder is returned |
| ExceptionDetails.AppendOwn | IoC/AC.IoC/Exception/IoCExceptionHelper.cs:267-278 | Appends exactly the exception's own lines |
| ExceptionDetails.AppendOptional | IoC/AC.IoC/Exception/IoCExceptionHelper.cs:269-278 | One guarded `AppendLine` |
| ExceptionDetails.AppendInner | IoC/AC.IoC/Exception/IoCExceptionHelper.cs:281-310 | Nothing for a null inner exception; otherwise "InnerException: " and then the inner chain's lines |
| ExceptionDetails.BuildExceptionDetail | IoC/AC.IoC/Exception/IoCExceptionHelper.cs:294-313 | A null exception fails; otherwise the text is exactly the `DataDetailLines`, each ended by a line break |
| ExceptionDetails.OverloadsAgree | IoC/AC.IoC/Exception/IoCExceptionHelper.cs:265-313 | For an exception with a source, no target site, no stack trace and no `Data`, the two overloads write the same lines |

## Left out

- CollectionExtensions: the collection has list semantics (`Add` appends, `Remove` takes
  out the first equal element). Other `ICollection<T>` implementations behave
  differently: a `HashSet<T>` ignores a duplicate `Add`, and a sorted collection does
  not append at the end. Those are not modelled.
- Garbage collection, finalizer timing and `GC.SuppressFinalize` are not modelled as
  such. Reclamation is an explicit `Collect` call, and the finalizers are methods
  anyone may call.
- The locks of `IoCHelper` and `UnitOfWorkFactory` are left out, as is concurrency in
  general: each model is single-threaded.
- Reflection (`MethodInfo.Invoke`, `Delegate.CreateDelegate`, `TypeDescriptor`) is left
  out.
  - Invocations are returned as a trace rather than executed.
  - What the callbacks themselves do is not modelled.
  - The debug-only property-name check is given as a `debugBuild` flag and an
    `isProperty` parameter.
  - The argument count is not checked. Two kinds of call hand a method the wrong
    number of arguments: a typed callback subscribed under a null name, called as a
    wildcard with two arguments, and a handler reached by the first loop of a null-name
    notification, called with one. `MethodInfo.Invoke` would throw
    `TargetParameterCountException` there. The trace records the call, and the
    notification goes on.
- PropertyChanged.PropertyChangedManager.SubscribeToPropertyChanged,
  PropertyChanged.PropertyChangedManager.AddHandler and
  PropertyChanged.PropertyChangedManager.UnsubscribeToPropertyChanged take a
  non-null callback or handler. In the source a null one throws
  `NullReferenceException` where it is dereferenced (`callback.Target`,
  `handler.Target`, or `callback.Method` in the unsubscribe match). `RemoveHandler` is reached only through
  `NotifiableObject`, which ignores a null handler.
- Notifiable.NotifiableObject.SubscribeToPropertyChangedUntyped: only the registry's weak hold on
  the compiler-generated closure is modelled. The closure is then reclaimable, so such
  a subscription can silently vanish. This is stated as a fresh closure object, not
  proved as a lifetime property.
- Disposers.DrainSlots: which disposables throw from their own `Dispose` is given by
  the `failing` parameter. What a disposable's `Dispose` does besides returning or
  throwing is not modelled. In particular, it cannot re-enter the disposer or register
  anything. A running action's effects are limited to registering actions and
  disposables, calling `Dispose` again and throwing.
- Disposers.HeadStep: the actions form a finite registration tree, so an action that
  registers itself again, or one of the actions that led to it, cannot be written. On
  such an action the source's action loop never ends. Termination is a property of
  finite trees only.
- The bulk operations take their argument as a finished snapshot:
  CollectionExtensions.AddRange, CollectionExtensions.RemoveRange,
  CollectionExtensions.ReplaceAll, BulkCollections.BulkObservableCollection.AddRange,
  BulkCollections.BulkObservableCollection.RemoveRange and
  BulkCollections.BulkObservableCollection.ReplaceAll. Aliasing of the argument with the
  target collection is not modelled. Some effects are therefore missing:
  - `ReplaceAll(c.Where(p))` empties the collection, because the lazy argument is read
    after `Clear`;
  - `AddRange(c)` on the collection itself throws while enumerating;
  - a lazy argument that the bulk `AddRange`/`RemoveRange` enumerate twice can yield
    different items each time.
  `RemoveWhere`, where the aliasing is in the source itself, is modelled as written
  under "## Findings".
- BulkCollections.BulkObservableCollection.RemoveRange: the Remove notification's index
  0 is modelled as written, not as the positions of the removed items.
- NotifiableBulkCollections.NotifiableBulkObservableCollection.OnCollectionChanged,
  NotifiableBulkCollections.NotifiableBulkObservableCollection.Subscribe and
  NotifiableBulkCollections.NotifiableBulkObservableCollection.UnSubscribe treat every
  item as a non-null object. A null element is legal in the collection, but in the source
  `item.PropertyChanged +=` or `-=` on it throws `NullReferenceException`. That happens
  after the list has changed, after the items before it were attached or detached, and
  before `base.OnCollectionChanged`, so listeners get no notification. The model records
  an attachment or detachment for such an item and always raises.
- NotifiableBulkCollections.Apply: `-=` removes one attachment of the handler, as for
  ordinary events. An item that is itself a `NotifiableObject` would instead remove
  every matching entry.
- QueryRepositories: `OrderBy` is executed by the query provider, so it is a parameter.
  - The un-paged `GetByLambdaOrdered` and `GetAllOrdered` are just that parameter
    applied to the query.
  - A join path is ignored, because it only hydrates related entities.
  - `Find` is abstract and is not modelled.
- RepositoryBuilderProviders.MemoryRepositoryBuilderProvider.SetBuilder stores only a
  `MemoryRepositoryBuilder`. The source accepts any `IRepositoryBuilder<TRepository>`,
  for example an IoC-backed builder, which builds through the container and fails with
  its own exceptions. Such builders are not part of this model.
- RepositoryBuilderProviders.MemoryRepositoryBuilderProvider.GetRepository: since the
  stored builder is always a `MemoryRepositoryBuilder`, whose `Build` either returns an
  instance or throws, the "Can't build repository instance" `DataException` for a
  builder that returns null can only arise here from a missing builder. The failures of
  other builder kinds cannot be expressed.
- QueryRepositories.Skip and QueryRepositories.Take follow the in-memory LINQ rules: a
  negative count skips nothing or takes nothing. A database query provider may reject a
  negative `Skip` instead. So the whole-result outcome of `PageWrapsToWholeResult` holds
  for an in-memory provider only.
- RepositoryBuilders.BuildOutcome: `Activator.CreateInstance` is represented by an
  `isRepository` parameter.
  - The type can only be set through `FixDefaultRepositoryIfNeeded<TToRepository>`,
    whose constraint `TToRepository : TRepository` makes every constructed instance a
    `TRepository`. So the "Can't build a repository instance" `DataException` cannot
    arise in the source. It is kept as written, for a caller passing an `isRepository`
    that is false.
  - The failures that can arise are not modelled: a `MissingMethodException` when the type
    has no constructor taking an `IUnitOfWork`, and any exception the constructor throws.
- Assertions.NotNullOrWhiteSpace: the set of white-space characters is a parameter
  rather than the Unicode table.
- StringSlices.Left, StringSlices.Right and StringSlices.Substring count in Unicode scalar
  values (Dafny `char`), whereas .NET `Length` and `Substring` count UTF-16 code units.
  The two agree on text inside the Basic Multilingual Plane. Outside it they differ.
  Take the one-character string U+1F600, which is two code units in .NET. There
  `Left(1)` is a lone high surrogate and `Left(2)` is the whole string. The model gives
  the whole string for `Left(1)` and fails on `Left(2)`.
- EnumerableExtensions.Flatten: a children selector whose trees are cyclic, and which
  would loop forever, is left out. The trees are finite datatypes.
- EnumerableExtensions.Flatten: the children selector is always present (it is the
  tree's `children`). A null selector on a non-empty input throws
  `NullReferenceException` at its first call in the source; that case is not modelled.
- EnumerableExtensions.Convert: the iterator's laziness is modelled by the `Converted`
  value, which is checked only when `Enumerate` runs. Partial enumeration is not
  modelled.
- `FormatString` (`String.Format`) is left out, because composite formatting is not
  modelled. `IsNullOrEmpty` is the `Strings.IsNullOrEmpty` predicate without a
  contract of its own.
- IoCHelpers.IoCProvider: the `IIoCProvider` implementations are not part of this
  model. Their `Configure` is assumed to set `IsConfigured`.
- The resolution, registration and lifetime-manager forwarding overloads of `IoCHelper`
  are not part of this model.
- IoCHelpers.IoCHelper.SetProvider: it takes a non-null provider. A null one would
  empty the slot and freeze it.
- IoCHelpers.IoCHelper.Configure: it takes a non-null provider. In the source a null one
  throws `NullReferenceException` at `provider.Configure()`, before the frozen check,
  and nothing changes.
- UnitOfWorkFactories.UnitOfWorkFactory.SetProvider: it takes a non-null provider. In the
  source an unfrozen setter stores null, and `Create` and `IsRegistered` then throw
  `NullReferenceException`.
- RepositoryBuilders.MemoryRepositoryBuilder.FromUnitOfWork takes a non-null unit of
  work. In the source a null one is recorded, so a later `Build` fails with the
  "A unit of work is necessary" `DataException`, as for a builder never given one.
- RepositoryBuilderProviders.MemoryRepositoryBuilderProvider.GetRepository takes a
  non-null unit of work. In the source a null one reaches `Build` through
  `FromUnitOfWork` and fails there with the same `DataException`.
- RepositoryBuilderProviders.MemoryRepositoryBuilderProvider.SetBuilder takes a non-null
  builder. In the source `SetBuilder(null)` stores a null entry, and `GetRepository`
  then fails as for a missing builder.
- UnitOfWorkFactories.UnitOfWorkFactory: the `MemoryUnitOfWorkProvider` is a
  constructor argument. What `Create` and `IsRegistered` answer is a function of the
  provider, whose code is not part of this model.
- ExceptionDetails.BuildExceptionDetailInto takes a builder that is present. In the
  source a null `stack` throws `NullReferenceException` at the first `AppendLine`.
- ExceptionDetails: `Environment.NewLine` is modelled as "\n".
  - `Data` entries come in their enumeration order.
  - `TargetSite` is modelled by its text.
  - The other members of `IoCExceptionHelper` (`GetExceptionDetails`, `Trace` and the
    exception-wrapping helpers) are not part of this model.
- RetryPattern.TillMaxRetryStrategy.Retry: the console log lines are left out. The
  pause is recorded as the requested interval rather than waited for.
  - An interval that truncates to -1 ms makes `Task.Delay` wait forever, so the real
    `Retry` never returns. The model records that wait and goes on.
  - The upper bound of `Task.Delay` is taken as `Int32.MaxValue` ms. Newer runtimes
    accept up to `UInt32.MaxValue - 1` ms, and the target runtime is not part of this
    model.
- Assertions.NotZero: `long` arguments are modelled as unbounded integers, because no
  check does arithmetic on them.

## Findings

| source | as written | input that shows it | evidently intended | confidence | as-written member | corrected member |
|---|---|---|---|---|---|---|
| Common/AC.Common/ObjectModel/ICollectionExtensions.cs:68-71 | `RemoveFirst` removes `FirstOrDefault(predicate)` whenever it is not null. For a value type, a miss yields `default(T)`, which is never null, so one copy of the default value is removed. | `[0, 7]` of `int` with predicate `x > 10` becomes `[7]` | Remove the first matching element, and nothing on a miss | not executed | CollectionExtensions.RemoveFirstAsWritten, CollectionExtensions.RemoveFirstMissRemovesDefault | CollectionExtensions.RemoveFirstWhere, CollectionExtensions.RemoveFirstAgreesOnHit |
| Common/AC.Common/ObjectModel/BulkObservableCollection.cs:62 | `RemoveWhere` hands `RemoveRange` a lazy `Where` over `base.Items`, which `RemoveRange` modifies while enumerating it. After the first removal the enumerator throws `InvalidOperationException`, and no notification is raised. | `[a, b]` with a predicate matching both leaves `[b]` and fails | Snapshot the matches, remove all of them, raise one Remove notification | not executed | BulkCollections.BulkObservableCollection.RemoveWhereAsWritten, BulkCollections.RemoveWhereDiscrepancy | BulkCollections.BulkObservableCollection.RemoveWhere |
| Data/AC.Data/Repositories/QueryRepositoryBaseOfT.cs:203 | `(selectedPage - 1) * pageSize` is computed in unchecked 32-bit `int` and wraps | `selectedPage = 65537`, `pageSize = 65536` skips 0 items; `selectedPage = 40000`, `pageSize = 60000` wraps below 0, so a 10-entity result comes back whole instead of empty | Skip `(selectedPage - 1) * pageSize` items exactly | not executed | QueryRepositories.GetItemsToSkipAsWritten, QueryRepositories.SkipWrapsAround, QueryRepositories.PageAsWritten, QueryRepositories.PageWrapsToWholeResult, QueryRepositories.QueryRepository.GetByLambdaOrderedPageAsWritten, QueryRepositories.QueryRepository.GetAllOrderedPageAsWritten | QueryRepositories.GetItemsToSkip, QueryRepositories.Page, QueryRepositories.PagesAdjacent, QueryRepositories.QueryRepository.GetByLambdaOrderedPage, QueryRepositories.QueryRepository.GetAllOrderedPage |
