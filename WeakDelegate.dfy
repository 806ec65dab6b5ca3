/** A delegate whose target is held weakly (`WeakDelegate`): it stores the method, the
    delegate type and a weak reference to the target, all fixed at construction, and
    rebuilds a callable delegate on demand while the target lives. */
module WeakDelegates {
  import opened Wrappers
  import opened Runtime

  /** The three stored parts. Being a value, a `WeakDelegate` never changes after
      construction; only the liveness of the referenced object can. */
  datatype WeakDelegate = WeakDelegate(delegateType: TypeKey, methodInfo: MethodInfo, targetRef: WeakRef) {

    /** The target while it lives; null once it is reclaimed or for a static method. */
    function Target(): (r: Referent?)
      reads targetRef.Footprint()
      ensures r == null <==> !targetRef.IsAlive()
      ensures r != null ==> r == targetRef.target && r.alive
    {
      if !targetRef.IsAlive() then null else targetRef.target
    }

    /** A delegate to invoke, or None once the instance method's target is gone. */
    function GetDelegate(): (r: Option<Delegate>)
      reads targetRef.Footprint()
      ensures methodInfo.isStatic ==> r == Some(Delegate(null, methodInfo, delegateType))
      ensures !methodInfo.isStatic ==> (r.Some? <==> targetRef.IsAlive())
      ensures r.Some? ==> r.value.methodInfo == methodInfo && r.value.delegateType == delegateType
      ensures r.Some? && !methodInfo.isStatic ==> r.value.target == targetRef.target && r.value.target.alive
    {
      if methodInfo.isStatic then Some(Delegate(null, methodInfo, delegateType))
      else if Target() != null then Some(Delegate(targetRef.target, methodInfo, delegateType))
      else None
    }
  }

  /** `WeakDelegate(item, target)`: a null delegate is rejected; otherwise the method and
      the delegate type come from `item` and the target is the one given. */
  function NewWithTarget(item: Option<Delegate>, target: Referent?): (r: Result<WeakDelegate>)
    ensures item.None? <==> r == Err(ArgumentNullException(Some("item")))
    ensures item.Some? ==> r.Ok? && r.value.methodInfo == item.value.methodInfo
                             && r.value.delegateType == item.value.delegateType
                             && r.value.targetRef == WeakRef(target)
  {
    match item
    case None => Err(ArgumentNullException(Some("item")))
    case Some(d) => Ok(WeakDelegate(d.delegateType, d.methodInfo, WeakRef(target)))
  }

  /** `WeakDelegate(item)`: the target is the delegate's own. The constructor chain reads
      `item.Target` before the null check runs, so a null delegate fails with a
      `NullReferenceException` rather than an `ArgumentNullException`. */
  function New(item: Option<Delegate>): (r: Result<WeakDelegate>)
    ensures item.None? <==> r == Err(NullDereference)
    ensures item.Some? ==> r == NewWithTarget(item, item.value.target)
  {
    match item
    case None => Err(NullDereference)
    case Some(d) => NewWithTarget(item, d.target)
  }

  /** A delegate is ordinary when it is bound to an object exactly when its method is an
      instance method. */
  predicate Ordinary(d: Delegate)
  {
    d.methodInfo.isStatic <==> d.target == null
  }

  /** Round trip: an ordinary delegate wrapped and rebuilt while its target lives is the
      same delegate. */
  lemma RebuildWhileAlive(d: Delegate)
    requires Ordinary(d)
    requires d.target != null ==> d.target.alive
    ensures New(Some(d)).Ok? && New(Some(d)).value.GetDelegate() == Some(d)
  {
  }

  /** Once the target is reclaimed, an instance method cannot be rebuilt, while a static
      method always can, whatever object lifetimes are. */
  lemma ReclaimedTargetGivesNone(w: WeakDelegate)
    requires w.targetRef.target != null && !w.targetRef.target.alive
    ensures w.Target() == null
    ensures w.GetDelegate().None? <==> !w.methodInfo.isStatic
  {
  }

  /** Construct, rebuild, reclaim, rebuild again: the first rebuild gives the original
      delegate back, the second gives nothing. */
  method RebuildThenReclaim(m: MethodInfo, t: TypeKey) returns (before: Option<Delegate>, after: Option<Delegate>, receiver: Referent)
    requires !m.isStatic
    ensures before == Some(Delegate(receiver, m, t))
    ensures after == None
  {
    receiver := new Referent();
    var built := New(Some(Delegate(receiver, m, t)));
    var w := built.value;
    before := w.GetDelegate();
    receiver.Collect();
    after := w.GetDelegate();
  }
}
