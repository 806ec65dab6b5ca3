/** The runtime pieces the core relies on: objects whose lifetime the garbage collector
    decides, weak references to them, method descriptors and delegates. */
module Runtime {

  /** An object that may be reclaimed. Only the environment (the collector) flips `alive`,
      and only from true to false, through `Collect`. */
  class Referent {
    var alive: bool

    constructor ()
      ensures alive
    {
      alive := true;
    }

    /** The collector reclaims this object: it never comes back. */
    method Collect()
      modifies this
      ensures !alive
    {
      alive := false;
    }
  }

  /** A weak reference: it does not keep `target` alive. `WeakRef(null)` is never alive. */
  datatype WeakRef = WeakRef(target: Referent?) {

    function Footprint(): set<object>
    {
      if target == null then {} else {target}
    }

    predicate IsAlive()
      reads Footprint()
    {
      target != null && target.alive
    }

    /** The referenced object while it lives, null once it is reclaimed. */
    function Target(): (r: Referent?)
      reads Footprint()
      ensures r != null <==> IsAlive()
      ensures r != null ==> r == target
    {
      if IsAlive() then target else null
    }
  }

  /** A method descriptor, compared by identity (`id`). */
  datatype MethodInfo = MethodInfo(id: nat, isStatic: bool)

  /** A delegate: a method, the object it is bound to (null for a static method) and
      the delegate's own runtime type. */
  datatype Delegate = Delegate(target: Referent?, methodInfo: MethodInfo, delegateType: TypeKey)

  /** A runtime type, used as a dictionary key and as a delegate type. */
  datatype TypeKey = TypeKey(id: nat)
}
