/** The provider slot of the IoC façade (`IoCHelper`), a set-then-freeze pattern: the
    static class is one `IoCHelper` object whose fields are its static state. Reading an
    empty slot throws; writing it while frozen throws and changes nothing; a successful
    write freezes the slot again. */
module IoCHelpers {
  import opened Wrappers

  /** An `IIoCProvider` as the façade sees it: a flag that `Configure` sets. */
  class IoCProvider {
    var isConfigured: bool

    constructor ()
      ensures !isConfigured
    {
      isConfigured := false;
    }

    method Configure()
      modifies this
      ensures isConfigured
    {
      isConfigured := true;
    }
  }

  const NoProvider: Error := NullReferenceException("An IoC provider is necessary!")
  const ProviderFrozen: Error :=
    ReadOnlyException("The IoC provider is frozen, you could unfreeze this object if needed and if it makes sense to your need.")

  class IoCHelper {
    var provider: Option<IoCProvider>
    var frozen: bool

    /** The static constructor: no provider, not frozen. */
    constructor ()
      ensures provider.None? && !frozen
    {
      provider := None;
      frozen := false;
    }

    /** The `Provider` getter. */
    method GetProvider() returns (r: Result<IoCProvider>)
      ensures provider.None? ==> r == Err(NoProvider)
      ensures provider.Some? ==> r == Ok(provider.value)
    {
      if provider.None? {
        return Err(NoProvider);
      }
      r := Ok(provider.value);
    }

    /** The `Provider` setter: refused while frozen, otherwise installs and freezes. */
    method SetProvider(value: IoCProvider) returns (r: Outcome)
      modifies this
      ensures old(frozen) ==> r == Fail(ProviderFrozen) && provider == old(provider) && frozen
      ensures !old(frozen) ==> r == Pass && provider == Some(value) && frozen
    {
      if frozen {
        return Fail(ProviderFrozen);
      }
      provider := Some(value);
      frozen := true;
      r := Pass;
    }

    /** The auto-property `Frozen`'s setter. */
    method SetFrozen(value: bool)
      modifies this
      ensures frozen == value && provider == old(provider)
    {
      frozen := value;
    }

    /** `Configure()`: configures the installed provider, which must exist. */
    method ConfigureInstalled() returns (r: Outcome)
      modifies if provider.Some? then {provider.value} else {}
      ensures old(provider).None? ==> r == Fail(NoProvider)
      ensures old(provider).Some? ==> r == Pass && provider.value.isConfigured
    {
      var installed := GetProvider();
      if installed.Err? {
        return Fail(installed.error);
      }
      installed.value.Configure();
      r := Pass;
    }

    /** `Configure(provider)`: the provider is configured first and installed after, so
        a frozen slot leaves it configured but not installed. */
    method Configure(value: IoCProvider) returns (r: Outcome)
      modifies this, value
      ensures value.isConfigured
      ensures old(frozen) ==> r == Fail(ProviderFrozen) && provider == old(provider) && frozen
      ensures !old(frozen) ==> r == Pass && provider == Some(value) && frozen
    {
      value.Configure();
      r := SetProvider(value);
    }

    /** `IsConfigured()`: an installed provider that says it is configured. */
    predicate IsConfigured(): (r: bool)
      reads this, if provider.Some? then {provider.value} else {}
      ensures provider.None? ==> !r
      ensures provider.Some? ==> (r <==> provider.value.isConfigured)
    {
      provider.Some? && provider.value.isConfigured
    }
  }

  /** The slot's life cycle: empty at first, the first write succeeds and freezes, the
      next is refused, and clearing `Frozen` lets exactly one more write through. */
  method FreezeLifecycle() returns (empty: Result<IoCProvider>, first: Outcome, second: Outcome,
                                     afterUnfreeze: Outcome, again: Outcome, installedIsFirst: bool, installedIsThird: bool)
    ensures empty == Err(NoProvider)
    ensures first == Pass && second == Fail(ProviderFrozen)
    ensures afterUnfreeze == Pass && again == Fail(ProviderFrozen)
    ensures installedIsFirst && installedIsThird
  {
    var helper := new IoCHelper();
    var a := new IoCProvider();
    var b := new IoCProvider();
    var c := new IoCProvider();
    var d := new IoCProvider();
    empty := helper.GetProvider();
    first := helper.SetProvider(a);
    second := helper.SetProvider(b);
    installedIsFirst := helper.provider == Some(a);
    helper.SetFrozen(false);
    afterUnfreeze := helper.SetProvider(c);
    again := helper.SetProvider(d);
    installedIsThird := helper.provider == Some(c);
  }

  /** `IsConfigured` is false without a provider and follows the installed provider's
      flag; `Configure(provider)` on a frozen slot configures a provider that is then not
      the one installed. */
  method ConfiguredScenario() returns (before: bool, installedUnconfigured: bool, afterConfigure: bool,
                                        refused: Outcome, rejectedConfigured: bool, stillFirst: bool)
    ensures !before && !installedUnconfigured && afterConfigure
    ensures refused == Fail(ProviderFrozen) && rejectedConfigured && stillFirst
  {
    var helper := new IoCHelper();
    before := helper.IsConfigured();
    var a := new IoCProvider();
    var _ := helper.SetProvider(a);
    installedUnconfigured := helper.IsConfigured();
    var _ := helper.ConfigureInstalled();
    afterConfigure := helper.IsConfigured();
    var b := new IoCProvider();
    refused := helper.Configure(b);
    rejectedConfigured := b.isConfigured;
    stillFirst := helper.provider == Some(a);
  }
}
