/** The unit-of-work factory (`UnitOfWorkFactory`): a provider slot that starts with the
    in-memory provider and frozen. Unlike the IoC façade's slot, a successful write does
    not freeze it again, and `Frozen` is a plain read-write flag. The static class is
    one `UnitOfWorkFactory` object; the locks are left out. */
module UnitOfWorkFactories {
  import opened Wrappers
  import opened Runtime
  import opened RepositoryBuilders

  /** An `IUnitOfWorkProvider`, given by what its `Create` and `IsRegistered` answer for a
      unit-of-work type and an optional pattern name. */
  datatype UnitOfWorkProvider = UnitOfWorkProvider(
    id: nat,
    create: (TypeKey, Option<string>) -> Result<UnitOfWorkRef>,
    isRegistered: (TypeKey, Option<string>) -> bool)

  const ProviderFrozen: Error :=
    ReadOnlyException("The repository provider is frozen, you could unfreeze this object if needed and if it makes sense to your need.")

  class UnitOfWorkFactory {
    var provider: UnitOfWorkProvider
    var frozen: bool

    /** The static constructor, with the `MemoryUnitOfWorkProvider` it creates given. */
    constructor (memoryProvider: UnitOfWorkProvider)
      ensures provider == memoryProvider && frozen
    {
      provider := memoryProvider;
      frozen := true;
    }

    /** The `Provider` setter: refused while frozen; the flag is left as it is. */
    method SetProvider(value: UnitOfWorkProvider) returns (r: Outcome)
      modifies this
      ensures old(frozen) ==> r == Fail(ProviderFrozen) && provider == old(provider)
      ensures !old(frozen) ==> r == Pass && provider == value
      ensures frozen == old(frozen)
    {
      if frozen {
        return Fail(ProviderFrozen);
      }
      provider := value;
      r := Pass;
    }

    method SetFrozen(value: bool)
      modifies this
      ensures frozen == value && provider == old(provider)
    {
      frozen := value;
    }

    /** `Create<TUnitOfWork>()` and `Create<TUnitOfWork>(unitOfWorkName)`, with `None`
        for the overload without a name: answered by the current provider. */
    method Create(unitOfWork: TypeKey, unitOfWorkName: Option<string>) returns (r: Result<UnitOfWorkRef>)
      ensures r == provider.create(unitOfWork, unitOfWorkName)
    {
      r := provider.create(unitOfWork, unitOfWorkName);
    }

    /** Both `IsRegistered` overloads, answered by the current provider. */
    method IsRegistered(unitOfWork: TypeKey, unitOfWorkName: Option<string>) returns (r: bool)
      ensures r == provider.isRegistered(unitOfWork, unitOfWorkName)
    {
      r := provider.isRegistered(unitOfWork, unitOfWorkName);
    }
  }

  /** Out of the box the factory refuses a new provider; once unfrozen it accepts any
      number of them, `Frozen` reads back false throughout, and `Create` and
      `IsRegistered` follow the last provider installed. */
  method ReplaceProviders(memory: UnitOfWorkProvider, p: UnitOfWorkProvider, q: UnitOfWorkProvider,
                          kind: TypeKey, name: Option<string>)
    returns (refused: Outcome, kept: UnitOfWorkProvider, first: Outcome, second: Outcome, frozenAfter: bool,
             created: Result<UnitOfWorkRef>, registered: bool)
    ensures refused == Fail(ProviderFrozen) && kept == memory
    ensures first == Pass && second == Pass && !frozenAfter
    ensures created == q.create(kind, name) && registered == q.isRegistered(kind, name)
  {
    var factory := new UnitOfWorkFactory(memory);
    refused := factory.SetProvider(p);
    kept := factory.provider;
    factory.SetFrozen(false);
    first := factory.SetProvider(p);
    second := factory.SetProvider(q);
    frozenAfter := factory.frozen;
    created := factory.Create(kind, name);
    registered := factory.IsRegistered(kind, name);
  }

  /** Freezing again closes the slot: the provider installed before stays. */
  method Refreeze(memory: UnitOfWorkProvider, p: UnitOfWorkProvider, q: UnitOfWorkProvider)
    returns (accepted: Outcome, refused: Outcome, installed: UnitOfWorkProvider)
    ensures accepted == Pass && refused == Fail(ProviderFrozen) && installed == p
  {
    var factory := new UnitOfWorkFactory(memory);
    factory.SetFrozen(false);
    accepted := factory.SetProvider(p);
    factory.SetFrozen(true);
    refused := factory.SetProvider(q);
    installed := factory.provider;
  }
}
