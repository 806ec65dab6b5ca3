/** The in-memory builder table (`MemoryRepositoryBuilderProvider`). Builders are stored
    under a runtime type. `SetBuilder` and `GetRepository` use the type
    `IRepositoryBuilder<TRepository>`, while `GetBuilder` looks under `TRepository`
    itself, a key nothing writes. */
module RepositoryBuilderProviders {
  import opened Wrappers
  import opened Runtime
  import opened RepositoryBuilders

  /** A dictionary key: `typeof(TRepository)` or `typeof(IRepositoryBuilder<TRepository>)`. */
  datatype TableKey = RepositoryType(repository: TypeKey) | BuilderType(repository: TypeKey)

  function CannotBuildRepository(repositoryName: string): Error
  {
    DataException("Can't build repository instance for type " + repositoryName)
  }

  function CannotBuildBuilder(repositoryName: string): Error
  {
    NullReferenceException("Can't build an instance from this repository type " + repositoryName)
  }

  /** `TryGetValue` followed by the cast `as IRepositoryBuilder<TRepository>`: a builder
      stored under `key` that builds `repository`, or null. */
  function Lookup(items: map<TableKey, MemoryRepositoryBuilder>, key: TableKey, repository: TypeKey): (r: Option<MemoryRepositoryBuilder>)
    ensures r.Some? <==> key in items && items[key].repository == repository
    ensures r.Some? ==> r.value == items[key]
  {
    if key in items && items[key].repository == repository then Some(items[key]) else None
  }

  class MemoryRepositoryBuilderProvider {
    var items: map<TableKey, MemoryRepositoryBuilder>
    var isConfigured: bool
    var disposedValue: bool

    /** Only `SetBuilder` writes the table, always under a builder-type key and with a
        builder for that repository. */
    ghost predicate Valid()
      reads this
    {
      forall k <- items :: k.BuilderType? && items[k].repository == k.repository
    }

    constructor ()
      ensures items == map[] && !isConfigured && !disposedValue && Valid()
    {
      items := map[];
      isConfigured := false;
      disposedValue := false;
    }

    method Configure()
      modifies this
      ensures isConfigured && items == old(items) && disposedValue == old(disposedValue)
    {
      isConfigured := true;
    }

    /** Stores or replaces the builder under `IRepositoryBuilder<TRepository>`. */
    method SetBuilder(repository: TypeKey, builder: MemoryRepositoryBuilder)
      requires builder.repository == repository
      requires Valid()
      modifies this
      ensures items == old(items)[BuilderType(repository) := builder]
      ensures isConfigured == old(isConfigured) && disposedValue == old(disposedValue)
      ensures Valid()
    {
      items := items[BuilderType(repository) := builder];
    }

    /** Builds from the stored builder with the given unit of work; without a suitable
        builder the repository cannot be built. The builder keeps the unit of work. */
    method GetRepository(repository: TypeKey, repositoryName: string, unitOfWork: UnitOfWorkRef, isRepository: TypeKey -> bool)
      returns (r: Result<RepositoryInstance>)
      modifies if BuilderType(repository) in items then {items[BuilderType(repository)]} else {}
      ensures var b := Lookup(items, BuilderType(repository), repository);
              && (b.None? ==> r == Err(CannotBuildRepository(repositoryName)))
              && (b.Some? ==> r == BuildOutcome(Some(unitOfWork), old(b.value.repositoryType), b.value.repositoryName, isRepository)
                              && b.value.unitOfWork == Some(unitOfWork)
                              && b.value.repositoryType == old(b.value.repositoryType))
    {
      var builder := Lookup(items, BuilderType(repository), repository);
      if builder.None? {
        return Err(CannotBuildRepository(repositoryName));
      }
      var b := builder.value.FromUnitOfWork(unitOfWork);
      r := b.Build(isRepository);
    }

    /** Looks under `TRepository` and throws when nothing suitable is stored there. */
    method GetBuilder(repository: TypeKey, repositoryName: string) returns (r: Result<MemoryRepositoryBuilder>)
      ensures var b := Lookup(items, RepositoryType(repository), repository);
              && (b.None? ==> r == Err(CannotBuildBuilder(repositoryName)))
              && (b.Some? ==> r == Ok(b.value))
      ensures Valid() ==> r == Err(CannotBuildBuilder(repositoryName))
    {
      var instance := Lookup(items, RepositoryType(repository), repository);
      if instance.None? {
        return Err(CannotBuildBuilder(repositoryName));
      }
      r := Ok(instance.value);
    }

    /** Returns `GetBuilder`'s builder. `GetBuilder` throws rather than return null, so
        the branch that would create and store a default builder never runs. */
    method FixDefaultBuilderIfNeeded(repository: TypeKey, repositoryName: string) returns (r: Result<MemoryRepositoryBuilder>)
      ensures var b := Lookup(items, RepositoryType(repository), repository);
              && (b.None? ==> r == Err(CannotBuildBuilder(repositoryName)))
              && (b.Some? ==> r == Ok(b.value))
      ensures Valid() ==> r == Err(CannotBuildBuilder(repositoryName))
    {
      r := GetBuilder(repository, repositoryName);
    }

    /** `Dispose()`: `Dispose(true)`. */
    method Dispose()
      modifies this
      ensures !old(disposedValue) ==> items == map[]
      ensures old(disposedValue) ==> items == old(items)
      ensures disposedValue && isConfigured == old(isConfigured)
    {
      DisposeCore(true);
    }

    /** `Dispose(disposing)`: the table is cleared only on the first call, and only when
        disposing. */
    method DisposeCore(disposing: bool)
      modifies this
      ensures !old(disposedValue) && disposing ==> items == map[]
      ensures old(disposedValue) || !disposing ==> items == old(items)
      ensures disposedValue && isConfigured == old(isConfigured)
    {
      if !disposedValue {
        if disposing {
          items := map[];
        }
        disposedValue := true;
      }
    }
  }

  /** A stored builder serves `GetRepository` but not `GetBuilder` or
      `FixDefaultBuilderIfNeeded`, because they read a different key. */
  method StoredBuilderIsNotFound(repository: TypeKey, implementation: TypeKey, u: UnitOfWorkRef)
    returns (built: Result<RepositoryInstance>, found: Result<MemoryRepositoryBuilder>, fixed: Result<MemoryRepositoryBuilder>)
    ensures built == Ok(RepositoryInstance(implementation, u))
    ensures found == Err(CannotBuildBuilder("IRepository"))
    ensures fixed == Err(CannotBuildBuilder("IRepository"))
  {
    var provider := new MemoryRepositoryBuilderProvider();
    var builder := new MemoryRepositoryBuilder(repository, "IRepository");
    var _ := builder.FixDefaultRepositoryIfNeeded(implementation);
    provider.SetBuilder(repository, builder);
    built := provider.GetRepository(repository, "IRepository", u, (t: TypeKey) => true);
    found := provider.GetBuilder(repository, "IRepository");
    fixed := provider.FixDefaultBuilderIfNeeded(repository, "IRepository");
  }

  /** After `Dispose` nothing can be built, and a second `Dispose` changes nothing. */
  method DisposeClearsOnce(repository: TypeKey, u: UnitOfWorkRef) returns (built: Result<RepositoryInstance>, entries: nat)
    ensures built == Err(CannotBuildRepository("IRepository"))
    ensures entries == 0
  {
    var provider := new MemoryRepositoryBuilderProvider();
    var builder := new MemoryRepositoryBuilder(repository, "IRepository");
    provider.SetBuilder(repository, builder);
    provider.Dispose();
    provider.Dispose();
    built := provider.GetRepository(repository, "IRepository", u, (t: TypeKey) => true);
    entries := |provider.items|;
  }
}
