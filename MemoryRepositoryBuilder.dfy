/** The in-memory repository builder (`MemoryRepositoryBuilder<TRepository>`). It records a
    unit of work and an implementation type, and `Build` constructs that type with the
    unit of work. Types are `TypeKey`s; whether an instance of a type is a `TRepository`
    (the `as TRepository` cast) is a parameter of `Build`, and the type's name is the
    builder's `repositoryName`. */
module RepositoryBuilders {
  import opened Wrappers
  import opened Runtime

  /** A unit of work, by identity. */
  datatype UnitOfWorkRef = UnitOfWorkRef(id: nat)

  /** A repository object: its runtime type and the unit of work it was constructed with. */
  datatype RepositoryInstance = RepositoryInstance(implementation: TypeKey, unitOfWork: UnitOfWorkRef)

  function NoUnitOfWork(repositoryName: string): Error
  {
    DataException("A unit of work is necessary to build this repository type " + repositoryName + "!")
  }

  function NoRepositoryType(repositoryName: string): Error
  {
    DataException("A repository type is necessary to build this repository type " + repositoryName + "!")
  }

  function NotARepository(repositoryName: string): Error
  {
    DataException("Can't build a repository instance for this type " + repositoryName + "!")
  }

  /** What `Build` does with the builder's state: the unit of work is checked first, then
      the type; the type is constructed with the unit of work as its only argument, and
      a result that is not a `TRepository` fails. */
  function BuildOutcome(unitOfWork: Option<UnitOfWorkRef>, repositoryType: Option<TypeKey>, repositoryName: string,
                        isRepository: TypeKey -> bool): (r: Result<RepositoryInstance>)
    ensures unitOfWork.None? ==> r == Err(NoUnitOfWork(repositoryName))
    ensures unitOfWork.Some? && repositoryType.None? ==> r == Err(NoRepositoryType(repositoryName))
    ensures unitOfWork.Some? && repositoryType.Some? && !isRepository(repositoryType.value) ==> r == Err(NotARepository(repositoryName))
    ensures r.Ok? <==> unitOfWork.Some? && repositoryType.Some? && isRepository(repositoryType.value)
    ensures r.Ok? ==> r.value == RepositoryInstance(repositoryType.value, unitOfWork.value)
  {
    if unitOfWork.None? then Err(NoUnitOfWork(repositoryName))
    else if repositoryType.None? then Err(NoRepositoryType(repositoryName))
    else if !isRepository(repositoryType.value) then Err(NotARepository(repositoryName))
    else Ok(RepositoryInstance(repositoryType.value, unitOfWork.value))
  }

  class MemoryRepositoryBuilder {
    /** `TRepository`: the repository interface this builder builds, and its name. */
    const repository: TypeKey
    const repositoryName: string
    var unitOfWork: Option<UnitOfWorkRef>
    var repositoryType: Option<TypeKey>

    constructor (repository: TypeKey, repositoryName: string)
      ensures this.repository == repository && this.repositoryName == repositoryName
      ensures unitOfWork.None? && repositoryType.None?
    {
      this.repository := repository;
      this.repositoryName := repositoryName;
      unitOfWork := None;
      repositoryType := None;
    }

    /** Records the unit of work; the fluent result is this builder. */
    method FromUnitOfWork(unitOfWork: UnitOfWorkRef) returns (r: MemoryRepositoryBuilder)
      modifies this
      ensures r == this
      ensures this.unitOfWork == Some(unitOfWork) && repositoryType == old(repositoryType)
    {
      this.unitOfWork := Some(unitOfWork);
      r := this;
    }

    /** Records the implementation type, replacing any earlier one despite the name. */
    method FixDefaultRepositoryIfNeeded(implementation: TypeKey) returns (r: MemoryRepositoryBuilder)
      modifies this
      ensures r == this
      ensures repositoryType == Some(implementation) && unitOfWork == old(unitOfWork)
    {
      repositoryType := Some(implementation);
      r := this;
    }

    method Build(isRepository: TypeKey -> bool) returns (r: Result<RepositoryInstance>)
      ensures r == BuildOutcome(unitOfWork, repositoryType, repositoryName, isRepository)
    {
      if unitOfWork.None? {
        return Err(NoUnitOfWork(repositoryName));
      }
      if repositoryType.None? {
        return Err(NoRepositoryType(repositoryName));
      }
      var instance := if isRepository(repositoryType.value)
                      then Some(RepositoryInstance(repositoryType.value, unitOfWork.value))
                      else None;
      if instance.None? {
        return Err(NotARepository(repositoryName));
      }
      r := Ok(instance.value);
    }
  }

  /** The fluent chain in either order builds the last implementation type fixed with
      the last unit of work given; a fresh builder fails on the unit of work first. */
  method FluentBuild(repository: TypeKey, first: TypeKey, second: TypeKey, u: UnitOfWorkRef)
    returns (initial: Result<RepositoryInstance>, typeOnly: Result<RepositoryInstance>, built: Result<RepositoryInstance>)
    ensures initial == Err(NoUnitOfWork("IRepository"))
    ensures typeOnly == Err(NoUnitOfWork("IRepository"))
    ensures built == Ok(RepositoryInstance(second, u))
  {
    var b := new MemoryRepositoryBuilder(repository, "IRepository");
    var isRepository := (t: TypeKey) => true;
    initial := b.Build(isRepository);
    var _ := b.FixDefaultRepositoryIfNeeded(first);
    typeOnly := b.Build(isRepository);
    var _ := b.FixDefaultRepositoryIfNeeded(second);
    var _ := b.FromUnitOfWork(u);
    built := b.Build(isRepository);
  }
}
