/** The read-only repository base (`QueryRepositoryBase<TEntity>`): counting, ordering and
    paging over the entities its abstract queries return. `GetAll()` is the repository's
    `all` sequence and `GetByLambda(p)` the entities of it satisfying `p`; a join path
    only hydrates related entities, so it does not change which entities come back.
    `OrderBy` is executed by the query provider and is a parameter here. */
module QueryRepositories {
  import opened Wrappers
  import opened Seqs

  const Int32Min: int := -0x8000_0000
  const Int32Max: int := 0x7FFF_FFFF

  newtype Int32 = x: int | -0x8000_0000 <= x < 0x8000_0000

  /** Two's-complement truncation to 32 bits, as unchecked C# arithmetic does. */
  function Wrap32(x: int): (r: Int32)
    ensures Int32Min <= x <= Int32Max ==> r as int == x
    ensures (r as int - x) % 0x1_0000_0000 == 0
  {
    var m := x % 0x1_0000_0000;
    (if m > Int32Max then m - 0x1_0000_0000 else m) as Int32
  }

  const BadPage: Error := ArgumentExceptionFor("Starting page for paging must start by 1", "selectedPage")
  const BadPageSize: Error := ArgumentExceptionFor("Page size must be greater than 0", "pageSize")

  /** `GetItemsToSkip` as written: the product is computed in 32-bit `int`, unchecked,
      so a large page wraps around (see `SkipWrapsAround`). */
  function GetItemsToSkipAsWritten(selectedPage: Int32, pageSize: Int32): (r: Result<Int32>)
    ensures selectedPage < 1 ==> r == Err(BadPage)
    ensures selectedPage >= 1 && pageSize <= 0 ==> r == Err(BadPageSize)
    ensures selectedPage >= 1 && pageSize > 0 ==> r.Ok?
    ensures r.Ok? && (selectedPage as int - 1) * pageSize as int <= Int32Max ==>
              r.value as int == (selectedPage as int - 1) * pageSize as int
  {
    if !(selectedPage >= 1) then Err(BadPage)
    else if !(pageSize > 0) then Err(BadPageSize)
    else Ok(Wrap32((selectedPage as int - 1) * pageSize as int))
  }

  /** Page 65537 of pages of 65536 entities skips nothing as written: the product 2^32
      wraps to 0, so the query returns the first page again. */
  lemma SkipWrapsAround()
    ensures GetItemsToSkipAsWritten(65537, 65536) == Ok(0)
    ensures GetItemsToSkip(65537, 65536) == Ok(0x1_0000_0000)
  {
  }

  /** `GetItemsToSkip` as intended: the same checks, in the same order, and the exact
      number of entities on the pages before the selected one. */
  function GetItemsToSkip(selectedPage: Int32, pageSize: Int32): (r: Result<nat>)
    ensures selectedPage < 1 ==> r == Err(BadPage)
    ensures selectedPage >= 1 && pageSize <= 0 ==> r == Err(BadPageSize)
    ensures selectedPage >= 1 && pageSize > 0 ==> r.Ok? && r.value == (selectedPage as int - 1) * pageSize as int
    ensures r.Ok? && selectedPage == 1 ==> r.value == 0
  {
    if !(selectedPage >= 1) then Err(BadPage)
    else if !(pageSize > 0) then Err(BadPageSize)
    else Ok((selectedPage as int - 1) * pageSize as int)
  }

  /** The two agree whenever the product fits in 32 bits. */
  lemma SkipAgreesWhenSmall(selectedPage: Int32, pageSize: Int32)
    requires GetItemsToSkip(selectedPage, pageSize).Ok?
    requires GetItemsToSkip(selectedPage, pageSize).value <= Int32Max
    ensures GetItemsToSkipAsWritten(selectedPage, pageSize).value as int == GetItemsToSkip(selectedPage, pageSize).value
  {
  }

  /** LINQ `Skip`: a count at or below 0 skips nothing, one beyond the end leaves none. */
  function Skip<T>(s: seq<T>, n: int): (r: seq<T>)
    ensures n <= 0 ==> r == s
    ensures 0 <= n <= |s| ==> r == s[n..]
    ensures n >= |s| ==> r == []
  {
    if n <= 0 then s else if n >= |s| then [] else s[n..]
  }

  /** LINQ `Take`. */
  function Take<T>(s: seq<T>, n: int): (r: seq<T>)
    ensures n <= 0 ==> r == []
    ensures 0 <= n <= |s| ==> r == s[..n]
    ensures n >= |s| ==> r == s
  {
    if n <= 0 then [] else if n >= |s| then s else s[..n]
  }

  function Min(a: int, b: int): int
  {
    if a <= b then a else b
  }

  /** The selected page of an ordered result: `Skip(itemsToSkip).Take(pageSize)`; the
      checks run before the query is composed. */
  function Page<T>(ordered: seq<T>, selectedPage: Int32, pageSize: Int32): (r: Result<seq<T>>)
    ensures r.Err? <==> GetItemsToSkip(selectedPage, pageSize).Err?
    ensures r.Err? ==> r.error == GetItemsToSkip(selectedPage, pageSize).error
    ensures r.Ok? ==> |r.value| <= pageSize as int
  {
    var skip :- GetItemsToSkip(selectedPage, pageSize);
    Ok(Take(Skip(ordered, skip), pageSize as int))
  }

  /** The selected page as written: the query is composed with the wrapped 32-bit skip
      count, and `Skip` treats a negative count as 0. */
  function PageAsWritten<T>(ordered: seq<T>, selectedPage: Int32, pageSize: Int32): (r: Result<seq<T>>)
    ensures r.Err? <==> GetItemsToSkipAsWritten(selectedPage, pageSize).Err?
    ensures r.Err? ==> r.error == GetItemsToSkipAsWritten(selectedPage, pageSize).error
    ensures r.Ok? ==> |r.value| <= pageSize as int
    ensures r.Ok? ==> r.value == Take(Skip(ordered, GetItemsToSkipAsWritten(selectedPage, pageSize).value as int), pageSize as int)
    ensures r.Ok? && GetItemsToSkipAsWritten(selectedPage, pageSize).value < 0 ==>
              r.value == Take(ordered, pageSize as int)
  {
    var skip :- GetItemsToSkipAsWritten(selectedPage, pageSize);
    Ok(Take(Skip(ordered, skip as int), pageSize as int))
  }

  /** The written and the intended pages agree whenever the skip count fits in 32 bits. */
  lemma PageAgreesWhenSmall<T>(ordered: seq<T>, selectedPage: Int32, pageSize: Int32)
    requires selectedPage < 1 || pageSize <= 0 || (selectedPage as int - 1) * pageSize as int <= Int32Max
    ensures PageAsWritten(ordered, selectedPage, pageSize) == Page(ordered, selectedPage, pageSize)
  {
    if selectedPage >= 1 && pageSize > 0 {
      SkipAgreesWhenSmall(selectedPage, pageSize);
    }
  }

  /** Page 40000 of pages of 60000 over 10 entities: the skip count 2399940000 wraps to
      a negative number, so as written the query shows all 10 entities, where the
      intended page is empty. */
  lemma PageWrapsToWholeResult<T>(ordered: seq<T>)
    requires |ordered| == 10
    ensures PageAsWritten(ordered, 40000, 60000) == Ok(ordered)
    ensures Page(ordered, 40000, 60000) == Ok([])
  {
    assert GetItemsToSkipAsWritten(40000, 60000) == Ok(-1895027296);
  }

  /** A page is the slice of the ordered result between the items skipped and one page
      further, cut at the end. */
  lemma PageIsSlice<T>(ordered: seq<T>, selectedPage: Int32, pageSize: Int32)
    requires selectedPage >= 1 && pageSize > 0
    ensures var lo := Min((selectedPage as int - 1) * pageSize as int, |ordered|);
            var hi := Min(selectedPage as int * pageSize as int, |ordered|);
            Page(ordered, selectedPage, pageSize) == Ok(ordered[lo..hi])
  {
    var skip := (selectedPage as int - 1) * pageSize as int;
    var size := pageSize as int;
    assert selectedPage as int * size == skip + size;
    assert GetItemsToSkip(selectedPage, pageSize) == Ok(skip);
    assert Page(ordered, selectedPage, pageSize) == Ok(Take(Skip(ordered, skip), size));
    if skip < |ordered| {
      var rest := ordered[skip..];
      if size < |rest| {
        assert rest[..size] == ordered[skip..skip + size];
      } else {
        assert Take(rest, size) == ordered[skip..|ordered|];
      }
    } else {
      assert Min(skip, |ordered|) == |ordered| == Min(skip + size, |ordered|);
      assert ordered[|ordered|..|ordered|] == [];
    }
  }

  /** Pages `p` and `p + 1` are adjacent slices: together they are the slice from the
      start of `p` to the end of `p + 1`, and they share no position. */
  lemma PagesAdjacent<T>(ordered: seq<T>, p: Int32, pageSize: Int32)
    requires 1 <= p < 0x7FFF_FFFF && pageSize > 0
    ensures Page(ordered, p, pageSize).Ok? && Page(ordered, p + 1, pageSize).Ok?
    ensures var lo := Min((p as int - 1) * pageSize as int, |ordered|);
            var hi := Min((p as int + 1) * pageSize as int, |ordered|);
            Page(ordered, p, pageSize).value + Page(ordered, p + 1, pageSize).value == ordered[lo..hi]
  {
    PageIsSlice(ordered, p, pageSize);
    PageIsSlice(ordered, p + 1, pageSize);
    var lo := Min((p as int - 1) * pageSize as int, |ordered|);
    var mid := Min(p as int * pageSize as int, |ordered|);
    var hi := Min((p as int + 1) * pageSize as int, |ordered|);
    assert (p + 1) as int - 1 == p as int;
    assert (p as int + 1) * pageSize as int == p as int * pageSize as int + pageSize as int;
    assert (p as int - 1) * pageSize as int <= p as int * pageSize as int;
    assert ordered[lo..mid] + ordered[mid..hi] == ordered[lo..hi];
  }

  /** A repository over its entities. */
  datatype QueryRepository<T> = QueryRepository(all: seq<T>) {
    function GetAll(): seq<T>
    {
      all
    }

    function GetByLambda(pred: T -> bool): seq<T>
    {
      Filter(all, pred)
    }

    /** `Count()`: the number of entities `GetAll()` returns. */
    function Count(): (n: nat)
      ensures n == |GetAll()|
    {
      |GetAll()|
    }

    /** `Count(predicate)`: the number of matching entities. */
    function CountWhere(pred: T -> bool): (n: nat)
      ensures n == |GetByLambda(pred)|
      ensures n <= Count()
    {
      |GetByLambda(pred)|
    }

    /** `GetByLambdaOrdered(predicate, orderBy, selectedPage, pageSize)`: the page
        checks fail first; otherwise the slice of the ordered matches that the page
        covers. */
    function GetByLambdaOrderedPage(pred: T -> bool, orderBy: seq<T> -> seq<T>, selectedPage: Int32, pageSize: Int32): (r: Result<seq<T>>)
      ensures r.Err? <==> selectedPage < 1 || pageSize <= 0
      ensures r.Err? ==> r.error == if selectedPage < 1 then BadPage else BadPageSize
      ensures r.Ok? ==> var ordered := orderBy(GetByLambda(pred));
                        r.value == ordered[Min((selectedPage as int - 1) * pageSize as int, |ordered|)..Min(selectedPage as int * pageSize as int, |ordered|)]
    {
      if selectedPage >= 1 && pageSize > 0 then
        PageIsSlice(orderBy(GetByLambda(pred)), selectedPage, pageSize);
        Page(orderBy(GetByLambda(pred)), selectedPage, pageSize)
      else Page(orderBy(GetByLambda(pred)), selectedPage, pageSize)
    }

    /** `GetByLambdaOrdered(predicate, orderBy, selectedPage, pageSize)` as written, over
        the wrapped skip count: the same checks; the intended page whenever the count
        fits in 32 bits; the first page when it wraps below 0. */
    function GetByLambdaOrderedPageAsWritten(pred: T -> bool, orderBy: seq<T> -> seq<T>, selectedPage: Int32, pageSize: Int32): (r: Result<seq<T>>)
      ensures r.Err? <==> selectedPage < 1 || pageSize <= 0
      ensures r.Err? ==> r.error == if selectedPage < 1 then BadPage else BadPageSize
      ensures r.Ok? && (selectedPage as int - 1) * pageSize as int <= Int32Max ==>
                r == GetByLambdaOrderedPage(pred, orderBy, selectedPage, pageSize)
      ensures r.Ok? ==>
                r.value == Take(Skip(orderBy(GetByLambda(pred)), GetItemsToSkipAsWritten(selectedPage, pageSize).value as int), pageSize as int)
      ensures r.Ok? && GetItemsToSkipAsWritten(selectedPage, pageSize).value < 0 ==>
                r.value == Take(orderBy(GetByLambda(pred)), pageSize as int)
    {
      if (selectedPage as int - 1) * pageSize as int <= Int32Max then
        PageAgreesWhenSmall(orderBy(GetByLambda(pred)), selectedPage, pageSize);
        PageAsWritten(orderBy(GetByLambda(pred)), selectedPage, pageSize)
      else PageAsWritten(orderBy(GetByLambda(pred)), selectedPage, pageSize)
    }

    /** `GetAllOrdered(orderBy, selectedPage, pageSize)` as written, likewise over every
        entity. */
    function GetAllOrderedPageAsWritten(orderBy: seq<T> -> seq<T>, selectedPage: Int32, pageSize: Int32): (r: Result<seq<T>>)
      ensures r.Err? <==> selectedPage < 1 || pageSize <= 0
      ensures r.Err? ==> r.error == if selectedPage < 1 then BadPage else BadPageSize
      ensures r.Ok? && (selectedPage as int - 1) * pageSize as int <= Int32Max ==>
                r == GetAllOrderedPage(orderBy, selectedPage, pageSize)
      ensures r.Ok? ==>
                r.value == Take(Skip(orderBy(GetAll()), GetItemsToSkipAsWritten(selectedPage, pageSize).value as int), pageSize as int)
      ensures r.Ok? && GetItemsToSkipAsWritten(selectedPage, pageSize).value < 0 ==>
                r.value == Take(orderBy(GetAll()), pageSize as int)
    {
      if (selectedPage as int - 1) * pageSize as int <= Int32Max then
        PageAgreesWhenSmall(orderBy(GetAll()), selectedPage, pageSize);
        PageAsWritten(orderBy(GetAll()), selectedPage, pageSize)
      else PageAsWritten(orderBy(GetAll()), selectedPage, pageSize)
    }

    /** `GetAllOrdered(orderBy, selectedPage, pageSize)`, likewise over every entity. */
    function GetAllOrderedPage(orderBy: seq<T> -> seq<T>, selectedPage: Int32, pageSize: Int32): (r: Result<seq<T>>)
      ensures r.Err? <==> selectedPage < 1 || pageSize <= 0
      ensures r.Err? ==> r.error == if selectedPage < 1 then BadPage else BadPageSize
      ensures r.Ok? ==> var ordered := orderBy(GetAll());
                        r.value == ordered[Min((selectedPage as int - 1) * pageSize as int, |ordered|)..Min(selectedPage as int * pageSize as int, |ordered|)]
    {
      if selectedPage >= 1 && pageSize > 0 then
        PageIsSlice(orderBy(GetAll()), selectedPage, pageSize);
        Page(orderBy(GetAll()), selectedPage, pageSize)
      else Page(orderBy(GetAll()), selectedPage, pageSize)
    }
  }

  /** Counting everything with an always-true predicate is `Count()`, and a predicate
      nothing satisfies counts 0. */
  lemma {:induction false} CountWhereExtremes<T>(all: seq<T>)
    ensures QueryRepository(all).CountWhere((_: T) => true) == QueryRepository(all).Count()
    ensures QueryRepository(all).CountWhere((_: T) => false) == 0
    decreases all
  {
    if all != [] {
      CountWhereExtremes(all[1..]);
    }
  }
}
