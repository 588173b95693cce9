/**
 Pagination (src/query.rs) and the pages an agent's `list` answers
 (src/lymaille/resource_module.rs over src/rest/core.rs).
 */
module Listing {
  import opened Wrappers
  import opened JsonValues
  import opened Rbac
  import opened RestCore

  const DEFAULT_PER_PAGE: u64 := 100
  const MAX_PER_PAGE: u64 := 1000
  const MAX_PAGE: u64 := U64_MAX / MAX_PER_PAGE
  const LLM_DEFAULT_PER_PAGE: u64 := 20
  const LLM_MAX_PER_PAGE: u64 := 50

  type u64 = n: int | 0 <= n <= U64_MAX

  datatype Pagination = Pagination(page: u64, perPage: u64)

  function Min(a: int, b: int): int { if a < b then a else b }

  function OrElse(n: Option<u64>, otherwise: u64): u64
  {
    if n.Some? then n.value else otherwise
  }

  function Clamp(n: u64, low: u64, high: u64): u64
  {
    if n < low then low else if n > high then high else n
  }

  function FromRaw(page: Option<u64>, perPage: Option<u64>): Pagination
  {
    Pagination(Clamp(OrElse(page, 1), 1, MAX_PAGE), Clamp(OrElse(perPage, DEFAULT_PER_PAGE), 1, MAX_PER_PAGE))
  }

  /** `u64::try_from` on a script's number; a negative one reads as absent. */
  function FromSigned(n: i64): Option<u64>
  {
    if n < 0 then None else Some(n)
  }

  /** What the agents' `list` hands on. */
  function AgentPagination(page: i64, perPage: i64): Pagination
  {
    var p := FromRaw(FromSigned(page), Some(OrElse(FromSigned(perPage), LLM_DEFAULT_PER_PAGE)));
    Pagination(p.page, Min(p.perPage, LLM_MAX_PER_PAGE))
  }

  datatype Paged = Paged(items: seq<Row>, page: u64, perPage: u64, totalItems: nat, totalPages: nat)

  /** LIMIT and OFFSET. */
  function PageOf<T>(items: seq<T>, index: nat, perPage: nat): seq<T>
  {
    var start := index * perPage;
    if start >= |items| then [] else items[start..Min(start + perPage, |items|)]
  }

  function PageCount(total: nat, perPage: nat): nat
    requires perPage > 0
  {
    total / perPage + if total % perPage > 0 then 1 else 0
  }

  predicate Matches(e: Entity, filter: Option<string>, row: Row)
  {
    e.filterColumn.Some? && filter.Some? ==>
      e.filterColumn.value in row && row[e.filterColumn.value] == Text(filter.value)
  }

  function Filtered(e: Entity, filter: Option<string>, rows: seq<Row>): (r: seq<Row>)
    ensures forall row :: row in r <==> row in rows && Matches(e, filter, row)
  {
    if rows == [] then []
    else (if Matches(e, filter, rows[0]) then [rows[0]] else []) + Filtered(e, filter, rows[1..])
  }

  function List(members: Members, e: Entity, user: UserId, t: Table, page: Option<u64>, perPage: Option<u64>,
                filter: Option<string>): Result<Paged, RestError>
  {
    match Visible(members, e, user, t)
    case Err(error) => Err(error)
    case Ok(rows) =>
      var found := Filtered(e, filter, rows);
      var p := FromRaw(page, perPage);
      Ok(Paged(PageOf(found, p.page - 1, p.perPage), p.page, p.perPage, |found|, PageCount(|found|, p.perPage)))
  }

  /** The agents' `list`, for a principal and an entity already looked up. */
  function AgentList(members: Members, e: Entity, user: UserId, t: Table, page: i64, perPage: i64, filter: string)
    : Result<Paged, RestError>
  {
    var p := AgentPagination(page, perPage);
    List(members, e, user, t, Some(p.page), Some(p.perPage), FilterOf(filter))
  }

  // ---------------------------------------------------------------------------------------------
  // Bounds
  // ---------------------------------------------------------------------------------------------

  lemma ProductsGrow(a: nat, b: nat, c: nat)
    requires a <= b
    ensures a * c <= b * c
  {
  }

  lemma ProductFits(page: nat, perPage: nat)
    requires page <= MAX_PAGE && perPage <= MAX_PER_PAGE
    ensures page * perPage <= U64_MAX
  {
    ProductsGrow(page, MAX_PAGE, perPage);
    ProductsGrow(perPage, MAX_PER_PAGE, MAX_PAGE);
  }

  /** Whatever two numbers a script passes, the page lies in [1, MAX_PAGE], its size in [1, 50], the
      rows up to the end of the page count in 64 bits, and the normalisation the query layer does
      again changes nothing; numbers in range are taken as they are, others as the nearest bound, and a
      negative one as absent. */
  lemma AgentPaginationFits(page: i64, perPage: i64)
    ensures var p := AgentPagination(page, perPage);
            && 1 <= p.page <= MAX_PAGE && 1 <= p.perPage <= LLM_MAX_PER_PAGE
            && p.page * p.perPage <= U64_MAX
            && FromRaw(Some(p.page), Some(p.perPage)) == p
            && (1 <= page <= MAX_PAGE ==> p.page == page)
            && (1 <= perPage <= LLM_MAX_PER_PAGE ==> p.perPage == perPage)
            && (page < 1 ==> p.page == 1) && (page > MAX_PAGE ==> p.page == MAX_PAGE)
            && (perPage < 0 ==> p.perPage == 20) && (perPage == 0 ==> p.perPage == 1)
            && (perPage > 50 ==> p.perPage == 50)
  {
    var p := AgentPagination(page, perPage);
    ProductFits(p.page, p.perPage);
  }

  // ---------------------------------------------------------------------------------------------
  // Paging through
  // ---------------------------------------------------------------------------------------------

  /** Pages 0 to n - 1, end to end. */
  function Pages<T>(items: seq<T>, perPage: nat, n: nat): seq<T>
  {
    if n == 0 then [] else Pages(items, perPage, n - 1) + PageOf(items, n - 1, perPage)
  }

  lemma PageFollowsPrefix<T>(items: seq<T>, start: nat, perPage: nat)
    requires start <= |items|
    ensures items[..start] + items[start..Min(start + perPage, |items|)] == items[..Min(start + perPage, |items|)]
  {
  }

  lemma {:induction false} PagesArePrefixes<T>(items: seq<T>, perPage: nat, n: nat)
    ensures Pages(items, perPage, n) == items[..Min(n * perPage, |items|)]
  {
    if n > 0 {
      var start := (n - 1) * perPage;
      PagesArePrefixes(items, perPage, n - 1);
      assert start + perPage == n * perPage;
      if start < |items| {
        PageFollowsPrefix(items, start, perPage);
      }
    }
  }

  lemma CountBounds(total: nat, perPage: nat, n: nat)
    requires perPage > 0
    ensures n >= PageCount(total, perPage) ==> n * perPage >= total
    ensures n < PageCount(total, perPage) ==> n * perPage < total
  {
    var q, r := total / perPage, total % perPage;
    assert total == q * perPage + r && 0 <= r < perPage;
    if n > q {
      assert n >= PageCount(total, perPage);
      ProductsGrow(q + 1, n, perPage);
      assert (q + 1) * perPage == q * perPage + perPage;
    } else if n == q {
      assert n * perPage == q * perPage;
    } else {
      assert n < PageCount(total, perPage);
      ProductsGrow(n + 1, q, perPage);
      assert (n + 1) * perPage == n * perPage + perPage;
    }
  }

  /** The page count is where the pages end: that many hold everything, and a page is empty exactly
      when it lies beyond. */
  lemma PageCountIsExact<T>(items: seq<T>, perPage: nat, n: nat)
    requires perPage > 0
    ensures n >= PageCount(|items|, perPage) ==> Pages(items, perPage, n) == items
    ensures PageOf(items, n, perPage) == [] <==> n >= PageCount(|items|, perPage)
  {
    CountBounds(|items|, perPage, n);
    PagesArePrefixes(items, perPage, n);
  }

  /** The keys of distinct rows are distinct 32-bit numbers, so the rows are few. */
  lemma {:induction false} RowsAreFew(e: Entity, t: Table, i: nat)
    requires TableOk(e, t) && i < |t.rows|
    ensures i <= t.rows[i][e.pk].n - I32_MIN
    decreases i
  {
    if i > 0 {
      RowsAreFew(e, t, i - 1);
    }
  }

  lemma {:induction false} FilteredShorter(e: Entity, filter: Option<string>, rows: seq<Row>)
    ensures |Filtered(e, filter, rows)| <= |rows|
  {
    if rows != [] {
      FilteredShorter(e, filter, rows[1..]);
    }
  }

  lemma {:induction false} SelectedShorter(access: ListAccess, rows: seq<Row>)
    ensures |Select(access, rows)| <= |rows|
  {
    if rows != [] {
      SelectedShorter(access, rows[1..]);
    }
  }

  predicate Keyed(e: Entity, rows: seq<Row>)
  {
    forall i | 0 <= i < |rows| :: e.pk in rows[i] && rows[i][e.pk].Int?
  }

  /** Rows in the strict order of their keys. */
  predicate Ascending(e: Entity, rows: seq<Row>)
    requires Keyed(e, rows)
  {
    forall i, j | 0 <= i < j < |rows| :: rows[i][e.pk].n < rows[j][e.pk].n
  }

  lemma FirstThenRest(e: Entity, first: Row, rest: seq<Row>)
    requires Keyed(e, rest) && Ascending(e, rest) && e.pk in first && first[e.pk].Int?
    requires forall i | 0 <= i < |rest| :: first[e.pk].n < rest[i][e.pk].n
    ensures Keyed(e, [first] + rest) && Ascending(e, [first] + rest)
  {
  }

  lemma {:induction false} SelectAscends(e: Entity, access: ListAccess, rows: seq<Row>)
    requires Keyed(e, rows) && Ascending(e, rows)
    ensures Keyed(e, Select(access, rows)) && Ascending(e, Select(access, rows))
  {
    if rows != [] {
      var rest: seq<Row> := Select(access, rows[1..]);
      SelectAscends(e, access, rows[1..]);
      if Admits(access, rows[0]) {
        forall i | 0 <= i < |rest| ensures rows[0][e.pk].n < rest[i][e.pk].n {
          assert rest[i] in rows[1..];
        }
        FirstThenRest(e, rows[0], rest);
      } else {
        assert Select(access, rows) == rest;
      }
    }
  }

  lemma {:induction false} FilterAscends(e: Entity, filter: Option<string>, rows: seq<Row>)
    requires Keyed(e, rows) && Ascending(e, rows)
    ensures Keyed(e, Filtered(e, filter, rows)) && Ascending(e, Filtered(e, filter, rows))
  {
    if rows != [] {
      var rest: seq<Row> := Filtered(e, filter, rows[1..]);
      FilterAscends(e, filter, rows[1..]);
      if Matches(e, filter, rows[0]) {
        forall i | 0 <= i < |rest| ensures rows[0][e.pk].n < rest[i][e.pk].n {
          assert rest[i] in rows[1..];
        }
        FirstThenRest(e, rows[0], rest);
      } else {
        assert Filtered(e, filter, rows) == rest;
      }
    }
  }

  function FilterOf(filter: string): Option<string> { if filter == "" then None else Some(filter) }

  /** The rows of pages 1 to n as the agent receives them. */
  function Walk(members: Members, e: Entity, user: UserId, t: Table, perPage: i64, filter: string, n: i64): seq<Row>
    requires Visible(members, e, user, t).Ok? && n >= 0
  {
    if n == 0 then []
    else Walk(members, e, user, t, perPage, filter, n - 1) +
         AgentList(members, e, user, t, n, perPage, filter).value.items
  }

  /** The rows a list query finds, over all pages. */
  function Found(members: Members, e: Entity, user: UserId, t: Table, filter: string): seq<Row>
    requires Visible(members, e, user, t).Ok?
  {
    Filtered(e, FilterOf(filter), Visible(members, e, user, t).value)
  }

  lemma AgentListIsAPage(members: Members, e: Entity, user: UserId, t: Table, page: i64, perPage: i64, filter: string)
    requires Visible(members, e, user, t).Ok?
    ensures var p, found := AgentPagination(page, perPage), Found(members, e, user, t, filter);
            AgentList(members, e, user, t, page, perPage, filter) ==
            Ok(Paged(PageOf(found, p.page - 1, p.perPage), p.page, p.perPage, |found|, PageCount(|found|, p.perPage)))
  {
    AgentPaginationFits(page, perPage);
  }

  lemma WalkStep(members: Members, e: Entity, user: UserId, t: Table, perPage: i64, filter: string, n: i64)
    requires Visible(members, e, user, t).Ok? && 0 < n <= MAX_PAGE
    ensures Walk(members, e, user, t, perPage, filter, n) ==
            Walk(members, e, user, t, perPage, filter, n - 1) +
            PageOf(Found(members, e, user, t, filter), n - 1, AgentPagination(1, perPage).perPage)
  {
    AgentListIsAPage(members, e, user, t, n, perPage, filter);
    assert AgentPagination(n, perPage) == Pagination(n, AgentPagination(1, perPage).perPage);
  }

  lemma {:induction false} WalkIsPages(members: Members, e: Entity, user: UserId, t: Table, perPage: i64,
                                       filter: string, n: i64)
    requires Visible(members, e, user, t).Ok? && 0 <= n <= MAX_PAGE
    ensures Walk(members, e, user, t, perPage, filter, n) ==
            Pages(Found(members, e, user, t, filter), AgentPagination(1, perPage).perPage, n)
    decreases n
  {
    if n > 0 {
      WalkIsPages(members, e, user, t, perPage, filter, n - 1);
      WalkStep(members, e, user, t, perPage, filter, n);
    }
  }

  lemma WalkToTheEnd(members: Members, e: Entity, user: UserId, t: Table, perPage: i64, filter: string, n: i64)
    requires Visible(members, e, user, t).Ok?
    requires 1 <= n <= MAX_PAGE && AgentList(members, e, user, t, n, perPage, filter).value.items == []
    ensures Walk(members, e, user, t, perPage, filter, n) == Found(members, e, user, t, filter)
  {
    var found, size := Found(members, e, user, t, filter), AgentPagination(n, perPage).perPage;
    AgentListIsAPage(members, e, user, t, n, perPage, filter);
    WalkIsPages(members, e, user, t, perPage, filter, n);
    PageCountIsExact(found, size, n - 1);
    PageCountIsExact(found, size, n);
  }

  lemma FoundIsEveryGet(members: Members, e: Entity, user: UserId, t: Table, filter: string, i: nat)
    requires TableOk(e, t) && Visible(members, e, user, t).Ok? && i < |t.rows|
    ensures t.rows[i] in Found(members, e, user, t, filter) <==>
            Matches(e, FilterOf(filter), t.rows[i]) && Get(members, e, user, t, t.rows[i][e.pk].n) == Ok(t.rows[i])
  {
    ListIsEveryGet(members, e, user, t, i);
  }

  lemma FoundAscends(members: Members, e: Entity, user: UserId, t: Table, filter: string)
    requires TableOk(e, t) && Visible(members, e, user, t).Ok?
    ensures Keyed(e, Found(members, e, user, t, filter)) && Ascending(e, Found(members, e, user, t, filter))
    ensures |Found(members, e, user, t, filter)| <= |t.rows|
    ensures forall row | row in Found(members, e, user, t, filter) :: row in t.rows
  {
    var access := ListRestriction(members, e.access, user).value;
    SelectAscends(e, access, t.rows);
    FilterAscends(e, FilterOf(filter), Select(access, t.rows));
    FilteredShorter(e, FilterOf(filter), Select(access, t.rows));
    SelectedShorter(access, t.rows);
  }

  /** An agent that asks for page after page until one comes back empty has, in the order of their
      keys, exactly the rows that pass the filter and that `get` gives it, each once: the pages
      neither skip nor repeat a row, and the clamps never hide one. A row passes when there is no
      filter, or no filter column, or the column holds that very text. Each page announces their
      number. */
  lemma PagingShowsEveryGet(members: Members, e: Entity, user: UserId, t: Table, perPage: i64, filter: string, n: i64)
    requires TableOk(e, t) && Visible(members, e, user, t).Ok?
    requires 1 <= n <= MAX_PAGE && AgentList(members, e, user, t, n, perPage, filter).value.items == []
    ensures var rows := Walk(members, e, user, t, perPage, filter, n);
            && Keyed(e, rows) && Ascending(e, rows)
            && (forall i | 0 <= i < |t.rows| ::
                  t.rows[i] in rows <==>
                  (filter == "" || e.filterColumn.None? ||
                   (e.filterColumn.value in t.rows[i] && t.rows[i][e.filterColumn.value] == Text(filter))) &&
                  Get(members, e, user, t, t.rows[i][e.pk].n) == Ok(t.rows[i]))
            && (forall row | row in rows :: row in t.rows)
            && (forall page: i64, size: i64 ::
                  AgentList(members, e, user, t, page, size, filter).value.totalItems == |rows|)
  {
    WalkToTheEnd(members, e, user, t, perPage, filter, n);
    FoundAscends(members, e, user, t, filter);
    forall i | 0 <= i < |t.rows|
      ensures t.rows[i] in Found(members, e, user, t, filter) <==>
              Matches(e, FilterOf(filter), t.rows[i]) &&
              Get(members, e, user, t, t.rows[i][e.pk].n) == Ok(t.rows[i])
    {
      FoundIsEveryGet(members, e, user, t, filter, i);
    }
    forall page: i64, size: i64
      ensures AgentList(members, e, user, t, page, size, filter).value.totalItems ==
              |Found(members, e, user, t, filter)|
    {
      AgentListIsAPage(members, e, user, t, page, size, filter);
    }
  }

  /** An empty page is one past the announced last, and the last is always far below the clamp, so
      every row is within an agent's reach. */
  lemma EveryPageIsReachable(members: Members, e: Entity, user: UserId, t: Table, page: i64, perPage: i64,
                             filter: string)
    requires TableOk(e, t) && Visible(members, e, user, t).Ok?
    ensures var r := AgentList(members, e, user, t, page, perPage, filter).value;
            && r.totalPages < MAX_PAGE
            && (r.items == [] <==> r.page > r.totalPages)
  {
    var found, p := Found(members, e, user, t, filter), AgentPagination(page, perPage);
    AgentListIsAPage(members, e, user, t, page, perPage, filter);
    FoundAscends(members, e, user, t, filter);
    if |t.rows| > 0 {
      RowsAreFew(e, t, |t.rows| - 1);
    }
    FewPages(|found|, p.perPage);
    PageCountIsExact(found, p.perPage, p.page - 1);
  }

  /** The page count is just enough. */
  lemma CountIsTight(total: nat, perPage: nat)
    requires perPage > 0
    ensures PageCount(total, perPage) * perPage >= total
    ensures PageCount(total, perPage) > 0 ==> (PageCount(total, perPage) - 1) * perPage < total
  {
    CountBounds(total, perPage, PageCount(total, perPage));
    if PageCount(total, perPage) > 0 {
      CountBounds(total, perPage, PageCount(total, perPage) - 1);
    }
  }

  lemma PageIsShort<T>(items: seq<T>, index: nat, perPage: nat)
    ensures |PageOf(items, index, perPage)| <= perPage
  {
  }

  /** A page tells its number and size as normalised, holds no more rows than that, and announces the
      page count of the rows it announces. */
  lemma PageTellsItself(members: Members, e: Entity, user: UserId, t: Table, page: i64, perPage: i64, filter: string)
    requires Visible(members, e, user, t).Ok?
    ensures var r := AgentList(members, e, user, t, page, perPage, filter).value;
            && Pagination(r.page, r.perPage) == AgentPagination(page, perPage) && |r.items| <= r.perPage
            && r.perPage > 0 && r.totalPages == PageCount(r.totalItems, r.perPage)
  {
    AgentListIsAPage(members, e, user, t, page, perPage, filter);
    var p := AgentPagination(page, perPage);
    PageIsShort(Found(members, e, user, t, filter), p.page - 1, p.perPage);
  }

  lemma FewPages(total: nat, perPage: nat)
    requires perPage > 0
    ensures PageCount(total, perPage) <= total + 1
  {
    ProductsGrow(1, perPage, total / perPage);
    assert total == total / perPage * perPage + total % perPage;
  }
}
