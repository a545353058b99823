/**
  The resource service: the listing rule (filter, newest-first order, page
  window, pagination metadata) and lookup by id, over a table value.
*/
module ResourceService {
  import opened Wrappers
  import opened Store

  datatype ListParams = ListParams(filterName: Option<string>, page: int, limit: int)

  datatype Pagination = Pagination(total: nat, page: int, limit: int, totalPages: nat)

  datatype ListResult = ListResult(data: seq<Resource>, pagination: Pagination)

  /** `filterName ? {name: filterName} : {}`: an absent or empty name matches every row. */
  function WhereClause(filterName: Option<string>): (w: Where)
    ensures w == MatchAll <==> (filterName.None? || filterName.value == "")
    ensures forall r :: Matches(w, r) <==> (filterName.None? || filterName.value == "" || r.name == filterName.value)
  {
    if filterName.Some? && filterName.value != "" then NameEquals(filterName.value) else MatchAll
  }

  /** `skip: (page - 1) * limit`, the number of rows before page `page`, written as
      repeated addition (OffsetIsProduct states the product). */
  function Offset(page: int, limit: int): (skip: nat)
    requires page >= 1 && limit >= 1
    decreases page
  {
    if page == 1 then 0 else Offset(page - 1, limit) + limit
  }

  lemma {:induction false} OffsetIsProduct(page: int, limit: int)
    requires page >= 1 && limit >= 1
    ensures Offset(page, limit) == (page - 1) * limit
  {
    if page > 1 {
      OffsetIsProduct(page - 1, limit);
    }
  }

  /** Later pages start further on. */
  lemma {:induction false} OffsetMonotone(p1: int, p2: int, limit: int)
    requires 1 <= p1 <= p2 && limit >= 1
    ensures Offset(p1, limit) <= Offset(p2, limit)
  {
    if p1 < p2 {
      OffsetMonotone(p1, p2 - 1, limit);
    }
  }

  /** Integer ceiling division, read through page offsets. */
  lemma CeilingDivisionOffsets(total: nat, limit: int)
    requires limit >= 1
    ensures var q := (total + limit - 1) / limit;
            q >= 0 && (q == 0 <==> total == 0) &&
            (total > 0 ==> q >= 1 && Offset(q, limit) < total <= Offset(q + 1, limit))
  {
    var q := (total + limit - 1) / limit;
    var rem := (total + limit - 1) % limit;
    assert total + limit - 1 == q * limit + rem && 0 <= rem < limit;
    if total > 0 {
      OffsetIsProduct(q, limit);
      OffsetIsProduct(q + 1, limit);
      assert (q + 1 - 1) * limit == (q - 1) * limit + limit;
    }
  }

  /** `Math.ceil(total / limit)`, as integer ceiling division: the number of the last
      page that starts before row `total`. */
  function TotalPages(total: nat, limit: int): (q: nat)
    requires limit >= 1
    ensures q == 0 <==> total == 0
    ensures total > 0 ==> q >= 1 && Offset(q, limit) < total <= Offset(q + 1, limit)
  {
    CeilingDivisionOffsets(total, limit);
    (total + limit - 1) / limit
  }

  /** TotalPages is the ceiling of `total / limit`. */
  lemma TotalPagesIsCeiling(total: nat, limit: int)
    requires limit >= 1
    ensures var q := TotalPages(total, limit);
            (q == 0 <==> total == 0) && (total > 0 ==> (q - 1) * limit < total <= q * limit)
  {
    var q := TotalPages(total, limit);
    if total > 0 {
      OffsetIsProduct(q, limit);
      OffsetIsProduct(q + 1, limit);
    }
  }

  /** The filtered rows in the order the page is cut from. */
  function Ordered(t: Table, filterName: Option<string>): seq<Resource>
  {
    SortNewestFirst(Filter(t, WhereClause(filterName)))
  }

  /** `listResources`: one page of the filtered, newest-first rows plus metadata;
      the page fetch and the count use the same where-clause and one table value. */
  function ListResources(t: Table, params: ListParams): (res: ListResult)
    requires params.page >= 1 && params.limit >= 1
    ensures res.pagination.page == params.page && res.pagination.limit == params.limit
    ensures res.pagination.total == |Ordered(t, params.filterName)|
    ensures res.pagination.totalPages == TotalPages(res.pagination.total, params.limit)
    ensures var n, skip := res.pagination.total, Offset(params.page, params.limit);
            |res.data| == if skip >= n then 0 else if n - skip <= params.limit then n - skip else params.limit
    ensures |res.data| <= params.limit
    ensures res.data != [] ==> Offset(params.page, params.limit) + |res.data| <= res.pagination.total
    ensures forall k :: 0 <= k < |res.data| ==>
      res.data[k] == Ordered(t, params.filterName)[Offset(params.page, params.limit) + k]
  {
    var w := WhereClause(params.filterName);
    var skip := Offset(params.page, params.limit);
    var items := FindMany(t, w, skip, params.limit);
    assert items == Window(Ordered(t, params.filterName), skip, params.limit);
    var total := Count(t, w);
    CountIsFilterLength(t, w);
    ListResult(items, Pagination(total, params.page, params.limit, TotalPages(total, params.limit)))
  }

  /** The length of a page: full pages hold `limit` rows, the rest of the rows go on the last. */
  lemma PageLength(t: Table, params: ListParams)
    requires params.page >= 1 && params.limit >= 1
    ensures var n := |Ordered(t, params.filterName)|;
            var skip := Offset(params.page, params.limit);
            |ListResources(t, params).data| == if skip >= n then 0 else if n - skip <= params.limit then n - skip else params.limit
  {
  }

  /** The total does not depend on which page is asked for. */
  lemma TotalIndependentOfPage(t: Table, p1: ListParams, p2: ListParams)
    requires p1.page >= 1 && p1.limit >= 1 && p2.page >= 1 && p2.limit >= 1
    requires p1.filterName == p2.filterName
    ensures ListResources(t, p1).pagination.total == ListResources(t, p2).pagination.total
  {
  }

  /** With `page=2, limit=10` the page holds items 11 to 20 of the ordered rows. */
  lemma SecondPageOfTen(t: Table, filterName: Option<string>)
    requires |Ordered(t, filterName)| >= 20
    ensures ListResources(t, ListParams(filterName, 2, 10)).data == Ordered(t, filterName)[10..20]
  {
    var d := ListResources(t, ListParams(filterName, 2, 10)).data;
    PageLength(t, ListParams(filterName, 2, 10));
    assert |d| == 10;
  }

  /** A page that starts before row `total` is numbered at most `totalPages`. */
  lemma PageWithinTotal(total: nat, page: int, limit: int)
    requires page >= 1 && limit >= 1 && Offset(page, limit) < total
    ensures page <= TotalPages(total, limit)
  {
    var tp := TotalPages(total, limit);
    if page > tp {
      OffsetMonotone(tp + 1, page, limit);
      assert false;
    }
  }

  /** A page that starts at one of the ordered rows is numbered at most `totalPages`. */
  lemma NonEmptyPageWithinTotal(t: Table, params: ListParams)
    requires params.page >= 1 && params.limit >= 1
    requires Offset(params.page, params.limit) < |Ordered(t, params.filterName)|
    ensures params.page <= ListResources(t, params).pagination.totalPages
  {
    PageWithinTotal(ListResources(t, params).pagination.total, params.page, params.limit);
  }

  /** Row `Offset(page, limit) + m` of the ordered rows, with `m < limit`, is at position
      `m` of page `page`: together with NonEmptyPageWithinTotal, the pages
      1..totalPages cover every ordered row. */
  lemma RowOnItsPage(t: Table, params: ListParams, m: int)
    requires params.page >= 1 && params.limit >= 1 && 0 <= m < params.limit
    requires Offset(params.page, params.limit) + m < |Ordered(t, params.filterName)|
    ensures m < |ListResources(t, params).data|
    ensures ListResources(t, params).data[m] == Ordered(t, params.filterName)[Offset(params.page, params.limit) + m]
  {
    var skip := Offset(params.page, params.limit);
    var n := |Ordered(t, params.filterName)|;
    PageLength(t, params);
    assert |ListResources(t, params).data| == if n - skip <= params.limit then n - skip else params.limit;
  }

  /** A page past `totalPages` is empty. */
  lemma PagePastEndIsEmpty(t: Table, params: ListParams)
    requires params.page >= 1 && params.limit >= 1
    requires params.page > ListResources(t, params).pagination.totalPages
    ensures ListResources(t, params).data == []
  {
    var res := ListResources(t, params);
    if res.data != [] {
      PageWithinTotal(res.pagination.total, params.page, params.limit);
      assert false;
    }
  }

  /** The listed rows are stored rows that satisfy the where-clause, newest first. */
  lemma ListedRowsMatchNewestFirst(t: Table, params: ListParams)
    requires params.page >= 1 && params.limit >= 1
    ensures forall x :: x in ListResources(t, params).data ==> x in t && Matches(WhereClause(params.filterName), x)
    ensures NewestFirst(ListResources(t, params).data)
  {
    FindManyRows(t, WhereClause(params.filterName), Offset(params.page, params.limit), params.limit);
  }

  /** A non-empty name filters by exact equality: the pages hold only rows with that
      name, and every stored row with that name is among the ordered rows. */
  lemma NameFilterIsExact(t: Table, name: string, r: Resource)
    requires name != ""
    ensures r in Ordered(t, Some(name)) <==> r in t && r.name == name
  {
    var f := Filter(t, WhereClause(Some(name)));
    FilterKeepsMatching(t, WhereClause(Some(name)));
    assert r in Ordered(t, Some(name)) <==> r in multiset(f);
  }

  /** `getResource`: the row with that id, or nothing. */
  function GetResource(t: Table, id: int): (r: Option<Resource>)
    ensures r.None? <==> forall i :: 0 <= i < |t| ==> t[i].id != id
    ensures r.Some? ==> r.value in t && r.value.id == id
  {
    FindUnique(t, id)
  }

  /** With unique ids, every stored row is found by its id. */
  lemma GetFindsStored(t: Table, i: int)
    requires UniqueIds(t) && 0 <= i < |t|
    ensures GetResource(t, t[i].id) == Some(t[i])
  {
    FindUniqueFindsStored(t, i);
  }
}
