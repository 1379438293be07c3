/**
 * The search half of the in-memory repository: the query and result values,
 * the generic sort, pagination, and the filter -> sort -> paginate pipeline
 * (src/shared/infra/db/in-memory/in-memory-repository.ts:51-121).
 */
module Searchable {
  import opened Wrappers
  import opened SortKeys
  import StableSort

  /** A page number or page size after SearchParams has normalised it. */
  type Positive = n: int | n >= 1 witness 1

  /** The query of a search; `filter` is the repository's own filter type. */
  datatype SearchParams<F> = SearchParams(
    page: Positive,
    perPage: Positive,
    sort: Option<string>,
    sortDir: SortDirection,
    filter: Option<F>)

  /** `new SearchParams()`: first page, 15 per page, no sort, no filter. */
  function DefaultSearchParams<F>(): (p: SearchParams<F>)
    ensures p.page == 1 && p.perPage == 15
    ensures p.sort.None? && p.sortDir == Asc && p.filter.None?
  {
    SearchParams(1, 15, None, Asc, None)
  }

  /** `last_page`: `ceil(total / perPage)`, the number of pages the matches fill. */
  function PageCount(total: nat, perPage: Positive): (last: nat)
    ensures (last - 1) * perPage < total <= last * perPage
  {
    var n := total + perPage - 1;
    assert n == (n / perPage) * perPage + n % perPage;
    n / perPage
  }

  /** One page of results with the count of all matches. */
  datatype SearchResult<E> = SearchResult(
    items: seq<E>,
    total: nat,
    currentPage: Positive,
    perPage: Positive)
  {
    /** `last_page`, derived from the total and the page size. */
    function LastPage(): nat {
      PageCount(total, perPage)
    }
  }

  /** `s.slice(start, end)` for non-negative positions: both clipped to the length. */
  function Slice<E>(s: seq<E>, start: nat, end: nat): seq<E> {
    var from := if start < |s| then start else |s|;
    var to := if end < |s| then end else |s|;
    if from < to then s[from..to] else []
  }

  /** `applyPagination`: the items of page `page` when pages hold `perPage` items. */
  function ApplyPagination<E>(items: seq<E>, page: Positive, perPage: Positive): (r: seq<E>)
    ensures |r| <= perPage
    ensures |r| == if |items| <= (page - 1) * perPage then 0
                   else if |items| - (page - 1) * perPage < perPage then |items| - (page - 1) * perPage
                   else perPage
    ensures forall i :: 0 <= i < |r| ==> r[i] == items[(page - 1) * perPage + i]
  {
    var start := (page - 1) * perPage;
    Slice(items, start, start + perPage)
  }

  /** A page is empty exactly when it comes after the last page. */
  lemma PageIsEmptyIffPastLastPage<E>(items: seq<E>, page: Positive, perPage: Positive)
    ensures ApplyPagination(items, page, perPage) == [] <==> page > PageCount(|items|, perPage)
  {
    var last := PageCount(|items|, perPage);
    if page > last {
      ScaleIsMonotone(last, page - 1, perPage);
    } else {
      ScaleIsMonotone(page - 1, last - 1, perPage);
    }
  }

  /** Multiplying by a page size keeps the order of page numbers. */
  lemma ScaleIsMonotone(a: int, b: int, perPage: Positive)
    requires a <= b
    ensures a * perPage <= b * perPage
  {
    assert b * perPage - a * perPage == (b - a) * perPage;
  }

  /** Every item appears on page `j / perPage + 1`, at position `j % perPage`. */
  lemma EveryItemIsOnItsPage<E>(items: seq<E>, perPage: Positive, j: nat)
    requires j < |items|
    ensures var page := ApplyPagination(items, j / perPage + 1, perPage);
            j % perPage < |page| && page[j % perPage] == items[j]
  {
    assert j == (j / perPage) * perPage + j % perPage;
  }

  /** The sort key of an element: `getter(field, element)`. */
  function FieldKey<E>(getter: (string, E) -> Key, field: string): E -> Key {
    e => getter(field, e)
  }

  /** The base guard: a sort is applied only for a non-empty field on the allow-list. */
  predicate SortApplies(sort: Option<string>, sortableFields: seq<string>) {
    sort.Some? && sort.value != "" && sort.value in sortableFields
  }

  /**
   * `applySort` of the base class: `read` is the property read `a[sort]`, used
   * unless a custom getter is given.
   */
  function ApplySort<E>(items: seq<E>, sort: Option<string>, sortDir: SortDirection,
                        sortableFields: seq<string>, read: (string, E) -> Key,
                        customGetter: Option<(string, E) -> Key>): (r: seq<E>)
    ensures |r| == |items|
    ensures !SortApplies(sort, sortableFields) ==> r == items
  {
    if !SortApplies(sort, sortableFields) then items
    else
      var key := FieldKey(customGetter.GetOr(read), sort.value);
      StableSort.SortIsPermutation(items, key, sortDir);
      assert |multiset(StableSort.Sort(items, key, sortDir))| == |multiset(items)|;
      StableSort.Sort(items, key, sortDir)
  }

  /**
   * With an allowed field the result is the input reordered: sorted by the
   * field in the given direction, equal keys in input order.
   */
  lemma ApplySortSortsStably<E>(items: seq<E>, sort: Option<string>, sortDir: SortDirection,
                                sortableFields: seq<string>, read: (string, E) -> Key,
                                customGetter: Option<(string, E) -> Key>)
    requires SortApplies(sort, sortableFields)
    ensures var r := ApplySort(items, sort, sortDir, sortableFields, read, customGetter);
            var key := FieldKey(customGetter.GetOr(read), sort.value);
            && multiset(r) == multiset(items)
            && StableSort.SortedBy(r, key, sortDir)
            && forall k :: StableSort.WithKey(r, key, k) == StableSort.WithKey(items, key, k)
  {
    var key := FieldKey(customGetter.GetOr(read), sort.value);
    StableSort.SortIsPermutation(items, key, sortDir);
    StableSort.SortIsSorted(items, key, sortDir);
    forall k
      ensures StableSort.WithKey(StableSort.Sort(items, key, sortDir), key, k) == StableSort.WithKey(items, key, k)
    {
      StableSort.SortIsStable(items, key, sortDir, k);
    }
  }

  /**
   * `search`: filter the stored entities, sort the matches, cut out the
   * requested page; the total counts every match.
   */
  function Search<E, F>(entities: seq<E>, params: SearchParams<F>,
                        applyFilter: (seq<E>, Option<F>) -> seq<E>,
                        applySort: (seq<E>, Option<string>, SortDirection) -> seq<E>): (r: SearchResult<E>)
    ensures r.total == |applyFilter(entities, params.filter)|
    ensures r.currentPage == params.page && r.perPage == params.perPage
    ensures |r.items| <= params.perPage
    ensures var sorted := applySort(applyFilter(entities, params.filter), params.sort, params.sortDir);
            var start := (params.page - 1) * params.perPage;
            && |r.items| == (if |sorted| <= start then 0
                             else if |sorted| - start < params.perPage then |sorted| - start
                             else params.perPage)
            && forall i :: 0 <= i < |r.items| ==> r.items[i] == sorted[start + i]
  {
    var filtered := applyFilter(entities, params.filter);
    var sorted := applySort(filtered, params.sort, params.sortDir);
    SearchResult(ApplyPagination(sorted, params.page, params.perPage), |filtered|, params.page, params.perPage)
  }

  /**
   * When the sort keeps the number of matches, the page is empty exactly when
   * it comes after `last_page`, which is computed from the total.
   */
  lemma SearchPageEmptyIffPastLastPage<E, F>(entities: seq<E>, params: SearchParams<F>,
                                            applyFilter: (seq<E>, Option<F>) -> seq<E>,
                                            applySort: (seq<E>, Option<string>, SortDirection) -> seq<E>)
    requires var filtered := applyFilter(entities, params.filter);
             |applySort(filtered, params.sort, params.sortDir)| == |filtered|
    ensures var r := Search(entities, params, applyFilter, applySort);
            r.items == [] <==> r.currentPage > r.LastPage()
  {
    var filtered := applyFilter(entities, params.filter);
    PageIsEmptyIffPastLastPage(applySort(filtered, params.sort, params.sortDir), params.page, params.perPage);
  }

  /** Any pairwise order the sorted matches are in, the returned page is in too. */
  lemma SearchPageKeepsOrder<E, F>(entities: seq<E>, params: SearchParams<F>,
                                   applyFilter: (seq<E>, Option<F>) -> seq<E>,
                                   applySort: (seq<E>, Option<string>, SortDirection) -> seq<E>,
                                   inOrder: (E, E) -> bool)
    requires var sorted := applySort(applyFilter(entities, params.filter), params.sort, params.sortDir);
             forall i, j :: 0 <= i < j < |sorted| ==> inOrder(sorted[i], sorted[j])
    ensures var r := Search(entities, params, applyFilter, applySort);
            forall i, j :: 0 <= i < j < |r.items| ==> inOrder(r.items[i], r.items[j])
  {
    var sorted := applySort(applyFilter(entities, params.filter), params.sort, params.sortDir);
    var items := ApplyPagination(sorted, params.page, params.perPage);
    assert Search(entities, params, applyFilter, applySort).items == items;
    var start := (params.page - 1) * params.perPage;
    forall i, j | 0 <= i < j < |items|
      ensures inOrder(items[i], items[j])
    {
      assert items[i] == sorted[start + i] && items[j] == sorted[start + j];
    }
  }

  /** When the sort only reorders the matches, every returned item is a match. */
  lemma SearchPageComesFromMatches<E, F>(entities: seq<E>, params: SearchParams<F>,
                                         applyFilter: (seq<E>, Option<F>) -> seq<E>,
                                         applySort: (seq<E>, Option<string>, SortDirection) -> seq<E>)
    requires var filtered := applyFilter(entities, params.filter);
             multiset(applySort(filtered, params.sort, params.sortDir)) == multiset(filtered)
    ensures forall c :: c in Search(entities, params, applyFilter, applySort).items ==>
              c in applyFilter(entities, params.filter)
  {
    var filtered := applyFilter(entities, params.filter);
    var sorted := applySort(filtered, params.sort, params.sortDir);
    var r := Search(entities, params, applyFilter, applySort);
    forall c | c in r.items
      ensures c in filtered
    {
      var i :| 0 <= i < |r.items| && r.items[i] == c;
      assert c == sorted[(params.page - 1) * params.perPage + i];
      assert c in multiset(sorted);
    }
  }
}

