/**
 * The in-memory Category repository
 * (src/category/infra/db/in-memory/in-memory-repository.ts): a name filter,
 * the sortable fields `name` and `created_at`, and a default order.
 */
module CategoryInMemory {
  import opened Wrappers
  import opened Identity
  import opened Errors
  import opened SortKeys
  import opened CategoryDomain
  import StableSort
  import Searchable
  import InMemory

  /** `sortableFields`. */
  const SortableFields: seq<string> := ["name", "created_at"]

  /** `getEntity().name`: the class the not-found errors name. */
  const EntityName := "Category"

  /** `entity_id` of a stored category. */
  function IdOf(c: CategoryData): Uuid {
    c.categoryId
  }

  /** `toLowerCase` on one character, for the ASCII letters. */
  function LowerChar(ch: char): char {
    if 'A' <= ch <= 'Z' then (ch as int + 32) as char else ch
  }

  /** `toLowerCase` on a string. */
  function Lower(s: string): (r: string)
    ensures |r| == |s| && forall i :: 0 <= i < |s| ==> r[i] == LowerChar(s[i])
    decreases |s|
  {
    if s == [] then [] else [LowerChar(s[0])] + Lower(s[1..])
  }

  /** Lower-casing twice is lower-casing once. */
  lemma LowerIsIdempotent(s: string)
    ensures Lower(Lower(s)) == Lower(s)
  {
    assert forall i :: 0 <= i < |s| ==> Lower(Lower(s))[i] == Lower(s)[i];
  }

  /** `part` occurs in `text` starting at position `i`. */
  predicate OccursAt(text: string, part: string, i: nat) {
    i + |part| <= |text| && text[i..i + |part|] == part
  }

  /** `text.includes(part)`. */
  predicate Contains(text: string, part: string) {
    exists i: nat | i <= |text| :: OccursAt(text, part, i)
  }

  /** The filter test: the lower-cased name contains the lower-cased filter. */
  predicate Matches(c: CategoryData, filter: string) {
    Contains(Lower(c.name), Lower(filter))
  }

  /** `items.filter(...)` with the name test, in the items' order. */
  function KeepMatching(items: seq<CategoryData>, filter: string): (r: seq<CategoryData>)
    ensures forall c :: c in r <==> c in items && Matches(c, filter)
    ensures |r| <= |items|
    decreases |items|
  {
    if items == [] then []
    else (if Matches(items[0], filter) then [items[0]] else []) + KeepMatching(items[1..], filter)
  }

  /** The filter keeps the items' order: filtering a concatenation filters each part. */
  lemma {:induction false} KeepMatchingAppend(a: seq<CategoryData>, b: seq<CategoryData>, filter: string)
    ensures KeepMatching(a + b, filter) == KeepMatching(a, filter) + KeepMatching(b, filter)
    decreases |a|
  {
    if a == [] {
      assert a + b == b;
    } else {
      assert (a + b)[0] == a[0] && (a + b)[1..] == a[1..] + b;
      KeepMatchingAppend(a[1..], b, filter);
    }
  }

  /** A filter value that `!filter` rejects: `null` or the empty string. */
  predicate NoFilter(filter: Option<string>) {
    filter.None? || filter.value == ""
  }

  /**
   * `applyFilter`: every item when there is no filter, otherwise exactly the
   * items whose name contains the filter, ignoring case.
   */
  function ApplyFilter(items: seq<CategoryData>, filter: Option<string>): (r: seq<CategoryData>)
    ensures NoFilter(filter) ==> r == items
    ensures !NoFilter(filter) ==> forall c :: c in r <==> c in items && Matches(c, filter.value)
    ensures |r| <= |items|
  {
    if NoFilter(filter) then items else KeepMatching(items, filter.value)
  }

  /** Only the name is searched, and the filter's case does not matter. */
  lemma MatchesReadsNameIgnoringCase(c: CategoryData, filter: string, description: Option<string>)
    ensures Matches(c.(description := description), filter) <==> Matches(c, filter)
    ensures Matches(c, Lower(filter)) <==> Matches(c, filter)
  {
    LowerIsIdempotent(filter);
  }

  /**
   * The property read `item[field]` for the two sortable fields. Other
   * properties are never read: the base guard lets only these through.
   */
  function FieldValue(field: string, c: CategoryData): Key {
    if field == "name" then Text(c.name)
    else if field == "created_at" then Instant(c.createdAt)
    else Text("")
  }

  /**
   * The `applySort` override: with a sort field it defers to the base sort
   * (which ignores fields off the allow-list), otherwise it sorts by
   * `created_at` descending. `customGetter` is accepted and never passed on.
   */
  function ApplySort(items: seq<CategoryData>, sort: Option<string>, sortDir: SortDirection,
                     customGetter: Option<(string, CategoryData) -> Key>): (r: seq<CategoryData>)
    ensures |r| == |items|
  {
    if sort.Some? && sort.value != "" then
      Searchable.ApplySort(items, sort, sortDir, SortableFields, FieldValue, None)
    else
      Searchable.ApplySort(items, Some("created_at"), Desc, SortableFields, FieldValue, None)
  }

  /** The sort `search` dispatches to: the override, called without a custom getter. */
  function SortHook(items: seq<CategoryData>, sort: Option<string>, sortDir: SortDirection): seq<CategoryData> {
    ApplySort(items, sort, sortDir, None)
  }

  /** The sort key the base sort uses for `field`. */
  function KeyFor(field: string): CategoryData -> Key {
    Searchable.FieldKey(FieldValue, field)
  }

  /** The two sort keys read the category's name and creation time. */
  lemma KeyForReadsField(c: CategoryData)
    ensures KeyFor("name")(c) == Text(c.name)
    ensures KeyFor("created_at")(c) == Instant(c.createdAt)
  {
    assert FieldValue("name", c) == Text(c.name);
    assert Searchable.FieldKey(FieldValue, "name")(c) == FieldValue("name", c);
    assert FieldValue("created_at", c) == Instant(c.createdAt);
    assert Searchable.FieldKey(FieldValue, "created_at")(c) == FieldValue("created_at", c);
  }

  /** The custom getter given to the override has no effect. */
  lemma CustomGetterIsIgnored(items: seq<CategoryData>, sort: Option<string>, sortDir: SortDirection,
                              getter: (string, CategoryData) -> Key)
    ensures ApplySort(items, sort, sortDir, Some(getter)) == ApplySort(items, sort, sortDir, None)
  {
  }

  /** A non-empty sort field off the allow-list leaves the order as it was, without the default. */
  lemma UnsortableFieldKeepsOrder(items: seq<CategoryData>, field: string, sortDir: SortDirection,
                                  customGetter: Option<(string, CategoryData) -> Key>)
    requires field != "" && field !in SortableFields
    ensures ApplySort(items, Some(field), sortDir, customGetter) == items
  {
  }

  /**
   * Without a sort field the result is the items reordered newest first,
   * categories created at the same time in their original order.
   */
  lemma {:induction false} DefaultSortIsNewestFirst(items: seq<CategoryData>, sort: Option<string>, sortDir: SortDirection,
                                   customGetter: Option<(string, CategoryData) -> Key>)
    requires sort.None? || sort.value == ""
    ensures var r := ApplySort(items, sort, sortDir, customGetter);
            && multiset(r) == multiset(items)
            && (forall i, j :: 0 <= i < j < |r| ==> r[i].createdAt >= r[j].createdAt)
            && forall t :: StableSort.WithKey(r, KeyFor("created_at"), Instant(t))
                        == StableSort.WithKey(items, KeyFor("created_at"), Instant(t))
  {
    var r := ApplySort(items, sort, sortDir, customGetter);
    Searchable.ApplySortSortsStably(items, Some("created_at"), Desc, SortableFields, FieldValue, None);
    forall i, j | 0 <= i < j < |r|
      ensures r[i].createdAt >= r[j].createdAt
    {
      KeyForReadsField(r[i]);
      KeyForReadsField(r[j]);
      assert Compare(Desc, Instant(r[i].createdAt), Instant(r[j].createdAt)) <= 0;
      CompareFollowsDirection(Desc, Instant(r[i].createdAt), Instant(r[j].createdAt));
    }
  }

  /**
   * With an allowed field the result is the items reordered by that field
   * (ascending: no key smaller than an earlier one; descending: no key larger),
   * equal keys in their original order.
   */
  lemma {:induction false} AllowedFieldSortsByIt(items: seq<CategoryData>, field: string, sortDir: SortDirection,
                                customGetter: Option<(string, CategoryData) -> Key>)
    requires field in SortableFields
    ensures var r := ApplySort(items, Some(field), sortDir, customGetter);
            var key := KeyFor(field);
            && multiset(r) == multiset(items)
            && (forall i, j :: 0 <= i < j < |r| ==>
                  if sortDir == Asc then !Less(key(r[j]), key(r[i])) else !Less(key(r[i]), key(r[j])))
            && forall k :: StableSort.WithKey(r, key, k) == StableSort.WithKey(items, key, k)
  {
    var r := ApplySort(items, Some(field), sortDir, customGetter);
    var key := KeyFor(field);
    Searchable.ApplySortSortsStably(items, Some(field), sortDir, SortableFields, FieldValue, None);
    forall i, j | 0 <= i < j < |r|
      ensures if sortDir == Asc then !Less(key(r[j]), key(r[i])) else !Less(key(r[i]), key(r[j]))
    {
      assert Compare(sortDir, key(r[i]), key(r[j])) <= 0;
      CompareFollowsDirection(sortDir, key(r[i]), key(r[j]));
    }
  }

  /** `new CategoryRepositoryInMemory()`: an empty store wired with the category hooks. */
  method NewCategoryRepository() returns (repo: InMemory.InMemoryRepository<CategoryData, string>)
    ensures fresh(repo) && repo.entities == []
    ensures repo.entityName == EntityName && repo.idOf == IdOf
    ensures repo.applyFilter == ApplyFilter && repo.applySort == SortHook
  {
    repo := new InMemory.InMemoryRepository(IdOf, EntityName, ApplyFilter, SortHook);
  }

  /** Not-found errors of this repository name the Category class. */
  lemma NotFoundNamesCategory(id: Uuid)
    ensures NewNotFoundError(One(id.ToString()), EntityName).message
         == "Entity Category Not found using id " + id.id
  {
  }

  /** The id the store matches on is the category's `entity_id`. */
  lemma IdOfIsEntityId(c: Category)
    ensures IdOf(c.Data()) == c.EntityId()
  {
  }

  /** `search` on the category store. */
  function Search(entities: seq<CategoryData>, params: Searchable.SearchParams<string>): Searchable.SearchResult<CategoryData> {
    Searchable.Search(entities, params, ApplyFilter, SortHook)
  }

  /** The sort hook reorders the matches and never drops or adds one. */
  lemma SortHookIsPermutation(items: seq<CategoryData>, sort: Option<string>, sortDir: SortDirection)
    ensures multiset(SortHook(items, sort, sortDir)) == multiset(items)
  {
    if sort.Some? && sort.value != "" {
      if sort.value in SortableFields {
        Searchable.ApplySortSortsStably(items, sort, sortDir, SortableFields, FieldValue, None);
      }
    } else {
      Searchable.ApplySortSortsStably(items, Some("created_at"), Desc, SortableFields, FieldValue, None);
    }
  }

  /**
   * Every returned category is stored and matches the filter, the total is
   * the number of stored categories matching it, and the page is empty
   * exactly when it comes after `last_page`.
   */
  lemma SearchReturnsMatches(entities: seq<CategoryData>, params: Searchable.SearchParams<string>)
    ensures var r := Search(entities, params);
            && (forall c :: c in r.items ==> c in entities && (!NoFilter(params.filter) ==> Matches(c, params.filter.value)))
            && r.total == |ApplyFilter(entities, params.filter)|
            && (r.items == [] <==> r.currentPage > r.LastPage())
  {
    var filtered := ApplyFilter(entities, params.filter);
    SortHookIsPermutation(filtered, params.sort, params.sortDir);
    Searchable.SearchPageComesFromMatches(entities, params, ApplyFilter, SortHook);
    Searchable.SearchPageEmptyIffPastLastPage(entities, params, ApplyFilter, SortHook);
  }

  /** `a` may come before `b` when sorting by `field` in direction `dir`. */
  predicate InFieldOrder(field: string, dir: SortDirection, a: CategoryData, b: CategoryData) {
    if dir == Asc then !Less(KeyFor(field)(b), KeyFor(field)(a)) else !Less(KeyFor(field)(a), KeyFor(field)(b))
  }

  /** `a` may come before `b` in the default order: not created earlier. */
  predicate NotOlder(a: CategoryData, b: CategoryData) {
    a.createdAt >= b.createdAt
  }

  /**
   * The page a category search returns is in the requested order: by an
   * allowed field in the given direction, or newest first when no field is
   * given.
   */
  lemma SearchPageIsOrdered(entities: seq<CategoryData>, params: Searchable.SearchParams<string>)
    ensures var r := Search(entities, params);
            && (params.sort.Some? && params.sort.value in SortableFields ==>
                  forall i, j :: 0 <= i < j < |r.items| ==>
                    InFieldOrder(params.sort.value, params.sortDir, r.items[i], r.items[j]))
            && (params.sort.None? || params.sort.value == "" ==>
                  forall i, j :: 0 <= i < j < |r.items| ==> NotOlder(r.items[i], r.items[j]))
  {
    var filtered := ApplyFilter(entities, params.filter);
    if params.sort.Some? && params.sort.value in SortableFields {
      var field, dir := params.sort.value, params.sortDir;
      AllowedFieldSortsByIt(filtered, field, dir, None);
      Searchable.SearchPageKeepsOrder(entities, params, ApplyFilter, SortHook,
                                      (a, b) => InFieldOrder(field, dir, a, b));
    }
    if params.sort.None? || params.sort.value == "" {
      DefaultSortIsNewestFirst(filtered, params.sort, params.sortDir, None);
      Searchable.SearchPageKeepsOrder(entities, params, ApplyFilter, SortHook, NotOlder);
    }
  }
}
