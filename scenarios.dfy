/**
 * The concrete scenarios of the repository's tests, stated on the model
 * (src/shared/infra/db/in-memory/_tests_/in-memory-searchable.repository.spec.ts).
 */
module Scenarios {
  import opened Wrappers
  import opened SortKeys
  import opened CategoryDomain
  import Searchable
  import StableSort
  import CategoryInMemory

  /** Five items, two per page: pages 1 to 3 hold 2, 2 and 1 items, page 4 none. */
  lemma PaginationScenario(items: seq<int>)
    requires items == [1, 2, 3, 4, 5]
    ensures Searchable.ApplyPagination(items, 1, 2) == [1, 2]
    ensures Searchable.ApplyPagination(items, 2, 2) == [3, 4]
    ensures Searchable.ApplyPagination(items, 3, 2) == [5]
    ensures Searchable.ApplyPagination(items, 4, 2) == []
  {
  }

  /**
   * Twenty matches fill two pages of 10, and two pages of the default size;
   * the first page of the default size is full.
   */
  lemma LastPageScenario(items: seq<int>)
    requires |items| == 20
    ensures var perPage := Searchable.DefaultSearchParams<string>().perPage;
            && Searchable.PageCount(20, 10) == 2 && Searchable.PageCount(20, perPage) == 2
            && |Searchable.ApplyPagination(items, 1, perPage)| == 15
            && |Searchable.ApplyPagination(items, 2, perPage)| == 5
  {
  }

  /** Categories named b, a, c sort to a, b, c ascending and c, b, a descending. */
  lemma SortByNameScenario(b: CategoryData, a: CategoryData, c: CategoryData)
    requires b.name == "b" && a.name == "a" && c.name == "c"
    ensures CategoryInMemory.ApplySort([b, a, c], Some("name"), Asc, None) == [a, b, c]
    ensures CategoryInMemory.ApplySort([b, a, c], Some("name"), Desc, None) == [c, b, a]
  {
    var key := CategoryInMemory.KeyFor("name");
    CategoryInMemory.KeyForReadsField(a);
    CategoryInMemory.KeyForReadsField(b);
    CategoryInMemory.KeyForReadsField(c);
    assert TextLess("a", "b") && TextLess("b", "c") && TextLess("a", "c");
    assert !TextLess("b", "a") && !TextLess("c", "b") && !TextLess("c", "a");
    assert [b, a, c][..2] == [b, a] && [b, a][..1] == [b] && [b][..0] == [];
    assert StableSort.Sort([b], key, Asc) == [b];
    assert StableSort.Sort([b, a], key, Asc) == [a, b];
    assert StableSort.Insert(c, [b], key, Asc) == [b, c];
    assert StableSort.Sort([b, a, c], key, Asc) == [a, b, c];
    assert StableSort.Sort([b], key, Desc) == [b];
    assert StableSort.Insert(a, [b], key, Desc) == [b] + StableSort.Insert(a, [], key, Desc) == [b, a];
    assert StableSort.Sort([b, a], key, Desc) == [b, a];
    assert StableSort.Sort([b, a, c], key, Desc) == [c, b, a];
  }

  /** Lower-casing leaves a string without upper-case ASCII letters as it is. */
  lemma LowerKeepsLowerCase(s: string)
    requires forall i :: 0 <= i < |s| ==> !('A' <= s[i] <= 'Z')
    ensures CategoryInMemory.Lower(s) == s
  {
  }

  /** A one-character filter occurs only where that character does. */
  lemma AbsentCharacterIsNotContained(text: string, ch: char)
    requires forall i :: 0 <= i < |text| ==> text[i] != ch
    ensures !CategoryInMemory.Contains(text, [ch])
  {
    forall i: nat | i <= |text|
      ensures !CategoryInMemory.OccursAt(text, [ch], i)
    {
      if i + 1 <= |text| {
        assert text[i..i + 1][0] == text[i];
      }
    }
  }

  /**
   * Searching "name test 1" and "name test 2" for "2" with the default
   * parameters finds the second alone, on page 1 of 15.
   */
  lemma FilterScenario(first: CategoryData, second: CategoryData)
    requires first.name == "name test 1" && second.name == "name test 2"
    ensures CategoryInMemory.ApplyFilter([first, second], Some("2")) == [second]
    ensures CategoryInMemory.Search([first, second], Searchable.DefaultSearchParams().(filter := Some("2")))
         == Searchable.SearchResult([second], 1, 1, 15)
  {
    LowerKeepsLowerCase("2");
    LowerKeepsLowerCase(first.name);
    LowerKeepsLowerCase(second.name);
    assert CategoryInMemory.OccursAt(second.name, "2", 10);
    assert CategoryInMemory.Matches(second, "2");
    AbsentCharacterIsNotContained(first.name, '2');
    assert !CategoryInMemory.Matches(first, "2");
    assert [first, second][1..] == [second] && [second][1..] == [];
    assert [second][..0] == [];
    assert StableSort.Sort([second], CategoryInMemory.KeyFor("created_at"), Desc) == [second];
    assert CategoryInMemory.SortHook([second], None, Asc) == [second];
    assert Searchable.ApplyPagination([second], 1, 15) == [second];
  }

  /**
   * Stored in the order a, b, c, a search sorted by name starts with a
   * ascending and with c descending.
   */
  lemma SortedSearchScenario(a: CategoryData, b: CategoryData, c: CategoryData)
    requires a.name == "a" && b.name == "b" && c.name == "c"
    ensures var r := CategoryInMemory.Search([a, b, c], Searchable.DefaultSearchParams().(sort := Some("name")));
            r.items == [a, b, c] && r.total == 3
    ensures var r := CategoryInMemory.Search([a, b, c], Searchable.DefaultSearchParams().(sort := Some("name"), sortDir := Desc));
            r.items == [c, b, a] && r.total == 3
  {
    var key := CategoryInMemory.KeyFor("name");
    CategoryInMemory.KeyForReadsField(a);
    CategoryInMemory.KeyForReadsField(b);
    CategoryInMemory.KeyForReadsField(c);
    assert TextLess("a", "b") && TextLess("b", "c") && TextLess("a", "c");
    assert !TextLess("b", "a") && !TextLess("c", "b") && !TextLess("c", "a");
    assert [a, b, c][..2] == [a, b] && [a, b][..1] == [a] && [a][..0] == [];
    assert StableSort.Sort([a], key, Asc) == [a];
    assert StableSort.Insert(b, [a], key, Asc) == [a] + StableSort.Insert(b, [], key, Asc) == [a, b];
    assert StableSort.Sort([a, b], key, Asc) == [a, b];
    assert StableSort.Insert(c, [a, b], key, Asc) == [a] + StableSort.Insert(c, [b], key, Asc);
    assert StableSort.Insert(c, [b], key, Asc) == [b] + StableSort.Insert(c, [], key, Asc) == [b, c];
    assert StableSort.Sort([a, b, c], key, Asc) == [a, b, c];
    assert StableSort.Sort([a], key, Desc) == [a];
    assert StableSort.Sort([a, b], key, Desc) == [b, a];
    assert StableSort.Sort([a, b, c], key, Desc) == [c, b, a];
    assert CategoryInMemory.ApplyFilter([a, b, c], None) == [a, b, c];
    assert Searchable.ApplyPagination([a, b, c], 1, 15) == [a, b, c];
    assert Searchable.ApplyPagination([c, b, a], 1, 15) == [c, b, a];
  }
}
