# In-memory repository and Category entity — a Dafny model

This project models the persistence core of an admin service for a video
catalogue: a repository that keeps entities in an ordered in-process store,
finds them by identity, and answers searches by filtering, sorting and
paginating; the Category entity it stores; and the not-found error it raises.

- `InMemory.InMemoryRepository` is the store. `entities` is a sequence that
  `Insert`, `BulkInsert`, `Update` and `Delete` reassign. Lookup goes by id
  equality (`FirstIndex`), never by reference. `Update` and `Delete` return
  the `NotFoundError` that the source throws. The members a concrete
  repository supplies (`getEntity().name`, the `applyFilter` hook and the
  `applySort` that `search` dispatches to) are fields set at construction.
- `Searchable` holds the search values (`SearchParams`, `SearchResult`,
  `last_page`), the base `applySort` with its allow-list guard, the stable
  sort it runs (`StableSort`, ordered by the comparator of `SortKeys`),
  `applyPagination`, and the filter → sort → paginate pipeline.
- `CategoryInMemory` is the Category repository. Its filter is a
  case-insensitive substring test on the name. Its sortable fields are
  `name` and `created_at`. With no sort field it orders newest first.
- `CategoryDomain.Category` is the entity: a class whose fields the
  constructor defaults and whose methods update in place. A ghost counter
  records how many times the validator ran.
- `Errors` builds the not-found message from the entity class name and one
  id or a joined list of ids.
- `Scenarios` restates the filter, sort and pagination cases of the
  searchable repository's tests on the Category repository. Those tests run on a
  stub repository whose filter also reads the description and whose only
  sortable field is `name`. The restated cases fix only the names, and on
  those names both repositories give the same result.

Randomness and the clock are parameters: `freshId` stands for `new Uuid()`
and `now` for `new Date()`, as a time value in milliseconds.

## Model

| member | source | states |
|---|---|---|
| `Identity.UuidEqualityIsTextEquality` | src/shared/domain/value-objects/uuid.vo.ts:4-21 | two ids are equal exactly when their texts are (structural equality of the value object) |
| `Errors.NewNotFoundError` | src/shared/domain/errors/not-found.error.ts:3-9 | the error's name is "NotFoundError"; its message is the prefix for the entity class followed by the id text, length included |
| `Errors.MessageForIds` | src/shared/domain/errors/not-found.error.ts:4-6 | one id gives exactly "Entity <name> Not found using id <id>"; an empty array gives an empty id part; a one-element array gives the same message as that id |
| `Errors.IdTextRoundTrip` | src/shared/domain/errors/not-found.error.ts:5-6 | the id text can be read back from the message: the message is built only from the class name and the ids |
| `Errors.MessageDeterminesIdText` | src/shared/domain/errors/not-found.error.ts:5-6 | for one entity class, equal errors mean equal id texts |
| `Errors.JoinLength` | src/shared/domain/errors/not-found.error.ts:5 | joining puts exactly one separator between neighbouring ids and none at the ends |
| `Errors.JoinAppend` | src/shared/domain/errors/not-found.error.ts:5 | joining keeps the ids in order: one more id appends ", " and that id |
| `Errors.EntityValidatorError.Count` | src/shared/domain/validators/validator-error.ts:7-9 | `count()` is zero exactly when no field has an error |
| `Errors.NewEntityValidatorError` | src/shared/domain/validators/validator-error.ts:3-6 | the error keeps the validator's errors and takes the default message "Validation Error" |
| `SortKeys.TextLessIrreflexive` | src/shared/infra/db/in-memory/in-memory-repository.ts:100-106 | no string is smaller than itself under JavaScript's string `<` |
| `SortKeys.TextLessTransitive` | src/shared/infra/db/in-memory/in-memory-repository.ts:100-106 | string `<` is transitive |
| `SortKeys.TextLessTrichotomous` | src/shared/infra/db/in-memory/in-memory-repository.ts:100-106 | of two strings, one is smaller or they are equal |
| `SortKeys.LessIsStrictTotalOrder` | src/shared/infra/db/in-memory/in-memory-repository.ts:100-106 | `<` on sort keys is a strict total order |
| `SortKeys.Compare` | src/shared/infra/db/in-memory/in-memory-repository.ts:100-108 | the comparator returns -1, 0 or 1, and 0 exactly when neither key is smaller, i.e. on equal keys |
| `SortKeys.CompareIsConsistent` | src/shared/infra/db/in-memory/in-memory-repository.ts:95-109 | the comparator is zero exactly on equal keys, antisymmetric and transitive, as a sort comparator must be |
| `SortKeys.CompareFollowsDirection` | src/shared/infra/db/in-memory/in-memory-repository.ts:100-106 | "asc" puts the smaller key first, any other direction the larger |
| `StableSort.SortIsPermutation` | src/shared/infra/db/in-memory/in-memory-repository.ts:95 | the sorted copy holds exactly the input's elements |
| `StableSort.SortIsSorted` | src/shared/infra/db/in-memory/in-memory-repository.ts:95-109 | no element of the result compares after a later one |
| `StableSort.SortIsStable` | src/shared/infra/db/in-memory/in-memory-repository.ts:95-109 | elements with equal keys keep their input order |
| `StableSort.SortIsUnique` | src/shared/infra/db/in-memory/in-memory-repository.ts:95-109 | every sorted, order-keeping arrangement of the input is the model's result, so any stable sort gives it |
| `Searchable.PageCount` | src/shared/infra/db/in-memory/_tests_/in-memory-searchable.repository.spec.ts:264-268 | `last_page` is the ceiling of total / per_page: the fewest pages that hold every match |
| `Searchable.ApplyPagination` | src/shared/infra/db/in-memory/in-memory-repository.ts:112-120 | the page holds at most per_page items, item i being item (page-1)*per_page+i of the input, clipped at the end |
| `Searchable.PageIsEmptyIffPastLastPage` | src/shared/infra/db/in-memory/in-memory-repository.ts:112-120 | a page is empty exactly when its number is past the last page |
| `Searchable.EveryItemIsOnItsPage` | src/shared/infra/db/in-memory/in-memory-repository.ts:117-119 | every item appears on page j / per_page + 1 at position j % per_page |
| `Searchable.ApplySort` | src/shared/infra/db/in-memory/in-memory-repository.ts:86-110 | never changes the number of items; a null, empty or disallowed sort field returns the items unchanged |
| `Searchable.ApplySortSortsStably` | src/shared/infra/db/in-memory/in-memory-repository.ts:95-109 | an allowed field gives a permutation sorted by that field in the direction, equal keys in input order |
| `Searchable.Search` | src/shared/infra/db/in-memory/in-memory-repository.ts:60-79 | total is the size of the filtered set, page and per_page are echoed, and the items are exactly the requested page of the sorted matches: item i is sorted match (page-1)*per_page+i, clipped at the end |
| `Searchable.SearchPageKeepsOrder` | src/shared/infra/db/in-memory/in-memory-repository.ts:62-71 | any pairwise order the sorted matches are in holds along the returned page |
| `Searchable.SearchPageComesFromMatches` | src/shared/infra/db/in-memory/in-memory-repository.ts:61-71 | when the sort only reorders, every returned item is one of the filtered matches |
| `Searchable.DefaultSearchParams` | src/shared/infra/db/in-memory/_tests_/in-memory-searchable.repository.spec.ts:294-309 | a search with no parameters asks for page 1 of 15 items, with no sort and no filter |
| `Searchable.SearchPageEmptyIffPastLastPage` | src/shared/infra/db/in-memory/in-memory-repository.ts:60-79 | when sorting keeps the count, the page is empty exactly when it is past `last_page` |
| `InMemory.FirstIndex` | src/shared/infra/db/in-memory/in-memory-repository.ts:28 | the first position whose entity has the id, or none exactly when no entity has it |
| `InMemory.InMemoryRepository.constructor` | src/shared/infra/db/in-memory/in-memory-repository.ts:19 | the store starts empty |
| `InMemory.InMemoryRepository.Insert` | src/shared/infra/db/in-memory/in-memory-repository.ts:20-22 | the entity is appended; earlier entries are unchanged |
| `InMemory.InMemoryRepository.BulkInsert` | src/shared/infra/db/in-memory/in-memory-repository.ts:23-25 | all given entities are appended in input order |
| `InMemory.InMemoryRepository.GetIndexOrThrow` | src/shared/infra/db/in-memory/in-memory-repository.ts:27-33 | the first index holding the id, or a NotFoundError naming the entity class and the id exactly when none does |
| `InMemory.InMemoryRepository.Update` | src/shared/infra/db/in-memory/in-memory-repository.ts:34-37 | fails and changes nothing when the id is absent; otherwise replaces the first match and nothing else |
| `InMemory.InMemoryRepository.Delete` | src/shared/infra/db/in-memory/in-memory-repository.ts:38-41 | fails and changes nothing when the id is absent; otherwise removes the first match, the rest keeping their order |
| `InMemory.InMemoryRepository.FindById` | src/shared/infra/db/in-memory/in-memory-repository.ts:42-44 | the first entity with the id, or null exactly when none has it; the store is not changed |
| `InMemory.InMemoryRepository.FindAll` | src/shared/infra/db/in-memory/in-memory-repository.ts:45-47 | every stored entity in storage order |
| `InMemory.InMemoryRepository.Search` | src/shared/infra/db/in-memory/in-memory-repository.ts:60-79 | the pipeline over the current store: total counts the filtered entities, and the items are the requested page of the sorted matches |
| `InMemory.FindAfterInsert` | src/shared/infra/db/in-memory/in-memory-repository.ts:20-22 | after insert, findById with the new id gives the new entity unless an earlier entity had that id |
| `InMemory.FindAfterUpdate` | src/shared/infra/db/in-memory/in-memory-repository.ts:34-37 | after a successful update, findById with that id gives the new entity |
| `InMemory.DeleteRemovesOne` | src/shared/infra/db/in-memory/in-memory-repository.ts:38-41 | a successful delete shortens the store by one and removes one occurrence of the found entity |
| `InMemory.DeleteLeavesNoMatch` | src/shared/infra/db/in-memory/in-memory-repository.ts:38-41 | with unique ids, nothing has the id after a successful delete |
| `InMemory.OperationsKeepIdsUnique` | src/shared/infra/db/in-memory/in-memory-repository.ts:20-41 | inserting an absent id, updating and deleting keep ids unique |
| `CategoryDomain.ValidationErrors` | src/category/domain/category.entity.ts:66-72 | only the name can fail; no errors exactly when the name is non-empty and at most 255 characters; each message appears exactly when its rule fails |
| `CategoryDomain.TestedValidationMessages` | src/category/domain/_tests_/category.entity.spec.ts:126-137 | an empty name gives "name should not be empty"; 256 characters give the length message; "Drama" is valid |
| `CategoryDomain.InvalidCategoryErrorCountsName` | src/category/domain/category.entity.ts:66-72 | the error an invalid category raises has the name as its one field, with the name's messages, and the default message |
| `CategoryDomain.ValidityIgnoresDescription` | src/category/domain/category.entity.ts:53-64 | changing the description or the active flag never changes validity |
| `CategoryDomain.Category.constructor` | src/category/domain/category.entity.ts:29-36 | absent or null id and date are generated, description defaults to null and is_active to true; supplied values, false included, are kept |
| `CategoryDomain.Category.EntityId` | src/category/domain/category.entity.ts:38-40 | entity_id is the category id |
| `CategoryInMemory.IdOfIsEntityId` | src/shared/infra/db/in-memory/in-memory-repository.ts:28 | the id the store matches stored categories on is the category's `entity_id` |
| `CategoryDomain.Category.Validate` | src/category/domain/category.entity.ts:66-72 | runs the validator once and fails, with its errors, exactly when the category is invalid |
| `CategoryDomain.Category.Create` | src/category/domain/category.entity.ts:42-46 | builds with defaults, validates exactly once, and returns the category only when valid |
| `CategoryDomain.Category.ChangeNames` | src/category/domain/category.entity.ts:48-51 | sets only the name, then validates once; on failure the new name is already stored |
| `CategoryDomain.Category.ChangeDescription` | src/category/domain/category.entity.ts:53-56 | sets only the description, then validates once; fails exactly when the name was invalid |
| `CategoryDomain.Category.Activate` | src/category/domain/category.entity.ts:58-60 | sets is_active and nothing else; no validation runs |
| `CategoryDomain.Category.Deactivate` | src/category/domain/category.entity.ts:62-64 | clears is_active and nothing else; no validation runs |
| `CategoryInMemory.Lower` | src/category/infra/db/in-memory/in-memory-repository.ts:20 | lower-casing keeps the length and lower-cases each character |
| `CategoryInMemory.LowerIsIdempotent` | src/category/infra/db/in-memory/in-memory-repository.ts:20 | lower-casing twice is lower-casing once |
| `CategoryInMemory.KeepMatching` | src/category/infra/db/in-memory/in-memory-repository.ts:19-21 | keeps exactly the items whose lower-cased name contains the lower-cased filter |
| `CategoryInMemory.KeepMatchingAppend` | src/category/infra/db/in-memory/in-memory-repository.ts:19-21 | the filter keeps the items' original order |
| `CategoryInMemory.ApplyFilter` | src/category/infra/db/in-memory/in-memory-repository.ts:12-22 | a null or empty filter returns the items unchanged; otherwise exactly the name matches |
| `CategoryInMemory.MatchesReadsNameIgnoringCase` | src/category/infra/db/in-memory/in-memory-repository.ts:19-21 | the description is not searched and the filter's case does not matter |
| `CategoryInMemory.ApplySort` | src/category/infra/db/in-memory/in-memory-repository.ts:26-35 | the override never changes the number of items |
| `CategoryInMemory.KeyForReadsField` | src/category/infra/db/in-memory/in-memory-repository.ts:11 | the two sortable fields read the name and the creation time |
| `CategoryInMemory.CustomGetterIsIgnored` | src/category/infra/db/in-memory/in-memory-repository.ts:26-35 | the custom getter given to the override has no effect |
| `CategoryInMemory.UnsortableFieldKeepsOrder` | src/category/infra/db/in-memory/in-memory-repository.ts:32-33 | a non-empty field off the allow-list returns the items unchanged, not default-sorted |
| `CategoryInMemory.DefaultSortIsNewestFirst` | src/category/infra/db/in-memory/in-memory-repository.ts:32-34 | with no sort field the items are reordered by created_at descending, ties in input order |
| `CategoryInMemory.AllowedFieldSortsByIt` | src/category/infra/db/in-memory/in-memory-repository.ts:11 | name and created_at sort the items by that field in the given direction, ties in input order |
| `CategoryInMemory.NewCategoryRepository` | src/category/infra/db/in-memory/in-memory-repository.ts:7-25 | an empty store that names Category in its errors and uses the category filter and sort |
| `CategoryInMemory.NotFoundNamesCategory` | src/category/infra/db/in-memory/in-memory-repository.ts:23-25 | the not-found message of this repository is "Entity Category Not found using id <id>" |
| `CategoryInMemory.SortHookIsPermutation` | src/category/infra/db/in-memory/in-memory-repository.ts:26-35 | the override never drops or adds an item |
| `CategoryInMemory.SearchReturnsMatches` | src/shared/infra/db/in-memory/in-memory-repository.ts:60-79 | a category search returns only stored, matching categories, counts every match, and is empty exactly past the last page |
| `CategoryInMemory.SearchPageIsOrdered` | src/shared/infra/db/in-memory/in-memory-repository.ts:60-79 | the returned page is ordered by an allowed sort field in the given direction, or newest first when no field is given |
| `Scenarios.PaginationScenario` | src/shared/infra/db/in-memory/_tests_/in-memory-searchable.repository.spec.ts:134-155 | five items by two: pages of 2, 2, 1 and 0 items |
| `Scenarios.LastPageScenario` | src/shared/infra/db/in-memory/_tests_/in-memory-searchable.repository.spec.ts:294-312 | twenty items fill two pages of 10 or of the default 15; the first default page is full |
| `Scenarios.SortByNameScenario` | src/shared/infra/db/in-memory/_tests_/in-memory-searchable.repository.spec.ts:119-131 | names b, a, c sort to a, b, c ascending and c, b, a descending |
| `Scenarios.FilterScenario` | src/shared/infra/db/in-memory/_tests_/in-memory-searchable.repository.spec.ts:159-179 | the filter "2" keeps only "name test 2"; the default search gives items [that one], total 1, page 1 of 15 |
| `Scenarios.SortedSearchScenario` | src/shared/infra/db/in-memory/_tests_/in-memory-searchable.repository.spec.ts:206-248 | a search sorted by name over a, b, c returns a first ascending and c first descending, total 3 |

## Left out

- Async wrapping: every operation is a synchronous method. Only `search`
  awaits, on the filter hook. The model runs `search` atomically, so a
  change to the store made while `search` waits is not modelled. With no
  filter the source would see that change through the live array; with a
  filter it would not.
- Shared references: the store holds attribute values (`CategoryData`),
  not object references. `findAll` returns the live array in the source; in
  the model it returns a copy. So the model does not capture that changing a
  returned Category without `update` changes the stored one.
- Generic identifiers and `ValueObject.equals`: the id type is fixed to
  `Uuid`, and deep equality is Dafny's `==` on that datatype.
- UUID format validation and generation belong to the `uuid` library. Any id
  text is accepted, and generated ids and dates come in as parameters.
- `toLowerCase` is modelled on ASCII letters only. String `<` is modelled on
  Dafny characters, which differ from UTF-16 code units beyond the Basic
  Multilingual Plane.
- Property reads and `<` on values of mixed types: each sortable field reads
  one kind of key. Fields off the allow-list are never read.
- `SearchParams` normalisation: that source is not part of this model.
  Page and page size are positive integers, so the negative positions that
  `slice` also accepts never arise.
- The category validator (class-validator rules) is not part of this
  model. Only the tested name rules are modelled. Rules about value types,
  such as "name must be a string", cannot fail for Dafny-typed values. The
  model assumes the validator has no rule on the values of description or
  is_active. `ValidationErrors`, `ValidityIgnoresDescription` and
  `Category.ChangeDescription` (which fails exactly when the stored name is
  invalid) depend on that assumption.
- The Sequelize repository, `toJSON`, `Category.fake` and the test helpers
  are left out: they are a database client, serialisers and test
  plumbing.
