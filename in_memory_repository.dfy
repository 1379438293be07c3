/**
 * The in-memory repository: an ordered store of entities found by identity
 * (src/shared/infra/db/in-memory/in-memory-repository.ts:14-79).
 */
module InMemory {
  import opened Wrappers
  import opened Identity
  import opened Errors
  import opened SortKeys
  import Searchable

  /** `findIndex` by id: the first position whose entity has id `id`, if any. */
  function FirstIndex<E>(s: seq<E>, idOf: E -> Uuid, id: Uuid): (r: Option<nat>)
    ensures r.None? <==> forall i :: 0 <= i < |s| ==> idOf(s[i]) != id
    ensures r.Some? ==> r.value < |s| && idOf(s[r.value]) == id
    ensures r.Some? ==> forall j :: 0 <= j < r.value ==> idOf(s[j]) != id
    decreases |s|
  {
    if s == [] then None
    else if idOf(s[0]) == id then Some(0)
    else match FirstIndex(s[1..], idOf, id)
      case None => None
      case Some(i) => Some(i + 1)
  }

  /** `find` by id: the first entity with id `id`, or `null`. */
  function FindFirst<E>(s: seq<E>, idOf: E -> Uuid, id: Uuid): Option<E> {
    match FirstIndex(s, idOf, id)
    case None => None
    case Some(i) => Some(s[i])
  }

  /** No two stored entities share an id (the repository does not enforce this). */
  predicate UniqueIds<E>(s: seq<E>, idOf: E -> Uuid) {
    forall i, j :: 0 <= i < j < |s| ==> idOf(s[i]) != idOf(s[j])
  }

  /**
   * An entity store. The members a concrete repository supplies are given at
   * construction: `entityName` is `getEntity().name`, `applyFilter` the
   * filter hook, and `applySort` the sort that `search` dispatches to (the
   * base one or an override).
   */
  class InMemoryRepository<E, F> {
    var entities: seq<E>
    const idOf: E -> Uuid
    const entityName: string
    const applyFilter: (seq<E>, Option<F>) -> seq<E>
    const applySort: (seq<E>, Option<string>, SortDirection) -> seq<E>

    constructor (idOf: E -> Uuid, entityName: string,
                 applyFilter: (seq<E>, Option<F>) -> seq<E>,
                 applySort: (seq<E>, Option<string>, SortDirection) -> seq<E>)
      ensures entities == []
      ensures this.idOf == idOf && this.entityName == entityName
      ensures this.applyFilter == applyFilter && this.applySort == applySort
    {
      this.idOf := idOf;
      this.entityName := entityName;
      this.applyFilter := applyFilter;
      this.applySort := applySort;
      entities := [];
    }

    /** `insert`: appends the entity; nothing checks that its id is new. */
    method Insert(entity: E)
      modifies this
      ensures entities == old(entities) + [entity]
    {
      entities := entities + [entity];
    }

    /** `bulkInsert`: appends all the given entities in their order. */
    method BulkInsert(batch: seq<E>)
      modifies this
      ensures entities == old(entities) + batch
    {
      entities := entities + batch;
    }

    /** `getIndexOrThrow`: the first index holding the id, or the not-found error. */
    method GetIndexOrThrow(entityId: Uuid) returns (r: Result<nat, NotFoundError>)
      ensures r.Failure? <==> forall i :: 0 <= i < |entities| ==> idOf(entities[i]) != entityId
      ensures r.Success? ==> r.value < |entities| && idOf(entities[r.value]) == entityId
      ensures r.Success? ==> forall j :: 0 <= j < r.value ==> idOf(entities[j]) != entityId
      ensures r.Failure? ==> r.error == NewNotFoundError(One(entityId.ToString()), entityName)
    {
      match FirstIndex(entities, idOf, entityId)
      case None =>
        r := Failure(NewNotFoundError(One(entityId.ToString()), entityName));
      case Some(i) =>
        r := Success(i);
    }

    /**
     * `update`: replaces, as a whole, the first stored entity with the same
     * id; fails and changes nothing when there is none.
     */
    method Update(entity: E) returns (o: Outcome<NotFoundError>)
      modifies this
      ensures match FirstIndex(old(entities), idOf, idOf(entity))
              case None =>
                && o == Fail(NewNotFoundError(One(idOf(entity).ToString()), entityName))
                && entities == old(entities)
              case Some(i) =>
                o == Pass && entities == old(entities)[i := entity]
    {
      var index := GetIndexOrThrow(idOf(entity));
      match index
      case Failure(e) =>
        o := Fail(e);
      case Success(i) =>
        entities := entities[i := entity];
        o := Pass;
    }

    /**
     * `delete`: removes the first stored entity with the id, keeping the
     * order of the rest; fails and changes nothing when there is none.
     */
    method Delete(entityId: Uuid) returns (o: Outcome<NotFoundError>)
      modifies this
      ensures match FirstIndex(old(entities), idOf, entityId)
              case None =>
                && o == Fail(NewNotFoundError(One(entityId.ToString()), entityName))
                && entities == old(entities)
              case Some(i) =>
                o == Pass && entities == old(entities)[..i] + old(entities)[i + 1..]
    {
      var index := GetIndexOrThrow(entityId);
      match index
      case Failure(e) =>
        o := Fail(e);
      case Success(i) =>
        entities := entities[..i] + entities[i + 1..];
        o := Pass;
    }

    /** `findById`: the first stored entity with the id, or `null`; never fails. */
    method FindById(entityId: Uuid) returns (r: Option<E>)
      ensures r.None? <==> forall i :: 0 <= i < |entities| ==> idOf(entities[i]) != entityId
      ensures r.Some? ==> idOf(r.value) == entityId && r.value in entities
      ensures r == FindFirst(entities, idOf, entityId)
    {
      r := FindFirst(entities, idOf, entityId);
    }

    /** `findAll`: every stored entity, in insertion order. */
    method FindAll() returns (all: seq<E>)
      ensures all == entities
    {
      all := entities;
    }

    /** `search`: the filter -> sort -> paginate pipeline over the store. */
    method Search(params: Searchable.SearchParams<F>) returns (r: Searchable.SearchResult<E>)
      ensures r == Searchable.Search(entities, params, applyFilter, applySort)
    {
      r := Searchable.Search(entities, params, applyFilter, applySort);
    }
  }

  /**
   * After `insert`, `findById` with the new entity's id returns it, unless an
   * entity with the same id was stored before (then that one is found).
   */
  lemma {:induction false} FindAfterInsert<E>(s: seq<E>, entity: E, idOf: E -> Uuid)
    ensures FindFirst(s + [entity], idOf, idOf(entity))
         == if FindFirst(s, idOf, idOf(entity)).Some? then FindFirst(s, idOf, idOf(entity)) else Some(entity)
    decreases |s|
  {
    var all := s + [entity];
    if s != [] {
      assert all[0] == s[0] && all[1..] == s[1..] + [entity];
      FindAfterInsert(s[1..], entity, idOf);
    }
  }

  /** After a successful `update`, `findById` with that id returns the new entity. */
  lemma FindAfterUpdate<E>(s: seq<E>, entity: E, idOf: E -> Uuid)
    requires FirstIndex(s, idOf, idOf(entity)).Some?
    ensures var i := FirstIndex(s, idOf, idOf(entity)).value;
            FindFirst(s[i := entity], idOf, idOf(entity)) == Some(entity)
  {
    var i := FirstIndex(s, idOf, idOf(entity)).value;
    var t := s[i := entity];
    assert forall j :: 0 <= j < i ==> idOf(t[j]) != idOf(entity);
    FirstIndexIsFirstMatch(t, idOf, idOf(entity), i);
  }

  /** A position holding the id with no earlier one holding it is what FirstIndex returns. */
  lemma FirstIndexIsFirstMatch<E>(s: seq<E>, idOf: E -> Uuid, id: Uuid, i: nat)
    requires i < |s| && idOf(s[i]) == id
    requires forall j :: 0 <= j < i ==> idOf(s[j]) != id
    ensures FirstIndex(s, idOf, id) == Some(i)
  {
  }

  /** A successful `delete` removes exactly one occurrence of the found entity. */
  lemma DeleteRemovesOne<E>(s: seq<E>, idOf: E -> Uuid, id: Uuid)
    requires FirstIndex(s, idOf, id).Some?
    ensures var i := FirstIndex(s, idOf, id).value;
            var t := s[..i] + s[i + 1..];
            |t| == |s| - 1 && multiset(t) + multiset{s[i]} == multiset(s)
  {
    var i := FirstIndex(s, idOf, id).value;
    assert s == s[..i] + [s[i]] + s[i + 1..];
  }

  /** With unique ids, after a successful `delete` no stored entity has the id. */
  lemma DeleteLeavesNoMatch<E>(s: seq<E>, idOf: E -> Uuid, id: Uuid)
    requires UniqueIds(s, idOf)
    requires FirstIndex(s, idOf, id).Some?
    ensures var i := FirstIndex(s, idOf, id).value;
            FirstIndex(s[..i] + s[i + 1..], idOf, id).None?
  {
    var i := FirstIndex(s, idOf, id).value;
    var t := s[..i] + s[i + 1..];
    forall k | 0 <= k < |t|
      ensures idOf(t[k]) != id
    {
      if k < i {
        assert t[k] == s[k];
      } else {
        assert t[k] == s[k + 1];
      }
    }
  }

  /**
   * The store operations keep ids unique: `insert` of an entity whose id is
   * absent, `update` (same id in the same slot) and `delete`.
   */
  lemma OperationsKeepIdsUnique<E>(s: seq<E>, idOf: E -> Uuid, entity: E, i: nat)
    requires UniqueIds(s, idOf)
    ensures FirstIndex(s, idOf, idOf(entity)).None? ==> UniqueIds(s + [entity], idOf)
    ensures i < |s| && idOf(s[i]) == idOf(entity) ==> UniqueIds(s[i := entity], idOf)
    ensures i < |s| ==> UniqueIds(s[..i] + s[i + 1..], idOf)
  {
    if i < |s| {
      var t := s[..i] + s[i + 1..];
      forall a, b | 0 <= a < b < |t|
        ensures idOf(t[a]) != idOf(t[b])
      {
        var a', b' := if a < i then a else a + 1, if b < i then b else b + 1;
        assert t[a] == s[a'] && t[b] == s[b'];
      }
    }
  }
}
