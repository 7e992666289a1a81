/** The seedwork repository layer: the query-parameter record `SearchParams` and the generic
    in-memory CRUD repository, which keeps its entities in one ordered list and finds them by
    a linear scan on their id. */
module Repositories {
  import opened Entities

  datatype Option<T> = None | Some(value: T)

  // ---------------------------------------------------------------------------------------
  // Query parameters
  // ---------------------------------------------------------------------------------------

  /** The query parameters of a search. Every field is optional: a caller may pass `None`
      explicitly. `filter` is of whatever type the concrete repository filters by. */
  datatype SearchParams<F> = SearchParams(
    page: Option<int>,
    perPage: Option<int>,
    sort: Option<string>,
    sortDir: Option<string>,
    filter: Option<F>)

  /** `__post_init__`: runs the five normalisation hooks in order (page, per_page, sort,
      sort_dir, filter). Every hook is empty, so each leaves the record as it is. */
  function PostInit<F>(p: SearchParams<F>): SearchParams<F>
  {
    p
  }

  /** Construction of a `SearchParams`, with the dataclass defaults for omitted arguments. */
  function NewSearchParams<F>(page: Option<int> := Some(1), perPage: Option<int> := Some(15),
                              sort: Option<string> := None, sortDir: Option<string> := None,
                              filter: Option<F> := None): (p: SearchParams<F>)
    ensures p.page == page && p.perPage == perPage
    ensures p.sort == sort && p.sortDir == sortDir && p.filter == filter
  {
    PostInit(SearchParams(page, perPage, sort, sortDir, filter))
  }

  /** With no arguments: page 1, 15 per page, no sort, no direction, no filter. */
  lemma SearchParamsDefaults<F>()
    ensures NewSearchParams<F>() == SearchParams(Some(1), Some(15), None, None, None)
  {
  }

  // ---------------------------------------------------------------------------------------
  // Errors
  // ---------------------------------------------------------------------------------------

  /** The single error kind of this layer. */
  datatype NotFoundException = NotFoundException(message: string)

  /** The message of a failed lookup: the queried id between single quotes. */
  function NotFoundMessage(id: string): string
  {
    "Entity not found using ID '" + id + "'"
  }

  /** The message determines the id it was raised for: the queried string is embedded verbatim. */
  lemma NotFoundMessageNamesTheId(a: string, b: string)
    requires NotFoundMessage(a) == NotFoundMessage(b)
    ensures a == b
  {
    var prefix := "Entity not found using ID '";
    var m := NotFoundMessage(a);
    assert |m| == |prefix| + |a| + 1;
    assert m[|prefix|..|m| - 1] == a;
    assert NotFoundMessage(b)[|prefix|..|m| - 1] == b;
  }

  /** What a lookup returns, or the exception it raises. */
  datatype Result<T> = Ok(value: T) | Err(error: NotFoundException)

  /** What `update` and `delete` do: return normally, or raise. */
  datatype Outcome = Done | Raised(error: NotFoundException)

  // ---------------------------------------------------------------------------------------
  // Lookups over the stored list
  // ---------------------------------------------------------------------------------------

  /** The position of the first entity whose id is `id`, or `|items|` when no id matches. */
  function FirstIdMatch<T>(items: seq<Entity<T>>, id: string): (k: nat)
    ensures k <= |items|
    ensures k < |items| ==> items[k].id == id
    ensures forall j :: 0 <= j < k ==> items[j].id != id
  {
    if items == [] then 0
    else if items[0].id == id then 0
    else 1 + FirstIdMatch(items[1..], id)
  }

  /** Any position that is a match with no match before it, or the end with no match at
      all, is the one `FirstIdMatch` finds. */
  lemma FirstIdMatchAt<T>(items: seq<Entity<T>>, id: string, t: nat)
    requires t <= |items|
    requires t < |items| ==> items[t].id == id
    requires forall j :: 0 <= j < t ==> items[j].id != id
    ensures FirstIdMatch(items, id) == t
  {
  }

  /** `_get`: the first stored entity whose id equals `id`, or `NotFoundException` with the
      fixed message when none does. Stored entities are dataclass instances and always
      truthy, so the `not entity` test fails exactly when the scan found nothing. */
  function Get<T>(items: seq<Entity<T>>, id: string): (r: Result<Entity<T>>)
    ensures r.Ok? <==> exists i :: 0 <= i < |items| && items[i].id == id
    ensures r.Ok? ==> r.value.id == id
    ensures r.Ok? ==> exists k :: 0 <= k < |items| && items[k] == r.value &&
                                  forall j :: 0 <= j < k ==> items[j].id != id
    ensures r.Err? ==> r.error == NotFoundException(NotFoundMessage(id))
  {
    var k := FirstIdMatch(items, id);
    if k < |items| then Ok(items[k]) else Err(NotFoundException(NotFoundMessage(id)))
  }

  /** `list.index(x)`: the position of the first element structurally equal to `x`. The
      repository calls it only with an element it has just found in the list. */
  function IndexOf<T(==)>(s: seq<T>, x: T): (k: nat)
    requires x in s
    ensures k < |s| && s[k] == x
    ensures forall j :: 0 <= j < k ==> s[j] != x
  {
    if s[0] == x then 0 else 1 + IndexOf(s[1..], x)
  }

  /** `list.remove(x)`: drops the first element structurally equal to `x`, keeping the order
      of the others. */
  function Remove<T(==)>(s: seq<T>, x: T): (r: seq<T>)
    requires x in s
    ensures |r| == |s| - 1
    ensures multiset(r) == multiset(s) - multiset{x}
    ensures forall j :: 0 <= j < IndexOf(s, x) ==> r[j] == s[j]
    ensures forall j :: IndexOf(s, x) <= j < |r| ==> r[j] == s[j + 1]
  {
    var k := IndexOf(s, x);
    assert s == s[..k] + [s[k]] + s[k + 1..];
    s[..k] + s[k + 1..]
  }

  /** `update` and `delete` look the entity up by id and then locate it again by structural
      equality. Since equality includes the id, no element before the first id match can be
      equal to it, so both searches land on the same position even when ids repeat. */
  lemma IndexOfFoundIsFirstIdMatch<T>(items: seq<Entity<T>>, id: string)
    requires Get(items, id).Ok?
    ensures Get(items, id).value in items
    ensures IndexOf(items, Get(items, id).value) == FirstIdMatch(items, id)
  {
  }

  // ---------------------------------------------------------------------------------------
  // The list after a successful update or delete
  // ---------------------------------------------------------------------------------------

  /** The stored list after `update(entity)` found `entity.id`: the first match replaced. */
  function Updated<T>(items: seq<Entity<T>>, entity: Entity<T>): seq<Entity<T>>
    requires FirstIdMatch(items, entity.id) < |items|
  {
    items[FirstIdMatch(items, entity.id) := entity]
  }

  /** The stored list after `delete(id)` found `id`: the first match removed. */
  function Deleted<T>(items: seq<Entity<T>>, id: string): (r: seq<Entity<T>>)
    requires FirstIdMatch(items, id) < |items|
  {
    var k := FirstIdMatch(items, id);
    items[..k] + items[k + 1..]
  }

  /** The number of stored entities with id `id`. */
  function CountId<T>(items: seq<Entity<T>>, id: string): (n: nat)
    ensures n <= |items|
  {
    if items == [] then 0
    else (if items[0].id == id then 1 else 0) + CountId(items[1..], id)
  }

  lemma {:induction false} CountIdConcat<T>(a: seq<Entity<T>>, b: seq<Entity<T>>, id: string)
    ensures CountId(a + b, id) == CountId(a, id) + CountId(b, id)
  {
    if a == [] {
      assert a + b == b;
    } else {
      assert (a + b)[1..] == a[1..] + b;
      CountIdConcat(a[1..], b, id);
    }
  }

  /** Some entity has id `id` exactly when at least one is counted. */
  lemma {:induction false} CountIdPositive<T>(items: seq<Entity<T>>, id: string)
    ensures CountId(items, id) > 0 <==> FirstIdMatch(items, id) < |items|
  {
    if items != [] && items[0].id != id {
      CountIdPositive(items[1..], id);
    }
  }

  /** No id occurs twice. Inserting does not enforce this; it is the invariant lookups assume. */
  predicate UniqueIds<T>(items: seq<Entity<T>>)
  {
    forall i, j :: 0 <= i < j < |items| ==> items[i].id != items[j].id
  }

  // ---------------------------------------------------------------------------------------
  // What later lookups see
  // ---------------------------------------------------------------------------------------

  /** After `insert(entity)`, a lookup of an id already stored still finds the earlier entity
      (there is no duplicate-id check); a lookup of `entity.id` when it was absent finds
      `entity`; other lookups are unaffected. */
  lemma GetAfterInsert<T>(items: seq<Entity<T>>, entity: Entity<T>, id: string)
    ensures Get(items, id).Ok? ==> Get(items + [entity], id) == Get(items, id)
    ensures Get(items, id).Err? && id == entity.id ==> Get(items + [entity], id) == Ok(entity)
    ensures id != entity.id ==> Get(items + [entity], id) == Get(items, id)
  {
    var s := items + [entity];
    var k := FirstIdMatch(items, id);
    if k < |items| {
      FirstIdMatchAt(s, id, k);
    } else if id == entity.id {
      FirstIdMatchAt(s, id, |items|);
    } else {
      FirstIdMatchAt(s, id, |s|);
    }
  }

  /** After a successful `update(entity)`: the length is unchanged and only the first match
      of `entity.id` differs, now holding `entity`. */
  lemma UpdatedReplacesFirstMatch<T>(items: seq<Entity<T>>, entity: Entity<T>)
    requires FirstIdMatch(items, entity.id) < |items|
    ensures |Updated(items, entity)| == |items|
    ensures Updated(items, entity)[FirstIdMatch(items, entity.id)] == entity
    ensures forall j :: 0 <= j < |items| && j != FirstIdMatch(items, entity.id) ==>
                          Updated(items, entity)[j] == items[j]
  {
  }

  /** After a successful `update(entity)`, a lookup of `entity.id` returns `entity`, and
      lookups of any other id return what they returned before. */
  lemma GetAfterUpdate<T>(items: seq<Entity<T>>, entity: Entity<T>, id: string)
    requires FirstIdMatch(items, entity.id) < |items|
    ensures Get(Updated(items, entity), entity.id) == Ok(entity)
    ensures id != entity.id ==> Get(Updated(items, entity), id) == Get(items, id)
  {
    var u := Updated(items, entity);
    var k := FirstIdMatch(items, entity.id);
    FirstIdMatchAt(u, entity.id, k);
    if id != entity.id {
      var m := FirstIdMatch(items, id);
      assert m != k;
      FirstIdMatchAt(u, id, m);
    }
  }

  /** After a successful `delete(id)`: the list is one shorter, the entities before the first
      match stay where they were and those after it move down by one, in the same order, and
      exactly one entity with that id is gone. */
  lemma DeletedRemovesFirstMatch<T>(items: seq<Entity<T>>, id: string)
    requires FirstIdMatch(items, id) < |items|
    ensures |Deleted(items, id)| == |items| - 1
    ensures forall j :: 0 <= j < FirstIdMatch(items, id) ==> Deleted(items, id)[j] == items[j]
    ensures forall j :: FirstIdMatch(items, id) <= j < |items| - 1 ==> Deleted(items, id)[j] == items[j + 1]
    ensures CountId(Deleted(items, id), id) == CountId(items, id) - 1
  {
    var k := FirstIdMatch(items, id);
    var before, after := items[..k], items[k + 1..];
    assert items == before + [items[k]] + after;
    CountIdConcat(before + [items[k]], after, id);
    CountIdConcat(before, [items[k]], id);
    CountIdConcat(before, after, id);
  }

  /** Deleting the first match of `id` moves the first match of any other id down by one
      when it lay after the deleted position, and leaves it in place otherwise. */
  lemma FirstIdMatchAfterDelete<T>(items: seq<Entity<T>>, id: string, other: string)
    requires FirstIdMatch(items, id) < |items|
    requires other != id
    ensures FirstIdMatch(items, other) != FirstIdMatch(items, id)
    ensures FirstIdMatch(Deleted(items, id), other) ==
              if FirstIdMatch(items, other) < FirstIdMatch(items, id) then FirstIdMatch(items, other)
              else FirstIdMatch(items, other) - 1
  {
    var d := Deleted(items, id);
    var k := FirstIdMatch(items, id);
    var m := FirstIdMatch(items, other);
    DeletedRemovesFirstMatch(items, id);
    if m < k {
      FirstIdMatchAt(d, other, m);
    } else {
      forall j | 0 <= j < m - 1 ensures d[j].id != other {
        if j >= k {
          assert d[j] == items[j + 1];
        }
      }
      FirstIdMatchAt(d, other, m - 1);
    }
  }

  /** After a successful `delete(id)`, lookups of any other id return what they returned
      before. */
  lemma GetAfterDelete<T>(items: seq<Entity<T>>, id: string, other: string)
    requires FirstIdMatch(items, id) < |items|
    requires other != id
    ensures Get(Deleted(items, id), other) == Get(items, other)
  {
    FirstIdMatchAfterDelete(items, id, other);
    DeletedRemovesFirstMatch(items, id);
  }

  /** When ids are unique, a deleted id is no longer found. */
  lemma DeleteUniqueThenNotFound<T>(items: seq<Entity<T>>, id: string)
    requires UniqueIds(items)
    requires FirstIdMatch(items, id) < |items|
    ensures Get(Deleted(items, id), id) == Err(NotFoundException(NotFoundMessage(id)))
  {
  }

  /** Inserting keeps ids unique exactly when the new id is not stored yet. */
  lemma InsertKeepsUniqueIds<T>(items: seq<Entity<T>>, entity: Entity<T>)
    requires UniqueIds(items)
    ensures UniqueIds(items + [entity]) <==> Get(items, entity.id).Err?
  {
    var s := items + [entity];
    if Get(items, entity.id).Ok? {
      var i :| 0 <= i < |items| && items[i].id == entity.id;
      assert s[i].id == s[|items|].id;
    }
  }

  /** Updating and deleting keep ids unique. */
  lemma UpdateAndDeleteKeepUniqueIds<T>(items: seq<Entity<T>>, entity: Entity<T>, id: string)
    requires UniqueIds(items)
    ensures FirstIdMatch(items, entity.id) < |items| ==> UniqueIds(Updated(items, entity))
    ensures FirstIdMatch(items, id) < |items| ==> UniqueIds(Deleted(items, id))
  {
  }

  // ---------------------------------------------------------------------------------------
  // The repository
  // ---------------------------------------------------------------------------------------

  /** `InMemoryRepository`: the stored entities in insertion order, changed in place. */
  class InMemoryRepository<T(==)> {
    var items: seq<Entity<T>>

    /** A new repository stores nothing. */
    constructor ()
      ensures items == []
    {
      items := [];
    }

    /** The dataclass `__init__` given `items=`: the repository starts with those entities. */
    constructor WithItems(initial: seq<Entity<T>>)
      ensures items == initial
    {
      items := initial;
    }

    /** `insert`: appends, with no duplicate-id check. */
    method Insert(entity: Entity<T>)
      modifies this
      ensures items == old(items) + [entity]
    {
      items := items + [entity];
    }

    /** `find_by_id`: normalises the id with `str` and returns `_get`'s answer; a raw
        string and a `UniqueEntityId` with the same string are looked up alike. */
    method FindById(entityId: EntityId) returns (r: Result<Entity<T>>)
      ensures r == Get(items, ToStr(entityId))
    {
      var idStr := ToStr(entityId);
      r := Get(items, idStr);
    }

    /** `find_all`: every stored entity, in storage order. */
    method FindAll() returns (r: seq<Entity<T>>)
      ensures r == items
    {
      r := items;
    }

    /** `update`: finds `entity.id` (raising before any change when it is absent), locates the
        found entity again with `list.index`, and overwrites that position. */
    method Update(entity: Entity<T>) returns (o: Outcome)
      modifies this
      ensures FirstIdMatch(old(items), entity.id) < |old(items)| ==>
                o == Done && items == Updated(old(items), entity)
      ensures FirstIdMatch(old(items), entity.id) == |old(items)| ==>
                o == Raised(NotFoundException(NotFoundMessage(entity.id))) && items == old(items)
    {
      var entityFound := Get(items, entity.id);
      if entityFound.Err? {
        return Raised(entityFound.error);
      }
      IndexOfFoundIsFirstIdMatch(items, entity.id);
      var index := IndexOf(items, entityFound.value);
      items := items[index := entity];
      o := Done;
    }

    /** `delete`: normalises the id with `str`, finds it (raising before any change when it is
        absent), and removes the found entity with `list.remove`. */
    method Delete(entityId: EntityId) returns (o: Outcome)
      modifies this
      ensures FirstIdMatch(old(items), ToStr(entityId)) < |old(items)| ==>
                o == Done && items == Deleted(old(items), ToStr(entityId))
      ensures FirstIdMatch(old(items), ToStr(entityId)) == |old(items)| ==>
                o == Raised(NotFoundException(NotFoundMessage(ToStr(entityId)))) && items == old(items)
    {
      var idStr := ToStr(entityId);
      var entityFound := Get(items, idStr);
      if entityFound.Err? {
        return Raised(entityFound.error);
      }
      IndexOfFoundIsFirstIdMatch(items, idStr);
      items := Remove(items, entityFound.value);
      o := Done;
    }
  }
}
