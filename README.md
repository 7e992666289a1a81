# In-memory entity repository (codeflix seedwork), modelled in Dafny

This project models the generic in-memory CRUD repository of the codeflix seedwork layer
(`src/__seedwork/domain/repositories.py`): `InMemoryRepository` with `insert`, `find_by_id`,
`find_all`, `update`, `delete` and its private lookup `_get`, plus the `SearchParams` query
record.

- `entities.dfy` (module `Entities`): the identifier forms a lookup accepts (`Raw` string or
  `Unique` for a `UniqueEntityId`), their normalisation `ToStr` (Python's `str(entity_id)`), and
  the `Entity` datatype. An entity is its id string plus its fields. Datatype equality is
  structural, like the dataclass `__eq__`.
- `repositories.dfy` (module `Repositories`): `SearchParams` with its defaults and its no-op
  normalisation hooks. Also the `NotFoundException` message, and the pure lookups
  `FirstIdMatch` / `Get` (`_get`), `IndexOf` (`list.index`) and `Remove` (`list.remove`). It holds
  the class `InMemoryRepository`, whose `items: seq<Entity<T>>` field its methods reassign in
  place, and the lemmas about what later lookups see.
- `scenarios.dfy` (module `Scenarios`): client methods that follow the repository's unit tests.
  Each uses only the contracts to show insertion, lookup through both id forms, the exact
  not-found message, in-place update, and deletion.

Raised exceptions are modelled as results. A lookup returns `Result` (`Ok(entity)` or
`Err(NotFoundException(message))`); `update` and `delete` return `Outcome` (`Done` or
`Raised(...)`). Their contracts say that the error is raised before anything changes.

Points where the code does less than a caller might expect:
- Find after insert finds the inserted entity only when its id was not stored already. There is
  no duplicate-id check, so otherwise the earlier entity is found (`GetAfterInsert` states both
  cases).
- Delete removes only the first entity with the id. A later lookup of that id fails when ids are
  unique (`DeleteUniqueThenNotFound`); in general the number of entities with that id drops by
  exactly one (`DeletedRemovesFirstMatch`).
- The five `SearchParams` normalisation hooks are empty: no value is clamped or defaulted, and
  every given value is kept as it is (`NewSearchParams`).

## Model

| member | source | states |
|---|---|---|
| `Repositories.NewSearchParams` | src/__seedwork/domain/repositories.py:50-78 | constructing `SearchParams` keeps every given value unchanged, because the five normalisation hooks run by `__post_init__` do nothing |
| `Repositories.SearchParamsDefaults` | src/__seedwork/domain/repositories.py:52-56 | the defaults are page 1, 15 per page, and no sort, sort direction or filter |
| `Repositories.NotFoundMessageNamesTheId` | src/__seedwork/domain/repositories.py:108 | the not-found message embeds the queried id verbatim: two messages are equal only for the same id |
| `Repositories.FirstIdMatch` | src/__seedwork/domain/repositories.py:106 | the scan stops at the first position whose entity has the queried id; no earlier entity has it; it returns the list's length when none matches |
| `Repositories.Get` | src/__seedwork/domain/repositories.py:105-109 | `_get` succeeds exactly when some stored entity has the id, and then returns the first such entity; otherwise it fails with exactly `Entity not found using ID '<id>'` |
| `Repositories.IndexOf` | src/__seedwork/domain/repositories.py:97 | `list.index` returns the first position holding an element structurally equal to the argument |
| `Repositories.Remove` | src/__seedwork/domain/repositories.py:103 | `list.remove` removes the first element equal to the argument: the elements before it keep their positions, those after it move down by one in order, and exactly one occurrence is gone (multiset difference) |
| `Repositories.IndexOfFoundIsFirstIdMatch` | src/__seedwork/domain/repositories.py:95-103 | the position found again by structural equality (`index`, `remove`) is the first id match found by `_get`, even when ids repeat |
| `Repositories.CountIdPositive` | src/__seedwork/domain/repositories.py:106-107 | some entity with the id is stored exactly when the count of such entities is positive |
| `Repositories.GetAfterInsert` | src/__seedwork/domain/repositories.py:85-90 | after an insert: an id already stored still finds the earlier entity; the inserted id, if it was absent, finds the inserted entity; every other id finds what it found before |
| `Repositories.InsertKeepsUniqueIds` | src/__seedwork/domain/repositories.py:85-86 | starting from unique ids, the stored ids stay unique after an insert exactly when the inserted id was not yet stored |
| `Repositories.UpdatedReplacesFirstMatch` | src/__seedwork/domain/repositories.py:95-98 | after a successful update, the length is unchanged, the first match now holds the new entity, and every other position is unchanged |
| `Repositories.GetAfterUpdate` | src/__seedwork/domain/repositories.py:95-98 | after a successful update, a lookup of the entity's id returns the new entity, and lookups of other ids are unaffected |
| `Repositories.DeletedRemovesFirstMatch` | src/__seedwork/domain/repositories.py:100-103 | after a successful delete, the list is one shorter; entities before the first match keep their positions; those after it shift down by one in the same order; exactly one entity with the id is gone |
| `Repositories.FirstIdMatchAfterDelete` | src/__seedwork/domain/repositories.py:100-106 | after a delete, the first match of another id stays in place if it came before the deleted position, and otherwise moves down by one |
| `Repositories.GetAfterDelete` | src/__seedwork/domain/repositories.py:100-103 | after a successful delete, lookups of any other id return what they returned before |
| `Repositories.DeleteUniqueThenNotFound` | src/__seedwork/domain/repositories.py:100-108 | when ids are unique, a deleted id afterwards fails with the not-found message |
| `Repositories.UpdateAndDeleteKeepUniqueIds` | src/__seedwork/domain/repositories.py:95-103 | update and delete preserve uniqueness of the stored ids |
| `Repositories.InMemoryRepository.constructor` | src/__seedwork/domain/repositories.py:83 | a new repository stores no entities |
| `Repositories.InMemoryRepository.WithItems` | src/__seedwork/domain/repositories.py:81-83 | a repository constructed with `items=` starts with exactly those entities, in that order |
| `Repositories.InMemoryRepository.Insert` | src/__seedwork/domain/repositories.py:85-86 | `insert` appends the entity at the end, with no duplicate-id check |
| `Repositories.InMemoryRepository.FindById` | src/__seedwork/domain/repositories.py:88-90 | `find_by_id` normalises the id with `str` and returns `_get`'s answer, so a raw string and a `UniqueEntityId` with the same string give the same result; the stored list is not changed |
| `Repositories.InMemoryRepository.FindAll` | src/__seedwork/domain/repositories.py:92-93 | `find_all` returns every stored entity in storage order |
| `Repositories.InMemoryRepository.Update` | src/__seedwork/domain/repositories.py:95-98 | `update` replaces the first entity with the same id by the new one; when no id matches, it raises the not-found error and leaves the list unchanged |
| `Repositories.InMemoryRepository.Delete` | src/__seedwork/domain/repositories.py:100-103 | `delete` removes the first entity with the normalised id; when none matches, it raises the not-found error and leaves the list unchanged |

## Left out

- `RepositoryInterface` and `SearchableRepositoryInterface` are abstract signatures with no behaviour. The `TypeError` raised when instantiating them comes from Python's abstract-base-class machinery.
- The search pipeline (filtering, sorting and pagination of a concrete repository) and its result envelope are not part of this model. The file that implements them (`category/infra/repositories.py`) is not part of this model either.
- `Entity`, `Entity._set`, `to_dict`, and `UniqueEntityId` generation and UUID validation are not part of this model. The entity id is an opaque string, and `str(UniqueEntityId)` is taken to be its UUID string.
- WithItems: the dataclass constructor given `items=` stores the caller's own list object, so later changes by either side are seen by both. The model stores the sequence value, so that sharing is not captured.
- `find_all` returns the live list in the source, so a caller can mutate the repository through it. The model returns the sequence value, so that aliasing is not captured.
- `list.index` and `list.remove` raise `ValueError` when the element is absent. The repository only calls them with an element `_get` has just found, so the model gives them that as a precondition.
- `_get` tests the found entity with `not entity`. Entities are dataclasses without `__bool__` or `__len__` and are always truthy, so the model treats the test as "the scan found nothing".
- Concurrency is out of scope: the source assumes a single writer.
