/** The entity shapes the repository stores and the identifier forms its lookups accept.
    Only what the repository relies on is kept: an entity's id string and its structural
    equality. Id generation and UUID validation are not part of this model. */
module Entities {

  /** An identifier as a caller passes it to `find_by_id` or `delete`: either a raw string
      or a `UniqueEntityId` value object wrapping the UUID string. */
  datatype EntityId = Raw(raw: string) | Unique(uuid: string)

  /** `str(entity_id)`: both forms are normalised to the plain string key before any lookup. */
  function ToStr(entityId: EntityId): string
  {
    match entityId
    case Raw(s) => s
    case Unique(u) => u
  }

  /** An entity: the string form of its `UniqueEntityId` (the `id` property) and its declared
      fields. Datatype equality is structural over both, as the dataclass `__eq__` is, so two
      entities with the same id but a changed field are different values. */
  datatype Entity<T> = Entity(id: string, fields: T)
}
