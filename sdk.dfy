/** Value types of the platform SDK that the N:N relationship manager touches:
    entity references, records, relationship metadata, query expressions,
    organization requests and their responses. */
module Sdk {

  datatype Option<+T> = None | Some(value: T)

  /** Record identifiers are opaque: the model never computes with them, it
      only compares them. */
  type Guid = int

  /** The value `GetAttributeValue<Guid>` yields for an attribute the record
      does not carry (the SDK's default, `Guid.Empty`). */
  const EmptyGuid: Guid := 0

  /** The addressable handle of one record: its entity logical name and id. */
  datatype EntityRef = EntityRef(logicalName: string, id: Guid)

  /** A record: its entity logical name and its identifier-valued attributes.
      Attributes of other types play no part in this core and are not kept. */
  datatype Entity = Entity(logicalName: string, attributes: map<string, Guid>)

  /** `GetAttributeValue<Guid>`: the attribute's value, or the default when the
      record does not carry it (no error is raised). */
  function GetGuid(e: Entity, attribute: string): Guid
  {
    if attribute in e.attributes then e.attributes[attribute] else EmptyGuid
  }

  datatype EntityRole = Referencing | Referenced

  /** The relationship handle attached to an associate or disassociate request;
      `primaryEntityRole` is `None` until a caller sets it. */
  datatype Relationship = Relationship(schemaName: string, primaryEntityRole: Option<EntityRole>)

  /** The fields of `ManyToManyRelationshipMetadata` that the core reads. */
  datatype ManyToManyMetadata = ManyToManyMetadata(
    schemaName: string,
    intersectEntityName: string,
    entity1LogicalName: string,
    entity1IntersectAttribute: string,
    entity2LogicalName: string,
    entity2IntersectAttribute: string)

  /** What a relationship lookup can return: a many-to-many relationship, or a
      one-to-many one (which the manager's cast to the many-to-many shape rejects). */
  datatype RelationshipMetadata =
    | ManyToMany(manyToMany: ManyToManyMetadata)
    | OneToMany(schemaName: string, referencedEntity: string, referencingEntity: string)

  /** A `QueryExpression` without criteria: the entity to read and the columns to project. */
  datatype Query = Query(entityName: string, columns: seq<string>)

  /** The organization requests the core issues through `Execute` and `RetrieveMultiple`. */
  datatype Request =
    | RetrieveRelationship(name: string)
    | RetrieveMultiple(query: Query)
    | Associate(relationship: Relationship, target: EntityRef, related: EntityRef)
    | Disassociate(relationship: Relationship, target: EntityRef, related: EntityRef)

  /** What the service answers; `Faulted` stands for the exception it throws. */
  datatype Response =
    | Faulted
    | RelationshipResponse(relationshipMetadata: RelationshipMetadata)
    | EntityCollection(entities: seq<Entity>)
    | Acknowledged

  /** Why a batch stopped: a request the service failed, or the cast of the
      looked-up metadata to the many-to-many shape. */
  datatype Fault = RequestFailed(request: Request) | InvalidCast(name: string)

  datatype Result<+T> = Success(value: T) | Failure(error: Fault)

  datatype Outcome = Completed | Stopped(fault: Fault)
}
