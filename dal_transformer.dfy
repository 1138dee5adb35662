/** The mapping between a persisted row and the domain entity. */
module ContactTransformer {
  import opened Common
  import opened Models
  import opened DalModel

  /** The object initializer of TransformToContactEntity: the four contact
      fields, copied. */
  function ToEntity(dbContact: Row): Entity {
    Entity(dbContact.firstName, dbContact.lastName, dbContact.phoneNumber, dbContact.address)
  }

  /** The object initializer of TransformToDbContact. `createdNow` and
      `updatedNow` are the two separate readings of the clock; the key keeps
      its default 0. */
  function ToRow(contactEntity: Entity, createdNow: DateTime, updatedNow: DateTime): (r: Row)
    ensures ToEntity(r) == contactEntity
    ensures r.id == 0 && r.createdDateUtc == createdNow && r.updateDateUtc == updatedNow
  {
    Row(0, contactEntity.firstName, contactEntity.lastName, contactEntity.phoneNumber,
        contactEntity.address, createdNow, updatedNow)
  }

  /** Row to entity, rejecting a null row. */
  function TransformToContactEntity(dbContact: Option<Row>): (r: Result<Entity>)
    ensures dbContact.None? <==> r == Failure(ArgumentNullException("dbContact"))
    ensures dbContact.Some? ==>
              && r.Success?
              && ToRow(r.value, dbContact.value.createdDateUtc, dbContact.value.updateDateUtc) == dbContact.value.(id := 0)
  {
    match dbContact
    case None => Failure(ArgumentNullException("dbContact"))
    case Some(row) => Success(ToEntity(row))
  }

  /** Entity to row, rejecting a null entity. */
  function TransformToDbContact(contactEntity: Option<Entity>, createdNow: DateTime, updatedNow: DateTime): (r: Result<Row>)
    ensures contactEntity.None? <==> r == Failure(ArgumentNullException("contactEntity"))
    ensures contactEntity.Some? ==> r.Success? && TransformToContactEntity(Some(r.value)) == Success(contactEntity.value)
    ensures r.Success? ==> r.value.id == 0 && r.value.createdDateUtc == createdNow && r.value.updateDateUtc == updatedNow
  {
    match contactEntity
    case None => Failure(ArgumentNullException("contactEntity"))
    case Some(e) => Success(ToRow(e, createdNow, updatedNow))
  }

  /** Going through the entity and back loses only the key and the
      timestamps, which the row side supplies again. */
  lemma RowRoundTrip(dbContact: Row)
    ensures ToRow(ToEntity(dbContact), dbContact.createdDateUtc, dbContact.updateDateUtc) == dbContact.(id := 0)
  {
  }
}
