/** The mapping between the API representation and the domain entity. The
    declaration of ContactDto is not part of this model; its four properties
    are the ones the transformer reads and writes, nullable as the entity's. */
module ContactDtoTransformer {
  import opened Common
  import opened Models

  datatype ContactDto = ContactDto(
    firstName: Option<string>,
    lastName: Option<string>,
    phoneNumber: Option<string>,
    address: Option<string>)

  /** The object initializer of TransformToContactEntity. */
  function ToEntity(dto: ContactDto): Entity {
    Entity(dto.firstName, dto.lastName, dto.phoneNumber, dto.address)
  }

  /** The object initializer of TransformToContactDto. */
  function ToDto(contactEntity: Entity): ContactDto {
    ContactDto(contactEntity.firstName, contactEntity.lastName, contactEntity.phoneNumber, contactEntity.address)
  }

  /** DTO to entity, rejecting a null DTO (the parameter is named dbContact). */
  function TransformToContactEntity(dbContact: Option<ContactDto>): (r: Result<Entity>)
    ensures dbContact.None? <==> r == Failure(ArgumentNullException("dbContact"))
    ensures dbContact.Some? ==> r.Success? && ToDto(r.value) == dbContact.value
  {
    match dbContact
    case None => Failure(ArgumentNullException("dbContact"))
    case Some(dto) => Success(ToEntity(dto))
  }

  /** Entity to DTO, rejecting a null entity. */
  function TransformToContactDto(contactEntity: Option<Entity>): (r: Result<ContactDto>)
    ensures contactEntity.None? <==> r == Failure(ArgumentNullException("contactEntity"))
    ensures contactEntity.Some? ==> r.Success? && ToEntity(r.value) == contactEntity.value
  {
    match contactEntity
    case None => Failure(ArgumentNullException("contactEntity"))
    case Some(e) => Success(ToDto(e))
  }

  /** Both directions are mutually inverse on the four fields. */
  lemma RoundTrips(dto: ContactDto, contactEntity: Entity)
    ensures ToDto(ToEntity(dto)) == dto
    ensures ToEntity(ToDto(contactEntity)) == contactEntity
  {
  }

  /** Select(TransformToContactDto): the list of entities mapped element-wise,
      in order. */
  function ToDtos(entities: seq<Entity>): (r: seq<ContactDto>)
    ensures |r| == |entities|
    ensures forall k :: 0 <= k < |r| ==> ToEntity(r[k]) == entities[k]
  {
    seq(|entities|, k requires 0 <= k < |entities| => ToDto(entities[k]))
  }
}
