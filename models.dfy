/** The domain record (ContactEntity). Its string properties are declared
    non-nullable but initialised with `null!`, and callers do leave them null
    (a partial update sends a null first name), so every one of them is
    nullable here. */
module Models {
  import opened Common

  datatype Entity = Entity(
    firstName: Option<string>,
    lastName: Option<string>,
    phoneNumber: Option<string>,
    address: Option<string>)
}

/** The persisted row (DbContact): the four contact fields, the surrogate key
    and the two timestamps. */
module DalModel {
  import opened Common

  datatype Row = Row(
    id: Int32,
    firstName: Option<string>,
    lastName: Option<string>,
    phoneNumber: Option<string>,
    address: Option<string>,
    createdDateUtc: DateTime,
    updateDateUtc: DateTime)
}
