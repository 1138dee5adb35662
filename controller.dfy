/** The HTTP surface: ContactsController validates input, consults the
    service and maps each outcome to a status code. Every exception thrown
    below it, including the transformer's null check on a missing body, is
    caught and answered with 500. */
module Controllers {
  import opened Common
  import opened Models
  import opened DalModel
  import DT = ContactDtoTransformer
  import opened FirstNameOrdering
  import opened Repository
  import opened Services

  /** The action results the controller returns, with their payloads. */
  datatype ActionResult =
    | OkContacts(contacts: seq<DT.ContactDto>)
    | OkContact(contact: DT.ContactDto)
    | Created(created: Entity)
    | Accepted
    | BadRequest(message: string)
    | NotFound(message: string)
    | Conflict(message: string)
    | InternalServerError(message: string)
  {
    function StatusCode(): (code: int)
      ensures 200 <= code < 600
      ensures code == 200 <==> OkContacts? || OkContact?
      ensures code / 100 == 4 <==> BadRequest? || NotFound? || Conflict?
    {
      match this
      case OkContacts(_) => 200
      case OkContact(_) => 200
      case Created(_) => 201
      case Accepted => 202
      case BadRequest(_) => 400
      case NotFound(_) => 404
      case Conflict(_) => 409
      case InternalServerError(_) => 500
    }
  }

  const ServerErrorMessage := "An error occurred while processing your request."
  const PagingMessage := "Page must be >= 1 and PageSize must be between 1 and 10."
  const MissingPhoneMessage := "Phone number must be provided."
  const NoMatchMessage := "No contact found with the provided phone number."
  const DuplicateMessage := "A contact with the same phone number already exists."
  const InvalidPhoneMessage := "Invalid phone number format."
  const NotFoundMessage := "Contact not found."
  const InvalidNewPhoneMessage := "Invalid new phone number format."

  /** The characters .NET's `char.IsWhiteSpace` accepts: the Unicode
      separators and the control characters TAB to CR, NEL. Among ASCII
      characters that is exactly TAB, LF, VT, FF, CR and the space. */
  function IsWhiteSpace(c: char): (white: bool)
    ensures c < '\U{0080}' ==> (white <==> c == ' ' || '\t' <= c <= '\r')
    ensures white ==> !('0' <= c <= '9' || 'a' <= c <= 'z' || 'A' <= c <= 'Z' || c == '+')
  {
    || ('\U{0009}' <= c <= '\U{000D}') || c == '\U{0020}' || c == '\U{0085}' || c == '\U{00A0}'
    || c == '\U{1680}' || ('\U{2000}' <= c <= '\U{200A}') || c == '\U{2028}' || c == '\U{2029}'
    || c == '\U{202F}' || c == '\U{205F}' || c == '\U{3000}'
  }

  /** `string.IsNullOrWhiteSpace`: null, empty, or white space only; one
      visible character makes a string non-blank. */
  function IsNullOrWhiteSpace(s: Option<string>): (blank: bool)
    ensures s.None? || s == Some("") ==> blank
    ensures s.Some? && (exists k :: 0 <= k < |s.value| && !IsWhiteSpace(s.value[k])) ==> !blank
  {
    s.None? || forall k :: 0 <= k < |s.value| ==> IsWhiteSpace(s.value[k])
  }

  /** The update body asks for a new number (line 142): it carries one that
      differs from the route's. A body without a number, or with the route's
      own, never does. */
  function Renames(phoneNumber: string, contactDto: DT.ContactDto): (renames: bool)
    ensures contactDto.phoneNumber.None? || contactDto.phoneNumber == Some(phoneNumber) ==> !renames
    ensures renames ==> DT.ToEntity(contactDto).phoneNumber != Some(phoneNumber)
  {
    contactDto.phoneNumber.Some? && contactDto.phoneNumber != Some(phoneNumber)
  }

  /** What one request to a mutating endpoint comes to: the answer, the
      table afterwards, and the repository calls it made, oldest first. */
  datatype Outcome = Outcome(result: ActionResult, rows: seq<Row>, calls: seq<Call>)

  /** An answer in the 4xx range left the table as it was and made only
      reads; whatever the answer, only a request's last call can change the
      table; and a 500 carries the fixed message, never the exception's. */
  ghost predicate Disciplined(before: seq<Row>, o: Outcome) {
    && (o.result.StatusCode() / 100 == 4 ==> o.rows == before && forall c :: c in o.calls ==> !c.Mutates())
    && (forall k :: 0 <= k < |o.calls| - 1 ==> !o.calls[k].Mutates())
    && (o.result.InternalServerError? ==> o.result.message == ServerErrorMessage)
  }

  /** POST (lines 90-121). The transformer's null check on a missing body
      comes first, then the duplicate check (409), then the number's format
      (400), then the insert (201 with the entity). */
  ghost function CreateOutcome(rows: seq<Row>, contactDto: Option<DT.ContactDto>, util: PhoneNumberUtil,
                               clock: Clock, existFault: Option<Exception>, createFault: Option<Exception>): (o: Outcome)
    ensures contactDto.None? ==> o.calls == []
    ensures contactDto.Some? ==> 1 <= |o.calls| <= 2 && o.calls[0] == SearchContactCall(contactDto.value.phoneNumber)
    ensures o.rows == rows || (contactDto.Some? && o.rows == rows + [NewRow(DT.ToEntity(contactDto.value), clock)])
  {
    if contactDto.None? then Outcome(InternalServerError(ServerErrorMessage), rows, [])
    else
      var contact := DT.ToEntity(contactDto.value);
      var search := [SearchContactCall(contact.phoneNumber)];
      if existFault.Some? then Outcome(InternalServerError(ServerErrorMessage), rows, search)
      else if HasPhone(rows, contact.phoneNumber) then Outcome(Conflict(DuplicateMessage), rows, search)
      else if !ContactsService.IsValidPhoneNumber(util, contact.phoneNumber) then
        Outcome(BadRequest(InvalidPhoneMessage), rows, search)
      else if createFault.Some? then
        Outcome(InternalServerError(ServerErrorMessage), rows, search + [CreateContactCall(contact)])
      else Outcome(Created(contact), rows + [NewRow(contact, clock)], search + [CreateContactCall(contact)])
  }

  /** Lines 142-164, shared by both versions of PUT: a body that asks for a
      different number has it checked for duplicates (409) and format (400);
      then the repository updates the row that carries the body's number. */
  ghost function FinishUpdateOutcome(rows: seq<Row>, phoneNumber: string, dto: DT.ContactDto, util: PhoneNumberUtil,
                                     clock: Clock, newNumberFault: Option<Exception>,
                                     updateFault: Option<Exception>): (o: Outcome)
    ensures !Renames(phoneNumber, dto) ==> o.calls == [UpdateCall(DT.ToEntity(dto))]
    ensures Renames(phoneNumber, dto) ==> 1 <= |o.calls| <= 2 && o.calls[0] == SearchContactCall(dto.phoneNumber)
    ensures o.rows == rows ||
            (IndexOfPhone(rows, dto.phoneNumber).Some? &&
             var i := IndexOfPhone(rows, dto.phoneNumber).value;
             o.rows == rows[i := Merge(rows[i], DT.ToEntity(dto), clock(0))])
  {
    var contact := DT.ToEntity(dto);
    var second := [SearchContactCall(dto.phoneNumber)];
    if Renames(phoneNumber, dto) && newNumberFault.Some? then
      Outcome(InternalServerError(ServerErrorMessage), rows, second)
    else if Renames(phoneNumber, dto) && HasPhone(rows, dto.phoneNumber) then
      Outcome(Conflict(DuplicateMessage), rows, second)
    else if Renames(phoneNumber, dto) && !ContactsService.IsValidPhoneNumber(util, dto.phoneNumber) then
      Outcome(BadRequest(InvalidNewPhoneMessage), rows, second)
    else
      var calls := (if Renames(phoneNumber, dto) then second else []) + [UpdateCall(contact)];
      if updateFault.Some? || !HasPhone(rows, contact.phoneNumber) then
        Outcome(InternalServerError(ServerErrorMessage), rows, calls)
      else
        var i := IndexOfPhone(rows, contact.phoneNumber).value;
        Outcome(Accepted, rows[i := Merge(rows[i], contact, clock(0))], calls)
  }

  /** PUT as written (lines 128-171): the existence check runs on the
      body's number, and a number that is found answers 404. */
  ghost function UpdateOutcome(rows: seq<Row>, phoneNumber: string, contactDto: Option<DT.ContactDto>,
                               util: PhoneNumberUtil, clock: Clock, existFault: Option<Exception>,
                               newNumberFault: Option<Exception>, updateFault: Option<Exception>): (o: Outcome)
    ensures contactDto.None? ==> o.calls == []
    ensures contactDto.Some? ==> o.calls != [] && o.calls[0] == SearchContactCall(contactDto.value.phoneNumber)
  {
    if contactDto.None? then Outcome(InternalServerError(ServerErrorMessage), rows, [])
    else
      var search := [SearchContactCall(contactDto.value.phoneNumber)];
      if existFault.Some? then Outcome(InternalServerError(ServerErrorMessage), rows, search)
      else if HasPhone(rows, contactDto.value.phoneNumber) then Outcome(NotFound(NotFoundMessage), rows, search)
      else
        var rest := FinishUpdateOutcome(rows, phoneNumber, contactDto.value, util, clock, newNumberFault, updateFault);
        rest.(calls := search + rest.calls)
  }

  /** PUT with the check its log line and message describe: the route's
      number must be stored, and a missing one answers 404. */
  ghost function UpdateCorrectedOutcome(rows: seq<Row>, phoneNumber: string, contactDto: Option<DT.ContactDto>,
                                        util: PhoneNumberUtil, clock: Clock, existFault: Option<Exception>,
                                        newNumberFault: Option<Exception>, updateFault: Option<Exception>): (o: Outcome)
    ensures contactDto.None? ==> o.calls == []
    ensures contactDto.Some? ==> o.calls != [] && o.calls[0] == SearchContactCall(Some(phoneNumber))
  {
    if contactDto.None? then Outcome(InternalServerError(ServerErrorMessage), rows, [])
    else
      var search := [SearchContactCall(Some(phoneNumber))];
      if existFault.Some? then Outcome(InternalServerError(ServerErrorMessage), rows, search)
      else if !HasPhone(rows, Some(phoneNumber)) then Outcome(NotFound(NotFoundMessage), rows, search)
      else
        var rest := FinishUpdateOutcome(rows, phoneNumber, contactDto.value, util, clock, newNumberFault, updateFault);
        rest.(calls := search + rest.calls)
  }

  /** DELETE (lines 177-197): 404 unless the route's number is stored;
      otherwise the first row with it is removed and the answer is 202. */
  ghost function DeleteOutcome(rows: seq<Row>, phoneNumber: string, existFault: Option<Exception>,
                               deleteFault: Option<Exception>): (o: Outcome)
    ensures 1 <= |o.calls| <= 2 && o.calls[0] == SearchContactCall(Some(phoneNumber))
    ensures o.rows == rows || (HasPhone(rows, Some(phoneNumber)) &&
                               o.rows == RemoveAt(rows, IndexOfPhone(rows, Some(phoneNumber)).value))
  {
    var search := [SearchContactCall(Some(phoneNumber))];
    if existFault.Some? then Outcome(InternalServerError(ServerErrorMessage), rows, search)
    else if !HasPhone(rows, Some(phoneNumber)) then Outcome(NotFound(NotFoundMessage), rows, search)
    else if deleteFault.Some? then
      Outcome(InternalServerError(ServerErrorMessage), rows, search + [DeleteCall(Some(phoneNumber))])
    else
      Outcome(Accepted, RemoveAt(rows, IndexOfPhone(rows, Some(phoneNumber)).value),
              search + [DeleteCall(Some(phoneNumber))])
  }

  class ContactsController {
    const contactsService: ContactsService

    constructor (contactsService: ContactsService)
      ensures this.contactsService == contactsService
    {
      this.contactsService := contactsService;
    }

    /** The contact table behind the service. */
    ghost function Rows(): seq<Row>
      reads contactsService.repository
    {
      contactsService.repository.rows
    }

    /** The repository calls made so far. */
    ghost function Calls(): seq<Call>
      reads contactsService.repository
    {
      contactsService.repository.calls
    }

    /** Lines 28-49: paging bounds 1 <= page and 1 <= pageSize <= 10 are
        checked before any query. */
    method GetContacts(page: Int32, pageSize: Int32, fault: Option<Exception>) returns (r: ActionResult)
      modifies contactsService.repository
      ensures Rows() == old(Rows())
      ensures page < 1 || pageSize < 1 || pageSize > 10 ==>
                r == BadRequest(PagingMessage) && Calls() == old(Calls())
      ensures 1 <= page && 1 <= pageSize <= 10 ==>
                && Calls() == old(Calls()) + [GetContactsCall(page, pageSize)]
                && r == if fault.Some? then InternalServerError(ServerErrorMessage)
                        else OkContacts(DT.ToDtos(ListingAsWritten(Rows(), page, pageSize, contactsService.repository.order)))
      ensures r.OkContacts? ==> 1 <= pageSize <= 10 && |r.contacts| <= pageSize
    {
      if page < 1 || pageSize < 1 || pageSize > 10 {
        return BadRequest(PagingMessage);
      }
      var result := contactsService.GetContactsAsync(page, pageSize, fault);
      if result.Failure? {
        return InternalServerError(ServerErrorMessage);
      }
      var contacts := DT.ToDtos(result.value);
      r := OkContacts(contacts);
    }

    /** Lines 56-83: a null, empty or blank number is refused before any
        query; otherwise 200 with the first match, or 404. */
    method SearchContact(phoneNumber: Option<string>, fault: Option<Exception>) returns (r: ActionResult)
      modifies contactsService.repository
      ensures Rows() == old(Rows())
      ensures IsNullOrWhiteSpace(phoneNumber) ==>
                r == BadRequest(MissingPhoneMessage) && Calls() == old(Calls())
      ensures !IsNullOrWhiteSpace(phoneNumber) ==>
                && Calls() == old(Calls()) + [SearchContactCall(phoneNumber)]
                && (fault.Some? ==> r == InternalServerError(ServerErrorMessage))
                && (fault.None? && !HasPhone(Rows(), phoneNumber) ==> r == NotFound(NoMatchMessage))
                && (fault.None? && HasPhone(Rows(), phoneNumber) ==>
                      r == OkContact(DT.ToDto(Search(Rows(), phoneNumber).value)))
      ensures r.OkContact? ==> r.contact.phoneNumber == phoneNumber
    {
      if IsNullOrWhiteSpace(phoneNumber) {
        return BadRequest(MissingPhoneMessage);
      }
      var result := contactsService.SearchContactAsync(phoneNumber, fault);
      if result.Failure? {
        return InternalServerError(ServerErrorMessage);
      }
      if result.value.None? {
        return NotFound(NoMatchMessage);
      }
      var contact := DT.TransformToContactDto(result.value);
      r := OkContact(contact.value);
    }

    method CreateContact(contactDto: Option<DT.ContactDto>, util: PhoneNumberUtil, clock: Clock,
                         existFault: Option<Exception>, createFault: Option<Exception>)
      returns (r: ActionResult)
      modifies contactsService.repository
      ensures var o := CreateOutcome(old(Rows()), contactDto, util, clock, existFault, createFault);
              r == o.result && Rows() == o.rows && Calls() == old(Calls()) + o.calls
    {
      var transformed := DT.TransformToContactEntity(contactDto);
      if transformed.Failure? {
        return InternalServerError(ServerErrorMessage);
      }
      var contact := transformed.value;
      var isContactExist := contactsService.IsContactExist(contact.phoneNumber, existFault);
      if isContactExist.Failure? {
        return InternalServerError(ServerErrorMessage);
      }
      if isContactExist.value {
        return Conflict(DuplicateMessage);
      }
      var isValidPhoneNumber := ContactsService.IsValidPhoneNumber(util, contact.phoneNumber);
      if !isValidPhoneNumber {
        return BadRequest(InvalidPhoneMessage);
      }
      var created := contactsService.CreateContactAsync(contact, clock, createFault);
      if created.Failure? {
        return InternalServerError(ServerErrorMessage);
      }
      r := Created(contact);
    }

    /** Lines 142-164: the part of PUT after the existence check. */
    method FinishUpdate(phoneNumber: string, dto: DT.ContactDto, util: PhoneNumberUtil, clock: Clock,
                        newNumberFault: Option<Exception>, updateFault: Option<Exception>)
      returns (r: ActionResult)
      modifies contactsService.repository
      ensures var o := FinishUpdateOutcome(old(Rows()), phoneNumber, dto, util, clock, newNumberFault, updateFault);
              r == o.result && Rows() == o.rows && Calls() == old(Calls()) + o.calls
    {
      if dto.phoneNumber.Some? && dto.phoneNumber != Some(phoneNumber) {
        var isPhoneNumberExist := contactsService.IsContactExist(dto.phoneNumber, newNumberFault);
        if isPhoneNumberExist.Failure? {
          return InternalServerError(ServerErrorMessage);
        }
        if isPhoneNumberExist.value {
          return Conflict(DuplicateMessage);
        }
        var isValidPhoneNumber := ContactsService.IsValidPhoneNumber(util, dto.phoneNumber);
        if !isValidPhoneNumber {
          return BadRequest(InvalidNewPhoneMessage);
        }
      }
      var updated := contactsService.UpdateAsync(DT.ToEntity(dto), clock, updateFault);
      if updated.Failure? {
        return InternalServerError(ServerErrorMessage);
      }
      r := Accepted;
    }

    /** Lines 128-171, as written. */
    method UpdateContact(phoneNumber: string, contactDto: Option<DT.ContactDto>, util: PhoneNumberUtil, clock: Clock,
                         existFault: Option<Exception>, newNumberFault: Option<Exception>,
                         updateFault: Option<Exception>)
      returns (r: ActionResult)
      modifies contactsService.repository
      ensures var o := UpdateOutcome(old(Rows()), phoneNumber, contactDto, util, clock,
                                     existFault, newNumberFault, updateFault);
              r == o.result && Rows() == o.rows && Calls() == old(Calls()) + o.calls
    {
      var transformed := DT.TransformToContactEntity(contactDto);
      if transformed.Failure? {
        return InternalServerError(ServerErrorMessage);
      }
      var contact := transformed.value;
      var isContactExist := contactsService.IsContactExist(contact.phoneNumber, existFault);
      if isContactExist.Failure? {
        return InternalServerError(ServerErrorMessage);
      }
      if isContactExist.value {
        return NotFound(NotFoundMessage);
      }
      r := FinishUpdate(phoneNumber, contactDto.value, util, clock, newNumberFault, updateFault);
    }

    /** UpdateContact with the existence check on the route's number and
        the 404 on a missing one; the rest as written. */
    method UpdateContactCorrected(phoneNumber: string, contactDto: Option<DT.ContactDto>, util: PhoneNumberUtil,
                                  clock: Clock, existFault: Option<Exception>, newNumberFault: Option<Exception>,
                                  updateFault: Option<Exception>)
      returns (r: ActionResult)
      modifies contactsService.repository
      ensures var o := UpdateCorrectedOutcome(old(Rows()), phoneNumber, contactDto, util, clock,
                                              existFault, newNumberFault, updateFault);
              r == o.result && Rows() == o.rows && Calls() == old(Calls()) + o.calls
    {
      var transformed := DT.TransformToContactEntity(contactDto);
      if transformed.Failure? {
        return InternalServerError(ServerErrorMessage);
      }
      var isContactExist := contactsService.IsContactExist(Some(phoneNumber), existFault);
      if isContactExist.Failure? {
        return InternalServerError(ServerErrorMessage);
      }
      if !isContactExist.value {
        return NotFound(NotFoundMessage);
      }
      r := FinishUpdate(phoneNumber, contactDto.value, util, clock, newNumberFault, updateFault);
    }

    method DeleteContact(phoneNumber: string, existFault: Option<Exception>, deleteFault: Option<Exception>)
      returns (r: ActionResult)
      modifies contactsService.repository
      ensures var o := DeleteOutcome(old(Rows()), phoneNumber, existFault, deleteFault);
              r == o.result && Rows() == o.rows && Calls() == old(Calls()) + o.calls
    {
      var isContactExist := contactsService.IsContactExist(Some(phoneNumber), existFault);
      if isContactExist.Failure? {
        return InternalServerError(ServerErrorMessage);
      }
      if !isContactExist.value {
        return NotFound(NotFoundMessage);
      }
      var deleted := contactsService.DeleteAsync(Some(phoneNumber), deleteFault);
      if deleted.Failure? {
        return InternalServerError(ServerErrorMessage);
      }
      r := Accepted;
    }
  }

  /** POST answers 409 exactly when the body's number is stored, 400 when it
      is new but malformed, and 201 exactly when it is new, well formed and
      the insert went through. */
  lemma CreateDecisions(rows: seq<Row>, contactDto: Option<DT.ContactDto>, util: PhoneNumberUtil, clock: Clock,
                        existFault: Option<Exception>, createFault: Option<Exception>)
    ensures var o := CreateOutcome(rows, contactDto, util, clock, existFault, createFault);
      && (o.result.Conflict? <==>
            contactDto.Some? && existFault.None? && HasPhone(rows, contactDto.value.phoneNumber))
      && (o.result.BadRequest? <==>
            contactDto.Some? && existFault.None? && !HasPhone(rows, contactDto.value.phoneNumber) &&
            !ContactsService.IsValidPhoneNumber(util, contactDto.value.phoneNumber))
      && (o.result.Created? <==>
            contactDto.Some? && existFault.None? && createFault.None? &&
            !HasPhone(rows, contactDto.value.phoneNumber) &&
            ContactsService.IsValidPhoneNumber(util, contactDto.value.phoneNumber))
      && (o.result.Created? ==>
            o.result.created == DT.ToEntity(contactDto.value) &&
            o.rows == rows + [NewRow(DT.ToEntity(contactDto.value), clock)])
      && (!o.result.Created? ==> o.rows == rows)
  {
  }

  /** A created contact carries a number no stored row had, so unique
      numbers stay unique and the new number is then stored. */
  lemma CreateKeepsUnique(rows: seq<Row>, contactDto: Option<DT.ContactDto>, util: PhoneNumberUtil, clock: Clock,
                          existFault: Option<Exception>, createFault: Option<Exception>)
    ensures var o := CreateOutcome(rows, contactDto, util, clock, existFault, createFault);
      && (UniquePhones(rows) ==> UniquePhones(o.rows))
      && (o.result.Created? ==> HasPhone(o.rows, o.result.created.phoneNumber))
  {
    var o := CreateOutcome(rows, contactDto, util, clock, existFault, createFault);
    if o.result.Created? {
      var contact := DT.ToEntity(contactDto.value);
      var row := NewRow(contact, clock);
      assert o.rows == rows + [row];
      assert (rows + [row])[|rows|] == row;
      if UniquePhones(rows) {
        AppendKeepsUnique(rows, row);
      }
    }
  }

  /** The service tests' verdicts carried up to POST: under any library that
      gives them, a new "+972536260988" is created with 201 and a new "abc"
      is refused with 400. */
  lemma CreateWithTestedNumbers(rows: seq<Row>, util: PhoneNumberUtil, clock: Clock,
                                firstName: Option<string>, lastName: Option<string>, address: Option<string>)
    requires AgreesWithServiceTests(util)
    requires !HasPhone(rows, Some("+972536260988")) && !HasPhone(rows, Some("abc"))
    ensures var valid := DT.ContactDto(firstName, lastName, Some("+972536260988"), address);
      CreateOutcome(rows, Some(valid), util, clock, None, None).result == Created(DT.ToEntity(valid))
    ensures var malformed := DT.ContactDto(firstName, lastName, Some("abc"), address);
      CreateOutcome(rows, Some(malformed), util, clock, None, None).result == BadRequest(InvalidPhoneMessage)
  {
  }

  lemma CreateIsDisciplined(rows: seq<Row>, contactDto: Option<DT.ContactDto>, util: PhoneNumberUtil,
                                      clock: Clock, existFault: Option<Exception>, createFault: Option<Exception>)
    ensures Disciplined(rows, CreateOutcome(rows, contactDto, util, clock, existFault, createFault))
  {
  }

  /** The finding on PUT as written: once the body's number is stored the
      answer is 404, and otherwise the repository finds no row to update, so
      the endpoint never answers 202, never 409, and never changes the
      table. */
  lemma {:induction false} UpdateNeverApplies(rows: seq<Row>, phoneNumber: string, contactDto: Option<DT.ContactDto>,
                                              util: PhoneNumberUtil, clock: Clock, existFault: Option<Exception>,
                                              newNumberFault: Option<Exception>, updateFault: Option<Exception>)
    ensures var o := UpdateOutcome(rows, phoneNumber, contactDto, util, clock, existFault, newNumberFault, updateFault);
      o.result != Accepted && !o.result.Conflict? && o.rows == rows
  {
  }

  /** An example: a stored contact whose route and body carry its own
      number is answered 404 by PUT as written, and updated with 202 by the
      corrected version. */
  lemma UpdateOfStoredContact(stored: Row, util: PhoneNumberUtil, clock: Clock)
    requires stored.phoneNumber == Some("+972536260988")
    ensures var dto := DT.ContactDto(None, Some("Smith"), Some("+972536260988"), None);
      && UpdateOutcome([stored], "+972536260988", Some(dto), util, clock, None, None, None).result
           == NotFound(NotFoundMessage)
      && UpdateCorrectedOutcome([stored], "+972536260988", Some(dto), util, clock, None, None, None)
           == Outcome(Accepted, [Merge(stored, DT.ToEntity(dto), clock(0))],
                      [SearchContactCall(Some("+972536260988")), UpdateCall(DT.ToEntity(dto))])
  {
    assert HasPhone([stored], stored.phoneNumber) by {
      assert [stored][0] == stored;
    }
  }

  /** Corrected PUT: a body that keeps the route's number updates the stored
      contact with that number, field by field, and answers 202. */
  lemma UpdateCorrectedApplies(rows: seq<Row>, phoneNumber: string, dto: DT.ContactDto, util: PhoneNumberUtil,
                               clock: Clock, newNumberFault: Option<Exception>)
    requires dto.phoneNumber == Some(phoneNumber) && HasPhone(rows, Some(phoneNumber))
    ensures var o := UpdateCorrectedOutcome(rows, phoneNumber, Some(dto), util, clock, None, newNumberFault, None);
      var i := IndexOfPhone(rows, Some(phoneNumber)).value;
      o.result == Accepted && o.rows == rows[i := Merge(rows[i], DT.ToEntity(dto), clock(0))]
  {
  }

  /** Corrected PUT answers 202 only for a route number that is stored, and
      then only when the body's number is stored too; it keeps numbers
      unique. */
  lemma {:induction false} UpdateCorrectedKeepsUnique(rows: seq<Row>, phoneNumber: string,
                                                      contactDto: Option<DT.ContactDto>, util: PhoneNumberUtil,
                                                      clock: Clock, existFault: Option<Exception>,
                                                      newNumberFault: Option<Exception>, updateFault: Option<Exception>)
    ensures var o := UpdateCorrectedOutcome(rows, phoneNumber, contactDto, util, clock,
                                            existFault, newNumberFault, updateFault);
      && (o.result == Accepted ==>
            contactDto.Some? && HasPhone(rows, Some(phoneNumber)) && HasPhone(rows, contactDto.value.phoneNumber))
      && (o.result != Accepted ==> o.rows == rows)
      && (UniquePhones(rows) ==> UniquePhones(o.rows))
  {
    var o := UpdateCorrectedOutcome(rows, phoneNumber, contactDto, util, clock, existFault, newNumberFault, updateFault);
    if o.result == Accepted {
      UpdateKeepsUnique(rows, DT.ToEntity(contactDto.value), clock(0));
    }
  }

  lemma FinishUpdateIsDisciplined(rows: seq<Row>, phoneNumber: string, dto: DT.ContactDto,
                                            util: PhoneNumberUtil, clock: Clock,
                                            newNumberFault: Option<Exception>, updateFault: Option<Exception>)
    ensures Disciplined(rows, FinishUpdateOutcome(rows, phoneNumber, dto, util, clock,
                                                              newNumberFault, updateFault))
  {
  }

  /** A read put in front of a disciplined outcome keeps it disciplined. */
  lemma {:induction false} ReadFirstKeepsDiscipline(rows: seq<Row>, read: Call, o: Outcome)
    requires !read.Mutates() && Disciplined(rows, o)
    ensures Disciplined(rows, o.(calls := [read] + o.calls))
  {
    var calls := [read] + o.calls;
    forall k | 0 <= k < |calls| - 1 ensures !calls[k].Mutates() {
      if k > 0 {
        assert calls[k] == o.calls[k - 1];
      }
    }
  }

  lemma UpdateIsDisciplined(rows: seq<Row>, phoneNumber: string, contactDto: Option<DT.ContactDto>,
                                      util: PhoneNumberUtil, clock: Clock, existFault: Option<Exception>,
                                      newNumberFault: Option<Exception>, updateFault: Option<Exception>)
    ensures Disciplined(rows, UpdateOutcome(rows, phoneNumber, contactDto, util, clock,
                                                        existFault, newNumberFault, updateFault))
  {
    if contactDto.Some? && existFault.None? && !HasPhone(rows, contactDto.value.phoneNumber) {
      var rest := FinishUpdateOutcome(rows, phoneNumber, contactDto.value, util, clock, newNumberFault, updateFault);
      FinishUpdateIsDisciplined(rows, phoneNumber, contactDto.value, util, clock, newNumberFault, updateFault);
      ReadFirstKeepsDiscipline(rows, SearchContactCall(contactDto.value.phoneNumber), rest);
    }
  }

  lemma UpdateCorrectedIsDisciplined(rows: seq<Row>, phoneNumber: string,
                                               contactDto: Option<DT.ContactDto>, util: PhoneNumberUtil,
                                               clock: Clock, existFault: Option<Exception>,
                                               newNumberFault: Option<Exception>, updateFault: Option<Exception>)
    ensures Disciplined(rows, UpdateCorrectedOutcome(rows, phoneNumber, contactDto, util, clock,
                                                                 existFault, newNumberFault, updateFault))
  {
    if contactDto.Some? && existFault.None? && HasPhone(rows, Some(phoneNumber)) {
      var rest := FinishUpdateOutcome(rows, phoneNumber, contactDto.value, util, clock, newNumberFault, updateFault);
      FinishUpdateIsDisciplined(rows, phoneNumber, contactDto.value, util, clock, newNumberFault, updateFault);
      ReadFirstKeepsDiscipline(rows, SearchContactCall(Some(phoneNumber)), rest);
    }
  }

  /** DELETE answers 202 exactly when the route's number is stored and both
      calls went through; it then removes that one row. With unique numbers
      the number is gone afterwards and the rest stay unique. */
  lemma {:induction false} DeleteRemovesTheContact(rows: seq<Row>, phoneNumber: string, existFault: Option<Exception>,
                                                   deleteFault: Option<Exception>)
    ensures var o := DeleteOutcome(rows, phoneNumber, existFault, deleteFault);
      && (o.result == Accepted <==> existFault.None? && deleteFault.None? && HasPhone(rows, Some(phoneNumber)))
      && (o.result != Accepted ==> o.rows == rows)
      && (o.result == Accepted ==> |o.rows| == |rows| - 1 && multiset(o.rows) <= multiset(rows))
      && (UniquePhones(rows) ==>
            UniquePhones(o.rows) && (o.result == Accepted ==> !HasPhone(o.rows, Some(phoneNumber))))
  {
    var o := DeleteOutcome(rows, phoneNumber, existFault, deleteFault);
    if o.result == Accepted {
      DeleteRemovesFirstMatch(rows, Some(phoneNumber));
    }
  }

  lemma DeleteIsDisciplined(rows: seq<Row>, phoneNumber: string, existFault: Option<Exception>,
                                      deleteFault: Option<Exception>)
    ensures Disciplined(rows, DeleteOutcome(rows, phoneNumber, existFault, deleteFault))
  {
  }
}
