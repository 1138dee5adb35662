/** The business layer: ContactsService forwards to the repository, answers
    "does this number exist" and "is this number well formed". It logs and
    rethrows every repository exception, so what reaches its caller is the
    repository's own result. */
module Services {
  import opened Common
  import opened Models
  import opened Repository

  /** The parsed number the phone-number library returns. */
  datatype PhoneNumber = PhoneNumber(countryCode: int, nationalNumber: nat)

  /** The outcome of `PhoneNumberUtil.Parse(phoneNumber, null)`: a number,
      or a NumberParseException. */
  datatype ParseResult = Parsed(number: PhoneNumber) | NumberParseException

  /** The external phone-number library, opaque: parsing with no default
      region, and the library's validity verdict on a parsed number. */
  datatype PhoneNumberUtil = PhoneNumberUtil(
    parse: Option<string> -> ParseResult,
    isValidNumber: PhoneNumber -> bool)

  /** The injected logger; what it records is not modelled. */
  class Logger {
  }

  class ContactsService {
    const repository: ContactRepository
    const logger: Logger

    constructor (repository: ContactRepository, logger: Logger)
      ensures this.repository == repository && this.logger == logger
    {
      this.repository := repository;
      this.logger := logger;
    }

    /** The constructor's null checks (lines 14-18): the repository is
        checked first, then the logger. */
    static method Create(contactsRepository: ContactRepository?, logger: Logger?)
      returns (r: Result<ContactsService>)
      ensures contactsRepository == null ==> r == Failure(ArgumentNullException("contactsRepository"))
      ensures contactsRepository != null && logger == null ==> r == Failure(ArgumentNullException("logger"))
      ensures contactsRepository != null && logger != null ==>
                r.Success? && fresh(r.value) &&
                r.value.repository == contactsRepository && r.value.logger == logger
    {
      if contactsRepository == null {
        return Failure(ArgumentNullException("contactsRepository"));
      }
      if logger == null {
        return Failure(ArgumentNullException("logger"));
      }
      var service := new ContactsService(contactsRepository, logger);
      r := Success(service);
    }

    method GetContactsAsync(page: Int32, pageSize: Int32, fault: Option<Exception>)
      returns (r: Result<seq<Entity>>)
      modifies repository
      ensures repository.rows == old(repository.rows)
      ensures repository.calls == old(repository.calls) + [GetContactsCall(page, pageSize)]
      ensures r == if fault.Some? then Failure(fault.value)
                   else Success(ListingAsWritten(repository.rows, page, pageSize, repository.order))
    {
      r := repository.GetContactsAsync(page, pageSize, fault);
    }

    method SearchContactAsync(phoneNumber: Option<string>, fault: Option<Exception>)
      returns (r: Result<Option<Entity>>)
      modifies repository
      ensures repository.rows == old(repository.rows)
      ensures repository.calls == old(repository.calls) + [SearchContactCall(phoneNumber)]
      ensures r == if fault.Some? then Failure(fault.value) else Success(Search(repository.rows, phoneNumber))
    {
      r := repository.SearchContactAsync(phoneNumber, fault);
    }

    method CreateContactAsync(contact: Entity, clock: Clock, fault: Option<Exception>)
      returns (r: Result<()>)
      modifies repository
      ensures repository.calls == old(repository.calls) + [CreateContactCall(contact)]
      ensures r == if fault.Some? then Failure(fault.value) else Success(())
      ensures repository.rows == if fault.Some? then old(repository.rows)
                                 else old(repository.rows) + [NewRow(contact, clock)]
    {
      r := repository.CreateContactAsync(contact, clock, fault);
    }

    method UpdateAsync(contact: Entity, clock: Clock, fault: Option<Exception>)
      returns (r: Result<()>)
      modifies repository
      ensures repository.calls == old(repository.calls) + [UpdateCall(contact)]
      ensures fault.Some? ==> r == Failure(fault.value) && repository.rows == old(repository.rows)
      ensures fault.None? && !HasPhone(old(repository.rows), contact.phoneNumber) ==>
                r == Failure(ContactNotFound) && repository.rows == old(repository.rows)
      ensures fault.None? && HasPhone(old(repository.rows), contact.phoneNumber) ==>
                var i := IndexOfPhone(old(repository.rows), contact.phoneNumber).value;
                r == Success(()) && repository.rows == old(repository.rows)[i := Merge(old(repository.rows)[i], contact, clock(0))]
    {
      r := repository.UpdateAsync(contact, clock, fault);
    }

    method DeleteAsync(phoneNumber: Option<string>, fault: Option<Exception>)
      returns (r: Result<()>)
      modifies repository
      ensures repository.calls == old(repository.calls) + [DeleteCall(phoneNumber)]
      ensures fault.Some? ==> r == Failure(fault.value) && repository.rows == old(repository.rows)
      ensures fault.None? && !HasPhone(old(repository.rows), phoneNumber) ==>
                r == Failure(DeleteTargetMissing) && repository.rows == old(repository.rows)
      ensures fault.None? && HasPhone(old(repository.rows), phoneNumber) ==>
                r == Success(()) &&
                repository.rows == RemoveAt(old(repository.rows), IndexOfPhone(old(repository.rows), phoneNumber).value)
    {
      r := repository.DeleteAsync(phoneNumber, fault);
    }

    /** Lines 85-97: the library's verdict on the parsed number; a parse
        failure is caught and reads as "invalid", so the call never throws. */
    static function IsValidPhoneNumber(util: PhoneNumberUtil, phoneNumber: Option<string>): (valid: bool)
      ensures util.parse(phoneNumber).NumberParseException? ==> !valid
      ensures valid <==> exists n :: util.parse(phoneNumber) == Parsed(n) && util.isValidNumber(n)
    {
      match util.parse(phoneNumber)
      case NumberParseException => false
      case Parsed(number) => util.isValidNumber(number)
    }

    /** Lines 99-109: exactly one search, through the service's own
        SearchContactAsync; true iff it finds a contact. */
    method IsContactExist(phoneNumber: Option<string>, fault: Option<Exception>)
      returns (r: Result<bool>)
      modifies repository
      ensures repository.rows == old(repository.rows)
      ensures repository.calls == old(repository.calls) + [SearchContactCall(phoneNumber)]
      ensures r == if fault.Some? then Failure(fault.value) else Success(HasPhone(repository.rows, phoneNumber))
    {
      var existing := SearchContactAsync(phoneNumber, fault);
      if existing.Failure? {
        return Failure(existing.error);
      }
      if existing.value.None? {
        return Success(false);
      }
      r := Success(true);
    }
  }

  /** What the service's unit tests assert of IsValidPhoneNumber against the
      real library: one international number accepted, seven inputs
      rejected. */
  ghost predicate AgreesWithServiceTests(util: PhoneNumberUtil) {
    && ContactsService.IsValidPhoneNumber(util, Some("+972536260988"))
    && !ContactsService.IsValidPhoneNumber(util, Some("invalid"))
    && !ContactsService.IsValidPhoneNumber(util, Some(""))
    && !ContactsService.IsValidPhoneNumber(util, None)
    && !ContactsService.IsValidPhoneNumber(util, Some("123"))
    && !ContactsService.IsValidPhoneNumber(util, Some("abc"))
    && !ContactsService.IsValidPhoneNumber(util, Some("++++++"))
    && !ContactsService.IsValidPhoneNumber(util, Some("1234567890123456"))
  }

  /** The tested samples are consistent with the library's interface: a
      library that parses only the accepted sample meets all of them. */
  lemma ServiceTestsAreSatisfiable()
    ensures exists util :: AgreesWithServiceTests(util)
  {
    var util := PhoneNumberUtil(
      p => if p == Some("+972536260988") then Parsed(PhoneNumber(972, 536260988)) else NumberParseException,
      n => true);
    assert AgreesWithServiceTests(util);
  }
}
