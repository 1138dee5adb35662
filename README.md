# Contacts directory API, modelled in Dafny

The model covers the core of a small contact-directory web API. The API
stores people (first name, last name, phone number, address) in one
relational table, and answers paged listing, search by phone number,
create, partial update and delete over HTTP. The model walks the layers
from the table up to the HTTP answer:

- **The persisted row and the domain entity** (`models.dfy`). Every string
  field is nullable, so each is an `Option<string>`.
- **The two mappers** (`dal_transformer.dfy`, `dto_transformer.dfy`). They
  convert between row, entity and API DTO, and reject null inputs.
- **The first-name ordering** (`ordering.dfy`). It is a stable insertion
  sort under an abstract comparison. The sortedness results assume only
  that the comparison is a total preorder.
- **The repository** (`repository.dfy`). It is a class whose `rows: seq<Row>`
  field is the table. Each operation takes a `fault` parameter: the
  database throws at its first access, the call returns that exception
  unchanged, and the table stays as it was. A ghost `calls` trace records
  every operation invoked with its arguments, the way the unit tests' mocks
  record them. The read operations are specified by the functions
  `ListingAsWritten` (the page query with the 32-bit offset of ContactRepository.cs:34; the
  intended `Listing` stands beside it) and `Search`. The updates are specified by the new table they
  leave (`NewRow`, `Merge`, `RemoveAt`), with lemmas about uniqueness of
  phone numbers and what survives each update.
- **The service** (`services.dfy`). It forwards to the repository,
  answers "does this number exist" with exactly one search, and asks an
  opaque phone-number library whether a number is valid.
- **The controller** (`controller.dfy`). Its decision logic maps every
  path to an `ActionResult` with its status code. Each mutating endpoint is
  proved against a function (`CreateOutcome`, `UpdateOutcome`,
  `DeleteOutcome`) that gives the answer, the new table and the calls made.
  The lemmas about those functions state the endpoint's promises:
  - which answer arises exactly when;
  - uniqueness of numbers is kept;
  - a 4xx answer changes nothing and makes only reads;
  - only the last call of a request can change the table;
  - a 500 answer always carries the fixed message.
- **The metrics counters and the middleware** (`metrics.dfy`). The two
  counters are 32-bit and wrap. The middleware counts each request before
  its handler runs, and counts the request as an error exactly when the
  handler throws, rethrowing that exception. `Replay` gives the counters
  after a whole history of requests.

The clock is a parameter. `clock(i)` is the i-th reading of the current UTC
time within one call. CreateContactAsync reads it three times: twice in
the mapper, and once more when it overwrites the creation time.

PUT's own log text, "Attempt to update non-existent contact"
(ContactsController.cs:138), and its 404 message, "Contact not found."
(:139), say that the route's phone number must be stored. The code checks
the body's number instead, and answers 404 when that number *is* found.
`UpdateContact` models the code as written. `UpdateContactCorrected`
models the check those texts describe; see Findings.
Even in the corrected version, the repository finds the row to update by
the body's number. A body that renames a contact to a new, free number
therefore still ends in 500: the update finds no row carrying the new
number. `UpdateContactCorrected` states that outcome too.

## Model

| member | source | states |
|---|---|---|
| Common.Wrap32 | DAL/Repository/ContactRepository.cs:34 | C# 32-bit `int` arithmetic: the result is in range, equals the input when the input is in range, and differs from it by a multiple of 2^32 |
| ContactTransformer.ToRow | DAL/Transformer/ContactTransformer.cs:32-40 | the new row carries the entity's four fields, key 0, and the two clock readings as creation and update time |
| ContactTransformer.TransformToContactEntity | DAL/Transformer/ContactTransformer.cs:9-23 | a null row gives ArgumentNullException("dbContact"), and only a null row does; otherwise the entity holds the row's four fields, so mapping it back restores the row up to its key |
| ContactTransformer.TransformToDbContact | DAL/Transformer/ContactTransformer.cs:25-41 | a null entity gives ArgumentNullException("contactEntity"), and only a null entity does; otherwise mapping the row back yields the entity; key 0; the times are the two clock readings |
| ContactTransformer.RowRoundTrip | DAL/Transformer/ContactTransformer.cs:16-40 | row to entity to row restores the row, except the key, which returns to 0 |
| ContactDtoTransformer.TransformToContactEntity | Contacts/Transformer/ContactDtoTransformer.cs:9-21 | a null DTO gives ArgumentNullException("dbContact"), and only a null DTO does; otherwise the entity maps back to the same DTO |
| ContactDtoTransformer.TransformToContactDto | Contacts/Transformer/ContactDtoTransformer.cs:23-35 | a null entity gives ArgumentNullException("contactEntity"), and only a null entity does; otherwise the DTO maps back to the same entity |
| ContactDtoTransformer.RoundTrips | Contacts/Transformer/ContactDtoTransformer.cs:14-34 | DTO to entity to DTO, and entity to DTO to entity, are both the identity |
| ContactDtoTransformer.ToDtos | Contacts/Controllers/ContactsController.cs:40 | the list is mapped element by element: same length, and the k-th DTO maps back to the k-th entity |
| FirstNameOrdering.Insert | DAL/Repository/ContactRepository.cs:33 | inserting adds exactly that row: the bag of rows grows by it and the length by one |
| FirstNameOrdering.SortByFirstName | DAL/Repository/ContactRepository.cs:33 | the sorted list is a permutation of the table |
| FirstNameOrdering.InsertSorted | DAL/Repository/ContactRepository.cs:33 | under a total preorder, inserting into a sorted list keeps it sorted |
| FirstNameOrdering.SortByFirstNameSorted | DAL/Repository/ContactRepository.cs:33 | under a total preorder the result is sorted by first name |
| Repository.IndexOfPhone | DAL/Repository/ContactRepository.cs:56-57 | no position exactly when no row has the number; otherwise a row with the number, and no earlier row has it |
| Repository.Search | DAL/Repository/ContactRepository.cs:56-66 | an entity exactly when some row has the number; it carries that number and is the entity of the first row that has it |
| Repository.Window | DAL/Repository/ContactRepository.cs:34-35 | Skip then Take: at most `take` rows; empty when `skip` is past the end; the k-th is row skip+k; shorter than `take` only when the table runs out |
| Repository.Entities | DAL/Repository/ContactRepository.cs:38-39 | one entity per row, in the rows' order |
| Repository.Offset | DAL/Repository/ContactRepository.cs:34 | the intended offset: 0 for page 1, never negative for page >= 1, and at least one page in for every later page |
| Repository.Listing | DAL/Repository/ContactRepository.cs:32-41 | the intended listing: at most pageSize entities; none when the page's offset is past the end; a full page whenever the table has enough rows; a short page only when it reaches the end of the sorted table |
| Repository.SortedWindowEntities | DAL/Repository/ContactRepository.cs:32-39 | every entity of a window of the sorted table is a stored row's; under a total preorder they are in first-name order; the k-th is sorted row skip+k |
| Repository.ListingIsSortedSubset | DAL/Repository/ContactRepository.cs:32-41 | a listing holds only stored contacts, in first-name order under a total preorder, and is the sorted table from offset (page-1)*pageSize on |
| Repository.OffsetAsWritten | DAL/Repository/ContactRepository.cs:34 | the 32-bit offset: the true offset whenever it fits in an `int`, otherwise off from it by a multiple of 2^32 |
| Repository.ListingAsWritten | DAL/Repository/ContactRepository.cs:32-39 | what the query returns: at most pageSize entities; none when the 32-bit offset is past the end; a full page whenever the table has enough rows; a short page only at the end of the sorted table |
| Repository.ListingAsWrittenAgrees | DAL/Repository/ContactRepository.cs:34 | whenever (page-1)*pageSize fits in an `int`, the listing as written is the intended listing |
| Repository.ListingAsWrittenIsSortedSubset | DAL/Repository/ContactRepository.cs:32-39 | the listing as written holds only stored contacts, in first-name order under a total preorder, and is the sorted table from the 32-bit offset on |
| Repository.PaginationSample | UnitTests/RepositoryTests/ContactRepositoryUnitTests.cs:58-79 | Alice, Bob, Charlie with page 2 of size 1 list exactly Bob, for any comparison that orders the three names |
| Repository.LargePageWrapsToFirstPage | DAL/Repository/ContactRepository.cs:34 | with 32-bit arithmetic, page 214748366 of size 10 has offset -2147483646 and lists the first page of a non-empty table; the unbounded offset lists nothing |
| Repository.NewRow | DAL/Repository/ContactRepository.cs:81-84 | the added row carries the entity, key 0, creation time from the third clock reading, update time from the second |
| Repository.Merge | DAL/Repository/ContactRepository.cs:110-114 | each non-null incoming field replaces the stored one and each null one keeps it; the key and the creation time are kept; the update time is `now` |
| Repository.MergeSample | UnitTests/RepositoryTests/ContactRepositoryUnitTests.cs:241-271 | John Doe at "Old Address", updated with only a last name, becomes John Smith at "Old Address"; key and creation time kept, update time set |
| Repository.UpdateKeepsPhoneNumbers | DAL/Repository/ContactRepository.cs:101-114 | merging into the first row with the entity's number changes no row's number, keeps the set of stored numbers, and keeps them unique |
| Repository.UpdateKeepsUnique | DAL/Repository/ContactRepository.cs:101-114 | the update keeps stored numbers unique |
| Repository.RemoveAt | DAL/Repository/ContactRepository.cs:142 | removing one row: one shorter, rows before it in place, rows after it shifted down by one |
| Repository.RemoveAtMultiset | DAL/Repository/ContactRepository.cs:142 | exactly the removed row leaves the bag of rows |
| Repository.RemoveAtKeepsUnique | DAL/Repository/ContactRepository.cs:142 | with unique numbers, removal keeps them unique and leaves no row with the removed number |
| Repository.DeleteRemovesFirstMatch | DAL/Repository/ContactRepository.cs:133-143 | the removed row is the first with the number; only it leaves the table; with unique numbers the number is gone afterwards and uniqueness holds |
| Repository.AppendKeepsUnique | DAL/Repository/ContactRepository.cs:84 | appending a row whose number is not stored keeps numbers unique, and the number is then stored |
| Repository.ContactRepository.constructor | DAL/Repository/ContactRepository.cs:12-16 | the repository starts over the given table and collation with an empty call trace |
| Repository.ContactRepository.GetContactsAsync | DAL/Repository/ContactRepository.cs:26-48 | one recorded call; the table unchanged; a fault is returned as is; otherwise the result is ListingAsWritten of the table, with the offset in 32-bit arithmetic, at most pageSize long |
| Repository.ContactRepository.SearchContactAsync | DAL/Repository/ContactRepository.cs:50-73 | one recorded call; the table unchanged; a fault is returned as is; otherwise the result is Search, non-null exactly when a row has the number |
| Repository.ContactRepository.CreateContactAsync | DAL/Repository/ContactRepository.cs:75-93 | one recorded call; on a fault the table is unchanged; otherwise exactly NewRow(entity) is appended, with no duplicate check |
| Repository.ContactRepository.UpdateAsync | DAL/Repository/ContactRepository.cs:95-125 | one recorded call; a fault, or no row with the entity's number, gives the fault or InvalidOperationException("Contact not found.") with the table unchanged; otherwise only the first matching row changes, to Merge of it |
| Repository.ContactRepository.DeleteAsync | DAL/Repository/ContactRepository.cs:127-150 | one recorded call; a fault, or no matching row, gives the fault or Exception("The requested phone number to be deleted is not exist") with the table unchanged; otherwise the first matching row is removed |
| Repository.ContactRepository.SaveAsync | DAL/Repository/ContactRepository.cs:152-165 | one recorded call; the table unchanged; a fault is returned as is |
| Services.ContactsService.constructor | BL/Services/ContactsService.cs:14-18 | the service holds the given repository and logger |
| Services.ContactsService.Create | BL/Services/ContactsService.cs:14-18 | a null repository gives ArgumentNullException("contactsRepository"); otherwise a null logger gives ArgumentNullException("logger"); otherwise a new service over both |
| Services.ContactsService.GetContactsAsync | BL/Services/ContactsService.cs:20-31 | exactly one repository call with the same arguments; its result (ListingAsWritten) or exception passed on unchanged |
| Services.ContactsService.SearchContactAsync | BL/Services/ContactsService.cs:33-44 | exactly one repository call with the same number; its result or exception passed on unchanged |
| Services.ContactsService.CreateContactAsync | BL/Services/ContactsService.cs:46-57 | the entity forwarded once, unchanged; the repository's effect and exception passed on |
| Services.ContactsService.UpdateAsync | BL/Services/ContactsService.cs:59-70 | the entity forwarded once, unchanged; the repository's effect and exception passed on |
| Services.ContactsService.DeleteAsync | BL/Services/ContactsService.cs:72-83 | the number forwarded once, unchanged; the repository's effect and exception passed on |
| Services.ContactsService.IsValidPhoneNumber | BL/Services/ContactsService.cs:85-97 | never throws: a parse exception gives false; otherwise true exactly when the library accepts the parsed number |
| Services.ContactsService.IsContactExist | BL/Services/ContactsService.cs:99-109 | exactly one search; true exactly when a row has the number; a search exception passed on unchanged |
| Services.ServiceTestsAreSatisfiable | UnitTests/ServiceTests/ContactServiceUnitTests.cs:283-347 | some library meets all the tested verdicts: "+972536260988" valid, and "invalid", "", null, "123", "abc", "++++++", "1234567890123456" invalid |
| Controllers.IsWhiteSpace | Contacts/Controllers/ContactsController.cs:60 | .NET's white-space set; among ASCII characters exactly TAB to CR and the space; never a digit, a letter or '+' |
| Controllers.IsNullOrWhiteSpace | Contacts/Controllers/ContactsController.cs:60 | null and the empty string are blank; any character outside the white-space set makes a string non-blank |
| Controllers.Renames | Contacts/Controllers/ContactsController.cs:142 | a body without a number, or with the route's own number, never asks for a new number; one that does carries a number other than the route's |
| Controllers.CreateOutcome | Contacts/Controllers/ContactsController.cs:90-121 | a missing body makes no call; otherwise the first call is the search for the body's number, at most two calls in all; the table stays or gains exactly NewRow of the body |
| Controllers.FinishUpdateOutcome | Contacts/Controllers/ContactsController.cs:142-164 | a body that asks for no new number goes straight to one update call; otherwise the new number is searched first; the table stays or only the first row with the body's number becomes Merge of it |
| Controllers.UpdateOutcome | Contacts/Controllers/ContactsController.cs:128-171 | a missing body makes no call; otherwise the first call searches the body's number, as written |
| Controllers.UpdateCorrectedOutcome | Contacts/Controllers/ContactsController.cs:128-171 | a missing body makes no call; otherwise the first call searches the route's number |
| Controllers.DeleteOutcome | Contacts/Controllers/ContactsController.cs:177-197 | one or two calls, the first the search for the route's number; the table stays or loses exactly the first row with the number |
| Controllers.ActionResult.StatusCode | Contacts/Controllers/ContactsController.cs:24-27 | 200 exactly for the two Ok results; a 4xx code exactly for BadRequest, NotFound and Conflict |
| Controllers.ContactsController.constructor | Contacts/Controllers/ContactsController.cs:17-22 | the controller holds the given service |
| Controllers.ContactsController.GetContacts | Contacts/Controllers/ContactsController.cs:28-49 | out-of-range paging gives 400 with no call; otherwise one listing call, 500 with the fixed message on a fault, else 200 with ListingAsWritten mapped to DTOs, at most pageSize long; the table unchanged |
| Controllers.ContactsController.SearchContact | Contacts/Controllers/ContactsController.cs:56-83 | a null or blank number gives 400 with no call; otherwise one search, 500 on a fault, 404 when no row has the number, else 200 with the first match, which carries that number |
| Controllers.ContactsController.CreateContact | Contacts/Controllers/ContactsController.cs:90-121 | the answer, the new table and the calls made are CreateOutcome's |
| Controllers.ContactsController.FinishUpdate | Contacts/Controllers/ContactsController.cs:142-164 | the answer, the new table and the calls made are FinishUpdateOutcome's |
| Controllers.ContactsController.UpdateContact | Contacts/Controllers/ContactsController.cs:128-171 | the answer, the new table and the calls made are UpdateOutcome's (the code as written) |
| Controllers.ContactsController.UpdateContactCorrected | Contacts/Controllers/ContactsController.cs:128-171 | the answer, the new table and the calls made are UpdateCorrectedOutcome's (existence checked on the route's number) |
| Controllers.ContactsController.DeleteContact | Contacts/Controllers/ContactsController.cs:177-197 | the answer, the new table and the calls made are DeleteOutcome's |
| Controllers.CreateDecisions | Contacts/Controllers/ContactsController.cs:94-114 | 409 exactly when the body's number is stored, whatever its format; 400 exactly when it is new but invalid; 201 exactly when it is new, valid and the insert succeeds, and then exactly NewRow is appended; otherwise the table is unchanged |
| Controllers.CreateWithTestedNumbers | UnitTests/ServiceTests/ContactServiceUnitTests.cs:283-347 | under any library giving the service tests' verdicts, POST of a new "+972536260988" answers 201 and POST of a new "abc" answers 400 |
| Controllers.CreateKeepsUnique | Contacts/Controllers/ContactsController.cs:96-112 | POST keeps stored numbers unique, and a created contact's number is then stored |
| Controllers.CreateIsDisciplined | Contacts/Controllers/ContactsController.cs:90-121 | a 4xx answer from POST changes nothing and makes only reads; only the last call can mutate; a 500 carries the fixed message |
| Controllers.UpdateNeverApplies | Contacts/Controllers/ContactsController.cs:134-164 | PUT as written never answers 202 or 409 and never changes the table |
| Controllers.UpdateOfStoredContact | Contacts/Controllers/ContactsController.cs:134-140 | for a stored contact and a body with its own number, PUT as written answers 404, and the corrected PUT answers 202 with the merged row |
| Controllers.UpdateCorrectedApplies | Contacts/Controllers/ContactsController.cs:134-164 | corrected PUT with a body that keeps a stored route number answers 202 and merges into that contact |
| Controllers.UpdateCorrectedKeepsUnique | Contacts/Controllers/ContactsController.cs:134-164 | corrected PUT answers 202 only when the route's and the body's numbers are stored; every other answer leaves the table unchanged; stored numbers stay unique |
| Controllers.FinishUpdateIsDisciplined | Contacts/Controllers/ContactsController.cs:142-164 | the rename checks and the update obey the same discipline as the endpoints |
| Controllers.UpdateIsDisciplined | Contacts/Controllers/ContactsController.cs:128-171 | PUT as written: a 4xx answer changes nothing and makes only reads; only the last call can mutate; a 500 carries the fixed message |
| Controllers.UpdateCorrectedIsDisciplined | Contacts/Controllers/ContactsController.cs:128-171 | the same discipline for the corrected PUT |
| Controllers.DeleteRemovesTheContact | Contacts/Controllers/ContactsController.cs:181-190 | 202 exactly when the number is stored and both calls succeed; then one row fewer, taken from the table; otherwise the table unchanged; with unique numbers the number is gone and uniqueness holds |
| Controllers.DeleteIsDisciplined | Contacts/Controllers/ContactsController.cs:177-197 | a 404 changes nothing and makes only reads; only the last call can mutate; a 500 carries the fixed message |
| Metrics.Inc32 | BL/Services/MetricsService.cs:13-14 | one more, except at int.MaxValue, which wraps to int.MinValue |
| Metrics.MetricsService.constructor | BL/Services/MetricsService.cs:9-10 | both counters start at 0 |
| Metrics.MetricsService.IncrementRequests | BL/Services/MetricsService.cs:13 | the request counter goes up by one (32-bit); the error counter unchanged |
| Metrics.MetricsService.IncrementErrors | BL/Services/MetricsService.cs:14 | the error counter goes up by one (32-bit); the request counter unchanged |
| Metrics.MetricsService.GetCurrentMetrics | BL/Services/MetricsService.cs:16-24 | reports both current counters and changes neither |
| Middleware.MetricsMiddleware.constructor | Contacts/MetricsMiddleware.cs:11-15 | the middleware holds the given service |
| Middleware.MetricsMiddleware.InvokeAsync | Contacts/MetricsMiddleware.cs:17-30 | the handler runs after the request is counted; its outcome, including any exception, comes back unchanged; the error counter rises exactly when it threw |
| Middleware.Step | Contacts/MetricsMiddleware.cs:19-28 | one invocation adds one request (below int.MaxValue); the error counter moves exactly when the handler threw, by one below int.MaxValue |
| Middleware.Replay | Contacts/MetricsMiddleware.cs:19-28 | from zero, the request counter after a history is its length modulo 2^32 |
| Middleware.ReplayExtends | Contacts/MetricsMiddleware.cs:17-30 | one more invocation on top of a history is the replay of the longer history |
| Middleware.ReplayCounts | Contacts/MetricsMiddleware.cs:19-28 | from zero, after N invocations of which M threw, the counters read N and M modulo 2^32 |
| Middleware.ErrorsNeverExceedRequests | Contacts/MetricsMiddleware.cs:19-28 | below 2^31 invocations the counters are exactly N and M, and 0 <= errors <= requests |

## Left out

- Logging: what the logger records is not modelled. The service and repository "log and rethrow", which is modelled as passing the exception through unchanged.
- Async, tasks, the request pipeline and `HttpContext`: each call is one sequential step.
- Concurrency: `Interlocked` atomicity is not modelled. Neither is the race between the controller's existence check and its write.
- The uptime stopwatch and its `(int)` cast of elapsed seconds: clock and floating-point work.
- The database itself, replaced by the table sequence:
  - Entity Framework and per-call contexts;
  - the key the database generates (the model keeps the mapper's default 0);
  - column length limits and required-column checks;
  - collations beyond the abstract comparison;
  - strings compared only by exact equality.
- Repository.ContactRepository.constructor: the null checks of the repository's constructor are not modelled; it starts from a given table.
- Controllers.ContactsController.constructor: the null checks of the controller's constructor are not modelled, because the DTO mapper is a module of functions here, not an injected object.
- Services.ContactsService.IsValidPhoneNumber: libphonenumber's parsing and validity rules are an opaque parameter. The tested verdicts are a predicate shown to be satisfiable, not axioms.
- Repository.Window: a negative skip skips nothing and a negative take takes nothing, as LINQ to Objects does. On SQL Server a negative OFFSET is rejected, so a wrapped offset there ends in a 500 rather than the first page; the SQL translation is not modelled.
- FirstNameOrdering.SortByFirstName: the model fixes one stable order. On SQL Server, `ORDER BY FirstName` with OFFSET/FETCH leaves rows with tied first names in no guaranteed order, so pages over tied names can overlap or skip rows between calls; the clause "the k-th listed is sorted row offset+k" holds only for the one order the model fixes.
- The query-string defaults of GetContacts (`page = 1`, `pageSize = 10`, ContactsController.cs:28) are not modelled: the model's GetContacts always receives both values.
- The metrics controller is a pass-through to GetCurrentMetrics and is not modelled separately.
- The declaration of ContactDto is not part of this model. Its four nullable properties are the ones the mapper reads and writes.
- Test doubles (mocked services returning arbitrary answers) are not modelled. The controller is modelled over the real service and repository, so the unit test that expects 202 from PUT when a mock says the number is absent has no counterpart.

## Findings

| source | as written | input that shows it | evidently intended | confidence | as-written member | corrected member |
|---|---|---|---|---|---|---|
| Contacts/Controllers/ContactsController.cs:134-140 | PUT checks the body's number and answers 404 when it *is* stored; it goes on only for an unstored number, which the repository then cannot find | PUT /api/contacts/+972536260988 with body number +972536260988, for a stored contact with that number: 404. Any other body: 404, 400 or 500 | check the route's number and answer 404 when it is *not* stored, as the log text "non-existent contact" and the message "Contact not found." say | not executed; the controller's own unit test asserts the as-written behaviour against a mocked service | Controllers.UpdateNeverApplies | Controllers.UpdateCorrectedApplies |
| DAL/Repository/ContactRepository.cs:34 | `(page - 1) * pageSize` in 32-bit `int` arithmetic | page = 214748366, pageSize = 10, which the controller accepts: the offset wraps to -2147483646, Skip skips nothing, and the first page comes back (GetContactsAsync computes this) | the offset without overflow (2147483650), so that page is empty | not executed; the first page is what LINQ to Objects (and the tests' in-memory data) gives, while SQL Server would reject the negative OFFSET with a 500 | Repository.LargePageWrapsToFirstPage | Repository.Listing |
