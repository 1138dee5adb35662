/** The data-access layer: the queries and updates ContactRepository runs
    against the contact table, here a sequence of rows. Every operation opens
    its own store session; `fault` stands for the database raising an
    exception at its first access, and such a call changes nothing and lets
    the exception through unchanged. */
module Repository {
  import opened Common
  import opened Models
  import opened DalModel
  import opened ContactTransformer
  import opened FirstNameOrdering

  /** What UpdateAsync throws when no row carries the entity's number. */
  const ContactNotFound: Exception := InvalidOperationException("Contact not found.")

  /** What DeleteAsync throws when no row carries the number. */
  const DeleteTargetMissing: Exception :=
    GeneralException("The requested phone number to be deleted is not exist")

  ghost predicate HasPhone(rows: seq<Row>, phoneNumber: Option<string>) {
    exists i :: 0 <= i < |rows| && rows[i].phoneNumber == phoneNumber
  }

  /** At most one row per phone number: the business key the callers try to
      keep unique (the table itself does not enforce it). */
  ghost predicate UniquePhones(rows: seq<Row>) {
    forall i, j :: 0 <= i < j < |rows| ==> rows[i].phoneNumber != rows[j].phoneNumber
  }

  // ---------------------------------------------------------------------
  // Queries

  /** `FirstOrDefault(c => c.PhoneNumber == phoneNumber)`, as a position. */
  function IndexOfPhone(rows: seq<Row>, phoneNumber: Option<string>): (r: Option<nat>)
    ensures r.None? <==> !HasPhone(rows, phoneNumber)
    ensures r.Some? ==> r.value < |rows| && rows[r.value].phoneNumber == phoneNumber
    ensures r.Some? ==> forall j :: 0 <= j < r.value ==> rows[j].phoneNumber != phoneNumber
  {
    if rows == [] then None
    else if rows[0].phoneNumber == phoneNumber then Some(0)
    else
      match IndexOfPhone(rows[1..], phoneNumber)
      case None =>
        assert forall i :: 0 < i < |rows| ==> rows[i] == rows[1..][i - 1];
        None
      case Some(k) => Some(k + 1)
  }

  /** SearchContactAsync's result: the first row with the number, as an
      entity, or null. */
  function Search(rows: seq<Row>, phoneNumber: Option<string>): (r: Option<Entity>)
    ensures r.Some? <==> HasPhone(rows, phoneNumber)
    ensures r.Some? ==> r.value.phoneNumber == phoneNumber
    ensures r.Some? ==> exists i :: && 0 <= i < |rows| && rows[i].phoneNumber == phoneNumber
                                   && (forall j :: 0 <= j < i ==> rows[j].phoneNumber != phoneNumber)
                                   && r.value == ToEntity(rows[i])
  {
    match IndexOfPhone(rows, phoneNumber)
    case None => None
    case Some(i) => Some(ToEntity(rows[i]))
  }

  function Max0(n: int): nat {
    if n < 0 then 0 else n
  }

  /** `Skip(skip).Take(take)` over a list, where a skip below 1 skips nothing
      and a take below 1 takes nothing. */
  function Window(rows: seq<Row>, skip: int, take: int): (r: seq<Row>)
    ensures |r| <= Max0(take)
    ensures skip >= |rows| ==> r == []
    ensures forall k :: 0 <= k < |r| ==> Max0(skip) + k < |rows| && r[k] == rows[Max0(skip) + k]
    ensures |r| == Max0(take) || Max0(skip) + |r| >= |rows|
  {
    var start := if Max0(skip) < |rows| then Max0(skip) else |rows|;
    var len := if Max0(take) < |rows| - start then Max0(take) else |rows| - start;
    rows[start..start + len]
  }

  /** `Select(TransformToContactEntity)`: one entity per row, in order. */
  function Entities(rows: seq<Row>): (r: seq<Entity>)
    ensures |r| == |rows| && forall k :: 0 <= k < |rows| ==> r[k] == ToEntity(rows[k])
  {
    seq(|rows|, k requires 0 <= k < |rows| => ToEntity(rows[k]))
  }

  /** The offset of a page, `(page - 1) * pageSize`, computed without
      overflow: the first page starts at 0, and every later page of a
      positive size starts at least one page in. */
  function Offset(page: Int32, pageSize: Int32): (r: int)
    ensures page == 1 ==> r == 0
    ensures page >= 1 && pageSize >= 0 ==> r >= 0
    ensures page >= 2 && pageSize >= 1 ==> r >= pageSize
  {
    (page - 1) * pageSize
  }

  /** The intended listing: the page-th window of `pageSize` rows in
      first-name order, as entities, with the offset computed without
      overflow. */
  function Listing(rows: seq<Row>, page: Int32, pageSize: Int32, le: Order): (r: seq<Entity>)
    ensures |r| <= Max0(pageSize)
    ensures Offset(page, pageSize) >= |rows| ==> r == []
    ensures pageSize >= 1 && Max0(Offset(page, pageSize)) + pageSize <= |rows| ==> |r| == pageSize
    ensures |r| == Max0(pageSize) || Max0(Offset(page, pageSize)) + |r| >= |rows|
  {
    var sorted := SortByFirstName(rows, le);
    assert |sorted| == |multiset(sorted)| == |rows|;
    Entities(Window(sorted, Offset(page, pageSize), pageSize))
  }

  /** The entities of a window of the sorted rows are stored rows, in
      first-name order, and are the sorted rows from the window's start on. */
  lemma {:induction false} SortedWindowEntities(rows: seq<Row>, le: Order, skip: int, take: int)
    ensures var sorted := SortByFirstName(rows, le);
      var listing := Entities(Window(sorted, skip, take));
      && (forall k :: 0 <= k < |listing| ==> exists i :: 0 <= i < |rows| && listing[k] == ToEntity(rows[i]))
      && (TotalPreorder(le) ==>
            forall i, j :: 0 <= i < j < |listing| ==> le(listing[i].firstName, listing[j].firstName))
      && (forall k :: 0 <= k < |listing| ==> Max0(skip) + k < |sorted| && listing[k] == ToEntity(sorted[Max0(skip) + k]))
  {
    var sorted := SortByFirstName(rows, le);
    var window := Window(sorted, skip, take);
    var listing := Entities(window);
    forall k | 0 <= k < |listing|
      ensures exists i :: 0 <= i < |rows| && listing[k] == ToEntity(rows[i])
    {
      assert listing[k] == ToEntity(window[k]);
      assert window[k] in multiset(rows);
      var i :| 0 <= i < |rows| && rows[i] == window[k];
    }
    SortByFirstNameSorted(rows, le);
    if TotalPreorder(le) {
      forall i, j | 0 <= i < j < |listing|
        ensures le(listing[i].firstName, listing[j].firstName)
      {
        assert listing[i] == ToEntity(window[i]) && listing[j] == ToEntity(window[j]);
        assert window[i] == sorted[Max0(skip) + i] && window[j] == sorted[Max0(skip) + j];
      }
    }
  }

  /** Every listed contact is a stored row; the listing is in first-name
      order; and it is the sorted rows from the page's offset on. */
  lemma ListingIsSortedSubset(rows: seq<Row>, page: Int32, pageSize: Int32, le: Order)
    ensures var sorted := SortByFirstName(rows, le);
      var listing := Listing(rows, page, pageSize, le);
      && (forall k :: 0 <= k < |listing| ==> exists i :: 0 <= i < |rows| && listing[k] == ToEntity(rows[i]))
      && (TotalPreorder(le) ==>
            forall i, j :: 0 <= i < j < |listing| ==> le(listing[i].firstName, listing[j].firstName))
      && (forall k :: 0 <= k < |listing| ==>
            Max0(Offset(page, pageSize)) + k < |sorted| &&
            listing[k] == ToEntity(sorted[Max0(Offset(page, pageSize)) + k]))
  {
    var skip := Offset(page, pageSize);
    SortedWindowEntities(rows, le, skip, pageSize);
    assert Listing(rows, page, pageSize, le) == Entities(Window(SortByFirstName(rows, le), skip, pageSize));
  }

  /** The repository test over Alice, Bob and Charlie: page 2 of size 1 is
      Bob, whatever the collation, as long as it puts Alice before Bob before
      Charlie. */
  lemma PaginationSample(le: Order, alice: Row, bob: Row, charlie: Row)
    requires alice.firstName == Some("Alice") && bob.firstName == Some("Bob") && charlie.firstName == Some("Charlie")
    requires le(Some("Alice"), Some("Bob")) && le(Some("Bob"), Some("Charlie"))
    ensures Listing([alice, bob, charlie], 2, 1, le) == [ToEntity(bob)]
  {
    assert SortByFirstName([charlie], le) == [charlie];
    assert [alice, bob, charlie][1..] == [bob, charlie];
    assert [bob, charlie][1..] == [charlie];
    assert SortByFirstName([bob, charlie], le) == [bob, charlie];
    assert SortByFirstName([alice, bob, charlie], le) == [alice, bob, charlie];
  }

  // ---------------------------------------------------------------------
  // Line 34 as written: `(page - 1) * pageSize` is 32-bit `int` arithmetic.

  /** The offset line 34 computes: the true offset when it fits in an
      `int`, and otherwise a value off from it by a multiple of 2^32. */
  function OffsetAsWritten(page: Int32, pageSize: Int32): (r: Int32)
    ensures -0x8000_0000 <= Offset(page, pageSize) < 0x8000_0000 ==> r == Offset(page, pageSize)
    ensures (Offset(page, pageSize) - r) % 0x1_0000_0000 == 0
  {
    Wrap32((page - 1) * pageSize)
  }

  /** What GetContactsAsync returns (lines 32-39): the window of the sorted
      table at the 32-bit offset, as entities. */
  function ListingAsWritten(rows: seq<Row>, page: Int32, pageSize: Int32, le: Order): (r: seq<Entity>)
    ensures |r| <= Max0(pageSize)
    ensures OffsetAsWritten(page, pageSize) >= |rows| ==> r == []
    ensures pageSize >= 1 && Max0(OffsetAsWritten(page, pageSize)) + pageSize <= |rows| ==> |r| == pageSize
    ensures |r| == Max0(pageSize) || Max0(OffsetAsWritten(page, pageSize)) + |r| >= |rows|
  {
    var sorted := SortByFirstName(rows, le);
    assert |sorted| == |multiset(sorted)| == |rows|;
    Entities(Window(sorted, OffsetAsWritten(page, pageSize), pageSize))
  }

  /** Wherever the product fits in an `int`, the listing as written is the
      intended one, so every result about Listing applies to it. */
  lemma ListingAsWrittenAgrees(rows: seq<Row>, page: Int32, pageSize: Int32, le: Order)
    ensures -0x8000_0000 <= (page - 1) * pageSize < 0x8000_0000 ==>
              ListingAsWritten(rows, page, pageSize, le) == Listing(rows, page, pageSize, le)
  {
  }

  /** The listing as written holds only stored contacts, in first-name order
      under a total preorder, and is the sorted table from the 32-bit offset
      on (from the start when that offset is negative). */
  lemma ListingAsWrittenIsSortedSubset(rows: seq<Row>, page: Int32, pageSize: Int32, le: Order)
    ensures var sorted := SortByFirstName(rows, le);
      var listing := ListingAsWritten(rows, page, pageSize, le);
      && (forall k :: 0 <= k < |listing| ==> exists i :: 0 <= i < |rows| && listing[k] == ToEntity(rows[i]))
      && (TotalPreorder(le) ==>
            forall i, j :: 0 <= i < j < |listing| ==> le(listing[i].firstName, listing[j].firstName))
      && (forall k :: 0 <= k < |listing| ==>
            Max0(OffsetAsWritten(page, pageSize)) + k < |sorted| &&
            listing[k] == ToEntity(sorted[Max0(OffsetAsWritten(page, pageSize)) + k]))
  {
    var skip := OffsetAsWritten(page, pageSize);
    SortedWindowEntities(rows, le, skip, pageSize);
    assert ListingAsWritten(rows, page, pageSize, le) == Entities(Window(SortByFirstName(rows, le), skip, pageSize));
  }

  /** Page 214748366 of size 10, which the controller accepts, wraps the
      offset to a negative number; Skip then skips nothing and the caller gets
      the first page back instead of an empty one. */
  lemma LargePageWrapsToFirstPage(rows: seq<Row>, le: Order)
    requires 1 <= |rows| < 0x8000_0000
    ensures OffsetAsWritten(214748366, 10) == -2147483646
    ensures ListingAsWritten(rows, 214748366, 10, le) == Listing(rows, 1, 10, le)
    ensures ListingAsWritten(rows, 214748366, 10, le) != []
    ensures Listing(rows, 214748366, 10, le) == []
  {
    assert Offset(214748366, 10) == 2147483650;
    var sorted := SortByFirstName(rows, le);
    assert |sorted| == |multiset(sorted)| == |rows|;
  }

  // ---------------------------------------------------------------------
  // Updates

  /** The row CreateContactAsync adds: the transformer's copy of the entity
      (clock readings 0 and 1), with CreatedDateUtc overwritten by reading 2. */
  function NewRow(entity: Entity, clock: Clock): (r: Row)
    ensures ToEntity(r) == entity
    ensures r.id == 0 && r.createdDateUtc == clock(2) && r.updateDateUtc == clock(1)
  {
    ToRow(entity, clock(0), clock(1)).(createdDateUtc := clock(2))
  }

  /** Lines 110-114: each incoming field that is not null replaces the
      stored one, a null one keeps it; the update time becomes `now`; the
      key and the creation time are never touched. */
  function Merge(dbContact: Row, entity: Entity, now: DateTime): (r: Row)
    ensures r.id == dbContact.id && r.createdDateUtc == dbContact.createdDateUtc && r.updateDateUtc == now
    ensures entity.firstName.Some? ==> r.firstName == entity.firstName
    ensures entity.firstName.None? ==> r.firstName == dbContact.firstName
    ensures entity.lastName.Some? ==> r.lastName == entity.lastName
    ensures entity.lastName.None? ==> r.lastName == dbContact.lastName
    ensures entity.phoneNumber.Some? ==> r.phoneNumber == entity.phoneNumber
    ensures entity.phoneNumber.None? ==> r.phoneNumber == dbContact.phoneNumber
    ensures entity.address.Some? ==> r.address == entity.address
    ensures entity.address.None? ==> r.address == dbContact.address
  {
    dbContact.(firstName := entity.firstName.OrElse(dbContact.firstName),
               lastName := entity.lastName.OrElse(dbContact.lastName),
               address := entity.address.OrElse(dbContact.address),
               phoneNumber := entity.phoneNumber.OrElse(dbContact.phoneNumber),
               updateDateUtc := now)
  }

  /** The repository's partial-update test: John Doe at "Old Address",
      updated with only a last name, becomes John Smith at "Old Address";
      the key and the creation time stay. */
  lemma MergeSample(dbContact: Row, now: DateTime)
    requires dbContact.firstName == Some("John") && dbContact.lastName == Some("Doe")
    requires dbContact.address == Some("Old Address")
    ensures var merged := Merge(dbContact, Entity(None, Some("Smith"), dbContact.phoneNumber, None), now);
      && merged.firstName == Some("John") && merged.lastName == Some("Smith")
      && merged.address == Some("Old Address") && merged.phoneNumber == dbContact.phoneNumber
      && merged.id == dbContact.id && merged.createdDateUtc == dbContact.createdDateUtc
      && merged.updateDateUtc == now
  {
  }

  /** Merging the first row that carries the entity's number changes no
      phone number at all: the number written back is the one matched. So
      the set of numbers, and their uniqueness, survive the update. */
  lemma {:induction false} UpdateKeepsPhoneNumbers(rows: seq<Row>, entity: Entity, now: DateTime)
    requires IndexOfPhone(rows, entity.phoneNumber).Some?
    ensures var i := IndexOfPhone(rows, entity.phoneNumber).value;
      var updated := rows[i := Merge(rows[i], entity, now)];
      && (forall k :: 0 <= k < |rows| ==> updated[k].phoneNumber == rows[k].phoneNumber)
      && (forall p :: HasPhone(updated, p) <==> HasPhone(rows, p))
      && (UniquePhones(rows) ==> UniquePhones(updated))
  {
    var i := IndexOfPhone(rows, entity.phoneNumber).value;
    var updated := rows[i := Merge(rows[i], entity, now)];
    assert updated[i].phoneNumber == rows[i].phoneNumber;
    forall p ensures HasPhone(updated, p) <==> HasPhone(rows, p) {
      if HasPhone(rows, p) {
        var j :| 0 <= j < |rows| && rows[j].phoneNumber == p;
        assert updated[j].phoneNumber == p;
      }
      if HasPhone(updated, p) {
        var j :| 0 <= j < |updated| && updated[j].phoneNumber == p;
        assert rows[j].phoneNumber == p;
      }
    }
  }

  /** The uniqueness half of UpdateKeepsPhoneNumbers, on its own. */
  lemma UpdateKeepsUnique(rows: seq<Row>, entity: Entity, now: DateTime)
    requires IndexOfPhone(rows, entity.phoneNumber).Some?
    ensures var i := IndexOfPhone(rows, entity.phoneNumber).value;
      UniquePhones(rows) ==> UniquePhones(rows[i := Merge(rows[i], entity, now)])
  {
    UpdateKeepsPhoneNumbers(rows, entity, now);
  }

  function RemoveAt(rows: seq<Row>, i: nat): (r: seq<Row>)
    requires i < |rows|
    ensures |r| == |rows| - 1
    ensures forall k :: 0 <= k < i ==> r[k] == rows[k]
    ensures forall k :: i <= k < |r| ==> r[k] == rows[k + 1]
  {
    rows[..i] + rows[i + 1..]
  }

  /** Removing one position takes exactly that row out of the bag of rows. */
  lemma RemoveAtMultiset(rows: seq<Row>, i: nat)
    requires i < |rows|
    ensures multiset(RemoveAt(rows, i)) + multiset{rows[i]} == multiset(rows)
  {
    assert rows == rows[..i] + [rows[i]] + rows[i + 1..];
  }

  /** Removing the row at `i` from a store with unique numbers keeps them
      unique and leaves no row with that row's number. */
  lemma {:induction false} RemoveAtKeepsUnique(rows: seq<Row>, i: nat)
    requires i < |rows| && UniquePhones(rows)
    ensures UniquePhones(RemoveAt(rows, i)) && !HasPhone(RemoveAt(rows, i), rows[i].phoneNumber)
  {
    var rest := RemoveAt(rows, i);
    forall a, b | 0 <= a < b < |rest| ensures rest[a].phoneNumber != rest[b].phoneNumber {
      var a' := if a < i then a else a + 1;
      var b' := if b < i then b else b + 1;
      assert rest[a] == rows[a'] && rest[b] == rows[b'];
    }
    forall k | 0 <= k < |rest| ensures rest[k].phoneNumber != rows[i].phoneNumber {
      var k' := if k < i then k else k + 1;
      assert rest[k] == rows[k'];
    }
  }

  /** DeleteAsync removes exactly the first row with the number: the others
      stay, in order. When numbers are unique the number is gone afterwards,
      and uniqueness survives. */
  lemma {:induction false} DeleteRemovesFirstMatch(rows: seq<Row>, phoneNumber: Option<string>)
    requires HasPhone(rows, phoneNumber)
    ensures var i := IndexOfPhone(rows, phoneNumber).value;
      var rest := RemoveAt(rows, i);
      && rows[i].phoneNumber == phoneNumber
      && multiset(rest) + multiset{rows[i]} == multiset(rows)
      && (UniquePhones(rows) ==> UniquePhones(rest) && !HasPhone(rest, phoneNumber))
  {
    var i := IndexOfPhone(rows, phoneNumber).value;
    RemoveAtMultiset(rows, i);
    if UniquePhones(rows) {
      RemoveAtKeepsUnique(rows, i);
    }
  }

  /** Appending a row whose number is not stored keeps numbers unique. */
  lemma AppendKeepsUnique(rows: seq<Row>, row: Row)
    requires UniquePhones(rows) && !HasPhone(rows, row.phoneNumber)
    ensures UniquePhones(rows + [row]) && HasPhone(rows + [row], row.phoneNumber)
  {
    var appended := rows + [row];
    assert appended[|rows|] == row;
    forall i, j | 0 <= i < j < |appended| ensures appended[i].phoneNumber != appended[j].phoneNumber {
      if j == |rows| {
        assert appended[i] == rows[i];
      }
    }
  }

  // ---------------------------------------------------------------------
  // The repository object

  /** A repository operation as invoked, with its arguments: the trace a
      mock records and the tests verify. */
  datatype Call =
    | GetContactsCall(page: Int32, pageSize: Int32)
    | SearchContactCall(phoneNumber: Option<string>)
    | CreateContactCall(entity: Entity)
    | UpdateCall(entity: Entity)
    | DeleteCall(phoneNumber: Option<string>)
    | SaveCall
  {
    /** Create, update and delete change the table; the rest only read it. */
    predicate Mutates() {
      CreateContactCall? || UpdateCall? || DeleteCall?
    }
  }

  class ContactRepository {
    /** The contact table. */
    var rows: seq<Row>
    /** The operations invoked so far, oldest first. */
    ghost var calls: seq<Call>
    /** The collation the database orders first names by. */
    const order: Order

    constructor (rows: seq<Row>, order: Order)
      ensures this.rows == rows && this.order == order && calls == []
    {
      this.rows := rows;
      this.order := order;
      calls := [];
    }

    /** Lines 26-48, with the offset in 32-bit arithmetic as line 34 has
        it. */
    method GetContactsAsync(page: Int32, pageSize: Int32, fault: Option<Exception>)
      returns (r: Result<seq<Entity>>)
      modifies this
      ensures rows == old(rows) && calls == old(calls) + [GetContactsCall(page, pageSize)]
      ensures fault.Some? ==> r == Failure(fault.value)
      ensures fault.None? ==> r == Success(ListingAsWritten(rows, page, pageSize, order))
      ensures r.Success? ==> |r.value| <= Max0(pageSize)
    {
      calls := calls + [GetContactsCall(page, pageSize)];
      if fault.Some? {
        return Failure(fault.value);
      }
      var contacts := Window(SortByFirstName(rows, order), OffsetAsWritten(page, pageSize), pageSize);
      r := Success(Entities(contacts));
    }

    /** Lines 50-73. */
    method SearchContactAsync(phoneNumber: Option<string>, fault: Option<Exception>)
      returns (r: Result<Option<Entity>>)
      modifies this
      ensures rows == old(rows) && calls == old(calls) + [SearchContactCall(phoneNumber)]
      ensures fault.Some? ==> r == Failure(fault.value)
      ensures fault.None? ==> r == Success(Search(rows, phoneNumber))
      ensures r.Success? ==> (r.value.Some? <==> HasPhone(rows, phoneNumber))
    {
      calls := calls + [SearchContactCall(phoneNumber)];
      if fault.Some? {
        return Failure(fault.value);
      }
      var found := IndexOfPhone(rows, phoneNumber);
      if found.None? {
        return Success(None);
      }
      r := Success(Some(ToEntity(rows[found.value])));
    }

    /** Lines 75-93. No duplicate check: the row is added whatever numbers
        are already stored. */
    method CreateContactAsync(entity: Entity, clock: Clock, fault: Option<Exception>)
      returns (r: Result<()>)
      modifies this
      ensures calls == old(calls) + [CreateContactCall(entity)]
      ensures fault.Some? ==> r == Failure(fault.value) && rows == old(rows)
      ensures fault.None? ==> r == Success(()) && rows == old(rows) + [NewRow(entity, clock)]
    {
      calls := calls + [CreateContactCall(entity)];
      if fault.Some? {
        return Failure(fault.value);
      }
      var transformed := TransformToDbContact(Some(entity), clock(0), clock(1));
      var dbContact := transformed.value;
      dbContact := dbContact.(createdDateUtc := clock(2));
      rows := rows + [dbContact];
      r := Success(());
    }

    /** Lines 95-125: finds the first row with the entity's number, merges
        the entity into it field by field and stamps the update time (clock
        reading 0). */
    method UpdateAsync(entity: Entity, clock: Clock, fault: Option<Exception>)
      returns (r: Result<()>)
      modifies this
      ensures calls == old(calls) + [UpdateCall(entity)]
      ensures fault.Some? ==> r == Failure(fault.value) && rows == old(rows)
      ensures fault.None? && !HasPhone(old(rows), entity.phoneNumber) ==>
                r == Failure(ContactNotFound) && rows == old(rows)
      ensures fault.None? && HasPhone(old(rows), entity.phoneNumber) ==>
                var i := IndexOfPhone(old(rows), entity.phoneNumber).value;
                r == Success(()) && rows == old(rows)[i := Merge(old(rows)[i], entity, clock(0))]
    {
      calls := calls + [UpdateCall(entity)];
      if fault.Some? {
        return Failure(fault.value);
      }
      var found := IndexOfPhone(rows, entity.phoneNumber);
      if found.None? {
        return Failure(ContactNotFound);
      }
      var i := found.value;
      var dbContact := rows[i];
      dbContact := dbContact.(firstName := entity.firstName.OrElse(dbContact.firstName));
      dbContact := dbContact.(lastName := entity.lastName.OrElse(dbContact.lastName));
      dbContact := dbContact.(address := entity.address.OrElse(dbContact.address));
      dbContact := dbContact.(phoneNumber := entity.phoneNumber.OrElse(dbContact.phoneNumber));
      dbContact := dbContact.(updateDateUtc := clock(0));
      rows := rows[i := dbContact];
      r := Success(());
    }

    /** Lines 127-150. */
    method DeleteAsync(phoneNumber: Option<string>, fault: Option<Exception>)
      returns (r: Result<()>)
      modifies this
      ensures calls == old(calls) + [DeleteCall(phoneNumber)]
      ensures fault.Some? ==> r == Failure(fault.value) && rows == old(rows)
      ensures fault.None? && !HasPhone(old(rows), phoneNumber) ==>
                r == Failure(DeleteTargetMissing) && rows == old(rows)
      ensures fault.None? && HasPhone(old(rows), phoneNumber) ==>
                r == Success(()) && rows == RemoveAt(old(rows), IndexOfPhone(old(rows), phoneNumber).value)
    {
      calls := calls + [DeleteCall(phoneNumber)];
      if fault.Some? {
        return Failure(fault.value);
      }
      var found := IndexOfPhone(rows, phoneNumber);
      if found.None? {
        return Failure(DeleteTargetMissing);
      }
      rows := rows[..found.value] + rows[found.value + 1..];
      r := Success(());
    }

    /** Lines 152-165: every other operation saves its own changes, so a
        standalone save has nothing pending. */
    method SaveAsync(fault: Option<Exception>) returns (r: Result<()>)
      modifies this
      ensures rows == old(rows) && calls == old(calls) + [SaveCall]
      ensures r == if fault.Some? then Failure(fault.value) else Success(())
    {
      calls := calls + [SaveCall];
      if fault.Some? {
        return Failure(fault.value);
      }
      r := Success(());
    }
  }
}
