/** `OrderBy(c => c.FirstName)`. The string comparison behind it depends on
    the database collation, so it is an abstract relation on (nullable) first
    names; the results about sortedness assume only that it is a total
    preorder. The sort is stable, as LINQ to Objects' OrderBy is; a
    database may order tied names differently from one query to the next,
    and the model fixes one order. */
module FirstNameOrdering {
  import opened Common
  import opened DalModel

  /** "a sorts no later than b". */
  type Order = (Option<string>, Option<string>) -> bool

  ghost predicate TotalPreorder(le: Order) {
    && (forall a, b :: le(a, b) || le(b, a))
    && (forall a, b, c :: le(a, b) && le(b, c) ==> le(a, c))
  }

  ghost predicate SortedBy(rows: seq<Row>, le: Order) {
    forall i, j :: 0 <= i < j < |rows| ==> le(rows[i].firstName, rows[j].firstName)
  }

  /** Places `row` before the first element it sorts no later than. */
  function Insert(row: Row, sorted: seq<Row>, le: Order): (r: seq<Row>)
    ensures multiset(r) == multiset(sorted) + multiset{row}
    ensures |r| == |sorted| + 1
  {
    if sorted == [] then [row]
    else if le(row.firstName, sorted[0].firstName) then [row] + sorted
    else
      assert sorted == [sorted[0]] + sorted[1..];
      [sorted[0]] + Insert(row, sorted[1..], le)
  }

  /** The rows in first-name order; rows with equal names keep their
      relative order. */
  function SortByFirstName(rows: seq<Row>, le: Order): (r: seq<Row>)
    ensures multiset(r) == multiset(rows)
    ensures |r| == |rows|
  {
    if rows == [] then []
    else
      assert rows == [rows[0]] + rows[1..];
      Insert(rows[0], SortByFirstName(rows[1..], le), le)
  }

  lemma {:induction false} InsertSorted(row: Row, sorted: seq<Row>, le: Order)
    ensures TotalPreorder(le) && SortedBy(sorted, le) ==> SortedBy(Insert(row, sorted, le), le)
  {
    if TotalPreorder(le) && SortedBy(sorted, le) && sorted != [] {
      var r := Insert(row, sorted, le);
      if le(row.firstName, sorted[0].firstName) {
        assert r == [row] + sorted;
        forall j | 0 < j < |r| ensures le(row.firstName, r[j].firstName) {
          if j > 1 {
            assert le(sorted[0].firstName, sorted[j - 1].firstName);
          }
        }
      } else {
        var head, rest := sorted[0], sorted[1..];
        var tail := Insert(row, rest, le);
        assert r == [head] + tail;
        InsertSorted(row, rest, le);
        assert le(head.firstName, row.firstName);
        forall k | 0 <= k < |tail| ensures le(head.firstName, tail[k].firstName) {
          assert tail[k] in multiset(tail);
          if tail[k] != row {
            assert tail[k] in multiset(rest);
            var m :| 0 <= m < |rest| && rest[m] == tail[k];
            assert sorted[m + 1] == tail[k];
          }
        }
      }
    }
  }

  /** SortByFirstName does sort, under any total preorder. */
  lemma {:induction false} SortByFirstNameSorted(rows: seq<Row>, le: Order)
    ensures TotalPreorder(le) ==> SortedBy(SortByFirstName(rows, le), le)
  {
    if rows != [] {
      SortByFirstNameSorted(rows[1..], le);
      InsertSorted(rows[0], SortByFirstName(rows[1..], le), le);
    }
  }
}
