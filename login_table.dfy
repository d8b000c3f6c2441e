/** The `login` table as the scripts see it through the driver: a sequence of rows,
    and the SQL statements they issue as operations over it. */
module LoginTable {
  import opened Telemetry
  import opened Seqs

  /** The rows a `DELETE FROM login WHERE timestamp >= start AND timestamp < end` leaves behind. */
  function DeleteWindow(rows: seq<Row>, start: int, end: int): (kept: seq<Row>)
    ensures |kept| <= |rows|
    ensures forall r :: r in kept <==> r in rows && !(start <= r.timestamp < end)
  {
    Filter(rows, (r: Row) => !(start <= r.timestamp < end))
  }

  /** The rows of the half-open window `[start, end)`. */
  function InWindow(rows: seq<Row>, start: int, end: int): (inside: seq<Row>)
    ensures |inside| <= |rows|
    ensures forall r :: r in inside <==> r in rows && start <= r.timestamp < end
  {
    Filter(rows, (r: Row) => start <= r.timestamp < end)
  }

  /** The rows a `WHERE timestamp BETWEEN start AND end` selects: both ends inclusive. */
  function Between(rows: seq<Row>, start: int, end: int): (selected: seq<Row>)
    ensures |selected| <= |rows|
    ensures forall r :: r in selected <==> r in rows && start <= r.timestamp <= end
  {
    Filter(rows, (r: Row) => start <= r.timestamp <= end)
  }

  /** Ascending by timestamp. */
  predicate Sorted(rows: seq<Row>)
  {
    forall i, j :: 0 <= i < j < |rows| ==> rows[i].timestamp <= rows[j].timestamp
  }

  /** A row no later than every row of an ascending sequence can go in front of it. */
  lemma SortedCons(head: Row, rows: seq<Row>)
    requires Sorted(rows)
    requires forall y :: y in rows ==> head.timestamp <= y.timestamp
    ensures Sorted([head] + rows)
  {
    var r := [head] + rows;
    forall i, j | 0 <= i < j < |r|
      ensures r[i].timestamp <= r[j].timestamp
    {
      assert r[j] == rows[j - 1];
      if i > 0 {
        assert r[i] == rows[i - 1];
      } else {
        assert rows[j - 1] in rows;
      }
    }
  }

  /** Places `x` in front of the first row that is not earlier than it. */
  function Insert(x: Row, rows: seq<Row>): seq<Row>
  {
    if rows == [] || x.timestamp <= rows[0].timestamp then [x] + rows
    else [rows[0]] + Insert(x, rows[1..])
  }

  /** Every row of an ascending sequence is at least as late as its first row. */
  lemma FirstIsEarliest(rows: seq<Row>)
    requires Sorted(rows) && rows != []
    ensures forall y :: y in rows ==> rows[0].timestamp <= y.timestamp
  {
    forall y | y in rows
      ensures rows[0].timestamp <= y.timestamp
    {
      var k :| 0 <= k < |rows| && rows[k] == y;
    }
  }

  /** Inserting adds exactly `x` to the rows. */
  lemma {:induction false} InsertMultiset(x: Row, rows: seq<Row>)
    ensures multiset(Insert(x, rows)) == multiset(rows) + multiset{x}
  {
    if !(rows == [] || x.timestamp <= rows[0].timestamp) {
      assert rows == [rows[0]] + rows[1..];
      InsertMultiset(x, rows[1..]);
    }
  }

  /** A lower bound of `x` and of every row is a lower bound of the result. */
  lemma {:induction false} InsertLowerBound(t: int, x: Row, rows: seq<Row>)
    requires t <= x.timestamp
    requires forall y :: y in rows ==> t <= y.timestamp
    ensures forall y :: y in Insert(x, rows) ==> t <= y.timestamp
  {
    if !(rows == [] || x.timestamp <= rows[0].timestamp) {
      assert forall y :: y in rows[1..] ==> y in rows;
      InsertLowerBound(t, x, rows[1..]);
    }
  }

  /** Inserting into an ascending sequence keeps it ascending. */
  lemma {:induction false} InsertSorted(x: Row, rows: seq<Row>)
    requires Sorted(rows)
    ensures Sorted(Insert(x, rows))
  {
    if rows == [] {
      SortedCons(x, rows);
    } else if x.timestamp <= rows[0].timestamp {
      FirstIsEarliest(rows);
      SortedCons(x, rows);
    } else {
      var head := rows[0];
      var rest := rows[1..];
      assert Sorted(rest);
      FirstIsEarliest(rows);
      assert forall y :: y in rest ==> y in rows;
      InsertSorted(x, rest);
      InsertLowerBound(head.timestamp, x, rest);
      SortedCons(head, Insert(x, rest));
    }
  }

  /** `ORDER BY timestamp ASC`. SQL leaves the order of equal timestamps open, so the model
      only promises what the statement does: an ascending permutation of its input. */
  function SortByTimestamp(rows: seq<Row>): (r: seq<Row>)
    ensures Sorted(r)
    ensures multiset(r) == multiset(rows)
  {
    if rows == [] then []
    else
      assert rows == [rows[0]] + rows[1..];
      InsertSorted(rows[0], SortByTimestamp(rows[1..]));
      InsertMultiset(rows[0], SortByTimestamp(rows[1..]));
      Insert(rows[0], SortByTimestamp(rows[1..]))
  }

  /** The table. Each method is one SQL statement issued through the driver. */
  class Table {
    var rows: seq<Row>

    constructor (initial: seq<Row>)
      ensures rows == initial
    {
      rows := initial;
    }

    /** `DELETE FROM login;` */
    method DeleteAll()
      modifies this
      ensures rows == []
    {
      rows := [];
    }

    /** `DELETE FROM login WHERE timestamp >= start AND timestamp < end;` */
    method DeleteRange(start: int, end: int)
      modifies this
      ensures rows == DeleteWindow(old(rows), start, end)
    {
      rows := DeleteWindow(rows, start, end);
    }

    /** One `INSERT ... VALUES`. */
    method Insert(row: Row)
      modifies this
      ensures rows == old(rows) + [row]
    {
      rows := rows + [row];
    }

    /** `executemany` of an INSERT, or an `INSERT ... SELECT`: the rows in their order. */
    method InsertMany(batch: seq<Row>)
      modifies this
      ensures rows == old(rows) + batch
    {
      rows := rows + batch;
    }

    /** `SELECT COUNT(*) FROM login;` */
    method Count() returns (n: nat)
      ensures n == |rows|
    {
      n := |rows|;
    }
  }
}
