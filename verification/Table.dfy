/** The table as a sequence of rows, and the statements the store runs on it. */
module Table {
  import opened Types
  import opened Sequences
  import opened Codec

  ghost predicate UniqueIds(rows: seq<Row>) {
    forall i, j :: 0 <= i < j < |rows| ==> rows[i].requestId != rows[j].requestId
  }

  predicate HasId(rows: seq<Row>, id: string) {
    exists i :: 0 <= i < |rows| && rows[i].requestId == id
  }

  /** The first row with the given request ID. */
  function FindRow(rows: seq<Row>, id: string): (r: Option<Row>)
    ensures r.Some? ==> r.value in rows && r.value.requestId == id
    ensures r.None? <==> !HasId(rows, id)
  {
    if rows == [] then None
    else if rows[0].requestId == id then Some(rows[0])
    else
      assert HasId(rows[1..], id) <==> HasId(rows, id) by {
        if HasId(rows, id) {
          var i :| 0 <= i < |rows| && rows[i].requestId == id;
          assert rows[1..][i - 1] == rows[i];
        }
        if HasId(rows[1..], id) {
          var i :| 0 <= i < |rows[1..]| && rows[1..][i].requestId == id;
          assert rows[i + 1].requestId == id;
        }
      }
      FindRow(rows[1..], id)
  }

  lemma FindRowUnique(rows: seq<Row>, row: Row)
    requires UniqueIds(rows) && row in rows
    ensures FindRow(rows, row.requestId) == Some(row)
  {
  }

  /** What `Get` answers: nothing, a trace, or a failed scan. */
  function Lookup(rows: seq<Row>, id: string): Result<Option<Trace>, StoreError> {
    match FindRow(rows, id)
    case None => Ok(None)
    case Some(row) =>
      match DecodeRow(row)
      case Ok(t) => Ok(Some(t))
      case Err(e) => Err(e)
  }

  /** Reading the ID answers with a stored copy of the trace. */
  ghost predicate ReadsBack(rows: seq<Row>, t: Trace, at: Time) {
    var got := Lookup(rows, t.requestId);
    got.Ok? && got.value.Some? && IsStoredCopy(got.value.value, t, at)
  }

  // ----- statements -----

  /** `INSERT OR IGNORE` under the UNIQUE constraint on request_id. */
  function InsertOrIgnore(rows: seq<Row>, row: Row): seq<Row> {
    if HasId(rows, row.requestId) then rows else rows + [row]
  }

  function WithoutId(id: string): Row -> bool {
    (row: Row) => row.requestId != id
  }

  function WithId(id: string): Row -> bool {
    (row: Row) => row.requestId == id
  }

  /** `DELETE ... WHERE request_id = ?` */
  function RemoveId(rows: seq<Row>, id: string): seq<Row> {
    Filter(WithoutId(id), rows)
  }

  lemma {:induction false} FilterKeepsUnique(p: Row -> bool, rows: seq<Row>)
    requires UniqueIds(rows)
    ensures UniqueIds(Filter(p, rows))
  {
    if rows != [] {
      FilterKeepsUnique(p, rows[1..]);
      var rest := Filter(p, rows[1..]);
      forall row | row in rest
        ensures row.requestId != rows[0].requestId
      {
        FilterMember(p, rows[1..], row);
      }
    }
  }

  lemma InsertKeepsUnique(rows: seq<Row>, row: Row)
    requires UniqueIds(rows)
    ensures UniqueIds(InsertOrIgnore(rows, row))
  {
  }

  /** Deleting an ID removes the one row that has it, or nothing. */
  lemma RemoveIdEffect(rows: seq<Row>, id: string)
    requires UniqueIds(rows)
    ensures UniqueIds(RemoveId(rows, id))
    ensures multiset(rows) == multiset(RemoveId(rows, id)) + multiset(RemovedBy(rows, id))
    ensures |rows| == |RemoveId(rows, id)| + |RemovedBy(rows, id)|
    ensures |RemovedBy(rows, id)| == (if HasId(rows, id) then 1 else 0)
  {
    FilterKeepsUnique(WithoutId(id), rows);
    FilterSplits(WithoutId(id), WithId(id), rows);
    RemovedByIsFound(rows, id);
  }

  function RemovedBy(rows: seq<Row>, id: string): seq<Row> {
    Filter(WithId(id), rows)
  }

  lemma {:induction false} RemovedByIsFound(rows: seq<Row>, id: string)
    requires UniqueIds(rows)
    ensures RemovedBy(rows, id) == match FindRow(rows, id) case None => [] case Some(row) => [row]
  {
    if rows != [] {
      if rows[0].requestId == id {
        FilterNone(WithId(id), rows[1..]);
      } else {
        RemovedByIsFound(rows[1..], id);
        assert RemovedBy(rows, id) == [] + RemovedBy(rows[1..], id);
      }
    }
  }

  // ----- promoting -----

  /** A promoted trace can be read back, normalised; a duplicate leaves the table alone. */
  lemma PromoteThenLookup(rows: seq<Row>, t: Trace, at: Time)
    requires UniqueIds(rows)
    ensures !HasId(rows, t.requestId) ==>
              Lookup(InsertOrIgnore(rows, EncodeRow(t, at)), t.requestId) == Ok(Some(Normalise(t, at)))
              && IsStoredCopy(Normalise(t, at), t, at)
    ensures HasId(rows, t.requestId) ==> InsertOrIgnore(rows, EncodeRow(t, at)) == rows
    ensures forall id :: id != t.requestId ==> Lookup(InsertOrIgnore(rows, EncodeRow(t, at)), id) == Lookup(rows, id)
  {
    var row := EncodeRow(t, at);
    var rows' := InsertOrIgnore(rows, row);
    InsertKeepsUnique(rows, row);
    if !HasId(rows, t.requestId) {
      assert rows'[|rows|] == row;
      FindRowUnique(rows', row);
      StoreRoundTrip(t, at);
      forall id | id != t.requestId
        ensures FindRow(rows', id) == FindRow(rows, id)
      {
        FindInConcat(rows, row, id);
      }
    }
  }

  lemma {:induction false} FindInConcat(rows: seq<Row>, row: Row, id: string)
    requires row.requestId != id
    ensures FindRow(rows + [row], id) == FindRow(rows, id)
  {
    if rows == [] {
      assert (rows + [row])[1..] == [];
    } else {
      assert (rows + [row])[1..] == rows[1..] + [row];
      FindInConcat(rows[1..], row, id);
    }
  }

  /** Deleting forgets the ID and nothing else. */
  lemma {:induction false} DeleteThenLookup(rows: seq<Row>, id: string, other: string)
    ensures Lookup(RemoveId(rows, id), id) == Ok(None)
    ensures other != id ==> Lookup(RemoveId(rows, id), other) == Lookup(rows, other)
  {
    FindAfterRemove(rows, id, other);
    FindAfterRemove(rows, id, id);
  }

  lemma {:induction false} FindAfterRemove(rows: seq<Row>, id: string, other: string)
    ensures FindRow(RemoveId(rows, id), other) == if other == id then None else FindRow(rows, other)
  {
    if rows != [] {
      FindAfterRemove(rows[1..], id, other);
      var rest := RemoveId(rows[1..], id);
      if rows[0].requestId != id {
        assert RemoveId(rows, id) == [rows[0]] + rest;
        assert ([rows[0]] + rest)[1..] == rest;
      } else {
        assert RemoveId(rows, id) == [] + rest == rest;
      }
    }
  }
}
