/**
 * The per-device table of the telemetry export: each window's records are appended
 * (`pd.concat`, only when the window produced records), and the finished table is
 * sorted by its "ts" column.
 */
module Table {
  import opened Merge
  import opened WindowPlanner

  /** The most points one time-series request returns. */
  const PointsLimit: nat := 1000

  /** The remote time-series query for one device: exported keys, window start and end, point limit, to response. */
  type Fetch = (seq<string>, int, int, nat) -> Response

  /** The records in insertion order: `list(records.values())`. */
  function RowsOf(records: map<int, Row>, order: seq<int>): (rows: seq<Row>)
    requires forall i :: 0 <= i < |order| ==> order[i] in records
    ensures |rows| == |order|
    ensures forall i :: 0 <= i < |rows| ==> rows[i] == records[order[i]]
  {
    seq(|order|, i requires 0 <= i < |order| => records[order[i]])
  }

  /** The rows one response contributes: its merged records, in insertion order. */
  function BatchRows(res: Response): seq<Row>
  {
    var es := Events(res);
    RowsOf(Merged(es), TsOrder(es))
  }

  /** The rows of the successive windows, concatenated in window order. */
  function Accumulated(ws: seq<Window>, fetch: Fetch, keys: seq<string>): seq<Row>
  {
    if ws == [] then [] else BatchRows(fetch(keys, ws[0].ts, ws[0].te, PointsLimit)) + Accumulated(ws[1..], fetch, keys)
  }

  /** Sum over the windows of the number of distinct sample timestamps in each window's response. */
  function RowCount(ws: seq<Window>, fetch: Fetch, keys: seq<string>): nat
  {
    if ws == [] then 0 else |SampleTimes(fetch(keys, ws[0].ts, ws[0].te, PointsLimit))| + RowCount(ws[1..], fetch, keys)
  }

  /** A window contributes one row per distinct timestamp in its response, and none when the response has no samples. */
  lemma {:induction false} BatchRowsSize(res: Response)
    ensures |BatchRows(res)| == |SampleTimes(res)|
    ensures SampleTimes(res) == {} ==> BatchRows(res) == []
  {
    MergedOneRecordPerTimestamp(res);
    var es := Events(res);
    assert |Merged(es)| == |Merged(es).Keys|;
  }

  /** The table has as many rows as the windows' responses have distinct timestamps, summed over the windows. */
  lemma {:induction false} AccumulatedSize(ws: seq<Window>, fetch: Fetch, keys: seq<string>)
    ensures |Accumulated(ws, fetch, keys)| == RowCount(ws, fetch, keys)
  {
    if ws != [] {
      BatchRowsSize(fetch(keys, ws[0].ts, ws[0].te, PointsLimit));
      AccumulatedSize(ws[1..], fetch, keys);
    }
  }

  /** Batches are concatenated, not merged: the rows of two runs of windows are the rows of each, one after the other. */
  lemma {:induction false} AccumulatedConcat(ws1: seq<Window>, ws2: seq<Window>, fetch: Fetch, keys: seq<string>)
    ensures Accumulated(ws1 + ws2, fetch, keys) == Accumulated(ws1, fetch, keys) + Accumulated(ws2, fetch, keys)
  {
    if ws1 == [] {
      assert ws1 + ws2 == ws2;
    } else {
      assert (ws1 + ws2)[1..] == ws1[1..] + ws2;
      AccumulatedConcat(ws1[1..], ws2, fetch, keys);
    }
  }

  /** A row whose "ts" cell holds an integer, which the sort can compare. */
  predicate Timed(row: Row) {
    TsColumn in row && row[TsColumn].Int?
  }

  predicate AllTimed(rows: seq<Row>) {
    forall i :: 0 <= i < |rows| ==> Timed(rows[i])
  }

  function TsOf(row: Row): int
    requires Timed(row)
  {
    row[TsColumn].i
  }

  /** Ascending by "ts". */
  predicate SortedByTs(rows: seq<Row>)
    requires AllTimed(rows)
  {
    forall i, j :: 0 <= i < j < |rows| ==> TsOf(rows[i]) <= TsOf(rows[j])
  }

  /** Every record the merge builds from a response without a "ts" key can be sorted. */
  lemma {:induction false} BatchRowsTimed(res: Response)
    requires forall i :: 0 <= i < |res| ==> res[i].0 != TsColumn
    ensures AllTimed(BatchRows(res))
  {
    var es := Events(res);
    forall i | 0 <= i < |BatchRows(res)| ensures Timed(BatchRows(res)[i]) {
      MergedTsField(res, TsOrder(es)[i]);
    }
  }

  /** Inserts `row` into the sorted `rows` after every row with the same or an earlier time. */
  function Insert(row: Row, rows: seq<Row>): (r: seq<Row>)
    requires Timed(row) && AllTimed(rows) && SortedByTs(rows)
    ensures AllTimed(r) && SortedByTs(r)
    ensures multiset(r) == multiset(rows) + multiset{row}
    ensures |r| == |rows| + 1 && (r[0] == row || (rows != [] && r[0] == rows[0]))
  {
    if rows == [] then [row]
    else if TsOf(row) < TsOf(rows[0]) then [row] + rows
    else
      var rest := Insert(row, rows[1..]);
      assert rows == [rows[0]] + rows[1..];
      assert TsOf(rows[0]) <= TsOf(rest[0]);
      [rows[0]] + rest
  }

  /**
   * `df.sort_values("ts")`: the same rows, ascending by "ts"; each row is inserted after the
   * rows before it, so rows with equal "ts" keep their table order.
   */
  function SortByTs(rows: seq<Row>): (r: seq<Row>)
    requires AllTimed(rows)
    ensures AllTimed(r) && SortedByTs(r)
    ensures multiset(r) == multiset(rows)
  {
    if rows == [] then []
    else
      var n := |rows| - 1;
      assert rows == rows[..n] + [rows[n]];
      Insert(rows[n], SortByTs(rows[..n]))
  }

  /** The row's "ts" cell is the integer `t`. */
  predicate AtTs(row: Row, t: int) {
    Timed(row) && row[TsColumn].i == t
  }

  /** The rows whose "ts" is `t`, in their order. */
  function WithTs(rows: seq<Row>, t: int): seq<Row>
  {
    if rows == [] then []
    else (if AtTs(rows[0], t) then [rows[0]] else []) + WithTs(rows[1..], t)
  }

  lemma {:induction false} WithTsConcat(a: seq<Row>, b: seq<Row>, t: int)
    ensures WithTs(a + b, t) == WithTs(a, t) + WithTs(b, t)
  {
    if a == [] {
      assert a + b == b;
    } else {
      var ab := a + b;
      var head := if AtTs(a[0], t) then [a[0]] else [];
      assert ab[0] == a[0] && ab[1..] == a[1..] + b;
      WithTsConcat(a[1..], b, t);
      assert WithTs(ab, t) == head + (WithTs(a[1..], t) + WithTs(b, t));
      assert WithTs(a, t) == head + WithTs(a[1..], t);
    }
  }

  /** A sorted table whose first row is later than `t` has no row at `t`. */
  lemma {:induction false} WithTsAfter(rows: seq<Row>, t: int)
    requires AllTimed(rows) && SortedByTs(rows)
    requires rows != [] ==> t < TsOf(rows[0])
    ensures WithTs(rows, t) == []
  {
    if |rows| > 1 {
      WithTsAfter(rows[1..], t);
    }
  }

  /** Inserting a row adds it after the rows of its own time and changes no other time. */
  lemma {:induction false} InsertWithTs(row: Row, rows: seq<Row>, t: int)
    requires Timed(row) && AllTimed(rows) && SortedByTs(rows)
    ensures WithTs(Insert(row, rows), t) == WithTs(rows, t) + (if AtTs(row, t) then [row] else [])
  {
    if rows == [] || TsOf(row) < TsOf(rows[0]) {
      assert Insert(row, rows) == [row] + rows;
      PrependWithTs(row, rows, t);
    } else {
      var tail := rows[1..];
      assert AllTimed(tail) && SortedByTs(tail);
      assert Insert(row, rows) == [rows[0]] + Insert(row, tail);
      InsertWithTs(row, tail, t);
      InsertLaterWithTs(row, rows, t);
    }
  }

  /** A row placed before a sorted table of later rows comes after the table's rows of its time, of which there are none. */
  lemma {:induction false} PrependWithTs(row: Row, rows: seq<Row>, t: int)
    requires Timed(row) && AllTimed(rows) && SortedByTs(rows)
    requires rows == [] || TsOf(row) < TsOf(rows[0])
    ensures WithTs([row] + rows, t) == WithTs(rows, t) + (if AtTs(row, t) then [row] else [])
  {
    var r := [row] + rows;
    assert r[0] == row && r[1..] == rows;
    if AtTs(row, t) {
      WithTsAfter(rows, t);
    }
  }

  /** The step of `InsertWithTs` past a first row that is not later than the inserted one. */
  lemma {:induction false} InsertLaterWithTs(row: Row, rows: seq<Row>, t: int)
    requires Timed(row) && AllTimed(rows) && SortedByTs(rows) && rows != []
    requires Insert(row, rows) == [rows[0]] + Insert(row, rows[1..])
    requires WithTs(Insert(row, rows[1..]), t) == WithTs(rows[1..], t) + (if AtTs(row, t) then [row] else [])
    ensures WithTs(Insert(row, rows), t) == WithTs(rows, t) + (if AtTs(row, t) then [row] else [])
  {
    var r := Insert(row, rows);
    var head := if AtTs(rows[0], t) then [rows[0]] else [];
    var own := if AtTs(row, t) then [row] else [];
    assert r[0] == rows[0] && r[1..] == Insert(row, rows[1..]);
    assert WithTs(r, t) == head + (WithTs(rows[1..], t) + own);
    assert WithTs(rows, t) == head + WithTs(rows[1..], t);
  }

  /** The sort is stable: for each time, the rows of that time keep their table order. */
  lemma {:induction false} SortByTsStable(rows: seq<Row>, t: int)
    requires AllTimed(rows)
    ensures WithTs(SortByTs(rows), t) == WithTs(rows, t)
  {
    if rows != [] {
      var n := |rows| - 1;
      assert rows == rows[..n] + [rows[n]];
      SortByTsStable(rows[..n], t);
      InsertWithTs(rows[n], SortByTs(rows[..n]), t);
      WithTsConcat(rows[..n], [rows[n]], t);
      assert WithTs([rows[n]], t) == (if AtTs(rows[n], t) then [rows[n]] else []) by {
        assert [rows[n]][1..] == [];
      }
    }
  }
}
