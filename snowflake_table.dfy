/** The table record that flows from the warehouse to the catalog, and the
    mapping of one `SHOW TABLES` result row onto it. */
module SnowflakeTables {
  import opened Wrappers
  import opened PyText

  /** A non-null value in a cell of a warehouse result row. Timestamps are
      represented by their `str()` text. */
  datatype Value = Int(n: int) | Text(s: string)

  /** A result cell; `None` is SQL NULL. */
  type Cell = Option<Value>

  type Row = seq<Cell>

  /** One warehouse table with its retention setting. */
  datatype SnowflakeTable = SnowflakeTable(
    database: string,
    schema: string,
    table: string,
    retentionDays: int,
    createdOn: Option<string>,
    rowCount: Option<int>,
    bytes: Option<int>)

  // The positions the row mapping reads.
  const CreatedOnColumn := 0
  const NameColumn := 1
  const DatabaseColumn := 2
  const SchemaColumn := 3
  const RetentionColumn := 5
  const RowsColumn := 6
  const BytesColumn := 7

  /** Python truthiness of a cell. */
  predicate Truthy(c: Cell)
  {
    match c
    case None => false
    case Some(Int(n)) => n != 0
    case Some(Text(s)) => s != ""
  }

  /** `str(c)`, which is also what an f-string shows. The source keeps the raw
      cells for the names; every later use of them is inside an f-string, so
      keeping their text instead changes nothing downstream. */
  function Str(c: Cell): string
  {
    match c
    case None => "None"
    case Some(Int(n)) => DecimalString(n)
    case Some(Text(s)) => s
  }

  /** `int(v)`; `None` stands for `ValueError`. */
  function PyInt(v: Value): Option<int>
  {
    match v
    case Int(n) => Some(n)
    case Text(s) => ParseInt(s)
  }

  /** `int(c) if c is not None else None`; the outer `None` stands for
      `ValueError`. */
  function IntOrNone(c: Cell): Option<Option<int>>
  {
    match c
    case None => Some(None)
    case Some(v) =>
      match PyInt(v)
      case None => None
      case Some(n) => Some(Some(n))
  }

  /** `int(c) if c is not None else 1`; `None` stands for `ValueError`. */
  function RetentionOrDefault(c: Cell): Option<int>
  {
    match c
    case None => Some(1)
    case Some(v) => PyInt(v)
  }

  /** What the loop body does with one row: it builds a record, or catches
      `IndexError`/`ValueError` and skips the row, or the handler itself
      fails on `row[1]` and the exception escapes. */
  datatype RowOutcome = Parsed(table: SnowflakeTable) | Skipped | Escaped

  /** The mapping of one `SHOW TABLES` row onto a record. */
  function MapRow(row: Row): (o: RowOutcome)
    // the except-handler reads row[1], so only a row too short for it escapes
    ensures o.Escaped? <==> |row| <= NameColumn
    ensures o.Parsed? <==>
              |row| > BytesColumn
              && RetentionOrDefault(row[RetentionColumn]).Some?
              && IntOrNone(row[RowsColumn]).Some?
              && IntOrNone(row[BytesColumn]).Some?
    ensures o.Parsed? ==>
              && o.table.database == Str(row[DatabaseColumn])
              && o.table.schema == Str(row[SchemaColumn])
              && o.table.table == Str(row[NameColumn])
    // a NULL retention defaults to one day; any other value is int()-converted
    ensures o.Parsed? ==>
              o.table.retentionDays ==
                (if row[RetentionColumn].None? then 1 else PyInt(row[RetentionColumn].value).value)
    ensures o.Parsed? ==>
              && (o.table.rowCount.None? <==> row[RowsColumn].None?)
              && (o.table.rowCount.Some? ==> Some(o.table.rowCount.value) == PyInt(row[RowsColumn].value))
              && (o.table.bytes.None? <==> row[BytesColumn].None?)
              && (o.table.bytes.Some? ==> Some(o.table.bytes.value) == PyInt(row[BytesColumn].value))
    // created_on is kept exactly when the cell is truthy, and is then non-empty
    ensures o.Parsed? ==>
              && (o.table.createdOn.None? <==> !Truthy(row[CreatedOnColumn]))
              && (o.table.createdOn.Some? ==> o.table.createdOn.value == Str(row[CreatedOnColumn]) != "")
  {
    if |row| <= BytesColumn then
      if |row| <= NameColumn then Escaped else Skipped
    else
      var retention := RetentionOrDefault(row[RetentionColumn]);
      var rows := IntOrNone(row[RowsColumn]);
      var bytes := IntOrNone(row[BytesColumn]);
      if retention.None? || rows.None? || bytes.None? then Skipped
      else
        var createdOn := if Truthy(row[CreatedOnColumn]) then Some(Str(row[CreatedOnColumn])) else None;
        Parsed(SnowflakeTable(
          Str(row[DatabaseColumn]), Str(row[SchemaColumn]), Str(row[NameColumn]),
          retention.value, createdOn, rows.value, bytes.value))
  }

  /** The record list built from all rows of one `SHOW TABLES` result, in row
      order; `Aborted` once a row's exception escapes. */
  function MapRows(rows: seq<Row>): Fallible<seq<SnowflakeTable>>
    decreases |rows|
  {
    if rows == [] then Completed([])
    else
      match MapRows(rows[..|rows| - 1])
      case Aborted => Aborted
      case Completed(tables) =>
        match MapRow(rows[|rows| - 1])
        case Escaped => Aborted
        case Skipped => Completed(tables)
        case Parsed(t) => Completed(tables + [t])
  }

  /** The number of rows that map to a record. */
  function ParsedCount(rows: seq<Row>): nat
    decreases |rows|
  {
    if rows == [] then 0
    else ParsedCount(rows[..|rows| - 1]) + (if MapRow(rows[|rows| - 1]).Parsed? then 1 else 0)
  }

  /** Rows are handled independently: the result for `a + b` is the result
      for `a` followed by the result for `b`, so a skipped row never affects
      the rows after it. */
  lemma {:induction false} MapRowsAppend(a: seq<Row>, b: seq<Row>)
    ensures MapRows(a + b) == Concat(MapRows(a), MapRows(b))
    decreases |b|
  {
    if b == [] {
      assert a + b == a;
      if MapRows(a).Completed? {
        assert MapRows(a).value + [] == MapRows(a).value;
      }
    } else {
      var b' := b[..|b| - 1];
      MapRowsAppend(a, b');
      assert (a + b)[..|a + b| - 1] == a + b';
      assert (a + b)[|a + b| - 1] == b[|b| - 1];
      var last := MapRow(b[|b| - 1]);
      if MapRows(a).Completed? && MapRows(b').Completed? && last.Parsed? {
        var x, y := MapRows(a).value, MapRows(b').value;
        assert x + y + [last.table] == x + (y + [last.table]);
      }
    }
  }

  /** The rows of a result abort the listing exactly when one of them is too
      short for the error handler's `row[1]`. */
  lemma {:induction false} MapRowsAbortedIff(rows: seq<Row>)
    ensures MapRows(rows).Aborted? <==> exists i :: 0 <= i < |rows| && |rows[i]| <= NameColumn
    decreases |rows|
  {
    if rows != [] {
      var init := rows[..|rows| - 1];
      MapRowsAbortedIff(init);
      if exists i :: 0 <= i < |init| && |init[i]| <= NameColumn {
        var i :| 0 <= i < |init| && |init[i]| <= NameColumn;
        assert rows[i] == init[i];
      }
      if exists i :: 0 <= i < |rows| && |rows[i]| <= NameColumn {
        var i :| 0 <= i < |rows| && |rows[i]| <= NameColumn;
        if i < |init| {
          assert init[i] == rows[i];
        }
      }
    }
  }

  /** A completed listing holds one record per row that parses: never more
      records than rows, and each record is the mapping of one of them. */
  lemma {:induction false} MapRowsCompleted(rows: seq<Row>)
    requires MapRows(rows).Completed?
    ensures |MapRows(rows).value| == ParsedCount(rows) <= |rows|
    ensures forall t :: t in MapRows(rows).value ==>
              exists i :: 0 <= i < |rows| && MapRow(rows[i]) == Parsed(t)
    decreases |rows|
  {
    if rows != [] {
      var init := rows[..|rows| - 1];
      MapRowsCompleted(init);
      forall t | t in MapRows(rows).value
        ensures exists i :: 0 <= i < |rows| && MapRow(rows[i]) == Parsed(t)
      {
        if t in MapRows(init).value {
          var i :| 0 <= i < |init| && MapRow(init[i]) == Parsed(t);
          assert rows[i] == init[i];
        } else {
          assert MapRow(rows[|rows| - 1]) == Parsed(t);
        }
      }
    }
  }

  /** Two rows of the same length that agree on every cell up to the size
      column. */
  ghost predicate AgreeUpToBytes(a: Row, b: Row)
  {
    |a| == |b| && forall j :: 0 <= j < |a| && j <= BytesColumn ==> a[j] == b[j]
  }

  /** The mapping reads no cell past the size column: changing any later cell,
      such as position 10, where the position list beside the mapping puts
      `retention_time`, leaves the outcome as it was. */
  lemma CellsPastBytesUnread(row: Row, k: nat, v: Cell)
    requires BytesColumn < k < |row|
    ensures MapRow(row[k := v]) == MapRow(row)
  {
    assert AgreeUpToBytes(row[k := v], row);
  }

  /** So two results whose rows agree up to the size column give the same
      records, or both abort. */
  lemma {:induction false} MapRowsReadUpToBytes(rows: seq<Row>, others: seq<Row>)
    requires |rows| == |others|
    requires forall i :: 0 <= i < |rows| ==> AgreeUpToBytes(rows[i], others[i])
    ensures MapRows(rows) == MapRows(others)
    decreases |rows|
  {
    if rows != [] {
      var n := |rows| - 1;
      MapRowsReadUpToBytes(rows[..n], others[..n]);
      assert AgreeUpToBytes(rows[n], others[n]);
    }
  }

  /** A full-length row whose retention cell holds text that `int()` rejects,
      such as a table comment in the layout of that position list, is
      skipped, whatever its other cells hold. */
  lemma NonNumericRetentionSkipped(row: Row, s: string)
    requires |row| > BytesColumn
    requires row[RetentionColumn] == Some(Text(s)) && ParseInt(s).None?
    ensures MapRow(row) == Skipped
  {
    assert RetentionOrDefault(row[RetentionColumn]).None?;
  }
}
