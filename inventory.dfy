/**
 * The inventory builder: for each kept table, one projection query over the
 * table's severity columns, and one SeverityEntry per returned row holding
 * the row's severity values under their field keys.
 */
module Inventory {
  import opened Wrappers
  import opened OrderedMaps
  import opened Database
  import opened Schema

  /** A row of the projection query: Data[0] (Id), Data[1] (FullName or AggrName), Data[2..] (the columns). */
  datatype DataRow = DataRow(id: int, name: string, values: seq<int>)

  /** The contents of a SeverityEntry. */
  datatype EntryData = EntryData(tableName: string, rowNumber: int, fieldsValues: OrderedMap<string, int>, fullName: string)

  /**
   * One database row (or one unmapped field of it) with its severity values.
   * Only `changed` is updated after construction; the display-only FullName
   * lookups are not modelled, so the other fields are constant.
   */
  class SeverityEntry {
    const tableName: string
    const rowNumber: int
    const fieldsValues: OrderedMap<string, int>
    const fullName: string
    var changed: bool

    constructor (data: EntryData)
      ensures Data() == data && !changed
    {
      tableName := data.tableName;
      rowNumber := data.rowNumber;
      fieldsValues := data.fieldsValues;
      fullName := data.fullName;
      changed := false;
    }

    function Data(): EntryData
    {
      EntryData(tableName, rowNumber, fieldsValues, fullName)
    }
  }

  function Snapshot(entries: seq<SeverityEntry>): (s: seq<EntryData>)
    ensures |s| == |entries|
    ensures forall i :: 0 <= i < |entries| ==> s[i] == entries[i].Data()
  {
    seq(|entries|, i requires 0 <= i < |entries| => entries[i].Data())
  }

  lemma SnapshotAppend(a: seq<SeverityEntry>, b: seq<SeverityEntry>)
    ensures Snapshot(a + b) == Snapshot(a) + Snapshot(b)
  {
  }

  /** The column name of a field of `table`: what follows "<table>.". */
  function Column(fieldname: string, table: string): string
    requires InTable(fieldname, table)
  {
    fieldname[|table| + 1..]
  }

  /** The columns of `table`, in field order. */
  function Columns(table: string, fields: OrderedMap<string, string>): seq<string>
  {
    if fields == [] then []
    else
      var n := |fields| - 1;
      var columns := Columns(table, fields[..n]);
      if InTable(fields[n].0, table) then columns + [Column(fields[n].0, table)] else columns
  }

  /** The columns joined by commas: "a,b,c". */
  function ColumnList(columns: seq<string>): string
    requires columns != []
  {
    var n := |columns| - 1;
    if n == 0 then columns[0] else ColumnList(columns[..n]) + "," + columns[n]
  }

  /** What the column loop accumulates: every column followed by a comma. */
  function WithTrailingCommas(columns: seq<string>): string
  {
    if columns == [] then ""
    else
      var n := |columns| - 1;
      WithTrailingCommas(columns[..n]) + columns[n] + ","
  }

  /** A table has no column exactly when no field's name starts with "<table>.". */
  lemma {:induction false} NoColumnMeansNoField(table: string, fields: OrderedMap<string, string>)
    ensures Columns(table, fields) == [] <==> forall k :: 0 <= k < |fields| ==> !InTable(fields[k].0, table)
  {
    if fields != [] {
      var n := |fields| - 1;
      NoColumnMeansNoField(table, fields[..n]);
      assert forall k :: 0 <= k < n ==> fields[..n][k] == fields[k];
    }
  }

  /** The projection query for a table; None when the table has no column (Substring(0, -1) throws). */
  function ProjectionSql(table: string, aggregate: bool, fields: OrderedMap<string, string>): Option<string>
  {
    var columns := Columns(table, fields);
    if columns == [] then None
    else
      var head := if aggregate then "Select With Templates Id, AggrName, " else "Select With Templates Id, FullName, ";
      Some(head + ColumnList(columns) + " From " + table)
  }

  /** The projection query cannot be built exactly when no field's name starts with "<table>.". */
  lemma ProjectionSqlNeedsField(table: string, aggregate: bool, fields: OrderedMap<string, string>)
    ensures ProjectionSql(table, aggregate, fields).None? <==>
              forall k :: 0 <= k < |fields| ==> !InTable(fields[k].0, table)
  {
    NoColumnMeansNoField(table, fields);
  }

  /**
   * Builds the projection query as the source does: append "<column>," for
   * each field of the table, then cut the last character.
   */
  method BuildProjectionSql(tablename: string, aggregate: bool, fields: OrderedMap<string, string>) returns (sql: Option<string>)
    ensures sql == ProjectionSql(tablename, aggregate, fields)
  {
    var columns: string := "";
    var j := 0;
    while j < |fields|
      invariant 0 <= j <= |fields|
      invariant columns == WithTrailingCommas(Columns(tablename, fields[..j]))
    {
      var fieldname := fields[j].0;
      assert fields[..j + 1][..j] == fields[..j];
      if InTable(fieldname, tablename) {
        var cs := Columns(tablename, fields[..j]);
        assert (cs + [Column(fieldname, tablename)])[..|cs|] == cs;
        columns := columns + fieldname[|tablename| + 1..] + ",";
      }
      j := j + 1;
    }
    assert fields[..|fields|] == fields;
    if |columns| == 0 {
      assert Columns(tablename, fields) == [] by {
        if Columns(tablename, fields) != [] {
          TrailingCommaForm(Columns(tablename, fields));
        }
      }
      return None;
    }
    assert Columns(tablename, fields) != [];
    TrailingCommaForm(Columns(tablename, fields));
    columns := columns[..|columns| - 1];
    if aggregate {
      sql := Some("Select With Templates Id, AggrName, " + columns + " From " + tablename);
    } else {
      sql := Some("Select With Templates Id, FullName, " + columns + " From " + tablename);
    }
  }

  lemma {:induction false} TrailingCommaForm(columns: seq<string>)
    requires columns != []
    ensures WithTrailingCommas(columns) == ColumnList(columns) + ","
  {
    var n := |columns| - 1;
    if n > 0 {
      TrailingCommaForm(columns[..n]);
    }
  }

  /** Cuts a column list at its commas. */
  function SplitColumns(s: string): (parts: seq<string>)
    ensures |parts| >= 1
  {
    if s == [] then [""]
    else if s[0] == ',' then [""] + SplitColumns(s[1..])
    else
      var rest := SplitColumns(s[1..]);
      [[s[0]] + rest[0]] + rest[1..]
  }

  lemma {:induction false} SplitAtComma(x: string, y: string)
    ensures SplitColumns(x + "," + y) == SplitColumns(x) + SplitColumns(y)
  {
    if x == [] {
      assert x + "," + y == [','] + y;
      assert ([','] + y)[1..] == y;
    } else {
      assert (x + "," + y)[1..] == x[1..] + "," + y;
      SplitAtComma(x[1..], y);
    }
  }

  lemma {:induction false} SplitWithoutComma(x: string)
    requires ',' !in x
    ensures SplitColumns(x) == [x]
  {
    if x != [] {
      SplitWithoutComma(x[1..]);
      assert [x[0]] + x[1..] == x;
    }
  }

  /**
   * The projection's column list gives back exactly the table's columns,
   * in field order, when split at its commas: nothing lost, nothing extra,
   * no trailing comma.
   */
  lemma {:induction false} ColumnListRoundTrip(columns: seq<string>)
    requires columns != []
    requires forall c :: c in columns ==> ',' !in c
    ensures SplitColumns(ColumnList(columns)) == columns
  {
    var n := |columns| - 1;
    SplitWithoutComma(columns[n]);
    if n > 0 {
      ColumnListRoundTrip(columns[..n]);
      SplitAtComma(ColumnList(columns[..n]), columns[n]);
      assert columns[..n] + [columns[n]] == columns;
    }
  }

  /** The projection query for a table with columns: its header, the joined columns, " From <table>". */
  lemma ProjectionSqlShape(table: string, aggregate: bool, fields: OrderedMap<string, string>)
    requires Columns(table, fields) != []
    requires forall c :: c in Columns(table, fields) ==> ',' !in c
    ensures exists cl :: SplitColumns(cl) == Columns(table, fields) &&
              ProjectionSql(table, aggregate, fields) ==
                Some((if aggregate then "Select With Templates Id, AggrName, " else "Select With Templates Id, FullName, ") + cl + " From " + table)
  {
    ColumnListRoundTrip(Columns(table, fields));
  }

  lemma {:induction false} ColumnsPrefix(table: string, fields: OrderedMap<string, string>, j: nat)
    requires j <= |fields|
    ensures Columns(table, fields[..j]) <= Columns(table, fields)
    decreases |fields|
  {
    if j < |fields| {
      var n := |fields| - 1;
      assert fields[..n][..j] == fields[..j];
      ColumnsPrefix(table, fields[..n], j);
    } else {
      assert fields[..j] == fields;
    }
  }

  lemma {:induction false} ColumnsComeFromFields(table: string, fields: OrderedMap<string, string>, c: string)
    requires c in Columns(table, fields)
    ensures exists m :: 0 <= m < |fields| && InTable(fields[m].0, table) && c == Column(fields[m].0, table)
  {
    var n := |fields| - 1;
    if c in Columns(table, fields[..n]) {
      ColumnsComeFromFields(table, fields[..n], c);
      var m :| 0 <= m < n && InTable(fields[..n][m].0, table) && c == Column(fields[..n][m].0, table);
      assert fields[..n][m] == fields[m];
    }
  }

  lemma DistinctFieldsDistinctColumns(f1: string, f2: string, table: string)
    requires InTable(f1, table) && InTable(f2, table) && f1 != f2
    ensures Column(f1, table) != Column(f2, table)
  {
    var k := |table| + 1;
    assert f1 == f1[..k] + f1[k..];
    assert f2 == f2[..k] + f2[k..];
  }

  /** Distinct field names give distinct columns. */
  lemma {:induction false} ColumnsDistinct(table: string, fields: OrderedMap<string, string>)
    requires DistinctKeys(fields)
    ensures forall a, b :: 0 <= a < b < |Columns(table, fields)| ==> Columns(table, fields)[a] != Columns(table, fields)[b]
  {
    if fields != [] {
      var n := |fields| - 1;
      var init := fields[..n];
      ColumnsDistinct(table, init);
      if InTable(fields[n].0, table) {
        var c := Column(fields[n].0, table);
        forall m | 0 <= m < |Columns(table, init)|
          ensures Columns(table, init)[m] != c
        {
          var d := Columns(table, init)[m];
          ColumnsComeFromFields(table, init, d);
          var k :| 0 <= k < n && InTable(init[k].0, table) && d == Column(init[k].0, table);
          assert init[k].0 == fields[k].0 != fields[n].0;
          DistinctFieldsDistinctColumns(init[k].0, fields[n].0, table);
        }
      }
    }
  }

  /** The key a value is stored under: the column for FullName tables, "<AggrName>.<column>" for aggregate tables. */
  function FieldKey(aggregate: bool, instance: string, column: string): string
  {
    if aggregate then instance + "." + column else column
  }

  /** The column can be read back from a key: after "<instance>." for aggregate tables, the whole key otherwise. */
  lemma FieldKeyReadsBack(aggregate: bool, instance: string, column: string)
    ensures var k := FieldKey(aggregate, instance, column);
      && (aggregate ==> |k| > |instance| && k[..|instance| + 1] == instance + "." && k[|instance| + 1..] == column)
      && (!aggregate ==> k == column)
  {
  }

  lemma FieldKeyInjective(aggregate: bool, instance: string, c1: string, c2: string)
    requires c1 != c2
    ensures FieldKey(aggregate, instance, c1) != FieldKey(aggregate, instance, c2)
  {
    if aggregate {
      var k := |instance| + 1;
      assert (instance + "." + c1)[k..] == c1;
      assert (instance + "." + c2)[k..] == c2;
    }
  }

  /** The fields of a row: the key of each column with the value in the same position. */
  function RowFields(aggregate: bool, instance: string, columns: seq<string>, values: seq<int>): OrderedMap<string, int>
    requires |columns| <= |values|
  {
    seq(|columns|, k requires 0 <= k < |columns| => (FieldKey(aggregate, instance, columns[k]), values[k]))
  }

  /** The entry for one row; None when the row has fewer values than columns (Data[i] throws). */
  function EntryOf(table: string, aggregate: bool, columns: seq<string>, row: DataRow): Option<EntryData>
  {
    if |row.values| < |columns| then None
    else Some(EntryData(table, row.id, RowFields(aggregate, row.name, columns, row.values), if aggregate then "" else row.name))
  }

  /** Why building the inventory throws. */
  datatype InventoryError = NoColumns(table: string) | MissingColumn(table: string, row: int)

  /** The entries of a table's rows, in row order, or the first row that is short of values. */
  function RowEntries(table: string, aggregate: bool, columns: seq<string>, rows: seq<DataRow>): Result<seq<EntryData>, InventoryError>
  {
    if rows == [] then Success([])
    else
      var n := |rows| - 1;
      match RowEntries(table, aggregate, columns, rows[..n])
      case Failure(e) => Failure(e)
      case Success(entries) =>
        match EntryOf(table, aggregate, columns, rows[n])
        case None => Failure(MissingColumn(table, rows[n].id))
        case Some(entry) => Success(entries + [entry])
  }

  /** The entries of one table: its projection query's rows, nothing when the query fails, an error when it has no column. */
  function TableData(table: string, aggregate: bool, fields: OrderedMap<string, string>, answer: string -> QueryResult<DataRow>): Result<seq<EntryData>, InventoryError>
  {
    match ProjectionSql(table, aggregate, fields)
    case None => Failure(NoColumns(table))
    case Some(sql) =>
      match answer(sql)
      case Succeeded(rows) => RowEntries(table, aggregate, Columns(table, fields), rows)
      case _ => Success([])
  }

  /** The inventory of the kept tables, table by table; the first failure ends it. */
  function ColumnData(tables: OrderedMap<string, bool>, fields: OrderedMap<string, string>, answer: string -> QueryResult<DataRow>): Result<seq<EntryData>, InventoryError>
  {
    if tables == [] then Success([])
    else
      var n := |tables| - 1;
      match ColumnData(tables[..n], fields, answer)
      case Failure(e) => Failure(e)
      case Success(entries) =>
        match TableData(tables[n].0, tables[n].1, fields, answer)
        case Failure(e) => Failure(e)
        case Success(more) => Success(entries + more)
  }

  /**
   * The loop over a row's fields: the column of each field of the table,
   * keyed as FieldKey says, with the value at Data[2], Data[3], ...
   */
  method ReadRowFields(tablename: string, aggregate: bool, fields: OrderedMap<string, string>, row: DataRow)
    returns (fieldsValues: Option<OrderedMap<string, int>>)
    requires DistinctKeys(fields)
    ensures fieldsValues.None? <==> |row.values| < |Columns(tablename, fields)|
    ensures fieldsValues.Some? ==> fieldsValues.value == RowFields(aggregate, row.name, Columns(tablename, fields), row.values)
  {
    var result: OrderedMap<string, int> := [];
    var i := 0;
    var j := 0;
    ColumnsDistinct(tablename, fields);
    while j < |fields|
      invariant 0 <= j <= |fields|
      invariant i == |Columns(tablename, fields[..j])| <= |row.values|
      invariant result == RowFields(aggregate, row.name, Columns(tablename, fields[..j]), row.values)
      invariant DistinctKeys(result)
    {
      var fieldname := fields[j].0;
      var before := Columns(tablename, fields[..j]);
      assert fields[..j + 1][..j] == fields[..j];
      ColumnsPrefix(tablename, fields, j + 1);
      if InTable(fieldname, tablename) {
        var thisfieldname := fieldname[|tablename| + 1..];
        if i >= |row.values| {
          return None;
        }
        thisfieldname := FieldKey(aggregate, row.name, thisfieldname);
        assert Columns(tablename, fields[..j + 1]) == before + [Column(fieldname, tablename)];
        forall m | 0 <= m < |result|
          ensures result[m].0 != thisfieldname
        {
          assert Columns(tablename, fields)[m] == before[m];
          assert Columns(tablename, fields)[i] == Column(fieldname, tablename);
          FieldKeyInjective(aggregate, row.name, before[m], Column(fieldname, tablename));
        }
        result := Add(result, thisfieldname, row.values[i]);
        i := i + 1;
      }
      j := j + 1;
    }
    assert fields[..|fields|] == fields;
    fieldsValues := Some(result);
  }

  /** The contents of a result's entries, or its error. */
  function Contents(r: Result<seq<SeverityEntry>, InventoryError>): Result<seq<EntryData>, InventoryError>
  {
    match r
    case Success(entries) => Success(Snapshot(entries))
    case Failure(e) => Failure(e)
  }

  /** The loop over the rows a table's projection query returned: one new entry per row, in row order. */
  method ReadTableRows(tablename: string, aggregate: bool, fields: OrderedMap<string, string>, rows: seq<DataRow>)
    returns (r: Result<seq<SeverityEntry>, InventoryError>)
    requires DistinctKeys(fields)
    ensures Contents(r) == RowEntries(tablename, aggregate, Columns(tablename, fields), rows)
    ensures r.Success? ==> forall e :: e in r.value ==> fresh(e) && !e.changed
  {
    var columns := Columns(tablename, fields);
    var entries: seq<SeverityEntry> := [];
    var k := 0;
    while k < |rows|
      invariant 0 <= k <= |rows|
      invariant RowEntries(tablename, aggregate, columns, rows[..k]) == Success(Snapshot(entries))
      invariant forall e :: e in entries ==> fresh(e) && !e.changed
    {
      assert rows[..k + 1][..k] == rows[..k];
      var fieldsValues := ReadRowFields(tablename, aggregate, fields, rows[k]);
      if fieldsValues.None? {
        RowEntriesStopAtFailure(tablename, aggregate, columns, rows, k + 1);
        return Failure(MissingColumn(tablename, rows[k].id));
      }
      var entry := new SeverityEntry(EntryData(tablename, rows[k].id, fieldsValues.value, if aggregate then "" else rows[k].name));
      SnapshotAppend(entries, [entry]);
      assert Snapshot([entry]) == [entry.Data()];
      entries := entries + [entry];
      k := k + 1;
    }
    assert rows[..|rows|] == rows;
    return Success(entries);
  }

  /** The body of the loop over tables: build and run one projection query and read its rows. */
  method ReadTable(tablename: string, aggregate: bool, fields: OrderedMap<string, string>, answer: string -> QueryResult<DataRow>)
    returns (r: Result<seq<SeverityEntry>, InventoryError>)
    requires DistinctKeys(fields)
    ensures Contents(r) == TableData(tablename, aggregate, fields, answer)
    ensures r.Success? ==> forall e :: e in r.value ==> fresh(e) && !e.changed
  {
    var sql := BuildProjectionSql(tablename, aggregate, fields);
    if sql.None? {
      return Failure(NoColumns(tablename));
    }
    var result := answer(sql.value);
    if result.Succeeded? {
      r := ReadTableRows(tablename, aggregate, fields, result.rows);
    } else {
      r := Success([]);
    }
  }

  /**
   * QueryDatabaseForSeverityColumnData: for each kept table in order, build
   * and run its projection query and, when it succeeds, create one entry per
   * returned row, appended in row order.
   */
  method QueryDatabaseForSeverityColumnData(tables: OrderedMap<string, bool>, fields: OrderedMap<string, string>, answer: string -> QueryResult<DataRow>)
    returns (r: Result<seq<SeverityEntry>, InventoryError>)
    requires DistinctKeys(fields)
    ensures Contents(r) == ColumnData(tables, fields, answer)
    ensures r.Success? ==> forall e :: e in r.value ==> fresh(e) && !e.changed
  {
    var severityData: seq<SeverityEntry> := [];
    var i := 0;
    while i < |tables|
      invariant 0 <= i <= |tables|
      invariant ColumnData(tables[..i], fields, answer) == Success(Snapshot(severityData))
      invariant forall e :: e in severityData ==> fresh(e) && !e.changed
    {
      var read := ReadTable(tables[i].0, tables[i].1, fields, answer);
      if read.Failure? {
        ColumnDataFailsAt(tables, fields, answer, i);
        return read;
      }
      ColumnDataNext(tables, fields, answer, i, Snapshot(severityData), Snapshot(read.value));
      SnapshotAppend(severityData, read.value);
      severityData := severityData + read.value;
      i := i + 1;
    }
    assert tables[..|tables|] == tables;
    return Success(severityData);
  }

  /** One more successful table extends the inventory by its entries. */
  lemma ColumnDataNext(tables: OrderedMap<string, bool>, fields: OrderedMap<string, string>, answer: string -> QueryResult<DataRow>,
                       i: nat, before: seq<EntryData>, more: seq<EntryData>)
    requires i < |tables|
    requires ColumnData(tables[..i], fields, answer) == Success(before)
    requires TableData(tables[i].0, tables[i].1, fields, answer) == Success(more)
    ensures ColumnData(tables[..i + 1], fields, answer) == Success(before + more)
  {
    assert tables[..i + 1][..i] == tables[..i];
  }

  /** A table that fails after successful ones makes the whole inventory fail with its error. */
  lemma ColumnDataFailsAt(tables: OrderedMap<string, bool>, fields: OrderedMap<string, string>, answer: string -> QueryResult<DataRow>, i: nat)
    requires i < |tables| && ColumnData(tables[..i], fields, answer).Success?
    requires TableData(tables[i].0, tables[i].1, fields, answer).Failure?
    ensures ColumnData(tables, fields, answer) == TableData(tables[i].0, tables[i].1, fields, answer)
  {
    assert tables[..i + 1][..i] == tables[..i];
    ColumnDataStopsAtFailure(tables, fields, answer, i + 1);
  }

  lemma {:induction false} RowEntriesStopAtFailure(table: string, aggregate: bool, columns: seq<string>, rows: seq<DataRow>, k: nat)
    requires k <= |rows|
    requires RowEntries(table, aggregate, columns, rows[..k]).Failure?
    ensures RowEntries(table, aggregate, columns, rows) == RowEntries(table, aggregate, columns, rows[..k])
    decreases |rows|
  {
    if k < |rows| {
      var n := |rows| - 1;
      assert rows[..n][..k] == rows[..k];
      RowEntriesStopAtFailure(table, aggregate, columns, rows[..n], k);
    } else {
      assert rows[..k] == rows;
    }
  }

  lemma {:induction false} ColumnDataStopsAtFailure(tables: OrderedMap<string, bool>, fields: OrderedMap<string, string>, answer: string -> QueryResult<DataRow>, k: nat)
    requires k <= |tables|
    requires ColumnData(tables[..k], fields, answer).Failure?
    ensures ColumnData(tables, fields, answer) == ColumnData(tables[..k], fields, answer)
    decreases |tables|
  {
    if k < |tables| {
      var n := |tables| - 1;
      assert tables[..n][..k] == tables[..k];
      ColumnDataStopsAtFailure(tables[..n], fields, answer, k);
    } else {
      assert tables[..k] == tables;
    }
  }

  /**
   * A table's rows give one entry each, in row order: the table name, the
   * row id, the values of Data[2], Data[3], ... under their field keys, and
   * the FullName only for FullName tables. The table fails exactly when a row
   * is short of values.
   */
  lemma {:induction false} RowEntriesShape(table: string, aggregate: bool, columns: seq<string>, rows: seq<DataRow>)
    ensures RowEntries(table, aggregate, columns, rows).Failure? <==> exists k :: 0 <= k < |rows| && |rows[k].values| < |columns|
    ensures RowEntries(table, aggregate, columns, rows).Success? ==>
      var entries := RowEntries(table, aggregate, columns, rows).value;
      && |entries| == |rows|
      && forall k :: 0 <= k < |rows| ==>
           && |columns| <= |rows[k].values|
           && entries[k] == EntryData(table, rows[k].id, RowFields(aggregate, rows[k].name, columns, rows[k].values),
                                      if aggregate then "" else rows[k].name)
  {
    if rows != [] {
      var n := |rows| - 1;
      RowEntriesShape(table, aggregate, columns, rows[..n]);
      assert forall k :: 0 <= k < n ==> rows[..n][k] == rows[k];
    }
  }

  /** Distinct field names give each row distinct field keys: the Add calls on FieldsValues never throw. */
  lemma RowFieldsDistinct(table: string, aggregate: bool, fields: OrderedMap<string, string>, instance: string, values: seq<int>)
    requires DistinctKeys(fields)
    requires |Columns(table, fields)| <= |values|
    ensures DistinctKeys(RowFields(aggregate, instance, Columns(table, fields), values))
  {
    var columns := Columns(table, fields);
    ColumnsDistinct(table, fields);
    forall a, b | 0 <= a < b < |columns|
      ensures FieldKey(aggregate, instance, columns[a]) != FieldKey(aggregate, instance, columns[b])
    {
      FieldKeyInjective(aggregate, instance, columns[a], columns[b]);
    }
  }

  /** Every inventory entry has distinct field keys. */
  lemma {:induction false} EntryKeysDistinct(tables: OrderedMap<string, bool>, fields: OrderedMap<string, string>, answer: string -> QueryResult<DataRow>)
    requires DistinctKeys(fields)
    ensures ColumnData(tables, fields, answer).Success? ==>
              forall e :: e in ColumnData(tables, fields, answer).value ==> DistinctKeys(e.fieldsValues)
  {
    if tables != [] {
      var n := |tables| - 1;
      EntryKeysDistinct(tables[..n], fields, answer);
      var (table, aggregate) := tables[n];
      var sql := ProjectionSql(table, aggregate, fields);
      if sql.Some? && answer(sql.value).Succeeded? {
        var rows := answer(sql.value).rows;
        var columns := Columns(table, fields);
        RowEntriesShape(table, aggregate, columns, rows);
        forall k | 0 <= k < |rows| && |columns| <= |rows[k].values|
          ensures DistinctKeys(RowFields(aggregate, rows[k].name, columns, rows[k].values))
        {
          RowFieldsDistinct(table, aggregate, fields, rows[k].name, rows[k].values);
        }
      }
    }
  }

  /** An aggregate row with AggrName "Pump1" stores its Severity column under "Pump1.Severity". */
  lemma AggregateFieldKeyExample()
    ensures EntryOf("CPump", true, Columns("CPump", [("CPump.Severity", "CPump")]), DataRow(7, "Pump1", [3]))
              == Some(EntryData("CPump", 7, [("Pump1.Severity", 3)], ""))
  {
    assert InTable("CPump.Severity", "CPump");
    assert Column("CPump.Severity", "CPump") == "Severity";
    assert Columns("CPump", [("CPump.Severity", "CPump")]) == ["Severity"];
    assert FieldKey(true, "Pump1", "Severity") == "Pump1.Severity";
    var fv := RowFields(true, "Pump1", ["Severity"], [3]);
    assert |fv| == 1 && fv[0] == ("Pump1.Severity", 3);
    assert fv == [("Pump1.Severity", 3)];
  }

  lemma {:induction false} ColumnsNonEmpty(table: string, fields: OrderedMap<string, string>, f: string, owner: string)
    requires (f, owner) in fields && InTable(f, table)
    ensures Columns(table, fields) != []
  {
    var n := |fields| - 1;
    if fields[n] != (f, owner) {
      assert fields == fields[..n] + [fields[n]];
      ColumnsNonEmpty(table, fields[..n], f, owner);
      ColumnsPrefix(table, fields, n);
    }
  }

  /**
   * When every field's name starts with "<its owner>.", every kept table has
   * at least one kept column, so its projection query can be built.
   */
  lemma ConsistentOwnersGiveColumns(tables: OrderedMap<string, bool>, fields: OrderedMap<string, string>, rowCount: string -> int)
    requires forall i :: 0 <= i < |fields| ==> InTable(fields[i].0, fields[i].1)
    ensures forall t :: t in Keys(KeptTables(tables, fields, rowCount)) ==>
              Columns(t, KeptFields(fields, Keys(KeptTables(tables, fields, rowCount)))) != []
  {
    var kept := KeptTables(tables, fields, rowCount);
    var names := Keys(kept);
    forall t | t in names
      ensures Columns(t, KeptFields(fields, names)) != []
    {
      var k :| 0 <= k < |kept| && kept[k].0 == t;
      KeptTablesMembership(tables, fields, rowCount, t, kept[k].1);
      var i :| 0 <= i < |fields| && Values(fields)[i] == t;
      var (f, owner) := fields[i];
      assert InSomeTable(f, names);
      KeptFieldsMembership(fields, names, f, owner);
      ColumnsNonEmpty(t, KeptFields(fields, names), f, owner);
    }
  }

  /** With a column for every table, building the inventory can only fail on a short row. */
  lemma {:induction false} ColumnsEverywhereMeansNoColumnError(tables: OrderedMap<string, bool>, fields: OrderedMap<string, string>, answer: string -> QueryResult<DataRow>)
    requires forall t :: t in Keys(tables) ==> Columns(t, fields) != []
    ensures ColumnData(tables, fields, answer).Failure? ==> ColumnData(tables, fields, answer).error.MissingColumn?
  {
    if tables != [] {
      var n := |tables| - 1;
      assert forall t :: t in Keys(tables[..n]) ==> t in Keys(tables);
      ColumnsEverywhereMeansNoColumnError(tables[..n], fields, answer);
      assert tables[n].0 in Keys(tables);
      var result := answer(ProjectionSql(tables[n].0, tables[n].1, fields).value);
      if result.Succeeded? {
        RowEntriesErrorKind(tables[n].0, tables[n].1, Columns(tables[n].0, fields), result.rows);
      }
    }
  }

  lemma {:induction false} RowEntriesErrorKind(table: string, aggregate: bool, columns: seq<string>, rows: seq<DataRow>)
    ensures RowEntries(table, aggregate, columns, rows).Failure? ==> RowEntries(table, aggregate, columns, rows).error.MissingColumn?
  {
    if rows != [] {
      RowEntriesErrorKind(table, aggregate, columns, rows[..|rows| - 1]);
    }
  }

  /** A row count under which every table holds rows. */
  function OneRow(table: string): int
  {
    1
  }

  lemma MismatchedOwnerKeepsTable()
    ensures KeptTables([("A", false)], [("B.Severity", "A")], OneRow) == [("A", false)]
  {
    assert Values([("B.Severity", "A")]) == ["A"];
    assert [("A", false)][..0] == [];
  }

  lemma MismatchedOwnerDropsField()
    ensures KeptFields([("B.Severity", "A")], Keys([("A", false)])) == []
  {
    assert Keys([("A", false)]) == ["A"];
    assert ("A" + ".")[0] != "B.Severity"[0];
    assert [("B.Severity", "A")][..0] == [];
  }

  /**
   * Tables are kept by owner but fields by name prefix: table "A", owned by
   * a field named "B.Severity", is kept without any column and the
   * inventory stops with NoColumns.
   */
  lemma MismatchedOwnerStopsInventory(answer: string -> QueryResult<DataRow>)
    ensures var tables := KeptTables([("A", false)], [("B.Severity", "A")], OneRow);
            && tables == [("A", false)]
            && ColumnData(tables, KeptFields([("B.Severity", "A")], Keys(tables)), answer) == Failure(NoColumns("A"))
  {
    MismatchedOwnerKeepsTable();
    MismatchedOwnerDropsField();
    assert [("A", false)][..0] == [];
  }
}
