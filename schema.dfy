/**
 * Schema discovery and trimming: the severity-bearing tables (name ->
 * aggregate flag) and severity fields ("table.field" -> owner table) read
 * from dbfielddef, then cut down to tables that own a field and hold rows,
 * and to fields whose name lies in a kept table.
 */
module Schema {
  import opened OrderedMaps
  import opened Database

  /** The tables of "select distinct Table, Name ...": aggregate when the identity column is AggrName. */
  function LoadedTables(result: QueryResult<(string, string)>): OrderedMap<string, bool>
  {
    if result.Succeeded? then
      seq(|result.rows|, i requires 0 <= i < |result.rows| => (result.rows[i].0, result.rows[i].1 == "AggrName"))
    else []
  }

  /** QueryDatabaseForSeverityTables: one Add per row, in row order. */
  method QueryDatabaseForSeverityTables(result: QueryResult<(string, string)>) returns (tables: OrderedMap<string, bool>)
    requires result.Succeeded? ==> DistinctKeys(result.rows)
    ensures tables == LoadedTables(result)
    ensures DistinctKeys(tables)
  {
    tables := [];
    if result.Succeeded? {
      var rows := result.rows;
      var i := 0;
      while i < |rows|
        invariant 0 <= i <= |rows|
        invariant tables == LoadedTables(Succeeded(rows[..i]))
      {
        assert forall j :: 0 <= j < i ==> Keys(tables)[j] == rows[j].0;
        tables := Add(tables, rows[i].0, rows[i].1 == "AggrName");
        i := i + 1;
      }
      assert rows[..|rows|] == rows;
    }
  }

  /** The fields of the dbfielddef query: "table.field" -> owner table, in row order. */
  function LoadedFields(result: QueryResult<(string, string)>): OrderedMap<string, string>
  {
    if result.Succeeded? then result.rows else []
  }

  /** QueryDatabaseForSeverityFields: one Add per row, in row order. */
  method QueryDatabaseForSeverityFields(result: QueryResult<(string, string)>) returns (fields: OrderedMap<string, string>)
    requires result.Succeeded? ==> DistinctKeys(result.rows)
    ensures fields == LoadedFields(result)
    ensures DistinctKeys(fields)
  {
    fields := [];
    if result.Succeeded? {
      var rows := result.rows;
      var i := 0;
      while i < |rows|
        invariant 0 <= i <= |rows|
        invariant fields == rows[..i]
      {
        assert forall j :: 0 <= j < i ==> Keys(fields)[j] == rows[j].0;
        fields := Add(fields, rows[i].0, rows[i].1);
        i := i + 1;
      }
      assert rows[..|rows|] == rows;
    }
  }

  /** Some discovered field names `table` as its owner. */
  predicate OwnsField(fields: OrderedMap<string, string>, table: string)
  {
    table in Values(fields)
  }

  /** Tables kept by the trimming loop, in discovery order. */
  function KeptTables(tables: OrderedMap<string, bool>, fields: OrderedMap<string, string>, rowCount: string -> int): OrderedMap<string, bool>
  {
    if tables == [] then []
    else
      var n := |tables| - 1;
      var kept := KeptTables(tables[..n], fields, rowCount);
      if OwnsField(fields, tables[n].0) && rowCount(tables[n].0) != 0 then kept + [tables[n]] else kept
  }

  /** The tables whose rows the trimming loop counts, in the order it counts them. */
  function ProbedTables(tables: OrderedMap<string, bool>, fields: OrderedMap<string, string>): seq<string>
  {
    if tables == [] then []
    else
      var n := |tables| - 1;
      var probed := ProbedTables(tables[..n], fields);
      if OwnsField(fields, tables[n].0) then probed + [tables[n].0] else probed
  }

  /**
   * The table trimming loop: for each table, the first field that names it
   * as owner triggers one row count and ends the search (`break`); the table
   * is kept with its aggregate flag when the count is nonzero. `probes`
   * records the counts made.
   */
  method TrimTables(severityTables: OrderedMap<string, bool>, severityFields: OrderedMap<string, string>, rowCount: string -> int)
    returns (trimmedTables: OrderedMap<string, bool>, ghost probes: seq<string>)
    requires DistinctKeys(severityTables)
    ensures trimmedTables == KeptTables(severityTables, severityFields, rowCount)
    ensures probes == ProbedTables(severityTables, severityFields)
    ensures DistinctKeys(trimmedTables)
  {
    trimmedTables, probes := [], [];
    var i := 0;
    while i < |severityTables|
      invariant 0 <= i <= |severityTables|
      invariant trimmedTables == KeptTables(severityTables[..i], severityFields, rowCount)
      invariant probes == ProbedTables(severityTables[..i], severityFields)
      invariant DistinctKeys(trimmedTables)
    {
      var tablename := severityTables[i].0;
      assert severityTables[..i + 1][..i] == severityTables[..i];
      KeptTablesAreDiscovered(severityTables[..i], severityFields, rowCount);
      forall k | 0 <= k < |trimmedTables|
        ensures trimmedTables[k].0 != tablename
      {
        assert trimmedTables[k] in severityTables[..i];
        var m :| 0 <= m < i && severityTables[m] == trimmedTables[k];
      }
      var j := 0;
      while j < |severityFields|
        invariant 0 <= j <= |severityFields|
        invariant tablename !in Values(severityFields)[..j]
        invariant trimmedTables == KeptTables(severityTables[..i], severityFields, rowCount)
        invariant probes == ProbedTables(severityTables[..i], severityFields)
      {
        if severityFields[j].1 == tablename {
          probes := probes + [tablename];
          if rowCount(tablename) != 0 {
            trimmedTables := Add(trimmedTables, tablename, severityTables[i].1);
          }
          break;
        }
        j := j + 1;
      }
      assert Values(severityFields)[..|severityFields|] == Values(severityFields);
      i := i + 1;
    }
    assert severityTables[..|severityTables|] == severityTables;
  }

  lemma {:induction false} KeptTablesAreDiscovered(tables: OrderedMap<string, bool>, fields: OrderedMap<string, string>, rowCount: string -> int)
    ensures forall e :: e in KeptTables(tables, fields, rowCount) ==> e in tables
  {
    if tables != [] {
      var n := |tables| - 1;
      assert tables == tables[..n] + [tables[n]];
      KeptTablesAreDiscovered(tables[..n], fields, rowCount);
    }
  }

  /**
   * A table is kept exactly when it was discovered, some field names it as
   * owner and its row count is nonzero; it keeps its aggregate flag.
   */
  lemma {:induction false} KeptTablesMembership(tables: OrderedMap<string, bool>, fields: OrderedMap<string, string>, rowCount: string -> int, t: string, aggregate: bool)
    ensures (t, aggregate) in KeptTables(tables, fields, rowCount) <==>
              (t, aggregate) in tables && OwnsField(fields, t) && rowCount(t) != 0
  {
    if tables != [] {
      var n := |tables| - 1;
      assert tables == tables[..n] + [tables[n]];
      KeptTablesMembership(tables[..n], fields, rowCount, t, aggregate);
    }
  }

  /**
   * Each discovered table has its rows counted at most once, and exactly the
   * tables that own a field are counted.
   */
  lemma {:induction false} EachTableProbedAtMostOnce(tables: OrderedMap<string, bool>, fields: OrderedMap<string, string>)
    requires DistinctKeys(tables)
    ensures forall i, j :: 0 <= i < j < |ProbedTables(tables, fields)| ==> ProbedTables(tables, fields)[i] != ProbedTables(tables, fields)[j]
    ensures forall t :: t in ProbedTables(tables, fields) <==> t in Keys(tables) && OwnsField(fields, t)
  {
    if tables != [] {
      var n := |tables| - 1;
      assert tables == tables[..n] + [tables[n]];
      assert Keys(tables) == Keys(tables[..n]) + [tables[n].0];
      EachTableProbedAtMostOnce(tables[..n], fields);
      assert tables[n].0 !in Keys(tables[..n]);
    }
  }

  /** A field name lies in `table`: it starts with "<table>.". */
  predicate InTable(fieldname: string, table: string)
  {
    table + "." <= fieldname
  }

  /** The field lies in one of the named tables. */
  predicate InSomeTable(fieldname: string, tableNames: seq<string>)
  {
    exists t :: t in tableNames && InTable(fieldname, t)
  }

  /**
   * No field name lies in two of the tables. When one does, the trimming
   * loop adds it twice and Dictionary.Add throws.
   */
  predicate UnambiguousPrefixes(fieldNames: seq<string>, tableNames: seq<string>)
  {
    forall f, t1, t2 :: f in fieldNames && t1 in tableNames && t2 in tableNames && InTable(f, t1) && InTable(f, t2) ==> t1 == t2
  }

  /** Fields kept by the field trimming loop, in discovery order. */
  function KeptFields(fields: OrderedMap<string, string>, tableNames: seq<string>): OrderedMap<string, string>
  {
    if fields == [] then []
    else
      var n := |fields| - 1;
      var kept := KeptFields(fields[..n], tableNames);
      if InSomeTable(fields[n].0, tableNames) then kept + [fields[n]] else kept
  }

  /**
   * The field trimming loop: a field is kept when its name starts with
   * "<kept table>."; the owner recorded for it is not consulted.
   */
  method TrimFields(severityFields: OrderedMap<string, string>, trimmedTables: OrderedMap<string, bool>)
    returns (trimmedFields: OrderedMap<string, string>)
    requires DistinctKeys(severityFields) && DistinctKeys(trimmedTables)
    requires UnambiguousPrefixes(Keys(severityFields), Keys(trimmedTables))
    ensures trimmedFields == KeptFields(severityFields, Keys(trimmedTables))
    ensures DistinctKeys(trimmedFields)
  {
    var tableNames := Keys(trimmedTables);
    trimmedFields := [];
    var i := 0;
    while i < |severityFields|
      invariant 0 <= i <= |severityFields|
      invariant trimmedFields == KeptFields(severityFields[..i], tableNames)
      invariant DistinctKeys(trimmedFields)
    {
      var fieldname := severityFields[i].0;
      assert severityFields[..i + 1][..i] == severityFields[..i];
      KeptFieldsAreDiscovered(severityFields[..i], tableNames);
      forall k | 0 <= k < |trimmedFields|
        ensures trimmedFields[k].0 != fieldname
      {
        assert trimmedFields[k] in severityFields[..i];
        var m :| 0 <= m < i && severityFields[m] == trimmedFields[k];
      }
      var before := trimmedFields;
      var j := 0;
      while j < |trimmedTables|
        invariant 0 <= j <= |trimmedTables|
        invariant trimmedFields == before + (if InSomeTable(fieldname, tableNames[..j]) then [severityFields[i]] else [])
      {
        if InTable(fieldname, trimmedTables[j].0) {
          forall t | t in tableNames[..j]
            ensures !InTable(fieldname, t)
          {
            var k :| 0 <= k < j && tableNames[k] == t;
            assert t != tableNames[j];
            assert fieldname in Keys(severityFields) && t in tableNames && tableNames[j] in tableNames;
          }
          trimmedFields := Add(trimmedFields, fieldname, severityFields[i].1);
        }
        assert tableNames[..j + 1] == tableNames[..j] + [tableNames[j]];
        j := j + 1;
      }
      assert tableNames[..|trimmedTables|] == tableNames;
      i := i + 1;
    }
    assert severityFields[..|severityFields|] == severityFields;
  }

  lemma {:induction false} KeptFieldsAreDiscovered(fields: OrderedMap<string, string>, tableNames: seq<string>)
    ensures forall e :: e in KeptFields(fields, tableNames) ==> e in fields
  {
    if fields != [] {
      var n := |fields| - 1;
      assert fields == fields[..n] + [fields[n]];
      KeptFieldsAreDiscovered(fields[..n], tableNames);
    }
  }

  /**
   * A field is kept exactly when it was discovered and its name starts with
   * "<kept table>.", whichever table it names as owner.
   */
  lemma {:induction false} KeptFieldsMembership(fields: OrderedMap<string, string>, tableNames: seq<string>, f: string, owner: string)
    ensures (f, owner) in KeptFields(fields, tableNames) <==> (f, owner) in fields && InSomeTable(f, tableNames)
  {
    if fields != [] {
      var n := |fields| - 1;
      assert fields == fields[..n] + [fields[n]];
      KeptFieldsMembership(fields[..n], tableNames, f, owner);
    }
  }
}
