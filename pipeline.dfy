/**
 * The body of Process once the connection is logged on: load the registry
 * and add level 0, check -f/-t, discover and trim the schema, read the
 * inventory, then run one remap pass, either over the whole inventory
 * (explicit -f/-t, both positive) or over the detector's unmapped entries.
 * The answers of the server's queries are parameters; the store the pass
 * reads and writes is the Server.
 */
module Pipeline {
  import opened Wrappers
  import opened OrderedMaps
  import opened Database
  import opened Config
  import opened Severities
  import opened Schema
  import opened Inventory
  import opened Detector
  import opened Remap

  /** What the server answers to the queries Process makes. */
  datatype Queries = Queries(
    levels: QueryResult<(int, string)>,
    tables: QueryResult<(string, string)>,
    fields: QueryResult<(string, string)>,
    rowCount: string -> int,
    columns: string -> QueryResult<DataRow>)

  /**
   * The answers never make a Dictionary.Add throw: levels, tables and fields
   * have distinct keys, and no field name lies in two kept tables.
   */
  predicate WellKeyed(q: Queries)
  {
    && (q.levels.Succeeded? ==> DistinctKeys(q.levels.rows))
    && (q.tables.Succeeded? ==> DistinctKeys(q.tables.rows))
    && (q.fields.Succeeded? ==> DistinctKeys(q.fields.rows))
    && UnambiguousPrefixes(Keys(LoadedFields(q.fields)),
                           Keys(KeptTables(LoadedTables(q.tables), LoadedFields(q.fields), q.rowCount)))
  }

  /** How a run ends. */
  datatype RunOutcome =
    | Aborted(reason: ArgumentError)
    | InventoryFailed(error: InventoryError)
    | Remapped(rows: nat, passed: nat, remapCount: nat, errorCount: nat, crashed: bool)

  /** The registry after loading, with level 0 added when missing. */
  function RegistryOf(q: Queries): Registry
    requires WellKeyed(q)
  {
    WithZeroSeverity(LoadedSeverities(q.levels))
  }

  /** The inventory of the trimmed tables and fields. */
  function InventoryOf(q: Queries): Result<seq<EntryData>, InventoryError>
  {
    var tables := LoadedTables(q.tables);
    var fields := LoadedFields(q.fields);
    var trimmedTables := KeptTables(tables, fields, q.rowCount);
    ColumnData(trimmedTables, KeptFields(fields, Keys(trimmedTables)), q.columns)
  }

  /** Process calls RemapSeverities with the whole inventory only when -f and -t are both positive. */
  predicate ExplicitRun(options: Options): (explicit: bool)
    ensures explicit ==> ModeOf(options) == Explicit(options.remapFrom, options.remapTo)
  {
    options.remapFrom > 0 && options.remapTo > 0
  }

  /**
   * The entries handed to RemapSeverities: the whole inventory for an
   * explicit run, otherwise single-field copies of the unmapped values only.
   */
  function PassEntries(options: Options, severities: Registry, entries: seq<EntryData>): (pass: seq<EntryData>)
    ensures ExplicitRun(options) ==> pass == entries
    ensures !ExplicitRun(options) ==>
              AllUnmapped(pass, Keys(severities)) && forall d :: d in pass ==> |d.fieldsValues| == 1
  {
    UnmappedOutputIsUnmapped(entries, Keys(severities));
    if ExplicitRun(options) then entries else Unmapped(entries, Keys(severities))
  }

  /** The outcome of a run and the store it leaves. */
  function ProcessSpec(options: Options, q: Queries, db: Db): (RunOutcome, Db)
    requires WellKeyed(q)
  {
    var severities := RegistryOf(q);
    match CheckRemapArguments(options, severities)
    case Some(reason) => (Aborted(reason), db)
    case None =>
      match InventoryOf(q)
      case Failure(e) => (InventoryFailed(e), db)
      case Success(entries) =>
        var pass := PassEntries(options, severities, entries);
        var run := RemapRun(db, pass, PolicyOf(options, severities));
        (Remapped(|entries|, |pass|, run.remapCount, run.errorCount, run.halted), run.db)
  }

  /** Process, from the registry query to the remap count. */
  method Process(server: Server, options: Options, q: Queries) returns (outcome: RunOutcome)
    requires WellKeyed(q)
    modifies server
    ensures (outcome, server.db) == ProcessSpec(options, q, old(server.db))
  {
    var severities := QueryDatabaseForSeverities(q.levels);
    if 0 !in Keys(severities) {
      severities := Add(severities, 0, "None");
    }
    assert severities == RegistryOf(q);

    var argumentError := CheckRemapArguments(options, severities);
    if argumentError.Some? {
      return Aborted(argumentError.value);
    }

    var severityTables := QueryDatabaseForSeverityTables(q.tables);
    var severityFields := QueryDatabaseForSeverityFields(q.fields);
    var trimmedTables, probes := TrimTables(severityTables, severityFields, q.rowCount);
    var trimmedFields := TrimFields(severityFields, trimmedTables);

    var severityConfiguration := QueryDatabaseForSeverityColumnData(trimmedTables, trimmedFields, q.columns);
    if severityConfiguration.Failure? {
      return InventoryFailed(severityConfiguration.error);
    }
    var entries := severityConfiguration.value;
    assert Snapshot(entries) == InventoryOf(q).value;

    assert forall i :: 0 <= i < |entries| ==> entries[i] in entries;
    outcome := RemapPass(server, entries, severities, options);
  }

  /**
   * The last step of Process: RemapSeverities over the whole inventory when
   * -f and -t are both positive, over the unmapped entries otherwise.
   */
  method RemapPass(server: Server, entries: seq<SeverityEntry>, severities: Registry, options: Options)
    returns (outcome: RunOutcome)
    modifies server, entries
    ensures var pass := PassEntries(options, severities, Snapshot(entries));
      var run := RemapRun(old(server.db), pass, PolicyOf(options, severities));
      && outcome == Remapped(|entries|, |pass|, run.remapCount, run.errorCount, run.halted)
      && server.db == run.db
  {
    var remapCount, errorCount, crashed;
    if options.remapFrom > 0 && options.remapTo > 0 {
      remapCount, errorCount, crashed := RemapSeverities(server, entries, severities, options);
      outcome := Remapped(|entries|, |entries|, remapCount, errorCount, crashed);
    } else {
      var unmappedSeverities := SearchConfigurationForUnmapped(entries, severities);
      assert forall i :: 0 <= i < |unmappedSeverities| ==> unmappedSeverities[i] in unmappedSeverities;
      remapCount, errorCount, crashed := RemapSeverities(server, unmappedSeverities, severities, options);
      outcome := Remapped(|entries|, |unmappedSeverities|, remapCount, errorCount, crashed);
    }
  }

  // ---------------------------------------------------------------------
  // Properties of a run

  /** Exactly one of -f/-t zero stops the run before schema discovery and leaves the store alone. */
  lemma OneOfFromToAborts(options: Options, q: Queries, db: Db)
    requires WellKeyed(q)
    ensures (options.remapFrom == 0) != (options.remapTo == 0) <==>
              ProcessSpec(options, q, db) == (Aborted(OnlyOneOfFromTo), db)
  {
  }

  /** Positive -f/-t with a -t the registry does not configure stops the run and leaves the store alone. */
  lemma UnconfiguredTargetAborts(options: Options, q: Queries, db: Db)
    requires WellKeyed(q)
    requires options.remapFrom > 0 && options.remapTo > 0
    ensures options.remapTo !in Keys(LoadedSeverities(q.levels)) <==>
              ProcessSpec(options, q, db) == (Aborted(TargetNotConfigured(options.remapTo)), db)
  {
  }

  /** Without -c the store is left as it was, whatever else happens. */
  lemma DryRunLeavesStore(options: Options, q: Queries, db: Db)
    requires WellKeyed(q)
    requires !options.change
    ensures ProcessSpec(options, q, db).1 == db
    ensures ProcessSpec(options, q, db).0.Remapped? ==> ProcessSpec(options, q, db).0.remapCount == 0
  {
    if CheckRemapArguments(options, RegistryOf(q)).None? && InventoryOf(q).Success? {
      var severities := RegistryOf(q);
      DryRunChangesNothing(Start(db), PolicyOf(options, severities),
                           Tasks(PassEntries(options, severities, InventoryOf(q).value)));
    }
  }

  /**
   * With a nonnegative -f a run that reaches the remap pass finishes it: every
   * level it writes is configured, so no description lookup throws, and the
   * errors it counts are failed writes only.
   */
  lemma NonnegativeFromNeverCrashes(options: Options, q: Queries, db: Db)
    requires WellKeyed(q)
    requires options.remapFrom >= 0
    ensures var (outcome, _) := ProcessSpec(options, q, db);
      outcome.Remapped? ==> !outcome.crashed
  {
    var severities := RegistryOf(q);
    if CheckRemapArguments(options, severities).None? && InventoryOf(q).Success? {
      var policy := PolicyOf(options, severities);
      assert DescribedTargets(policy);
      DescribedPassRunsToEnd(Start(db), policy, Tasks(PassEntries(options, severities, InventoryOf(q).value)));
    }
  }

  /**
   * A run whose pass went to the end leaves nothing for the same pass to
   * do: replayed over the store it left, it writes nothing. This holds for
   * automatic runs, and for explicit runs with -f different from -t.
   */
  lemma RunIsFinal(options: Options, q: Queries, db: Db)
    requires WellKeyed(q)
    requires options.remapFrom == options.remapTo ==> options.remapFrom == 0
    requires CheckRemapArguments(options, RegistryOf(q)).None? && InventoryOf(q).Success?
    ensures var severities := RegistryOf(q);
      var policy := PolicyOf(options, severities);
      var pass := PassEntries(options, severities, InventoryOf(q).value);
      var (outcome, after) := ProcessSpec(options, q, db);
      outcome.Remapped? && !outcome.crashed ==>
        var again := RemapRun(after, pass, policy);
        again.db == after && again.remapCount == 0 && again.marked == {}
  {
    var severities := RegistryOf(q);
    var policy := PolicyOf(options, severities);
    var entries := InventoryOf(q).value;
    var pass := PassEntries(options, severities, entries);
    if !RemapRun(db, pass, policy).halted {
      if policy.mode.Automatic? {
        if !ExplicitRun(options) {
          UnmappedOutputIsUnmapped(entries, Keys(severities));
          AutomaticPassIsFinal(db, pass, policy);
        }
      } else {
        ExplicitPassIsFinal(db, pass, policy);
      }
    }
  }
}
