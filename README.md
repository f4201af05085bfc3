# SeverityCleaner, modelled in Dafny

SeverityCleaner audits and repairs the alarm severities of a Geo SCADA
database. It does the following, in order:

1. It reads the configured severity levels (CSeverity) and adds level 0
   ("None") when the configuration lacks it.
2. It checks the `-f`/`-t` (remap from / remap to) arguments against those
   levels.
3. It discovers the tables and fields that hold severities, then drops
   tables without rows and fields outside the kept tables.
4. It reads every row's severity values into an inventory of entries.
5. It runs one remap pass:
   - Entries: when `-f` and `-t` are both positive the pass runs over the
     whole inventory; otherwise it runs over the fields whose value is not
     a configured level ("unmapped"), which the detector finds.
   - Mode: when `-f` and `-t` are both nonzero the pass is explicit: every
     field recorded at `-f` is set to `-t`, provided `-t` is positive. A
     negative `-f` therefore gives an explicit pass over the detector's
     output. When both are 0 the pass is automatic (a single 0 stops the run
     at step 2): each field's value is moved to the first nonzero
     configured level below it, scanning the levels in reverse query order.
     When the levels arrive in ascending order this is the next lower
     configured level.
   - Before writing, the pass re-reads the live value. It writes only when
     that value is unchanged, the property is writable and `-c` (change)
     was given.
   - It counts writes, and as errors it counts failed writes, failed
     description lookups after a successful write, and nothing else; a
     description lookup outside that `try` ends the run.

The tool also prompts for a password at the console, with the keys masked.
The keystroke editing behind that prompt is modelled too.

The model is written in the source's own imperative form:
- Dictionaries and lists filled by `Add` are sequences reassigned by loops.
- `SeverityEntry` is a class whose `Changed` flag the remap pass sets.
- The server is a class `Server` holding the store.
- Each loop is a method proved against a recursive specification function:
  - `KeptTables`, `KeptFields`, `ColumnData`, `Unmapped` and `Replay` give
    the result one element at a time, matching the loops' invariants.
  - The properties are lemmas about those functions.

The store (`Database.Db`) maps each property to a value held by a holder
cell. Properties that inherit from a template share the template's cell.
The store also records which properties are writable and which writes the
server rejects. The server's query answers are parameters (`Pipeline.Queries`).

Files:
- `wrappers.dfy`: Option/Result.
- `ordered_maps.dfy`: insertion-ordered dictionaries.
- `database.dfy`: the store and the server calls.
- `config.dfy`: the options record.
- `severities.dfy`: the level registry, argument checks and target choice.
- `schema.dfy`: table and field discovery and trimming.
- `inventory.dfy`: the projection queries and `SeverityEntry`.
- `detector.dfy`: the unmapped detector.
- `remap.dfy`: the remap engine and its properties.
- `pipeline.dfy`: `Process`.
- `masked_console.dfy`: `ReadPassword`.

## Model

| member | source | states |
|---|---|---|
| Database.Db.Write | Program.cs:667 | After writing v to a property, that property reads v. Every property with a different holder reads as before. Templates, writability and write permissions do not change. Properties sharing a template cell change together. |
| Database.Server.GetProperty | Program.cs:621 | Returns the value stored in the property's holder cell, or NotNumber when there is none. |
| Database.Server.IsPropertyWritable | Program.cs:654 | True exactly when the property is writable. |
| Database.Server.SetProperty | Program.cs:665-684 | Succeeds exactly when the server does not reject the write. On success the store is the old store with the write applied; on failure the store is unchanged. |
| Database.Server.constructor | Program.cs:138-139 | The connection serves the given store. |
| Severities.QueryDatabaseForSeverities | Program.cs:312-340 | The registry is the query's rows, in row order. It is empty when the query finds nothing or fails. Its keys are distinct. |
| Severities.WithZeroSeverity | Program.cs:194-199 | Afterwards 0 is a key and the keys are distinct. The keys are the old keys plus 0. The old pairs are kept unchanged and in order. An existing 0 keeps its label; otherwise (0, "None") is appended last. |
| Severities.CheckRemapArguments | Program.cs:201-215 | OnlyOneOfFromTo exactly when one of -f/-t is 0 and the other is not. TargetNotConfigured exactly when both are positive and -t is not a key. No other error is reported. |
| Severities.IsConfigured | Program.cs:542-550 | The breaking key scan finds the value exactly when it is a registry key. |
| Severities.AutomaticTarget | Program.cs:586-598 | A target is a nonzero key strictly below the value. There is none exactly when every key is 0 or at least the value. |
| Severities.ScanForTarget | Program.cs:584-598 | The reverse scan's foundseverity is the automatic target, with 0 meaning none. |
| Severities.AscendingLevelsGiveGreatestBelow | Program.cs:589-597 | When the nonzero keys arrive in ascending order, the reverse scan picks exactly the greatest nonzero key below the value. |
| Severities.LastLevelIsGreatestBelow | Program.cs:589-597 | With ascending keys, a last key that is nonzero and below the value is the greatest such key. |
| Severities.GreatestBelowIsUnique | Program.cs:589-597 | The greatest nonzero key below a value is unique. |
| Severities.GreatestBelowIgnoresLast | Program.cs:589-597 | A last key that is 0 or not below the value does not change which key is greatest below. |
| Severities.WithZeroKeepsAscending | Program.cs:196-199 | Appending the synthesized 0 keeps ascending registries ascending. |
| Severities.UnorderedLevelsPickLowerLevel | Program.cs:589-597 | With levels returned as 2, 1 (then 0), value 3 is sent to 1 although 2 is the greatest level below it. |
| Severities.SnapDownExample | Program.cs:194-199 | Levels {1, 2, 4} with 0 added send the unmapped value 3 to 2. |
| Schema.QueryDatabaseForSeverityTables | Program.cs:381-409 | The tables in row order, each aggregate exactly when its identity column is AggrName. Keys are distinct. |
| Schema.QueryDatabaseForSeverityFields | Program.cs:344-377 | The fields ("table.field" mapped to the owner table) in row order. Keys are distinct. |
| Schema.TrimTables | Program.cs:227-248 | The kept tables are KeptTables, with distinct keys. The row counts made are ProbedTables. |
| Schema.KeptTablesMembership | Program.cs:229-247 | A (table, aggregate) pair is kept exactly when it was discovered, some field names the table as owner, and the table's row count is nonzero. |
| Schema.KeptTablesAreDiscovered | Program.cs:244 | Every kept pair is a discovered pair. |
| Schema.EachTableProbedAtMostOnce | Program.cs:232-245 | No table's rows are counted twice (the `break`). The tables counted are exactly the discovered tables that own a field. |
| Schema.TrimFields | Program.cs:252-267 | The kept fields are KeptFields over the kept table names, with distinct keys. |
| Schema.KeptFieldsMembership | Program.cs:254-266 | A field is kept exactly when it was discovered and its name starts with "<kept table>.". Its recorded owner is not consulted. |
| Schema.KeptFieldsAreDiscovered | Program.cs:264 | Every kept field is a discovered field. |
| Inventory.SeverityEntry.constructor | Program.cs:748-755 | A new entry carries the given table, row, fields and FullName, with Changed false. |
| Inventory.BuildProjectionSql | Program.cs:450-470 | The column loop and the prefix/suffix build exactly ProjectionSql. There is none when the table has no column, where Substring(0, -1) throws. |
| Inventory.ProjectionSqlNeedsField | Program.cs:450-460 | The projection query cannot be built exactly when no field name starts with "<table>.", the case where Substring(0, -1) throws. |
| Inventory.TrailingCommaForm | Program.cs:452-460 | The loop's text is the comma-joined column list plus one comma, so dropping the last character leaves the list. |
| Inventory.ColumnListRoundTrip | Program.cs:452-460 | Splitting the column list at commas gives back the columns, when no column name has a comma. |
| Inventory.ProjectionSqlShape | Program.cs:460-470 | The query is "Select With Templates Id, AggrName, " (aggregate) or "Select With Templates Id, FullName, ", then a text that splits into the table's columns, then " From <table>". |
| Inventory.ColumnsPrefix | Program.cs:452-457 | The columns of a prefix of the fields are a prefix of the columns. |
| Inventory.ColumnsComeFromFields | Program.cs:452-457 | Every column is the suffix after "<table>." of a field in that table. |
| Inventory.DistinctFieldsDistinctColumns | Program.cs:456 | Different fields of a table have different columns. |
| Inventory.ColumnsDistinct | Program.cs:452-457 | With distinct field names, the columns of a table are distinct. |
| Inventory.FieldKeyInjective | Program.cs:503-511 | Different columns give different field keys within a row. |
| Inventory.FieldKeyReadsBack | Program.cs:503-511 | For an aggregate table the key is the instance name, a dot, then the column, so the column can be read back after the dot. For other tables the key is the column itself. |
| Inventory.ReadRowFields | Program.cs:497-519 | Fails exactly when the row has fewer values than the table has columns (Data[i] out of range). Otherwise the keys are the column suffixes, prefixed "<AggrName>." for aggregates, with values from Data[2], Data[3], ... |
| Inventory.ReadTableRows | Program.cs:480-526 | One new entry per row, in row order, as RowEntries says. All entries are fresh and unchanged. The first short row ends the read with MissingColumn. |
| Inventory.ReadTable | Program.cs:450-529 | One table's entries are TableData: its rows' entries when the query succeeds, none when it fails, NoColumns when it has no column. |
| Inventory.QueryDatabaseForSeverityColumnData | Program.cs:439-532 | The entries of all kept tables, table by table and row by row (ColumnData). The entries are fresh and unchanged. The first failure ends the read. |
| Inventory.RowEntriesStopAtFailure | Program.cs:486-512 | Once a row fails, later rows do not change the outcome. |
| Inventory.ColumnDataStopsAtFailure | Program.cs:444-530 | Once a table fails, later tables do not change the outcome. |
| Inventory.RowEntriesShape | Program.cs:481-526 | Fails exactly when some row is short of values. Otherwise there is one entry per row, in order, with its Id, its keyed values, and FullName set only for identity tables. |
| Inventory.RowFieldsDistinct | Program.cs:499-512 | A row's field keys are distinct, so entry.FieldsValues.Add never throws. |
| Inventory.EntryKeysDistinct | Program.cs:512 | Every inventory entry has distinct field keys. |
| Inventory.AggregateFieldKeyExample | Program.cs:505-512 | Aggregate instance "Pump1" with column Severity gives the key "Pump1.Severity", and FullName stays empty. |
| Inventory.ColumnsNonEmpty | Program.cs:452-457 | A table that holds some field by name has a column. |
| Inventory.ConsistentOwnersGiveColumns | Program.cs:229-264 | When every field's name starts with its owner, every kept table has a column among the kept fields. |
| Inventory.ColumnsEverywhereMeansNoColumnError | Program.cs:460 | When every table has a column, the only possible failure is a short row. |
| Inventory.RowEntriesErrorKind | Program.cs:481-512 | Reading rows fails only with MissingColumn. |
| Inventory.MismatchedOwnerKeepsTable | Program.cs:232-245 | Table "A", named as owner by field "B.Severity", is kept. |
| Inventory.MismatchedOwnerDropsField | Program.cs:254-266 | Field "B.Severity" is not kept for table "A". |
| Inventory.MismatchedOwnerStopsInventory | Program.cs:234 | Tables are matched by owner but fields by prefix, so table "A", owned by "B.Severity", is kept with no column and the inventory fails with NoColumns. |
| Detector.Fork | Program.cs:553-558 | The copy holds exactly the one field. Apart from its fields it is the original entry: same table, row and FullName. |
| Detector.UnmappedOfEntry | Program.cs:540-566 | For one entry: one new single-field entry per field whose value is not a registry key, in field order. Each is fresh and unchanged. |
| Detector.SearchConfigurationForUnmapped | Program.cs:534-570 | The output is Unmapped over all entries, in entry then field order. Each is fresh and unchanged. |
| Detector.UnmappedFieldsMembership | Program.cs:540-566 | For one entry, an output is exactly the fork of one of its fields whose value is not configured. |
| Detector.UnmappedMembership | Program.cs:537-569 | An output is exactly a fork of some (entry, field) whose value is not configured. A fork copies the table, row and FullName and holds only that field and value. |
| Detector.UnmappedHasSource | Program.cs:553-559 | Every output entry comes from an unconfigured field of an input entry. |
| Detector.UnmappedIncludes | Program.cs:551-559 | Every unconfigured field of an input entry has its fork in the output. |
| Detector.UnmappedFieldsCount | Program.cs:540-566 | An entry yields exactly as many outputs as it has unconfigured fields. |
| Detector.UnmappedLength | Program.cs:537-569 | The output length is the number of unconfigured (entry, field) pairs. |
| Detector.UnmappedOutputIsUnmapped | Program.cs:553-559 | Every output entry has exactly one field, and its value is unconfigured. |
| Remap.ModeMeaning | Program.cs:586 | The pass is automatic exactly when -f or -t is 0. Otherwise it is explicit, from -f to -t. |
| Remap.Target | Program.cs:584-610 | A target is positive. Explicitly, a field is targeted exactly when its recorded value is -f and -t is positive, and the target is -t. Automatically, the target is a configured level below the recorded value. With no negative levels, a value is left alone exactly when no nonzero level lies below it. |
| Remap.OutcomeMeaning | Program.cs:610-705 | A field without a target is left alone, and so is an unparseable live value. A stale outcome carries the live value, which differs from the recorded one. A write, a write error or a suppressed write happens only when the live value is still the recorded one and the property is writable. A write needs -c and an accepting server; a write error means -c and a refusing server; a suppressed write means no -c. A thrown lookup names an unconfigured target. A configured target with every condition met is always written. |
| Remap.RemapField | Program.cs:584-704 | One field's visit equals Step. The following all agree with Step: the store after the visit, both counters, whether a lookup threw, and whether the entry becomes Changed. |
| Remap.RemapEntry | Program.cs:582-706 | The loop over one entry's fields reaches the state Replay gives for that entry's tasks, and stops early exactly when a lookup throws. Its Changed flag is set exactly when one of its fields was written. |
| Remap.RemapAt | Program.cs:580-706 | One turn of the entry loop reaches the pass's state after that entry; a throw inside it gives the state of the whole run. The set of Changed entries grows by that entry exactly when it was marked. |
| Remap.RemapSeverities | Program.cs:574-712 | The store, RemapCount, ErrorCount and the crash equal RemapRun over the entries. An entry becomes Changed exactly when one of its fields was written. |
| Remap.MarkedEntriesMembership | Program.cs:670 | An entry is in MarkedEntries exactly when its position is marked. |
| Remap.MarkedBelowMembership | Program.cs:670 | The entries at marked positions below n are exactly those entries. |
| Remap.StepMarks | Program.cs:663-670 | A step marks the entry's position exactly when it writes the field. |
| Remap.ReplayAppend | Program.cs:580-582 | Replaying two task lists in a row is replaying their concatenation. |
| Remap.ReplayHalted | Program.cs:641 | Once a lookup has thrown, later tasks change nothing. |
| Remap.TasksPrefix | Program.cs:580-582 | The tasks of a prefix of the entries are a prefix of the tasks. |
| Remap.DryRunChangesNothing | Program.cs:663-695 | Without -c a pass leaves the store, RemapCount, ErrorCount and the Changed marks as they were. |
| Remap.StepEffect | Program.cs:663-684 | One step adds one report. It adds 1 to RemapCount for a write, and 1 to ErrorCount for a failed write or a failed log lookup. It marks the entry for a write, and stops the pass exactly when a lookup throws. |
| Remap.StepAccounted | Program.cs:669-683 | A step keeps the counters, marks and crash flag in agreement with the reports. |
| Remap.ReplayAccounted | Program.cs:580-712 | Any replay keeps the counters, marks and crash flag in agreement with the reports. |
| Remap.RunAccounted | Program.cs:669-683 | RemapCount is the number of writes reported. ErrorCount is the number of failed writes and failed log lookups. An entry is marked exactly when one of its fields was written. The pass stopped exactly when a lookup threw. |
| Remap.ReportsFollowTasks | Program.cs:580-582 | Reports follow the tasks in order, one each, until a lookup throws. A failed write does not stop the pass. |
| Remap.ReportAt | Program.cs:580-705 | The k-th report is the decision for the k-th field against the store the pass reached just before it, so a template written earlier in the pass is seen by later fields. |
| Remap.ReplayWriteGuard | Program.cs:620-667 | A field is written only when, against the store just before its step, the live value is still the recorded one, the property is writable and accepts the write, and -c was given. |
| Remap.RunWriteGuard | Program.cs:620-667 | The same write guard, over a whole pass. |
| Remap.TasksEnumerateFields | Program.cs:580-582 | The tasks are exactly the (entry, field) pairs, with the entry's position and row and the field's recorded value. |
| Remap.TaskSource | Program.cs:580-582 | Every task is a field of the entry at its position. |
| Remap.TaskIncluded | Program.cs:580-582 | Every field of every entry is a task. |
| Remap.EveryFieldReported | Program.cs:580-712 | Every field of every entry is reported, in order, unless a lookup stops the pass. |
| Remap.ReplayRespects | Program.cs:610-696 | A pass never alters templates, writability or write permissions. In each report, a field is acted on exactly when it has a target, goes to that target, is written (or would be) only when writable, and is written only with -c. |
| Remap.RunRespectsPolicy | Program.cs:584-696 | A field is acted on exactly when it has a target, and it goes to that target. It is written (or would be) only when writable, and written only with -c. Explicitly, only fields recorded at -f go to -t. Automatically, a field goes to a configured level below its recorded value. |
| Remap.ReplayTouchesOnlyWrittenHolders | Program.cs:663-684 | A property whose holder no report wrote reads as before. |
| Remap.RunTouchesOnlyWrittenHolders | Program.cs:663-684 | A run changes only the holders it reports writing. Templates, writability and permissions are unchanged. |
| Remap.SharedTemplateWrittenOnce | Program.cs:620-644 | After one field is written, another field sharing its template cell and recorded at the same value reads as already changed and is left alone. |
| Remap.OutcomeLocal | Program.cs:621-654 | A field's outcome depends on the store only through its live value, its writability and its write permission. |
| Remap.StepKeepsBlocked | Program.cs:620-644 | After one step, a field that would not have written still would not, and neither would the field just visited. This holds whenever the step's target differs from that field's recorded value: a written template cell then reads as stale. |
| Remap.FirstPassBlocksAll | Program.cs:620-644 | After a pass that did not stop, no task of it would write again. |
| Remap.BlockedPassIsIdle | Program.cs:663-670 | A pass in which no task writes leaves the store, RemapCount and the marks unchanged. |
| Remap.SecondPassWritesNothing | Program.cs:620-670 | When no target equals a recorded value, the same pass run again over the store the first one left writes nothing. |
| Remap.DescribedPassRunsToEnd | Program.cs:641-693 | When every target is a configured level, no description lookup throws and no log lookup fails. |
| Remap.AutomaticPassIsFinal | Program.cs:586-598 | An automatic pass over unmapped entries completes, and a second such pass writes nothing. |
| Remap.ExplicitPassIsFinal | Program.cs:599-608 | A completed explicit pass with -f different from -t leaves nothing for a second pass. |
| Remap.NegativeFromEscapesTargetCheck | Program.cs:201-215 | -f -1 -t 5 with 5 unconfigured passes the checks and selects the explicit mode. A matching field then makes the dry run throw on the level's description. A -c run writes 5 and counts an error. |
| Pipeline.Process | Program.cs:186-303 | A run's outcome and final store are ProcessSpec. An argument error stops before schema discovery. An inventory failure ends the run. Otherwise one pass runs, over the whole inventory or over the unmapped entries. |
| Pipeline.ExplicitRun | Program.cs:288 | A run that takes the explicit branch remaps explicitly from -f to -t. |
| Pipeline.PassEntries | Program.cs:288-301 | An explicit run passes the whole inventory. Otherwise it passes the detector's output, where every entry has one field and its value is unconfigured. |
| Pipeline.RemapPass | Program.cs:284-299 | The pass runs over the whole inventory when -f and -t are both positive, and over the detector's output otherwise. The resulting counts and store are RemapRun's. |
| Pipeline.OneOfFromToAborts | Program.cs:203-207 | A run aborts with OnlyOneOfFromTo, leaving the store alone, exactly when one of -f/-t is 0 and the other is not. |
| Pipeline.UnconfiguredTargetAborts | Program.cs:208-214 | With both positive, a run aborts with TargetNotConfigured, leaving the store alone, exactly when -t is not a queried level. |
| Pipeline.DryRunLeavesStore | Program.cs:663-695 | Without -c a run leaves the store unchanged and reports no changes. |
| Pipeline.NonnegativeFromNeverCrashes | Program.cs:201-215 | With -f nonnegative a run that reaches the pass finishes it. |
| Pipeline.RunIsFinal | Program.cs:280-299 | After a pass that finished, replaying it over the store it left writes nothing. This holds for automatic runs, and for explicit runs with -f different from -t. |
| MaskedConsole.FirstEnter | Console.cs:27 | Reading stops at the first Enter: no Enter comes before it, and Enter (or the end of the keys) is at it. |
| MaskedConsole.FirstEnterUnique | Console.cs:27 | The first Enter is the only position with these properties. |
| MaskedConsole.Reverse | Console.cs:60 | The reversal has the same length, with the elements in the opposite order. |
| MaskedConsole.ReadPassword | Console.cs:19-61 | The keys read are those before the first Enter. The password is the accepted characters in typing order, because the stack is reversed. |
| MaskedConsole.Edit | Console.cs:29-55 | A key other than Enter either cuts the accepted characters to a prefix or appends itself, and only a plain key appends. A plain key is appended; a filtered key changes nothing; Ctrl+Backspace clears; Backspace removes one character when there is one. |
| MaskedConsole.RunAppend | Console.cs:27-56 | Keys are applied one after another. |
| MaskedConsole.ClearForgetsEarlierKeys | Console.cs:39-46 | Ctrl+Backspace (127) forgets everything typed before it. |
| MaskedConsole.BackspaceUndoesKey | Console.cs:31-38 | Backspace removes the last accepted character. |
| MaskedConsole.BackspaceDropsLast | Console.cs:31-38 | Backspace drops the last accepted character, and leaves an empty buffer empty. |
| MaskedConsole.FilteredKeyIgnored | Console.cs:22-54 | NUL, Escape, Tab and Line feed change nothing, wherever they are typed. |
| MaskedConsole.SpaceIsAccepted | Console.cs:22-52 | Space is not filtered: it is appended like any plain key. |
| MaskedConsole.PlainKeysKept | Console.cs:47-52 | Keys other than control keys come back exactly as typed. |
| MaskedConsole.RunAcceptsNoControl | Console.cs:29-55 | No control character is accepted, and each key adds at most one character. |
| MaskedConsole.PasswordHasNoControl | Console.cs:19-61 | The password holds none of 13, 8, 127, 0, 27, 9 or 10, and is no longer than the keys read. |
| MaskedConsole.StopsAtFirstEnter | Console.cs:21-27 | What follows the first Enter is never read. |

## Left out

- Connection, logon, SecureString handling and their exception branches. These are the client library's remote calls.
- The text of the queries the server evaluates: the WHERE clauses, the query statuses beyond success, and the row enumerators. Query answers are parameters (`Pipeline.Queries`), and `CountRowsInTable` is the parameter `rowCount`.
- Console messages and the verbose/quiet formatting. `Quiet` and `Verbose` matter only where a message looks up a level's description. `severities[foundseverity]` throws for an unconfigured level: it is uncaught on the dry-run, stale and verbose paths, and caught by the write's `catch` after a successful write.
- The FullName lookups (Program.cs:563, 615-618). These set `FullName` for display only, so `SeverityEntry.fullName` is constant in the model.
- `Thread.Sleep` throttling and the elapsed-time report, which are timing only.
- `Main`, `RunOptions`, the help and exit paths, the username prompt and the warning prompt.
- The command-line parser. The options are a plain record with the defaults of Options.cs:52-68.
- The key reading and echo of ReadPassword (`ReadKey`, `Write`, the `'*'` overload). Keys are an input sequence, and running out of keys before Enter leaves the prompt waiting.
- Duplicate keys that would make `Dictionary.Add` throw, in the query rows and in field names lying in two kept tables. These are preconditions (`Pipeline.WellKeyed`).
- `(int)e.Current.Data[...]` casts on non-integer data. Query values are already integers.
- `entry.RowNumber` is a `long` cast to `int` for ObjectId. Row ids are unbounded integers here.
- `String.StartsWith` is modelled as an ordinal prefix test. The culture-sensitive comparison .NET uses by default is not modelled.
- Level 0 as a target: level 0 is never a target. Program.cs:592 skips it in the automatic scan and Program.cs:610 writes only when the target is positive, so an automatic value with no nonzero level below it is left alone.
- Remap.SecondPassWritesNothing: idempotence is stated for the same pass replayed over the store the first pass left. A later run would read a fresh inventory from the server, and that re-query is not modelled.
