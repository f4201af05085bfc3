/**
 * The remap engine (RemapSeverities): for every (entry, field) it picks a
 * target level, re-reads the live value, and writes the target when the
 * value is still the recorded one, the property is writable and changes are
 * enabled. The loop is specified by Replay, a fold of Step over the
 * flattened (entry, field) tasks; the per-field console lines become Reports.
 */
module Remap {
  import opened Wrappers
  import opened OrderedMaps
  import opened Database
  import opened Config
  import opened Severities
  import opened Inventory
  import opened Detector

  /** Automatic: move to the first nonzero configured level below, scanning the levels in reverse. Explicit: replace `from` by `to`. */
  datatype Mode = Automatic | Explicit(from: int, to: int)

  /** RemapSeverities works automatically when either of -f/-t is 0, explicitly otherwise. */
  function ModeOf(options: Options): Mode
  {
    if options.remapFrom == 0 || options.remapTo == 0 then Automatic
    else Explicit(options.remapFrom, options.remapTo)
  }

  /** The pass is automatic exactly when -f or -t is 0; otherwise it replaces -f by -t. */
  lemma ModeMeaning(options: Options)
    ensures ModeOf(options).Automatic? <==> options.remapFrom == 0 || options.remapTo == 0
    ensures ModeOf(options).Explicit? ==>
              ModeOf(options).from == options.remapFrom && ModeOf(options).to == options.remapTo
  {
  }

  /** Everything a pass depends on besides the store: the mode, the configured levels and the flags. */
  datatype Policy = Policy(mode: Mode, levels: seq<int>, change: bool, verbose: bool, quiet: bool)

  function PolicyOf(options: Options, severities: Registry): Policy
  {
    Policy(ModeOf(options), Keys(severities), options.change, options.verbose, options.quiet)
  }

  /**
   * The level a recorded value is to be changed to (`foundseverity > 0`), or
   * None when it is left alone. A target is a positive level. Explicitly,
   * only `from` is targeted, and only towards a positive `to`.
   * Automatically, the target is a configured level below the recorded
   * value, and with no negative levels a value is left alone exactly when no
   * nonzero level lies below it.
   */
  function Target(mode: Mode, levels: seq<int>, recorded: int): (r: Option<int>)
    ensures r.Some? ==> r.value > 0
    ensures mode.Explicit? ==> (r.Some? <==> recorded == mode.from && mode.to > 0)
    ensures mode.Explicit? && r.Some? ==> r.value == mode.to
    ensures mode.Automatic? && r.Some? ==> r.value in levels && r.value < recorded
    ensures mode.Automatic? && (forall k :: k in levels ==> k >= 0) ==>
              (r.None? <==> forall k :: k in levels && k != 0 ==> k >= recorded)
  {
    match mode
    case Automatic =>
      (match AutomaticTarget(levels, recorded)
       case Some(k) => if k > 0 then Some(k) else None
       case None => None)
    case Explicit(from, to) =>
      if recorded == from && to > 0 then Some(to) else None
  }

  /** One field to visit: the entry's position in the list, its row, the field key and the recorded value. */
  datatype Task = Task(index: nat, row: int, field: string, recorded: int)

  function Prop(t: Task): Property
  {
    (t.row, t.field)
  }

  /** What happened to one field: the console line the tool prints for it, as data. */
  datatype Outcome =
    | NotTargeted                 // no target: nothing is read and nothing printed
    | Unparseable                 // the live value is not an integer ("incorrect field value type")
    | AlreadyChanged(live: int)   // the live value is no longer the recorded one ("No change ... is now")
    | NotWritable                 // "Property not writable"
    | WouldChange(to: int)        // changes disabled ("Use -c option to change")
    | Changed(to: int)            // written ("Changed ...")
    | ChangedUndescribed(to: int) // written and counted, then the log line's level lookup throws and is counted as an error
    | WriteError                  // the write threw ("*** Property write error")
    | MissingDescription(to: int) // a level lookup outside any handler threw: the run stops

  datatype Report = Report(task: Task, outcome: Outcome)

  /** The outcomes in which SetProperty succeeded. */
  predicate Written(o: Outcome)
  {
    o.Changed? || o.ChangedUndescribed?
  }

  /** The running state of a pass: store, RemapCount, ErrorCount, entries marked Changed, reports, crashed. */
  datatype Tally = Tally(db: Db, remapCount: nat, errorCount: nat, marked: set<nat>, reports: seq<Report>, halted: bool)

  function Start(db: Db): Tally
  {
    Tally(db, 0, 0, {}, [], false)
  }

  /**
   * The decision for one field against the current store, in the order the
   * tool takes it: target, live value, staleness, verbose description,
   * writability, the change flag, the write, the log line's description.
   */
  function OutcomeOf(db: Db, policy: Policy, t: Task): Outcome
  {
    match Target(policy.mode, policy.levels, t.recorded)
    case None => NotTargeted
    case Some(target) =>
      var described := target in policy.levels;
      match db.Read(Prop(t))
      case NotNumber => Unparseable
      case Number(live) =>
        if live != t.recorded then
          (if policy.verbose && !described then MissingDescription(target) else AlreadyChanged(live))
        else if policy.verbose && !described then MissingDescription(target)
        else if Prop(t) !in db.writable then NotWritable
        else if !policy.change then
          (if !described then MissingDescription(target) else WouldChange(target))
        else if Prop(t) in db.rejected then WriteError
        else if (policy.verbose || !policy.quiet) && !described then ChangedUndescribed(target)
        else Changed(target)
  }

  /**
   * The meaning of the decision: a field without a target is left alone, an
   * unparseable live value is left alone, a stale live value is reported, and
   * a write (or an attempted or a suppressed one) happens only when the live
   * value is still the recorded one and the property is writable; a write
   * needs -c and an accepting server, and a described target with every
   * condition met is always written.
   */
  lemma OutcomeMeaning(db: Db, policy: Policy, t: Task)
    ensures var o, target := OutcomeOf(db, policy, t), Target(policy.mode, policy.levels, t.recorded);
      && (o == NotTargeted <==> target.None?)
      && (o == Unparseable <==> target.Some? && db.Read(Prop(t)) == NotNumber)
      && (o.AlreadyChanged? ==> db.Read(Prop(t)) == Number(o.live) && o.live != t.recorded)
      && (Written(o) || o.WriteError? || o.WouldChange? ==>
            target.Some? && db.Read(Prop(t)) == Number(t.recorded) && Prop(t) in db.writable)
      && (Written(o) ==> policy.change && Prop(t) !in db.rejected)
      && (o.WriteError? ==> policy.change && Prop(t) in db.rejected)
      && (o.WouldChange? ==> !policy.change)
      && (o.MissingDescription? ==> target == Some(o.to) && o.to !in policy.levels)
    ensures var target := Target(policy.mode, policy.levels, t.recorded);
      && target.Some? && target.value in policy.levels
      && db.Read(Prop(t)) == Number(t.recorded) && Prop(t) in db.writable
      && policy.change && Prop(t) !in db.rejected
      ==> OutcomeOf(db, policy, t).Changed?
  {
  }

  /** One iteration of the inner loop; nothing happens once the run has stopped. */
  function Step(tally: Tally, policy: Policy, t: Task): Tally
  {
    if tally.halted then tally
    else
      var outcome := OutcomeOf(tally.db, policy, t);
      var reported := tally.(reports := tally.reports + [Report(t, outcome)]);
      match outcome
      case Changed(to) =>
        reported.(db := tally.db.Write(Prop(t), to), remapCount := tally.remapCount + 1,
                  marked := tally.marked + {t.index})
      case ChangedUndescribed(to) =>
        reported.(db := tally.db.Write(Prop(t), to), remapCount := tally.remapCount + 1,
                  errorCount := tally.errorCount + 1, marked := tally.marked + {t.index})
      case WriteError => reported.(errorCount := tally.errorCount + 1)
      case MissingDescription(_) => reported.(halted := true)
      case _ => reported
  }

  function Replay(tally: Tally, policy: Policy, tasks: seq<Task>): Tally
  {
    if tasks == [] then tally
    else
      var n := |tasks| - 1;
      Step(Replay(tally, policy, tasks[..n]), policy, tasks[n])
  }

  /** The tasks of the entry at position `index`, one per field in key order. */
  function EntryTasks(index: nat, e: EntryData, fields: OrderedMap<string, int>): seq<Task>
  {
    seq(|fields|, k requires 0 <= k < |fields| => Task(index, e.rowNumber, fields[k].0, fields[k].1))
  }

  /** The tasks of all entries, entry by entry. */
  function Tasks(entries: seq<EntryData>): seq<Task>
  {
    if entries == [] then []
    else
      var n := |entries| - 1;
      Tasks(entries[..n]) + EntryTasks(n, entries[n], entries[n].fieldsValues)
  }

  function RemapRun(db: Db, entries: seq<EntryData>, policy: Policy): Tally
  {
    Replay(Start(db), policy, Tasks(entries))
  }

  /** The entry objects at the marked positions below `n`. */
  function MarkedBelow(entries: seq<SeverityEntry>, marked: set<nat>, n: nat): set<SeverityEntry>
    requires n <= |entries|
  {
    if n == 0 then {}
    else MarkedBelow(entries, marked, n - 1) + (if n - 1 in marked then {entries[n - 1]} else {})
  }

  /** The entry objects at the marked positions. */
  function MarkedEntries(entries: seq<SeverityEntry>, marked: set<nat>): set<SeverityEntry>
  {
    MarkedBelow(entries, marked, |entries|)
  }

  lemma {:induction false} MarkedBelowMembership(entries: seq<SeverityEntry>, marked: set<nat>, n: nat, e: SeverityEntry)
    requires n <= |entries|
    ensures e in MarkedBelow(entries, marked, n) <==> exists i :: 0 <= i < n && i in marked && entries[i] == e
  {
    if n > 0 {
      MarkedBelowMembership(entries, marked, n - 1, e);
    }
  }

  /** An entry object is marked exactly when it stands at some marked position. */
  lemma MarkedEntriesMembership(entries: seq<SeverityEntry>, marked: set<nat>, e: SeverityEntry)
    ensures e in MarkedEntries(entries, marked) <==> exists i :: 0 <= i < |entries| && i in marked && entries[i] == e
  {
    MarkedBelowMembership(entries, marked, |entries|, e);
  }

  lemma {:induction false} MarkedBelowNone(entries: seq<SeverityEntry>, n: nat)
    requires n <= |entries|
    ensures MarkedBelow(entries, {}, n) == {}
  {
    if n > 0 {
      MarkedBelowNone(entries, n - 1);
    }
  }

  lemma {:induction false} MarkedBelowAdd(entries: seq<SeverityEntry>, marked: set<nat>, i: nat, n: nat)
    requires i < n <= |entries|
    ensures MarkedBelow(entries, marked + {i}, n) == MarkedBelow(entries, marked, n) + {entries[i]}
  {
    if n - 1 != i {
      MarkedBelowAdd(entries, marked, i, n - 1);
    } else {
      MarkedBelowSame(entries, marked, marked + {i}, n - 1);
    }
  }

  lemma {:induction false} MarkedBelowSame(entries: seq<SeverityEntry>, marked: set<nat>, other: set<nat>, n: nat)
    requires n <= |entries|
    requires forall k :: 0 <= k < n ==> (k in marked <==> k in other)
    ensures MarkedBelow(entries, marked, n) == MarkedBelow(entries, other, n)
  {
    if n > 0 {
      MarkedBelowSame(entries, marked, other, n - 1);
    }
  }

  lemma {:induction false} ReplayAppend(tally: Tally, policy: Policy, a: seq<Task>, b: seq<Task>)
    ensures Replay(tally, policy, a + b) == Replay(Replay(tally, policy, a), policy, b)
  {
    if b == [] {
      assert a + b == a;
    } else {
      var n := |b| - 1;
      assert (a + b)[..|a + b| - 1] == a + b[..n];
      ReplayAppend(tally, policy, a, b[..n]);
    }
  }

  lemma {:induction false} ReplayHalted(tally: Tally, policy: Policy, tasks: seq<Task>)
    requires tally.halted
    ensures Replay(tally, policy, tasks) == tally
  {
    if tasks != [] {
      ReplayHalted(tally, policy, tasks[..|tasks| - 1]);
    }
  }

  lemma {:induction false} TasksPrefix(entries: seq<EntryData>, k: nat) returns (rest: seq<Task>)
    requires k <= |entries|
    ensures Tasks(entries) == Tasks(entries[..k]) + rest
  {
    if k == |entries| {
      assert entries[..k] == entries;
      rest := [];
    } else {
      var n := |entries| - 1;
      var more := TasksPrefix(entries[..n], k);
      assert entries[..n][..k] == entries[..k];
      rest := more + EntryTasks(n, entries[n], entries[n].fieldsValues);
    }
  }

  /** Once a lookup has thrown, the state reached is the result of the rest of the tasks. */
  lemma HaltedAfterPrefix(tally: Tally, policy: Policy, done: seq<Task>, rest: seq<Task>)
    requires Replay(tally, policy, done).halted
    ensures Replay(tally, policy, done + rest) == Replay(tally, policy, done)
  {
    ReplayAppend(tally, policy, done, rest);
    ReplayHalted(Replay(tally, policy, done), policy, rest);
  }

  lemma ReplayNextField(tally: Tally, policy: Policy, i: nat, e: EntryData, j: nat)
    requires j < |e.fieldsValues|
    ensures Replay(tally, policy, EntryTasks(i, e, e.fieldsValues[..j + 1])) ==
            Step(Replay(tally, policy, EntryTasks(i, e, e.fieldsValues[..j])), policy,
                 Task(i, e.rowNumber, e.fieldsValues[j].0, e.fieldsValues[j].1))
  {
    var done := EntryTasks(i, e, e.fieldsValues[..j + 1]);
    assert done[..|done| - 1] == EntryTasks(i, e, e.fieldsValues[..j]);
  }

  /** Step marks a task's entry exactly when the field is written. */
  lemma StepMarks(tally: Tally, policy: Policy, t: Task)
    ensures Step(tally, policy, t).marked ==
            if !tally.halted && Written(OutcomeOf(tally.db, policy, t)) then tally.marked + {t.index} else tally.marked
  {
  }

  lemma MarkedStep(entries: seq<SeverityEntry>, marked: set<nat>, next: set<nat>, i: nat, written: bool)
    requires i < |entries|
    requires next == if written then marked + {i} else marked
    ensures MarkedEntries(entries, next) ==
            if written then MarkedEntries(entries, marked) + {entries[i]} else MarkedEntries(entries, marked)
  {
    if written {
      MarkedBelowAdd(entries, marked, i, |entries|);
    }
  }

  /**
   * The body of the inner loop for one field of `entry`: it leaves the store,
   * the counters, the crash flag and the entry's Changed flag as Step does.
   */
  method RemapField(server: Server, entry: SeverityEntry, index: nat, fieldname: string, value: int,
                    severities: Registry, options: Options, ghost tally: Tally, remapCount: nat, errorCount: nat)
    returns (newRemapCount: nat, newErrorCount: nat, crashed: bool)
    requires !tally.halted && server.db == tally.db
    requires remapCount == tally.remapCount && errorCount == tally.errorCount
    modifies server, entry
    ensures var task := Task(index, entry.rowNumber, fieldname, value);
      var next := Step(tally, PolicyOf(options, severities), task);
      && server.db == next.db && newRemapCount == next.remapCount && newErrorCount == next.errorCount
      && crashed == next.halted
      && entry.changed == (old(entry.changed) || Written(OutcomeOf(tally.db, PolicyOf(options, severities), task)))
  {
    ghost var policy := PolicyOf(options, severities);
    newRemapCount, newErrorCount, crashed := remapCount, errorCount, false;
    var foundseverity := 0;
    var skip := false;
    if options.remapFrom == 0 || options.remapTo == 0 {
      foundseverity := ScanForTarget(severities, value);
    } else {
      foundseverity := options.remapTo;
      if value != options.remapFrom {
        skip := true;
      }
    }
    if !skip && foundseverity > 0 {
      assert Target(policy.mode, policy.levels, value) == Some(foundseverity);
      var described := foundseverity in Keys(severities);
      var p := (entry.rowNumber, fieldname);
      var severityValue := server.GetProperty(p);
      if severityValue.NotNumber? {
        // incorrect field value type: no change
      } else if severityValue.n != value {
        // changed already, through a template written earlier in this pass
        crashed := options.verbose && !described;
      } else if options.verbose && !described {
        crashed := true;
      } else {
        var writable := server.IsPropertyWritable(p);
        if writable {
          if options.change {
            var ok := server.SetProperty(p, foundseverity);
            if ok {
              newRemapCount := newRemapCount + 1;
              entry.changed := true;
              if (options.verbose || !options.quiet) && !described {
                newErrorCount := newErrorCount + 1;
              }
            } else {
              newErrorCount := newErrorCount + 1;
            }
          } else {
            crashed := !described;
          }
        }
      }
    } else {
      assert Target(policy.mode, policy.levels, value).None?;
    }
  }

  /**
   * The inner loop over the fields of the entry at position `index`: from
   * the state the pass reached before the entry, it reaches the state after
   * the entry's tasks, and sets Changed exactly when the entry gets marked.
   */
  method RemapEntry(server: Server, entry: SeverityEntry, index: nat, severities: Registry, options: Options,
                    ghost tally: Tally, remapCount: nat, errorCount: nat)
    returns (newRemapCount: nat, newErrorCount: nat, crashed: bool)
    requires !tally.halted && server.db == tally.db && index !in tally.marked
    requires remapCount == tally.remapCount && errorCount == tally.errorCount
    modifies server, entry
    ensures var next := Replay(tally, PolicyOf(options, severities), EntryTasks(index, entry.Data(), entry.fieldsValues));
      && server.db == next.db && newRemapCount == next.remapCount && newErrorCount == next.errorCount
      && crashed == next.halted
      && tally.marked <= next.marked <= tally.marked + {index}
      && entry.changed == (old(entry.changed) || index in next.marked)
  {
    ghost var policy := PolicyOf(options, severities);
    ghost var fields := entry.fieldsValues;
    ghost var t := tally;
    newRemapCount, newErrorCount, crashed := remapCount, errorCount, false;
    assert EntryTasks(index, entry.Data(), fields[..0]) == [];
    var j := 0;
    while j < |entry.fieldsValues|
      invariant 0 <= j <= |fields|
      invariant t == Replay(tally, policy, EntryTasks(index, entry.Data(), fields[..j]))
      invariant !t.halted && !crashed
      invariant server.db == t.db && newRemapCount == t.remapCount && newErrorCount == t.errorCount
      invariant tally.marked <= t.marked <= tally.marked + {index}
      invariant entry.changed == (old(entry.changed) || index in t.marked)
    {
      var (fieldname, value) := entry.fieldsValues[j];
      ghost var task := Task(index, entry.rowNumber, fieldname, value);
      newRemapCount, newErrorCount, crashed :=
        RemapField(server, entry, index, fieldname, value, severities, options, t, newRemapCount, newErrorCount);
      ReplayNextField(tally, policy, index, entry.Data(), j);
      StepMarks(t, policy, task);
      t := Step(t, policy, task);
      if crashed {
        ghost var done, rest := EntryTasks(index, entry.Data(), fields[..j + 1]), EntryTasks(index, entry.Data(), fields[j + 1..]);
        assert fields == fields[..j + 1] + fields[j + 1..];
        assert EntryTasks(index, entry.Data(), fields) == done + rest;
        HaltedAfterPrefix(tally, policy, done, rest);
        return;
      }
      j := j + 1;
    }
    assert fields[..|fields|] == fields;
  }

  /** A lookup that throws inside the entry at `index` ends the whole pass there. */
  lemma HaltedEntryEndsPass(db: Db, policy: Policy, entries: seq<EntryData>, index: nat, tally: Tally)
    requires index < |entries|
    requires tally == Replay(Start(db), policy, Tasks(entries[..index]))
    requires Replay(tally, policy, EntryTasks(index, entries[index], entries[index].fieldsValues)).halted
    ensures Replay(Start(db), policy, Tasks(entries[..index + 1])) == RemapRun(db, entries, policy)
  {
    EntryDone(db, policy, entries, index, tally);
    var rest := TasksPrefix(entries, index + 1);
    HaltedAfterPrefix(Start(db), policy, Tasks(entries[..index + 1]), rest);
  }

  /** The pass over the entries up to `index` is the pass before it followed by the entry's tasks. */
  lemma EntryDone(db: Db, policy: Policy, entries: seq<EntryData>, index: nat, tally: Tally)
    requires index < |entries|
    requires tally == Replay(Start(db), policy, Tasks(entries[..index]))
    ensures Replay(Start(db), policy, Tasks(entries[..index + 1])) ==
            Replay(tally, policy, EntryTasks(index, entries[index], entries[index].fieldsValues))
  {
    assert entries[..index + 1][..index] == entries[..index];
    ReplayAppend(Start(db), policy, Tasks(entries[..index]), EntryTasks(index, entries[index], entries[index].fieldsValues));
  }

  /**
   * One turn of the entry loop: the entry at position `i` is visited, and
   * the entries marked so far grow by that entry exactly when it is marked.
   */
  method RemapAt(server: Server, currentConfig: seq<SeverityEntry>, i: nat, severities: Registry, options: Options,
                 ghost db0: Db, ghost entries: seq<EntryData>, ghost tally: Tally, ghost markedEntries: set<SeverityEntry>,
                 remapCount: nat, errorCount: nat)
    returns (newRemapCount: nat, newErrorCount: nat, crashed: bool, ghost next: Tally, ghost newMarked: set<SeverityEntry>)
    requires i < |currentConfig| && entries == Snapshot(currentConfig)
    requires tally == Replay(Start(db0), PolicyOf(options, severities), Tasks(entries[..i]))
    requires !tally.halted && server.db == tally.db && remapCount == tally.remapCount && errorCount == tally.errorCount
    requires forall k :: k in tally.marked ==> k < i
    requires markedEntries == MarkedEntries(currentConfig, tally.marked)
    modifies server, currentConfig[i]
    ensures next == Replay(Start(db0), PolicyOf(options, severities), Tasks(entries[..i + 1]))
    ensures server.db == next.db && newRemapCount == next.remapCount && newErrorCount == next.errorCount
    ensures crashed == next.halted && (crashed ==> next == RemapRun(db0, entries, PolicyOf(options, severities)))
    ensures forall k :: k in next.marked ==> k < i + 1
    ensures newMarked == MarkedEntries(currentConfig, next.marked)
    ensures newMarked == if i in next.marked then markedEntries + {currentConfig[i]} else markedEntries
    ensures currentConfig[i].changed == (old(currentConfig[i].changed) || i in next.marked)
  {
    ghost var policy := PolicyOf(options, severities);
    assert currentConfig[i].Data() == entries[i];
    assert i !in tally.marked;
    newRemapCount, newErrorCount, crashed :=
      RemapEntry(server, currentConfig[i], i, severities, options, tally, remapCount, errorCount);
    EntryDone(db0, policy, entries, i, tally);
    next := Replay(Start(db0), policy, Tasks(entries[..i + 1]));
    if crashed {
      HaltedEntryEndsPass(db0, policy, entries, i, tally);
    }
    MarkedStep(currentConfig, tally.marked, next.marked, i, i in next.marked);
    newMarked := if i in next.marked then markedEntries + {currentConfig[i]} else markedEntries;
  }

  /**
   * RemapSeverities: the store, RemapCount, ErrorCount, whether a lookup threw,
   * and the Changed flags are those of RemapRun over the entries' contents.
   */
  method RemapSeverities(server: Server, currentConfig: seq<SeverityEntry>, severities: Registry, options: Options)
    returns (remapCount: nat, errorCount: nat, crashed: bool)
    modifies server, currentConfig
    ensures var run := RemapRun(old(server.db), Snapshot(currentConfig), PolicyOf(options, severities));
      && server.db == run.db
      && remapCount == run.remapCount && errorCount == run.errorCount && crashed == run.halted
      && forall e :: e in currentConfig ==> e.changed == (old(e.changed) || e in MarkedEntries(currentConfig, run.marked))
  {
    ghost var policy := PolicyOf(options, severities);
    ghost var entries := Snapshot(currentConfig);
    ghost var db0 := server.db;
    ghost var tally := Start(db0);
    ghost var markedEntries: set<SeverityEntry> := {};
    MarkedBelowNone(currentConfig, |currentConfig|);
    remapCount, errorCount, crashed := 0, 0, false;
    var i := 0;
    while i < |currentConfig|
      invariant 0 <= i <= |currentConfig|
      invariant tally == Replay(Start(db0), policy, Tasks(entries[..i]))
      invariant !tally.halted && !crashed
      invariant server.db == tally.db && remapCount == tally.remapCount && errorCount == tally.errorCount
      invariant forall k :: k in tally.marked ==> k < i
      invariant markedEntries == MarkedEntries(currentConfig, tally.marked)
      invariant forall e :: e in currentConfig ==> e.changed == (old(e.changed) || e in markedEntries)
    {
      ghost var next;
      remapCount, errorCount, crashed, next, markedEntries :=
        RemapAt(server, currentConfig, i, severities, options, db0, entries, tally, markedEntries, remapCount, errorCount);
      tally := next;
      if crashed {
        return;
      }
      i := i + 1;
    }
    assert entries[..|currentConfig|] == entries;
  }

  // ---------------------------------------------------------------------
  // Properties of a pass

  /** A pass without -c writes nothing, counts nothing and marks nothing. */
  lemma {:induction false} DryRunChangesNothing(tally: Tally, policy: Policy, tasks: seq<Task>)
    requires !policy.change
    ensures var r := Replay(tally, policy, tasks);
      && r.db == tally.db && r.remapCount == tally.remapCount
      && r.errorCount == tally.errorCount && r.marked == tally.marked
  {
    if tasks != [] {
      DryRunChangesNothing(tally, policy, tasks[..|tasks| - 1]);
    }
  }

  /** The number of reports of a successful write. */
  function ChangedCount(reports: seq<Report>): nat
  {
    if reports == [] then 0
    else
      var n := |reports| - 1;
      ChangedCount(reports[..n]) + (if Written(reports[n].outcome) then 1 else 0)
  }

  /** The number of reports the tool counts as errors. */
  function ErrorCount(reports: seq<Report>): nat
  {
    if reports == [] then 0
    else
      var n := |reports| - 1;
      ErrorCount(reports[..n]) + (if reports[n].outcome.WriteError? || reports[n].outcome.ChangedUndescribed? then 1 else 0)
  }

  /**
   * The counters and marks agree with the reports: RemapCount counts the
   * writes, ErrorCount the failed writes and failed log lines, an entry is
   * marked exactly when one of its fields was written, and the pass stopped
   * exactly when a lookup threw.
   */
  ghost predicate Accounted(tally: Tally)
  {
    && tally.remapCount == ChangedCount(tally.reports)
    && tally.errorCount == ErrorCount(tally.reports)
    && (forall i :: i in tally.marked <==> exists r :: r in tally.reports && r.task.index == i && Written(r.outcome))
    && (tally.halted <==> exists r :: r in tally.reports && r.outcome.MissingDescription?)
  }

  /** What one step adds to the counters, the marks and the reports, by outcome. */
  lemma StepEffect(tally: Tally, policy: Policy, t: Task)
    requires !tally.halted
    ensures var o := OutcomeOf(tally.db, policy, t);
      var next := Step(tally, policy, t);
      && next.reports == tally.reports + [Report(t, o)]
      && next.remapCount == tally.remapCount + (if Written(o) then 1 else 0)
      && next.errorCount == tally.errorCount + (if o.WriteError? || o.ChangedUndescribed? then 1 else 0)
      && next.marked == (if Written(o) then tally.marked + {t.index} else tally.marked)
      && next.halted == o.MissingDescription?
  {
  }

  lemma StepAccounted(tally: Tally, policy: Policy, t: Task)
    requires Accounted(tally)
    ensures Accounted(Step(tally, policy, t))
  {
    if !tally.halted {
      var o := OutcomeOf(tally.db, policy, t);
      var rep := Report(t, o);
      var next := Step(tally, policy, t);
      StepEffect(tally, policy, t);
      assert next.reports[..|next.reports| - 1] == tally.reports;
      assert ChangedCount(next.reports) == ChangedCount(tally.reports) + (if Written(o) then 1 else 0);
      assert ErrorCount(next.reports) == ErrorCount(tally.reports) + (if o.WriteError? || o.ChangedUndescribed? then 1 else 0);
      forall r
        ensures r in next.reports <==> r in tally.reports || r == rep
      {
      }
    }
  }

  lemma {:induction false} ReplayAccounted(tally: Tally, policy: Policy, tasks: seq<Task>)
    requires Accounted(tally)
    ensures Accounted(Replay(tally, policy, tasks))
  {
    if tasks != [] {
      var n := |tasks| - 1;
      ReplayAccounted(tally, policy, tasks[..n]);
      StepAccounted(Replay(tally, policy, tasks[..n]), policy, tasks[n]);
    }
  }

  /** RemapCount, ErrorCount, the Changed marks and the crash flag of a pass are what its reports say. */
  lemma RunAccounted(db: Db, entries: seq<EntryData>, policy: Policy)
    ensures Accounted(RemapRun(db, entries, policy))
  {
    ReplayAccounted(Start(db), policy, Tasks(entries));
  }

  /**
   * Reports follow the tasks in order, one each, until a lookup throws: a
   * failed write does not stop the pass.
   */
  lemma {:induction false} ReportsFollowTasks(tally: Tally, policy: Policy, tasks: seq<Task>)
    ensures var r := Replay(tally, policy, tasks);
      && |tally.reports| <= |r.reports| <= |tally.reports| + |tasks|
      && r.reports[..|tally.reports|] == tally.reports
      && (forall k :: |tally.reports| <= k < |r.reports| ==> r.reports[k].task == tasks[k - |tally.reports|])
      && (!r.halted ==> |r.reports| == |tally.reports| + |tasks|)
  {
    if tasks != [] {
      var n := |tasks| - 1;
      ReportsFollowTasks(tally, policy, tasks[..n]);
      var pre := Replay(tally, policy, tasks[..n]);
      if !pre.halted {
        var r := Step(pre, policy, tasks[n]);
        assert r.reports == pre.reports + [Report(tasks[n], OutcomeOf(pre.db, policy, tasks[n]))];
      }
    }
  }

  /**
   * The guard of a write against the store reached just before it: the live
   * value is still the recorded one, the property is writable, the server
   * accepts the write, and -c was given.
   */
  predicate WriteGuard(pre: Tally, policy: Policy, t: Task)
  {
    && pre.db.Read(Prop(t)) == Number(t.recorded)
    && Prop(t) in pre.db.writable && Prop(t) !in pre.db.rejected && policy.change
  }

  /** The k-th report is the decision for the k-th task against the store the pass reached just before it. */
  lemma ReportAt(tally: Tally, policy: Policy, tasks: seq<Task>, k: nat)
    requires tally.reports == []
    requires k < |tasks| && k < |Replay(tally, policy, tasks).reports|
    ensures Replay(tally, policy, tasks).reports[k] ==
            Report(tasks[k], OutcomeOf(Replay(tally, policy, tasks[..k]).db, policy, tasks[k]))
  {
    var pre := Replay(tally, policy, tasks[..k]);
    var mid := Replay(tally, policy, tasks[..k + 1]);
    assert tasks[..k + 1][..k] == tasks[..k];
    assert mid == Step(pre, policy, tasks[k]);
    assert tasks[..k + 1] + tasks[k + 1..] == tasks;
    ReplayAppend(tally, policy, tasks[..k + 1], tasks[k + 1..]);
    ReportsFollowTasks(tally, policy, tasks[..k]);
    if pre.halted {
      ReplayHalted(mid, policy, tasks[k + 1..]);
    } else {
      StepEffect(pre, policy, tasks[k]);
      ReportsFollowTasks(mid, policy, tasks[k + 1..]);
      assert mid.reports[k] == Report(tasks[k], OutcomeOf(pre.db, policy, tasks[k]));
    }
  }

  /** A field is written only when its guard held against the store reached just before its step. */
  lemma ReplayWriteGuard(tally: Tally, policy: Policy, tasks: seq<Task>)
    requires tally.reports == []
    ensures var r := Replay(tally, policy, tasks);
      forall k :: 0 <= k < |r.reports| && k < |tasks| && Written(r.reports[k].outcome) ==>
        WriteGuard(Replay(tally, policy, tasks[..k]), policy, tasks[k])
  {
    var r := Replay(tally, policy, tasks);
    forall k | 0 <= k < |r.reports| && k < |tasks| && Written(r.reports[k].outcome)
      ensures WriteGuard(Replay(tally, policy, tasks[..k]), policy, tasks[k])
    {
      ReportAt(tally, policy, tasks, k);
      OutcomeMeaning(Replay(tally, policy, tasks[..k]).db, policy, tasks[k]);
    }
  }

  /** Over a whole pass: every write happened with its guard holding against the store reached just before it. */
  lemma RunWriteGuard(db: Db, entries: seq<EntryData>, policy: Policy)
    ensures var tasks, run := Tasks(entries), RemapRun(db, entries, policy);
      forall k :: 0 <= k < |run.reports| && k < |tasks| && Written(run.reports[k].outcome) ==>
        WriteGuard(Replay(Start(db), policy, tasks[..k]), policy, tasks[k])
  {
    ReplayWriteGuard(Start(db), policy, Tasks(entries));
  }

  /** The tasks of a pass are exactly the (entry, field) pairs, each with its row and recorded value. */
  lemma TasksEnumerateFields(entries: seq<EntryData>, t: Task)
    ensures t in Tasks(entries) <==>
              exists i, j :: 0 <= i < |entries| && 0 <= j < |entries[i].fieldsValues|
                && t == Task(i, entries[i].rowNumber, entries[i].fieldsValues[j].0, entries[i].fieldsValues[j].1)
  {
    if t in Tasks(entries) {
      var i, j := TaskSource(entries, t);
    }
    if exists i, j :: 0 <= i < |entries| && 0 <= j < |entries[i].fieldsValues|
         && t == Task(i, entries[i].rowNumber, entries[i].fieldsValues[j].0, entries[i].fieldsValues[j].1)
    {
      var i, j :| 0 <= i < |entries| && 0 <= j < |entries[i].fieldsValues|
        && t == Task(i, entries[i].rowNumber, entries[i].fieldsValues[j].0, entries[i].fieldsValues[j].1);
      TaskIncluded(entries, i, j);
    }
  }

  /** Every task is a field of an entry, at that entry's position. */
  lemma {:induction false} TaskSource(entries: seq<EntryData>, t: Task) returns (i: nat, j: nat)
    requires t in Tasks(entries)
    ensures i < |entries| && j < |entries[i].fieldsValues|
    ensures t == Task(i, entries[i].rowNumber, entries[i].fieldsValues[j].0, entries[i].fieldsValues[j].1)
  {
    var n := |entries| - 1;
    if t in Tasks(entries[..n]) {
      i, j := TaskSource(entries[..n], t);
      assert entries[..n][i] == entries[i];
    } else {
      var last := EntryTasks(n, entries[n], entries[n].fieldsValues);
      var k :| 0 <= k < |last| && last[k] == t;
      i, j := n, k;
    }
  }

  /** Every field of every entry is a task. */
  lemma {:induction false} TaskIncluded(entries: seq<EntryData>, i: nat, j: nat)
    requires i < |entries| && j < |entries[i].fieldsValues|
    ensures Task(i, entries[i].rowNumber, entries[i].fieldsValues[j].0, entries[i].fieldsValues[j].1) in Tasks(entries)
  {
    var n := |entries| - 1;
    if i < n {
      assert entries[..n][i] == entries[i];
      TaskIncluded(entries[..n], i, j);
    } else {
      assert EntryTasks(n, entries[n], entries[n].fieldsValues)[j]
        == Task(i, entries[i].rowNumber, entries[i].fieldsValues[j].0, entries[i].fieldsValues[j].1);
    }
  }

  /** Every field of every entry is reported, in order, unless a lookup stops the pass. */
  lemma EveryFieldReported(db: Db, entries: seq<EntryData>, policy: Policy)
    ensures var r := RemapRun(db, entries, policy);
      && |r.reports| <= |Tasks(entries)|
      && (forall k :: 0 <= k < |r.reports| ==> r.reports[k].task == Tasks(entries)[k])
      && (!r.halted ==> |r.reports| == |Tasks(entries)|)
  {
    var tasks := Tasks(entries);
    var run := Replay(Start(db), policy, tasks);
    ReportsFollowTasks(Start(db), policy, tasks);
    assert |Start(db).reports| == 0;
    assert forall k :: 0 <= k < |run.reports| ==> run.reports[k].task == tasks[k - 0];
  }

  /** The level an outcome changes (or would change) the field to. */
  function Level(o: Outcome): Option<int>
  {
    match o
    case WouldChange(to) => Some(to)
    case Changed(to) => Some(to)
    case ChangedUndescribed(to) => Some(to)
    case _ => None
  }

  /**
   * What every report obeys: a field is acted on exactly when it has a
   * target, the level it goes to is that target, it is written (or would be)
   * only when writable, and it is written only with -c.
   */
  ghost predicate Respects(policy: Policy, writable: set<Property>, r: Report)
  {
    && (r.outcome != NotTargeted <==> Target(policy.mode, policy.levels, r.task.recorded).Some?)
    && (Level(r.outcome).Some? ==> Level(r.outcome) == Target(policy.mode, policy.levels, r.task.recorded))
    && (Written(r.outcome) || r.outcome.WouldChange? ==> Prop(r.task) in writable)
    && (Written(r.outcome) || r.outcome.WriteError? ==> policy.change)
    && (r.outcome.WouldChange? ==> !policy.change)
  }

  /** A pass never alters templates, writability or write permissions, and every report obeys the policy. */
  lemma {:induction false} ReplayRespects(tally: Tally, policy: Policy, tasks: seq<Task>)
    requires forall r :: r in tally.reports ==> Respects(policy, tally.db.writable, r)
    ensures var next := Replay(tally, policy, tasks);
      && next.db.inherits == tally.db.inherits && next.db.writable == tally.db.writable
      && next.db.rejected == tally.db.rejected
      && forall r :: r in next.reports ==> Respects(policy, tally.db.writable, r)
  {
    if tasks != [] {
      var n := |tasks| - 1;
      ReplayRespects(tally, policy, tasks[..n]);
      var pre := Replay(tally, policy, tasks[..n]);
      if !pre.halted {
        var rep := Report(tasks[n], OutcomeOf(pre.db, policy, tasks[n]));
        assert Step(pre, policy, tasks[n]).reports == pre.reports + [rep];
        assert Respects(policy, tally.db.writable, rep);
      }
    }
  }

  /**
   * Explicitly, only fields recorded at `from` are acted on, and only
   * towards `to`; automatically, a field goes to a configured level below
   * its recorded value. Either way a write needs -c and a writable property.
   */
  lemma RunRespectsPolicy(db: Db, entries: seq<EntryData>, policy: Policy)
    ensures var run := RemapRun(db, entries, policy);
      forall r :: r in run.reports ==>
        && Respects(policy, db.writable, r)
        && (policy.mode.Explicit? && r.outcome != NotTargeted ==>
              r.task.recorded == policy.mode.from && policy.mode.to > 0)
        && (policy.mode.Explicit? && Level(r.outcome).Some? ==> Level(r.outcome).value == policy.mode.to)
        && (policy.mode.Automatic? && Level(r.outcome).Some? ==>
              Level(r.outcome).value in policy.levels && 0 < Level(r.outcome).value < r.task.recorded)
  {
    ReplayRespects(Start(db), policy, Tasks(entries));
    forall r | r in RemapRun(db, entries, policy).reports
      ensures policy.mode.Explicit? && r.outcome != NotTargeted ==>
                r.task.recorded == policy.mode.from && policy.mode.to > 0
      ensures policy.mode.Explicit? && Level(r.outcome).Some? ==> Level(r.outcome).value == policy.mode.to
      ensures policy.mode.Automatic? && Level(r.outcome).Some? ==>
                Level(r.outcome).value in policy.levels && 0 < Level(r.outcome).value < r.task.recorded
    {
    }
  }

  /** The holders a pass's reports say were written. */
  function WrittenHolders(db: Db, reports: seq<Report>): set<Property>
  {
    set r | r in reports && Written(r.outcome) :: db.Holder(Prop(r.task))
  }

  /** Nothing else changes: a property whose holder no report wrote reads as before. */
  lemma {:induction false} ReplayTouchesOnlyWrittenHolders(tally: Tally, policy: Policy, tasks: seq<Task>)
    ensures var next := Replay(tally, policy, tasks);
      && next.db.inherits == tally.db.inherits
      && forall q :: tally.db.Holder(q) !in WrittenHolders(tally.db, next.reports) ==> next.db.Read(q) == tally.db.Read(q)
  {
    if tasks != [] {
      var n := |tasks| - 1;
      ReplayTouchesOnlyWrittenHolders(tally, policy, tasks[..n]);
      var pre := Replay(tally, policy, tasks[..n]);
      if !pre.halted {
        var rep := Report(tasks[n], OutcomeOf(pre.db, policy, tasks[n]));
        var next := Step(pre, policy, tasks[n]);
        assert next.reports == pre.reports + [rep];
        assert WrittenHolders(tally.db, pre.reports) <= WrittenHolders(tally.db, next.reports);
        if Written(rep.outcome) {
          assert tally.db.Holder(Prop(rep.task)) in WrittenHolders(tally.db, next.reports);
          forall q | tally.db.Holder(q) !in WrittenHolders(tally.db, next.reports)
            ensures next.db.Read(q) == tally.db.Read(q)
          {
            assert pre.db.Holder(q) != pre.db.Holder(Prop(rep.task));
          }
        }
      }
    }
  }

  lemma RunTouchesOnlyWrittenHolders(db: Db, entries: seq<EntryData>, policy: Policy)
    ensures var run := RemapRun(db, entries, policy);
      && run.db.inherits == db.inherits && run.db.writable == db.writable && run.db.rejected == db.rejected
      && forall q :: db.Holder(q) !in WrittenHolders(db, run.reports) ==> run.db.Read(q) == db.Read(q)
  {
    ReplayTouchesOnlyWrittenHolders(Start(db), policy, Tasks(entries));
    ReplayRespects(Start(db), policy, Tasks(entries));
  }

  /**
   * Template-shared properties are set once: after one field is written,
   * another field held by the same template and recorded at the same value
   * is seen as already changed and left alone.
   */
  lemma SharedTemplateWrittenOnce(tally: Tally, policy: Policy, first: Task, second: Task)
    requires policy.mode.Automatic? || policy.mode.from != policy.mode.to
    requires !tally.halted
    requires tally.db.Holder(Prop(first)) == tally.db.Holder(Prop(second))
    requires first.recorded == second.recorded
    requires OutcomeOf(tally.db, policy, first).Changed?
    ensures OutcomeOf(Step(tally, policy, first).db, policy, second) == AlreadyChanged(OutcomeOf(tally.db, policy, first).to)
  {
  }

  /** The field would be written against this store. */
  predicate Writes(db: Db, policy: Policy, t: Task)
  {
    Written(OutcomeOf(db, policy, t))
  }

  /** No target of a targeted task is the recorded value of a targeted task. */
  ghost predicate TargetsAvoidRecorded(policy: Policy, tasks: seq<Task>)
  {
    forall a, b :: a in tasks && b in tasks
      && Target(policy.mode, policy.levels, a.recorded).Some? && Target(policy.mode, policy.levels, b.recorded).Some?
      ==> Target(policy.mode, policy.levels, a.recorded).value != b.recorded
  }

  /** The outcome of a field depends on the store only through its value, writability and write permission. */
  lemma OutcomeLocal(db1: Db, db2: Db, policy: Policy, t: Task)
    requires db1.Read(Prop(t)) == db2.Read(Prop(t))
    requires db1.writable == db2.writable && db1.rejected == db2.rejected
    ensures OutcomeOf(db1, policy, t) == OutcomeOf(db2, policy, t)
  {
  }

  /**
   * One step keeps a task from writing again: either the step wrote that
   * task's holder with a level other than its recorded value, or it
   * left what it reads as it was.
   */
  lemma StepKeepsBlocked(pre: Tally, policy: Policy, sigma: Task, t: Task)
    requires !pre.halted
    requires t == sigma || !Writes(pre.db, policy, t)
    requires Target(policy.mode, policy.levels, sigma.recorded).Some? && Target(policy.mode, policy.levels, t.recorded).Some?
             ==> Target(policy.mode, policy.levels, sigma.recorded).value != t.recorded
    ensures !Writes(Step(pre, policy, sigma).db, policy, t)
  {
    var o := OutcomeOf(pre.db, policy, sigma);
    var next := Step(pre, policy, sigma);
    if Written(o) {
      var v := Level(o).value;
      assert next.db == pre.db.Write(Prop(sigma), v);
      if pre.db.Holder(Prop(t)) == pre.db.Holder(Prop(sigma)) {
        assert next.db.Holder(Prop(t)) == next.db.Holder(Prop(sigma));
        assert next.db.Read(Prop(t)) == Number(v);
      } else {
        OutcomeLocal(next.db, pre.db, policy, t);
      }
    } else {
      assert next.db == pre.db;
    }
  }

  /** After a pass that did not stop, no task of it would write again. */
  lemma {:induction false} FirstPassBlocksAll(tally: Tally, policy: Policy, tasks: seq<Task>)
    requires TargetsAvoidRecorded(policy, tasks)
    requires !Replay(tally, policy, tasks).halted
    ensures forall t :: t in tasks ==> !Writes(Replay(tally, policy, tasks).db, policy, t)
  {
    if tasks != [] {
      var n := |tasks| - 1;
      var init := tasks[..n];
      var sigma := tasks[n];
      assert tasks == init + [sigma];
      var pre := Replay(tally, policy, init);
      assert !pre.halted;
      assert TargetsAvoidRecorded(policy, init);
      FirstPassBlocksAll(tally, policy, init);
      forall t | t in tasks
        ensures !Writes(Step(pre, policy, sigma).db, policy, t)
      {
        StepKeepsBlocked(pre, policy, sigma, t);
      }
    }
  }

  /** A pass in which no task writes leaves the store, RemapCount and the marks as they were. */
  lemma {:induction false} BlockedPassIsIdle(tally: Tally, policy: Policy, tasks: seq<Task>)
    requires forall t :: t in tasks ==> !Writes(tally.db, policy, t)
    ensures var next := Replay(tally, policy, tasks);
      next.db == tally.db && next.remapCount == tally.remapCount && next.marked == tally.marked
  {
    if tasks != [] {
      var n := |tasks| - 1;
      assert forall t :: t in tasks[..n] ==> t in tasks;
      BlockedPassIsIdle(tally, policy, tasks[..n]);
      assert tasks[n] in tasks;
    }
  }

  /**
   * Idempotence: when no target equals a recorded value, running the same
   * pass again over the store the first one left writes nothing.
   */
  lemma SecondPassWritesNothing(db: Db, entries: seq<EntryData>, policy: Policy)
    requires TargetsAvoidRecorded(policy, Tasks(entries))
    requires !RemapRun(db, entries, policy).halted
    ensures var first := RemapRun(db, entries, policy);
      var second := RemapRun(first.db, entries, policy);
      second.db == first.db && second.remapCount == 0 && second.marked == {}
  {
    FirstPassBlocksAll(Start(db), policy, Tasks(entries));
    BlockedPassIsIdle(Start(RemapRun(db, entries, policy).db), policy, Tasks(entries));
  }

  /**
   * The targets of a pass have a description: automatic targets are
   * configured levels, and an explicit `to` is configured or never a target.
   */
  predicate DescribedTargets(policy: Policy)
  {
    policy.mode.Automatic? || policy.mode.to <= 0 || policy.mode.to in policy.levels
  }

  /** With described targets no level lookup throws, so the pass runs to the end. */
  lemma {:induction false} DescribedPassRunsToEnd(tally: Tally, policy: Policy, tasks: seq<Task>)
    requires DescribedTargets(policy)
    requires !tally.halted
    requires forall r :: r in tally.reports ==> !r.outcome.MissingDescription? && !r.outcome.ChangedUndescribed?
    ensures var next := Replay(tally, policy, tasks);
      && !next.halted
      && forall r :: r in next.reports ==> !r.outcome.MissingDescription? && !r.outcome.ChangedUndescribed?
  {
    if tasks != [] {
      var n := |tasks| - 1;
      DescribedPassRunsToEnd(tally, policy, tasks[..n]);
      var pre := Replay(tally, policy, tasks[..n]);
      var rep := Report(tasks[n], OutcomeOf(pre.db, policy, tasks[n]));
      assert Step(pre, policy, tasks[n]).reports == pre.reports + [rep];
    }
  }

  /**
   * An automatic pass over entries whose values are all unmapped (the
   * detector's output) completes, and a second such pass writes nothing.
   */
  lemma AutomaticPassIsFinal(db: Db, entries: seq<EntryData>, policy: Policy)
    requires policy.mode.Automatic?
    requires AllUnmapped(entries, policy.levels)
    ensures var first := RemapRun(db, entries, policy);
      var second := RemapRun(first.db, entries, policy);
      && !first.halted
      && second.db == first.db && second.remapCount == 0 && second.marked == {}
  {
    DescribedPassRunsToEnd(Start(db), policy, Tasks(entries));
    forall a, b | a in Tasks(entries) && b in Tasks(entries)
        && Target(policy.mode, policy.levels, a.recorded).Some? && Target(policy.mode, policy.levels, b.recorded).Some?
      ensures Target(policy.mode, policy.levels, a.recorded).value != b.recorded
    {
      var i, j := TaskSource(entries, b);
      assert entries[i] in entries && entries[i].fieldsValues[j] in entries[i].fieldsValues;
    }
    SecondPassWritesNothing(db, entries, policy);
  }

  /** An explicit pass from one level to a different one, once completed, leaves nothing for a second pass. */
  lemma ExplicitPassIsFinal(db: Db, entries: seq<EntryData>, policy: Policy)
    requires policy.mode.Explicit? && policy.mode.from != policy.mode.to
    requires !RemapRun(db, entries, policy).halted
    ensures var first := RemapRun(db, entries, policy);
      var second := RemapRun(first.db, entries, policy);
      second.db == first.db && second.remapCount == 0 && second.marked == {}
  {
    forall a, b | a in Tasks(entries) && b in Tasks(entries)
        && Target(policy.mode, policy.levels, a.recorded).Some? && Target(policy.mode, policy.levels, b.recorded).Some?
      ensures Target(policy.mode, policy.levels, a.recorded).value != b.recorded
    {
    }
    SecondPassWritesNothing(db, entries, policy);
  }

  /**
   * A negative -f with an unconfigured -t passes argument validation and
   * selects the explicit mode; a matching field then makes the dry run throw
   * on the level's description, and a -c run write the level and count an
   * error for the log line.
   */
  lemma NegativeFromEscapesTargetCheck()
    ensures var severities: Registry := [(0, "None"), (1, "Low")];
      var dry := Options(-1, 5, false, false, false, 1);
      var live := Options(-1, 5, true, false, false, 1);
      var db := Db(map[(7, "Severity") := Number(-1)], map[], {(7, "Severity")}, {});
      var task := Task(0, 7, "Severity", -1);
      && CheckRemapArguments(dry, severities).None?
      && ModeOf(dry) == Explicit(-1, 5)
      && OutcomeOf(db, PolicyOf(dry, severities), task) == MissingDescription(5)
      && OutcomeOf(db, PolicyOf(live, severities), task) == ChangedUndescribed(5)
  {
    var severities: Registry := [(0, "None"), (1, "Low")];
    assert Keys(severities) == [0, 1];
  }
}
