/**
 * The unmapped detector: every (entry, field) whose value is not a
 * configured level is copied into a new single-field entry.
 */
module Detector {
  import opened OrderedMaps
  import opened Severities
  import opened Inventory

  /** The single-field copy made for one unmapped value: same table, row and FullName. */
  function Fork(entry: EntryData, field: (string, int)): (f: EntryData)
    ensures f.fieldsValues == [field] && Keys(f.fieldsValues) == [field.0]
    ensures f.(fieldsValues := entry.fieldsValues) == entry
  {
    EntryData(entry.tableName, entry.rowNumber, [field], entry.fullName)
  }

  /** The copies made for the given fields of one entry, in field order. */
  function UnmappedFields(entry: EntryData, fields: OrderedMap<string, int>, levels: seq<int>): seq<EntryData>
  {
    if fields == [] then []
    else
      var n := |fields| - 1;
      var forks := UnmappedFields(entry, fields[..n], levels);
      if fields[n].1 in levels then forks else forks + [Fork(entry, fields[n])]
  }

  /** The copies made for all entries, entry by entry. */
  function Unmapped(entries: seq<EntryData>, levels: seq<int>): seq<EntryData>
  {
    if entries == [] then []
    else
      var n := |entries| - 1;
      Unmapped(entries[..n], levels) + UnmappedFields(entries[n], entries[n].fieldsValues, levels)
  }

  /** The inner loop over one entry's fields: a fresh single-field copy for each unmapped value, in field order. */
  method UnmappedOfEntry(entry: SeverityEntry, severities: Registry) returns (forks: seq<SeverityEntry>)
    ensures Snapshot(forks) == UnmappedFields(entry.Data(), entry.fieldsValues, Keys(severities))
    ensures forall e :: e in forks ==> fresh(e) && !e.changed
  {
    ghost var levels := Keys(severities);
    forks := [];
    var j := 0;
    while j < |entry.fieldsValues|
      invariant 0 <= j <= |entry.fieldsValues|
      invariant Snapshot(forks) == UnmappedFields(entry.Data(), entry.fieldsValues[..j], levels)
      invariant forall e :: e in forks ==> fresh(e) && !e.changed
    {
      var (fieldname, value) := entry.fieldsValues[j];
      assert entry.fieldsValues[..j + 1][..j] == entry.fieldsValues[..j];
      var found := IsConfigured(severities, value);
      if !found {
        var unmappedEntry := new SeverityEntry(EntryData(entry.tableName, entry.rowNumber, [(fieldname, value)], entry.fullName));
        SnapshotAppend(forks, [unmappedEntry]);
        forks := forks + [unmappedEntry];
      }
      j := j + 1;
    }
    assert entry.fieldsValues[..|entry.fieldsValues|] == entry.fieldsValues;
  }

  /**
   * SearchConfigurationForUnmapped: the output lists fresh entries whose
   * contents are exactly Unmapped(...) of the input.
   */
  method SearchConfigurationForUnmapped(currentConfig: seq<SeverityEntry>, severities: Registry)
    returns (unmapped: seq<SeverityEntry>)
    ensures Snapshot(unmapped) == Unmapped(Snapshot(currentConfig), Keys(severities))
    ensures forall e :: e in unmapped ==> fresh(e) && !e.changed
  {
    ghost var levels := Keys(severities);
    ghost var entries := Snapshot(currentConfig);
    unmapped := [];
    var i := 0;
    while i < |currentConfig|
      invariant 0 <= i <= |currentConfig|
      invariant Snapshot(unmapped) == Unmapped(entries[..i], levels)
      invariant forall e :: e in unmapped ==> fresh(e) && !e.changed
    {
      assert entries[..i + 1][..i] == entries[..i];
      var forks := UnmappedOfEntry(currentConfig[i], severities);
      SnapshotAppend(unmapped, forks);
      unmapped := unmapped + forks;
      i := i + 1;
    }
    assert entries[..|currentConfig|] == entries;
  }

  lemma {:induction false} UnmappedFieldsMembership(entry: EntryData, fields: OrderedMap<string, int>, levels: seq<int>, d: EntryData)
    ensures d in UnmappedFields(entry, fields, levels) <==>
              exists j :: 0 <= j < |fields| && fields[j].1 !in levels && d == Fork(entry, fields[j])
  {
    if fields != [] {
      var n := |fields| - 1;
      UnmappedFieldsMembership(entry, fields[..n], levels, d);
      assert forall j :: 0 <= j < n ==> fields[..n][j] == fields[j];
    }
  }

  /**
   * The detector's output holds a copy exactly for each (entry, field) whose
   * value is not a configured level, carrying only that field and value and
   * the entry's table, row and FullName; a configured value yields nothing.
   */
  lemma {:induction false} UnmappedMembership(entries: seq<EntryData>, levels: seq<int>, d: EntryData)
    ensures d in Unmapped(entries, levels) <==>
              exists i, j :: 0 <= i < |entries| && 0 <= j < |entries[i].fieldsValues|
                && entries[i].fieldsValues[j].1 !in levels && d == Fork(entries[i], entries[i].fieldsValues[j])
  {
    if d in Unmapped(entries, levels) {
      var i, j := UnmappedHasSource(entries, levels, d);
    }
    if exists i, j :: 0 <= i < |entries| && 0 <= j < |entries[i].fieldsValues|
         && entries[i].fieldsValues[j].1 !in levels && d == Fork(entries[i], entries[i].fieldsValues[j])
    {
      var i, j :| 0 <= i < |entries| && 0 <= j < |entries[i].fieldsValues|
        && entries[i].fieldsValues[j].1 !in levels && d == Fork(entries[i], entries[i].fieldsValues[j]);
      UnmappedIncludes(entries, levels, i, j);
    }
  }

  /** Every output entry is the fork of an unmapped (entry, field) pair. */
  lemma {:induction false} UnmappedHasSource(entries: seq<EntryData>, levels: seq<int>, d: EntryData)
    returns (i: nat, j: nat)
    requires d in Unmapped(entries, levels)
    ensures i < |entries| && j < |entries[i].fieldsValues|
    ensures entries[i].fieldsValues[j].1 !in levels && d == Fork(entries[i], entries[i].fieldsValues[j])
  {
    var n := |entries| - 1;
    var last := entries[n];
    if d in Unmapped(entries[..n], levels) {
      i, j := UnmappedHasSource(entries[..n], levels, d);
      assert entries[..n][i] == entries[i];
    } else {
      UnmappedFieldsMembership(last, last.fieldsValues, levels, d);
      var k :| 0 <= k < |last.fieldsValues| && last.fieldsValues[k].1 !in levels && d == Fork(last, last.fieldsValues[k]);
      i, j := n, k;
    }
  }

  /** Every unmapped (entry, field) pair has its fork in the output. */
  lemma {:induction false} UnmappedIncludes(entries: seq<EntryData>, levels: seq<int>, i: nat, j: nat)
    requires i < |entries| && j < |entries[i].fieldsValues|
    requires entries[i].fieldsValues[j].1 !in levels
    ensures Fork(entries[i], entries[i].fieldsValues[j]) in Unmapped(entries, levels)
  {
    var n := |entries| - 1;
    var d := Fork(entries[i], entries[i].fieldsValues[j]);
    if i < n {
      assert entries[..n][i] == entries[i];
      UnmappedIncludes(entries[..n], levels, i, j);
    } else {
      UnmappedFieldsMembership(entries[n], entries[n].fieldsValues, levels, d);
    }
  }

  /** One copy per unmapped (entry, field) pair: the output is exactly as long as the number of such pairs. */
  function UnmappedCount(entries: seq<EntryData>, levels: seq<int>): nat
  {
    if entries == [] then 0
    else
      var n := |entries| - 1;
      UnmappedCount(entries[..n], levels) + |set j | 0 <= j < |entries[n].fieldsValues| && entries[n].fieldsValues[j].1 !in levels|
  }

  lemma {:induction false} UnmappedFieldsCount(entry: EntryData, fields: OrderedMap<string, int>, levels: seq<int>)
    ensures |UnmappedFields(entry, fields, levels)| == |set j | 0 <= j < |fields| && fields[j].1 !in levels|
  {
    if fields != [] {
      var n := |fields| - 1;
      UnmappedFieldsCount(entry, fields[..n], levels);
      var before := set j | 0 <= j < n && fields[..n][j].1 !in levels;
      var after := set j | 0 <= j < |fields| && fields[j].1 !in levels;
      if fields[n].1 in levels {
        assert after == before;
      } else {
        assert after == before + {n};
      }
    }
  }

  lemma {:induction false} UnmappedLength(entries: seq<EntryData>, levels: seq<int>)
    ensures |Unmapped(entries, levels)| == UnmappedCount(entries, levels)
  {
    if entries != [] {
      var n := |entries| - 1;
      UnmappedLength(entries[..n], levels);
      UnmappedFieldsCount(entries[n], entries[n].fieldsValues, levels);
    }
  }

  /** Every value left in the detector's output is unmapped: the premise of the automatic pass. */
  predicate AllUnmapped(entries: seq<EntryData>, levels: seq<int>)
  {
    forall e, f :: e in entries && f in e.fieldsValues ==> f.1 !in levels
  }

  lemma UnmappedOutputIsUnmapped(entries: seq<EntryData>, levels: seq<int>)
    ensures AllUnmapped(Unmapped(entries, levels), levels)
    ensures forall d :: d in Unmapped(entries, levels) ==> |d.fieldsValues| == 1
  {
    forall d | d in Unmapped(entries, levels)
      ensures |d.fieldsValues| == 1 && d.fieldsValues[0].1 !in levels
    {
      UnmappedMembership(entries, levels, d);
    }
  }
}
