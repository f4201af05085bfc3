/**
 * The severity level registry: the levels configured in CSeverity, in the
 * order the query returned them, with level 0 ("None") added when missing;
 * the checks of the -f/-t arguments against it; the membership test of the
 * unmapped detector and the automatic policy's choice of a target level.
 */
module Severities {
  import opened Wrappers
  import opened OrderedMaps
  import opened Database
  import opened Config

  /** level -> description, in insertion order. */
  type Registry = OrderedMap<int, string>

  /** The rows of "SELECT Priority, Description FROM CSeverity", or nothing when it found none or failed. */
  function LoadedSeverities(result: QueryResult<(int, string)>): Registry
  {
    if result.Succeeded? then result.rows else []
  }

  /** QueryDatabaseForSeverities: one Add per row, in row order. */
  method QueryDatabaseForSeverities(result: QueryResult<(int, string)>) returns (severities: Registry)
    requires result.Succeeded? ==> DistinctKeys(result.rows)
    ensures severities == LoadedSeverities(result)
    ensures DistinctKeys(severities)
  {
    severities := [];
    if result.Succeeded? {
      var rows := result.rows;
      var i := 0;
      while i < |rows|
        invariant 0 <= i <= |rows|
        invariant severities == rows[..i]
      {
        assert forall j :: 0 <= j < i ==> Keys(severities)[j] == rows[j].0;
        severities := Add(severities, rows[i].0, rows[i].1);
        i := i + 1;
      }
      assert rows[..|rows|] == rows;
    }
  }

  /**
   * Level 0 is not an error, so it is added as "None" when CSeverity does not
   * define it. It goes last, after the queried levels.
   */
  function WithZeroSeverity(severities: Registry): (r: Registry)
    requires DistinctKeys(severities)
    ensures DistinctKeys(r) && 0 in Keys(r)
    ensures forall k :: k in Keys(r) <==> k in Keys(severities) || k == 0
    ensures |severities| <= |r| && r[..|severities|] == severities
    ensures 0 in Keys(severities) ==> |r| == |severities|
    ensures 0 !in Keys(severities) ==> |r| == |severities| + 1 && r[|severities|] == (0, "None")
  {
    if 0 in Keys(severities) then severities else Add(severities, 0, "None")
  }

  /** Why a run stops before schema discovery. */
  datatype ArgumentError = OnlyOneOfFromTo | TargetNotConfigured(level: int)

  /** The checks on -f/-t made after the registry is loaded. */
  function CheckRemapArguments(options: Options, severities: Registry): (r: Option<ArgumentError>)
    ensures r == Some(OnlyOneOfFromTo) <==> (options.remapFrom == 0) != (options.remapTo == 0)
    ensures r == Some(TargetNotConfigured(options.remapTo)) <==>
              options.remapFrom > 0 && options.remapTo > 0 && options.remapTo !in Keys(severities)
    ensures r.None? || r == Some(OnlyOneOfFromTo) || r == Some(TargetNotConfigured(options.remapTo))
  {
    if (options.remapFrom == 0 || options.remapTo == 0) && (options.remapFrom != 0 || options.remapTo != 0) then
      Some(OnlyOneOfFromTo)
    else if options.remapFrom > 0 && options.remapTo > 0 && options.remapTo !in Keys(severities) then
      Some(TargetNotConfigured(options.remapTo))
    else
      None
  }

  /** The membership test of the unmapped detector: a loop over the keys that breaks on a match. */
  method IsConfigured(severities: Registry, value: int) returns (found: bool)
    ensures found <==> value in Keys(severities)
  {
    found := false;
    var levels := Keys(severities);
    var i := 0;
    while i < |levels|
      invariant 0 <= i <= |levels|
      invariant value !in levels[..i]
    {
      if levels[i] == value {
        found := true;
        break;
      }
      i := i + 1;
    }
    assert levels[..|levels|] == levels;
  }

  /**
   * The automatic policy's target for a recorded value: walking the levels
   * from the last added to the first, the first one that is nonzero and below
   * the value; None when there is none.
   */
  function AutomaticTarget(levels: seq<int>, value: int): (r: Option<int>)
    ensures r.Some? ==> r.value in levels && r.value != 0 && r.value < value
    ensures r.None? <==> forall k :: k in levels ==> k == 0 || k >= value
  {
    if levels == [] then None
    else
      var n := |levels| - 1;
      assert levels == levels[..n] + [levels[n]];
      if levels[n] != 0 && levels[n] < value then Some(levels[n])
      else AutomaticTarget(levels[..n], value)
  }

  /**
   * The reverse scan over `severities.Keys` that breaks at the first match;
   * 0 (the initial `foundseverity`) when nothing matches.
   */
  method ScanForTarget(severities: Registry, value: int) returns (foundseverity: int)
    ensures AutomaticTarget(Keys(severities), value) == if foundseverity == 0 then None else Some(foundseverity)
  {
    foundseverity := 0;
    var levels := Keys(severities);
    var i := |levels|;
    assert levels[..i] == levels;
    while i > 0
      invariant 0 <= i <= |levels|
      invariant AutomaticTarget(levels, value) == AutomaticTarget(levels[..i], value)
    {
      var severity := levels[i - 1];
      assert levels[..i][..i - 1] == levels[..i - 1];
      if severity != 0 && severity < value {
        foundseverity := severity;
        break;
      }
      i := i - 1;
    }
  }

  /** The nonzero levels appear in increasing order (0 may sit anywhere). */
  ghost predicate Ascending(levels: seq<int>)
  {
    forall i, j :: 0 <= i < j < |levels| && levels[i] != 0 && levels[j] != 0 ==> levels[i] < levels[j]
  }

  /** `k` is the greatest nonzero level strictly below `value`. */
  ghost predicate IsGreatestBelow(levels: seq<int>, value: int, k: int)
  {
    && k in levels && k != 0 && k < value
    && forall k' :: k' in levels && k' != 0 && k' < value ==> k' <= k
  }

  /**
   * When CSeverity returns its levels in ascending order, the reverse scan
   * picks the greatest nonzero level below the value, and nothing else.
   */
  lemma {:induction false} AscendingLevelsGiveGreatestBelow(levels: seq<int>, value: int, k: int)
    requires Ascending(levels)
    ensures AutomaticTarget(levels, value) == Some(k) <==> IsGreatestBelow(levels, value, k)
  {
    if levels != [] {
      var n := |levels| - 1;
      var init, last := levels[..n], levels[n];
      assert levels == init + [last];
      if last != 0 && last < value {
        LastLevelIsGreatestBelow(levels, value);
        if IsGreatestBelow(levels, value, k) {
          GreatestBelowIsUnique(levels, value, k, last);
        }
      } else {
        assert Ascending(init);
        AscendingLevelsGiveGreatestBelow(init, value, k);
        GreatestBelowIgnoresLast(levels, value, k);
      }
    }
  }

  lemma LastLevelIsGreatestBelow(levels: seq<int>, value: int)
    requires Ascending(levels) && levels != []
    requires levels[|levels| - 1] != 0 && levels[|levels| - 1] < value
    ensures IsGreatestBelow(levels, value, levels[|levels| - 1])
  {
    var n := |levels| - 1;
    forall k' | k' in levels && k' != 0 && k' < value
      ensures k' <= levels[n]
    {
      var i :| 0 <= i < |levels| && levels[i] == k';
    }
  }

  lemma GreatestBelowIsUnique(levels: seq<int>, value: int, a: int, b: int)
    requires IsGreatestBelow(levels, value, a) && IsGreatestBelow(levels, value, b)
    ensures a == b
  {
  }

  lemma GreatestBelowIgnoresLast(levels: seq<int>, value: int, k: int)
    requires levels != []
    requires levels[|levels| - 1] == 0 || levels[|levels| - 1] >= value
    ensures IsGreatestBelow(levels, value, k) <==> IsGreatestBelow(levels[..|levels| - 1], value, k)
  {
    var n := |levels| - 1;
    assert levels == levels[..n] + [levels[n]];
    assert forall k' :: k' in levels <==> k' in levels[..n] || k' == levels[n];
  }

  /** Adding the synthesized 0 keeps the queried order ascending. */
  lemma WithZeroKeepsAscending(severities: Registry)
    requires DistinctKeys(severities) && Ascending(Keys(severities))
    ensures Ascending(Keys(WithZeroSeverity(severities)))
  {
  }

  /**
   * Levels that arrive out of order make the scan stop early: with levels
   * 2 then 1 (and the synthesized 0), value 3 gets level 1 although 2 is the
   * greatest level below it.
   */
  lemma UnorderedLevelsPickLowerLevel()
    ensures AutomaticTarget([2, 1, 0], 3) == Some(1)
    ensures IsGreatestBelow([2, 1, 0], 3, 2)
  {
    assert [2, 1, 0][..2] == [2, 1];
  }

  /** Registry {1 Low, 2 Med, 4 High} with 0 added: the unmapped value 3 goes to 2. */
  lemma SnapDownExample()
    ensures AutomaticTarget(Keys(WithZeroSeverity([(1, "Low"), (2, "Med"), (4, "High")])), 3) == Some(2)
  {
    var r := WithZeroSeverity([(1, "Low"), (2, "Med"), (4, "High")]);
    assert Keys(r) == [1, 2, 4, 0];
    assert Ascending(Keys(r));
    AscendingLevelsGiveGreatestBelow(Keys(r), 3, 2);
  }
}
