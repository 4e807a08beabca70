/**
 * One release cycle of a product: the rule that decides which observed
 * versions belong to it, and the update of its record by one observed
 * (version, date) pair.
 */
module ReleaseCycles {
  import opened Wrappers
  import opened VersionOrder

  /** A calendar date, as a day number. */
  type Date = int

  /** One entry of the observation feed. */
  datatype Observation = Observation(version: string, date: Date)

  /**
   * The fields of a cycle record that reconciliation reads or writes; every
   * other field of the record is passed through untouched.
   */
  datatype CycleData = CycleData(
    releaseCycle: string,
    releaseDate: Option<Date>,
    latest: Option<string>,
    latestReleaseDate: Option<Date>)

  /** The state of a cycle during one run: its record and its two run flags. */
  datatype CycleState = CycleState(name: string, data: CycleData, matched: bool, updated: bool)

  // ---------------------------------------------------------------------
  // Matching versions to cycles
  // ---------------------------------------------------------------------

  predicate IsAlpha(c: char)
  {
    'a' <= c <= 'z' || 'A' <= c <= 'Z'
  }

  predicate IsDigit(c: char)
  {
    '0' <= c <= '9'
  }

  /** The characters that may follow a cycle name inside a version of that cycle. */
  predicate IsBoundary(c: char)
  {
    c == '.' || c == '-' || c == '+' || IsAlpha(c)
  }

  /**
   * The cycle named cycleName includes version when the name is a prefix of
   * the version and either the two are equal or the character right after
   * the prefix is a boundary character.
   */
  predicate Includes(cycleName: string, version: string)
    ensures Includes(cycleName, version) ==> cycleName <= version
    ensures version == cycleName ==> Includes(cycleName, version)
  {
    if !(cycleName <= version) then
      false
    else if |version| == |cycleName| then
      true
    else
      IsBoundary(version[|cycleName|])
  }

  /** A version extends a cycle name exactly when what follows is empty or starts at a boundary. */
  lemma IncludesExtension(cycleName: string, suffix: string)
    ensures Includes(cycleName, cycleName + suffix) <==> suffix == [] || IsBoundary(suffix[0])
  {
  }

  /**
   * A digit right after a shorter cycle name marks a different cycle: no
   * version is included both by the shorter cycle and by the longer one
   * ("4.1" and "4.10" never share a version).
   */
  lemma DigitBoundarySeparatesCycles(shorter: string, longer: string, version: string)
    requires shorter < longer && IsDigit(longer[|shorter|])
    ensures !(Includes(shorter, version) && Includes(longer, version))
  {
  }

  /** The boundary rule on the cycle "4.1". */
  lemma IncludesExamples()
    ensures Includes("4.1", "4.1") && Includes("4.1", "4.1.2")
    ensures Includes("4.1", "4.1-final") && Includes("4.1", "4.1r")
    ensures Includes("17", "17.0.7+7")
    ensures !Includes("4.1", "4.10") && !Includes("4.1", "4.10.2") && !Includes("4.1", "4.2")
  {
    IncludesExtension("4.1", ".2");
    IncludesExtension("4.1", "-final");
    IncludesExtension("4.1", "r");
    IncludesExtension("17", ".0.7+7");
    IncludesExtension("4.1", "0");
    IncludesExtension("4.1", "0.2");
    assert "4.2"[2] != "4.1"[2];
  }

  // ---------------------------------------------------------------------
  // Updating a cycle record with one observation
  // ---------------------------------------------------------------------

  /** The release date is tightened when one is recorded and the observed date is strictly earlier. */
  predicate TightensReleaseDate(data: CycleData, date: Date)
  {
    data.releaseDate.Some? && date < data.releaseDate.value
  }

  /** The record after the release-date step of an update. */
  function WithReleaseDate(data: CycleData, date: Date): (r: CycleData)
    ensures r.releaseCycle == data.releaseCycle
    ensures r.latest == data.latest && r.latestReleaseDate == data.latestReleaseDate
    // the date is never created and never moves later
    ensures r.releaseDate.Some? <==> data.releaseDate.Some?
    ensures r.releaseDate.Some? ==>
              r.releaseDate.value <= data.releaseDate.value && r.releaseDate.value <= date &&
              (r.releaseDate.value == data.releaseDate.value || r.releaseDate.value == date)
    ensures r != data <==> TightensReleaseDate(data, date)
  {
    if TightensReleaseDate(data, date) then data.(releaseDate := Some(date)) else data
  }

  /** A recorded latest version is present only when it is a non-empty string. */
  predicate HasPriorLatest(data: CycleData)
  {
    data.latest.Some? && data.latest.value != ""
  }

  /**
   * The latest-version step adopts the observed pair when there is no prior
   * latest version; else when the observed version equals the recorded one
   * and the recorded date differs; else when the recorded version sorts
   * strictly before the observed one.
   */
  predicate AdoptsLatest(data: CycleData, version: string, date: Date, cmp: Comparator)
  {
    if !HasPriorLatest(data) then
      true
    else if data.latest.value == version && data.latestReleaseDate != Some(date) then
      true
    else
      cmp(data.latest.value, version) == Less
  }

  /** The record after the latest-version step of an update. */
  function WithLatest(data: CycleData, version: string, date: Date, cmp: Comparator): (r: CycleData)
    ensures r.releaseCycle == data.releaseCycle && r.releaseDate == data.releaseDate
    // the two latest fields are written together, and only with the observed pair
    ensures r == data || (r.latest == Some(version) && r.latestReleaseDate == Some(date))
    ensures !HasPriorLatest(data) ==> r.latest == Some(version) && r.latestReleaseDate == Some(date)
    ensures HasPriorLatest(data) && data.latest.value == version ==>
              r.latest == data.latest && r.latestReleaseDate == Some(date)
    ensures HasPriorLatest(data) && data.latest.value != version ==>
              (r != data <==> cmp(data.latest.value, version) == Less)
    // a recorded latest version is never cleared
    ensures HasPriorLatest(data) ==> r.latest.Some?
  {
    if AdoptsLatest(data, version, date, cmp) then
      data.(latest := Some(version), latestReleaseDate := Some(date))
    else
      data
  }

  /** The cycle after it was handed one observation. */
  function Observe(s: CycleState, version: string, date: Date, cmp: Comparator): (r: CycleState)
    ensures r.name == s.name && r.data.releaseCycle == s.data.releaseCycle
    ensures r.matched
    ensures s.updated ==> r.updated
    ensures r.updated <==> s.updated || TightensReleaseDate(s.data, date) || AdoptsLatest(s.data, version, date, cmp)
    // every change of the record raises the flag
    ensures r.data != s.data ==> r.updated
  {
    var afterDate := WithReleaseDate(s.data, date);
    CycleState(s.name, WithLatest(afterDate, version, date, cmp), true,
               s.updated || TightensReleaseDate(s.data, date) || AdoptsLatest(afterDate, version, date, cmp))
  }

  /**
   * Handing the same observation twice changes no field of the record the
   * second time; when the version is a non-empty string that does not sort
   * before itself, the second call also neither tightens nor adopts.
   */
  lemma ObserveTwice(s: CycleState, version: string, date: Date, cmp: Comparator)
    ensures Observe(Observe(s, version, date, cmp), version, date, cmp).data == Observe(s, version, date, cmp).data
    ensures version != "" && cmp(version, version) != Less ==>
              var t := Observe(s, version, date, cmp);
              !TightensReleaseDate(t.data, date) && !AdoptsLatest(t.data, version, date, cmp)
  {
  }

  /** An observation that cannot be compared with the recorded latest version leaves it alone. */
  lemma IncomparableKeepsLatest(s: CycleState, version: string, date: Date, cmp: Comparator)
    requires HasPriorLatest(s.data) && s.data.latest.value != version
    requires cmp(s.data.latest.value, version) == Invalid
    ensures var r := Observe(s, version, date, cmp);
            r.data.latest == s.data.latest && r.data.latestReleaseDate == s.data.latestReleaseDate
  {
  }

  // ---------------------------------------------------------------------
  // A cycle handed a sequence of observations
  // ---------------------------------------------------------------------

  /** The cycle after it was handed the observations in order. */
  function RunCycle(s: CycleState, obs: seq<Observation>, cmp: Comparator): (r: CycleState)
    ensures r.name == s.name && r.data.releaseCycle == s.data.releaseCycle
    ensures |obs| > 0 ==> r.matched
    ensures s.updated ==> r.updated
    decreases |obs|
  {
    if obs == [] then
      s
    else
      var last := obs[|obs| - 1];
      Observe(RunCycle(s, obs[..|obs| - 1], cmp), last.version, last.date, cmp)
  }

  /**
   * Observations whose versions increase step by step, starting above the
   * recorded latest version (or with none recorded), leave the last of them
   * as the latest version, with its date.
   */
  lemma {:induction false} LatestFollowsIncreasingVersions(s: CycleState, obs: seq<Observation>, cmp: Comparator)
    requires |obs| > 0
    requires !HasPriorLatest(s.data) || cmp(s.data.latest.value, obs[0].version) == Less
    requires forall i :: 0 < i < |obs| ==> cmp(obs[i - 1].version, obs[i].version) == Less
    ensures RunCycle(s, obs, cmp).data.latest == Some(obs[|obs| - 1].version)
    ensures RunCycle(s, obs, cmp).data.latestReleaseDate == Some(obs[|obs| - 1].date)
  {
    var n := |obs|;
    var prefix := obs[..n - 1];
    if n > 1 {
      LatestFollowsIncreasingVersions(s, prefix, cmp);
      assert prefix[n - 2] == obs[n - 2];
    }
  }

  /**
   * When no version is recorded or the recorded one sorts below the first
   * observation, and every later observation differs from the first one and
   * does not sort above it (it sorts below it, or the two are incomparable),
   * the first observation stays the latest version.
   */
  lemma {:induction false} LatestKeepsFirstOfDecreasingVersions(s: CycleState, obs: seq<Observation>, cmp: Comparator)
    requires |obs| > 0 && obs[0].version != ""
    requires !HasPriorLatest(s.data) || cmp(s.data.latest.value, obs[0].version) == Less
    requires forall i :: 0 < i < |obs| ==>
               obs[i].version != obs[0].version && cmp(obs[0].version, obs[i].version) != Less
    ensures RunCycle(s, obs, cmp).data.latest == Some(obs[0].version)
    ensures RunCycle(s, obs, cmp).data.latestReleaseDate == Some(obs[0].date)
  {
    var n := |obs|;
    var prefix := obs[..n - 1];
    if n > 1 {
      assert prefix[0] == obs[0];
      LatestKeepsFirstOfDecreasingVersions(s, prefix, cmp);
    }
  }

  /**
   * A cycle without a release date never gets one; a recorded one ends as
   * the earliest of itself and the observed dates.
   */
  lemma {:induction false} ReleaseDateIsEarliest(s: CycleState, obs: seq<Observation>, cmp: Comparator)
    ensures var r := RunCycle(s, obs, cmp);
            r.data.releaseDate.Some? <==> s.data.releaseDate.Some?
    ensures var r := RunCycle(s, obs, cmp);
            r.data.releaseDate.Some? ==>
              r.data.releaseDate.value <= s.data.releaseDate.value &&
              (forall i :: 0 <= i < |obs| ==> r.data.releaseDate.value <= obs[i].date) &&
              (r.data.releaseDate.value == s.data.releaseDate.value ||
               exists i :: 0 <= i < |obs| && r.data.releaseDate.value == obs[i].date)
    decreases |obs|
  {
    if obs != [] {
      var n := |obs|;
      var prefix := obs[..n - 1];
      ReleaseDateIsEarliest(s, prefix, cmp);
      var before := RunCycle(s, prefix, cmp);
      var r := RunCycle(s, obs, cmp);
      assert r == Observe(before, obs[n - 1].version, obs[n - 1].date, cmp);
      if r.data.releaseDate.Some? {
        forall i | 0 <= i < n
          ensures r.data.releaseDate.value <= obs[i].date
        {
          if i < n - 1 {
            assert obs[i] == prefix[i];
          }
        }
        if r.data.releaseDate.value != s.data.releaseDate.value {
          if r.data.releaseDate.value == before.data.releaseDate.value {
            var j :| 0 <= j < n - 1 && before.data.releaseDate.value == prefix[j].date;
            assert obs[j] == prefix[j];
          } else {
            assert r.data.releaseDate.value == obs[n - 1].date;
          }
        }
      }
    }
  }

  // ---------------------------------------------------------------------
  // The cycle object
  // ---------------------------------------------------------------------

  /** One release cycle of a product, whose record is updated in place. */
  class ReleaseCycle {
    const productName: string
    const name: string
    var data: CycleData
    var matched: bool
    var updated: bool

    ghost function View(): CycleState
      reads this
    {
      CycleState(name, data, matched, updated)
    }

    constructor (productName: string, data: CycleData)
      ensures this.productName == productName
      ensures View() == CycleState(data.releaseCycle, data, false, false)
    {
      this.productName := productName;
      this.data := data;
      this.name := data.releaseCycle;
      this.matched := false;
      this.updated := false;
    }

    /** Hands one observation to this cycle. */
    method UpdateWith(version: string, date: Date, cmp: Comparator)
      modifies this
      ensures View() == Observe(old(View()), version, date, cmp)
    {
      matched := true;
      UpdateReleaseDate(date);
      UpdateLatest(version, date, cmp);
    }

    /** The recorded latest version, if any. */
    method Latest() returns (r: Option<string>)
      ensures r == data.latest
    {
      r := data.latest;
    }

    method UpdateReleaseDate(date: Date)
      modifies this
      ensures data == WithReleaseDate(old(data), date)
      ensures updated == (old(updated) || TightensReleaseDate(old(data), date))
      ensures matched == old(matched)
    {
      var releaseDate := data.releaseDate;
      if releaseDate.Some? && releaseDate.value > date {
        data := data.(releaseDate := Some(date));
        updated := true;
      }
    }

    method UpdateLatest(version: string, date: Date, cmp: Comparator)
      modifies this
      ensures data == WithLatest(old(data), version, date, cmp)
      ensures updated == (old(updated) || AdoptsLatest(old(data), version, date, cmp))
      ensures matched == old(matched)
    {
      var oldLatest := data.latest;
      var oldLatestDate := data.latestReleaseDate;

      var updateDetected := false;
      if oldLatest.None? || oldLatest.value == "" {
        updateDetected := true;
      } else if oldLatest.value == version && oldLatestDate != Some(date) {
        updateDetected := true;
      } else if cmp(oldLatest.value, version) == Less {
        updateDetected := true;
      }

      if updateDetected {
        data := data.(latest := Some(version), latestReleaseDate := Some(date));
        updated := true;
      }
    }
  }
}
