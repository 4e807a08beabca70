/**
 * A product: its ordered release cycles, the observation feed, the run's
 * "updated" flag and the versions that matched no cycle.
 */
module Products {
  import opened Wrappers
  import opened VersionOrder
  import opened ReleaseCycles

  /**
   * The state of a product during one run.  The versions that matched no
   * cycle form a map whose keys are also listed in insertion order.
   */
  datatype ProductState = ProductState(
    cycles: seq<CycleState>,
    updated: bool,
    unmatchedOrder: seq<string>,
    unmatched: map<string, Date>)

  /** The keys of m, each listed once, in the order of order. */
  ghost predicate OrderedKeys(order: seq<string>, m: map<string, Date>)
  {
    && (forall i, j :: 0 <= i < j < |order| ==> order[i] != order[j])
    && (forall v :: v in m <==> v in order)
  }

  /** Some cycle includes version. */
  ghost predicate AnyIncludes(cycles: seq<CycleState>, version: string)
  {
    exists i :: 0 <= i < |cycles| && Includes(cycles[i].name, version)
  }

  /** The product built from its cycle records, before any observation. */
  ghost function Initial(records: seq<CycleData>): (p: ProductState)
    ensures |p.cycles| == |records|
    ensures forall i :: 0 <= i < |records| ==>
              p.cycles[i].name == records[i].releaseCycle && p.cycles[i].data == records[i] &&
              !p.cycles[i].matched && !p.cycles[i].updated
    ensures !p.updated && OrderedKeys(p.unmatchedOrder, p.unmatched) && p.unmatched == map[]
  {
    ProductState(
      seq(|records|, i requires 0 <= i < |records| => CycleState(records[i].releaseCycle, records[i], false, false)),
      false, [], map[])
  }

  /** A cycle after an observation was offered to it: handed over only when the cycle includes the version. */
  ghost function Dispatch(c: CycleState, version: string, date: Date, cmp: Comparator): CycleState
  {
    if Includes(c.name, version) then Observe(c, version, date, cmp) else c
  }

  /** The product after one observation was processed. */
  ghost function Process(p: ProductState, version: string, date: Date, cmp: Comparator): (r: ProductState)
    ensures |r.cycles| == |p.cycles|
    ensures forall i :: 0 <= i < |p.cycles| ==> r.cycles[i].name == p.cycles[i].name
    // exactly the including cycles are handed the observation
    ensures forall i :: 0 <= i < |p.cycles| ==>
              if Includes(p.cycles[i].name, version) then r.cycles[i] == Observe(p.cycles[i], version, date, cmp)
              else r.cycles[i] == p.cycles[i]
    // an unmatched observation is recorded, overwriting, and touches no cycle
    ensures !AnyIncludes(p.cycles, version) ==>
              r.cycles == p.cycles && r.unmatched == p.unmatched[version := date]
    ensures AnyIncludes(p.cycles, version) ==>
              r.unmatched == p.unmatched && r.unmatchedOrder == p.unmatchedOrder
    ensures OrderedKeys(p.unmatchedOrder, p.unmatched) ==> OrderedKeys(r.unmatchedOrder, r.unmatched)
    // the product flag is sticky and follows the flags of the including cycles
    ensures r.updated <==>
              p.updated || exists i :: 0 <= i < |p.cycles| && Includes(p.cycles[i].name, version) && r.cycles[i].updated
  {
    var cycles := seq(|p.cycles|, i requires 0 <= i < |p.cycles| => Dispatch(p.cycles[i], version, date, cmp));
    var updated := p.updated || exists i :: 0 <= i < |p.cycles| && Includes(p.cycles[i].name, version) && cycles[i].updated;
    if AnyIncludes(p.cycles, version) then
      ProductState(cycles, updated, p.unmatchedOrder, p.unmatched)
    else
      var order := if version in p.unmatchedOrder then p.unmatchedOrder else p.unmatchedOrder + [version];
      ProductState(cycles, updated, order, p.unmatched[version := date])
  }

  /** The product after the observations of feed were processed in order. */
  ghost function Reconcile(p: ProductState, feed: seq<Observation>, cmp: Comparator): (r: ProductState)
    ensures |r.cycles| == |p.cycles|
    ensures forall i :: 0 <= i < |p.cycles| ==> r.cycles[i].name == p.cycles[i].name
    ensures p.updated ==> r.updated
    ensures OrderedKeys(p.unmatchedOrder, p.unmatched) ==> OrderedKeys(r.unmatchedOrder, r.unmatched)
    decreases |feed|
  {
    if feed == [] then
      p
    else
      var last := feed[|feed| - 1];
      Process(Reconcile(p, feed[..|feed| - 1], cmp), last.version, last.date, cmp)
  }

  /** Some cycle among the first n includes version. */
  ghost predicate IncludedAmong(cycles: seq<CycleState>, n: nat, version: string)
    requires n <= |cycles|
  {
    exists k :: 0 <= k < n && Includes(cycles[k].name, version)
  }

  /** Some cycle among the first n includes version and is flagged once handed it. */
  ghost predicate FlaggedAmong(cycles: seq<CycleState>, n: nat, version: string, date: Date, cmp: Comparator)
    requires n <= |cycles|
  {
    exists k :: 0 <= k < n && Includes(cycles[k].name, version) && Observe(cycles[k], version, date, cmp).updated
  }

  /** Extending the first n cycles by one more. */
  lemma AmongStep(cycles: seq<CycleState>, n: nat, version: string, date: Date, cmp: Comparator)
    requires n < |cycles|
    ensures IncludedAmong(cycles, n + 1, version) <==>
              IncludedAmong(cycles, n, version) || Includes(cycles[n].name, version)
    ensures FlaggedAmong(cycles, n + 1, version, date, cmp) <==>
              FlaggedAmong(cycles, n, version, date, cmp) ||
              (Includes(cycles[n].name, version) && Observe(cycles[n], version, date, cmp).updated)
  {
  }

  /** Process, assembled from the cycles after dispatch and the flags they give. */
  lemma ProcessOutcome(p: ProductState, cycles: seq<CycleState>, matched: bool, updated: bool,
                       version: string, date: Date, cmp: Comparator)
    requires |cycles| == |p.cycles|
    requires forall k :: 0 <= k < |cycles| ==> cycles[k] == Dispatch(p.cycles[k], version, date, cmp)
    requires matched == IncludedAmong(p.cycles, |p.cycles|, version)
    requires updated == (p.updated || FlaggedAmong(p.cycles, |p.cycles|, version, date, cmp))
    ensures var r := Process(p, version, date, cmp);
            r.cycles == cycles && r.updated == updated &&
            if matched then
              r.unmatched == p.unmatched && r.unmatchedOrder == p.unmatchedOrder
            else
              r.unmatched == p.unmatched[version := date] &&
              r.unmatchedOrder == if version in p.unmatchedOrder then p.unmatchedOrder else p.unmatchedOrder + [version]
  {
  }

  /** The observations of feed that the cycle named cycleName includes, in feed order. */
  ghost function Matching(feed: seq<Observation>, cycleName: string): (r: seq<Observation>)
    ensures forall o :: o in r ==> o in feed && Includes(cycleName, o.version)
    decreases |feed|
  {
    if feed == [] then
      []
    else
      var last := feed[|feed| - 1];
      Matching(feed[..|feed| - 1], cycleName) + (if Includes(cycleName, last.version) then [last] else [])
  }

  /**
   * Cycles evolve independently: after a run, each cycle is what it would be
   * had it been handed, in order, just the observations it includes.
   */
  lemma {:induction false} ReconcileByCycle(p: ProductState, feed: seq<Observation>, cmp: Comparator, i: nat)
    requires i < |p.cycles|
    ensures Reconcile(p, feed, cmp).cycles[i] == RunCycle(p.cycles[i], Matching(feed, p.cycles[i].name), cmp)
    decreases |feed|
  {
    if feed != [] {
      var n := |feed|;
      var prefix := feed[..n - 1];
      var last := feed[n - 1];
      var name := p.cycles[i].name;
      ReconcileByCycle(p, prefix, cmp, i);
      var m := Matching(prefix, name);
      if Includes(name, last.version) {
        assert Matching(feed, name) == m + [last];
        assert (m + [last])[..|m|] == m;
      } else {
        assert Matching(feed, name) == m;
      }
    }
  }

  /** The product flag says whether some cycle flag is set. */
  ghost predicate FlagsAgree(p: ProductState)
  {
    p.updated <==> exists i :: 0 <= i < |p.cycles| && p.cycles[i].updated
  }

  lemma ProcessFlagsAgree(p: ProductState, version: string, date: Date, cmp: Comparator)
    requires FlagsAgree(p)
    ensures FlagsAgree(Process(p, version, date, cmp))
  {
  }

  /**
   * Starting from a product whose flag agrees with its cycles' flags (as a
   * freshly built product does), after any run the product is flagged as
   * updated exactly when some cycle is.
   */
  lemma {:induction false} ReconcileFlagsAgree(p: ProductState, feed: seq<Observation>, cmp: Comparator)
    requires FlagsAgree(p)
    ensures FlagsAgree(Reconcile(p, feed, cmp))
    decreases |feed|
  {
    if feed != [] {
      var n := |feed|;
      ReconcileFlagsAgree(p, feed[..n - 1], cmp);
      ProcessFlagsAgree(Reconcile(p, feed[..n - 1], cmp), feed[n - 1].version, feed[n - 1].date, cmp);
    }
  }

  /** Whether one observation leaves a version among the unmatched ones, and with which date. */
  lemma ProcessUnmatched(p: ProductState, o: Observation, cmp: Comparator, version: string)
    ensures var r := Process(p, o.version, o.date, cmp);
            version in r.unmatched <==>
              version in p.unmatched || (o.version == version && !AnyIncludes(p.cycles, version))
    ensures var r := Process(p, o.version, o.date, cmp);
            version in r.unmatched && o.version != version ==> r.unmatched[version] == p.unmatched[version]
    ensures var r := Process(p, o.version, o.date, cmp);
            version in r.unmatched && o.version == version && !AnyIncludes(p.cycles, version) ==>
              r.unmatched[version] == o.date
  {
  }

  /**
   * After a run, a version is among the unmatched ones exactly when it
   * already was, or it occurs in the feed and no cycle includes it.
   */
  lemma {:induction false} ReconcileUnmatched(p: ProductState, feed: seq<Observation>, cmp: Comparator, version: string)
    ensures version in Reconcile(p, feed, cmp).unmatched <==>
              version in p.unmatched ||
              (!AnyIncludes(p.cycles, version) && exists k :: 0 <= k < |feed| && feed[k].version == version)
    decreases |feed|
  {
    if feed != [] {
      var n := |feed|;
      var prefix := feed[..n - 1];
      ReconcileUnmatched(p, prefix, cmp, version);
      var before := Reconcile(p, prefix, cmp);
      ProcessUnmatched(before, feed[n - 1], cmp, version);
      SameNamesSameIncludes(p.cycles, before.cycles, version);
      if exists k :: 0 <= k < n && feed[k].version == version {
        var k :| 0 <= k < n && feed[k].version == version;
        if k < n - 1 {
          assert prefix[k].version == version;
        }
      }
    }
  }

  /** How the last observation of a run moves a version's unmatched date. */
  lemma UnmatchedDateStep(p: ProductState, feed: seq<Observation>, cmp: Comparator, version: string)
    requires feed != [] && version !in p.unmatched
    ensures var a := Reconcile(p, feed, cmp).unmatched;
            var b := Reconcile(p, feed[..|feed| - 1], cmp).unmatched;
            && (version in a && feed[|feed| - 1].version != version ==> version in b && a[version] == b[version])
            && (version in a && feed[|feed| - 1].version == version ==> a[version] == feed[|feed| - 1].date)
  {
    var n := |feed|;
    var before := Reconcile(p, feed[..n - 1], cmp);
    ProcessUnmatched(before, feed[n - 1], cmp, version);
    if feed[n - 1].version == version && version in Reconcile(p, feed, cmp).unmatched {
      ReconcileUnmatched(p, feed, cmp, version);
      SameNamesSameIncludes(p.cycles, before.cycles, version);
    }
  }

  /** The index of the last observation of version in feed, or -1 when there is none. */
  function LastIndexOf(feed: seq<Observation>, version: string): (r: int)
    ensures -1 <= r < |feed|
    ensures r >= 0 ==> feed[r].version == version
    ensures r < 0 ==> forall k :: 0 <= k < |feed| ==> feed[k].version != version
    ensures forall j :: r < j < |feed| ==> feed[j].version != version
    decreases |feed|
  {
    if feed == [] then -1
    else if feed[|feed| - 1].version == version then |feed| - 1
    else LastIndexOf(feed[..|feed| - 1], version)
  }

  /**
   * A version that a run newly records as unmatched carries the date of its
   * last occurrence in the feed.
   */
  lemma {:induction false} ReconcileUnmatchedDate(p: ProductState, feed: seq<Observation>, cmp: Comparator, version: string)
    requires version !in p.unmatched && version in Reconcile(p, feed, cmp).unmatched
    ensures var k := LastIndexOf(feed, version);
            k >= 0 && feed[k].date == Reconcile(p, feed, cmp).unmatched[version]
    decreases |feed|
  {
    var n := |feed|;
    UnmatchedDateStep(p, feed, cmp, version);
    if feed[n - 1].version != version {
      var prefix := feed[..n - 1];
      ReconcileUnmatchedDate(p, prefix, cmp, version);
      assert feed[LastIndexOf(prefix, version)] == prefix[LastIndexOf(prefix, version)];
    }
  }

  /** Two cycle lists with the same names include the same versions. */
  lemma SameNamesSameIncludes(a: seq<CycleState>, b: seq<CycleState>, version: string)
    requires |a| == |b| && forall i :: 0 <= i < |a| ==> a[i].name == b[i].name
    ensures AnyIncludes(a, version) <==> AnyIncludes(b, version)
  {
  }

  /** The latest version of a cycle is a version of the feed. */
  predicate InFeed(latest: Option<string>, feed: seq<Observation>)
  {
    latest.Some? && exists k :: 0 <= k < |feed| && feed[k].version == latest.value
  }

  /** A product, owning its release cycles, whose run state is updated in place. */
  class Product {
    const name: string
    const versions: seq<Observation>
    const releases: seq<ReleaseCycle>
    var updated: bool
    var unmatchedVersions: map<string, Date>
    var unmatchedOrder: seq<string>

    ghost predicate Valid()
      reads this
    {
      DistinctReleases() && OrderedKeys(unmatchedOrder, unmatchedVersions)
    }

    /** No cycle object occurs twice. */
    ghost predicate DistinctReleases()
    {
      forall i, j :: 0 <= i < j < |releases| ==> releases[i] != releases[j]
    }

    ghost function Cycles(): (cs: seq<CycleState>)
      reads releases
      ensures |cs| == |releases|
      ensures forall i :: 0 <= i < |releases| ==> cs[i] == releases[i].View()
    {
      seq(|releases|, i reads releases requires 0 <= i < |releases| => releases[i].View())
    }

    ghost function View(): ProductState
      reads this, releases
    {
      ProductState(Cycles(), updated, unmatchedOrder, unmatchedVersions)
    }

    /** Builds the product from its cycle records, in record order, and its feed. */
    constructor (name: string, records: seq<CycleData>, versions: seq<Observation>)
      ensures Valid() && View() == Initial(records)
      ensures this.name == name && this.versions == versions
      ensures forall i :: 0 <= i < |releases| ==> fresh(releases[i])
    {
      var cycles: seq<ReleaseCycle> := [];
      var i := 0;
      while i < |records|
        invariant 0 <= i <= |records| && |cycles| == i
        invariant forall k :: 0 <= k < i ==> fresh(cycles[k])
        invariant forall k :: 0 <= k < i ==>
                    cycles[k].View() == CycleState(records[k].releaseCycle, records[k], false, false)
        invariant forall k, l :: 0 <= k < l < i ==> cycles[k] != cycles[l]
      {
        var c := new ReleaseCycle(name, records[i]);
        cycles := cycles + [c];
        i := i + 1;
      }
      this.name := name;
      this.versions := versions;
      this.releases := cycles;
      this.updated := false;
      this.unmatchedVersions := map[];
      this.unmatchedOrder := [];
    }

    /** Hands one observation to every cycle that includes it, or records it as unmatched. */
    method ProcessVersion(version: string, date: Date, cmp: Comparator)
      requires Valid()
      modifies this, releases
      ensures Valid()
      ensures View() == Process(old(View()), version, date, cmp)
    {
      var versionMatched := OfferToCycles(Cycles(), version, date, cmp);
      ProcessOutcome(old(View()), Cycles(), versionMatched, updated, version, date, cmp);
      if !versionMatched {
        unmatchedVersions := unmatchedVersions[version := date];
        if version !in unmatchedOrder {
          unmatchedOrder := unmatchedOrder + [version];
        }
      }
    }

    /** Hands the observation to release when it includes the version. */
    method Offer(release: ReleaseCycle, version: string, date: Date, cmp: Comparator) returns (included: bool)
      modifies release
      ensures included == Includes(release.name, version)
      ensures release.View() == Dispatch(old(release.View()), version, date, cmp)
    {
      included := Includes(release.name, version);
      if included {
        release.UpdateWith(version, date, cmp);
      }
    }

    /**
     * The loop of ProcessVersion: hands the observation to every cycle that
     * includes it and ORs each such cycle's flag into the product flag.
     * before is the cycles' states when the loop starts.
     */
    method OfferToCycles(ghost before: seq<CycleState>, version: string, date: Date, cmp: Comparator)
      returns (versionMatched: bool)
      requires DistinctReleases()
      requires |before| == |releases| && forall k :: 0 <= k < |releases| ==> releases[k].View() == before[k]
      modifies this`updated, releases
      ensures forall k :: 0 <= k < |releases| ==> releases[k].View() == Dispatch(before[k], version, date, cmp)
      ensures versionMatched == IncludedAmong(before, |before|, version)
      ensures updated == (old(updated) || FlaggedAmong(before, |before|, version, date, cmp))
    {
      versionMatched := false;
      var i := 0;
      while i < |releases|
        invariant 0 <= i <= |releases|
        invariant forall k :: 0 <= k < |releases| ==>
                    releases[k].View() == if k < i then Dispatch(before[k], version, date, cmp) else before[k]
        invariant versionMatched == IncludedAmong(before, i, version)
        invariant updated == (old(updated) || FlaggedAmong(before, i, version, date, cmp))
      {
        var release := releases[i];
        AmongStep(before, i, version, date, cmp);
        assert forall k :: 0 <= k < |releases| && k != i ==> releases[k] != release;
        var included := Offer(release, version, date, cmp);
        versionMatched := versionMatched || included;
        updated := updated || (included && release.updated);
        i := i + 1;
      }
    }

    /**
     * The indices, in cycle order, of the matched cycles whose latest
     * version is missing from the feed (the consistency warnings).
     */
    method CheckLatest() returns (missing: seq<nat>)
      ensures forall k :: 0 <= k < |missing| ==> missing[k] < |releases|
      ensures forall k, l :: 0 <= k < l < |missing| ==> missing[k] < missing[l]
      ensures forall i :: 0 <= i < |releases| ==>
                (i in missing <==> releases[i].matched && !InFeed(releases[i].data.latest, versions))
    {
      missing := [];
      for i := 0 to |releases|
        invariant forall k :: 0 <= k < |missing| ==> missing[k] < i
        invariant forall k, l :: 0 <= k < l < |missing| ==> missing[k] < missing[l]
        invariant forall j :: 0 <= j < i ==>
                    (j in missing <==> releases[j].matched && !InFeed(releases[j].data.latest, versions))
      {
        var release := releases[i];
        var latest := release.Latest();
        var found := latest.Some? && exists k :: 0 <= k < |versions| && versions[k].version == latest.value;
        if release.matched && !found {
          missing := missing + [i];
        }
      }
    }

    /** The cycle records as they stand, in cycle order, for writing back. */
    method Records() returns (records: seq<CycleData>)
      ensures |records| == |releases|
      ensures forall i :: 0 <= i < |releases| ==> records[i] == releases[i].data
    {
      records := seq(|releases|, i reads releases requires 0 <= i < |releases| => releases[i].data);
    }
  }
}
