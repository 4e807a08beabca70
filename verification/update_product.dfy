/**
 * The run over one product: every observation of the feed is processed in
 * feed order, the consistency check is made, the records are handed back
 * for writing when something changed, and the recent unmatched versions are
 * reported.
 */
module Reconciliation {
  import opened Wrappers
  import opened VersionOrder
  import opened ReleaseCycles
  import opened Products

  /** Unmatched versions younger than this many days are reported. */
  const RecencyWindowDays := 30

  /** An unmatched version released on date is reported on today. */
  predicate IsRecent(date: Date, today: Date)
  {
    today - date < RecencyWindowDays
  }

  /** The unmatched versions to report, in the order in which they were first recorded. */
  ghost function Recent(order: seq<string>, unmatched: map<string, Date>, today: Date): seq<Observation>
    requires forall k :: 0 <= k < |order| ==> order[k] in unmatched
    decreases |order|
  {
    if order == [] then
      []
    else
      var version := order[|order| - 1];
      Recent(order[..|order| - 1], unmatched, today) +
        (if IsRecent(unmatched[version], today) then [Observation(version, unmatched[version])] else [])
  }

  /**
   * An entry is reported exactly when its version was recorded as unmatched,
   * it carries the recorded date, and that date is within the window.
   */
  lemma {:induction false} RecentReports(order: seq<string>, unmatched: map<string, Date>, today: Date, o: Observation)
    requires forall k :: 0 <= k < |order| ==> order[k] in unmatched
    ensures o in Recent(order, unmatched, today) <==>
              o.version in order && o.version in unmatched && o.date == unmatched[o.version] && IsRecent(o.date, today)
    decreases |order|
  {
    if order != [] {
      var prefix := order[..|order| - 1];
      RecentReports(prefix, unmatched, today, o);
      assert order == prefix + [order[|order| - 1]];
    }
  }

  /** Fifteen days old is reported; sixty days old is not, though it stays recorded. */
  lemma RecentExample(today: Date)
    ensures var unmatched := map["5.0-rc1" := today - 15, "4.9-beta" := today - 60];
            Recent(["5.0-rc1", "4.9-beta"], unmatched, today) == [Observation("5.0-rc1", today - 15)]
  {
  }

  /** The reporting loop over the unmatched versions. */
  method ReportRecent(order: seq<string>, unmatched: map<string, Date>, today: Date) returns (report: seq<Observation>)
    requires forall k :: 0 <= k < |order| ==> order[k] in unmatched
    ensures report == Recent(order, unmatched, today)
  {
    report := [];
    if |order| != 0 {
      for i := 0 to |order|
        invariant report == Recent(order[..i], unmatched, today)
      {
        var version := order[i];
        var date := unmatched[version];
        if today - date < RecencyWindowDays {
          report := report + [Observation(version, date)];
        }
        assert order[..i + 1][..i] == order[..i];
      }
      assert order[..|order|] == order;
    }
  }

  /** The record of every cycle, in cycle order. */
  ghost function Records(cycles: seq<CycleState>): (records: seq<CycleData>)
    ensures |records| == |cycles|
    ensures forall i :: 0 <= i < |cycles| ==> records[i] == cycles[i].data
  {
    seq(|cycles|, i requires 0 <= i < |cycles| => cycles[i].data)
  }

  /** Processes every observation of the product's feed, in feed order. */
  method ProcessFeed(product: Product, cmp: Comparator)
    requires product.Valid()
    modifies product, product.releases
    ensures product.Valid()
    ensures product.View() == Reconcile(old(product.View()), product.versions, cmp)
  {
    var versions := product.versions;
    ghost var initial := product.View();
    for i := 0 to |versions|
      invariant product.Valid()
      invariant product.View() == Reconcile(initial, versions[..i], cmp)
    {
      product.ProcessVersion(versions[i].version, versions[i].date, cmp);
      assert versions[..i + 1][..i] == versions[..i];
    }
    assert versions[..|versions|] == versions;
  }

  /**
   * Runs one product.  Without a feed nothing happens.  Otherwise the
   * outcome is that of processing the feed in order on the product built
   * from its records: the records are handed back for writing exactly when
   * the product was flagged as updated, the warnings name the matched cycles
   * whose latest version is not in the feed, and the report lists the
   * recent unmatched versions.
   */
  method UpdateProduct(name: string, records: seq<CycleData>, feed: Option<seq<Observation>>, today: Date, cmp: Comparator)
    returns (written: Option<seq<CycleData>>, unmatched: map<string, Date>, warnings: seq<nat>, report: seq<Observation>)
    ensures feed.None? ==> written.None? && unmatched == map[] && warnings == [] && report == []
    ensures feed.Some? ==>
              var s := Reconcile(Initial(records), feed.value, cmp);
              && (written.Some? <==> s.updated)
              && (written.Some? ==> written.value == Records(s.cycles))
              && unmatched == s.unmatched
              && (forall k, l :: 0 <= k < l < |warnings| ==> warnings[k] < warnings[l])
              && (forall i :: 0 <= i < |s.cycles| ==>
                    (i in warnings <==> s.cycles[i].matched && !InFeed(s.cycles[i].data.latest, feed.value)))
              && (forall k :: 0 <= k < |warnings| ==> warnings[k] < |s.cycles|)
              && OrderedKeys(s.unmatchedOrder, s.unmatched)
              && report == Recent(s.unmatchedOrder, s.unmatched, today)
  {
    if feed.None? {
      return None, map[], [], [];
    }
    var versions := feed.value;
    var product := new Product(name, records, versions);
    ProcessFeed(product, cmp);
    warnings := product.CheckLatest();

    written := None;
    if product.updated {
      var data := product.Records();
      written := Some(data);
    }

    unmatched := product.unmatchedVersions;
    report := ReportRecent(product.unmatchedOrder, product.unmatchedVersions, today);
  }
}
