/**
  The contract's price book logic as functions on values: which reports are fresh, when enough of
  them exist, how they reduce to one aggregated price, and what `finalize_reports` leaves stored
  for an asset.
 */
module Aggregation {
  import opened Wrappers
  import opened OracleTypes
  import opened Sorting

  /** No two reports come from the same node. */
  predicate OneReportPerOracle(reports: seq<PriceReport>) {
    forall i, j :: 0 <= i < j < |reports| ==> reports[i].oracleId != reports[j].oracleId
  }

  /** The reports' multipliers, in order. */
  function Multipliers(reports: seq<PriceReport>): (ms: seq<int>)
    ensures |ms| == |reports|
    ensures forall i :: 0 <= i < |ms| ==> 0 <= ms[i] < 0x1_0000_0000_0000_0000_0000_0000_0000_0000
  {
    if reports == [] then [] else [reports[0].price.multiplier as int] + Multipliers(reports[1..])
  }

  lemma {:induction false} MultipliersAt(reports: seq<PriceReport>)
    ensures forall i :: 0 <= i < |reports| ==> Multipliers(reports)[i] == reports[i].price.multiplier
  {
    if reports != [] {
      MultipliersAt(reports[1..]);
      assert forall i :: 1 <= i < |reports| ==> reports[i] == reports[1..][i - 1];
    }
  }

  /** The median rule applied to an ascending sequence. */
  function MiddleOf(s: seq<int>): int
    requires |s| > 0
  {
    if |s| % 2 == 0 then (s[|s| / 2 - 1] + s[|s| / 2]) / 2 else s[|s| / 2]
  }

  lemma MiddleOfBounds(s: seq<int>)
    requires |s| > 0 && Sorted(s)
    ensures s[0] <= MiddleOf(s) <= s[|s| - 1]
  {
    SortedBounds(s, |s| / 2);
    if |s| % 2 == 0 {
      SortedBounds(s, |s| / 2 - 1);
    }
  }

  /**
    The median of `update_aggregated_price`: sort, then take the middle element for an odd count
    and the integer mean `(a + b) / 2` of the two middle elements for an even count. It lies
    between the smallest and the largest value.
   */
  function Median(ms: seq<int>): (m: int)
    requires |ms| > 0
    ensures exists i :: 0 <= i < |ms| && ms[i] <= m
    ensures exists j :: 0 <= j < |ms| && m <= ms[j]
  {
    var s := Sort(ms);
    SortSorted(ms);
    SortPermutation(ms);
    MiddleOfBounds(s);
    assert s[0] in multiset(ms) && s[|s| - 1] in multiset(ms);
    MiddleOf(s)
  }

  /** The median depends only on the multiset of the values, not on their order. */
  lemma MedianPermutationInvariant(a: seq<int>, b: seq<int>)
    requires |a| > 0 && multiset(a) == multiset(b)
    ensures |b| > 0 && Median(a) == Median(b)
  {
    assert |b| == |multiset(b)| == |multiset(a)| == |a|;
    SortPermutationInvariant(a, b);
  }

  /** The median of an ascending sequence is its middle element, or the mean of its two middle elements. */
  lemma MedianOfSorted(s: seq<int>)
    requires |s| > 0 && Sorted(s)
    ensures |s| % 2 == 1 ==> Median(s) == s[|s| / 2]
    ensures |s| % 2 == 0 ==> Median(s) == (s[|s| / 2 - 1] + s[|s| / 2]) / 2
  {
    SortCharacterized(s, s);
  }

  /** The example of the contract's tests: 35000 and 36000 give 35500. */
  lemma MedianOfTwoReports()
    ensures Median([36000, 35000]) == 35500
  {
    var s := [35000, 36000];
    assert Sorted(s);
    assert multiset([36000, 35000]) == multiset(s);
    SortCharacterized([36000, 35000], s);
  }

  /** The latest timestamp among the reports. */
  function LatestTimestamp(reports: seq<PriceReport>): (t: uint64)
    requires |reports| > 0
  {
    if |reports| == 1 then reports[0].timestamp
    else
      var rest := LatestTimestamp(reports[1..]);
      if reports[0].timestamp >= rest then reports[0].timestamp else rest
  }

  /** LatestTimestamp is the largest timestamp of the reports. */
  lemma {:induction false} LatestTimestampIsMaximum(reports: seq<PriceReport>)
    requires |reports| > 0
    ensures forall i :: 0 <= i < |reports| ==> reports[i].timestamp <= LatestTimestamp(reports)
    ensures exists i :: 0 <= i < |reports| && reports[i].timestamp == LatestTimestamp(reports)
  {
    if |reports| > 1 {
      LatestTimestampIsMaximum(reports[1..]);
      var rest := reports[1..];
      assert forall i :: 1 <= i < |reports| ==> reports[i] == rest[i - 1];
      var k :| 0 <= k < |rest| && rest[k].timestamp == LatestTimestamp(rest);
      if reports[0].timestamp < LatestTimestamp(rest) {
        assert reports[k + 1].timestamp == LatestTimestamp(reports);
      } else {
        assert reports[0].timestamp == LatestTimestamp(reports);
      }
    } else {
      assert reports[0].timestamp == LatestTimestamp(reports);
    }
  }

  /**
    The aggregated price of `update_aggregated_price`: the median multiplier, the decimals of the
    first report and the latest report timestamp.
   */
  function AggregatePrice(reports: seq<PriceReport>): (p: Price)
    requires |reports| > 0
  {
    Price(Median(Multipliers(reports)), reports[0].price.decimals, LatestTimestamp(reports))
  }

  /**
    The aggregated multiplier lies between the smallest and the largest reported one, its decimals
    are those of the first report, and its timestamp is the latest report's.
   */
  lemma AggregatePriceBetween(reports: seq<PriceReport>)
    requires |reports| > 0
    ensures var p := AggregatePrice(reports);
      && p.multiplier == Median(Multipliers(reports))
      && (exists i :: 0 <= i < |reports| && reports[i].price.multiplier <= p.multiplier)
      && (exists j :: 0 <= j < |reports| && p.multiplier <= reports[j].price.multiplier)
      && p.decimals == reports[0].price.decimals
      && (forall i :: 0 <= i < |reports| ==> reports[i].timestamp <= p.timestamp)
      && (exists i :: 0 <= i < |reports| && reports[i].timestamp == p.timestamp)
  {
    var ms := Multipliers(reports);
    MultipliersAt(reports);
    LatestTimestampIsMaximum(reports);
    var i :| 0 <= i < |ms| && ms[i] <= Median(ms);
    assert reports[i].price.multiplier <= AggregatePrice(reports).multiplier;
    var j :| 0 <= j < |ms| && Median(ms) <= ms[j];
    assert AggregatePrice(reports).multiplier <= reports[j].price.multiplier;
  }

  /** The aggregate of reports that agree on one multiplier is that multiplier. */
  lemma AggregateOfAgreeingReports(reports: seq<PriceReport>, m: uint128)
    requires |reports| > 0
    requires forall i :: 0 <= i < |reports| ==> reports[i].price.multiplier == m
    ensures AggregatePrice(reports).multiplier == m
  {
    AggregatePriceBetween(reports);
  }

  /** The oldest timestamp a report may carry and still count, `now.saturating_sub(threshold)`. */
  function MinimumTimestamp(now: uint64, threshold: uint64): uint64 {
    SaturatingSub(now, threshold)
  }

  /** A report is fresh when no threshold is set or it is no older than the minimum timestamp. */
  predicate IsFresh(r: PriceReport, now: uint64, threshold: uint64) {
    threshold == 0 || r.timestamp >= MinimumTimestamp(now, threshold)
  }

  /** The two conditions under which the contract's `retain` calls keep a report. */
  datatype Criterion = NotOlderThan(minimum: uint64) | NotFrom(oracle: AccountId)

  predicate Keeps(c: Criterion, r: PriceReport) {
    match c
    case NotOlderThan(minimum) => r.timestamp >= minimum
    case NotFrom(oracle) => r.oracleId != oracle
  }

  /** `Vec::retain`: the reports that `c` keeps, in their original order. */
  function Retain(reports: seq<PriceReport>, c: Criterion): (r: seq<PriceReport>)
    ensures |r| <= |reports|
  {
    if reports == [] then []
    else if Keeps(c, reports[0]) then [reports[0]] + Retain(reports[1..], c)
    else Retain(reports[1..], c)
  }

  /** A report survives `retain` exactly when it was there and the criterion keeps it. */
  lemma {:induction false} RetainMembers(reports: seq<PriceReport>, c: Criterion)
    ensures forall x :: x in Retain(reports, c) <==> x in reports && Keeps(c, x)
  {
    if reports != [] {
      RetainMembers(reports[1..], c);
      assert reports == [reports[0]] + reports[1..];
    }
  }

  lemma {:induction false} RetainConcat(a: seq<PriceReport>, b: seq<PriceReport>, c: Criterion)
    ensures Retain(a + b, c) == Retain(a, c) + Retain(b, c)
  {
    if a == [] {
      assert a + b == b;
    } else {
      assert (a + b)[1..] == a[1..] + b;
      RetainConcat(a[1..], b, c);
    }
  }

  /** A criterion that keeps every report removes nothing. */
  lemma {:induction false} RetainKeepsAll(reports: seq<PriceReport>, c: Criterion)
    requires forall i :: 0 <= i < |reports| ==> Keeps(c, reports[i])
    ensures Retain(reports, c) == reports
  {
    if reports != [] {
      RetainKeepsAll(reports[1..], c);
    }
  }

  /** Retaining twice by the same criterion is retaining once. */
  lemma RetainIdempotent(reports: seq<PriceReport>, c: Criterion)
    ensures Retain(Retain(reports, c), c) == Retain(reports, c)
  {
    RetainMembers(reports, c);
    var r := Retain(reports, c);
    assert forall i :: 0 <= i < |r| ==> r[i] in r;
    RetainKeepsAll(r, c);
  }

  /** Retaining keeps the reports one per node. */
  lemma {:induction false} RetainOnePerOracle(reports: seq<PriceReport>, c: Criterion)
    requires OneReportPerOracle(reports)
    ensures OneReportPerOracle(Retain(reports, c))
  {
    if reports != [] {
      var tail := reports[1..];
      assert OneReportPerOracle(tail) by {
        forall i, j | 0 <= i < j < |tail| ensures tail[i].oracleId != tail[j].oracleId {
          assert tail[i] == reports[i + 1] && tail[j] == reports[j + 1];
        }
      }
      RetainOnePerOracle(tail, c);
      RetainMembers(tail, c);
      var rest := Retain(tail, c);
      if Keeps(c, reports[0]) {
        forall j | 0 <= j < |rest| ensures reports[0].oracleId != rest[j].oracleId {
          assert rest[j] in tail;
          var k :| 0 <= k < |tail| && tail[k] == rest[j];
          assert reports[k + 1] == rest[j];
        }
        var r := [reports[0]] + rest;
        forall i, j | 0 <= i < j < |r| ensures r[i].oracleId != r[j].oracleId {
          if i > 0 {
            assert r[i] == rest[i - 1] && r[j] == rest[j - 1];
          } else {
            assert r[j] == rest[j - 1];
          }
        }
      }
    }
  }

  /** The freshness filter of `finalize_reports`: with a threshold set, keep the fresh reports. */
  function FreshReports(reports: seq<PriceReport>, now: uint64, threshold: uint64): (r: seq<PriceReport>)
    ensures |r| <= |reports|
  {
    if threshold > 0 then Retain(reports, NotOlderThan(MinimumTimestamp(now, threshold))) else reports
  }

  /** The freshness filter keeps exactly the fresh reports; with no threshold it keeps all. */
  lemma FreshReportsMembers(reports: seq<PriceReport>, now: uint64, threshold: uint64)
    ensures forall x :: x in FreshReports(reports, now, threshold) <==> x in reports && IsFresh(x, now, threshold)
    ensures threshold == 0 ==> FreshReports(reports, now, threshold) == reports
  {
    if threshold > 0 {
      RetainMembers(reports, NotOlderThan(MinimumTimestamp(now, threshold)));
    }
  }

  /** The freshness filter removes nothing from reports that are all fresh. */
  lemma FreshReportsOfFresh(reports: seq<PriceReport>, now: uint64, threshold: uint64)
    requires forall i :: 0 <= i < |reports| ==> IsFresh(reports[i], now, threshold)
    ensures FreshReports(reports, now, threshold) == reports
  {
    if threshold > 0 {
      RetainKeepsAll(reports, NotOlderThan(MinimumTimestamp(now, threshold)));
    }
  }

  /** Freshness filtering keeps at most one report per node. */
  lemma FreshReportsOnePerOracle(reports: seq<PriceReport>, now: uint64, threshold: uint64)
    requires OneReportPerOracle(reports)
    ensures OneReportPerOracle(FreshReports(reports, now, threshold))
  {
    if threshold > 0 {
      RetainOnePerOracle(reports, NotOlderThan(MinimumTimestamp(now, threshold)));
    }
  }

  /** How many fresh reports an aggregated price needs: `max(max(min_report_count, min_sources), 1)`. */
  function RequiredSources(minReportCount: uint8, minSources: uint8): (n: nat)
    ensures n >= 1 && n >= minReportCount && n >= minSources
    ensures n == 1 || n == minReportCount || n == minSources
  {
    var larger := if minReportCount >= minSources then minReportCount else minSources;
    if larger >= 1 then larger else 1
  }

  /** What the contract stores for one asset: its report list and its aggregated price, each possibly absent. */
  datatype Slot = Slot(reports: Option<seq<PriceReport>>, aggregated: Option<Price>) {
    /**
      A slot as the contract keeps it: a stored report list is non-empty with one report per
      node, and an aggregated price is stored only beside reports, as their aggregate.
     */
    predicate Consistent() {
      && (reports.Some? ==> |reports.value| > 0 && OneReportPerOracle(reports.value))
      && (aggregated.Some? ==> reports.Some? && aggregated.value == AggregatePrice(reports.value))
    }
  }

  /**
    The outcome of `finalize_reports` for one asset: drop stale reports; with none left, remove
    both entries; with fewer than the required count, keep the reports and remove the aggregated
    price; otherwise keep the reports and store their aggregated price.
   */
  function Finalize(reports: seq<PriceReport>, asset: Asset, now: uint64, threshold: uint64, minReportCount: uint8): Slot {
    var survivors := FreshReports(reports, now, threshold);
    if |survivors| == 0 then
      Slot(None, None)
    else if |survivors| < RequiredSources(minReportCount, asset.minSources) then
      Slot(Some(survivors), None)
    else
      Slot(Some(survivors), Some(AggregatePrice(survivors)))
  }

  /**
    Finalization removes the reports exactly when none is fresh; otherwise it keeps exactly the
    fresh ones, and it stores their aggregate exactly when there are at least as many as required.
   */
  lemma FinalizeOutcome(reports: seq<PriceReport>, asset: Asset, now: uint64, threshold: uint64, minReportCount: uint8)
    ensures var s := Finalize(reports, asset, now, threshold, minReportCount);
      && (s.reports.None? <==> forall i :: 0 <= i < |reports| ==> !IsFresh(reports[i], now, threshold))
      && (s.reports.Some? ==> s.reports.value == FreshReports(reports, now, threshold) && |s.reports.value| > 0)
      && (s.aggregated.Some? <==>
           s.reports.Some? && |s.reports.value| >= RequiredSources(minReportCount, asset.minSources))
      && (s.aggregated.Some? ==> s.aggregated.value == AggregatePrice(s.reports.value))
  {
    var survivors := FreshReports(reports, now, threshold);
    FreshReportsMembers(reports, now, threshold);
    if |survivors| > 0 {
      assert survivors[0] in survivors;
    } else {
      forall i | 0 <= i < |reports| ensures !IsFresh(reports[i], now, threshold) {
        assert reports[i] !in survivors;
      }
    }
  }

  /** Finalizing a list with one report per node gives a consistent slot. */
  lemma FinalizeConsistent(reports: seq<PriceReport>, asset: Asset, now: uint64, threshold: uint64, minReportCount: uint8)
    requires OneReportPerOracle(reports)
    ensures Finalize(reports, asset, now, threshold, minReportCount).Consistent()
  {
    FreshReportsOnePerOracle(reports, now, threshold);
  }

  /** Finalizing the reports that finalization kept, at the same instant, changes nothing. */
  lemma FinalizeIdempotent(reports: seq<PriceReport>, asset: Asset, now: uint64, threshold: uint64, minReportCount: uint8)
    requires Finalize(reports, asset, now, threshold, minReportCount).reports.Some?
    ensures var s := Finalize(reports, asset, now, threshold, minReportCount);
      Finalize(s.reports.value, asset, now, threshold, minReportCount) == s
  {
    var kept := FreshReports(reports, now, threshold);
    FreshReportsMembers(reports, now, threshold);
    assert forall i :: 0 <= i < |kept| ==> kept[i] in kept;
    FreshReportsOfFresh(kept, now, threshold);
  }

  /** What `get_price` calls too old: a threshold is set and the price is more than it behind `now`. */
  predicate IsStale(p: Price, now: uint64, threshold: uint64) {
    threshold > 0 && SaturatingSub(now, p.timestamp) > threshold
  }

  /** A price that `finalize_reports` has just stored is not stale at that instant. */
  lemma FinalizedPriceIsCurrent(reports: seq<PriceReport>, asset: Asset, now: uint64, threshold: uint64, minReportCount: uint8)
    ensures var s := Finalize(reports, asset, now, threshold, minReportCount);
      s.aggregated.Some? ==> !IsStale(s.aggregated.value, now, threshold)
  {
    var s := Finalize(reports, asset, now, threshold, minReportCount);
    if s.aggregated.Some? {
      var survivors := s.reports.value;
      AggregatePriceBetween(survivors);
      FreshReportsMembers(reports, now, threshold);
      var i :| 0 <= i < |survivors| && survivors[i].timestamp == s.aggregated.value.timestamp;
      assert survivors[i] in survivors;
    }
  }

  /** The entry of `key` in `m` set to `v`, or removed when `v` is absent. */
  function Place<V>(m: map<string, V>, key: string, v: Option<V>): (r: map<string, V>)
    ensures v.None? ==> key !in r
    ensures v.Some? ==> key in r && r[key] == v.value
    ensures forall k :: k != key ==> (k in r <==> k in m)
    ensures forall k :: k != key && k in r ==> r[k] == m[k]
  {
    if v.Some? then m[key := v.value] else m - {key}
  }

  /** The slot of one asset in the contract's two maps. */
  function SlotIn(reports: map<string, seq<PriceReport>>, prices: map<string, Price>, assetId: string): Slot {
    Slot(
      if assetId in reports then Some(reports[assetId]) else None,
      if assetId in prices then Some(prices[assetId]) else None)
  }

  /** Every asset's slot is consistent. */
  ghost predicate BookConsistent(reports: map<string, seq<PriceReport>>, prices: map<string, Price>) {
    forall a :: SlotIn(reports, prices, a).Consistent()
  }

  /** Placing a slot changes that asset's slot and no other. */
  lemma PlaceSlotIn(reports: map<string, seq<PriceReport>>, prices: map<string, Price>, assetId: string, s: Slot, a: string)
    ensures SlotIn(Place(reports, assetId, s.reports), Place(prices, assetId, s.aggregated), a)
      == if a == assetId then s else SlotIn(reports, prices, a)
  {
  }

  /** Placing a consistent slot into a consistent book gives a consistent book. */
  lemma PlaceConsistent(reports: map<string, seq<PriceReport>>, prices: map<string, Price>, assetId: string, s: Slot)
    requires BookConsistent(reports, prices) && s.Consistent()
    ensures BookConsistent(Place(reports, assetId, s.reports), Place(prices, assetId, s.aggregated))
  {
    forall a ensures SlotIn(Place(reports, assetId, s.reports), Place(prices, assetId, s.aggregated), a).Consistent() {
      PlaceSlotIn(reports, prices, assetId, s, a);
    }
  }

  /** The reports without those of `oracle` (the `retain` of `internal_remove_node_operator`). */
  function WithoutOracle(reports: seq<PriceReport>, oracle: AccountId): (r: seq<PriceReport>)
    ensures |r| <= |reports|
  {
    Retain(reports, NotFrom(oracle))
  }

  /** Stripping a node's reports keeps exactly the other nodes' reports. */
  lemma WithoutOracleMembers(reports: seq<PriceReport>, oracle: AccountId)
    ensures forall x :: x in WithoutOracle(reports, oracle) <==> x in reports && x.oracleId != oracle
  {
    RetainMembers(reports, NotFrom(oracle));
  }

  /** Stripping a node's reports removes nothing more the second time. */
  lemma WithoutOracleIdempotent(reports: seq<PriceReport>, oracle: AccountId)
    ensures WithoutOracle(WithoutOracle(reports, oracle), oracle) == WithoutOracle(reports, oracle)
  {
    RetainIdempotent(reports, NotFrom(oracle));
  }

  lemma WithoutOracleOnePerOracle(reports: seq<PriceReport>, oracle: AccountId)
    requires OneReportPerOracle(reports)
    ensures OneReportPerOracle(WithoutOracle(reports, oracle))
  {
    RetainOnePerOracle(reports, NotFrom(oracle));
  }

  /** The report list of `report_price` before finalization: the caller's earlier report replaced by the new one. */
  function ReplaceReport(reports: seq<PriceReport>, report: PriceReport): (r: seq<PriceReport>)
    ensures |r| > 0
  {
    WithoutOracle(reports, report.oracleId) + [report]
  }

  /**
    Replacing ends the list with the new report, leaves no other report of its node, keeps the
    other nodes' reports, and keeps the list one report per node.
   */
  lemma ReplaceReportSpec(reports: seq<PriceReport>, report: PriceReport)
    ensures var r := ReplaceReport(reports, report);
      && r[|r| - 1] == report
      && (forall i :: 0 <= i < |r| - 1 ==> r[i].oracleId != report.oracleId)
      && (forall x: PriceReport :: x.oracleId != report.oracleId ==> (x in r <==> x in reports))
      && (OneReportPerOracle(reports) ==> OneReportPerOracle(r))
  {
    var others := WithoutOracle(reports, report.oracleId);
    var r := others + [report];
    WithoutOracleMembers(reports, report.oracleId);
    forall i | 0 <= i < |r| - 1 ensures r[i].oracleId != report.oracleId {
      assert r[i] == others[i] && others[i] in others;
    }
    if OneReportPerOracle(reports) {
      WithoutOracleOnePerOracle(reports, report.oracleId);
      forall i, j | 0 <= i < j < |r| ensures r[i].oracleId != r[j].oracleId {
        if j < |r| - 1 {
          assert r[i] == others[i] && r[j] == others[j];
        }
      }
    }
  }

  /**
    After `report_price` with the block time `now` as the report's timestamp, the asset's stored
    reports hold exactly one report from the caller, the new one, and of the other nodes' reports
    exactly the fresh ones.
   */
  lemma ReportedSlot(reports: seq<PriceReport>, report: PriceReport, asset: Asset, now: uint64, threshold: uint64, minReportCount: uint8)
    requires report.timestamp == now
    ensures var s := Finalize(ReplaceReport(reports, report), asset, now, threshold, minReportCount);
      && s.reports.Some?
      && var kept := s.reports.value;
      && kept[|kept| - 1] == report
      && (forall i :: 0 <= i < |kept| - 1 ==> kept[i].oracleId != report.oracleId)
      && (forall x: PriceReport :: x.oracleId != report.oracleId ==> (x in kept <==> x in reports && IsFresh(x, now, threshold)))
  {
    var replaced := ReplaceReport(reports, report);
    var others := WithoutOracle(reports, report.oracleId);
    ReplaceReportSpec(reports, report);
    FreshReportsMembers(replaced, now, threshold);
    assert IsFresh(report, now, threshold);
    var kept := FreshReports(replaced, now, threshold);
    var kept0 := FreshReports(others, now, threshold);
    if threshold > 0 {
      var keep := NotOlderThan(MinimumTimestamp(now, threshold));
      RetainConcat(others, [report], keep);
      assert Retain([report], keep) == [report];
    }
    assert kept == kept0 + [report];
    FreshReportsMembers(others, now, threshold);
    WithoutOracleMembers(reports, report.oracleId);
    forall i | 0 <= i < |kept| - 1 ensures kept[i].oracleId != report.oracleId {
      assert kept[i] == kept0[i] && kept0[i] in kept0;
    }
    assert report in kept;
    FinalizeOutcome(replaced, asset, now, threshold, minReportCount);
  }
}
