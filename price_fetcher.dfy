/**
  The oracle node's `PriceFetcher`: for one asset it asks each configured source in turn,
  collects the positive prices, counts consecutive failures per source name, and reduces the
  prices to their median.

  The HTTP request of a source is not modelled; its reply is a parameter (`Reply`), one per source,
  and so is the clock reading that stamps the result.
 */
module PriceFetcher {
  import opened Wrappers
  import opened PriceUtils

  datatype AssetSource = AssetSource(name: string, url: string, path: string, weight: real)

  datatype AssetConfig = AssetConfig(id: string, symbol: string, decimals: int, sources: seq<AssetSource>)

  /** What `fetchPrice` returns: the median and how many sources contributed to it. */
  datatype PriceData = PriceData(assetId: string, price: real, sources: nat, timestamp: int)

  /**
    How the request to a source ended: no reply (a network error, or the abort after five
    seconds), or a reply with its `ok` flag and its body, None when the body is not JSON.
   */
  datatype Reply = NoReply | Answered(ok: bool, body: Option<Json>)

  /** `fetchFromSource` either returns a price or throws. */
  datatype Outcome = Fetched(price: real) | Threw

  /**
    `fetchFromSource`: a reply that is `ok`, is JSON and holds a positive number at the source's
    path gives that number; every other reply throws.
   */
  function FetchFromSource(rt: JsRuntime, source: AssetSource, reply: Reply): (r: Outcome)
    ensures r.Fetched? ==> r.price > 0.0
    ensures r.Fetched? ==> reply.Answered? && reply.ok && reply.body.Some?
    ensures r.Fetched? ==> ExtractPrice(rt, reply.body.value, source.path) == Some(r.price)
  {
    match reply
    case NoReply => Threw
    case Answered(ok, body) =>
      if !ok || body.None? then Threw
      else
        var price := ExtractPrice(rt, body.value, source.path);
        if price.Some? && price.value > 0.0 then Fetched(price.value) else Threw
  }

  /** A reply that is `ok` and holds a positive number at the path is a success. */
  lemma FetchFromSourceSucceeds(rt: JsRuntime, source: AssetSource, data: Json, p: real)
    requires ExtractPrice(rt, data, source.path) == Some(p) && p > 0.0
    ensures FetchFromSource(rt, source, Answered(true, Some(data))) == Fetched(p)
  {
  }

  /** What each source's `fetchFromSource` gives, in source order. */
  function Outcomes(rt: JsRuntime, sources: seq<AssetSource>, replies: seq<Reply>): (r: seq<Outcome>)
    requires |sources| == |replies|
    ensures |r| == |sources|
    ensures forall i :: 0 <= i < |r| ==> r[i] == FetchFromSource(rt, sources[i], replies[i])
  {
    seq(|sources|, i requires 0 <= i < |sources| => FetchFromSource(rt, sources[i], replies[i]))
  }

  /** The prices the loop collects from the outcomes, in source order (`if (price > 0)`). */
  function Collected(outcomes: seq<Outcome>): seq<real>
    decreases |outcomes|
  {
    if outcomes == [] then []
    else
      var n := |outcomes| - 1;
      Collected(outcomes[..n]) + Contribution(outcomes[n])
  }

  /** The price one outcome adds to the list. */
  function Contribution(outcome: Outcome): seq<real> {
    if outcome.Fetched? && outcome.price > 0.0 then [outcome.price] else []
  }

  /** `(this.failureCount.get(name) || 0)`. */
  function PreviousFailures(counts: map<string, nat>, name: string): nat {
    if name in counts then counts[name] else 0
  }

  /** The counts after one source's outcome: a price resets its count, a throw adds one. */
  function Recorded(counts: map<string, nat>, name: string, outcome: Outcome): map<string, nat> {
    match outcome
    case Fetched(p) => if p > 0.0 then counts[name := 0] else counts
    case Threw => counts[name := PreviousFailures(counts, name) + 1]
  }

  /** The failure counts after the loop has seen the outcomes of the first sources. */
  function Tally(counts: map<string, nat>, sources: seq<AssetSource>, outcomes: seq<Outcome>): map<string, nat>
    requires |sources| == |outcomes|
    decreases |sources|
  {
    if sources == [] then counts
    else
      var n := |sources| - 1;
      Recorded(Tally(counts, sources[..n], outcomes[..n]), sources[n].name, outcomes[n])
  }

  /** One more source, as the loop sees it. */
  lemma Extended(counts: map<string, nat>, sources: seq<AssetSource>, outcomes: seq<Outcome>, i: nat)
    requires |sources| == |outcomes| && i < |sources|
    ensures Tally(counts, sources[..i + 1], outcomes[..i + 1])
         == Recorded(Tally(counts, sources[..i], outcomes[..i]), sources[i].name, outcomes[i])
    ensures Collected(outcomes[..i + 1]) == Collected(outcomes[..i]) + Contribution(outcomes[i])
  {
    assert sources[..i + 1][..i] == sources[..i];
    assert outcomes[..i + 1][..i] == outcomes[..i];
  }

  class PriceFetcher {
    var failureCount: map<string, nat>

    constructor ()
      ensures failureCount == map[]
    {
      failureCount := map[];
    }

    /**
      `fetchPrice`: asks every source of the asset in order, then returns null when no price was
      collected, and otherwise the median of the collected prices with their count.
     */
    method FetchPrice(rt: JsRuntime, asset: AssetConfig, replies: seq<Reply>, now: int) returns (r: Option<PriceData>)
      requires |replies| == |asset.sources|
      modifies this`failureCount
      ensures var outcomes := Outcomes(rt, asset.sources, replies);
        var prices := Collected(outcomes);
        && failureCount == Tally(old(failureCount), asset.sources, outcomes)
        && (r.None? <==> prices == [])
        && (r.Some? ==> r.value == PriceData(asset.id, CalculateMedian(prices), |prices|, now))
    {
      var prices, successfulSources := CollectPrices(rt, asset.sources, replies);
      if |prices| == 0 {
        return None;
      }
      var median := CalculateMedian(prices);
      r := Some(PriceData(asset.id, median, successfulSources, now));
    }

    /** The loop of `fetchPrice`: each source in order, its price collected or its failure counted. */
    method CollectPrices(rt: JsRuntime, sources: seq<AssetSource>, replies: seq<Reply>)
      returns (prices: seq<real>, successfulSources: nat)
      requires |replies| == |sources|
      modifies this`failureCount
      ensures var outcomes := Outcomes(rt, sources, replies);
        && prices == Collected(outcomes)
        && successfulSources == |prices|
        && failureCount == Tally(old(failureCount), sources, outcomes)
    {
      ghost var outcomes := Outcomes(rt, sources, replies);
      prices := [];
      successfulSources := 0;
      for i := 0 to |sources|
        invariant prices == Collected(outcomes[..i])
        invariant successfulSources == |prices|
        invariant failureCount == Tally(old(failureCount), sources[..i], outcomes[..i])
      {
        Extended(old(failureCount), sources, outcomes, i);
        var outcome := VisitSource(rt, sources[i], replies[i]);
        assert outcome == outcomes[i];
        if outcome.Fetched? && outcome.price > 0.0 {
          prices := prices + [outcome.price];
          successfulSources := successfulSources + 1;
        }
      }
      assert sources[..|sources|] == sources;
      assert outcomes[..|outcomes|] == outcomes;
    }

    /**
      The `try`/`catch` of one source: a positive price resets the source's count, a throw adds
      one to it.
     */
    method VisitSource(rt: JsRuntime, source: AssetSource, reply: Reply) returns (outcome: Outcome)
      modifies this`failureCount
      ensures outcome == FetchFromSource(rt, source, reply)
      ensures failureCount == Recorded(old(failureCount), source.name, outcome)
    {
      outcome := FetchFromSource(rt, source, reply);
      match outcome
      case Fetched(price) =>
        if price > 0.0 {
          ResetFailures(source.name);
        }
      case Threw =>
        CountFailure(source.name);
    }

    /** A source that gave a price has its count set back to 0. */
    method ResetFailures(name: string)
      modifies this`failureCount
      ensures failureCount == old(failureCount)[name := 0]
    {
      failureCount := failureCount[name := 0];
    }

    /** A source that threw has its count raised by one, from 0 when it had none. */
    method CountFailure(name: string)
      modifies this`failureCount
      ensures failureCount == old(failureCount)[name := PreviousFailures(old(failureCount), name) + 1]
    {
      var failures := (if name in failureCount then failureCount[name] else 0) + 1;
      failureCount := failureCount[name := failures];
    }

    /** `getFailureStats`: the counts, as a value that later fetches do not change. */
    function GetFailureStats(): (r: map<string, nat>)
      reads this
      ensures r == failureCount
    {
      failureCount
    }
  }

  // ---------------------------------------------------------------- properties of a fetch

  /** Every collected price is positive, and there are at most as many as outcomes. */
  lemma {:induction false} CollectedPositive(outcomes: seq<Outcome>)
    ensures forall p :: p in Collected(outcomes) ==> p > 0.0
    ensures |Collected(outcomes)| <= |outcomes|
    decreases |outcomes|
  {
    if outcomes != [] {
      CollectedPositive(outcomes[..|outcomes| - 1]);
    }
  }

  /** No price is collected exactly when no outcome is a positive price. */
  lemma {:induction false} CollectedEmptyIffNoPrice(outcomes: seq<Outcome>)
    ensures Collected(outcomes) == [] <==>
      forall i :: 0 <= i < |outcomes| ==> !(outcomes[i].Fetched? && outcomes[i].price > 0.0)
    decreases |outcomes|
  {
    if outcomes != [] {
      var n := |outcomes| - 1;
      CollectedEmptyIffNoPrice(outcomes[..n]);
      assert forall i :: 0 <= i < n ==> outcomes[..n][i] == outcomes[i];
    }
  }

  /** A fetch returns null exactly when every source threw. */
  lemma FetchNullIffAllThrew(rt: JsRuntime, sources: seq<AssetSource>, replies: seq<Reply>)
    requires |sources| == |replies|
    ensures Collected(Outcomes(rt, sources, replies)) == [] <==>
      forall i :: 0 <= i < |sources| ==> FetchFromSource(rt, sources[i], replies[i]).Threw?
  {
    var outcomes := Outcomes(rt, sources, replies);
    CollectedEmptyIffNoPrice(outcomes);
  }

  /** The names of the sources. */
  function Names(sources: seq<AssetSource>): set<string> {
    set i | 0 <= i < |sources| :: sources[i].name
  }

  /** Counts of names that are not among the sources stay as they were. */
  lemma {:induction false} TallyLeavesOthers(counts: map<string, nat>, sources: seq<AssetSource>, outcomes: seq<Outcome>, name: string)
    requires |sources| == |outcomes| && name !in Names(sources)
    ensures var after := Tally(counts, sources, outcomes);
      (name in after <==> name in counts) && (name in counts ==> after[name] == counts[name])
    decreases |sources|
  {
    if sources != [] {
      var n := |sources| - 1;
      assert Names(sources[..n]) <= Names(sources) by {
        forall x | x in Names(sources[..n]) ensures x in Names(sources) {
          var i :| 0 <= i < n && sources[..n][i].name == x;
          assert sources[i].name == x;
        }
      }
      assert sources[n].name in Names(sources);
      TallyLeavesOthers(counts, sources[..n], outcomes[..n], name);
    }
  }

  /** After a fetch every source name has a count; no other name gains one. */
  lemma {:induction false} TallyKeys(counts: map<string, nat>, sources: seq<AssetSource>, outcomes: seq<Outcome>)
    requires |sources| == |outcomes|
    requires forall i :: 0 <= i < |outcomes| ==> outcomes[i].Threw? || outcomes[i].price > 0.0
    ensures Tally(counts, sources, outcomes).Keys == counts.Keys + Names(sources)
    decreases |sources|
  {
    if sources != [] {
      var n := |sources| - 1;
      assert forall i :: 0 <= i < n ==> outcomes[..n][i] == outcomes[i];
      TallyKeys(counts, sources[..n], outcomes[..n]);
      assert Names(sources) == Names(sources[..n]) + {sources[n].name} by {
        forall x | x in Names(sources) ensures x in Names(sources[..n]) + {sources[n].name} {
          var i :| 0 <= i < |sources| && sources[i].name == x;
          if i < n { assert sources[..n][i].name == x; }
        }
        forall x | x in Names(sources[..n]) ensures x in Names(sources) {
          var i :| 0 <= i < n && sources[..n][i].name == x;
          assert sources[i].name == x;
        }
      }
    }
  }

  /** After `fetchPrice` every source name has a count, and no other name gains one. */
  lemma FetchCountsEverySource(counts: map<string, nat>, rt: JsRuntime, sources: seq<AssetSource>, replies: seq<Reply>)
    requires |sources| == |replies|
    ensures Tally(counts, sources, Outcomes(rt, sources, replies)).Keys == counts.Keys + Names(sources)
  {
    TallyKeys(counts, sources, Outcomes(rt, sources, replies));
  }

  /** The number of sources with the given name. */
  function Occurrences(name: string, sources: seq<AssetSource>): nat
    decreases |sources|
  {
    if sources == [] then 0
    else
      var n := |sources| - 1;
      Occurrences(name, sources[..n]) + (if sources[n].name == name then 1 else 0)
  }

  /** When every source of that name threw, its count grew by one per source. */
  lemma {:induction false} TallyAllThrew(counts: map<string, nat>, sources: seq<AssetSource>, outcomes: seq<Outcome>, name: string)
    requires |sources| == |outcomes|
    requires forall i :: 0 <= i < |sources| && sources[i].name == name ==> outcomes[i].Threw?
    ensures PreviousFailures(Tally(counts, sources, outcomes), name) == PreviousFailures(counts, name) + Occurrences(name, sources)
    decreases |sources|
  {
    if sources != [] {
      var n := |sources| - 1;
      assert forall i :: 0 <= i < n ==> sources[..n][i] == sources[i] && outcomes[..n][i] == outcomes[i];
      TallyAllThrew(counts, sources[..n], outcomes[..n], name);
    }
  }

  /** When the last source of that name gave a price, its count is back to 0. */
  lemma {:induction false} TallyResetBySuccess(counts: map<string, nat>, sources: seq<AssetSource>, outcomes: seq<Outcome>, k: nat)
    requires |sources| == |outcomes| && k < |sources|
    requires outcomes[k].Fetched? && outcomes[k].price > 0.0
    requires forall i :: k < i < |sources| ==> sources[i].name != sources[k].name
    ensures sources[k].name in Tally(counts, sources, outcomes)
    ensures Tally(counts, sources, outcomes)[sources[k].name] == 0
    decreases |sources|
  {
    var n := |sources| - 1;
    if k < n {
      assert sources[..n][k] == sources[k] && outcomes[..n][k] == outcomes[k];
      assert forall i :: k < i < n ==> sources[..n][i] == sources[i];
      TallyResetBySuccess(counts, sources[..n], outcomes[..n], k);
    }
  }

  /** In one step a count is reset to 0, grows by exactly one, or stays as it was. */
  lemma TallyStep(counts: map<string, nat>, sources: seq<AssetSource>, outcomes: seq<Outcome>)
    requires |sources| == |outcomes| && sources != []
    ensures var n := |sources| - 1;
      var before := Tally(counts, sources[..n], outcomes[..n]);
      var after := Tally(counts, sources, outcomes);
      var name := sources[n].name;
      && (forall x :: x != name ==> (x in after <==> x in before) && (x in before ==> after[x] == before[x]))
      && (after == before || (name in after && (after[name] == 0 || after[name] == PreviousFailures(before, name) + 1)))
  {
  }
}
