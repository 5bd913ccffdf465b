/**
  The on-chain `Oracle` contract as a class. The block's predecessor account (`caller`) and its
  timestamp (`now`, in nanoseconds) are parameters of the methods that read them. A call that
  panics returns `Reverted(reason)` and leaves the state as it was, since a panic undoes every
  write of the transaction.
 */
module OracleContract {
  import opened Wrappers
  import opened OracleTypes
  import opened Aggregation
  import opened Governance

  const DEFAULT_ATTESTATION_MAX_AGE: uint64 := 600_000_000_000
  const DEFAULT_QUORUM_BPS: uint16 := 5_000
  const NANOS_PER_SECOND: nat := 1_000_000_000

  /** A minimum report count of at least 1 and a quorum of 1 to 10000 basis points. */
  ghost predicate ConfigOk(minReportCount: uint8, quorumBps: uint16) {
    minReportCount >= 1 && 1 <= quorumBps <= BPS_DENOMINATOR
  }

  /** Every listed asset id is defined. */
  ghost predicate AssetsOk(assetList: seq<string>, assets: map<string, Asset>) {
    forall i :: 0 <= i < |assetList| ==> assetList[i] in assets
  }

  /** A node is authorized exactly when it has details, and then it has an operator. */
  ghost predicate NodesOk(authorized: set<AccountId>, details: map<AccountId, OracleNode>, nodeToOperator: map<AccountId, AccountId>) {
    authorized == details.Keys && authorized <= nodeToOperator.Keys
  }

  /**
    A stored proposal is filed under its own id, which the counter has reached; it is never
    marked executed (execution removes it); its approvals are distinct current voters.
   */
  ghost predicate ProposalOk(p: AdminProposal, id: uint64, counter: uint64, voters: set<AccountId>) {
    && p.id == id && 1 <= id <= counter
    && !p.executed
    && (forall i, j :: 0 <= i < j < |p.approvals| ==> p.approvals[i] != p.approvals[j])
    && (forall i :: 0 <= i < |p.approvals| ==> p.approvals[i] in voters)
  }

  ghost predicate ProposalsOk(proposals: map<uint64, AdminProposal>, counter: uint64, voters: set<AccountId>) {
    forall id :: id in proposals ==> ProposalOk(proposals[id], id, counter, voters)
  }

  /** The asset's stored reports, or none (`unwrap_or_default`). */
  function StoredIn(reports: map<string, seq<PriceReport>>, assetId: string): seq<PriceReport> {
    if assetId in reports then reports[assetId] else []
  }

  /** The cascade of `internal_remove_node_operator` finalizes a listed, defined asset with reports. */
  predicate Cascaded(assetId: string, listed: seq<string>, assets: map<string, Asset>, before: map<string, seq<PriceReport>>) {
    assetId in listed && assetId in assets && assetId in before
  }

  /** What the cascade leaves for such an asset: its reports without the node's, finalized. */
  function CascadeSlot(assetId: string, node: AccountId, assets: map<string, Asset>, before: map<string, seq<PriceReport>>,
                       now: uint64, threshold: uint64, minReportCount: uint8): Slot
    requires assetId in assets && assetId in before
  {
    Finalize(WithoutOracle(before[assetId], node), assets[assetId], now, threshold, minReportCount)
  }

  /**
    The book part way through the cascade: the assets visited so far hold their cascade slot,
    every other asset its slot from before.
   */
  ghost predicate CascadeHolds(reports: map<string, seq<PriceReport>>, prices: map<string, Price>, listed: seq<string>,
                               assets: map<string, Asset>, node: AccountId, now: uint64, threshold: uint64, minReportCount: uint8,
                               before: map<string, seq<PriceReport>>, beforePrices: map<string, Price>)
  {
    forall a ::
      SlotIn(reports, prices, a) ==
        if Cascaded(a, listed, assets, before)
        then CascadeSlot(a, node, assets, before, now, threshold, minReportCount)
        else SlotIn(before, beforePrices, a)
  }

  /** Passing over an asset without stored reports or without a definition leaves the book as it is. */
  lemma CascadeSkip(reports: map<string, seq<PriceReport>>, prices: map<string, Price>, listed: seq<string>, assetId: string,
                    assets: map<string, Asset>, node: AccountId, now: uint64, threshold: uint64, minReportCount: uint8,
                    before: map<string, seq<PriceReport>>, beforePrices: map<string, Price>)
    requires CascadeHolds(reports, prices, listed, assets, node, now, threshold, minReportCount, before, beforePrices)
    requires assetId !in reports || assetId !in assets
    ensures CascadeHolds(reports, prices, listed + [assetId], assets, node, now, threshold, minReportCount, before, beforePrices)
  {
    forall a ensures Cascaded(a, listed + [assetId], assets, before) == Cascaded(a, listed, assets, before) {
      assert !Cascaded(a, listed, assets, before) ==> SlotIn(reports, prices, a) == SlotIn(before, beforePrices, a);
    }
  }

  /** Visiting a defined asset with stored reports puts its cascade slot in place. */
  lemma CascadeVisit(reports: map<string, seq<PriceReport>>, prices: map<string, Price>, listed: seq<string>, assetId: string,
                     assets: map<string, Asset>, node: AccountId, now: uint64, threshold: uint64, minReportCount: uint8,
                     before: map<string, seq<PriceReport>>, beforePrices: map<string, Price>)
    requires CascadeHolds(reports, prices, listed, assets, node, now, threshold, minReportCount, before, beforePrices)
    requires assetId in reports && assetId in assets
    requires Cascaded(assetId, listed, assets, before) ==>
      Finalize(WithoutOracle(reports[assetId], node), assets[assetId], now, threshold, minReportCount)
        == CascadeSlot(assetId, node, assets, before, now, threshold, minReportCount)
    ensures var s := Finalize(WithoutOracle(reports[assetId], node), assets[assetId], now, threshold, minReportCount);
      CascadeHolds(Place(reports, assetId, s.reports), Place(prices, assetId, s.aggregated), listed + [assetId],
                   assets, node, now, threshold, minReportCount, before, beforePrices)
  {
    var s := Finalize(WithoutOracle(reports[assetId], node), assets[assetId], now, threshold, minReportCount);
    if !Cascaded(assetId, listed, assets, before) {
      assert SlotIn(reports, prices, assetId) == SlotIn(before, beforePrices, assetId);
    }
    forall a ensures SlotIn(Place(reports, assetId, s.reports), Place(prices, assetId, s.aggregated), a) ==
        if Cascaded(a, listed + [assetId], assets, before)
        then CascadeSlot(a, node, assets, before, now, threshold, minReportCount)
        else SlotIn(before, beforePrices, a)
    {
      PlaceSlotIn(reports, prices, assetId, s, a);
      if a != assetId {
        assert Cascaded(a, listed + [assetId], assets, before) == Cascaded(a, listed, assets, before);
      }
    }
  }

  class Oracle {
    const owner: AccountId
    var paused: bool
    // The asset registry: the definitions by id, and the ids in the order they were added.
    var assets: map<string, Asset>
    var assetList: seq<string>
    // The price book.
    var priceReports: map<string, seq<PriceReport>>
    var aggregatedPrices: map<string, Price>
    // Operators, their node accounts and the registered nodes.
    var authorizedNodes: set<AccountId>
    var nodeDetails: map<AccountId, OracleNode>
    var whitelistedOperators: set<AccountId>
    var operatorToNode: map<AccountId, AccountId>
    var nodeToOperator: map<AccountId, AccountId>
    // Which enclave builds may register: approved code hashes, and the measurement each must show.
    var approvedCodeHashes: set<string>
    var approvedEnclaves: map<string, string>
    var recencyThreshold: uint64
    var minReportCount: uint8
    var attestationMaxAge: uint64
    // Governance.
    var adminProposers: set<AccountId>
    var adminVoters: set<AccountId>
    var adminTimelockDelay: uint64
    var adminQuorumBps: uint16
    var proposals: map<uint64, AdminProposal>
    var proposalCounter: uint64

    /** The invariant every entry point keeps. */
    ghost predicate Valid()
      reads this`minReportCount, this`adminQuorumBps, this`assetList, this`assets, this`priceReports,
        this`aggregatedPrices, this`authorizedNodes, this`nodeDetails, this`nodeToOperator, this`proposals,
        this`proposalCounter, this`adminVoters
    {
      && ConfigOk(minReportCount, adminQuorumBps)
      && AssetsOk(assetList, assets)
      && BookConsistent(priceReports, aggregatedPrices)
      && NodesOk(authorizedNodes, nodeDetails, nodeToOperator)
      && ProposalsOk(proposals, proposalCounter, adminVoters)
    }

    /** `new`: an empty contract; a minimum report count of 0 is stored as 1. */
    constructor (owner: AccountId, recencyThreshold: uint64, minReportCount: uint8)
      ensures Valid()
      ensures this.owner == owner && !paused
      ensures assets == map[] && assetList == [] && priceReports == map[] && aggregatedPrices == map[]
      ensures authorizedNodes == {} && nodeDetails == map[] && whitelistedOperators == {}
      ensures operatorToNode == map[] && nodeToOperator == map[]
      ensures approvedCodeHashes == {} && approvedEnclaves == map[]
      ensures this.recencyThreshold == recencyThreshold
      ensures this.minReportCount == if minReportCount >= 1 then minReportCount else 1
      ensures attestationMaxAge == DEFAULT_ATTESTATION_MAX_AGE
      ensures adminProposers == {} && adminVoters == {} && adminTimelockDelay == 0
      ensures adminQuorumBps == DEFAULT_QUORUM_BPS && proposals == map[] && proposalCounter == 0
    {
      this.owner := owner;
      paused := false;
      assets := map[];
      assetList := [];
      priceReports := map[];
      aggregatedPrices := map[];
      authorizedNodes := {};
      nodeDetails := map[];
      whitelistedOperators := {};
      approvedCodeHashes := {};
      approvedEnclaves := map[];
      operatorToNode := map[];
      nodeToOperator := map[];
      this.recencyThreshold := recencyThreshold;
      this.minReportCount := if minReportCount >= 1 then minReportCount else 1;
      attestationMaxAge := DEFAULT_ATTESTATION_MAX_AGE;
      adminProposers := {};
      adminVoters := {};
      adminTimelockDelay := 0;
      adminQuorumBps := DEFAULT_QUORUM_BPS;
      proposals := map[];
      proposalCounter := 0;
    }

    // ---------------------------------------------------------------- owner entry points

    /** `add_asset`: registers (or redefines) an asset and appends its id to the list. */
    method AddAsset(caller: AccountId, asset: Asset) returns (status: Status)
      requires Valid()
      modifies this`assets, this`assetList
      ensures Valid()
      ensures status == if caller == owner then Ok else Reverted(NotOwner)
      ensures status.Reverted? ==> unchanged(this)
      ensures status.Ok? ==> assets == old(assets)[asset.id := asset] && assetList == old(assetList) + [asset.id]
    {
      if caller != owner {
        return Reverted(NotOwner);
      }
      assets := assets[asset.id := asset];
      assetList := assetList + [asset.id];
      status := Ok;
    }

    /** `add_node_operator`. */
    method AddNodeOperator(caller: AccountId, operator: AccountId) returns (status: Status)
      requires Valid()
      modifies this`whitelistedOperators
      ensures Valid()
      ensures status == if caller == owner then Ok else Reverted(NotOwner)
      ensures status.Reverted? ==> unchanged(this)
      ensures status.Ok? ==> whitelistedOperators == old(whitelistedOperators) + {operator}
    {
      if caller != owner {
        return Reverted(NotOwner);
      }
      AddNodeOperatorInternal(operator);
      status := Ok;
    }

    /** `remove_node_operator`. */
    method RemoveNodeOperator(caller: AccountId, operator: AccountId, now: uint64) returns (status: Status)
      requires Valid()
      modifies this`whitelistedOperators, this`operatorToNode, this`nodeToOperator, this`authorizedNodes,
        this`nodeDetails, this`priceReports, this`aggregatedPrices
      ensures Valid()
      ensures status == if caller == owner then Ok else Reverted(NotOwner)
      ensures status.Reverted? ==> unchanged(this)
      ensures status.Ok? ==> OperatorRemoved(operator, now)
    {
      if caller != owner {
        return Reverted(NotOwner);
      }
      RemoveNodeOperatorInternal(operator, now);
      status := Ok;
    }

    /** `approve_code_hash`. */
    method ApproveCodeHash(caller: AccountId, codeHash: string) returns (status: Status)
      requires Valid()
      modifies this`approvedCodeHashes
      ensures Valid()
      ensures status == if caller == owner then Ok else Reverted(NotOwner)
      ensures status.Reverted? ==> unchanged(this)
      ensures status.Ok? ==> approvedCodeHashes == old(approvedCodeHashes) + {codeHash}
    {
      if caller != owner {
        return Reverted(NotOwner);
      }
      approvedCodeHashes := approvedCodeHashes + {codeHash};
      status := Ok;
    }

    /** `remove_code_hash`: withdraws the hash and the measurement approved for it. */
    method RemoveCodeHash(caller: AccountId, codeHash: string) returns (status: Status)
      requires Valid()
      modifies this`approvedCodeHashes, this`approvedEnclaves
      ensures Valid()
      ensures status == if caller == owner then Ok else Reverted(NotOwner)
      ensures status.Reverted? ==> unchanged(this)
      ensures status.Ok? ==>
        approvedCodeHashes == old(approvedCodeHashes) - {codeHash} && approvedEnclaves == old(approvedEnclaves) - {codeHash}
    {
      if caller != owner {
        return Reverted(NotOwner);
      }
      RemoveCodeHashInternal(codeHash);
      status := Ok;
    }

    /** `approve_attestation`: the owner may approve a measurement only for an approved code hash. */
    method ApproveAttestation(caller: AccountId, codeHash: string, mrEnclave: string) returns (status: Status)
      requires Valid()
      modifies this`approvedEnclaves
      ensures Valid()
      ensures status ==
        if caller != owner then Reverted(NotOwner)
        else if codeHash !in approvedCodeHashes then Reverted(CodeHashMustBeApprovedFirst)
        else Ok
      ensures status.Reverted? ==> unchanged(this)
      ensures status.Ok? ==> approvedEnclaves == old(approvedEnclaves)[codeHash := mrEnclave]
    {
      if caller != owner {
        return Reverted(NotOwner);
      }
      if codeHash !in approvedCodeHashes {
        return Reverted(CodeHashMustBeApprovedFirst);
      }
      approvedEnclaves := approvedEnclaves[codeHash := mrEnclave];
      status := Ok;
    }

    /** `remove_attestation`. */
    method RemoveAttestation(caller: AccountId, codeHash: string) returns (status: Status)
      requires Valid()
      modifies this`approvedEnclaves
      ensures Valid()
      ensures status == if caller == owner then Ok else Reverted(NotOwner)
      ensures status.Reverted? ==> unchanged(this)
      ensures status.Ok? ==> approvedEnclaves == old(approvedEnclaves) - {codeHash}
    {
      if caller != owner {
        return Reverted(NotOwner);
      }
      approvedEnclaves := approvedEnclaves - {codeHash};
      status := Ok;
    }

    /** `pause` and `resume`. */
    method SetPaused(caller: AccountId, pause: bool) returns (status: Status)
      requires Valid()
      modifies this`paused
      ensures Valid()
      ensures status == if caller == owner then Ok else Reverted(NotOwner)
      ensures status.Reverted? ==> unchanged(this)
      ensures status.Ok? ==> paused == pause
    {
      if caller != owner {
        return Reverted(NotOwner);
      }
      paused := pause;
      status := Ok;
    }

    /** `update_config`. */
    method UpdateConfig(caller: AccountId, threshold: Option<uint64>, count: Option<uint8>) returns (status: Status)
      requires Valid()
      modifies this`recencyThreshold, this`minReportCount
      ensures Valid()
      ensures status == if caller == owner then Ok else Reverted(NotOwner)
      ensures status.Reverted? ==> unchanged(this)
      ensures status.Ok? ==> ConfigUpdated(threshold, count)
    {
      if caller != owner {
        return Reverted(NotOwner);
      }
      UpdateConfigInternal(threshold, count);
      status := Ok;
    }

    /** `set_attestation_max_age`: the maximum age must be positive. */
    method SetAttestationMaxAge(caller: AccountId, maxAge: uint64) returns (status: Status)
      requires Valid()
      modifies this`attestationMaxAge
      ensures Valid()
      ensures status ==
        if caller != owner then Reverted(NotOwner)
        else if maxAge == 0 then Reverted(MaxAgeNotPositive)
        else Ok
      ensures status.Reverted? ==> unchanged(this)
      ensures status.Ok? ==> attestationMaxAge == maxAge
    {
      if caller != owner {
        return Reverted(NotOwner);
      }
      if maxAge == 0 {
        return Reverted(MaxAgeNotPositive);
      }
      attestationMaxAge := maxAge;
      status := Ok;
    }

    // ---------------------------------------------------------------- operators and nodes

    /**
      `set_node_account`: a whitelisted operator names its node account; the operator's previous
      node loses its operator link, its authorization and its details.
     */
    method SetNodeAccount(caller: AccountId, node: AccountId) returns (status: Status)
      requires Valid()
      modifies this`operatorToNode, this`nodeToOperator, this`authorizedNodes, this`nodeDetails
      ensures Valid()
      ensures status == if caller in whitelistedOperators then Ok else Reverted(NotWhitelistedOperator)
      ensures status.Reverted? ==> unchanged(this)
      ensures status.Ok? ==> operatorToNode == old(operatorToNode)[caller := node]
      ensures status.Ok? && caller !in old(operatorToNode) ==>
        && nodeToOperator == old(nodeToOperator)[node := caller]
        && authorizedNodes == old(authorizedNodes) && nodeDetails == old(nodeDetails)
      ensures status.Ok? && caller in old(operatorToNode) ==>
        (var previous := old(operatorToNode)[caller];
         && nodeToOperator == (old(nodeToOperator) - {previous})[node := caller]
         && authorizedNodes == old(authorizedNodes) - {previous}
         && nodeDetails == old(nodeDetails) - {previous})
    {
      if caller !in whitelistedOperators {
        return Reverted(NotWhitelistedOperator);
      }
      if caller in operatorToNode {
        var previous := operatorToNode[caller];
        nodeToOperator := nodeToOperator - {previous};
        authorizedNodes := authorizedNodes - {previous};
        nodeDetails := nodeDetails - {previous};
      }
      operatorToNode := operatorToNode[caller := node];
      nodeToOperator := nodeToOperator[node := caller];
      status := Ok;
    }

    /** The checks of `register_node`, all of which must pass. */
    predicate RegistrationAccepted(node: AccountId, codeHash: string, attestation: AttestationData, now: uint64)
      reads this
    {
      && node in nodeToOperator
      && nodeToOperator[node] in whitelistedOperators
      && codeHash in approvedCodeHashes
      && codeHash in approvedEnclaves
      && approvedEnclaves[codeHash] == attestation.mrEnclave
      && SaturatingSub(now, attestation.issuedAt) <= attestationMaxAge
    }

    /**
      `register_node`: a node account linked to a whitelisted operator presents an approved code
      hash and an attestation that shows the approved measurement and is not too old.
     */
    method RegisterNode(caller: AccountId, codeHash: string, attestation: AttestationData, now: uint64)
      returns (status: Status)
      requires Valid()
      modifies this`authorizedNodes, this`nodeDetails
      ensures Valid()
      ensures status.Ok? <==> old(RegistrationAccepted(caller, codeHash, attestation, now))
      ensures status ==
        if caller !in nodeToOperator then Reverted(NodeAccountNotSet)
        else if nodeToOperator[caller] !in whitelistedOperators then Reverted(OperatorNotWhitelisted)
        else if codeHash !in approvedCodeHashes then Reverted(CodeHashNotApproved)
        else if codeHash !in approvedEnclaves then Reverted(AttestationNotApproved)
        else if approvedEnclaves[codeHash] != attestation.mrEnclave then Reverted(AttestationMismatch)
        else if SaturatingSub(now, attestation.issuedAt) > attestationMaxAge then Reverted(AttestationExpired)
        else Ok
      ensures status.Reverted? ==> unchanged(this)
      ensures status.Ok? ==>
        && authorizedNodes == old(authorizedNodes) + {caller}
        && nodeDetails == old(nodeDetails)[caller := OracleNode(caller, nodeToOperator[caller], now, codeHash, 0, true)]
    {
      if caller !in nodeToOperator {
        return Reverted(NodeAccountNotSet);
      }
      var operator := nodeToOperator[caller];
      if operator !in whitelistedOperators {
        return Reverted(OperatorNotWhitelisted);
      }
      if codeHash !in approvedCodeHashes {
        return Reverted(CodeHashNotApproved);
      }
      if codeHash !in approvedEnclaves {
        return Reverted(AttestationNotApproved);
      }
      if approvedEnclaves[codeHash] != attestation.mrEnclave {
        return Reverted(AttestationMismatch);
      }
      if SaturatingSub(now, attestation.issuedAt) > attestationMaxAge {
        return Reverted(AttestationExpired);
      }
      authorizedNodes := authorizedNodes + {caller};
      nodeDetails := nodeDetails[caller := OracleNode(caller, operator, now, codeHash, 0, true)];
      status := Ok;
    }

    // ---------------------------------------------------------------- the price book

    /**
      `report_price`: an authorized node reports a multiplier for a known asset, in the asset's
      decimals. Its previous report for the asset is replaced, the book is finalized at `now`,
      and the node's last report time is recorded.
     */
    method ReportPrice(caller: AccountId, assetId: string, multiplier: uint128, decimals: uint8, now: uint64)
      returns (status: Status)
      requires Valid()
      modifies this`priceReports, this`aggregatedPrices, this`nodeDetails
      ensures Valid()
      ensures status ==
        if paused then Reverted(OraclePaused)
        else if caller !in authorizedNodes then Reverted(NotAuthorizedNode)
        else if assetId !in assets then Reverted(AssetNotFound)
        else if assets[assetId].decimals != decimals then Reverted(DecimalsMismatch)
        else Ok
      ensures status.Reverted? ==> unchanged(this)
      ensures status.Ok? ==>
        var report := PriceReport(caller, Price(multiplier, decimals, now), now);
        var s := Finalize(ReplaceReport(StoredIn(old(priceReports), assetId), report), assets[assetId], now, recencyThreshold, minReportCount);
        && priceReports == Place(old(priceReports), assetId, s.reports)
        && aggregatedPrices == Place(old(aggregatedPrices), assetId, s.aggregated)
        && nodeDetails == old(nodeDetails)[caller := old(nodeDetails)[caller].(lastReport := now)]
    {
      if paused {
        return Reverted(OraclePaused);
      }
      if caller !in authorizedNodes {
        return Reverted(NotAuthorizedNode);
      }
      if assetId !in assets {
        return Reverted(AssetNotFound);
      }
      var asset := assets[assetId];
      if asset.decimals != decimals {
        return Reverted(DecimalsMismatch);
      }
      status := Ok;
      var timestamp := now;
      RecordReport(assetId, asset, PriceReport(caller, Price(multiplier, decimals, timestamp), timestamp), now);
      NoteLastReport(caller, timestamp);
    }

    /** The last step of `report_price`: a registered node's last report time is updated. */
    method NoteLastReport(account: AccountId, timestamp: uint64)
      requires NodesOk(authorizedNodes, nodeDetails, nodeToOperator)
      modifies this`nodeDetails
      ensures NodesOk(authorizedNodes, nodeDetails, nodeToOperator)
      ensures nodeDetails ==
        if account in old(nodeDetails) then old(nodeDetails)[account := old(nodeDetails)[account].(lastReport := timestamp)]
        else old(nodeDetails)
    {
      if account in nodeDetails {
        var node := nodeDetails[account];
        nodeDetails := nodeDetails[account := node.(lastReport := timestamp)];
        assert nodeDetails.Keys == old(nodeDetails.Keys);
      }
    }

    /**
      The book update of `report_price`: the reporter's previous report is dropped, the new one
      appended, and the list finalized.
     */
    method RecordReport(assetId: string, asset: Asset, report: PriceReport, now: uint64)
      requires BookConsistent(priceReports, aggregatedPrices)
      modifies this`priceReports, this`aggregatedPrices
      ensures BookConsistent(priceReports, aggregatedPrices)
      ensures var s := Finalize(ReplaceReport(StoredIn(old(priceReports), assetId), report), asset, now, recencyThreshold, minReportCount);
        && priceReports == Place(old(priceReports), assetId, s.reports)
        && aggregatedPrices == Place(old(aggregatedPrices), assetId, s.aggregated)
    {
      assert SlotIn(priceReports, aggregatedPrices, assetId).Consistent();
      var reports := StoredIn(priceReports, assetId);
      reports := WithoutOracle(reports, report.oracleId) + [report];
      assert reports == ReplaceReport(StoredIn(old(priceReports), assetId), report);
      ReplaceReportSpec(StoredIn(old(priceReports), assetId), report);
      FinalizeReports(assetId, asset, reports, now);
    }

    /**
      `finalize_reports`: stores for the asset what `Finalize` prescribes and leaves every other
      asset alone.
     */
    method FinalizeReports(assetId: string, asset: Asset, reports: seq<PriceReport>, now: uint64)
      requires BookConsistent(priceReports, aggregatedPrices) && OneReportPerOracle(reports)
      modifies this`priceReports, this`aggregatedPrices
      ensures BookConsistent(priceReports, aggregatedPrices)
      ensures var s := Finalize(reports, asset, now, recencyThreshold, minReportCount);
        && priceReports == Place(old(priceReports), assetId, s.reports)
        && aggregatedPrices == Place(old(aggregatedPrices), assetId, s.aggregated)
    {
      ghost var s := Finalize(reports, asset, now, recencyThreshold, minReportCount);
      FinalizeConsistent(reports, asset, now, recencyThreshold, minReportCount);
      PlaceConsistent(priceReports, aggregatedPrices, assetId, s);
      // `retain` of the reports no older than `now - threshold`, when a threshold is set.
      var kept := FreshReports(reports, now, recencyThreshold);
      if |kept| == 0 {
        priceReports := priceReports - {assetId};
        aggregatedPrices := aggregatedPrices - {assetId};
      } else {
        var required := RequiredSources(minReportCount, asset.minSources);
        priceReports := priceReports[assetId := kept];
        if |kept| < required {
          aggregatedPrices := aggregatedPrices - {assetId};
        } else {
          UpdateAggregatedPrice(assetId, kept);
        }
      }
    }

    /** `update_aggregated_price`: stores the aggregate of a non-empty report list. */
    method UpdateAggregatedPrice(assetId: string, reports: seq<PriceReport>)
      modifies this`aggregatedPrices
      ensures |reports| == 0 ==> aggregatedPrices == old(aggregatedPrices)
      ensures |reports| > 0 ==> aggregatedPrices == old(aggregatedPrices)[assetId := AggregatePrice(reports)]
    {
      if |reports| == 0 {
        return;
      }
      aggregatedPrices := aggregatedPrices[assetId := AggregatePrice(reports)];
    }

    // ---------------------------------------------------------------- views

    /**
      `get_price`: the aggregated price unless a threshold is set and it is older than that; the
      `num_sources` it reports is the stored report count cast to `u8`.
     */
    function GetPrice(assetId: string, now: uint64): (r: Option<PriceData>)
      reads this
      ensures r.Some? <==> assetId in aggregatedPrices && !IsStale(aggregatedPrices[assetId], now, recencyThreshold)
      ensures r.Some? ==>
        && r.value.assetId == assetId
        && r.value.price == aggregatedPrices[assetId]
        && r.value.numSources == TruncateToUint8(|StoredIn(priceReports, assetId)|)
    {
      if assetId !in aggregatedPrices then None
      else
        var price := aggregatedPrices[assetId];
        if recencyThreshold > 0 && SaturatingSub(now, price.timestamp) > recencyThreshold then None
        else Some(PriceData(assetId, price, TruncateToUint8(|StoredIn(priceReports, assetId)|)))
    }

    /** The price `get_price` publishes is the aggregate of the asset's stored reports. */
    lemma PublishedPriceIsAggregate(assetId: string, now: uint64)
      requires Valid() && GetPrice(assetId, now).Some?
      ensures assetId in priceReports && |priceReports[assetId]| > 0
      ensures GetPrice(assetId, now).value.price == AggregatePrice(priceReports[assetId])
    {
      assert SlotIn(priceReports, aggregatedPrices, assetId).Consistent();
    }

    /** The Pyth-compatible form of a stored price. */
    static function ToPythPrice(price: Price): (p: PythPrice)
      ensures p.price == WrapToInt64(price.multiplier) && p.conf == 0
      ensures p.expo == -(price.decimals as int) && p.publishTime == price.timestamp / NANOS_PER_SECOND
    {
      PythPrice(WrapToInt64(price.multiplier), 0, -(price.decimals as int), price.timestamp / NANOS_PER_SECOND)
    }

    /** `get_price_no_older_than`: the price, unless it is more than `maxAge` behind `now`. */
    function GetPriceNoOlderThan(assetId: string, maxAge: uint64, now: uint64): (r: Option<PythPrice>)
      reads this`aggregatedPrices
      ensures r.Some? <==> assetId in aggregatedPrices && SaturatingSub(now, aggregatedPrices[assetId].timestamp) <= maxAge
      ensures r.Some? ==> r.value == ToPythPrice(aggregatedPrices[assetId])
    {
      if assetId !in aggregatedPrices then None
      else if SaturatingSub(now, aggregatedPrices[assetId].timestamp) > maxAge then None
      else Some(ToPythPrice(aggregatedPrices[assetId]))
    }

    /** `get_price_unsafe`: the price regardless of its age. */
    function GetPriceUnsafe(assetId: string): (r: Option<PythPrice>)
      reads this`aggregatedPrices
      ensures r.Some? <==> assetId in aggregatedPrices
      ensures r.Some? ==> r.value == ToPythPrice(aggregatedPrices[assetId])
    {
      if assetId in aggregatedPrices then Some(ToPythPrice(aggregatedPrices[assetId])) else None
    }

    /** `is_authorized`: an authorized node is registered and linked to an operator. */
    function IsAuthorized(account: AccountId): (r: bool)
      reads this`authorizedNodes, this`nodeDetails, this`nodeToOperator
      requires NodesOk(authorizedNodes, nodeDetails, nodeToOperator)
      ensures r ==> account in nodeDetails && account in nodeToOperator
      ensures !r ==> account !in nodeDetails
    {
      account in authorizedNodes
    }

    /** `get_node_details`. */
    function GetNodeDetails(account: AccountId): (r: Option<OracleNode>)
      reads this`nodeDetails
    {
      if account in nodeDetails then Some(nodeDetails[account]) else None
    }

    /** A node has details exactly when it is authorized: registration and removal touch both. */
    lemma DetailsIffAuthorized(account: AccountId)
      requires Valid()
      ensures GetNodeDetails(account).Some? <==> IsAuthorized(account)
    {
    }

    /** `get_assets`: the definitions of the listed asset ids, in list order. */
    method GetAssets() returns (r: seq<Asset>)
      requires Valid()
      ensures |r| == |assetList|
      ensures forall i :: 0 <= i < |r| ==> r[i] == assets[assetList[i]]
    {
      r := [];
      var i := 0;
      while i < |assetList|
        invariant 0 <= i <= |assetList|
        invariant |r| == i
        invariant forall k :: 0 <= k < i ==> r[k] == assets[assetList[k]]
      {
        var assetId := assetList[i];
        if assetId in assets {
          r := r + [assets[assetId]];
        }
        i := i + 1;
      }
    }

    /** The `get_price` results of the listed `ids` that have a price, in list order, repeats included. */
    ghost function PriceDataOf(ids: seq<string>, now: uint64): (r: seq<PriceData>)
      reads this
      ensures |r| <= |ids|
      ensures forall d :: d in r ==> exists i :: 0 <= i < |ids| && GetPrice(ids[i], now) == Some(d)
      decreases |ids|
    {
      if ids == [] then []
      else
        var n := |ids| - 1;
        var data := GetPrice(ids[n], now);
        PriceDataOf(ids[..n], now) + (if data.Some? then [data.value] else [])
    }

    /** Every listed asset with a price contributes its data. */
    lemma {:induction false} PriceDataOfCovers(ids: seq<string>, now: uint64)
      ensures forall i :: 0 <= i < |ids| && GetPrice(ids[i], now).Some? ==> GetPrice(ids[i], now).value in PriceDataOf(ids, now)
      decreases |ids|
    {
      if ids != [] {
        var n := |ids| - 1;
        PriceDataOfCovers(ids[..n], now);
        assert forall i :: 0 <= i < n ==> ids[..n][i] == ids[i];
      }
    }

    /** An asset id listed `k` times contributes its data `k` times. */
    lemma {:induction false} PriceDataOfRepeats(ids: seq<string>, now: uint64, assetId: string)
      requires GetPrice(assetId, now).Some?
      ensures multiset(PriceDataOf(ids, now))[GetPrice(assetId, now).value] >= multiset(ids)[assetId]
      decreases |ids|
    {
      if ids != [] {
        var n := |ids| - 1;
        PriceDataOfRepeats(ids[..n], now, assetId);
        assert ids == ids[..n] + [ids[n]];
      }
    }

    /** `get_price_data`: `get_price` of every listed asset that has a current price, in list order. */
    method GetPriceData(now: uint64) returns (r: seq<PriceData>)
      ensures r == PriceDataOf(assetList, now)
    {
      r := [];
      var i := 0;
      while i < |assetList|
        invariant 0 <= i <= |assetList|
        invariant r == PriceDataOf(assetList[..i], now)
      {
        var data := GetPrice(assetList[i], now);
        assert assetList[..i + 1][..i] == assetList[..i];
        if data.Some? {
          r := r + [data.value];
        }
        i := i + 1;
      }
      assert assetList[..i] == assetList;
    }

    // ---------------------------------------------------------------- governance

    /**
      `configure_admin_role`: replaces proposers and voters (duplicates collapse), drops every
      pending proposal, and sets the timelock and the quorum, a quorum of 0 being stored as 1.
     */
    method ConfigureAdminRole(caller: AccountId, proposers: seq<AccountId>, voters: seq<AccountId>, timelockDelay: uint64, quorumBps: uint16)
      returns (status: Status)
      requires Valid()
      modifies this`adminProposers, this`adminVoters, this`proposals, this`adminTimelockDelay, this`adminQuorumBps
      ensures Valid()
      ensures status ==
        if caller != owner then Reverted(NotOwner)
        else if |voters| == 0 then Reverted(EmptyVoterSet)
        else if quorumBps > BPS_DENOMINATOR then Reverted(QuorumTooLarge)
        else Ok
      ensures status.Reverted? ==> unchanged(this)
      ensures status.Ok? ==>
        && adminProposers == (set p | p in proposers)
        && adminVoters == (set v | v in voters)
        && proposals == map[]
        && adminTimelockDelay == timelockDelay
        && adminQuorumBps == if quorumBps == 0 then 1 else quorumBps
    {
      if caller != owner {
        return Reverted(NotOwner);
      }
      if |voters| == 0 {
        return Reverted(EmptyVoterSet);
      }
      if quorumBps > BPS_DENOMINATOR {
        return Reverted(QuorumTooLarge);
      }
      var proposerSet := CollectAccounts(proposers);
      var voterSet := CollectAccounts(voters);
      InstallAdminRole(proposerSet, voterSet, timelockDelay, if quorumBps == 0 then 1 else quorumBps);
      status := Ok;
    }

    /** The writes of `configure_admin_role`, once its checks have passed. */
    method InstallAdminRole(proposerSet: set<AccountId>, voterSet: set<AccountId>, timelockDelay: uint64, quorumBps: uint16)
      requires Valid() && 1 <= quorumBps <= BPS_DENOMINATOR
      modifies this`adminProposers, this`adminVoters, this`proposals, this`adminTimelockDelay, this`adminQuorumBps
      ensures Valid()
      ensures adminProposers == proposerSet && adminVoters == voterSet && proposals == map[]
      ensures adminTimelockDelay == timelockDelay && adminQuorumBps == quorumBps
    {
      ClearAdminState();
      AddProposers(proposerSet);
      AddVoters(voterSet);
      adminTimelockDelay := timelockDelay;
      adminQuorumBps := quorumBps;
    }

    /** The three clearing loops of `configure_admin_role`: no proposer, voter or proposal is left. */
    method ClearAdminState()
      modifies this`adminProposers, this`adminVoters, this`proposals
      ensures adminProposers == {} && adminVoters == {} && proposals == map[]
    {
      while adminProposers != {}
        modifies this`adminProposers
        decreases |adminProposers|
      {
        var account :| account in adminProposers;
        adminProposers := adminProposers - {account};
      }
      while adminVoters != {}
        modifies this`adminVoters
        invariant adminProposers == {}
        decreases |adminVoters|
      {
        var account :| account in adminVoters;
        adminVoters := adminVoters - {account};
      }
      while proposals != map[]
        modifies this`proposals
        invariant adminProposers == {} && adminVoters == {}
        decreases |proposals|
      {
        var id :| id in proposals;
        proposals := proposals - {id};
      }
    }

    /** Inserts each of `accounts` into the proposers. */
    method AddProposers(accounts: set<AccountId>)
      modifies this`adminProposers
      ensures adminProposers == old(adminProposers) + accounts
    {
      var pending := accounts;
      while pending != {}
        modifies this`adminProposers
        invariant adminProposers + pending == old(adminProposers) + accounts
        decreases |pending|
      {
        var account :| account in pending;
        adminProposers := adminProposers + {account};
        pending := pending - {account};
      }
    }

    /** Inserts each of `accounts` into the voters. */
    method AddVoters(accounts: set<AccountId>)
      modifies this`adminVoters
      ensures adminVoters == old(adminVoters) + accounts
    {
      var pending := accounts;
      while pending != {}
        modifies this`adminVoters
        invariant adminVoters + pending == old(adminVoters) + accounts
        decreases |pending|
      {
        var account :| account in pending;
        adminVoters := adminVoters + {account};
        pending := pending - {account};
      }
    }

    /** `into_iter().collect()` into a `HashSet`: the distinct accounts of the list. */
    static method CollectAccounts(accounts: seq<AccountId>) returns (r: set<AccountId>)
      ensures r == set a | a in accounts
    {
      r := {};
      for i := 0 to |accounts|
        invariant r == set a | a in accounts[..i]
      {
        assert accounts[..i + 1] == accounts[..i] + [accounts[i]];
        r := r + {accounts[i]};
      }
      assert accounts[..|accounts|] == accounts;
    }

    /**
      `propose_action`: files the action under the next counter value, scheduled after the
      timelock, pre-approved by the proposer when the proposer is also a voter.
     */
    method ProposeAction(caller: AccountId, action: AdminAction, now: uint64) returns (status: Status)
      requires Valid()
      modifies this`proposalCounter, this`proposals
      ensures Valid()
      ensures status == if caller in adminProposers then Ok else Reverted(NotAdminProposer)
      ensures status.Reverted? ==> unchanged(this)
      ensures status.Ok? ==>
        && proposalCounter == SaturatingAdd(old(proposalCounter), 1)
        && proposals == old(proposals)[proposalCounter := AdminProposal(
             proposalCounter, caller, action, SaturatingAdd(now, adminTimelockDelay),
             if caller in adminVoters then [caller] else [], false)]
    {
      if caller !in adminProposers {
        return Reverted(NotAdminProposer);
      }
      var scheduledFor := SaturatingAdd(now, adminTimelockDelay);
      var approvals: seq<AccountId> := [];
      if caller in adminVoters {
        approvals := approvals + [caller];
      }
      assert approvals == if caller in adminVoters then [caller] else [];
      var proposalId := SaturatingAdd(proposalCounter, 1);
      proposalCounter := proposalId;
      proposals := proposals[proposalId := AdminProposal(proposalId, caller, action, scheduledFor, approvals, false)];
      status := Ok;
    }

    /** `approve_proposal`: a voter's approval is recorded once; approving again changes nothing. */
    method ApproveProposal(caller: AccountId, proposalId: uint64) returns (status: Status)
      requires Valid()
      modifies this`proposals
      ensures Valid()
      ensures status ==
        if caller !in adminVoters then Reverted(NotAdminVoter)
        else if proposalId !in old(proposals) then Reverted(ProposalNotFound)
        else if old(proposals)[proposalId].executed then Reverted(ProposalAlreadyExecuted)
        else Ok
      ensures status.Reverted? ==> unchanged(this)
      ensures status.Ok? && caller in old(proposals)[proposalId].approvals ==> unchanged(this)
      ensures status.Ok? && caller !in old(proposals)[proposalId].approvals ==>
        var p := old(proposals)[proposalId];
        proposals == old(proposals)[proposalId := p.(approvals := p.approvals + [caller])]
    {
      if caller !in adminVoters {
        return Reverted(NotAdminVoter);
      }
      if proposalId !in proposals {
        return Reverted(ProposalNotFound);
      }
      var proposal := proposals[proposalId];
      if proposal.executed {
        return Reverted(ProposalAlreadyExecuted);
      }
      if caller in proposal.approvals {
        return Ok;
      }
      proposal := proposal.(approvals := proposal.approvals + [caller]);
      proposals := proposals[proposalId := proposal];
      status := Ok;
    }

    /**
      `execute_proposal`: a proposer executes a pending proposal whose timelock has elapsed and
      whose approvals meet the quorum; the action is applied and the proposal removed.
     */
    method ExecuteProposal(caller: AccountId, proposalId: uint64, now: uint64) returns (status: Status)
      requires Valid()
      modifies this`proposals, this`whitelistedOperators, this`operatorToNode, this`nodeToOperator,
        this`authorizedNodes, this`nodeDetails, this`priceReports, this`aggregatedPrices,
        this`approvedCodeHashes, this`approvedEnclaves, this`paused, this`recencyThreshold, this`minReportCount
      ensures Valid()
      ensures status ==
        if caller !in adminProposers then Reverted(NotAuthorizedToExecute)
        else if proposalId !in old(proposals) then Reverted(ProposalNotFound)
        else if old(proposals)[proposalId].executed then Reverted(ProposalAlreadyExecuted)
        else if now < old(proposals)[proposalId].scheduledFor then Reverted(TimelockNotElapsed)
        else if !HasQuorum(|old(proposals)[proposalId].approvals|, |adminVoters|, adminQuorumBps) then Reverted(QuorumNotMet)
        else Ok
      ensures status.Reverted? ==> unchanged(this)
      ensures status.Ok? ==>
        ActionApplied(old(proposals)[proposalId].action, now) && proposals == old(proposals) - {proposalId}
    {
      if caller !in adminProposers {
        return Reverted(NotAuthorizedToExecute);
      }
      if proposalId !in proposals {
        return Reverted(ProposalNotFound);
      }
      var proposal := proposals[proposalId];
      if proposal.executed {
        return Reverted(ProposalAlreadyExecuted);
      }
      if now < proposal.scheduledFor {
        return Reverted(TimelockNotElapsed);
      }
      if !HasQuorum(|proposal.approvals|, |adminVoters|, adminQuorumBps) {
        return Reverted(QuorumNotMet);
      }
      ApplyProposal(proposalId, proposal.action, now);
      status := Ok;
    }

    /** The writes of `execute_proposal`, once its checks have passed. */
    method ApplyProposal(proposalId: uint64, action: AdminAction, now: uint64)
      requires Valid()
      modifies this`proposals, this`whitelistedOperators, this`operatorToNode, this`nodeToOperator,
        this`authorizedNodes, this`nodeDetails, this`priceReports, this`aggregatedPrices,
        this`approvedCodeHashes, this`approvedEnclaves, this`paused, this`recencyThreshold, this`minReportCount
      ensures Valid()
      ensures ActionApplied(action, now) && proposals == old(proposals) - {proposalId}
    {
      // `execute_admin_action` neither reads nor writes the proposals, so removing the proposal
      // first stores the same final state.
      proposals := proposals - {proposalId};
      ExecuteAdminAction(action, now);
    }

    /** `cancel_proposal`. */
    method CancelProposal(caller: AccountId, proposalId: uint64) returns (status: Status)
      requires Valid()
      modifies this`proposals
      ensures Valid()
      ensures status ==
        if caller != owner then Reverted(NotOwner)
        else if proposalId !in old(proposals) then Reverted(ProposalNotFound)
        else Ok
      ensures status.Reverted? ==> unchanged(this)
      ensures status.Ok? ==> proposals == old(proposals) - {proposalId}
    {
      if caller != owner {
        return Reverted(NotOwner);
      }
      if proposalId !in proposals {
        return Reverted(ProposalNotFound);
      }
      proposals := proposals - {proposalId};
      status := Ok;
    }

    // Groups of fields, so that "this group is unchanged" is one equation.
    function NodeRegistry(): (set<AccountId>, map<AccountId, AccountId>, map<AccountId, AccountId>, set<AccountId>, map<AccountId, OracleNode>)
      reads this`whitelistedOperators, this`operatorToNode, this`nodeToOperator, this`authorizedNodes, this`nodeDetails
    {
      (whitelistedOperators, operatorToNode, nodeToOperator, authorizedNodes, nodeDetails)
    }

    function Book(): (map<string, seq<PriceReport>>, map<string, Price>)
      reads this`priceReports, this`aggregatedPrices
    {
      (priceReports, aggregatedPrices)
    }

    function Enclaves(): (set<string>, map<string, string>)
      reads this`approvedCodeHashes, this`approvedEnclaves
    {
      (approvedCodeHashes, approvedEnclaves)
    }

    function Settings(): (bool, uint64, uint8)
      reads this`paused, this`recencyThreshold, this`minReportCount
    {
      (paused, recencyThreshold, minReportCount)
    }

    /**
      The effect of `execute_admin_action`. Unlike the owner's `approve_attestation`, the
      governance `ApproveAttestation` does not require the code hash to be approved.
     */
    twostate predicate ActionApplied(action: AdminAction, now: uint64)
      reads this`whitelistedOperators, this`operatorToNode, this`nodeToOperator, this`authorizedNodes,
        this`nodeDetails, this`priceReports, this`aggregatedPrices, this`approvedCodeHashes,
        this`approvedEnclaves, this`paused, this`recencyThreshold, this`minReportCount, this`assetList, this`assets
    {
      match action
      case AddNodeOperator(account) =>
        && whitelistedOperators == old(whitelistedOperators) + {account}
        && operatorToNode == old(operatorToNode) && nodeToOperator == old(nodeToOperator)
        && authorizedNodes == old(authorizedNodes) && nodeDetails == old(nodeDetails)
        && Book() == old(Book()) && Enclaves() == old(Enclaves()) && Settings() == old(Settings())
      case RemoveNodeOperator(account) =>
        OperatorRemoved(account, now) && Enclaves() == old(Enclaves()) && Settings() == old(Settings())
      case ApproveCodeHash(codeHash) =>
        && Enclaves() == (old(approvedCodeHashes) + {codeHash}, old(approvedEnclaves))
        && NodeRegistry() == old(NodeRegistry()) && Book() == old(Book()) && Settings() == old(Settings())
      case RemoveCodeHash(codeHash) =>
        && Enclaves() == (old(approvedCodeHashes) - {codeHash}, old(approvedEnclaves) - {codeHash})
        && NodeRegistry() == old(NodeRegistry()) && Book() == old(Book()) && Settings() == old(Settings())
      case ApproveAttestation(codeHash, mrEnclave) =>
        && Enclaves() == (old(approvedCodeHashes), old(approvedEnclaves)[codeHash := mrEnclave])
        && NodeRegistry() == old(NodeRegistry()) && Book() == old(Book()) && Settings() == old(Settings())
      case RemoveAttestation(codeHash) =>
        && Enclaves() == (old(approvedCodeHashes), old(approvedEnclaves) - {codeHash})
        && NodeRegistry() == old(NodeRegistry()) && Book() == old(Book()) && Settings() == old(Settings())
      case Pause =>
        && Settings() == (true, old(recencyThreshold), old(minReportCount))
        && NodeRegistry() == old(NodeRegistry()) && Book() == old(Book()) && Enclaves() == old(Enclaves())
      case Resume =>
        && Settings() == (false, old(recencyThreshold), old(minReportCount))
        && NodeRegistry() == old(NodeRegistry()) && Book() == old(Book()) && Enclaves() == old(Enclaves())
      case UpdateConfig(threshold, count) =>
        && paused == old(paused) && ConfigUpdated(threshold, count)
        && NodeRegistry() == old(NodeRegistry()) && Book() == old(Book()) && Enclaves() == old(Enclaves())
    }

    /** `internal_update_config`: each given value replaces the old one; a count of 0 is stored as 1. */
    twostate predicate ConfigUpdated(threshold: Option<uint64>, count: Option<uint8>)
      reads this`recencyThreshold, this`minReportCount
    {
      && recencyThreshold == threshold.GetOr(old(recencyThreshold))
      && minReportCount == match count
           case Some(c) => if c >= 1 then c else 1
           case None => old(minReportCount)
    }

    /**
      The effect of `internal_remove_node_operator`: the operator leaves the whitelist. If it had a
      node, the links between them go, the node loses its authorization and its details, and every
      listed asset with stored reports is finalized at `now` without that node's reports.
     */
    twostate predicate OperatorRemoved(operator: AccountId, now: uint64)
      reads this`whitelistedOperators, this`operatorToNode, this`nodeToOperator, this`authorizedNodes,
        this`nodeDetails, this`priceReports, this`aggregatedPrices, this`assetList, this`assets,
        this`recencyThreshold, this`minReportCount
    {
      && whitelistedOperators == old(whitelistedOperators) - {operator}
      && (operator !in old(operatorToNode) ==>
            && operatorToNode == old(operatorToNode) && nodeToOperator == old(nodeToOperator)
            && authorizedNodes == old(authorizedNodes) && nodeDetails == old(nodeDetails)
            && Book() == old(Book()))
      && (operator in old(operatorToNode) ==>
            var node := old(operatorToNode)[operator];
            && operatorToNode == old(operatorToNode) - {operator}
            && nodeToOperator == old(nodeToOperator) - {node}
            && authorizedNodes == old(authorizedNodes) - {node}
            && nodeDetails == old(nodeDetails) - {node}
            && (forall a :: SlotIn(priceReports, aggregatedPrices, a) ==
                  if Cascaded(a, assetList, assets, old(priceReports))
                  then CascadeSlot(a, node, assets, old(priceReports), now, recencyThreshold, minReportCount)
                  else SlotIn(old(priceReports), old(aggregatedPrices), a)))
    }

    // ---------------------------------------------------------------- internal helpers

    method AddNodeOperatorInternal(operator: AccountId)
      requires Valid()
      modifies this`whitelistedOperators
      ensures Valid()
      ensures whitelistedOperators == old(whitelistedOperators) + {operator}
    {
      whitelistedOperators := whitelistedOperators + {operator};
    }

    method RemoveCodeHashInternal(codeHash: string)
      requires Valid()
      modifies this`approvedCodeHashes, this`approvedEnclaves
      ensures Valid()
      ensures approvedCodeHashes == old(approvedCodeHashes) - {codeHash}
      ensures approvedEnclaves == old(approvedEnclaves) - {codeHash}
    {
      approvedCodeHashes := approvedCodeHashes - {codeHash};
      approvedEnclaves := approvedEnclaves - {codeHash};
    }

    method UpdateConfigInternal(threshold: Option<uint64>, count: Option<uint8>)
      requires Valid()
      modifies this`recencyThreshold, this`minReportCount
      ensures Valid()
      ensures ConfigUpdated(threshold, count)
    {
      if threshold.Some? {
        recencyThreshold := threshold.value;
      }
      if count.Some? {
        minReportCount := if count.value >= 1 then count.value else 1;
      }
    }

    /** `internal_remove_node_operator`, with its cascade over the asset list. */
    method RemoveNodeOperatorInternal(operator: AccountId, now: uint64)
      requires Valid()
      modifies this`whitelistedOperators, this`operatorToNode, this`nodeToOperator, this`authorizedNodes,
        this`nodeDetails, this`priceReports, this`aggregatedPrices
      ensures Valid()
      ensures OperatorRemoved(operator, now)
    {
      whitelistedOperators := whitelistedOperators - {operator};
      if operator !in operatorToNode {
        return;
      }
      var node := operatorToNode[operator];
      UnlinkOperator(operator);
      CascadeRemoval(node, now);
    }

    /** The operator's links to its node go, and the node loses its authorization and details. */
    method UnlinkOperator(operator: AccountId)
      requires Valid() && operator in operatorToNode
      modifies this`operatorToNode, this`nodeToOperator, this`authorizedNodes, this`nodeDetails
      ensures Valid()
      ensures var node := old(operatorToNode)[operator];
        && operatorToNode == old(operatorToNode) - {operator}
        && nodeToOperator == old(nodeToOperator) - {node}
        && authorizedNodes == old(authorizedNodes) - {node}
        && nodeDetails == old(nodeDetails) - {node}
    {
      var node := operatorToNode[operator];
      operatorToNode := operatorToNode - {operator};
      nodeToOperator := nodeToOperator - {node};
      authorizedNodes := authorizedNodes - {node};
      nodeDetails := nodeDetails - {node};
    }

    /**
      The loop of `internal_remove_node_operator`: every listed asset with stored reports and a
      definition loses the node's reports and is finalized at `now`.
     */
    method CascadeRemoval(node: AccountId, now: uint64)
      requires Valid()
      modifies this`priceReports, this`aggregatedPrices
      ensures Valid()
      ensures forall a ::
        SlotIn(priceReports, aggregatedPrices, a) ==
          if Cascaded(a, assetList, assets, old(priceReports))
          then CascadeSlot(a, node, assets, old(priceReports), now, recencyThreshold, minReportCount)
          else SlotIn(old(priceReports), old(aggregatedPrices), a)
    {
      ghost var before := priceReports;
      ghost var beforeAggregated := aggregatedPrices;
      var i := 0;
      while i < |assetList|
        invariant 0 <= i <= |assetList|
        invariant Valid()
        invariant CascadedUpTo(i, node, now, before, beforeAggregated)
      {
        CascadeStep(i, node, now, before, beforeAggregated);
        i := i + 1;
      }
      assert assetList[..|assetList|] == assetList;
    }

    /** The book after the cascade has visited the first `i` listed assets. */
    ghost predicate CascadedUpTo(i: nat, node: AccountId, now: uint64,
                                 before: map<string, seq<PriceReport>>, beforeAggregated: map<string, Price>)
      reads this
      requires i <= |assetList|
    {
      CascadeHolds(priceReports, aggregatedPrices, assetList[..i], assets, node, now, recencyThreshold, minReportCount,
                   before, beforeAggregated)
    }

    /** One turn of the cascade: the `i`-th listed asset loses the node's reports and is finalized. */
    method CascadeStep(i: nat, node: AccountId, now: uint64,
                       ghost before: map<string, seq<PriceReport>>, ghost beforeAggregated: map<string, Price>)
      requires Valid() && i < |assetList|
      requires CascadedUpTo(i, node, now, before, beforeAggregated)
      modifies this`priceReports, this`aggregatedPrices
      ensures Valid()
      ensures CascadedUpTo(i + 1, node, now, before, beforeAggregated)
    {
      var assetId := assetList[i];
      assert assetList[..i + 1] == assetList[..i] + [assetId];
      if assetId in priceReports && assetId in assets {
        var reports := WithoutOracle(priceReports[assetId], node);
        if Cascaded(assetId, assetList[..i], assets, before) {
          StrippedAgain(assetId, node, before, now);
        }
        CascadeVisit(priceReports, aggregatedPrices, assetList[..i], assetId, assets, node, now, recencyThreshold,
                     minReportCount, before, beforeAggregated);
        assert SlotIn(priceReports, aggregatedPrices, assetId).Consistent();
        WithoutOracleOnePerOracle(priceReports[assetId], node);
        FinalizeReports(assetId, assets[assetId], reports, now);
      } else {
        CascadeSkip(priceReports, aggregatedPrices, assetList[..i], assetId, assets, node, now, recencyThreshold,
                    minReportCount, before, beforeAggregated);
      }
    }

    /**
      Finalizing an asset a second time in the cascade (its id is listed twice) stores what the
      first time stored.
     */
    lemma StrippedAgain(assetId: string, node: AccountId, before: map<string, seq<PriceReport>>, now: uint64)
      requires assetId in assets && assetId in before && assetId in priceReports
      requires SlotIn(priceReports, aggregatedPrices, assetId) == CascadeSlot(assetId, node, assets, before, now, recencyThreshold, minReportCount)
      ensures Finalize(WithoutOracle(priceReports[assetId], node), assets[assetId], now, recencyThreshold, minReportCount)
        == SlotIn(priceReports, aggregatedPrices, assetId)
    {
      var stored := priceReports[assetId];
      var stripped := WithoutOracle(before[assetId], node);
      FinalizeOutcome(stripped, assets[assetId], now, recencyThreshold, minReportCount);
      FreshReportsMembers(stripped, now, recencyThreshold);
      WithoutOracleMembers(before[assetId], node);
      assert forall i :: 0 <= i < |stored| ==> stored[i] in stored;
      RetainKeepsAll(stored, NotFrom(node));
      FinalizeIdempotent(stripped, assets[assetId], now, recencyThreshold, minReportCount);
    }

    /** `execute_admin_action`. */
    method ExecuteAdminAction(action: AdminAction, now: uint64)
      requires Valid()
      modifies this`whitelistedOperators, this`operatorToNode, this`nodeToOperator, this`authorizedNodes,
        this`nodeDetails, this`priceReports, this`aggregatedPrices, this`approvedCodeHashes,
        this`approvedEnclaves, this`paused, this`recencyThreshold, this`minReportCount
      ensures Valid()
      ensures ActionApplied(action, now)
    {
      match action
      case AddNodeOperator(_) =>
        ExecuteOperatorAction(action, now);
      case RemoveNodeOperator(_) =>
        ExecuteOperatorAction(action, now);
      case ApproveCodeHash(_) =>
        ExecuteEnclaveAction(action);
      case RemoveCodeHash(_) =>
        ExecuteEnclaveAction(action);
      case ApproveAttestation(_, _) =>
        ExecuteEnclaveAction(action);
      case RemoveAttestation(_) =>
        ExecuteEnclaveAction(action);
      case Pause =>
        ExecuteSettingsAction(action);
      case Resume =>
        ExecuteSettingsAction(action);
      case UpdateConfig(_, _) =>
        ExecuteSettingsAction(action);
    }

    /** The operator actions of `execute_admin_action`. */
    method ExecuteOperatorAction(action: AdminAction, now: uint64)
      requires Valid() && (action.AddNodeOperator? || action.RemoveNodeOperator?)
      modifies this`whitelistedOperators, this`operatorToNode, this`nodeToOperator, this`authorizedNodes,
        this`nodeDetails, this`priceReports, this`aggregatedPrices
      ensures Valid()
      ensures ActionApplied(action, now)
    {
      if action.AddNodeOperator? {
        AddNodeOperatorInternal(action.accountId);
      } else {
        RemoveNodeOperatorInternal(action.accountId, now);
      }
    }

    /** The code hash and attestation actions of `execute_admin_action`. */
    method ExecuteEnclaveAction(action: AdminAction)
      requires Valid()
      requires action.ApproveCodeHash? || action.RemoveCodeHash? || action.ApproveAttestation? || action.RemoveAttestation?
      modifies this`approvedCodeHashes, this`approvedEnclaves
      ensures Valid()
      ensures ActionApplied(action, 0)
    {
      match action
      case ApproveCodeHash(codeHash) =>
        approvedCodeHashes := approvedCodeHashes + {codeHash};
      case RemoveCodeHash(codeHash) =>
        RemoveCodeHashInternal(codeHash);
      case ApproveAttestation(codeHash, mrEnclave) =>
        approvedEnclaves := approvedEnclaves[codeHash := mrEnclave];
      case RemoveAttestation(codeHash) =>
        approvedEnclaves := approvedEnclaves - {codeHash};
    }

    /** The pause, resume and configuration actions of `execute_admin_action`. */
    method ExecuteSettingsAction(action: AdminAction)
      requires Valid() && (action.Pause? || action.Resume? || action.UpdateConfig?)
      modifies this`paused, this`recencyThreshold, this`minReportCount
      ensures Valid()
      ensures ActionApplied(action, 0)
    {
      match action
      case Pause =>
        paused := true;
      case Resume =>
        paused := false;
      case UpdateConfig(threshold, count) =>
        UpdateConfigInternal(threshold, count);
    }
  }
}
