/** The quorum arithmetic of the contract's multisig governance. */
module Governance {

  const BPS_DENOMINATOR: nat := 10_000

  /**
    `required_approvals`: no voters need no approvals; otherwise the fraction `quorumBps / 10000`
    of the voters, rounded up, and at least one. Stated as the least count `r >= 1` with
    `r * 10000 >= voterCount * quorumBps`.
   */
  function RequiredApprovals(voterCount: nat, quorumBps: nat): (r: nat)
    ensures voterCount == 0 ==> r == 0
    ensures voterCount > 0 ==> r >= 1 && r * BPS_DENOMINATOR >= voterCount * quorumBps
    ensures voterCount > 0 && r > 1 ==> (r - 1) * BPS_DENOMINATOR < voterCount * quorumBps
  {
    if voterCount == 0 then 0
    else
      var weighted := voterCount * quorumBps;
      var required := (weighted + 9_999) / BPS_DENOMINATOR;
      if required == 0 then 1 else required
  }

  /** With a quorum of at most 100%, no more approvals are required than there are voters. */
  lemma RequiredApprovalsAtMostVoters(voterCount: nat, quorumBps: nat)
    requires quorumBps <= BPS_DENOMINATOR
    ensures RequiredApprovals(voterCount, quorumBps) <= voterCount
  {
    var r := RequiredApprovals(voterCount, quorumBps);
    if voterCount > 0 && r > 1 {
      assert voterCount * quorumBps <= voterCount * BPS_DENOMINATOR by {
        assert voterCount * (BPS_DENOMINATOR - quorumBps) >= 0;
      }
      assert (r - 1) * BPS_DENOMINATOR < voterCount * BPS_DENOMINATOR;
    }
  }

  /** `has_quorum`. */
  predicate HasQuorum(approvals: nat, voterCount: nat, quorumBps: nat) {
    approvals >= RequiredApprovals(voterCount, quorumBps)
  }

  /** Approval by every voter always meets a quorum of at most 100%. */
  lemma UnanimityHasQuorum(voterCount: nat, quorumBps: nat)
    requires quorumBps <= BPS_DENOMINATOR
    ensures HasQuorum(voterCount, voterCount, quorumBps)
  {
    RequiredApprovalsAtMostVoters(voterCount, quorumBps);
  }

  /** The contract's test: two voters at 5000 basis points need one approval. */
  lemma TwoVotersAtHalfNeedOne()
    ensures RequiredApprovals(2, 5000) == 1
  {
  }
}
