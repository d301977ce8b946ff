/**
  Operator claims: what the audit events make of a deployment, and the reviews and eligibility decisions on
  its claim.

  The state of a deployment is the fold of its audit events, which the program stores row by row.  The events
  themselves, with the group and the claim state that a request leads to, are inputs.
*/
module OperatorClaims {
  import opened Basics
  import opened DatedLogs

  datatype Action =
    | SubmitClaim
    | WithdrawClaim
    | IssueToken
    | RevokeToken
    | RedeemToken
    | RevokeLink
    | Deactivate
    | Reactivate

  /** `Claimed` is the state of claims from before claims were reviewed. */
  datatype ClaimState = NoClaim | Claimed | PendingReview | ClaimWithdrawn

  /** An audit event about a deployment. */
  datatype AuditFact = AuditFact(
    actionId: string, deploymentId: string, action: Action, claimState: ClaimState, groupId: string,
    linkId: string, operatorName: string)

  datatype ReviewFact = ReviewFact(deploymentId: string, claimActionId: string, approved: bool)

  datatype EligibilityFact = EligibilityFact(deploymentId: string, claimActionId: string, suspended: bool)

  type Audit = Dated<AuditFact>

  type ClaimReview = Dated<ReviewFact>

  type Eligibility = Dated<EligibilityFact>

  /** What the audit events have made of a deployment: its claim, its group, and the last event about it. */
  datatype Network = Network(
    claimed: bool, active: bool, claimState: ClaimState, claimIndex: int, claimActionId: string, claimHash: string,
    claimedAt: int, claimGroupId: string, groupId: string, index: int)

  const UNKNOWN: Network := Network(false, true, NoClaim, 0, "", "", 0, "", "", 0)

  function WithClaim(n: Network, e: Audit): Network {
    n.(claimed := true, claimState := e.fact.claimState, claimIndex := e.index, claimActionId := e.fact.actionId,
       claimHash := e.hash, claimedAt := e.acceptedAt, claimGroupId := e.fact.groupId, groupId := e.fact.groupId)
  }

  function WithoutClaim(n: Network, e: Audit): Network {
    n.(claimed := false, claimState := ClaimWithdrawn, claimIndex := e.index, claimActionId := e.fact.actionId,
       claimHash := e.hash, claimedAt := e.acceptedAt, groupId := "")
  }

  /** A redeemed token stands for a claim of its own, rather than for a link to the issuer's group. */
  predicate RedeemsClaim(f: AuditFact) {
    f.claimState == PendingReview && f.operatorName != "" && f.linkId == ""
  }

  function After(before: Network, e: Audit): Network {
    var n, f := before.(index := e.index), e.fact;
    match f.action
    case SubmitClaim => WithClaim(n, e)
    case WithdrawClaim => WithoutClaim(n, e)
    case RedeemToken => if !n.claimed && RedeemsClaim(f) then WithClaim(n, e) else n.(groupId := f.groupId)
    case RevokeLink => n.(groupId := if n.claimed then n.claimGroupId else "")
    case Deactivate => if n.claimed then WithoutClaim(n.(active := false), e) else n.(active := false)
    case Reactivate => n.(active := true)
    case IssueToken => n
    case RevokeToken => n
  }

  function NetworkOf(log: seq<Audit>, deploymentId: string): Network {
    if log == [] then UNKNOWN
    else
      var before, e := NetworkOf(log[..|log| - 1], deploymentId), log[|log| - 1];
      if e.fact.deploymentId == deploymentId then After(before, e) else before
  }

  /** The review of a claim, of which there is at most one. */
  function ReviewOf(log: seq<ClaimReview>, claimActionId: string): Option<ClaimReview> {
    if log == [] then None
    else if log[|log| - 1].fact.claimActionId == claimActionId then Some(log[|log| - 1])
    else ReviewOf(log[..|log| - 1], claimActionId)
  }

  /** The last eligibility decision on a claim. */
  function EligibilityOf(log: seq<Eligibility>, claimActionId: string): Option<Eligibility> {
    if log == [] then None
    else if log[|log| - 1].fact.claimActionId == claimActionId then Some(log[|log| - 1])
    else EligibilityOf(log[..|log| - 1], claimActionId)
  }

  /** The legal name that was submitted with a claim of this deployment and group. */
  function LegalNameOf(log: seq<Audit>, deploymentId: string, claimActionId: string, groupId: string): Option<string> {
    if log == [] then None
    else if Submits(log[0].fact, deploymentId, claimActionId, groupId) then Some(log[0].fact.operatorName)
    else LegalNameOf(log[1..], deploymentId, claimActionId, groupId)
  }

  predicate Submits(f: AuditFact, deploymentId: string, claimActionId: string, groupId: string) {
    && f.actionId == claimActionId && f.deploymentId == deploymentId && f.groupId == groupId
    && (f.action == SubmitClaim || (f.action == RedeemToken && RedeemsClaim(f)))
  }

  predicate Approved(n: Network, reviews: seq<ClaimReview>) {
    var r := ReviewOf(reviews, n.claimActionId);
    n.claimState == PendingReview && r.Some? && r.value.fact.approved
  }

  predicate Suspended(n: Network, eligibilities: seq<Eligibility>) {
    var e := EligibilityOf(eligibilities, n.claimActionId);
    e.Some? && e.value.fact.suspended
  }

  // ---------------------------------------------------------------- writing

  /** Action IDs are unique; a claim is pending when it is submitted, and only active deployments claim. */
  predicate AuditAllowed(log: seq<Audit>, f: AuditFact) {
    && (forall i :: 0 <= i < |log| ==> log[i].fact.actionId != f.actionId)
    && (f.action == SubmitClaim ==> f.claimState == PendingReview)
    && (f.action == SubmitClaim || f.action == RedeemToken ==> NetworkOf(log, f.deploymentId).active)
  }

  /** A review decides on the present claim of its deployment, once. */
  predicate ReviewAllowed(audits: seq<Audit>, reviews: seq<ClaimReview>, at: int, f: ReviewFact) {
    var n := NetworkOf(audits, f.deploymentId);
    && n.claimed && n.claimState == PendingReview && n.claimActionId == f.claimActionId && n.claimedAt <= at
    && ReviewOf(reviews, f.claimActionId).None?
  }

  /** An eligibility decision suspends or reinstates an approved claim. */
  predicate EligibilityAllowed(audits: seq<Audit>, reviews: seq<ClaimReview>, eligibilities: seq<Eligibility>,
                               at: int, f: EligibilityFact)
  {
    var n := NetworkOf(audits, f.deploymentId);
    && n.claimed && n.claimActionId == f.claimActionId && Approved(n, reviews)
    && ReviewOf(reviews, f.claimActionId).value.acceptedAt <= at
    && (f.suspended <==> !Suspended(n, eligibilities))
  }

  /** Every audit event was allowed when it was written. */
  ghost predicate AuditsOk(log: seq<Audit>) {
    forall i :: 0 <= i < |log| ==> AuditAllowed(log[..i], log[i].fact)
  }

  /** A claim is reviewed once, by a review of the deployment that made it, and not before it was made. */
  ghost predicate ReviewsOk(audits: seq<Audit>, reviews: seq<ClaimReview>) {
    && ReviewsUnique(reviews)
    && forall i :: 0 <= i < |reviews| ==> OfClaim(audits, reviews[i])
  }

  ghost predicate ReviewsUnique(reviews: seq<ClaimReview>) {
    forall i, j :: 0 <= i < j < |reviews| ==> reviews[i].fact.claimActionId != reviews[j].fact.claimActionId
  }

  ghost predicate OfClaim(audits: seq<Audit>, r: ClaimReview) {
    exists k :: 0 <= k < |audits| && Reviews(audits[k], r)
  }

  predicate Reviews(claim: Audit, r: ClaimReview) {
    && claim.fact.actionId == r.fact.claimActionId && claim.fact.deploymentId == r.fact.deploymentId
    && claim.fact.claimState == PendingReview && claim.acceptedAt <= r.acceptedAt
  }

  /** Only approved claims are suspended, not before their approval; and the decisions on a claim alternate. */
  ghost predicate EligibilitiesOk(reviews: seq<ClaimReview>, log: seq<Eligibility>) {
    && (forall i :: 0 <= i < |log| ==> OfApproved(reviews, log[i]))
    && (forall i :: 0 <= i < |log| ==> Alternates(log, i))
  }

  ghost predicate OfApproved(reviews: seq<ClaimReview>, e: Eligibility) {
    exists k :: 0 <= k < |reviews| && Admits(reviews[k], e)
  }

  predicate Admits(r: ClaimReview, e: Eligibility) {
    r.fact.approved && r.fact.claimActionId == e.fact.claimActionId && r.acceptedAt <= e.acceptedAt
  }

  /** The decision suspends if it is the first on its claim, and otherwise if the one before it did not. */
  ghost predicate Alternates(log: seq<Eligibility>, i: nat)
    requires i < |log|
  {
    if forall j :: 0 <= j < i ==> log[j].fact.claimActionId != log[i].fact.claimActionId then log[i].fact.suspended
    else
      exists j :: 0 <= j < i && LastDecision(log[..i], log[i].fact.claimActionId, j)
                  && log[i].fact.suspended == !log[j].fact.suspended
  }

  /** Decision `k` is the last one on the claim. */
  ghost predicate LastDecision(log: seq<Eligibility>, claimActionId: string, k: nat)
    requires k < |log|
  {
    && log[k].fact.claimActionId == claimActionId
    && forall j :: k < j < |log| ==> log[j].fact.claimActionId != claimActionId
  }

  lemma AuditsOkAppended(log: seq<Audit>, e: Audit)
    requires AuditsOk(log) && AuditAllowed(log, e.fact)
    ensures AuditsOk(log + [e])
  {
    var u := log + [e];
    forall i | 0 <= i < |u|
      ensures AuditAllowed(u[..i], u[i].fact)
    {
      assert u[..i] == log[..i];
      assert i == |log| ==> log[..i] == log;
    }
  }

  /** No two audit events have one action ID. */
  lemma ActionsUnique(log: seq<Audit>)
    requires AuditsOk(log)
    ensures forall i, j :: 0 <= i < j < |log| ==> log[i].fact.actionId != log[j].fact.actionId
  {
    forall i, j | 0 <= i < j < |log|
      ensures log[i].fact.actionId != log[j].fact.actionId
    {
      assert AuditAllowed(log[..j], log[j].fact);
      assert log[..j][i] == log[i];
    }
  }

  /** A standing claim was made by an event of the log, by a deployment that is active. */
  lemma {:induction false} ClaimMade(log: seq<Audit>, d: string) returns (k: nat)
    requires AuditsOk(log) && NetworkOf(log, d).claimed
    ensures var n := NetworkOf(log, d);
            && n.active && k < |log| && log[k].fact.actionId == n.claimActionId && log[k].fact.groupId == n.claimGroupId
            && log[k].fact.deploymentId == d && log[k].index == n.claimIndex
            && log[k].fact.claimState == n.claimState && log[k].acceptedAt == n.claimedAt
  {
    var m := |log| - 1;
    var e, before := log[m], NetworkOf(log[..m], d);
    assert AuditAllowed(log[..m], e.fact);
    assert AuditsOk(log[..m]) by {
      forall i | 0 <= i < m
        ensures AuditAllowed(log[..m][..i], log[..m][i].fact)
      {
        assert log[..m][..i] == log[..i];
      }
    }
    if e.fact.deploymentId == d && !before.claimed {
      k := m;
    } else if e.fact.deploymentId == d && e.fact.action == SubmitClaim {
      k := m;
    } else {
      k := ClaimMade(log[..m], d);
    }
  }

  lemma {:induction false} LastReview(log: seq<ClaimReview>, claimActionId: string) returns (k: int)
    ensures match ReviewOf(log, claimActionId)
            case None => forall j :: 0 <= j < |log| ==> log[j].fact.claimActionId != claimActionId
            case Some(r) => 0 <= k < |log| && log[k] == r && r.fact.claimActionId == claimActionId
  {
    k := |log| - 1;
    if log != [] && log[k].fact.claimActionId != claimActionId {
      k := LastReview(log[..k], claimActionId);
    }
  }

  lemma {:induction false} LastEligibility(log: seq<Eligibility>, claimActionId: string) returns (k: int)
    ensures match EligibilityOf(log, claimActionId)
            case None => forall j :: 0 <= j < |log| ==> log[j].fact.claimActionId != claimActionId
            case Some(e) => 0 <= k < |log| && LastDecision(log, claimActionId, k) && log[k] == e
  {
    k := |log| - 1;
    if log != [] && log[k].fact.claimActionId != claimActionId {
      k := LastEligibility(log[..k], claimActionId);
    }
  }

  lemma ReviewsOkAppended(audits: seq<Audit>, reviews: seq<ClaimReview>, r: ClaimReview)
    requires AuditsOk(audits) && ReviewsOk(audits, reviews) && ReviewAllowed(audits, reviews, r.acceptedAt, r.fact)
    ensures ReviewsOk(audits, reviews + [r])
  {
    var k := ClaimMade(audits, r.fact.deploymentId);
    var j := LastReview(reviews, r.fact.claimActionId);
    var u := reviews + [r];
    assert Reviews(audits[k], r);
    forall i | 0 <= i < |u|
      ensures OfClaim(audits, u[i])
    {
      assert i < |reviews| ==> u[i] == reviews[i];
    }
  }

  lemma EligibilitiesOkAppended(audits: seq<Audit>, reviews: seq<ClaimReview>, log: seq<Eligibility>, e: Eligibility)
    requires EligibilitiesOk(reviews, log) && EligibilityAllowed(audits, reviews, log, e.acceptedAt, e.fact)
    ensures EligibilitiesOk(reviews, log + [e])
  {
    var k := LastReview(reviews, e.fact.claimActionId);
    var j := LastEligibility(log, e.fact.claimActionId);
    var u := log + [e];
    assert Admits(reviews[k], e);
    forall i | 0 <= i < |u|
      ensures Alternates(u, i) && OfApproved(reviews, u[i])
    {
      if i < |log| {
        assert Alternates(log, i) && u[i] == log[i] && u[..i] == log[..i];
      } else {
        assert u[..i] == log;
      }
    }
  }

  /** More events leave the decisions that there are in order. */
  lemma DecisionsStay(a: seq<Audit>, b: seq<Audit>, reviews: seq<ClaimReview>, more: seq<ClaimReview>,
                      log: seq<Eligibility>)
    requires a <= b && reviews <= more && ReviewsOk(a, reviews) && EligibilitiesOk(reviews, log)
    ensures ReviewsOk(b, reviews) && EligibilitiesOk(more, log)
  {
    forall i | 0 <= i < |reviews|
      ensures OfClaim(b, reviews[i])
    {
      assert OfClaim(a, reviews[i]);
      var k :| 0 <= k < |a| && Reviews(a[k], reviews[i]);
      assert b[k] == a[k];
    }
    forall i | 0 <= i < |log|
      ensures OfApproved(more, log[i])
    {
      assert OfApproved(reviews, log[i]);
      var k :| 0 <= k < |reviews| && Admits(reviews[k], log[i]);
      assert more[k] == reviews[k];
    }
  }

  /** The last event about a deployment is one of the log. */
  lemma {:induction false} NetworkBounded(log: seq<Audit>, d: string)
    requires Ordered(log)
    ensures 0 <= NetworkOf(log, d).index <= |log|
  {
    if log != [] {
      PrefixOrdered(log, |log| - 1);
      NetworkBounded(log[..|log| - 1], d);
    }
  }

  /** A name that was found stays the one that is found. */
  lemma {:induction false} LegalNameStays(a: seq<Audit>, b: seq<Audit>, d: string, claimActionId: string,
                                          groupId: string)
    requires a <= b && LegalNameOf(a, d, claimActionId, groupId).Some?
    ensures LegalNameOf(b, d, claimActionId, groupId) == LegalNameOf(a, d, claimActionId, groupId)
  {
    if !Submits(a[0].fact, d, claimActionId, groupId) {
      LegalNameStays(a[1..], b[1..], d, claimActionId, groupId);
    }
  }
}
