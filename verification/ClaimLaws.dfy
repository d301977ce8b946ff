/**
  What the operator logs mean, said of the events themselves: which claim stands, in which group its
  deployment is, when it is approved and suspended, and what the rows of a roster then say.
*/
module ClaimLaws {
  import opened Basics
  import opened DatedLogs
  import opened OperatorClaims
  import opened Rosters
  import O = OwnershipTransfers
  import P = Protocol

  // ---------------------------------------------------------------- claims

  predicate Does(e: Audit, d: string, action: Action) {
    e.fact.deploymentId == d && e.fact.action == action
  }

  /** The event takes a standing claim away. */
  predicate Drops(e: Audit, d: string) { Does(e, d, WithdrawClaim) || Does(e, d, Deactivate) }

  /** The event submits a claim, or redeems a token for one. */
  predicate MakesClaim(e: Audit, d: string) {
    || Does(e, d, SubmitClaim)
    || (Does(e, d, RedeemToken) && e.fact.claimState == PendingReview && e.fact.operatorName != ""
        && e.fact.linkId == "")
  }

  ghost predicate KeptSince(log: seq<Audit>, n: nat, d: string, k: int)
    requires n <= |log|
  {
    forall j :: k < j < n && 0 <= j ==> !Drops(log[j], d)
  }

  ghost predicate NoSubmitSince(log: seq<Audit>, n: nat, d: string, k: int)
    requires n <= |log|
  {
    forall j :: k < j < n && 0 <= j ==> !Does(log[j], d, SubmitClaim)
  }

  /** A claim of the deployment stands after the first `n` events. */
  ghost predicate ClaimStands(log: seq<Audit>, n: nat, d: string)
    requires n <= |log|
  {
    exists k :: 0 <= k < n && MakesClaim(log[k], d) && KeptSince(log, n, d, k)
  }

  /**
    Event `k` made the claim that stands after the first `n` events: the last submission, or the first
    redeemed token where no submission followed and no claim stood before.
  */
  ghost predicate MadeBy(log: seq<Audit>, n: nat, d: string, k: nat)
    requires n <= |log|
  {
    && k < n && MakesClaim(log[k], d) && KeptSince(log, n, d, k) && NoSubmitSince(log, n, d, k)
    && (log[k].fact.action == RedeemToken ==> !ClaimStands(log, k, d))
  }

  /** The deployment has not been deactivated without being reactivated. */
  ghost predicate IsActive(log: seq<Audit>, n: nat, d: string)
    requires n <= |log|
  {
    forall k :: 0 <= k < n && Does(log[k], d, Deactivate) ==> exists j :: k < j < n && Does(log[j], d, Reactivate)
  }

  /** The event puts a claimed deployment into a group. */
  predicate Groups(e: Audit, d: string) {
    Does(e, d, SubmitClaim) || Does(e, d, RedeemToken) || Does(e, d, RevokeLink)
  }

  /** Event `j` is the last one that put the deployment into a group. */
  ghost predicate GroupedBy(log: seq<Audit>, n: nat, d: string, j: nat)
    requires n <= |log|
  {
    j < n && Groups(log[j], d) && forall i :: j < i < n ==> !Groups(log[i], d)
  }

  /** No event after the first `m` is about the deployment. */
  ghost predicate SilentSince(log: seq<Audit>, n: nat, d: string, m: int)
    requires n <= |log|
  {
    forall j :: m <= j < n && 0 <= j ==> log[j].fact.deploymentId != d
  }

  ghost predicate ClaimIs(log: seq<Audit>, n: nat, d: string, x: Network, k: nat)
    requires n <= |log|
  {
    && k < n && MadeBy(log, n, d, k)
    && x.claimState == log[k].fact.claimState && x.claimActionId == log[k].fact.actionId && x.claimIndex == log[k].index
    && x.claimHash == log[k].hash && x.claimedAt == log[k].acceptedAt && x.claimGroupId == log[k].fact.groupId
  }

  ghost predicate GroupIs(log: seq<Audit>, n: nat, d: string, x: Network, j: nat)
    requires n <= |log|
  {
    && GroupedBy(log, n, d, j)
    && x.groupId == if log[j].fact.action == RevokeLink then x.claimGroupId else log[j].fact.groupId
  }

  lemma PrefixLast(log: seq<Audit>, n: nat, d: string)
    requires 0 < n <= |log|
    ensures var before, e := NetworkOf(log[..n - 1], d), log[n - 1];
            NetworkOf(log[..n], d) == if e.fact.deploymentId == d then After(before, e) else before
  {
    assert log[..n][..n - 1] == log[..n - 1];
  }

  lemma {:induction false} ActiveMeans(log: seq<Audit>, n: nat, d: string)
    requires n <= |log|
    ensures NetworkOf(log[..n], d).active <==> IsActive(log, n, d)
  {
    if n > 0 {
      ActiveMeans(log, n - 1, d);
      PrefixLast(log, n, d);
      var e := log[n - 1];
      if Does(e, d, Reactivate) {
        assert IsActive(log, n, d);
      } else if Does(e, d, Deactivate) {
        assert !IsActive(log, n, d);
      } else if IsActive(log, n, d) {
        forall k | 0 <= k < n - 1 && Does(log[k], d, Deactivate)
          ensures exists j :: k < j < n - 1 && Does(log[j], d, Reactivate)
        {
          var j :| k < j < n && Does(log[j], d, Reactivate);
        }
      }
    }
  }

  lemma {:induction false} ClaimedMeans(log: seq<Audit>, n: nat, d: string)
    requires n <= |log|
    ensures NetworkOf(log[..n], d).claimed <==> ClaimStands(log, n, d)
  {
    if n > 0 {
      ClaimedMeans(log, n - 1, d);
      PrefixLast(log, n, d);
      var e := log[n - 1];
      if MakesClaim(e, d) {
        assert KeptSince(log, n, d, n - 1);
      } else if !Drops(e, d) {
        StandsOn(log, n, d);
      }
    }
  }

  /** An event that neither makes a claim nor drops one leaves it as it stands. */
  lemma StandsOn(log: seq<Audit>, n: nat, d: string)
    requires 0 < n <= |log| && !MakesClaim(log[n - 1], d) && !Drops(log[n - 1], d)
    ensures ClaimStands(log, n, d) <==> ClaimStands(log, n - 1, d)
  {
    if ClaimStands(log, n, d) {
      var k :| 0 <= k < n && MakesClaim(log[k], d) && KeptSince(log, n, d, k);
      assert KeptSince(log, n - 1, d, k);
    }
    if ClaimStands(log, n - 1, d) {
      var k :| 0 <= k < n - 1 && MakesClaim(log[k], d) && KeptSince(log, n - 1, d, k);
      assert KeptSince(log, n, d, k);
    }
  }

  lemma MadeNow(log: seq<Audit>, n: nat, d: string)
    requires 0 < n <= |log| && MakesClaim(log[n - 1], d)
    requires log[n - 1].fact.action == RedeemToken ==> !ClaimStands(log, n - 1, d)
    ensures MadeBy(log, n, d, n - 1)
  {
  }

  lemma MadeStays(log: seq<Audit>, n: nat, d: string, k: nat)
    requires 0 < n <= |log| && MadeBy(log, n - 1, d, k)
    requires !Does(log[n - 1], d, SubmitClaim) && !Drops(log[n - 1], d)
    ensures MadeBy(log, n, d, k)
  {
    hide ClaimStands;
  }

  /** A standing claim is the one of the event that made it. */
  lemma {:induction false} ClaimMeans(log: seq<Audit>, n: nat, d: string) returns (k: nat)
    requires n <= |log| && NetworkOf(log[..n], d).claimed
    ensures ClaimIs(log, n, d, NetworkOf(log[..n], d), k)
  {
    hide ClaimStands, MadeBy;
    PrefixLast(log, n, d);
    ClaimedMeans(log, n - 1, d);
    var e, before := log[n - 1], NetworkOf(log[..n - 1], d);
    if Does(e, d, SubmitClaim) || (MakesClaim(e, d) && !before.claimed) {
      k := n - 1;
      MadeNow(log, n, d);
    } else {
      k := ClaimMeans(log, n - 1, d);
      MadeStays(log, n, d, k);
    }
  }

  /** What an event does to the group of a deployment that is claimed after it. */
  lemma GroupAfter(before: Network, e: Audit, d: string)
    requires e.fact.deploymentId == d && After(before, e).claimed
    ensures var x := After(before, e);
            if Groups(e, d) then x.groupId == if e.fact.action == RevokeLink then x.claimGroupId else e.fact.groupId
            else before.claimed && x.groupId == before.groupId && x.claimGroupId == before.claimGroupId
  {
  }

  lemma {:induction false} GroupMeans(log: seq<Audit>, n: nat, d: string) returns (j: nat)
    requires n <= |log| && NetworkOf(log[..n], d).claimed
    ensures GroupIs(log, n, d, NetworkOf(log[..n], d), j)
  {
    hide After, NetworkOf;
    if n == 0 {
      NoneClaimed(log, d);
    }
    PrefixLast(log, n, d);
    if log[n - 1].fact.deploymentId == d {
      GroupAfter(NetworkOf(log[..n - 1], d), log[n - 1], d);
    }
    if Groups(log[n - 1], d) {
      j := n - 1;
    } else {
      j := GroupMeans(log, n - 1, d);
    }
  }

  lemma NoneClaimed(log: seq<Audit>, d: string)
    ensures !NetworkOf(log[..0], d).claimed
  {
  }

  /** The network's index is that of the last event about the deployment. */
  lemma {:induction false} IndexMeans(log: seq<Audit>, n: nat, d: string, m: int)
    requires n <= |log| && Ordered(log) && 0 <= m
    ensures NetworkOf(log[..n], d).index <= m <==> SilentSince(log, n, d, m)
  {
    if n > 0 {
      IndexMeans(log, n - 1, d, m);
      PrefixLast(log, n, d);
    }
  }

  lemma MadeByOne(log: seq<Audit>, n: nat, d: string, j: nat, k: nat)
    requires n <= |log| && MadeBy(log, n, d, j) && MadeBy(log, n, d, k)
    ensures j == k
  {
    if j < k {
      assert KeptSince(log, k, d, j);
    } else if k < j {
      assert KeptSince(log, j, d, k);
    }
  }

  // ---------------------------------------------------------------- decisions on claims

  predicate Judges(e: ClaimReview, claim: string, approved: bool) {
    e.fact.claimActionId == claim && e.fact.approved == approved
  }

  /** The claim was reviewed, with this decision. */
  ghost predicate Judged(reviews: seq<ClaimReview>, claim: string, approved: bool) {
    exists k :: 0 <= k < |reviews| && Judges(reviews[k], claim, approved)
  }

  /** The last decision on the claim, if there is one, suspends it. */
  ghost predicate IsSuspended(log: seq<Eligibility>, claim: string) {
    exists k :: 0 <= k < |log| && LastDecision(log, claim, k) && log[k].fact.suspended
  }

  lemma {:induction false} ReviewMeans(log: seq<ClaimReview>, claim: string) returns (k: int)
    requires ReviewsUnique(log)
    ensures match ReviewOf(log, claim)
            case None => forall j :: 0 <= j < |log| ==> log[j].fact.claimActionId != claim
            case Some(r) => 0 <= k < |log| && log[k] == r && r.fact.claimActionId == claim
    ensures ReviewOf(log, claim).Some? && ReviewOf(log, claim).value.fact.approved <==> Judged(log, claim, true)
    ensures ReviewOf(log, claim).Some? && !ReviewOf(log, claim).value.fact.approved <==> Judged(log, claim, false)
  {
    k := LastReview(log, claim);
    if ReviewOf(log, claim).Some? {
      assert Judges(log[k], claim, log[k].fact.approved);
    }
  }

  lemma SuspendedMeans(log: seq<Eligibility>, n: Network)
    ensures Suspended(n, log) <==> IsSuspended(log, n.claimActionId)
  {
    var k := LastEligibility(log, n.claimActionId);
    if IsSuspended(log, n.claimActionId) {
      var j :| 0 <= j < |log| && LastDecision(log, n.claimActionId, j) && log[j].fact.suspended;
      assert j == k;
    }
  }

  // ---------------------------------------------------------------- groups and rosters

  /** Row `m` is the last completed transfer of the deployment, for its claim, and nothing happened to it since. */
  ghost predicate MovedBy(b: Boundary, d: string, claim: string, m: nat) {
    && m < |b.transfers| && b.transfers[m].deploymentId == d && b.transfers[m].claimActionId == claim
    && (forall i :: m < i < |b.transfers| ==> b.transfers[i].deploymentId != d)
    && SilentSince(b.audits, |b.audits|, d, b.transfers[m].throughAuditIndex)
  }

  ghost predicate Moved(b: Boundary, d: string, claim: string) {
    exists m :: 0 <= m < |b.transfers| && MovedBy(b, d, claim, m)
  }

  ghost predicate MovedTo(b: Boundary, d: string, claim: string, group: string) {
    exists m :: 0 <= m < |b.transfers| && MovedBy(b, d, claim, m) && b.transfers[m].targetGroupId == group
  }

  /** The group that the events give a deployment with claim event `k`, by its last claim, link or revoked link. */
  ghost predicate PutInto(log: seq<Audit>, d: string, k: nat, group: string)
    requires k < |log|
  {
    exists j :: 0 <= j < |log| && GroupedBy(log, |log|, d, j)
                && group == (if log[j].fact.action == RevokeLink then log[k].fact.groupId else log[j].fact.groupId)
  }

  /** The deployment is active, claimed by event `k`, and in the group: where it was moved to, or put into. */
  ghost predicate InBy(b: Boundary, group: string, d: string, k: nat) {
    && MadeBy(b.audits, |b.audits|, d, k) && IsActive(b.audits, |b.audits|, d)
    && var claim := b.audits[k].fact.actionId;
       if Moved(b, d, claim) then MovedTo(b, d, claim, group) else PutInto(b.audits, d, k, group)
  }

  ghost predicate Member(b: Boundary, group: string, d: string) {
    exists k :: 0 <= k < |b.audits| && InBy(b, group, d, k)
  }

  /** What the writers keep of the logs at a boundary. */
  ghost predicate InOrder(b: Boundary) {
    && Ordered(b.audits) && Ordered(b.reviews) && Ordered(b.eligibilities) && ReviewsUnique(b.reviews)
    && forall m :: 0 <= m < |b.transfers| ==> 0 <= b.transfers[m].throughAuditIndex
  }

  lemma {:induction false} TransferMeans(rows: seq<O.Membership>, d: string) returns (k: int)
    ensures match TransferOf(rows, d)
            case None => forall i :: 0 <= i < |rows| ==> rows[i].deploymentId != d
            case Some(m) =>
              && 0 <= k < |rows| && rows[k] == m && m.deploymentId == d
              && forall i :: k < i < |rows| ==> rows[i].deploymentId != d
  {
    k := |rows| - 1;
    if rows != [] && rows[k].deploymentId != d {
      k := TransferMeans(rows[..k], d);
    }
  }

  /** A transfer applies exactly if it is the last of the deployment, for its claim, with nothing since. */
  lemma AppliesMeans(b: Boundary, d: string, n: Network)
    requires InOrder(b) && n == NetworkOf(b.audits, d)
    ensures var m := TransferOf(b.transfers, d);
            && (Applies(m, n) <==> Moved(b, d, n.claimActionId))
            && (Applies(m, n) ==>
                  forall group :: m.value.targetGroupId == group <==> MovedTo(b, d, n.claimActionId, group))
  {
    var row := TransferOf(b.transfers, d);
    var k := TransferMeans(b.transfers, d);
    assert b.audits[..|b.audits|] == b.audits;
    if row.Some? {
      IndexMeans(b.audits, |b.audits|, d, row.value.throughAuditIndex);
      if Applies(row, n) {
        assert MovedBy(b, d, n.claimActionId, k);
      }
    }
  }

  /** A deployment is in a group exactly if the events and transfers put it there. */
  lemma InGroupMeans(b: Boundary, group: string, d: string) returns (k: int)
    requires InOrder(b)
    ensures InGroup(b, group, d) <==> Member(b, group, d)
    ensures InGroup(b, group, d) ==> 0 <= k < |b.audits| && InBy(b, group, d, k)
    ensures InGroup(b, group, d) ==> ClaimIs(b.audits, |b.audits|, d, NetworkOf(b.audits, d), k)
  {
    hide Ordered, MadeBy, IsActive, ClaimStands, Moved, MovedTo;
    var log, n, x := b.audits, |b.audits|, NetworkOf(b.audits, d);
    assert log[..n] == log;
    ActiveMeans(log, n, d);
    ClaimedMeans(log, n, d);
    k := -1;
    if x.claimed {
      k := ClaimMeans(log, n, d);
      AppliesMeans(b, d, x);
      PutMeans(b, d, x, k, group);
      assert InGroup(b, group, d) <==> InBy(b, group, d, k);
      OnlyBy(b, group, d, k);
    } else {
      NotClaimed(b, group, d);
    }
  }

  lemma NotClaimed(b: Boundary, group: string, d: string)
    requires !ClaimStands(b.audits, |b.audits|, d)
    ensures !Member(b, group, d)
  {
  }

  lemma OnlyBy(b: Boundary, group: string, d: string, k: nat)
    requires MadeBy(b.audits, |b.audits|, d, k)
    ensures Member(b, group, d) <==> InBy(b, group, d, k)
  {
    if Member(b, group, d) {
      var j :| 0 <= j < |b.audits| && InBy(b, group, d, j);
      MadeByOne(b.audits, |b.audits|, d, j, k);
    }
  }

  lemma PutMeans(b: Boundary, d: string, x: Network, k: nat, group: string)
    requires x == NetworkOf(b.audits, d) && x.claimed && ClaimIs(b.audits, |b.audits|, d, x, k)
    ensures x.groupId == group <==> PutInto(b.audits, d, k, group)
  {
    hide MadeBy;
    assert b.audits[..|b.audits|] == b.audits;
    var j := GroupMeans(b.audits, |b.audits|, d);
    if PutInto(b.audits, d, k, group) {
      var i :| 0 <= i < |b.audits| && GroupedBy(b.audits, |b.audits|, d, i)
               && group == (if b.audits[i].fact.action == RevokeLink then b.audits[k].fact.groupId
                            else b.audits[i].fact.groupId);
      assert i == j;
    }
  }

  /** A claim in this state may be exited: it is approved and not suspended, or from before claims were reviewed. */
  ghost predicate MayExit(b: Boundary, state: ClaimState, claim: string) {
    || state == Claimed
    || (state == PendingReview && Judged(b.reviews, claim, true) && !IsSuspended(b.eligibilities, claim))
  }

  /** The claim was made by an event of its deployment, which is in the group by it, and it may be exited. */
  ghost predicate Exits(b: Boundary, group: string, d: string, claim: string) {
    exists k :: 0 <= k < |b.audits| && InBy(b, group, d, k) && b.audits[k].fact.actionId == claim
                && MayExit(b, b.audits[k].fact.claimState, claim)
  }

  lemma EligibleMeans(b: Boundary, n: Network)
    requires ReviewsUnique(b.reviews)
    ensures Eligible(b, n) <==> MayExit(b, n.claimState, n.claimActionId)
    ensures Approved(n, b.reviews) <==> n.claimState == PendingReview && Judged(b.reviews, n.claimActionId, true)
  {
    var k := ReviewMeans(b.reviews, n.claimActionId);
    SuspendedMeans(b.eligibilities, n);
  }

  lemma TargetMeans(b: Boundary, group: string, d: string, claim: string)
    requires InOrder(b)
    ensures TargetIn(b, group, d, claim) <==> Exits(b, group, d, claim)
  {
    hide Ordered, InGroup, Eligible, MayExit, InBy;
    var k := InGroupMeans(b, group, d);
    EligibleMeans(b, NetworkOf(b.audits, d));
    if Exits(b, group, d, claim) {
      var j :| 0 <= j < |b.audits| && InBy(b, group, d, j) && b.audits[j].fact.actionId == claim
               && MayExit(b, b.audits[j].fact.claimState, claim);
      SameBy(b, group, d, j, k);
    }
  }

  lemma SameBy(b: Boundary, group: string, d: string, j: nat, k: nat)
    requires InBy(b, group, d, j) && InBy(b, group, d, k)
    ensures j == k
  {
    MadeByOne(b.audits, |b.audits|, d, j, k);
  }

  // ---------------------------------------------------------------- what a roster row says

  /** The index and hash are those of the review of the claim, or of none. */
  ghost predicate ReviewHead(log: seq<ClaimReview>, claim: string, index: int, hash: string) {
    if forall k :: 0 <= k < |log| ==> log[k].fact.claimActionId != claim then index == 0 && hash == P.ZERO_HASH
    else
      exists k :: 0 <= k < |log| && log[k].fact.claimActionId == claim && index == log[k].index && hash == log[k].hash
  }

  /** The index and hash are those of the last decision on the claim's eligibility, or of none. */
  ghost predicate DecisionHead(log: seq<Eligibility>, claim: string, index: int, hash: string) {
    if forall k :: 0 <= k < |log| ==> log[k].fact.claimActionId != claim then index == 0 && hash == P.ZERO_HASH
    else exists k :: 0 <= k < |log| && LastDecision(log, claim, k) && index == log[k].index && hash == log[k].hash
  }

  /** What the row of a deployment with claim event `k` says of its claim and its eligibility. */
  ghost predicate RowSays(b: Boundary, row: P.ReviewMember, k: nat)
    requires k < |b.audits|
  {
    var state, claim := b.audits[k].fact.claimState, b.audits[k].fact.actionId;
    var pending, approved := state == PendingReview, Judged(b.reviews, claim, true);
    && row.claimActionId == claim && row.claimAuditIndex == b.audits[k].index && row.claimAuditHash == b.audits[k].hash
    && ReviewHead(b.reviews, claim, row.reviewIndex, row.reviewHash)
    && DecisionHead(b.eligibilities, claim, row.eligibilityIndex, row.eligibilityHash)
    && (row.claimState == "claimed" <==> state == Claimed)
    && (row.claimState == "approved" <==> pending && approved)
    && (row.claimState == "rejected" <==> pending && Judged(b.reviews, claim, false))
    && (row.claimState == "pending-review" <==> pending && !approved && !Judged(b.reviews, claim, false))
    && (row.eligibilityState == "suspended" <==> pending && approved && IsSuspended(b.eligibilities, claim))
    && (row.eligibilityState == "active" <==>
          state == Claimed || (pending && approved && !IsSuspended(b.eligibilities, claim)))
    && (row.eligibilityState == "inactive" <==> state != Claimed && !(pending && approved))
  }

  lemma HeadsMean(b: Boundary, claim: string)
    requires ReviewsUnique(b.reviews)
    ensures var r, e := ReviewOf(b.reviews, claim), EligibilityOf(b.eligibilities, claim);
            && ReviewHead(b.reviews, claim, HeadIndexOf(r), HeadHashOf(r))
            && DecisionHead(b.eligibilities, claim, HeadIndexOf(e), HeadHashOf(e))
  {
    var j := LastReview(b.reviews, claim);
    var k := LastEligibility(b.eligibilities, claim);
  }

  /** The row of a member says what the logs say of its claim. */
  lemma RowReads(b: Boundary, group: string, order: int, d: string)
    requires InOrder(b) && InGroup(b, group, d)
    ensures var row := MemberRow(b, order, d);
            && row.memberOrder == order && row.deploymentId == d
            && exists k :: 0 <= k < |b.audits| && InBy(b, group, d, k) && RowSays(b, row, k)
  {
    hide Ordered, InBy, InGroup, MadeBy;
    var k := InGroupMeans(b, group, d);
    RowMeans(b, order, d, k);
  }

  lemma RowMeans(b: Boundary, order: int, d: string, k: nat)
    requires ReviewsUnique(b.reviews) && ClaimIs(b.audits, |b.audits|, d, NetworkOf(b.audits, d), k)
    ensures RowSays(b, MemberRow(b, order, d), k)
  {
    hide MadeBy, ReviewOf, EligibilityOf, Judged, IsSuspended, ReviewHead, DecisionHead, NetworkOf, Approved, Suspended;
    var n := NetworkOf(b.audits, d);
    HeadsMean(b, n.claimActionId);
    EligibleMeans(b, n);
    ClaimTextMeans(b, n);
    EligibilityTextMeans(b, n);
  }

  lemma ClaimTextMeans(b: Boundary, n: Network)
    requires ReviewsUnique(b.reviews)
    ensures var text, claim, pending := ClaimText(b, n), n.claimActionId, n.claimState == PendingReview;
            && (text == "claimed" <==> n.claimState == Claimed)
            && (text == "approved" <==> pending && Judged(b.reviews, claim, true))
            && (text == "rejected" <==> pending && Judged(b.reviews, claim, false))
            && (text == "pending-review" <==>
                  pending && !Judged(b.reviews, claim, true) && !Judged(b.reviews, claim, false))
  {
    var k := ReviewMeans(b.reviews, n.claimActionId);
  }

  lemma EligibilityTextMeans(b: Boundary, n: Network)
    requires ReviewsUnique(b.reviews)
    ensures var text, claim := EligibilityText(b, n), n.claimActionId;
            var approved := n.claimState == PendingReview && Judged(b.reviews, claim, true);
            && (text == "suspended" <==> approved && IsSuspended(b.eligibilities, claim))
            && (text == "active" <==> n.claimState == Claimed || (approved && !IsSuspended(b.eligibilities, claim)))
            && (text == "inactive" <==> n.claimState != Claimed && !approved)
  {
    EligibleMeans(b, n);
  }
}
