/**
  The boundary of a day and the present, said of the rows themselves: which events a frozen roster is read
  from, when a claim is current in a group, and when a group may take a claim over.
*/
module BoundaryLaws {
  import opened Basics
  import opened DatedLogs
  import opened ClaimLaws
  import L = Ledger
  import LS = LedgerSafety
  import SB = SettlementBoundaries
  import C = OperatorClaims
  import O = OwnershipTransfers
  import Ro = Rosters
  import S = ReviewSources
  import RM = RosterMoves
  import R = ExitReview

  // ---------------------------------------------------------------- the end of a day

  /** These are the events of the log that were accepted before `end`. */
  ghost predicate Before<T>(part: seq<Dated<T>>, log: seq<Dated<T>>, end: int) {
    part <= log && forall i :: 0 <= i < |log| ==> (log[i].acceptedAt < end <==> i < |part|)
  }

  ghost predicate CompletedBefore(part: seq<O.Membership>, rows: seq<O.Membership>, end: int) {
    part <= rows && forall i :: 0 <= i < |rows| ==> (rows[i].completedAt < end <==> i < |part|)
  }

  /** The boundary has what was accepted before the end of the day, and nothing else. */
  ghost predicate IsBoundary(s: S.Sources, day: int, b: Ro.Boundary) {
    var end := (day + 1) * 86400;
    && Before(b.audits, s.audits, end) && Before(b.reviews, s.claimReviews, end)
    && Before(b.eligibilities, s.eligibilities, end) && CompletedBefore(b.transfers, s.transfers.memberships, end)
  }

  lemma UptoHead<T>(log: seq<Dated<T>>, end: int)
    requires Ordered(log)
    ensures Before(Upto(log, IndexOf(HeadBefore(log, end))), log, end)
    ensures Ordered(Upto(log, IndexOf(HeadBefore(log, end))))
  {
    HeadCounts(log, end);
    UptoIsPrefix(log, IndexOf(HeadBefore(log, end)));
  }

  lemma {:induction false} RowsPrefix(rows: seq<O.Membership>, through: int, day: int, end: int)
    requires forall k :: 0 <= k < |rows| ==>
               (rows[k].eventIndex <= through && rows[k].effectiveDay <= day <==> rows[k].completedAt < end)
    requires forall j, k :: 0 <= j < k < |rows| ==> rows[j].completedAt <= rows[k].completedAt
    ensures CompletedBefore(O.RowsUpto(rows, through, day), rows, end)
  {
    if rows != [] {
      var n := |rows| - 1;
      RowsPrefix(rows[..n], through, day, end);
      var part := O.RowsUpto(rows[..n], through, day);
      if rows[n].completedAt < end {
        assert |part| == n;
        assert part + [rows[n]] == rows;
      }
    }
  }

  lemma CompletionsDated(log: O.Log, end: int)
    requires O.RowsKept(log) && O.EventsOrdered(log.events)
    ensures forall k :: 0 <= k < |log.memberships| ==>
              var m := log.memberships[k];
              && m.effectiveDay == L.DayOf(m.completedAt)
              && (m.eventIndex <= O.IndexBefore(log.events, end) <==> m.completedAt < end)
  {
    O.IndexCounts(log.events, end);
    forall k | 0 <= k < |log.memberships|
      ensures var m := log.memberships[k];
              && m.effectiveDay == L.DayOf(m.completedAt)
              && (m.eventIndex <= O.IndexBefore(log.events, end) <==> m.completedAt < end)
    {
      assert O.RowKept(log, log.memberships[k]);
    }
  }

  /** A review of a day is frozen over what was accepted before the end of that day. */
  lemma BoundaryIs(s: S.Sources, day: int)
    requires S.LogsOk(s)
    ensures var b := R.BoundaryOf(s, R.HeadsAt(s, day), day); IsBoundary(s, day, b) && InOrder(b)
  {
    hide Ordered, O.CompletionKept, O.CompletedIsLast, O.HistoriesLegal, O.OneOpen, O.DaysOrdered, O.RowsKept,
         O.EventsOrdered, O.RecordsKept, S.RowLinked, Upto, C.AuditsOk, C.EligibilitiesOk;
    var end := L.EndOf(day);
    UptoHead(s.audits, end);
    UptoHead(s.claimReviews, end);
    UptoHead(s.eligibilities, end);
    CompletionsDated(s.transfers, end);
    O.CompletionsOrdered(s.transfers);
    var rows := s.transfers.memberships;
    RowsPrefix(rows, O.IndexBefore(s.transfers.events, end), day, end);
    var b := R.BoundaryOf(s, R.HeadsAt(s, day), day);
    forall m | 0 <= m < |b.transfers|
      ensures 0 <= b.transfers[m].throughAuditIndex
    {
      assert b.transfers[m] == rows[m] && S.RowLinked(s.audits, rows[m]);
      LinkedRow(s.audits, rows[m]);
    }
  }

  lemma LinkedRow(audits: seq<C.Audit>, m: O.Membership)
    requires S.RowLinked(audits, m)
    ensures 0 <= m.throughAuditIndex
  {
  }

  // ---------------------------------------------------------------- at present

  /** The claim, made by event `k` in this group, is approved and not suspended. */
  ghost predicate Approves(s: S.Sources, k: nat, claim: string, group: string) {
    && k < |s.audits| && s.audits[k].fact.actionId == claim && s.audits[k].fact.groupId == group
    && s.audits[k].fact.claimState == C.PendingReview
    && Judged(s.claimReviews, claim, true) && !IsSuspended(s.eligibilities, claim)
  }

  /** A completed transfer of the claim has moved the deployment, and nothing has happened to it since. */
  ghost predicate MovedOn(s: S.Sources, d: string, claim: string) {
    exists m :: 0 <= m < |s.transfers.memberships| && MovesOn(s, d, claim, s.transfers.memberships[m])
  }

  ghost predicate MovesOn(s: S.Sources, d: string, claim: string, m: O.Membership) {
    m.deploymentId == d && m.claimActionId == claim && SilentSince(s.audits, |s.audits|, d, m.throughAuditIndex)
  }

  /** The deployment's claim was made in this group and stands there, approved, not suspended and not moved on. */
  ghost predicate Holds(s: S.Sources, d: string, claim: string, group: string) {
    && !MovedOn(s, d, claim)
    && exists k :: 0 <= k < |s.audits| && MadeBy(s.audits, |s.audits|, d, k) && Approves(s, k, claim, group)
                   && PutInto(s.audits, d, k, group)
  }

  lemma PresentInOrder(s: S.Sources)
    requires S.LogsOk(s)
    ensures InOrder(S.Present(s))
  {
    forall m | 0 <= m < |s.transfers.memberships|
      ensures 0 <= s.transfers.memberships[m].throughAuditIndex
    {
      assert S.RowLinked(s.audits, s.transfers.memberships[m]);
    }
  }

  lemma MovedOnMeans(s: S.Sources, d: string, claim: string)
    requires Ordered(s.audits) && InOrder(S.Present(s))
    ensures MovedOn(s, d, claim)
            <==> exists m :: m in s.transfers.memberships && m.deploymentId == d && m.claimActionId == claim
                             && C.NetworkOf(s.audits, d).index <= m.throughAuditIndex
  {
    var rows, n := s.transfers.memberships, C.NetworkOf(s.audits, d);
    assert s.audits[..|s.audits|] == s.audits;
    forall m | 0 <= m < |rows|
      ensures SilentSince(s.audits, |s.audits|, d, rows[m].throughAuditIndex) <==> n.index <= rows[m].throughAuditIndex
    {
      IndexMeans(s.audits, |s.audits|, d, S.Present(s).transfers[m].throughAuditIndex);
    }
  }

  /** What a transfer's completion asks of its claim. */
  lemma CurrentMeans(s: S.Sources, d: string, claim: string, group: string)
    requires S.LogsOk(s)
    ensures S.ClaimCurrent(s, d, claim, group) <==> Holds(s, d, claim, group)
  {
    hide O.Ok, MadeBy, IsSuspended, Judged, PutInto, ClaimStands, C.AuditsOk, S.RowsLinked, C.Approved, C.Suspended;
    PresentInOrder(s);
    MovedOnMeans(s, d, claim);
    var n := C.NetworkOf(s.audits, d);
    assert s.audits[..|s.audits|] == s.audits;
    ClaimedMeans(s.audits, |s.audits|, d);
    if n.claimed {
      var k := ClaimMeans(s.audits, |s.audits|, d);
      EligibleMeans(S.Present(s), n);
      SuspendedMeans(s.eligibilities, n);
      PutMeans(S.Present(s), d, n, k, group);
      HeldBy(s, d, claim, group, k);
      if S.ClaimCurrent(s, d, claim, group) {
        RM.CurrentUntransferred(s, d, claim, group);
      }
      if Holds(s, d, claim, group) && S.TransferFor(s.transfers.memberships, d, claim).Some? {
        var j := RM.TransferForIn(s.transfers.memberships, d, claim);
      }
    } else {
      NotHeld(s, d, claim, group);
    }
  }

  lemma NotHeld(s: S.Sources, d: string, claim: string, group: string)
    requires !ClaimStands(s.audits, |s.audits|, d)
    ensures !Holds(s, d, claim, group)
  {
  }

  lemma HeldBy(s: S.Sources, d: string, claim: string, group: string, k: nat)
    requires k < |s.audits| && MadeBy(s.audits, |s.audits|, d, k)
    ensures Holds(s, d, claim, group) <==>
            !MovedOn(s, d, claim) && Approves(s, k, claim, group) && PutInto(s.audits, d, k, group)
  {
    if Holds(s, d, claim, group) {
      var j :| 0 <= j < |s.audits| && MadeBy(s.audits, |s.audits|, d, j) && Approves(s, j, claim, group)
               && PutInto(s.audits, d, j, group);
      MadeByOne(s.audits, |s.audits|, d, j, k);
    }
  }

  /** By claim event `k`, made in the group, its deployment is there; the claim is approved and not suspended. */
  ghost predicate Leads(s: S.Sources, group: string, k: nat) {
    && k < |s.audits| && InBy(S.Present(s), group, s.audits[k].fact.deploymentId, k)
    && Approves(s, k, s.audits[k].fact.actionId, group)
  }

  /** The group may take a claim over: an approved deployment with a claim made in it is still there. */
  ghost predicate Receives(s: S.Sources, group: string) {
    exists k :: 0 <= k < |s.audits| && Leads(s, group, k)
  }

  lemma HoldsGroupMeans(s: S.Sources, group: string, d: string) returns (k: int)
    requires S.LogsOk(s)
    ensures S.HoldsGroup(s, group, d) ==> 0 <= k < |s.audits| && Leads(s, group, k)
    ensures forall j :: 0 <= j < |s.audits| && Leads(s, group, j) && s.audits[j].fact.deploymentId == d ==>
              S.HoldsGroup(s, group, d)
  {
    hide S.LogsOk, MadeBy, IsSuspended, Judged, PutInto, IsActive, Moved, MovedTo, Ro.InGroup, C.Approved, C.Suspended,
         ClaimStands;
    PresentInOrder(s);
    var b, n := S.Present(s), C.NetworkOf(s.audits, d);
    k := InGroupMeans(b, group, d);
    EligibleMeans(b, n);
    SuspendedMeans(s.eligibilities, n);
    if S.HoldsGroup(s, group, d) {
      MadeAbout(s.audits, d, k);
    }
    forall j | 0 <= j < |s.audits| && Leads(s, group, j) && s.audits[j].fact.deploymentId == d
      ensures S.HoldsGroup(s, group, d)
    {
      assert Member(b, group, d);
      SameBy(b, group, d, j, k);
      InGroupClaimed(b, group, d);
    }
  }

  lemma InGroupClaimed(b: Ro.Boundary, group: string, d: string)
    requires Ro.InGroup(b, group, d)
    ensures C.NetworkOf(b.audits, d).claimed
  {
  }

  lemma MadeAbout(log: seq<C.Audit>, d: string, k: nat)
    requires MadeBy(log, |log|, d, k)
    ensures k < |log| && log[k].fact.deploymentId == d
  {
  }

  /** What a transfer asks of its target group. */
  lemma ReceivesMeans(s: S.Sources, group: string)
    requires S.LogsOk(s)
    ensures S.TargetEligible(s, group) <==> Receives(s, group)
  {
    hide S.LogsOk, S.HoldsGroup, Leads;
    forall i | 0 <= i < |s.audits|
      ensures S.HoldsGroup(s, group, s.audits[i].fact.deploymentId) ==> Receives(s, group)
      ensures Leads(s, group, i) ==> S.HoldsGroup(s, group, s.audits[i].fact.deploymentId)
    {
      var k := HoldsGroupMeans(s, group, s.audits[i].fact.deploymentId);
    }
  }

  // ---------------------------------------------------------------- settlements

  /** A settlement writes its row at the index and the time of its own ledger entry, and nothing else. */
  lemma SettleAnswers(c: S.Setting, s: S.Sources, x: L.Appended, row: SB.Settled)
    requires S.Sound(c, s) && S.Settling(c, s, x, row).Some?
    ensures var u := S.Settling(c, s, x, row).value;
            && u == s.(ledger := u.ledger, settlements := u.settlements)
            && |u.settlements| == |s.settlements| + 1 && s.settlements <= u.settlements
            && |u.ledger.entries| == |s.ledger.entries| + 1 && s.ledger.entries <= u.ledger.entries
            && var placed, e := u.settlements[|s.settlements|], u.ledger.entries[|s.ledger.entries|];
               && placed == row.(ledgerIndex := |u.ledger.entries|, acceptedAt := x.acceptedAt)
               && e.content.acceptedAt == x.acceptedAt
               && forall i :: 0 <= i < |s.settlements| ==>
                    && s.settlements[i].settlementId != placed.settlementId
                    && (s.settlements[i].period == placed.period
                        && s.settlements[i].currencyCode == placed.currencyCode ==>
                          s.settlements[i].revision != placed.revision)
  {
    LS.NextIndex(c.registry, s.ledger.entries);
  }

  // ---------------------------------------------------------------- when the operator logs accept an event

  /** The time is not before the registry's creation, nor before any event of the log. */
  ghost predicate InTime<T>(c: S.Setting, log: seq<Dated<T>>, at: int) {
    c.registry.createdAt <= at && forall i :: 0 <= i < |log| ==> log[i].acceptedAt <= at
  }

  lemma ClockMeans<T>(c: S.Setting, log: seq<Dated<T>>, at: int)
    requires Ordered(log)
    ensures ClockAllows(log, c.registry.createdAt, at) <==> InTime(c, log, at)
  {
    var n := |log|;
    assert n > 0 ==> forall i :: 0 <= i < n ==> log[i].acceptedAt <= log[n - 1].acceptedAt;
  }

  /** An audit event is of a new action, after every completed transfer; only active deployments claim. */
  lemma AuditAnswers(c: S.Setting, s: S.Sources, at: int, f: C.AuditFact)
    requires S.LogsOk(s)
    ensures S.AuditAccepted(c, s, at, f)
            <==> && InTime(c, s.audits, at)
                 && (forall i :: 0 <= i < |s.audits| ==> s.audits[i].fact.actionId != f.actionId)
                 && (f.action == C.SubmitClaim ==> f.claimState == C.PendingReview)
                 && (f.action == C.SubmitClaim || f.action == C.RedeemToken ==>
                       IsActive(s.audits, |s.audits|, f.deploymentId))
                 && forall m :: 0 <= m < |s.transfers.memberships| ==> s.transfers.memberships[m].completedAt < at
  {
    hide Ordered, C.AuditsOk, O.HistoriesLegal, O.OneOpen, O.DaysOrdered, O.RowsKept, O.EventsOrdered, O.RecordsKept,
         S.RowsLinked, C.ReviewsOk, C.EligibilitiesOk, IsActive;
    assert s.audits[..|s.audits|] == s.audits;
    ActiveMeans(s.audits, |s.audits|, f.deploymentId);
    ClockMeans(c, s.audits, at);
    O.CompletionsOrdered(s.transfers);
  }

  /** A review is of the standing claim of its deployment, which is pending and has no review. */
  ghost predicate ReviewDue(s: S.Sources, at: int, f: C.ReviewFact) {
    && (forall i :: 0 <= i < |s.claimReviews| ==> s.claimReviews[i].fact.claimActionId != f.claimActionId)
    && exists k :: 0 <= k < |s.audits| && MadeBy(s.audits, |s.audits|, f.deploymentId, k)
                   && Pending(s.audits[k], f.claimActionId) && s.audits[k].acceptedAt <= at
  }

  predicate Pending(e: C.Audit, claim: string) {
    e.fact.actionId == claim && e.fact.claimState == C.PendingReview
  }

  lemma ReviewAnswers(c: S.Setting, s: S.Sources, at: int, f: C.ReviewFact)
    requires S.LogsOk(s)
    ensures S.ReviewAccepted(c, s, at, f) <==> InTime(c, s.claimReviews, at) && ReviewDue(s, at, f)
  {
    hide Ordered, O.Ok, S.RowsLinked, C.EligibilitiesOk, MadeBy, ClaimStands;
    assert s.audits[..|s.audits|] == s.audits;
    ClockMeans(c, s.claimReviews, at);
    ClaimedMeans(s.audits, |s.audits|, f.deploymentId);
    var r := C.LastReview(s.claimReviews, f.claimActionId);
    if C.NetworkOf(s.audits, f.deploymentId).claimed {
      var k := ClaimMeans(s.audits, |s.audits|, f.deploymentId);
      if ReviewDue(s, at, f) {
        var j :| 0 <= j < |s.audits| && MadeBy(s.audits, |s.audits|, f.deploymentId, j)
                 && Pending(s.audits[j], f.claimActionId) && s.audits[j].acceptedAt <= at;
        MadeByOne(s.audits, |s.audits|, f.deploymentId, j, k);
      }
    } else {
      NoneMade(s.audits, f.deploymentId);
    }
  }

  lemma NoneMade(log: seq<C.Audit>, d: string)
    requires !ClaimStands(log, |log|, d)
    ensures forall k :: 0 <= k < |log| ==> !MadeBy(log, |log|, d, k)
  {
  }

  /** A decision is on a standing claim that was approved by then; it suspends or reinstates, in turn. */
  ghost predicate DecisionDue(s: S.Sources, at: int, f: C.EligibilityFact) {
    && (f.suspended <==> !IsSuspended(s.eligibilities, f.claimActionId))
    && (exists k :: 0 <= k < |s.audits| && MadeBy(s.audits, |s.audits|, f.deploymentId, k)
                    && Pending(s.audits[k], f.claimActionId))
    && exists r :: 0 <= r < |s.claimReviews| && Judges(s.claimReviews[r], f.claimActionId, true)
                   && s.claimReviews[r].acceptedAt <= at
  }

  lemma EligibilityAnswers(c: S.Setting, s: S.Sources, at: int, f: C.EligibilityFact)
    requires S.LogsOk(s)
    ensures S.EligibilityAccepted(c, s, at, f) <==> InTime(c, s.eligibilities, at) && DecisionDue(s, at, f)
  {
    hide Ordered, O.Ok, S.RowsLinked, C.EligibilitiesOk, MadeBy, ClaimStands, IsSuspended, C.Suspended;
    assert s.audits[..|s.audits|] == s.audits;
    var n := C.NetworkOf(s.audits, f.deploymentId);
    ClockMeans(c, s.eligibilities, at);
    ClaimedMeans(s.audits, |s.audits|, f.deploymentId);
    var r := ReviewMeans(s.claimReviews, f.claimActionId);
    SuspendedMeans(s.eligibilities, n);
    if n.claimed {
      var k := ClaimMeans(s.audits, |s.audits|, f.deploymentId);
      if DecisionDue(s, at, f) {
        var j :| 0 <= j < |s.audits| && MadeBy(s.audits, |s.audits|, f.deploymentId, j)
                 && Pending(s.audits[j], f.claimActionId);
        MadeByOne(s.audits, |s.audits|, f.deploymentId, j, k);
      }
    } else {
      NoneMade(s.audits, f.deploymentId);
    }
  }
}
