/**
  What the writers of the ownership-transfer log answer, said of the rows themselves; and the histories that
  transfers have in every run.
*/
module TransferAnswers {
  import opened Basics
  import opened Protocol
  import opened BoundaryLaws
  import L = Ledger
  import LA = LedgerAnswers
  import S = ReviewSources
  import O = OwnershipTransfers
  import R = ExitReview
  import RS = ExitReviewSafety
  import RA = ExitReviewAnswers
  import ES = ExitSafety
  import opened ExitAllocation
  import opened TransferSteps

  // ---------------------------------------------------------------- histories

  predicate HasRow(log: O.Log, id: string) {
    exists k :: 0 <= k < |log.memberships| && log.memberships[k].transferId == id
  }

  lemma {:induction false} RowFound(rows: seq<O.Membership>, id: string)
    requires O.MembershipOf(rows, id).Some?
    ensures exists k :: 0 <= k < |rows| && rows[k].transferId == id
  {
    if rows[|rows| - 1].transferId != id {
      RowFound(rows[..|rows| - 1], id);
    }
  }

  const COMPLETED: seq<(O.Action, O.Status)> :=
    [(O.Prepare, O.Prepared), (O.Approve, O.Approved), (O.Complete, O.Completed)]

  /** A transfer that awaits a decision. */
  predicate Awaits(h: seq<(O.Action, O.Status)>) {
    h == [(O.Prepare, O.Prepared)] || h == [(O.Prepare, O.Prepared), (O.Approve, O.Approved)]
  }

  predicate SameClaim(log: O.Log, a: string, b: string)
    requires a in log.records && b in log.records
  {
    && log.records[a].targetDeploymentId == log.records[b].targetDeploymentId
    && log.records[a].claimActionId == log.records[b].claimActionId
  }

  /**
    In every run a transfer is prepared first; it is then approved, rejected or cancelled, and once approved
    completed or cancelled.  So it has moved its deployment only if it was prepared, approved and completed, in
    this order; and at most one transfer of a claim awaits a decision.
  */
  lemma TransferHistories(w: World, steps: seq<ES.Step>, id: string)
    requires id in TransfersIn(ES.Run(w, Empty, steps)).records
    ensures var log := TransfersIn(ES.Run(w, Empty, steps));
            var h := O.History(log.events, id);
            && (h == COMPLETED || Awaits(h)
                || h == [(O.Prepare, O.Prepared), (O.Reject, O.Rejected)]
                || h == [(O.Prepare, O.Prepared), (O.Cancel, O.Cancelled)]
                || h == [(O.Prepare, O.Prepared), (O.Approve, O.Approved), (O.Cancel, O.Cancelled)])
            && (HasRow(log, id) <==> h == COMPLETED)
            && forall other :: (other in log.records && Awaits(h) && Awaits(O.History(log.events, other))
                                && SameClaim(log, id, other)) ==> other == id
  {
    hide ES.Run, RS.AllAnchored, RS.LogOk, ES.HashesUnique, ES.RecordsOk;
    ES.EmptySound(w);
    ES.RunSound(w, Empty, steps);
    var log := TransfersIn(ES.Run(w, Empty, steps));
    SourcesOk(w, ES.Run(w, Empty, steps));
    HistoryOf(log, id);
    forall other | other in log.records
      ensures Awaits(O.History(log.events, other)) ==> O.Open(log, other)
    {
      HistoryOf(log, other);
    }
  }

  lemma SourcesOk(w: World, t: Tables)
    requires ES.Sound(w, t)
    ensures S.LogsOk(t.reviews.sources) && O.Ok(TransfersIn(t))
  {
  }

  /** The history of one transfer in a log that was written. */
  lemma HistoryOf(log: O.Log, id: string)
    requires O.Ok(log) && id in log.records
    ensures var h := O.History(log.events, id);
            && O.Legal(h) && (HasRow(log, id) <==> h == COMPLETED) && (O.Open(log, id) <==> Awaits(h))
  {
    hide O.EventsOrdered, O.RowsKept, O.OneOpen, O.DaysOrdered, O.RecordsKept, O.CompletedIsLast, O.CompletionKept;
    O.HistoryEnds(log.events, id);
    RowIffCompleted(log, id);
  }

  lemma RowIffCompleted(log: O.Log, id: string)
    requires O.Ok(log) && id in log.records
    ensures HasRow(log, id) <==> O.Last(log.events, id).Some? && O.Last(log.events, id).value.status == O.Completed
  {
    hide O.EventsOrdered, O.OneOpen, O.DaysOrdered, O.RecordsKept, O.HistoriesLegal;
    assert O.CompletionKept(log, id);
    if O.Last(log.events, id).Some? && O.Last(log.events, id).value.status == O.Completed {
      RowFound(log.memberships, id);
    }
    if HasRow(log, id) {
      var k :| 0 <= k < |log.memberships| && log.memberships[k].transferId == id;
      assert O.RowKept(log, log.memberships[k]);
      assert O.CompletedIsLast(log, log.memberships[k].eventIndex - 1);
    }
  }

  /** The row names the completion that wrote it and copies its transfer; it splits the audit log at its own time. */
  ghost predicate RowReads(s: S.Sources, m: O.Membership) {
    var log := s.transfers;
    && 1 <= m.eventIndex <= |log.events| && m.transferId in log.records
    && var e, r := log.events[m.eventIndex - 1], log.records[m.transferId];
       && e.transferId == m.transferId && e.action == O.Complete && e.eventHash == m.eventHash
       && e.acceptedAt == m.completedAt && m.effectiveDay * 86400 <= m.completedAt < (m.effectiveDay + 1) * 86400
       && m.deploymentId == r.targetDeploymentId && m.claimActionId == r.claimActionId
       && m.sourceGroupId == r.sourceGroupId && m.targetGroupId == r.targetGroupId && m.sourceGroupId != m.targetGroupId
       && forall i :: 0 <= i < |s.audits| ==>
            if i < m.throughAuditIndex then s.audits[i].acceptedAt < m.completedAt
            else m.completedAt < s.audits[i].acceptedAt
  }

  /** So it is with every membership row of every run. */
  lemma MembershipRows(w: World, steps: seq<ES.Step>, k: nat)
    requires k < |TransfersIn(ES.Run(w, Empty, steps)).memberships|
    ensures RowReads(ES.Run(w, Empty, steps).reviews.sources, TransfersIn(ES.Run(w, Empty, steps)).memberships[k])
  {
    hide ES.Run, ES.Sound, RowReads, S.LogsOk;
    ES.EmptySound(w);
    ES.RunSound(w, Empty, steps);
    SourcesOk(w, ES.Run(w, Empty, steps));
    RowIsRight(ES.Run(w, Empty, steps).reviews.sources, k);
  }

  lemma RowIsRight(s: S.Sources, k: nat)
    requires S.LogsOk(s) && k < |s.transfers.memberships|
    ensures RowReads(s, s.transfers.memberships[k])
  {
    var m := s.transfers.memberships[k];
    assert O.RowKept(s.transfers, m) && S.RowLinked(s.audits, m);
  }

  // ---------------------------------------------------------------- the rows that an answer rests on

  /** The review's last event is the verification with this hash. */
  ghost predicate Stands(t: Tables, reviewId: string, hash: string, k: nat) {
    && RA.LastOf(t.reviews.events, reviewId, k) && t.reviews.events[k].eventHash == hash
    && t.reviews.events[k].content.action == Verify && reviewId in t.reviews.records
  }

  /** The review stands at this verification, over a record of this claim. */
  ghost predicate ClaimVerified(t: Tables, reviewId: string, hash: string, d: string, claim: string, group: string) {
    && (exists k :: 0 <= k && Stands(t, reviewId, hash, k))
    && var c := t.reviews.records[reviewId].content;
       c.targetDeploymentId == d && c.claimActionId == claim && c.groupId == group
  }

  lemma {:induction false} EventFound(events: seq<R.Event>, k: nat)
    requires k < |events|
    requires forall i :: 0 <= i < |events| ==> events[i].content.eventIndex - events[0].content.eventIndex == i
    ensures var c := events[k].content;
            ReviewEventAt(events, c.eventIndex, events[k].eventHash, c.reviewId) == Some(events[k])
  {
    if k > 0 {
      EventFound(events[1..], k - 1);
    }
  }

  /** A review stands at a verification exactly if that is its last event. */
  lemma StandingMeans(w: World, t: Tables, reviewId: string, hash: string)
    requires RS.LogOk(w.r, t.reviews)
    ensures ExactReview(t, reviewId, hash).Some? <==> exists k :: 0 <= k && Stands(t, reviewId, hash, k)
    ensures ExactReview(t, reviewId, hash).Some? ==>
              && ExactReview(t, reviewId, hash).value.review.record == t.reviews.records[reviewId]
              && reviewId in t.reviews.records
  {
    hide RS.LogOk, ExactReview;
    var k := RA.LastMeans(t.reviews.events, reviewId);
    if reviewId in t.reviews.records {
      RS.Readable(w.r, t.reviews, reviewId);
      StandingAt(w, t, reviewId, hash, k);
      forall j | 0 <= j && Stands(t, reviewId, hash, j)
        ensures j == k
      {
      }
    } else {
      Unstanding(t, reviewId, hash);
    }
  }

  lemma Unstanding(t: Tables, reviewId: string, hash: string)
    requires reviewId !in t.reviews.records
    ensures ExactReview(t, reviewId, hash).None?
  {
  }

  lemma StandingAt(w: World, t: Tables, reviewId: string, hash: string, k: nat)
    requires RS.LogOk(w.r, t.reviews) && reviewId in t.reviews.records && RA.LastOf(t.reviews.events, reviewId, k)
    requires R.Last(t.reviews.events, reviewId) == Some(t.reviews.events[k])
    ensures var e := ExactReview(t, reviewId, hash);
            && (e.Some? <==> Stands(t, reviewId, hash, k))
            && (e.Some? ==>
                  e.value.review.record == t.reviews.records[reviewId] && e.value.event == t.reviews.events[k])
  {
    hide RS.Projected, R.LogReplays;
    RS.Readable(w.r, t.reviews, reviewId);
    VerifiedEvent(w, t, k);
    RS.IndexesContiguous(w.r, t.reviews);
    EventFound(t.reviews.events, k);
  }

  lemma VerifiedEvent(w: World, t: Tables, k: nat)
    requires RS.LogOk(w.r, t.reviews) && k < |t.reviews.events|
    ensures var c := t.reviews.events[k].content;
            && c.reviewId in t.reviews.records && c.recordHash == t.reviews.records[c.reviewId].recordHash
            && (c.action == Verify <==> c.status == Eligible)
  {
    assert R.EventVerifies(w.r, t.reviews, k);
  }

  // ---------------------------------------------------------------- the log

  ghost predicate KeyUsed(events: seq<O.Event>, key: string) {
    exists k :: 0 <= k < |events| && events[k].idempotencyKey == key
  }

  /** Event `k` is the first one under the key. */
  ghost predicate FirstUnder(events: seq<O.Event>, key: string, k: nat) {
    k < |events| && events[k].idempotencyKey == key && forall j :: 0 <= j < k ==> events[j].idempotencyKey != key
  }

  ghost predicate LastOf(events: seq<O.Event>, id: string, k: nat) {
    k < |events| && events[k].transferId == id && forall j :: k < j < |events| ==> events[j].transferId != id
  }

  ghost predicate Later(events: seq<O.Event>, at: int) {
    exists k :: 0 <= k < |events| && at < events[k].acceptedAt
  }

  ghost predicate HashTaken(events: seq<O.Event>, hash: string) {
    exists k :: 0 <= k < |events| && events[k].eventHash == hash
  }

  /** A transfer of the claim awaits a decision. */
  ghost predicate ClaimAwaits(log: O.Log, d: string, claim: string) {
    exists id :: id in log.records && Awaits(O.History(log.events, id))
                 && log.records[id].targetDeploymentId == d && log.records[id].claimActionId == claim
  }

  lemma {:induction false} KeyMeans(events: seq<O.Event>, key: string) returns (k: nat)
    ensures match O.FindByKey(events, key)
            case None => !KeyUsed(events, key)
            case Some(e) => KeyUsed(events, key) && FirstUnder(events, key, k) && events[k] == e
  {
    k := 0;
    if events != [] && events[0].idempotencyKey != key {
      k := KeyMeans(events[1..], key);
      assert forall j :: 1 <= j < |events| ==> events[j] == events[1..][j - 1];
      k := k + 1;
    }
  }

  lemma {:induction false} LastMeans(events: seq<O.Event>, id: string) returns (k: nat)
    ensures match O.Last(events, id)
            case None => forall j :: 0 <= j < |events| ==> events[j].transferId != id
            case Some(e) => LastOf(events, id, k) && events[k] == e
  {
    k := 0;
    if events != [] {
      k := |events| - 1;
      if events[k].transferId != id {
        k := LastMeans(events[..k], id);
      }
    }
  }

  lemma ClockMeans(w: World, log: O.Log, at: int)
    requires O.EventsOrdered(log.events)
    ensures ClockGuardFor(w, log, at) == if at < w.r.createdAt then Some(AcceptedAtBeforeIdentity)
                                         else if Later(log.events, at) then Some(ClockBeforeHead) else None
  {
    var n := |log.events|;
    assert n > 0 ==> forall i :: 0 <= i < n ==> log.events[i].acceptedAt <= log.events[n - 1].acceptedAt;
  }

  lemma ActiveMeans(log: O.Log, d: string, claim: string)
    requires O.Ok(log)
    ensures O.Active(log, d, claim) <==> ClaimAwaits(log, d, claim)
  {
    hide O.Ok;
    forall id | id in log.records
      ensures O.StandsAs(log.events, id, {O.Prepared, O.Approved}) <==> Awaits(O.History(log.events, id))
    {
      HistoryOf(log, id);
    }
  }

  /** The transfer log gets one event and its record, and a completion one membership row; nothing else changes. */
  ghost predicate Adds(t: Tables, r: O.Record, e: O.Event, u: Tables) {
    var s, log := t.reviews.sources, t.reviews.sources.transfers;
    var row := O.Membership(r.transferId, e.eventIndex, e.eventHash, r.targetDeploymentId, r.claimActionId,
                            r.sourceGroupId, r.targetGroupId, e.effectiveDay, |s.audits|, e.acceptedAt);
    u == t.(reviews := t.reviews.(sources := s.(transfers :=
            O.Log(log.records[r.transferId := r], log.events + [e],
                  if e.action == O.Complete then log.memberships + [row] else log.memberships))))
  }

  lemma WrittenAdds(t: Tables, r: O.Record, e: O.Event)
    requires S.LogsOk(t.reviews.sources) && e.transferId == r.transferId
    ensures Adds(t, r, e, TransferSteps.Written(t, r, e))
  {
  }

  // ---------------------------------------------------------------- preparing

  /** Why a preparation under a new key is refused, if it is. */
  ghost predicate PrepareRefusedAs(w: World, t: Tables, i: PrepareInput, x: Error) {
    var s, log := t.reviews.sources, TransfersIn(t);
    if i.acceptedAt < w.r.createdAt then x == AcceptedAtBeforeIdentity
    else if Later(log.events, i.acceptedAt) then x == ClockBeforeHead
    else if i.sourceGroupId == i.targetGroupId then x == TargetGroup
    else if ClaimAwaits(log, i.targetDeploymentId, i.claimActionId) then x == TransferConflict
    else if exists id :: id in t.records && t.records[id].content.exitReviewId == i.exitReviewId then
      x == TransferConflict
    else if !Holds(s, i.targetDeploymentId, i.claimActionId, i.sourceGroupId) then x == ClaimBoundary
    else if !ClaimVerified(t, i.exitReviewId, i.verificationHash, i.targetDeploymentId, i.claimActionId,
                           i.sourceGroupId) then
      x == ExitBoundary
    else if !Receives(s, i.targetGroupId) then x == TargetGroup
    else (i.candidateTransferId in log.records || HashTaken(log.events, i.eventHash)) && x == UniqueViolation
  }

  predicate OfDay(day: int, at: int) { day * 86400 <= at < (day + 1) * 86400 }

  /** The record and the event of a preparation. */
  predicate PrepareReads(log: O.Log, i: PrepareInput, r: O.Record, e: O.Event) {
    && r.transferId == i.candidateTransferId && r.exitReviewId == i.exitReviewId
    && r.targetDeploymentId == i.targetDeploymentId && r.claimActionId == i.claimActionId
    && r.sourceGroupId == i.sourceGroupId && r.targetGroupId == i.targetGroupId
    && r.verificationHash == i.verificationHash && r.preparedAt == i.acceptedAt
    && e.eventIndex == |log.events| + 1 && e.transferId == i.candidateTransferId
    && e.action == O.Prepare && e.status == O.Prepared && OfDay(e.effectiveDay, i.acceptedAt)
    && e.actorId == i.actorId && e.reference == i.reference && e.evidenceHash == i.evidenceHash && e.reasonCode == ""
    && e.idempotencyKey == i.idempotencyKey && e.payloadHash == i.payloadHash && e.eventHash == i.eventHash
    && e.acceptedAt == i.acceptedAt
  }

  /** The event and its transfer are what this preparation asks for. */
  predicate AsksPrepare(i: PrepareInput, r: O.Record, e: O.Event) {
    && e.action == O.Prepare && e.actorId == i.actorId && e.reference == i.reference && e.evidenceHash == i.evidenceHash
    && r.exitReviewId == i.exitReviewId && r.targetDeploymentId == i.targetDeploymentId
    && r.claimActionId == i.claimActionId && r.sourceGroupId == i.sourceGroupId && r.targetGroupId == i.targetGroupId
    && r.verificationHash == i.verificationHash
  }

  /** The first event under the key again, if it is the one asked for. */
  ghost predicate Repeats(log: O.Log, key: string, k: nat, asked: bool, outcome: Result<Outcome>) {
    && FirstUnder(log.events, key, k) && log.events[k].transferId in log.records
    && outcome == if asked then Ok(Outcome(log.records[log.events[k].transferId], log.events[k], true))
                  else Err(IdempotencyConflict)
  }

  /** The answer to a preparation, and the tables after it. */
  ghost predicate PrepareAnswer(w: World, t: Tables, i: PrepareInput, outcome: Result<Outcome>, u: Tables) {
    var log := TransfersIn(t);
    if KeyUsed(log.events, i.idempotencyKey) then
      u == t && exists k :: 0 <= k < |log.events| && log.events[k].transferId in log.records
                            && Repeats(log, i.idempotencyKey, k,
                                       AsksPrepare(i, log.records[log.events[k].transferId], log.events[k]), outcome)
    else if outcome.Err? then u == t && PrepareRefusedAs(w, t, i, outcome.error)
    else
      var o := outcome.value;
      && (forall x :: !PrepareRefusedAs(w, t, i, x)) && !o.duplicate
      && PrepareReads(log, i, o.record, o.event) && Adds(t, o.record, o.event, u)
  }

  lemma SamePrepareMeans(i: PrepareInput, r: O.Record, e: O.Event)
    ensures SamePrepare(i, r, e) <==> AsksPrepare(i, r, e)
  {
  }

  lemma PrepareRepeats(w: World, t: Tables, i: PrepareInput)
    requires O.Ok(TransfersIn(t)) && KeyUsed(TransfersIn(t).events, i.idempotencyKey)
    ensures PrepareAnswer(w, t, i, Preparing(w, t, i), After(t, Preparing(w, t, i)))
  {
    hide O.EventsOrdered, O.RowsKept, O.HistoriesLegal, O.OneOpen, O.DaysOrdered, O.CompletionKept, SamePrepare,
         AsksPrepare;
    var log := TransfersIn(t);
    var k := KeyMeans(log.events, i.idempotencyKey);
    SamePrepareMeans(i, log.records[log.events[k].transferId], log.events[k]);
    assert Repeats(log, i.idempotencyKey, k, AsksPrepare(i, log.records[log.events[k].transferId], log.events[k]),
                   Preparing(w, t, i));
  }

  /** What the guards of a preparation ask, in raw terms. */
  lemma PrepareGuards(w: World, t: Tables, i: PrepareInput)
    requires ES.Sound(w, t)
    ensures var s, log := t.reviews.sources, TransfersIn(t);
            && ClockGuardFor(w, log, i.acceptedAt)
               == (if i.acceptedAt < w.r.createdAt then Some(AcceptedAtBeforeIdentity)
                   else if Later(log.events, i.acceptedAt) then Some(ClockBeforeHead) else None)
            && (O.Active(log, i.targetDeploymentId, i.claimActionId)
                <==> ClaimAwaits(log, i.targetDeploymentId, i.claimActionId))
            && (S.ClaimCurrent(s, i.targetDeploymentId, i.claimActionId, i.sourceGroupId)
                <==> Holds(s, i.targetDeploymentId, i.claimActionId, i.sourceGroupId))
            && (S.TargetEligible(s, i.targetGroupId) <==> Receives(s, i.targetGroupId))
            && (StandsFor(t, i.exitReviewId, i.verificationHash, i.targetDeploymentId, i.claimActionId, i.sourceGroupId)
                <==> ClaimVerified(t, i.exitReviewId, i.verificationHash, i.targetDeploymentId, i.claimActionId,
                                   i.sourceGroupId))
  {
    hide ES.HashesUnique, ES.RecordsOk, RS.LogOk, ExactReview, Holds, Receives, Stands, ClaimAwaits, O.Active,
         S.ClaimCurrent, S.TargetEligible, O.Ok, S.LogsOk;
    SourcesOk(w, t);
    OrderedEvents(TransfersIn(t));
    ClockMeans(w, TransfersIn(t), i.acceptedAt);
    ActiveMeans(TransfersIn(t), i.targetDeploymentId, i.claimActionId);
    CurrentMeans(t.reviews.sources, i.targetDeploymentId, i.claimActionId, i.sourceGroupId);
    ReceivesMeans(t.reviews.sources, i.targetGroupId);
    StandingMeans(w, t, i.exitReviewId, i.verificationHash);
  }

  lemma OrderedEvents(log: O.Log)
    requires O.Ok(log)
    ensures O.EventsOrdered(log.events) && O.HeadIndex(log.events) == |log.events|
  {
  }

  lemma PrepareFresh(w: World, t: Tables, i: PrepareInput)
    requires ES.Sound(w, t) && !KeyUsed(TransfersIn(t).events, i.idempotencyKey)
    requires O.FindByKey(TransfersIn(t).events, i.idempotencyKey).None?
    ensures match Preparing(w, t, i)
            case Err(x) => PrepareRefusedAs(w, t, i, x)
            case Ok(o) =>
              && (forall x :: !PrepareRefusedAs(w, t, i, x))
              && o == Outcome(PrepareRecord(i), PrepareEvent(TransfersIn(t), i), false)
  {
    hide ES.Sound, O.Ok, S.LogsOk, Holds, Receives, ClaimVerified, StandsFor, ClaimAwaits, O.Active, S.ClaimCurrent,
         S.TargetEligible, ClockGuardFor, Later;
    PrepareGuards(w, t, i);
  }

  /** What `PrepareOwnershipTransfer` answers to any request, in every sound state. */
  lemma PrepareAnswers(w: World, t: Tables, i: PrepareInput)
    requires ES.Sound(w, t)
    ensures PrepareAnswer(w, t, i, Preparing(w, t, i), After(t, Preparing(w, t, i)))
  {
    hide ES.Sound, O.Ok, S.LogsOk, PrepareRefusedAs, Preparing, Adds, TransferSteps.Written, Repeats;
    SourcesOk(w, t);
    var log := TransfersIn(t);
    var k := KeyMeans(log.events, i.idempotencyKey);
    if KeyUsed(log.events, i.idempotencyKey) {
      PrepareRepeats(w, t, i);
    } else {
      PrepareFresh(w, t, i);
      OrderedEvents(log);
      WrittenAdds(t, PrepareRecord(i), PrepareEvent(log, i));
    }
  }

  // ---------------------------------------------------------------- deciding

  /** From this status the action leads to that one. */
  predicate Leads(from: O.Status, action: O.Action, to: O.Status) {
    || (from == O.Prepared
        && (action, to) in {(O.Approve, O.Approved), (O.Reject, O.Rejected), (O.Cancel, O.Cancelled)})
    || (from == O.Approved && (action, to) in {(O.Complete, O.Completed), (O.Cancel, O.Cancelled)})
  }

  /** A ledger entry or an audit event was not accepted before this time. */
  ghost predicate Behind(s: S.Sources, at: int) {
    || (exists k :: 0 <= k < |s.ledger.entries| && at <= s.ledger.entries[k].content.acceptedAt)
    || (exists k :: 0 <= k < |s.audits| && at <= s.audits[k].acceptedAt)
  }

  /** Why a completion is refused, if it is. */
  ghost predicate CompletionRefusedAs(t: Tables, i: AdvanceInput, r: O.Record, x: Error) {
    var s := t.reviews.sources;
    if !OfDay(i.effectiveDay, i.acceptedAt) then x == InvalidTransition
    else if !Holds(s, r.targetDeploymentId, r.claimActionId, r.sourceGroupId) then x == ClaimBoundary
    else if !ClaimVerified(t, r.exitReviewId, r.verificationHash, r.targetDeploymentId, r.claimActionId,
                           r.sourceGroupId) then
      x == ExitBoundary
    else if !Receives(s, r.targetGroupId) then x == TargetGroup
    else Behind(s, i.acceptedAt) && x == ClockBeforeHead
  }

  /** Why a decision on a transfer that stands at event `k` is refused, if it is. */
  ghost predicate DecisionRefusedAs(t: Tables, i: AdvanceInput, k: nat, r: O.Record, x: Error) {
    var events := TransfersIn(t).events;
    && k < |events|
    && if !Leads(events[k].status, i.action, i.status) || i.effectiveDay < events[k].effectiveDay
          || (i.effectiveDay + 1) * 86400 <= r.preparedAt then
         x == InvalidTransition
       else if i.action == O.Complete && (exists y :: CompletionRefusedAs(t, i, r, y)) then
         CompletionRefusedAs(t, i, r, x)
       else HashTaken(events, i.eventHash) && x == UniqueViolation
  }

  predicate AdvanceReads(log: O.Log, i: AdvanceInput, e: O.Event) {
    && e.eventIndex == |log.events| + 1 && e.transferId == i.transferId && e.action == i.action && e.status == i.status
    && e.effectiveDay == i.effectiveDay && e.actorId == i.actorId && e.reference == i.reference
    && e.evidenceHash == i.evidenceHash && e.reasonCode == i.reasonCode && e.idempotencyKey == i.idempotencyKey
    && e.payloadHash == i.payloadHash && e.eventHash == i.eventHash && e.acceptedAt == i.acceptedAt
  }

  /** The event is the one that this decision asks for. */
  predicate AsksAdvance(i: AdvanceInput, e: O.Event) {
    && e.transferId == i.transferId && e.action == i.action && e.status == i.status
    && e.effectiveDay == i.effectiveDay && e.actorId == i.actorId && e.reference == i.reference
    && e.evidenceHash == i.evidenceHash && e.reasonCode == i.reasonCode && e.payloadHash == i.payloadHash
  }

  /** The answer to a decision under a new key. */
  ghost predicate DecisionAnswer(w: World, t: Tables, i: AdvanceInput, outcome: Result<Outcome>, u: Tables) {
    var log := TransfersIn(t);
    if i.acceptedAt < w.r.createdAt then u == t && outcome == Err(AcceptedAtBeforeIdentity)
    else if Later(log.events, i.acceptedAt) then u == t && outcome == Err(ClockBeforeHead)
    else if i.transferId !in log.records then u == t && outcome == Err(NotFound)
    else
      var r := log.records[i.transferId];
      exists k :: 0 <= k && LastOf(log.events, i.transferId, k)
        && if outcome.Err? then u == t && DecisionRefusedAs(t, i, k, r, outcome.error)
           else
             && (forall x :: !DecisionRefusedAs(t, i, k, r, x)) && !outcome.value.duplicate
             && outcome.value.record == r && AdvanceReads(log, i, outcome.value.event)
             && Adds(t, r, outcome.value.event, u)
  }

  /** The answer to a decision on a transfer, and the tables after it. */
  ghost predicate AdvanceAnswer(w: World, t: Tables, i: AdvanceInput, outcome: Result<Outcome>, u: Tables) {
    var log := TransfersIn(t);
    if KeyUsed(log.events, i.idempotencyKey) then
      u == t && exists k :: 0 <= k < |log.events| && log.events[k].transferId in log.records
                            && Repeats(log, i.idempotencyKey, k, AsksAdvance(i, log.events[k]), outcome)
    else DecisionAnswer(w, t, i, outcome, u)
  }

  lemma SameAdvanceMeans(i: AdvanceInput, e: O.Event)
    ensures SameAdvance(i, e) <==> AsksAdvance(i, e)
  {
  }

  lemma AdvanceRepeats(w: World, t: Tables, i: AdvanceInput)
    requires O.Ok(TransfersIn(t)) && KeyUsed(TransfersIn(t).events, i.idempotencyKey)
    ensures AdvanceAnswer(w, t, i, Advancing(w, t, i), After(t, Advancing(w, t, i)))
  {
    hide O.EventsOrdered, O.RowsKept, O.HistoriesLegal, O.OneOpen, O.DaysOrdered, O.CompletionKept, SameAdvance,
         AsksAdvance;
    var log := TransfersIn(t);
    var k := KeyMeans(log.events, i.idempotencyKey);
    SameAdvanceMeans(i, log.events[k]);
    assert Repeats(log, i.idempotencyKey, k, AsksAdvance(i, log.events[k]), Advancing(w, t, i));
  }

  lemma {:induction false} LedgerOrdered(r: L.Registry, entries: seq<L.Entry>, i: nat)
    requires L.LedgerVerifies(r, entries) && i < |entries|
    ensures entries[i].content.acceptedAt <= entries[|entries| - 1].content.acceptedAt
  {
    LA.TimesOrdered(r, entries, i, |entries| - 1);
  }

  lemma BehindMeans(w: World, s: S.Sources, at: int)
    requires S.Sound(R.SettingOf(w.r), s)
    ensures S.AfterLedger(s, at) && S.AfterAudits(s, at) <==> !Behind(s, at)
  {
    hide S.RowsOk, O.Ok, S.RowsLinked;
    var n := |s.audits|;
    assert n > 0 ==> forall i :: 0 <= i < n ==> s.audits[i].acceptedAt <= s.audits[n - 1].acceptedAt;
    forall i | 0 <= i < |s.ledger.entries|
      ensures s.ledger.entries[i].content.acceptedAt
              <= s.ledger.entries[|s.ledger.entries| - 1].content.acceptedAt
    {
      LedgerOrdered(R.SettingOf(w.r).registry, s.ledger.entries, i);
    }
  }

  lemma CompletionAsks(w: World, t: Tables, at: int, r: O.Record)
    requires ES.Sound(w, t)
    ensures var s := t.reviews.sources;
            && (S.ClaimCurrent(s, r.targetDeploymentId, r.claimActionId, r.sourceGroupId)
                <==> Holds(s, r.targetDeploymentId, r.claimActionId, r.sourceGroupId))
            && (S.TargetEligible(s, r.targetGroupId) <==> Receives(s, r.targetGroupId))
            && (StandsFor(t, r.exitReviewId, r.verificationHash, r.targetDeploymentId, r.claimActionId, r.sourceGroupId)
                <==> ClaimVerified(t, r.exitReviewId, r.verificationHash, r.targetDeploymentId, r.claimActionId,
                                   r.sourceGroupId))
            && (S.AfterLedger(s, at) && S.AfterAudits(s, at) <==> !Behind(s, at))
  {
    hide ES.HashesUnique, ES.RecordsOk, RS.LogOk, ExactReview, Holds, Receives, Stands, S.ClaimCurrent,
         S.TargetEligible, O.Ok, S.LogsOk, S.AfterLedger, S.AfterAudits, Behind, S.Sound;
    SourcesOk(w, t);
    var s := t.reviews.sources;
    CurrentMeans(s, r.targetDeploymentId, r.claimActionId, r.sourceGroupId);
    ReceivesMeans(s, r.targetGroupId);
    StandingMeans(w, t, r.exitReviewId, r.verificationHash);
    BehindMeans(w, s, at);
  }

  lemma CompletionGuards(w: World, t: Tables, i: AdvanceInput, r: O.Record)
    requires ES.Sound(w, t)
    ensures match CompletionGuard(t, r, i)
            case Some(x) => CompletionRefusedAs(t, i, r, x)
            case None => forall x :: !CompletionRefusedAs(t, i, r, x)
  {
    hide ES.Sound, StandsFor, Holds, Receives, ClaimVerified, S.ClaimCurrent, S.TargetEligible, S.AfterLedger,
         S.AfterAudits, Behind;
    CompletionAsks(w, t, i.acceptedAt, r);
  }

  lemma AdvanceGuards(w: World, t: Tables, i: AdvanceInput, k: nat, r: O.Record)
    requires ES.Sound(w, t) && k < |TransfersIn(t).events|
    ensures var events := TransfersIn(t).events;
            match AdvanceGuard(t, r, events[k], i)
            case Some(x) => DecisionRefusedAs(t, i, k, r, x)
            case None =>
              if HashTaken(events, i.eventHash) then DecisionRefusedAs(t, i, k, r, UniqueViolation)
              else forall x :: !DecisionRefusedAs(t, i, k, r, x)
  {
    hide ES.Sound, CompletionGuard, CompletionRefusedAs;
    CompletionGuards(w, t, i, r);
  }

  lemma AdvanceFresh(w: World, t: Tables, i: AdvanceInput)
    requires ES.Sound(w, t) && O.Ok(TransfersIn(t)) && !KeyUsed(TransfersIn(t).events, i.idempotencyKey)
    requires O.FindByKey(TransfersIn(t).events, i.idempotencyKey).None?
    ensures DecisionAnswer(w, t, i, Advancing(w, t, i), After(t, Advancing(w, t, i)))
  {
    hide ES.Sound, O.Ok, AdvanceGuard, DecisionRefusedAs, Adds, TransferSteps.Written, ClockGuardFor, Later, HashTaken;
    var log := TransfersIn(t);
    OrderedEvents(log);
    ClockMeans(w, log, i.acceptedAt);
    if i.transferId in log.records {
      HasEvents(log, i.transferId);
      var k := LastMeans(log.events, i.transferId);
      AdvanceGuards(w, t, i, k, log.records[i.transferId]);
      SourcesOk(w, t);
      NewMeans(log, i);
      AdvanceAdds(t, i);
      assert LastOf(log.events, i.transferId, k);
    }
  }

  lemma HasEvents(log: O.Log, id: string)
    requires O.Ok(log) && id in log.records
    ensures O.Last(log.events, id).Some? && log.records[id].transferId == id
  {
  }

  lemma NewMeans(log: O.Log, i: AdvanceInput)
    requires !KeyUsed(log.events, i.idempotencyKey)
    ensures O.NewEvent(log, AdvanceEvent(log, i)) <==> !HashTaken(log.events, i.eventHash)
  {
  }

  lemma AdvanceAdds(t: Tables, i: AdvanceInput)
    requires S.LogsOk(t.reviews.sources) && i.transferId in TransfersIn(t).records
    requires TransfersIn(t).records[i.transferId].transferId == i.transferId
    requires O.HeadIndex(TransfersIn(t).events) == |TransfersIn(t).events|
    ensures var log := TransfersIn(t);
            && Adds(t, log.records[i.transferId], AdvanceEvent(log, i),
                    TransferSteps.Written(t, log.records[i.transferId], AdvanceEvent(log, i)))
            && AdvanceReads(log, i, AdvanceEvent(log, i))
  {
    WrittenAdds(t, TransfersIn(t).records[i.transferId], AdvanceEvent(TransfersIn(t), i));
  }

  /** What `AppendOwnershipTransferEvent` answers to any request, in every sound state. */
  lemma AdvanceAnswers(w: World, t: Tables, i: AdvanceInput)
    requires ES.Sound(w, t)
    ensures AdvanceAnswer(w, t, i, Advancing(w, t, i), After(t, Advancing(w, t, i)))
  {
    hide ES.Sound, O.Ok, S.LogsOk, DecisionAnswer, Advancing, Repeats;
    SourcesOk(w, t);
    var log := TransfersIn(t);
    var k := KeyMeans(log.events, i.idempotencyKey);
    if KeyUsed(log.events, i.idempotencyKey) {
      AdvanceRepeats(w, t, i);
    } else {
      AdvanceFresh(w, t, i);
    }
  }
}
