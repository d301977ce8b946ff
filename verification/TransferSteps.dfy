/**
  The writers of the ownership-transfer log: prepare a transfer of a verified exit review's claim, and
  decide on it.  No transfer is prepared for a review that has an allocation.
*/
module TransferSteps {
  import opened Basics
  import L = Ledger
  import S = ReviewSources
  import O = OwnershipTransfers
  import R = ExitReview
  import opened ExitAllocation

  datatype PrepareInput = PrepareInput(
    exitReviewId: string, targetDeploymentId: string, claimActionId: string, sourceGroupId: string,
    targetGroupId: string, verificationHash: string, actorId: string, reference: string, evidenceHash: string,
    idempotencyKey: string, payloadHash: string, candidateTransferId: string, eventHash: string, acceptedAt: int)

  datatype AdvanceInput = AdvanceInput(
    transferId: string, action: O.Action, status: O.Status, effectiveDay: int, actorId: string, reference: string,
    evidenceHash: string, reasonCode: string, idempotencyKey: string, payloadHash: string, eventHash: string,
    acceptedAt: int)

  /** The record and event that were written, or found again. */
  datatype Outcome = Outcome(record: O.Record, event: O.Event, duplicate: bool)

  /** The outcome writes an event, rather than failing or finding one again. */
  predicate Writes(outcome: Result<Outcome>) { outcome.Ok? && !outcome.value.duplicate }

  /** The event, its record, and the membership row of a completion. */
  function Written(t: Tables, r: O.Record, e: O.Event): Tables {
    t.(reviews := t.reviews.(sources := S.Transferred(t.reviews.sources, r, e)))
  }

  /** The tables after a transaction: one event more, unless it failed or was a repetition. */
  function After(t: Tables, outcome: Result<Outcome>): Tables {
    match outcome
    case Err(_) => t
    case Ok(o) => if o.duplicate then t else Written(t, o.record, o.event)
  }

  function ClockGuardFor(w: World, log: O.Log, acceptedAt: int): Option<Error> {
    if acceptedAt < w.r.createdAt then Some(AcceptedAtBeforeIdentity)
    else if log.events != [] && acceptedAt < log.events[|log.events| - 1].acceptedAt then Some(ClockBeforeHead)
    else None
  }

  /** The review stands at this verification, and is the one of this claim. */
  predicate StandsFor(t: Tables, reviewId: string, hash: string, deploymentId: string, claimActionId: string,
                      groupId: string)
  {
    var v := ExactReview(t, reviewId, hash);
    && v.Some?
    && var c := v.value.review.record.content;
       c.targetDeploymentId == deploymentId && c.claimActionId == claimActionId && c.groupId == groupId
  }

  // ---------------------------------------------------------------- preparing

  predicate SamePrepare(i: PrepareInput, r: O.Record, e: O.Event) {
    && e.action == O.Prepare && r.exitReviewId == i.exitReviewId && r.targetDeploymentId == i.targetDeploymentId
    && r.claimActionId == i.claimActionId && r.sourceGroupId == i.sourceGroupId && r.targetGroupId == i.targetGroupId
    && r.verificationHash == i.verificationHash && e.actorId == i.actorId && e.reference == i.reference
    && e.evidenceHash == i.evidenceHash
  }

  function PrepareRecord(i: PrepareInput): O.Record {
    O.Record(i.candidateTransferId, i.exitReviewId, i.targetDeploymentId, i.claimActionId, i.sourceGroupId,
             i.targetGroupId, i.verificationHash, i.acceptedAt)
  }

  function PrepareEvent(log: O.Log, i: PrepareInput): O.Event {
    O.Event(O.HeadIndex(log.events) + 1, i.candidateTransferId, O.Prepare, O.Prepared, L.DayOf(i.acceptedAt),
            i.actorId, i.reference, i.evidenceHash, "", i.idempotencyKey, i.payloadHash, i.acceptedAt, i.eventHash)
  }

  function Preparing(w: World, t: Tables, i: PrepareInput): Result<Outcome> {
    var log := TransfersIn(t);
    match O.FindByKey(log.events, i.idempotencyKey)
    case Some(e) =>
      if e.transferId !in log.records then Err(NotFound)
      else if !SamePrepare(i, log.records[e.transferId], e) then Err(IdempotencyConflict)
      else Ok(Outcome(log.records[e.transferId], e, true))
    case None =>
      match ClockGuardFor(w, log, i.acceptedAt)
      case Some(e) => Err(e)
      case None =>
        if i.sourceGroupId == i.targetGroupId then Err(TargetGroup)
        else if O.Active(log, i.targetDeploymentId, i.claimActionId) then Err(TransferConflict)
        else if !Unallocated(t, i.exitReviewId) then Err(TransferConflict)
        else if !S.ClaimCurrent(t.reviews.sources, i.targetDeploymentId, i.claimActionId, i.sourceGroupId) then
          Err(ClaimBoundary)
        else if !StandsFor(t, i.exitReviewId, i.verificationHash, i.targetDeploymentId, i.claimActionId,
                           i.sourceGroupId) then
          Err(ExitBoundary)
        else if !S.TargetEligible(t.reviews.sources, i.targetGroupId) then Err(TargetGroup)
        else if i.candidateTransferId in log.records || !O.NewEvent(log, PrepareEvent(log, i)) then Err(UniqueViolation)
        else Ok(Outcome(PrepareRecord(i), PrepareEvent(log, i), false))
  }

  // ---------------------------------------------------------------- deciding

  predicate SameAdvance(i: AdvanceInput, e: O.Event) {
    && e.transferId == i.transferId && e.action == i.action && e.status == i.status
    && e.effectiveDay == i.effectiveDay && e.actorId == i.actorId && e.reference == i.reference
    && e.evidenceHash == i.evidenceHash && e.reasonCode == i.reasonCode && e.payloadHash == i.payloadHash
  }

  function AdvanceEvent(log: O.Log, i: AdvanceInput): O.Event {
    O.Event(O.HeadIndex(log.events) + 1, i.transferId, i.action, i.status, i.effectiveDay, i.actorId, i.reference,
            i.evidenceHash, i.reasonCode, i.idempotencyKey, i.payloadHash, i.acceptedAt, i.eventHash)
  }

  /** A completion takes effect on its own day, over a standing review, after the ledger's and the audit log's heads. */
  function CompletionGuard(t: Tables, r: O.Record, i: AdvanceInput): Option<Error> {
    var s := t.reviews.sources;
    if i.effectiveDay != L.DayOf(i.acceptedAt) then Some(InvalidTransition)
    else if !S.ClaimCurrent(s, r.targetDeploymentId, r.claimActionId, r.sourceGroupId) then Some(ClaimBoundary)
    else if !StandsFor(t, r.exitReviewId, r.verificationHash, r.targetDeploymentId, r.claimActionId,
                       r.sourceGroupId) then
      Some(ExitBoundary)
    else if !S.TargetEligible(s, r.targetGroupId) then Some(TargetGroup)
    else if !S.AfterLedger(s, i.acceptedAt) || !S.AfterAudits(s, i.acceptedAt) then Some(ClockBeforeHead)
    else None
  }

  function AdvanceGuard(t: Tables, r: O.Record, last: O.Event, i: AdvanceInput): Option<Error> {
    if !O.ValidTransition(last.status, i.action, i.status) then Some(InvalidTransition)
    else if i.effectiveDay < L.DayOf(r.preparedAt) || i.effectiveDay < last.effectiveDay then Some(InvalidTransition)
    else if i.action == O.Complete then CompletionGuard(t, r, i)
    else None
  }

  function Advancing(w: World, t: Tables, i: AdvanceInput): Result<Outcome> {
    var log := TransfersIn(t);
    match O.FindByKey(log.events, i.idempotencyKey)
    case Some(e) =>
      if e.transferId !in log.records then Err(NotFound)
      else if !SameAdvance(i, e) then Err(IdempotencyConflict)
      else Ok(Outcome(log.records[e.transferId], e, true))
    case None =>
      match ClockGuardFor(w, log, i.acceptedAt)
      case Some(e) => Err(e)
      case None =>
        if i.transferId !in log.records || O.Last(log.events, i.transferId).None? then Err(NotFound)
        else
          var r := log.records[i.transferId];
          match AdvanceGuard(t, r, O.Last(log.events, i.transferId).value, i)
          case Some(e) => Err(e)
          case None =>
            if !O.NewEvent(log, AdvanceEvent(log, i)) then Err(UniqueViolation)
            else Ok(Outcome(r, AdvanceEvent(log, i), false))
  }

  // ---------------------------------------------------------------- what both writers keep

  /** A prepared transfer continues the log, and its review has no allocation. */
  lemma PrepareContinues(w: World, t: Tables, i: PrepareInput)
    requires Preparing(w, t, i).Ok? && !Preparing(w, t, i).value.duplicate
    ensures var o := Preparing(w, t, i).value;
            && S.TransferAllowed(R.SettingOf(w.r), t.reviews.sources, o.record, o.event)
            && o.event.action == O.Prepare && o.record.transferId !in TransfersIn(t).records
            && Unallocated(t, o.record.exitReviewId)
  {
  }

  /** A decision continues the log of a transfer that was prepared before. */
  lemma AdvanceContinues(w: World, t: Tables, i: AdvanceInput)
    requires O.Ok(TransfersIn(t)) && Advancing(w, t, i).Ok? && !Advancing(w, t, i).value.duplicate
    ensures var o := Advancing(w, t, i).value;
            && S.TransferAllowed(R.SettingOf(w.r), t.reviews.sources, o.record, o.event)
            && o.event.action == i.action != O.Prepare && o.record.transferId in TransfersIn(t).records
  {
    hide O.HistoriesLegal, O.OneOpen, O.DaysOrdered, O.RowsKept, O.CompletionKept, O.CompletedIsLast, O.Active,
         S.ClaimCurrent, S.TargetEligible, S.AfterLedger, S.AfterAudits, StandsFor, O.EventsOrdered;
  }
}
