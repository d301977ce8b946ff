/**
  The ownership decision that a final exit allocation pins: the head of the transfer log at its creation, no
  contesting transfer up to there, none of its review prepared afterwards, and the completion it relies on.
*/
module DecisionBoundary {
  import opened Basics
  import opened Protocol
  import O = OwnershipTransfers

  /** The events with indexes up to `index`. */
  function Through(events: seq<O.Event>, index: int): seq<O.Event> {
    if events == [] then []
    else
      var last, rest := events[|events| - 1], Through(events[..|events| - 1], index);
      if last.eventIndex <= index then rest + [last] else rest
  }

  predicate IsEvent(e: O.Event, index: int, hash: string, latest: int) {
    e.eventIndex == index && e.eventHash == hash && e.acceptedAt <= latest
  }

  /** The pinned head is an event of the log from no later than the creation, or there was none. */
  predicate HeadPinned(log: O.Log, c: AllocationContent) {
    if c.throughTransferEventIndex == 0 then c.transferHeadHash == ZERO_HASH
    else
      exists k :: 0 <= k < |log.events|
                  && IsEvent(log.events[k], c.throughTransferEventIndex, c.transferHeadHash, c.createdAt)
  }

  predicate Uncontested(log: O.Log, c: AllocationContent) {
    !O.Conflicting(log.records, Through(log.events, c.throughTransferEventIndex), c.targetDeploymentId,
                   c.claimActionId, c.transferId)
  }

  predicate Follows(log: O.Log, c: AllocationContent, e: O.Event) {
    && e.action == O.Prepare && e.eventIndex > c.throughTransferEventIndex
    && e.transferId in log.records && log.records[e.transferId].exitReviewId == c.exitReviewId
  }

  /** No transfer of the review was prepared after the pinned head. */
  predicate NotFollowed(log: O.Log, c: AllocationContent) {
    forall k :: 0 <= k < |log.events| ==> !Follows(log, c, log.events[k])
  }

  /** A decision by transfer pins the completion of a transfer of this review and claim to the beneficiary. */
  predicate CompletionPinned(log: O.Log, c: AllocationContent) {
    c.decisionMode == CompletedTransfer ==>
      && c.transferId in log.records
      && (var r := log.records[c.transferId];
          && r.exitReviewId == c.exitReviewId && O.OfClaim(r, c.targetDeploymentId, c.claimActionId)
          && r.sourceGroupId == c.sourceGroupId && r.targetGroupId == c.beneficiaryId)
      && O.RowNames(log.memberships, c.transferId, c.transferCompletionEventIndex, c.transferCompletionEventHash)
      && c.transferCompletionEventIndex <= c.throughTransferEventIndex
      && exists k :: 0 <= k < |log.events| && CompletedBy(log.events[k], c)
  }

  predicate CompletedBy(e: O.Event, c: AllocationContent) {
    && IsEvent(e, c.transferCompletionEventIndex, c.transferCompletionEventHash, c.createdAt)
    && e.transferId == c.transferId && e.action == O.Complete && e.status == O.Completed
  }

  predicate DecisionVerifies(log: O.Log, c: AllocationContent) {
    HeadPinned(log, c) && Uncontested(log, c) && NotFollowed(log, c) && CompletionPinned(log, c)
  }

  // ---------------------------------------------------------------- the log goes on

  lemma {:induction false} ThroughAll(events: seq<O.Event>, index: int)
    requires forall i :: 0 <= i < |events| ==> events[i].eventIndex <= index
    ensures Through(events, index) == events
  {
    if events != [] {
      ThroughAll(events[..|events| - 1], index);
    }
  }

  lemma ThroughAppended(events: seq<O.Event>, e: O.Event, index: int)
    requires e.eventIndex > index
    ensures Through(events + [e], index) == Through(events, index)
  {
    assert (events + [e])[..|events|] == events;
  }

  /** A transfer that was never written stands nowhere. */
  lemma {:induction false} LastThrough(events: seq<O.Event>, index: int, id: string)
    requires forall i :: 0 <= i < |events| ==> events[i].transferId != id
    ensures O.Last(Through(events, index), id).None?
  {
    if events != [] {
      LastThrough(events[..|events| - 1], index, id);
      var rest := Through(events[..|events| - 1], index);
      if events[|events| - 1].eventIndex <= index {
        assert (rest + [events[|events| - 1]])[..|rest|] == rest;
      }
    }
  }

  lemma HeadBounds(log: O.Log, c: AllocationContent)
    requires O.Ok(log) && HeadPinned(log, c)
    ensures c.throughTransferEventIndex <= |log.events|
  {
  }

  lemma UncontestedStays(log: O.Log, createdAt: int, r: O.Record, e: O.Event, n: int, c: AllocationContent)
    requires O.Ok(log) && O.Continues(log, createdAt, r, e) && Uncontested(log, c)
    requires e.eventIndex > c.throughTransferEventIndex
    ensures Uncontested(O.Written(log, r, e, n), c)
  {
    var u, through := O.Written(log, r, e, n), c.throughTransferEventIndex;
    ThroughAppended(log.events, e, through);
    if r.transferId !in log.records {
      LastThrough(log.events, through, r.transferId);
    }
    forall id | id in u.records && O.OfClaim(u.records[id], c.targetDeploymentId, c.claimActionId)
                && (c.transferId == "" || id != c.transferId)
      ensures !O.StandsAs(Through(u.events, through), id, {O.Prepared, O.Approved, O.Completed})
    {
      assert id in log.records ==> u.records[id] == log.records[id];
    }
  }

  lemma CompletionStays(log: O.Log, createdAt: int, r: O.Record, e: O.Event, n: int, c: AllocationContent)
    requires O.Ok(log) && O.Continues(log, createdAt, r, e) && CompletionPinned(log, c)
    ensures CompletionPinned(O.Written(log, r, e, n), c)
  {
    hide O.HistoriesLegal, O.OneOpen, O.DaysOrdered, O.RowsKept, O.EventsOrdered, O.RecordsKept, O.CompletionKept,
         O.Active, O.NewEvent, O.ClockAllows;
    if c.decisionMode == CompletedTransfer {
      var k :| 0 <= k < |log.events| && CompletedBy(log.events[k], c);
      assert O.CompletedIsLast(log, k);
      assert O.Written(log, r, e, n).events[k] == log.events[k];
    }
  }

  lemma HeadStays(log: O.Log, r: O.Record, e: O.Event, n: int, c: AllocationContent)
    requires HeadPinned(log, c)
    ensures HeadPinned(O.Written(log, r, e, n), c)
  {
    if c.throughTransferEventIndex != 0 {
      var k :| 0 <= k < |log.events|
               && IsEvent(log.events[k], c.throughTransferEventIndex, c.transferHeadHash, c.createdAt);
      assert O.Written(log, r, e, n).events[k] == log.events[k];
    }
  }

  lemma FollowedByNone(log: O.Log, createdAt: int, r: O.Record, e: O.Event, n: int, c: AllocationContent)
    requires O.Ok(log) && O.Continues(log, createdAt, r, e) && NotFollowed(log, c)
    requires e.action == O.Prepare ==> r.exitReviewId != c.exitReviewId
    ensures NotFollowed(O.Written(log, r, e, n), c)
  {
    hide O.CompletionKept, O.CompletedIsLast, O.RowsKept, O.EventsOrdered;
    var u := O.Written(log, r, e, n);
    forall k | 0 <= k < |u.events|
      ensures !Follows(u, c, u.events[k])
    {
      if k < |log.events| {
        assert !Follows(log, c, log.events[k]);
      }
    }
  }

  /** A pinned decision stands while the log goes on, as long as no transfer of its review is prepared. */
  lemma DecisionStays(log: O.Log, createdAt: int, r: O.Record, e: O.Event, n: int, c: AllocationContent)
    requires O.Ok(log) && O.Continues(log, createdAt, r, e) && DecisionVerifies(log, c)
    requires e.action == O.Prepare ==> r.exitReviewId != c.exitReviewId
    ensures DecisionVerifies(O.Written(log, r, e, n), c)
  {
    HeadBounds(log, c);
    assert e.eventIndex > c.throughTransferEventIndex;
    hide O.Ok, O.Continues, HeadPinned, Uncontested, NotFollowed, CompletionPinned;
    HeadStays(log, r, e, n, c);
    UncontestedStays(log, createdAt, r, e, n, c);
    CompletionStays(log, createdAt, r, e, n, c);
    FollowedByNone(log, createdAt, r, e, n, c);
  }

  // ---------------------------------------------------------------- the decision at its creation

  /** What a creation fixes: the log's head, an uncontested claim, and the completion if there is one. */
  predicate DecidedAt(log: O.Log, c: AllocationContent) {
    && c.throughTransferEventIndex == O.HeadIndex(log.events) && c.transferHeadHash == O.HeadHash(log.events)
    && (log.events != [] ==> log.events[|log.events| - 1].acceptedAt <= c.createdAt)
    && !O.Conflicting(log.records, log.events, c.targetDeploymentId, c.claimActionId, c.transferId)
    && (c.decisionMode == CompletedTransfer ==>
          && O.StandsAs(log.events, c.transferId, {O.Completed}) && c.transferId in log.records
          && (var r := log.records[c.transferId];
              && r.exitReviewId == c.exitReviewId && O.OfClaim(r, c.targetDeploymentId, c.claimActionId)
              && r.sourceGroupId == c.sourceGroupId && r.targetGroupId == c.beneficiaryId)
          && O.RowNames(log.memberships, c.transferId, c.transferCompletionEventIndex, c.transferCompletionEventHash))
  }

  lemma DecidedHead(log: O.Log, c: AllocationContent)
    requires O.Ok(log) && DecidedAt(log, c)
    ensures HeadPinned(log, c) && Uncontested(log, c) && NotFollowed(log, c)
  {
    var n := |log.events|;
    ThroughAll(log.events, n);
    if n > 0 {
      assert IsEvent(log.events[n - 1], c.throughTransferEventIndex, c.transferHeadHash, c.createdAt);
    }
  }

  lemma DecidedCompletion(log: O.Log, c: AllocationContent)
    requires O.Ok(log) && DecidedAt(log, c)
    ensures CompletionPinned(log, c)
  {
    if c.decisionMode == CompletedTransfer {
      assert O.CompletionKept(log, c.transferId);
      var k := O.LastIn(log.events, c.transferId);
      assert log.events[k].acceptedAt <= log.events[|log.events| - 1].acceptedAt;
      assert CompletedBy(log.events[k], c);
    }
  }

  /** The decision of a creation verifies at once. */
  lemma DecidedVerifies(log: O.Log, c: AllocationContent)
    requires O.Ok(log) && DecidedAt(log, c)
    ensures DecisionVerifies(log, c)
  {
    DecidedHead(log, c);
    DecidedCompletion(log, c);
  }
}
