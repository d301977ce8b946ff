/**
  What the independent verification of final exit allocations accepts, said of the rows themselves: events
  that the writers write, and records whose pins hold.
*/
module AllocationVerdicts {
  import opened Basics
  import opened Protocol
  import opened AllocationLaws
  import opened AllocationAnswers
  import A = AllocationRows
  import AR = AllocationReplay
  import DB = DecisionBoundary
  import F = FrozenRecords
  import O = OwnershipTransfers
  import R = ExitReview
  import RS = ExitReviewSafety
  import S = ReviewSources
  import opened ExitAllocation

  // ---------------------------------------------------------------- events

  /** An allocation's first event creates it as its record says; the second verifies it, and there is no third. */
  ghost predicate Due(before: seq<Event>, r: Record, c: AllocationEventContent) {
    if forall k :: 0 <= k < |before| ==> before[k].content.allocationId != c.allocationId then
      && c.action == Create && c.status == Recorded && c.actorRole == Allocator
      && c.previousAllocationEventHash == ZERO_HASH && c.acceptedAt == r.content.createdAt
      && c.reference == r.content.contractReference && c.evidenceHash == r.content.evidenceHash
    else
      && c.action == VerifyFinal && c.status == VerifiedFinal && c.actorRole == RegistryVerifier
      && exists k :: 0 <= k < |before| && LastOf(before, c.allocationId, k) && before[k].content.status == Recorded
                     && c.previousAllocationEventHash == before[k].eventHash
  }

  /** Event `i` is one that the writers write behind the events before it, with its payload hash. */
  ghost predicate WrittenAt(w: World, t: Tables, i: nat)
    requires i < |t.events|
  {
    var e, c, before := t.events[i], t.events[i].content, t.events[..i];
    && c.allocationId in t.records && t.records[c.allocationId].content.allocationId == c.allocationId
    && ContinuesLog(w, before, t.records[c.allocationId], e) && PayloadSealed(w, c) && WellFormed(w, c)
    && Due(before, t.records[c.allocationId], c) && !KeyUsed(before, c.idempotencyKey)
    && (i > 0 ==> t.events[i - 1].content.acceptedAt <= c.acceptedAt)
  }

  lemma {:induction false} LastMeans(events: seq<Event>, id: string) returns (k: nat)
    ensures match AR.Last(events, id)
            case None => forall j :: 0 <= j < |events| ==> events[j].content.allocationId != id
            case Some(e) => LastOf(events, id, k) && events[k] == e
  {
    k := 0;
    if events != [] {
      k := |events| - 1;
      if events[k].content.allocationId != id {
        k := LastMeans(events[..k], id);
      }
    }
  }

  lemma DueMeans(before: seq<Event>, r: Record, c: AllocationEventContent)
    ensures Due(before, r, c) <==> AR.Semantics(r, c, AR.Last(before, c.allocationId))
  {
    var k := LastMeans(before, c.allocationId);
    if AR.Last(before, c.allocationId).Some? {
      forall j | 0 <= j < |before| && LastOf(before, c.allocationId, j)
        ensures j == k
      {
      }
    }
  }

  /** The replay accepts exactly the events that the writers write behind the ones before them. */
  lemma ReplaysIffWritten(w: World, t: Tables, i: nat)
    requires i < |t.events| && forall id :: id in t.records ==> t.records[id].content.allocationId == id
    ensures AR.EventVerifies(w, t, i) <==> WrittenAt(w, t, i)
  {
    hide AR.Semantics, Due;
    var e, c, before := t.events[i], t.events[i].content, t.events[..i];
    if c.allocationId in t.records {
      DueMeans(before, t.records[c.allocationId], c);
      ImmutableMeans(w, t.records[c.allocationId], e, before);
      KeyBefore(t.events, i, c.idempotencyKey);
    }
  }

  lemma KeyBefore(events: seq<Event>, i: nat, key: string)
    requires i <= |events|
    ensures KeyUsed(events[..i], key) <==> !(forall k :: 0 <= k < i ==> events[k].content.idempotencyKey != key)
  {
    var before := events[..i];
    if !(forall k :: 0 <= k < i ==> events[k].content.idempotencyKey != key) {
      var k :| 0 <= k < i && events[k].content.idempotencyKey == key;
      assert before[k].content.idempotencyKey == key;
    }
  }

  lemma ImmutableMeans(w: World, r: Record, e: Event, before: seq<Event>)
    requires e.content.allocationId == r.content.allocationId
    ensures AR.Immutable(w, r, e, |before| + 1, HeadHash(before))
            <==> ContinuesLog(w, before, r, e) && PayloadSealed(w, e.content) && WellFormed(w, e.content)
  {
  }

  // ---------------------------------------------------------------- the pinned decision

  /** The pinned head: the number of transfer events, and the hash of the last of them, none later than the record. */
  predicate PinsHead(log: O.Log, c: AllocationContent) {
    var n := c.throughTransferEventIndex;
    if n == 0 then c.transferHeadHash == ZERO_HASH
    else
      && 1 <= n <= |log.events| && log.events[n - 1].eventHash == c.transferHeadHash
      && log.events[n - 1].acceptedAt <= c.createdAt
  }

  predicate OnClaim(r: O.Record, c: AllocationContent) {
    r.targetDeploymentId == c.targetDeploymentId && r.claimActionId == c.claimActionId
  }

  /** In these events no other transfer of the claim is open or completed. */
  ghost predicate Alone(log: O.Log, before: seq<O.Event>, c: AllocationContent) {
    forall id :: id in log.records && OnClaim(log.records[id], c) && (c.transferId == "" || id != c.transferId) ==>
      !Counts(O.History(before, id))
  }

  /** Event `k` prepares a transfer of the review. */
  predicate Prepares(log: O.Log, c: AllocationContent, e: O.Event) {
    && e.action == O.Prepare && e.transferId in log.records
    && log.records[e.transferId].exitReviewId == c.exitReviewId
  }

  /** The pinned completion is one of the pinned events, of a transfer of the review to the beneficiary. */
  predicate PinsCompletion(log: O.Log, c: AllocationContent) {
    var n := c.transferCompletionEventIndex;
    && c.transferId in log.records && 1 <= n <= c.throughTransferEventIndex && n <= |log.events|
    && var r, e := log.records[c.transferId], log.events[n - 1];
       && r.exitReviewId == c.exitReviewId && OnClaim(r, c) && r.sourceGroupId == c.sourceGroupId
       && r.targetGroupId == c.beneficiaryId && e.transferId == c.transferId && e.action == O.Complete
       && e.status == O.Completed && e.eventHash == c.transferCompletionEventHash && e.acceptedAt <= c.createdAt
  }

  /** The decision that the record pins is right: nothing contends with it, and nothing was prepared afterwards. */
  ghost predicate DecisionRight(log: O.Log, c: AllocationContent) {
    && PinsHead(log, c) && (c.decisionMode == CompletedTransfer ==> PinsCompletion(log, c))
    && forall n :: n == c.throughTransferEventIndex && 0 <= n <= |log.events| ==>
         && Alone(log, log.events[..n], c)
         && forall k :: n <= k < |log.events| ==> !Prepares(log, c, log.events[k])
  }

  lemma {:induction false} ThroughIsPrefix(log: O.Log, m: nat, n: nat)
    requires O.EventsOrdered(log.events) && m <= |log.events|
    ensures DB.Through(log.events[..m], n) == log.events[..if n < m then n else m]
  {
    if m > 0 {
      ThroughIsPrefix(log, m - 1, n);
      assert log.events[..m][..m - 1] == log.events[..m - 1];
    }
  }

  lemma {:induction false} HistoryGrows(events: seq<O.Event>, n: nat, id: string)
    requires n <= |events|
    ensures O.History(events[..n], id) <= O.History(events, id)
  {
    if n == |events| {
      assert events[..n] == events;
    } else {
      HistoryGrows(events[..|events| - 1], n, id);
      assert events[..|events| - 1][..n] == events[..n];
    }
  }

  /** At any length of the log, a transfer is open or completed exactly if its history so far says so. */
  lemma StandsCounts(log: O.Log, n: nat, id: string)
    requires O.Ok(log) && n <= |log.events| && id in log.records
    ensures O.StandsAs(log.events[..n], id, {O.Prepared, O.Approved, O.Completed})
            <==> Counts(O.History(log.events[..n], id))
  {
    hide O.EventsOrdered, O.OneOpen, O.DaysOrdered, O.RecordsKept, O.RowsKept, O.CompletedIsLast, O.CompletionKept,
         O.History;
    HistoryGrows(log.events, n, id);
    O.HistoryEnds(log.events[..n], id);
    assert O.Legal(O.History(log.events, id));
  }

  lemma UncontestedMeans(log: O.Log, c: AllocationContent, n: nat)
    requires O.Ok(log) && n == c.throughTransferEventIndex && n <= |log.events|
    ensures DB.Uncontested(log, c) <==> Alone(log, log.events[..n], c)
  {
    hide O.OneOpen, O.DaysOrdered, O.RecordsKept, O.RowsKept, O.CompletedIsLast, O.CompletionKept, O.HistoriesLegal,
         O.StandsAs, Counts;
    assert log.events[..|log.events|] == log.events;
    ThroughIsPrefix(log, |log.events|, n);
    forall id | id in log.records
      ensures O.StandsAs(log.events[..n], id, {O.Prepared, O.Approved, O.Completed})
              <==> Counts(O.History(log.events[..n], id))
    {
      StandsCounts(log, n, id);
    }
  }

  lemma HeadMeans(log: O.Log, c: AllocationContent)
    requires O.EventsOrdered(log.events)
    ensures DB.HeadPinned(log, c) <==> PinsHead(log, c)
  {
  }

  lemma CompletionMeans(log: O.Log, c: AllocationContent)
    requires O.Ok(log)
    ensures DB.CompletionPinned(log, c) <==> (c.decisionMode == CompletedTransfer ==> PinsCompletion(log, c))
  {
    hide O.OneOpen, O.DaysOrdered, O.RecordsKept, O.RowsKept, O.HistoriesLegal;
    var n := c.transferCompletionEventIndex;
    if c.decisionMode == CompletedTransfer && PinsCompletion(log, c) {
      assert O.CompletedIsLast(log, n - 1) && O.CompletionKept(log, c.transferId);
      assert DB.CompletedBy(log.events[n - 1], c);
    }
  }

  /** What the verification asks of a pinned decision. */
  lemma DecisionMeans(log: O.Log, c: AllocationContent)
    requires O.Ok(log)
    ensures DB.DecisionVerifies(log, c) <==> DecisionRight(log, c)
  {
    hide O.OneOpen, O.DaysOrdered, O.RecordsKept, O.RowsKept, O.HistoriesLegal, O.CompletionKept, O.CompletedIsLast,
         DB.Uncontested, DB.CompletionPinned, PinsCompletion, Alone;
    HeadMeans(log, c);
    CompletionMeans(log, c);
    if PinsHead(log, c) {
      var n := c.throughTransferEventIndex;
      UncontestedMeans(log, c, n);
      assert forall k :: 0 <= k < |log.events| ==> (DB.Follows(log, c, log.events[k]) <==>
                                                    n <= k && Prepares(log, c, log.events[k]));
    }
  }

  // ---------------------------------------------------------------- records

  /** The pinned verification is event `exitVerificationEventIndex` of the review log, on a record like this one. */
  predicate PinsVerification(t: Tables, c: AllocationContent) {
    var n := c.exitVerificationEventIndex;
    && 1 <= n <= |t.reviews.events| && c.exitReviewId in t.reviews.records
    && var e, x := t.reviews.events[n - 1], t.reviews.records[c.exitReviewId];
       && e.eventHash == c.exitVerificationEventHash && e.content.reviewId == c.exitReviewId
       && e.content.action == Verify && e.content.status == Eligible && e.content.recordHash == c.exitRecordHash
       && e.content.evidenceHash == c.exitEvidenceHash && e.content.acceptedAt <= c.createdAt
       && x.recordHash == c.exitRecordHash && x.content.targetDeploymentId == c.targetDeploymentId
       && x.content.claimActionId == c.claimActionId && x.content.groupId == c.sourceGroupId
  }

  /** The record is sealed, its pins hold, and the frozen settlements still pay what it allocates. */
  ghost predicate RecordRight(w: World, t: Tables, id: string)
    requires id in t.records
  {
    var r, c := t.records[id], t.records[id].content;
    && c.allocationId == id && c.scope == w.r.scope && c.registryKeyId == w.r.keyId && c in w.recordsWellFormed
    && CommitsTo(w, r) && PinsVerification(t, c) && DecisionRight(TransfersIn(t), c)
    && RowsAre(t.reviews.sources.settlements, c.sourceGroupId, t.reviews.records[c.exitReviewId].settlements,
               c.beneficiaryType, c.beneficiaryId, r.rows)
  }

  lemma {:induction false} FoundAt(events: seq<R.Event>, first: int, index: int, hash: string, id: string)
    requires forall i :: 0 <= i < |events| ==> events[i].content.eventIndex == first + i
    ensures var k := index - first;
            ReviewEventAt(events, index, hash, id)
            == if 0 <= k < |events| && events[k].eventHash == hash && events[k].content.reviewId == id then
                 Some(events[k])
               else None
  {
    if events != [] {
      FoundAt(events[1..], first + 1, index, hash, id);
    }
  }

  lemma PinMeans(w: World, t: Tables, c: AllocationContent)
    requires RS.LogOk(w.r, t.reviews)
    ensures AR.ExitRecordMatches(t, c) && AR.PinVerifies(t, c) <==> PinsVerification(t, c)
  {
    hide RS.Projected, R.EventVerifies;
    RS.IndexesContiguous(w.r, t.reviews);
    FoundAt(t.reviews.events, 1, c.exitVerificationEventIndex, c.exitVerificationEventHash, c.exitReviewId);
  }

  lemma RowsMean(w: World, t: Tables, r: Record)
    requires RS.Sound(w.r, t.reviews) && r.content.exitReviewId in t.reviews.records
    requires r.content.sourceGroupId == t.reviews.records[r.content.exitReviewId].content.groupId
    ensures var c, x := r.content, t.reviews.records[r.content.exitReviewId];
            AR.RowsVerify(w, SettledIn(t), x.settlements, r)
            <==> RowsAre(t.reviews.sources.settlements, c.sourceGroupId, x.settlements, c.beneficiaryType,
                         c.beneficiaryId, r.rows)
  {
    hide RowsAre, A.Derived, S.Sound, F.Anchored, RS.LogOk;
    var c, x := r.content, t.reviews.records[r.content.exitReviewId];
    S.IdsFromRows(R.SettingOf(w.r), t.reviews.sources) by { RowsOk(w, t); }
    DerivedMeans(t.reviews.sources.settlements, c.sourceGroupId, x.settlements, c.beneficiaryType, c.beneficiaryId,
                 r.rows);
    if A.Derived(SettledIn(t), c.sourceGroupId, x.settlements, c.beneficiaryType, c.beneficiaryId) == Some(r.rows) {
      AR.DerivedRowsVerify(w, t, x, c.exitReviewId, r);
    }
  }

  lemma RowsOk(w: World, t: Tables)
    requires RS.Sound(w.r, t.reviews)
    ensures S.RowsOk(R.SettingOf(w.r), t.reviews.sources)
  {
  }

  lemma SealMeans(w: World, r: Record)
    ensures r == SealedRecord(w, r.content, r.rows) <==> CommitsTo(w, r)
  {
  }

  /** What the verification asks of a record. */
  lemma RecordMeans(w: World, t: Tables, id: string)
    requires RS.Sound(w.r, t.reviews) && id in t.records
    ensures AR.RecordVerifies(w, t, id) <==> RecordRight(w, t, id)
  {
    hide RS.Sound, SealedRecord, CommitsTo, AR.RowsVerify, RowsAre, DB.DecisionVerifies, DecisionRight, O.Ok, RS.LogOk;
    var r := t.records[id];
    SealMeans(w, r);
    LogsOf(w, t);
    PinMeans(w, t, r.content);
    DecisionMeans(TransfersIn(t), r.content);
    if PinsVerification(t, r.content) {
      RowsMean(w, t, r);
    }
  }

  lemma LogsOf(w: World, t: Tables)
    requires RS.Sound(w.r, t.reviews)
    ensures RS.LogOk(w.r, t.reviews) && O.Ok(TransfersIn(t))
  {
  }
}
