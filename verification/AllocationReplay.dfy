/**
  The independent replay of the allocation log, and its agreement with the writer.
*/
module AllocationReplay {
  import opened Basics
  import opened Protocol
  import R = ExitReview
  import RS = ExitReviewSafety
  import A = AllocationRows
  import SB = SettlementBoundaries
  import DL = DatedLogs
  import O = OwnershipTransfers
  import F = FrozenRecords
  import Src = ReviewSources
  import TS = TransferSteps
  import opened DecisionBoundary
  import opened ExitAllocation
  import S = ExitSafety

  // ---------------------------------------------------------------- what the replay accepts

  /** The pinned verification is in the review log and came before the record. */
  predicate PinVerifies(t: Tables, c: AllocationContent) {
    match ReviewEventAt(t.reviews.events, c.exitVerificationEventIndex, c.exitVerificationEventHash, c.exitReviewId)
    case None => false
    case Some(e) =>
      && e.content.action == Verify && e.content.status == Eligible && e.content.recordHash == c.exitRecordHash
      && e.content.evidenceHash == c.exitEvidenceHash && e.content.acceptedAt <= c.createdAt
  }

  predicate ExitRecordMatches(t: Tables, c: AllocationContent) {
    && c.exitReviewId in t.reviews.records
    && var x := t.reviews.records[c.exitReviewId];
       && x.content.targetDeploymentId == c.targetDeploymentId && x.content.claimActionId == c.claimActionId
       && x.content.groupId == c.sourceGroupId && x.recordHash == c.exitRecordHash
  }

  /** The rows are derived again from the frozen boundary, and pass the validator. */
  ghost predicate RowsVerify(w: World, settled: A.Settlements, boundaries: seq<SettlementBoundary>, r: Record) {
    && A.Derived(settled, r.content.sourceGroupId, boundaries, r.content.beneficiaryType, r.content.beneficiaryId)
       == Some(r.rows)
    && A.SourcesWellFormed(w.r.patterns, r.rows.sources) && A.Checked(r.rows.sources)
    && A.Conserved(r.rows.sources, r.rows.currencies, r.content.beneficiaryType, r.content.beneficiaryId)
  }

  ghost predicate RecordVerifies(w: World, t: Tables, id: string)
    requires id in t.records
  {
    var r := t.records[id];
    && r.content.allocationId == id && r.content.scope == w.r.scope && r.content.registryKeyId == w.r.keyId
    && r.content in w.recordsWellFormed && r == SealedRecord(w, r.content, r.rows)
    && ExitRecordMatches(t, r.content) && PinVerifies(t, r.content)
    && RowsVerify(w, SettledIn(t), t.reviews.records[r.content.exitReviewId].settlements, r)
    && DecisionVerifies(TransfersIn(t), r.content)
  }

  function Last(events: seq<Event>, id: string): Option<Event> {
    if events == [] then None
    else if events[|events| - 1].content.allocationId == id then Some(events[|events| - 1])
    else Last(events[..|events| - 1], id)
  }

  /** An allocation is created once, as its record says, and then verified at most once. */
  predicate Semantics(r: Record, e: AllocationEventContent, before: Option<Event>) {
    match e.action
    case Create =>
      && before.None? && e.status == Recorded && e.actorRole == Allocator
      && e.previousAllocationEventHash == ZERO_HASH && e.acceptedAt == r.content.createdAt
      && e.reference == r.content.contractReference && e.evidenceHash == r.content.evidenceHash
    case VerifyFinal =>
      && before.Some? && before.value.content.status == Recorded && e.status == VerifiedFinal
      && e.actorRole == RegistryVerifier && e.previousAllocationEventHash == before.value.eventHash
  }

  predicate Immutable(w: World, r: Record, e: Event, index: int, previousHash: string) {
    && e.content.eventIndex == index && e.content.previousEventHash == previousHash
    && e.content.scope == w.r.scope && e.content.registryKeyId == w.r.keyId && e.content.recordHash == r.recordHash
    && FieldsOf(e.content) in w.wellFormed
    && e.content.payloadHash == PayloadHash(w, e.content)
    && e == SealedEvent(w, e.content)
  }

  predicate EventVerifies(w: World, t: Tables, i: nat)
    requires i < |t.events|
  {
    var e := t.events[i];
    && e.content.allocationId in t.records
    && var r := t.records[e.content.allocationId];
       && Immutable(w, r, e, i + 1, HeadHash(t.events[..i]))
       && (i > 0 ==> t.events[i - 1].content.acceptedAt <= e.content.acceptedAt)
       && (forall k :: 0 <= k < i ==> t.events[k].content.idempotencyKey != e.content.idempotencyKey)
       && Semantics(r, e.content, Last(t.events[..i], e.content.allocationId))
  }

  /** A query row is the projection of the event with its index. */
  predicate RowProjects(t: Tables, row: StateRow) {
    && 1 <= row.eventIndex <= |t.events|
    && var e := t.events[row.eventIndex - 1];
       e.content.allocationId in t.records && row == StateOf(t.records[e.content.allocationId], e)
  }

  ghost predicate Replayable(w: World, t: Tables) {
    && (forall id :: id in t.records ==> RecordVerifies(w, t, id))
    && (forall i :: 0 <= i < |t.events| ==> EventVerifies(w, t, i))
    && (forall id :: id in t.records ==> Last(t.events, id).Some?)
    && |t.states| == |t.events|
    && (forall k :: 0 <= k < |t.states| ==> RowProjects(t, t.states[k]))
  }

  // ---------------------------------------------------------------- what an accepted log says

  lemma {:induction false} LastFrom(events: seq<Event>, i: nat, j: nat) returns (k: nat)
    requires i < j <= |events|
    ensures i <= k < j && Last(events[..j], events[i].content.allocationId) == Some(events[k])
    ensures events[k].content.allocationId == events[i].content.allocationId
    decreases j
  {
    assert events[..j][..j - 1] == events[..j - 1];
    if events[j - 1].content.allocationId == events[i].content.allocationId {
      k := j - 1;
    } else {
      k := LastFrom(events, i, j - 1);
    }
  }

  /** An event that follows another of its allocation is a verification, after a creation. */
  lemma LaterIsFinal(w: World, t: Tables, i: nat, j: nat) returns (k: nat)
    requires Replayable(w, t) && i < j < |t.events|
    requires t.events[i].content.allocationId == t.events[j].content.allocationId
    ensures i <= k < j && t.events[k].content.allocationId == t.events[j].content.allocationId
    ensures t.events[k].content.action == Create && t.events[k].content.status == Recorded
    ensures t.events[j].content.action == VerifyFinal && t.events[j].content.status == VerifiedFinal
    ensures t.events[j].content.previousAllocationEventHash == t.events[k].eventHash
  {
    k := LastFrom(t.events, i, j);
    assert EventVerifies(w, t, j) && EventVerifies(w, t, k);
  }

  /** Of two events of one allocation the earlier is its creation and the later its verification. */
  lemma TwoEvents(w: World, t: Tables, i: nat, j: nat)
    requires Replayable(w, t) && i < j < |t.events|
    requires t.events[i].content.allocationId == t.events[j].content.allocationId
    ensures t.events[i].content.action == Create && t.events[i].content.status == Recorded
    ensures t.events[j].content.action == VerifyFinal && t.events[j].content.status == VerifiedFinal
    ensures t.events[j].content.previousAllocationEventHash == t.events[i].eventHash
  {
    var k := LaterIsFinal(w, t, i, j);
    if i < k {
      var l := LaterIsFinal(w, t, i, k);
    }
  }

  /** No allocation has more than two events. */
  lemma AtMostTwoEvents(w: World, t: Tables, i: nat, j: nat, k: nat)
    requires Replayable(w, t) && i < j < k < |t.events|
    ensures !(t.events[i].content.allocationId == t.events[j].content.allocationId == t.events[k].content.allocationId)
  {
    if t.events[i].content.allocationId == t.events[j].content.allocationId == t.events[k].content.allocationId {
      TwoEvents(w, t, i, j);
      TwoEvents(w, t, j, k);
    }
  }

  // ---------------------------------------------------------------- the writer keeps the replay

  /** Row `i` is the projection of event `i`. */
  ghost predicate Projected(t: Tables) {
    && |t.states| == |t.events|
    && forall i :: 0 <= i < |t.states| ==> t.states[i].eventIndex == i + 1 && RowProjects(t, t.states[i])
  }

  /** Reviews and allocations are sound, the allocations replay, and their rows project their events. */
  ghost predicate Sound(w: World, t: Tables) {
    S.Sound(w, t) && AllocationsOk(w, t)
  }

  ghost predicate AllocationsOk(w: World, t: Tables) {
    Replayable(w, t) && Projected(t)
  }

  lemma {:induction false} ReviewEventStays(a: seq<R.Event>, b: seq<R.Event>, index: int, hash: string, id: string)
    requires a <= b && ReviewEventAt(a, index, hash, id).Some?
    ensures ReviewEventAt(b, index, hash, id) == ReviewEventAt(a, index, hash, id)
  {
    if !(a[0].content.eventIndex == index && a[0].eventHash == hash && a[0].content.reviewId == id) {
      ReviewEventStays(a[1..], b[1..], index, hash, id);
    }
  }

  lemma SettledStays(a: Src.Sources, b: Src.Sources)
    requires a.settlements <= b.settlements && SB.IdsUnique(b.settlements)
    ensures forall id :: id in SB.ById(a.settlements) ==>
              id in SB.ById(b.settlements) && SB.ById(b.settlements)[id] == SB.ById(a.settlements)[id]
  {
    forall id | id in SB.ById(a.settlements)
      ensures id in SB.ById(b.settlements) && SB.ById(b.settlements)[id] == SB.ById(a.settlements)[id]
    {
      SB.ByIdStays(a.settlements, b.settlements, id);
    }
  }

  /** Reviews and settlement rows are only added. */
  ghost predicate ReviewsGrow(t: R.Tables, u: R.Tables) {
    && RS.Extends(t, u) && t.sources.settlements <= u.sources.settlements && SB.IdsUnique(u.sources.settlements)
  }

  lemma RowsStay(w: World, t: Tables, u: Tables, boundaries: seq<SettlementBoundary>, r: Record)
    requires RowsVerify(w, SettledIn(t), boundaries, r) && ReviewsGrow(t.reviews, u.reviews)
    ensures RowsVerify(w, SettledIn(u), boundaries, r)
  {
    SettledStays(t.reviews.sources, u.reviews.sources);
    A.DerivedStays(SettledIn(t), SettledIn(u), r.content.sourceGroupId, boundaries, r.content.beneficiaryType,
                   r.content.beneficiaryId);
  }

  /** A record stays verified while reviews and settlements are only added to, if its ownership decision does. */
  lemma RecordStays(w: World, t: Tables, u: Tables, id: string)
    requires id in t.records && RecordVerifies(w, t, id) && id in u.records && u.records[id] == t.records[id]
    requires ReviewsGrow(t.reviews, u.reviews) && DecisionVerifies(TransfersIn(u), t.records[id].content)
    ensures RecordVerifies(w, u, id)
  {
    var c := t.records[id].content;
    ReviewEventStays(t.reviews.events, u.reviews.events, c.exitVerificationEventIndex, c.exitVerificationEventHash,
                     c.exitReviewId);
    RowsStay(w, t, u, t.reviews.records[c.exitReviewId].settlements, t.records[id]);
  }

  lemma LastAppended(events: seq<Event>, e: Event, id: string)
    ensures Last(events + [e], id) == if e.content.allocationId == id then Some(e) else Last(events, id)
  {
    assert (events + [e])[..|events|] == events;
  }

  lemma {:induction false} LatestIsLast(t: Tables, n: nat, id: string)
    requires Projected(t) && n <= |t.events| && id in t.records && t.records[id].content.allocationId == id
    requires forall x :: x in t.records ==> t.records[x].content.allocationId == x
    ensures match Last(t.events[..n], id)
            case None => LatestState(t.states[..n], id).None?
            case Some(e) => LatestState(t.states[..n], id) == Some(StateOf(t.records[id], e))
  {
    if n > 0 {
      assert RowProjects(t, t.states[n - 1]);
      assert t.events[..n][..n - 1] == t.events[..n - 1] && t.states[..n][..n - 1] == t.states[..n - 1];
      LatestIsLast(t, n - 1, id);
    }
  }

  /** The new event continues the log. */
  ghost predicate Continues(w: World, t: Tables, r: Record, e: Event) {
    && e.content.allocationId == r.content.allocationId
    && Immutable(w, r, e, |t.events| + 1, HeadHash(t.events))
    && (t.events != [] ==> t.events[|t.events| - 1].content.acceptedAt <= e.content.acceptedAt)
    && NewEvent(t, e)
    && Semantics(r, e.content, Last(t.events, r.content.allocationId))
  }

  lemma OldEvents(w: World, t: Tables, r: Record, e: Event, i: nat)
    requires i < |t.events| && EventVerifies(w, t, i)
    requires r.content.allocationId in t.records ==> t.records[r.content.allocationId] == r
    ensures EventVerifies(w, Written(t, r, e), i)
  {
    assert Written(t, r, e).events[..i] == t.events[..i];
  }

  lemma NewestEvent(w: World, t: Tables, r: Record, e: Event)
    requires Continues(w, t, r, e)
    ensures EventVerifies(w, Written(t, r, e), |t.events|)
  {
    assert Written(t, r, e).events[..|t.events|] == t.events;
  }

  lemma WrittenProjected(w: World, t: Tables, r: Record, e: Event)
    requires Projected(t) && Continues(w, t, r, e)
    requires r.content.allocationId in t.records ==> t.records[r.content.allocationId] == r
    ensures Projected(Written(t, r, e))
  {
    var u := Written(t, r, e);
    forall i | 0 <= i < |u.states|
      ensures u.states[i].eventIndex == i + 1 && RowProjects(u, u.states[i])
    {
      assert i < |t.states| ==> RowProjects(t, t.states[i]);
    }
  }

  lemma DecisionOf(w: World, t: Tables, id: string)
    requires id in t.records && RecordVerifies(w, t, id)
    ensures DecisionVerifies(TransfersIn(t), t.records[id].content)
  {
  }

  lemma WrittenRecords(w: World, t: Tables, r: Record, e: Event)
    requires Replayable(w, t) && SB.IdsUnique(t.reviews.sources.settlements)
    requires e.content.allocationId == r.content.allocationId
    requires r.content.allocationId in t.records ==> t.records[r.content.allocationId] == r
    requires RecordVerifies(w, Written(t, r, e), r.content.allocationId)
    ensures forall id :: id in Written(t, r, e).records ==>
              RecordVerifies(w, Written(t, r, e), id) && Last(Written(t, r, e).events, id).Some?
  {
    hide RecordVerifies, EventVerifies, DecisionVerifies;
    var u := Written(t, r, e);
    forall id | id in u.records
      ensures RecordVerifies(w, u, id) && Last(u.events, id).Some?
    {
      LastAppended(t.events, e, id);
      if id != r.content.allocationId {
        DecisionOf(w, t, id);
        RecordStays(w, t, u, id);
      }
    }
  }

  lemma WrittenReplayable(w: World, t: Tables, r: Record, e: Event)
    requires AllocationsOk(w, t) && Continues(w, t, r, e) && SB.IdsUnique(t.reviews.sources.settlements)
    requires r.content.allocationId in t.records ==> t.records[r.content.allocationId] == r
    requires RecordVerifies(w, Written(t, r, e), r.content.allocationId)
    ensures AllocationsOk(w, Written(t, r, e))
  {
    hide RecordVerifies, EventVerifies, Immutable, Semantics;
    var u := Written(t, r, e);
    WrittenProjected(w, t, r, e);
    WrittenRecords(w, t, r, e);
    forall i | 0 <= i < |u.events|
      ensures EventVerifies(w, u, i)
    {
      if i < |t.events| { OldEvents(w, t, r, e, i); } else { NewestEvent(w, t, r, e); }
    }
  }

  lemma HeadIsLength(w: World, t: Tables)
    requires Replayable(w, t)
    ensures HeadIndex(t.events) == |t.events|
  {
    hide RecordVerifies, Semantics;
    if t.events != [] {
      assert EventVerifies(w, t, |t.events| - 1);
    }
  }

  lemma {:induction false} NoEventWithoutRecord(w: World, t: Tables, id: string, n: nat)
    requires Replayable(w, t) && id !in t.records && n <= |t.events|
    ensures Last(t.events[..n], id).None?
  {
    hide RecordVerifies, Immutable, Semantics;
    if n > 0 {
      assert EventVerifies(w, t, n - 1);
      assert t.events[..n][..n - 1] == t.events[..n - 1];
      NoEventWithoutRecord(w, t, id, n - 1);
    }
  }

  /** A source over a settlement row is well formed. */
  lemma SourceOk(w: World, rows: seq<SB.Settled>, through: int, i: nat, groupId: string, source: SettlementSource)
    requires SB.IdsUnique(rows) && i < |SB.Boundaries(rows, through)|
    requires forall k :: 0 <= k < |rows| ==> SB.RowOk(w.r.patterns, rows[k])
    requires var b := SB.Boundaries(rows, through)[i];
             && b.settlementId in SB.ById(rows) && source == A.SourceFor(SB.ById(rows)[b.settlementId], groupId, b)
             && A.Matches(source, b)
    ensures A.SourceWellFormed(w.r.patterns, source, i)
  {
    SB.BoundaryRow(rows, through, i);
    var k :| 0 <= k < |rows| && rows[k].ledgerIndex <= through
             && SB.Boundaries(rows, through)[i] == SB.BoundaryOf(rows[k], i);
    SB.ByIdFinds(rows, k);
  }

  /** Derived rows of a frozen boundary pass the validator. */
  lemma DerivedRowsVerify(w: World, t: Tables, x: R.Record, id: string, r: Record)
    requires Src.Sound(R.SettingOf(w.r), t.reviews.sources) && F.Anchored(w.r, t.reviews.sources, id, x)
    requires r.content.sourceGroupId == x.content.groupId
    requires A.Derived(SettledIn(t), x.content.groupId, x.settlements, r.content.beneficiaryType,
                       r.content.beneficiaryId)
             == Some(r.rows)
    ensures RowsVerify(w, SettledIn(t), x.settlements, r)
  {
    var sources, rows := r.rows.sources, t.reviews.sources.settlements;
    A.CurrenciesConserved(sources, r.content.beneficiaryType, r.content.beneficiaryId);
    var through := F.AnchoredSettlements(w.r, t.reviews.sources, id, x);
    Src.IdsFromRows(R.SettingOf(w.r), t.reviews.sources);
    forall i | 0 <= i < |sources|
      ensures A.SourceWellFormed(w.r.patterns, sources[i], i)
    {
      SourceOk(w, rows, through, i, x.content.groupId, sources[i]);
    }
  }

  /** What a creation that passes its guards records. */
  lemma CreatedRecord(w: World, t: Tables, v: Standing, i: CreateInput)
    requires CreatingFor(w, t, v, i).Ok?
    ensures var m := CreatingFor(w, t, v, i).value;
            var r, x := m.allocation.record, v.review.record;
            && m.tables == Written(t, r, m.event) && r.content.allocationId == i.candidateAllocationId
            && r.content.allocationId !in t.records && NewEvent(t, m.event)
            && r.content in w.recordsWellFormed && FieldsOf(m.event.content) in w.wellFormed
            && m.event == SealedEvent(w, CreateContent(w, t, r, i)) && r == SealedRecord(w, r.content, r.rows)
            && r.content.scope == w.r.scope && r.content.registryKeyId == w.r.keyId
            && r.content.createdAt == i.acceptedAt && r.content.contractReference == i.contractReference
            && r.content.evidenceHash == i.evidenceHash
  {
  }

  /** The record pins the review's verification, the derived rows and the decision of the moment. */
  lemma CreatedPins(w: World, t: Tables, v: Standing, i: CreateInput)
    requires CreatingFor(w, t, v, i).Ok?
    ensures var m := CreatingFor(w, t, v, i).value;
            var c, rows, x := m.allocation.record.content, m.allocation.record.rows, v.review.record;
            && c.exitReviewId == x.content.reviewId && c.targetDeploymentId == x.content.targetDeploymentId
            && c.claimActionId == x.content.claimActionId && c.sourceGroupId == x.content.groupId
            && c.exitRecordHash == x.recordHash && c.exitVerificationEventIndex == v.event.content.eventIndex
            && c.exitVerificationEventHash == v.event.eventHash && c.exitEvidenceHash == v.event.content.evidenceHash
            && v.event.content.acceptedAt <= c.createdAt
            && A.Derived(SettledIn(t), x.content.groupId, x.settlements, c.beneficiaryType, c.beneficiaryId)
               == Some(rows)
  {
  }

  /** The decision that a creation took. */
  lemma CreatedFrom(w: World, t: Tables, v: Standing, i: CreateInput) returns (d: Decision, rows: A.Rows)
    requires CreatingFor(w, t, v, i).Ok?
    ensures Decide(w, TransfersIn(t), v.review.record, i.decisionMode, i.transferId, i.completionHash, i.beneficiaryId)
            == Some(d)
    ensures CreatingFor(w, t, v, i).value.allocation.record == RecordFor(w, TransfersIn(t), v, d, rows, i)
    ensures SourceClock(t, i.acceptedAt, v.event, rows.sources)
  {
    hide Decide, SourceClock, RecordFor, CreateContent;
    d := Decide(w, TransfersIn(t), v.review.record, i.decisionMode, i.transferId, i.completionHash,
                i.beneficiaryId).value;
    rows := A.Derived(SettledIn(t), v.review.record.content.groupId, v.review.record.settlements, d.beneficiaryType,
                      d.beneficiaryId).value;
  }

  lemma CreatedDecision(w: World, t: Tables, v: Standing, i: CreateInput)
    requires CreatingFor(w, t, v, i).Ok? && O.Ok(TransfersIn(t))
    ensures DecidedAt(TransfersIn(t), CreatingFor(w, t, v, i).value.allocation.record.content)
  {
    hide CreatingFor;
    var d, rows := CreatedFrom(w, t, v, i);
    assert O.CompletionKept(TransfersIn(t), i.transferId);
  }

  /** A creation that passes its guards continues the log. */
  lemma CreateContinues(w: World, t: Tables, v: Standing, i: CreateInput)
    requires CreatingFor(w, t, v, i).Ok?
    requires HeadIndex(t.events) == |t.events| && ClockGuard(w, t, i.acceptedAt).None?
    requires Last(t.events, i.candidateAllocationId).None?
    ensures var m := CreatingFor(w, t, v, i).value;
            Continues(w, t, m.allocation.record, m.event)
  {
    hide CreatingFor;
    CreatedRecord(w, t, v, i);
  }

  /** The record matches the standing review. */
  lemma CreatedMatches(w: World, t: Tables, v: Standing, i: CreateInput)
    requires RS.Sound(w.r, t.reviews) && CreatingFor(w, t, v, i).Ok?
    requires ExactReview(t, i.exitReviewId, i.verificationHash) == Some(v)
    ensures var c := CreatingFor(w, t, v, i).value.allocation.record.content;
            ExitRecordMatches(t, c) && PinVerifies(t, c) && c.exitReviewId == i.exitReviewId
  {
    hide CreatingFor, A.Derived, ExactReview, RS.Sound, F.Anchored;
    CreatedPins(w, t, v, i);
    StandingParts(w, t, i.exitReviewId, i.verificationHash);
  }

  lemma CreatedRows(w: World, t: Tables, v: Standing, i: CreateInput)
    requires RS.Sound(w.r, t.reviews) && CreatingFor(w, t, v, i).Ok?
    requires ExactReview(t, i.exitReviewId, i.verificationHash) == Some(v)
    ensures i.exitReviewId in t.reviews.records
    ensures RowsVerify(w, SettledIn(t), t.reviews.records[i.exitReviewId].settlements,
                       CreatingFor(w, t, v, i).value.allocation.record)
  {
    hide CreatingFor, A.Derived, ExactReview, RowsVerify;
    CreatedPins(w, t, v, i);
    StandingParts(w, t, i.exitReviewId, i.verificationHash);
    DerivedRowsVerify(w, t, v.review.record, i.exitReviewId, CreatingFor(w, t, v, i).value.allocation.record);
  }

  lemma WrittenVerifies(w: World, t: Tables, r: Record, e: Event)
    requires r.content.scope == w.r.scope && r.content.registryKeyId == w.r.keyId
    requires r.content in w.recordsWellFormed && r == SealedRecord(w, r.content, r.rows)
    requires ExitRecordMatches(t, r.content) && PinVerifies(t, r.content) && DecisionVerifies(TransfersIn(t), r.content)
    requires RowsVerify(w, SettledIn(t), t.reviews.records[r.content.exitReviewId].settlements, r)
    ensures RecordVerifies(w, Written(t, r, e), r.content.allocationId)
  {
    hide RowsVerify, DecisionVerifies, SealedRecord, StateOf;
  }

  /** It records what the replay derives again. */
  lemma CreateVerifies(w: World, t: Tables, v: Standing, i: CreateInput)
    requires RS.Sound(w.r, t.reviews) && CreatingFor(w, t, v, i).Ok?
    requires ExactReview(t, i.exitReviewId, i.verificationHash) == Some(v)
    ensures var m := CreatingFor(w, t, v, i).value;
            RecordVerifies(w, Written(t, m.allocation.record, m.event), m.allocation.record.content.allocationId)
  {
    hide CreatingFor, RowsVerify, DecisionVerifies, DecidedAt, SealedRecord, ExactReview, CreateContent,
         SealedEvent, ExitRecordMatches, PinVerifies, RecordVerifies;
    CreatedRecord(w, t, v, i);
    CreatedMatches(w, t, v, i);
    CreatedRows(w, t, v, i);
    CreatedDecision(w, t, v, i);
    var m := CreatingFor(w, t, v, i).value;
    DecidedVerifies(TransfersIn(t), m.allocation.record.content);
    WrittenVerifies(w, t, m.allocation.record, m.event);
  }

  lemma StandingParts(w: World, t: Tables, reviewId: string, hash: string)
    requires RS.Sound(w.r, t.reviews) && ExactReview(t, reviewId, hash).Some?
    ensures var v := ExactReview(t, reviewId, hash).value;
            && v.event.content.eventIndex == v.review.state.eventIndex && v.event.eventHash == hash
            && v.event.content.reviewId == reviewId && v.event.content.action == Verify
            && v.event.content.status == Eligible && v.event.content.recordHash == v.review.record.recordHash
            && ReviewEventAt(t.reviews.events, v.event.content.eventIndex, hash, reviewId) == Some(v.event)
            && reviewId in t.reviews.records && t.reviews.records[reviewId] == v.review.record
            && v.review.record.content.reviewId == reviewId
            && F.Anchored(w.r, t.reviews.sources, reviewId, v.review.record)
  {
    var v := ExactReview(t, reviewId, hash).value;
    var k := S.ReviewEventFound(t.reviews.events, v.review.state.eventIndex, hash, reviewId);
  }

  lemma FreshId(w: World, t: Tables, id: string)
    requires Replayable(w, t) && id !in t.records
    ensures HeadIndex(t.events) == |t.events| && Last(t.events, id).None?
  {
    HeadIsLength(w, t);
    NoEventWithoutRecord(w, t, id, |t.events|);
    assert t.events[..|t.events|] == t.events;
  }

  lemma CreateGuards(w: World, t: Tables, i: CreateInput)
    requires Creating(w, t, i).Ok? && FindByKey(t.events, i.idempotencyKey).None?
    ensures ClockGuard(w, t, i.acceptedAt).None? && i.candidateAllocationId !in t.records
    ensures ExactReview(t, i.exitReviewId, i.verificationHash).Some?
    ensures Creating(w, t, i) == CreatingFor(w, t, ExactReview(t, i.exitReviewId, i.verificationHash).value, i)
  {
  }

  /** A repeated creation finds its key in the log and changes nothing. */
  lemma CreateRepeats(w: World, t: Tables, i: CreateInput)
    requires Creating(w, t, i).Ok? && FindByKey(t.events, i.idempotencyKey).Some?
    ensures Creating(w, t, i).value.tables == t
  {
  }

  lemma CreateReplayable(w: World, t: Tables, i: CreateInput)
    requires RS.Sound(w.r, t.reviews) && AllocationsOk(w, t) && Creating(w, t, i).Ok?
    ensures AllocationsOk(w, Creating(w, t, i).value.tables)
  {
    hide CreatingFor;
    var m := Creating(w, t, i).value;
    if FindByKey(t.events, i.idempotencyKey).None? {
      CreateGuards(w, t, i);
      var v := ExactReview(t, i.exitReviewId, i.verificationHash).value;
      CreatedRecord(w, t, v, i);
      FreshId(w, t, i.candidateAllocationId);
      CreateContinues(w, t, v, i);
      CreateVerifies(w, t, v, i);
      Src.IdsFromRows(R.SettingOf(w.r), t.reviews.sources);
      WrittenReplayable(w, t, m.allocation.record, m.event);
    } else {
      CreateRepeats(w, t, i);
    }
  }

  /** The hash of the payload that the service computes from the stored record. */
  function ServicePayloadHash(w: World, t: Tables, i: VerifyInput): string
    requires i.allocationId in t.records
  {
    Digest(w.r.g, AllocationPayloadMessage(AllocationPayload(
      i.allocationId, VerifyFinal, VerifiedFinal, RegistryVerifier, i.actorId, i.reference, i.evidenceHash,
      t.records[i.allocationId].recordHash)))
  }

  /** A verification that passes its guards continues the log exactly if its payload hash is right. */
  lemma VerifyContinues(w: World, t: Tables, v: Standing, a: Allocation, i: VerifyInput, last: Event)
    requires VerifyingFor(w, t, v, a, i).Ok? && a.state.status == Recorded
    requires HeadIndex(t.events) == |t.events| && ClockGuard(w, t, i.acceptedAt).None?
    requires i.allocationId in t.records && a.record == t.records[i.allocationId]
    requires a.record.content.allocationId == i.allocationId
    requires Last(t.events, i.allocationId) == Some(last) && a.state == StateOf(a.record, last)
    ensures var m := VerifyingFor(w, t, v, a, i).value;
            && m.tables == Written(t, a.record, m.event) && m.event.content.payloadHash == i.payloadHash
            && !m.duplicate && PayloadHash(w, m.event.content) == ServicePayloadHash(w, t, i)
            && (Continues(w, t, a.record, m.event) <==> i.payloadHash == ServicePayloadHash(w, t, i))
  {
  }

  lemma RecordsKeyed(w: World, t: Tables)
    requires Replayable(w, t)
    ensures forall id :: id in t.records ==> t.records[id].content.allocationId == id
  {
    forall id | id in t.records
      ensures t.records[id].content.allocationId == id
    {
      assert RecordVerifies(w, t, id);
    }
  }

  lemma LatestOfAllocation(w: World, t: Tables, id: string)
    requires Projected(t) && AllocationById(t, id).Some?
    requires forall x :: x in t.records ==> t.records[x].content.allocationId == x
    ensures Last(t.events, id).Some?
    ensures AllocationById(t, id).value.state == StateOf(t.records[id], Last(t.events, id).value)
  {
    LatestIsLast(t, |t.events|, id);
    assert t.events[..|t.events|] == t.events && t.states[..|t.states|] == t.states;
  }

  /** What the guards of a verification establish before its event is built. */
  lemma VerifyGuards(w: World, t: Tables, i: VerifyInput)
    requires Verifying(w, t, i).Ok? && FindByKey(t.events, i.idempotencyKey).None?
    ensures ClockGuard(w, t, i.acceptedAt).None? && AllocationById(t, i.allocationId).Some?
    ensures var a := AllocationById(t, i.allocationId).value;
            && a.state.status == Recorded && i.allocationId in t.records && a.record == t.records[i.allocationId]
            && var v := ExactReview(t, a.record.content.exitReviewId, a.record.content.exitVerificationEventHash);
               v.Some? && Verifying(w, t, i) == VerifyingFor(w, t, v.value, a, i)
  {
  }

  lemma RightPayload(w: World, t: Tables, a: Record, e: Event, id: string)
    requires AllocationsOk(w, t) && SB.IdsUnique(t.reviews.sources.settlements)
    requires id in t.records && t.records[id] == a && a.content.allocationId == id && Continues(w, t, a, e)
    ensures AllocationsOk(w, Written(t, a, e))
  {
    hide DecisionVerifies, RowsVerify, PinVerifies, ExitRecordMatches;
    assert RecordVerifies(w, t, id);
    RecordStays(w, t, Written(t, a, e), id);
    WrittenReplayable(w, t, a, e);
  }

  /**
    The store takes the payload hash of a verification from its caller.  The replay accepts the result if
    and only if it is the hash that the service computes, over the fields of the call and the stored record.
  */
  lemma VerifyReplaysIff(w: World, t: Tables, i: VerifyInput)
    requires AllocationsOk(w, t) && SB.IdsUnique(t.reviews.sources.settlements)
    requires Verifying(w, t, i).Ok? && FindByKey(t.events, i.idempotencyKey).None?
    ensures i.allocationId in t.records
    ensures var u, right := Verifying(w, t, i).value.tables, i.payloadHash == ServicePayloadHash(w, t, i);
            && (Replayable(w, u) <==> right) && (right ==> AllocationsOk(w, u)) && (!right ==> Spoiled(w, u))
  {
    hide VerifyingFor;
    VerifyGuards(w, t, i);
    var a := AllocationById(t, i.allocationId).value;
    var v := ExactReview(t, a.record.content.exitReviewId, a.record.content.exitVerificationEventHash).value;
    RecordsKeyed(w, t);
    LatestOfAllocation(w, t, i.allocationId);
    HeadIsLength(w, t);
    VerifyContinues(w, t, v, a, i, Last(t.events, i.allocationId).value);
    var m := VerifyingFor(w, t, v, a, i).value;
    if i.payloadHash == ServicePayloadHash(w, t, i) {
      RightPayload(w, t, a.record, m.event, i.allocationId);
    } else {
      assert WrongPayload(w, m.tables, |t.events|);
      SpoiledFails(w, m.tables);
    }
  }

  predicate WrongPayload(w: World, t: Tables, i: nat)
    requires i < |t.events|
  {
    t.events[i].content.payloadHash != PayloadHash(w, t.events[i].content)
  }

  /** Some event carries a wrong payload hash. */
  ghost predicate Spoiled(w: World, t: Tables) {
    exists i :: 0 <= i < |t.events| && WrongPayload(w, t, i)
  }

  lemma SpoiledFails(w: World, t: Tables)
    requires Spoiled(w, t)
    ensures !Replayable(w, t)
  {
    var i :| 0 <= i < |t.events| && WrongPayload(w, t, i);
    assert !EventVerifies(w, t, i);
  }

  lemma SpoiledStays(w: World, t: Tables, u: Tables)
    requires Spoiled(w, t) && t.events <= u.events
    ensures Spoiled(w, u)
  {
    var i :| 0 <= i < |t.events| && WrongPayload(w, t, i);
    assert u.events[i] == t.events[i];
    assert WrongPayload(w, u, i);
  }

  /** The pinned decisions of all records verify against this transfer log. */
  ghost predicate DecisionsStand(t: Tables, log: O.Log) {
    forall id :: id in t.records ==> DecisionVerifies(log, t.records[id].content)
  }

  lemma ReviewsReplayable(w: World, t: Tables, u: R.Tables)
    requires AllocationsOk(w, t) && ReviewsGrow(t.reviews, u) && DecisionsStand(t, u.sources.transfers)
    ensures AllocationsOk(w, t.(reviews := u))
  {
    var v := t.(reviews := u);
    forall id | id in v.records
      ensures RecordVerifies(w, v, id)
    {
      RecordStays(w, t, v, id);
    }
    forall i | 0 <= i < |v.events|
      ensures EventVerifies(w, v, i)
    {
      assert EventVerifies(w, t, i);
    }
    forall k | 0 <= k < |v.states|
      ensures RowProjects(v, v.states[k])
    {
      assert RowProjects(t, t.states[k]);
    }
  }

  lemma DecisionsNow(w: World, t: Tables)
    requires Replayable(w, t)
    ensures DecisionsStand(t, TransfersIn(t))
  {
    forall id | id in t.records
      ensures DecisionVerifies(TransfersIn(t), t.records[id].content)
    {
      assert RecordVerifies(w, t, id);
    }
  }

  /** A transfer event leaves every pinned decision: none of their reviews can be prepared again. */
  lemma TransferKeepsDecisions(w: World, t: Tables, r: O.Record, e: O.Event, n: int)
    requires Replayable(w, t) && O.Ok(TransfersIn(t)) && O.Continues(TransfersIn(t), w.r.createdAt, r, e)
    requires e.action == O.Prepare ==> Unallocated(t, r.exitReviewId)
    ensures DecisionsStand(t, O.Written(TransfersIn(t), r, e, n))
  {
    DecisionsNow(w, t);
    forall id | id in t.records
      ensures DecisionVerifies(O.Written(TransfersIn(t), r, e, n), t.records[id].content)
    {
      DecisionStays(TransfersIn(t), w.r.createdAt, r, e, n, t.records[id].content);
    }
  }

  lemma GrowsOf(w: World, t: Tables, x: RS.Step)
    requires RS.Sound(w.r, t.reviews)
    ensures ReviewsGrow(t.reviews, RS.Apply(w.r, t.reviews, x))
  {
    hide RS.Apply;
    S.ReviewGrows(w.r, t.reviews, x);
    RS.StepSourcesGrow(w.r, t.reviews, x);
    Src.IdsFromRows(R.SettingOf(w.r), RS.Apply(w.r, t.reviews, x).sources);
  }

  lemma TransferReplayable(w: World, t: Tables, o: TS.Outcome)
    requires S.Sound(w, t) && AllocationsOk(w, t)
    requires Src.TransferAllowed(R.SettingOf(w.r), t.reviews.sources, o.record, o.event)
    requires o.event.action == O.Prepare ==> Unallocated(t, o.record.exitReviewId)
    ensures AllocationsOk(w, TS.Written(t, o.record, o.event))
  {
    hide R.Freezing, R.Deciding, Src.Apply, Src.CompletionAllowed, O.Continues, DecisionVerifies;
    var x := RS.TransferStep(o.record, o.event);
    var n := DL.HeadIndex(t.reviews.sources.audits);
    assert RS.Apply(w.r, t.reviews, x).sources.transfers == O.Written(TransfersIn(t), o.record, o.event, n);
    TransferKeepsDecisions(w, t, o.record, o.event, n);
    GrowsOf(w, t, x);
    ReviewsReplayable(w, t, RS.Apply(w.r, t.reviews, x));
  }

  /** A step on sources or reviews leaves the transfer log as it is. */
  lemma ReviewReplayable(w: World, t: Tables, x: RS.Step)
    requires S.Sound(w, t) && AllocationsOk(w, t) && !x.TransferStep?
    ensures AllocationsOk(w, t.(reviews := RS.Apply(w.r, t.reviews, x)))
  {
    hide RS.Apply;
    RS.StepKeepsTransfers(w.r, t.reviews, x);
    DecisionsNow(w, t);
    GrowsOf(w, t, x);
    ReviewsReplayable(w, t, RS.Apply(w.r, t.reviews, x));
  }

  lemma VerifyRepeats(w: World, t: Tables, i: VerifyInput)
    requires Verifying(w, t, i).Ok? && FindByKey(t.events, i.idempotencyKey).Some?
    ensures Verifying(w, t, i).value.tables == t
  {
  }

  /** A verification that is accepted anew carries the hash that the service computes. */
  ghost predicate PayloadRight(w: World, t: Tables, s: S.Step) {
    s.AllocationVerify? && Verifying(w, t, s.verify).Ok? && FindByKey(t.events, s.verify.idempotencyKey).None? ==>
      s.verify.allocationId in t.records && s.verify.payloadHash == ServicePayloadHash(w, t, s.verify)
  }

  ghost predicate PayloadsRight(w: World, t: Tables, steps: seq<S.Step>)
    decreases |steps|
  {
    steps == [] || (PayloadRight(w, t, steps[0]) && PayloadsRight(w, S.Apply(w, t, steps[0]), steps[1..]))
  }

  lemma VerifyStep(w: World, t: Tables, i: VerifyInput)
    requires Sound(w, t) && Verifying(w, t, i).Ok?
    ensures var u := Verifying(w, t, i).value.tables;
            if PayloadRight(w, t, S.AllocationVerify(i)) then AllocationsOk(w, u) else Spoiled(w, u)
  {
    hide VerifyingFor, Src.LogsOk, RS.AllAnchored, RS.LogOk, AllocationsOk, Spoiled;
    if FindByKey(t.events, i.idempotencyKey).None? {
      Src.IdsFromRows(R.SettingOf(w.r), t.reviews.sources);
      VerifyReplaysIff(w, t, i);
    } else {
      VerifyRepeats(w, t, i);
    }
  }

  lemma TransferStepReplays(w: World, t: Tables, s: S.Step)
    requires Sound(w, t) && (s.TransferPrepare? || s.TransferAdvance?)
    ensures AllocationsOk(w, S.Apply(w, t, s))
  {
    hide TS.Preparing, TS.Advancing, RS.Apply, Creating, Verifying;
    var outcome := if s.TransferPrepare? then TS.Preparing(w, t, s.prepare) else TS.Advancing(w, t, s.advance);
    if outcome.Ok? && !outcome.value.duplicate {
      if s.TransferPrepare? {
        TS.PrepareContinues(w, t, s.prepare);
      } else {
        TS.AdvanceContinues(w, t, s.advance);
      }
      TransferReplayable(w, t, outcome.value);
    }
  }

  /** From a state that replays, a step leads to one that does, or spoils the log for good. */
  lemma StepReplays(w: World, t: Tables, s: S.Step)
    requires Sound(w, t)
    ensures if PayloadRight(w, t, s) then AllocationsOk(w, S.Apply(w, t, s)) else Spoiled(w, S.Apply(w, t, s))
  {
    hide RS.Apply, Creating, Verifying, TS.Preparing, TS.Advancing;
    match s
    case SourceWrite(x) => ReviewReplayable(w, t, RS.SourceStep(x));
    case ReviewFreeze(i) => ReviewReplayable(w, t, RS.FreezeStep(i));
    case ReviewDecision(i) => ReviewReplayable(w, t, RS.DecideStep(i));
    case TransferPrepare(i) => TransferStepReplays(w, t, s);
    case TransferAdvance(i) => TransferStepReplays(w, t, s);
    case AllocationCreate(i) => if Creating(w, t, i).Ok? { CreateReplayable(w, t, i); }
    case AllocationVerify(i) => if Verifying(w, t, i).Ok? { VerifyStep(w, t, i); }
  }

  lemma {:induction false} RunReplays(w: World, t: Tables, steps: seq<S.Step>)
    requires Sound(w, t)
    ensures if PayloadsRight(w, t, steps) then Sound(w, S.Run(w, t, steps)) else Spoiled(w, S.Run(w, t, steps))
    decreases |steps|
  {
    hide S.Apply, PayloadRight;
    if steps != [] {
      var u := S.Apply(w, t, steps[0]);
      S.StepSound(w, t, steps[0]);
      StepReplays(w, t, steps[0]);
      if PayloadRight(w, t, steps[0]) {
        RunReplays(w, u, steps[1..]);
      } else {
        RunGrows(w, u, steps[1..]);
        SpoiledStays(w, u, S.Run(w, u, steps[1..]));
      }
    }
  }

  /**
    The replay of the allocations accepts the state that a run has reached if and only if every verification
    that was accepted in it carried the payload hash that the service computes.  Nothing else that happens
    to the sources, the reviews, the transfers or the allocations makes it fail.
  */
  lemma ReplayIffPayloadsRight(w: World, steps: seq<S.Step>)
    ensures Replayable(w, S.Run(w, Empty, steps)) <==> PayloadsRight(w, Empty, steps)
  {
    hide S.Apply, PayloadRight;
    EmptySound(w);
    RunReplays(w, Empty, steps);
    if !PayloadsRight(w, Empty, steps) {
      SpoiledFails(w, S.Run(w, Empty, steps));
    }
  }

  lemma EmptySound(w: World)
    ensures Sound(w, Empty)
  {
    S.EmptySound(w);
  }

  // ---------------------------------------------------------------- repeated submissions

  /** Allocations, their events and their rows are only added to. */
  ghost predicate Grows(t: Tables, u: Tables) {
    && t.events <= u.events && t.states <= u.states
    && (forall id :: id in t.records ==> id in u.records && u.records[id] == t.records[id])
  }

  lemma GrowsTransitive(t: Tables, u: Tables, v: Tables)
    requires Grows(t, u) && Grows(u, v)
    ensures Grows(t, v)
  {
  }

  lemma CreateGrows(w: World, t: Tables, i: CreateInput)
    requires Creating(w, t, i).Ok?
    ensures Grows(t, Creating(w, t, i).value.tables)
  {
    hide CreatingFor;
    if FindByKey(t.events, i.idempotencyKey).None? {
      CreateGuards(w, t, i);
      CreatedRecord(w, t, ExactReview(t, i.exitReviewId, i.verificationHash).value, i);
    } else {
      CreateRepeats(w, t, i);
    }
  }

  lemma VerifyGrows(w: World, t: Tables, i: VerifyInput)
    requires Verifying(w, t, i).Ok? && forall id :: id in t.records ==> t.records[id].content.allocationId == id
    ensures Grows(t, Verifying(w, t, i).value.tables)
  {
  }

  lemma StepGrows(w: World, t: Tables, s: S.Step)
    requires S.Sound(w, t)
    ensures Grows(t, S.Apply(w, t, s))
  {
    hide RS.Apply, Creating, Verifying, TS.Preparing, TS.Advancing, S.OnReviews, S.LogGrows, RS.Sound;
    if s.AllocationCreate? {
      if Creating(w, t, s.create).Ok? { CreateGrows(w, t, s.create); }
    } else if s.AllocationVerify? {
      if Verifying(w, t, s.verify).Ok? { VerifyGrows(w, t, s.verify); }
    } else {
      S.StepOnReviews(w, t, s);
      S.OnReviewsSound(w, t, s, S.Apply(w, t, s));
    }
  }

  lemma {:induction false} RunGrows(w: World, t: Tables, steps: seq<S.Step>)
    requires S.Sound(w, t)
    ensures Grows(t, S.Run(w, t, steps))
    decreases |steps|
  {
    hide S.Apply;
    if steps != [] {
      StepGrows(w, t, steps[0]);
      S.StepSound(w, t, steps[0]);
      RunGrows(w, S.Apply(w, t, steps[0]), steps[1..]);
      GrowsTransitive(t, S.Apply(w, t, steps[0]), S.Run(w, t, steps));
    }
  }

  lemma {:induction false} FindStays(a: seq<Event>, b: seq<Event>, key: string)
    requires a <= b && FindByKey(a, key).Some?
    ensures FindByKey(b, key) == FindByKey(a, key)
  {
    if a[0].content.idempotencyKey != key {
      FindStays(a[1..], b[1..], key);
    }
  }

  lemma {:induction false} FindAppended(events: seq<Event>, e: Event)
    requires FindByKey(events, e.content.idempotencyKey).None?
    ensures FindByKey(events + [e], e.content.idempotencyKey) == Some(e)
  {
    if events != [] {
      assert (events + [e])[1..] == events[1..] + [e];
      FindAppended(events[1..], e);
    }
  }

  lemma {:induction false} RowStays(a: seq<StateRow>, b: seq<StateRow>, id: string)
    requires a <= b && LatestState(a, id).Some?
    ensures LatestState(b, id).Some?
    decreases |b|
  {
    if |a| == |b| {
      assert a == b;
    } else if b[|b| - 1].allocationId != id {
      RowStays(a, b[..|b| - 1], id);
    }
  }

  /** What was written with an event can be found and read in every later state. */
  lemma WrittenIsFound(t: Tables, r: Record, e: Event, u: Tables)
    requires Grows(Written(t, r, e), u) && FindByKey(t.events, e.content.idempotencyKey).None?
    requires e.content.allocationId == r.content.allocationId
    ensures FindByKey(u.events, e.content.idempotencyKey) == Some(e)
    ensures AllocationById(u, e.content.allocationId).Some?
    ensures AllocationById(u, e.content.allocationId).value.record == r
  {
    FindAppended(t.events, e);
    FindStays(t.events + [e], u.events, e.content.idempotencyKey);
    RowStays(t.states + [StateOf(r, e)], u.states, e.content.allocationId);
  }

  lemma CreateWrites(w: World, t: Tables, i: CreateInput)
    requires Creating(w, t, i).Ok? && !Creating(w, t, i).value.duplicate
    ensures var m := Creating(w, t, i).value;
            && FindByKey(t.events, i.idempotencyKey).None? && m.event.content.idempotencyKey == i.idempotencyKey
            && m.tables == Written(t, m.allocation.record, m.event)
            && m.event.content.allocationId == m.allocation.record.content.allocationId
  {
    hide CreatingFor;
    if FindByKey(t.events, i.idempotencyKey).None? {
      CreateGuards(w, t, i);
      CreatedRecord(w, t, ExactReview(t, i.exitReviewId, i.verificationHash).value, i);
    }
  }

  /** The decision that a record keeps is the one that was asked for. */
  lemma CreateMatches(w: World, t: Tables, i: CreateInput)
    requires S.Sound(w, t) && Creating(w, t, i).Ok? && !Creating(w, t, i).value.duplicate
    ensures SameCreate(i, Creating(w, t, i).value.event, Creating(w, t, i).value.allocation.record)
  {
    CreateGuards(w, t, i);
    StandingParts(w, t, i.exitReviewId, i.verificationHash);
    CreateKeepsInput(w, t, ExactReview(t, i.exitReviewId, i.verificationHash).value, i);
  }

  lemma CreateKeepsInput(w: World, t: Tables, v: Standing, i: CreateInput)
    requires CreatingFor(w, t, v, i).Ok? && v.event.eventHash == i.verificationHash
    requires v.review.record.content.reviewId == i.exitReviewId
    ensures SameCreate(i, CreatingFor(w, t, v, i).value.event, CreatingFor(w, t, v, i).value.allocation.record)
  {
  }

  /** The answer is the first event as a duplicate, and the tables stay as they are. */
  ghost predicate Repeats(r: Result<Mutation>, e: Event, t: Tables) {
    r.Ok? && r.value.duplicate && r.value.event == e && r.value.tables == t
  }

  lemma CreateAgain(w: World, u: Tables, again: CreateInput, e: Event)
    requires FindByKey(u.events, again.idempotencyKey) == Some(e) && AllocationById(u, e.content.allocationId).Some?
    requires SameCreate(again, e, AllocationById(u, e.content.allocationId).value.record)
    ensures Repeats(Creating(w, u, again), e, u)
  {
  }

  /**
    A creation that is submitted again, with the same contents under the same key, returns the first event as
    a duplicate and changes nothing, whatever happened to the review, the transfers or the allocation since.
  */
  lemma CreationRepeats(w: World, t: Tables, i: CreateInput, m: Mutation, more: seq<S.Step>, again: CreateInput)
    requires S.Sound(w, t) && Creating(w, t, i) == Ok(m) && !m.duplicate
    requires again == i.(candidateAllocationId := again.candidateAllocationId,
                         candidateEventId := again.candidateEventId, acceptedAt := again.acceptedAt)
    ensures var u := S.Run(w, m.tables, more);
            Repeats(Creating(w, u, again), m.event, u)
  {
    hide S.Apply, Creating;
    CreateWrites(w, t, i);
    CreateMatches(w, t, i);
    S.CreateSound(w, t, i);
    RunGrows(w, m.tables, more);
    var u := S.Run(w, m.tables, more);
    WrittenIsFound(t, m.allocation.record, m.event, u);
    CreateAgain(w, u, again, m.event);
  }

  lemma VerifyWrites(w: World, t: Tables, i: VerifyInput)
    requires Verifying(w, t, i).Ok? && !Verifying(w, t, i).value.duplicate
    requires forall id :: id in t.records ==> t.records[id].content.allocationId == id
    ensures var m := Verifying(w, t, i).value;
            && FindByKey(t.events, i.idempotencyKey).None? && m.event.content.idempotencyKey == i.idempotencyKey
            && i.allocationId in t.records && m.tables == Written(t, t.records[i.allocationId], m.event)
            && m.event.content.allocationId == i.allocationId && SameVerify(i, m.event)
  {
  }

  lemma VerifyAgain(w: World, u: Tables, again: VerifyInput, e: Event)
    requires FindByKey(u.events, again.idempotencyKey) == Some(e) && AllocationById(u, e.content.allocationId).Some?
    requires SameVerify(again, e)
    ensures Repeats(Verifying(w, u, again), e, u)
  {
  }

  /** The same for a verification: it stays answered even if the review is disputed afterwards. */
  lemma VerificationRepeats(w: World, t: Tables, i: VerifyInput, m: Mutation, more: seq<S.Step>, again: VerifyInput)
    requires S.Sound(w, t) && Verifying(w, t, i) == Ok(m) && !m.duplicate
    requires again == i.(candidateEventId := again.candidateEventId, acceptedAt := again.acceptedAt)
    ensures var u := S.Run(w, m.tables, more);
            Repeats(Verifying(w, u, again), m.event, u)
  {
    hide S.Apply, Verifying;
    VerifyWrites(w, t, i);
    S.VerifySound(w, t, i);
    RunGrows(w, m.tables, more);
    var u := S.Run(w, m.tables, more);
    WrittenIsFound(t, t.records[i.allocationId], m.event, u);
    VerifyAgain(w, u, again, m.event);
  }
}
