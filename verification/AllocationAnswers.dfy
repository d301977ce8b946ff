/**
  What the writers of final exit allocations answer, said of the rows themselves.
*/
module AllocationAnswers {
  import opened Basics
  import opened Protocol
  import opened AllocationLaws
  import A = AllocationRows
  import SB = SettlementBoundaries
  import S = ReviewSources
  import O = OwnershipTransfers
  import R = ExitReview
  import RS = ExitReviewSafety
  import RA = ExitReviewAnswers
  import ES = ExitSafety
  import TA = TransferAnswers
  import TS = TransferSteps
  import opened ExitAllocation

  // ---------------------------------------------------------------- the log

  ghost predicate KeyUsed(events: seq<Event>, key: string) {
    exists k :: 0 <= k < |events| && events[k].content.idempotencyKey == key
  }

  /** Event `k` is the first one under the key. */
  ghost predicate FirstUnder(events: seq<Event>, key: string, k: nat) {
    && k < |events| && events[k].content.idempotencyKey == key
    && forall j :: 0 <= j < k ==> events[j].content.idempotencyKey != key
  }

  /** Event `k` is the last one of the allocation. */
  ghost predicate LastOf(events: seq<Event>, id: string, k: nat) {
    && k < |events| && events[k].content.allocationId == id
    && forall j :: k < j < |events| ==> events[j].content.allocationId != id
  }

  ghost predicate Later(events: seq<Event>, at: int) {
    exists k :: 0 <= k < |events| && at < events[k].content.acceptedAt
  }

  /** Another event has the event's ID or hash. */
  ghost predicate EventTaken(events: seq<Event>, e: Event) {
    exists k :: 0 <= k < |events| && (events[k].content.eventId == e.content.eventId
                                      || events[k].eventHash == e.eventHash)
  }

  ghost predicate RecordTaken(t: Tables, id: string, hash: string) {
    id in t.records || exists other :: other in t.records && t.records[other].recordHash == hash
  }

  /** The query row copies the event and its record. */
  predicate RowCopies(row: StateRow, r: Record, e: Event) {
    var c, x := e.content, r.content;
    && row.eventIndex == c.eventIndex && row.eventHash == e.eventHash && row.status == c.status
    && row.action == c.action && row.actorRole == c.actorRole && row.actorId == c.actorId
    && row.reference == c.reference && row.evidenceHash == c.evidenceHash && row.acceptedAt == c.acceptedAt
    && row.allocationId == x.allocationId && row.decisionMode == x.decisionMode
    && row.beneficiaryType == x.beneficiaryType && row.beneficiaryId == x.beneficiaryId
    && row.exitReviewId == x.exitReviewId && row.targetDeploymentId == x.targetDeploymentId
    && row.claimActionId == x.claimActionId && row.sourceGroupId == x.sourceGroupId && row.transferId == x.transferId
    && row.settlementSourceCount == x.settlementSourceCount && row.settlementSourceHash == x.settlementSourceHash
    && row.currencyAllocationCount == x.currencyAllocationCount
    && row.currencyAllocationHash == x.currencyAllocationHash && row.recordHash == r.recordHash
  }

  // ---------------------------------------------------------------- what every run keeps

  /** Event `i` is numbered and of a recorded allocation, no earlier than the one before it, and has its row. */
  ghost predicate InPlace(t: Tables, i: nat)
    requires i < |t.events| && |t.states| == |t.events|
  {
    var c := t.events[i].content;
    && c.allocationId in t.records && c.eventIndex == i + 1
    && (i > 0 ==> t.events[i - 1].content.acceptedAt <= c.acceptedAt)
    && RowCopies(t.states[i], t.records[c.allocationId], t.events[i])
  }

  ghost predicate HasEvent(t: Tables, id: string) {
    exists k :: 0 <= k < |t.events| && t.events[k].content.allocationId == id
  }

  ghost predicate LogInPlace(t: Tables) {
    && |t.states| == |t.events| && (forall i :: 0 <= i < |t.events| ==> InPlace(t, i))
    && (forall id :: id in t.records ==> HasEvent(t, id))
  }

  /** The stores are sound, and the allocations' log and query rows are in place. */
  ghost predicate Orderly(w: World, t: Tables) { ES.Sound(w, t) && LogInPlace(t) }

  /** The event may follow: it is the next one, of this record, which is new or the stored one. */
  predicate Next(t: Tables, r: Record, e: Event) {
    && e.content.eventIndex == |t.events| + 1 && e.content.allocationId == r.content.allocationId
    && (t.events != [] ==> t.events[|t.events| - 1].content.acceptedAt <= e.content.acceptedAt)
    && (r.content.allocationId in t.records ==> t.records[r.content.allocationId] == r)
  }

  lemma WrittenInPlace(t: Tables, r: Record, e: Event)
    requires LogInPlace(t) && Next(t, r, e)
    ensures LogInPlace(Written(t, r, e))
  {
    var u := Written(t, r, e);
    forall i | 0 <= i < |u.events|
      ensures InPlace(u, i)
    {
      if i < |t.events| {
        assert InPlace(t, i) && u.events[i] == t.events[i] && u.states[i] == t.states[i];
      }
    }
    forall id | id in u.records
      ensures HasEvent(u, id)
    {
      if id in t.records {
        var k :| 0 <= k < |t.events| && t.events[k].content.allocationId == id;
        assert u.events[k].content.allocationId == id;
      } else {
        assert u.events[|t.events|].content.allocationId == id;
      }
    }
  }

  lemma HeadNumbered(t: Tables)
    requires LogInPlace(t)
    ensures HeadIndex(t.events) == |t.events|
  {
    assert t.events != [] ==> InPlace(t, |t.events| - 1);
  }

  lemma {:induction false} TimesOrdered(t: Tables, i: nat, j: nat)
    requires LogInPlace(t) && i <= j < |t.events|
    ensures t.events[i].content.acceptedAt <= t.events[j].content.acceptedAt
    decreases j
  {
    if i < j {
      assert InPlace(t, j);
      TimesOrdered(t, i, j - 1);
    }
  }

  lemma ClockMeans(w: World, t: Tables, at: int)
    requires LogInPlace(t)
    ensures ClockGuard(w, t, at) == if at < w.r.createdAt then Some(AcceptedAtBeforeIdentity)
                                    else if Later(t.events, at) then Some(ClockBeforeHead) else None
  {
    var n := |t.events|;
    forall i | 0 <= i < n
      ensures t.events[i].content.acceptedAt <= t.events[n - 1].content.acceptedAt
    {
      TimesOrdered(t, i, n - 1);
    }
  }

  lemma {:induction false} KeyMeans(events: seq<Event>, key: string) returns (k: nat)
    ensures match FindByKey(events, key)
            case None => !KeyUsed(events, key)
            case Some(e) => KeyUsed(events, key) && FirstUnder(events, key, k) && events[k] == e
  {
    k := 0;
    if events != [] && events[0].content.idempotencyKey != key {
      k := KeyMeans(events[1..], key);
      assert forall j :: 1 <= j < |events| ==> events[j] == events[1..][j - 1];
      k := k + 1;
    }
  }

  /** The row that the writer reads is that of the allocation's last event. */
  lemma {:induction false} LatestMeans(t: Tables, id: string, n: nat) returns (k: nat)
    requires LogInPlace(t) && n <= |t.events| && id in t.records
    requires forall x :: x in t.records ==> t.records[x].content.allocationId == x
    ensures match LatestState(t.states[..n], id)
            case None => forall j :: 0 <= j < n ==> t.events[j].content.allocationId != id
            case Some(row) =>
              && k < n && t.events[k].content.allocationId == id && row == t.states[k]
              && forall j :: k < j < n ==> t.events[j].content.allocationId != id
  {
    k := 0;
    if n > 0 {
      assert InPlace(t, n - 1) && t.states[..n][..n - 1] == t.states[..n - 1];
      k := n - 1;
      if t.events[n - 1].content.allocationId != id {
        k := LatestMeans(t, id, n - 1);
      }
    }
  }

  lemma AllocationReads(w: World, t: Tables, id: string) returns (k: nat)
    requires Orderly(w, t) && id in t.records
    ensures LastOf(t.events, id, k) && k < |t.states|
    ensures AllocationById(t, id) == Some(Allocation(t.records[id], t.states[k]))
    ensures RowCopies(t.states[k], t.records[id], t.events[k]) && t.records[id].content.allocationId == id
  {
    hide RS.Sound, ES.HashesUnique, RowCopies;
    k := LatestMeans(t, id, |t.events|);
    assert t.states[..|t.states|] == t.states && HasEvent(t, id);
    assert InPlace(t, k);
  }

  // ---------------------------------------------------------------- creating

  /** Another decision or other money than these is not to be had for the request. */
  ghost predicate Decided(w: World, t: Tables, i: CreateInput, x: R.Record, d: Decision) {
    DecisionIs(w, TransfersIn(t), x, i.decisionMode, i.transferId, i.completionHash, i.beneficiaryId, d)
  }

  ghost predicate Pays(t: Tables, x: R.Record, d: Decision, rows: A.Rows) {
    RowsAre(t.reviews.sources.settlements, x.content.groupId, x.settlements, d.beneficiaryType, d.beneficiaryId, rows)
  }

  /** The settlement is one that the review froze. */
  ghost predicate Frozen(x: R.Record, s: SB.Settled) {
    exists j :: 0 <= j < |x.settlements| && x.settlements[j].settlementId == s.settlementId
  }

  /** The verification, a transfer event or a frozen settlement was accepted after this time. */
  ghost predicate Untimely(t: Tables, i: CreateInput, x: R.Record) {
    var rows := t.reviews.sources.settlements;
    || (exists k :: 0 <= k && TA.Stands(t, i.exitReviewId, i.verificationHash, k)
                    && i.acceptedAt < t.reviews.events[k].content.acceptedAt)
    || TA.Later(TransfersIn(t).events, i.acceptedAt)
    || exists k :: 0 <= k < |rows| && i.acceptedAt < rows[k].acceptedAt && Frozen(x, rows[k])
  }

  /** Why an allocation of a review that stands is refused before its record is built, if it is. */
  ghost predicate BlockedOn(w: World, t: Tables, i: CreateInput, x: R.Record, err: Error) {
    if forall d :: !Decided(w, t, i, x, d) then err == TransferBoundary
    else if forall d, rows :: Decided(w, t, i, x, d) ==> !Pays(t, x, d, rows) then err == Conservation
    else Untimely(t, i, x) && err == ClockBeforeHead
  }

  /** The review stands at the verification with this hash. */
  ghost predicate Verified(t: Tables, reviewId: string, hash: string) {
    reviewId in t.reviews.records && exists k :: 0 <= k && TA.Stands(t, reviewId, hash, k)
  }

  /** Why a creation under a new key is refused before its record is built, if it is. */
  ghost predicate CreateBlockedAs(w: World, t: Tables, i: CreateInput, err: Error) {
    if i.acceptedAt < w.r.createdAt then err == AcceptedAtBeforeIdentity
    else if Later(t.events, i.acceptedAt) then err == ClockBeforeHead
    else if exists id :: id in t.records && t.records[id].content.exitReviewId == i.exitReviewId then
      err == AlreadyExists
    else if !Verified(t, i.exitReviewId, i.verificationHash) then err == ExitBoundary
    else BlockedOn(w, t, i, t.reviews.records[i.exitReviewId], err)
  }

  /** The record of a creation, over review `x` standing at its event `k`. */
  ghost predicate RecordReads(w: World, t: Tables, i: CreateInput, x: R.Record, k: nat, d: Decision, r: Record) {
    var c, log := r.content, TransfersIn(t);
    && TA.Stands(t, i.exitReviewId, i.verificationHash, k) && Decided(w, t, i, x, d) && Pays(t, x, d, r.rows)
    && c.allocationId == i.candidateAllocationId && c.exitReviewId == i.exitReviewId
    && c.targetDeploymentId == x.content.targetDeploymentId && c.claimActionId == x.content.claimActionId
    && c.sourceGroupId == x.content.groupId && c.exitRecordHash == x.recordHash
    && c.exitVerificationEventIndex == k + 1 && c.exitVerificationEventHash == i.verificationHash
    && c.exitEvidenceHash == t.reviews.events[k].content.evidenceHash
    && c.decisionMode == i.decisionMode && c.transferId == i.transferId
    && c.transferCompletionEventIndex == d.completionIndex && c.transferCompletionEventHash == d.completionHash
    && c.beneficiaryType == d.beneficiaryType && c.beneficiaryId == d.beneficiaryId
    && c.throughTransferEventIndex == |log.events|
    && c.transferHeadHash == (if log.events == [] then ZERO_HASH else log.events[|log.events| - 1].eventHash)
    && c.contractReference == i.contractReference && c.contractTermsHash == i.contractTermsHash
    && c.evidenceHash == i.evidenceHash && c.createdAt == i.acceptedAt
    && c.scope == w.r.scope && c.registryKeyId == w.r.keyId && CommitsTo(w, r)
  }

  /** The record commits to its two lists and is sealed. */
  predicate CommitsTo(w: World, r: Record) {
    var c := r.content;
    && c.settlementSourceCount == |r.rows.sources|
    && c.settlementSourceHash == Digest(w.r.g, SourcesMessage(r.rows.sources))
    && c.currencyAllocationCount == |r.rows.currencies|
    && c.currencyAllocationHash == Digest(w.r.g, CurrenciesMessage(r.rows.currencies))
    && r.recordHash == Digest(w.r.g, AllocationMessage(c))
  }

  /** The event is numbered, chained, sealed and signed behind the events before it, for this record. */
  predicate ContinuesLog(w: World, before: seq<Event>, r: Record, e: Event) {
    var c := e.content;
    && c.eventIndex == |before| + 1 && c.allocationId == r.content.allocationId && c.recordHash == r.recordHash
    && c.scope == w.r.scope && c.registryKeyId == w.r.keyId
    && c.previousEventHash == (if before == [] then ZERO_HASH else before[|before| - 1].eventHash)
    && e.eventHash == Digest(w.r.g, AllocationEventMessage(c))
    && e.signature == if e.eventHash in w.r.sign then w.r.sign[e.eventHash] else ""
  }

  /** The payload hash is over the event's own fields. */
  predicate PayloadSealed(w: World, c: AllocationEventContent) {
    c.payloadHash == Digest(w.r.g, AllocationPayloadMessage(
                       AllocationPayload(c.allocationId, c.action, c.status, c.actorRole, c.actorId, c.reference,
                                         c.evidenceHash, c.recordHash)))
  }

  predicate WellFormed(w: World, c: AllocationEventContent) {
    Fields(c.eventId, c.evidenceHash, c.actorId, c.reference, c.idempotencyKey) in w.wellFormed
  }

  predicate CreateEventReads(w: World, t: Tables, i: CreateInput, r: Record, e: Event) {
    var c := e.content;
    && ContinuesLog(w, t.events, r, e) && PayloadSealed(w, c) && c.eventId == i.candidateEventId
    && c.action == Create && c.status == Recorded && c.actorRole == Allocator && c.actorId == i.actorId
    && c.reference == i.contractReference && c.evidenceHash == i.evidenceHash && c.acceptedAt == i.acceptedAt
    && c.idempotencyKey == i.idempotencyKey && c.previousAllocationEventHash == ZERO_HASH
  }

  /** What a creation writes. */
  ghost predicate CreateReads(w: World, t: Tables, i: CreateInput, r: Record, e: Event) {
    && i.exitReviewId in t.reviews.records && CreateEventReads(w, t, i, r, e)
    && exists k, d :: 0 <= k && RecordReads(w, t, i, t.reviews.records[i.exitReviewId], k, d, r)
  }

  ghost predicate CreateFails(w: World, t: Tables, r: Record, e: Event, err: Error) {
    if !WellFormed(w, e.content) || r.content !in w.recordsWellFormed then err == InvalidField
    else (RecordTaken(t, r.content.allocationId, r.recordHash) || EventTaken(t.events, e)) && err == UniqueViolation
  }

  /** One event and one row more, and the record of the event. */
  ghost predicate Adds(t: Tables, m: Mutation) {
    var r, e := m.allocation.record, m.event;
    && RowCopies(m.allocation.state, r, e)
    && m.tables == Tables(t.reviews, t.records[r.content.allocationId := r], t.events + [e],
                          t.states + [m.allocation.state])
  }

  /** The first event under the key again, with its allocation as it stands; nothing is written. */
  ghost predicate FindsAgain(t: Tables, key: string, k: nat, m: Mutation) {
    && FirstUnder(t.events, key, k) && t.events[k] == m.event && m.tables == t && m.duplicate
    && m.event.content.allocationId in t.records && m.allocation.record == t.records[m.event.content.allocationId]
    && exists j :: 0 <= j < |t.events| && LastOf(t.events, m.event.content.allocationId, j)
                   && RowCopies(m.allocation.state, m.allocation.record, t.events[j])
  }

  /** The event and its record are what this creation asks for. */
  predicate AsksCreate(i: CreateInput, e: AllocationEventContent, c: AllocationContent) {
    && e.action == Create && e.actorId == i.actorId && c.exitReviewId == i.exitReviewId
    && c.exitVerificationEventHash == i.verificationHash && c.decisionMode == i.decisionMode
    && c.transferId == i.transferId && c.contractReference == i.contractReference
    && c.contractTermsHash == i.contractTermsHash && c.evidenceHash == i.evidenceHash
    && match i.decisionMode
       case NoTransfer => c.transferCompletionEventHash == ZERO_HASH && c.beneficiaryId == i.beneficiaryId
       case CompletedTransfer => c.transferCompletionEventHash == i.completionHash
  }

  ghost predicate RepeatAnswer(t: Tables, key: string, k: nat, asked: bool, result: Result<Mutation>) {
    && FirstUnder(t.events, key, k)
    && if asked then result.Ok? && FindsAgain(t, key, k, result.value) else result == Err(IdempotencyConflict)
  }

  /** The answer to a creation. */
  ghost predicate CreateAnswer(w: World, t: Tables, i: CreateInput, result: Result<Mutation>) {
    if KeyUsed(t.events, i.idempotencyKey) then
      exists k :: 0 <= k < |t.events| && t.events[k].content.allocationId in t.records
                  && RepeatAnswer(t, i.idempotencyKey, k,
                                  AsksCreate(i, t.events[k].content,
                                             t.records[t.events[k].content.allocationId].content), result)
    else if result.Err? then
      || CreateBlockedAs(w, t, i, result.error)
      || ((forall x :: !CreateBlockedAs(w, t, i, x))
          && exists r, e :: CreateReads(w, t, i, r, e) && CreateFails(w, t, r, e, result.error))
    else
      var m := result.value;
      && (forall x :: !CreateBlockedAs(w, t, i, x) && !CreateFails(w, t, m.allocation.record, m.event, x))
      && !m.duplicate && CreateReads(w, t, i, m.allocation.record, m.event) && Adds(t, m)
  }

  lemma FoundAgain(w: World, t: Tables, key: string, k: nat, a: Allocation)
    requires Orderly(w, t) && FirstUnder(t.events, key, k)
    requires AllocationById(t, t.events[k].content.allocationId) == Some(a)
    ensures FindsAgain(t, key, k, Mutation(t.events[k], a, true, t))
  {
    hide Orderly, RowCopies;
    var j := AllocationReads(w, t, t.events[k].content.allocationId);
  }

  lemma KeyedRecord(w: World, t: Tables, k: nat)
    requires Orderly(w, t) && k < |t.events|
    ensures t.events[k].content.allocationId in t.records
    ensures AllocationById(t, t.events[k].content.allocationId).Some?
    ensures AllocationById(t, t.events[k].content.allocationId).value.record
            == t.records[t.events[k].content.allocationId]
  {
    hide ES.Sound;
    assert InPlace(t, k);
    var j := AllocationReads(w, t, t.events[k].content.allocationId);
  }

  lemma SameCreateMeans(i: CreateInput, e: Event, r: Record)
    ensures SameCreate(i, e, r) <==> AsksCreate(i, e.content, r.content)
  {
  }

  lemma CreateRepeatAnswers(w: World, t: Tables, i: CreateInput)
    requires Orderly(w, t) && KeyUsed(t.events, i.idempotencyKey)
    ensures CreateAnswer(w, t, i, Creating(w, t, i))
  {
    hide Orderly, CreatingFor, FindsAgain, SameCreate, AsksCreate;
    var k := KeyMeans(t.events, i.idempotencyKey);
    KeyedRecord(w, t, k);
    SameCreateMeans(i, t.events[k], t.records[t.events[k].content.allocationId]);
    FoundAgain(w, t, i.idempotencyKey, k, AllocationById(t, t.events[k].content.allocationId).value);
    assert RepeatAnswer(t, i.idempotencyKey, k,
                        AsksCreate(i, t.events[k].content, t.records[t.events[k].content.allocationId].content),
                        Creating(w, t, i));
  }

  /** What `ExactReview` finds, in raw terms. */
  lemma StandingFound(w: World, t: Tables, id: string, hash: string) returns (k: nat)
    requires RS.LogOk(w.r, t.reviews)
    ensures ExactReview(t, id, hash).Some? <==> Verified(t, id, hash)
    ensures var v := ExactReview(t, id, hash);
            v.Some? ==>
              && TA.Stands(t, id, hash, k) && v.value.event == t.reviews.events[k]
              && v.value.event.content.eventIndex == k + 1
              && id in t.reviews.records && v.value.review.record == t.reviews.records[id]
              && v.value.review.record.content.reviewId == id
  {
    hide RS.LogOk, ExactReview;
    k := RA.LastMeans(t.reviews.events, id);
    TA.StandingMeans(w, t, id, hash);
    if Verified(t, id, hash) {
      RS.Readable(w.r, t.reviews, id);
      TA.StandingAt(w, t, id, hash, k);
      ReviewNumbered(w, t, k);
    }
  }

  lemma ReviewNumbered(w: World, t: Tables, k: nat)
    requires RS.LogOk(w.r, t.reviews) && k < |t.reviews.events|
    ensures t.reviews.events[k].content.eventIndex == k + 1
  {
    hide RS.Projected, R.EventVerifies;
    RS.IndexesContiguous(w.r, t.reviews);
  }

  lemma ClockOfSources(t: Tables, i: CreateInput, x: R.Record, k: nat, rows: A.Rows)
    requires O.Ok(TransfersIn(t)) && TA.Stands(t, i.exitReviewId, i.verificationHash, k)
    requires SB.IdsUnique(t.reviews.sources.settlements)
    requires |rows.sources| == |x.settlements|
    requires forall j :: 0 <= j < |rows.sources| ==> rows.sources[j].settlementId == x.settlements[j].settlementId
    ensures SourceClock(t, i.acceptedAt, t.reviews.events[k], rows.sources) <==> !Untimely(t, i, x)
  {
    hide O.HistoriesLegal, O.OneOpen, O.DaysOrdered, O.CompletionKept, O.RowsKept, O.RecordsKept, O.CompletedIsLast;
    var log, settled := TransfersIn(t).events, t.reviews.sources.settlements;
    var n := |log|;
    assert n > 0 ==> forall j :: 0 <= j < n ==> log[j].acceptedAt <= log[n - 1].acceptedAt;
    forall j | 0 <= j < |rows.sources| && rows.sources[j].settlementId in SettledIn(t)
      ensures exists m :: 0 <= m < |settled| && settled[m] == SettledIn(t)[rows.sources[j].settlementId]
                          && Frozen(x, settled[m])
    {
      var m := SB.ByIdIn(settled, rows.sources[j].settlementId);
      assert x.settlements[j].settlementId == settled[m].settlementId;
    }
    forall m | 0 <= m < |settled| && Frozen(x, settled[m])
      ensures exists j :: 0 <= j < |rows.sources| && rows.sources[j].settlementId in SettledIn(t)
                          && SettledIn(t)[rows.sources[j].settlementId] == settled[m]
    {
      SB.ByIdFinds(settled, m);
      var j :| 0 <= j < |x.settlements| && x.settlements[j].settlementId == settled[m].settlementId;
      assert rows.sources[j].settlementId == settled[m].settlementId;
    }
  }

  lemma PaysMeans(w: World, t: Tables, x: R.Record, d: Decision, rows: A.Rows)
    requires SB.IdsUnique(t.reviews.sources.settlements)
    ensures A.Derived(SettledIn(t), x.content.groupId, x.settlements, d.beneficiaryType, d.beneficiaryId) == Some(rows)
            <==> Pays(t, x, d, rows)
    ensures Pays(t, x, d, rows) ==>
              && |rows.sources| == |x.settlements|
              && forall j :: 0 <= j < |rows.sources| ==> rows.sources[j].settlementId == x.settlements[j].settlementId
  {
    hide A.Derived, DrawsFrom;
    DerivedMeans(t.reviews.sources.settlements, x.content.groupId, x.settlements, d.beneficiaryType, d.beneficiaryId,
                 rows);
    if Pays(t, x, d, rows) {
      forall j | 0 <= j < |rows.sources|
        ensures rows.sources[j].settlementId == x.settlements[j].settlementId
      {
        DrawnId(t.reviews.sources.settlements, x.content.groupId, x.settlements[j], rows.sources[j]);
      }
    }
  }

  lemma DrawnId(rows: seq<SB.Settled>, group: string, b: SettlementBoundary, s: SettlementSource)
    requires DrawsFrom(rows, group, b, s)
    ensures s.settlementId == b.settlementId
  {
  }

  /** The record of a creation says what it is made of. */
  lemma RecordForReads(w: World, t: Tables, i: CreateInput, v: Standing, k: nat, d: Decision, rows: A.Rows)
    requires TA.Stands(t, i.exitReviewId, i.verificationHash, k) && v.event == t.reviews.events[k]
    requires v.event.content.eventIndex == k + 1 && v.review.record.content.reviewId == i.exitReviewId
    requires Decided(w, t, i, v.review.record, d) && Pays(t, v.review.record, d, rows) && O.Ok(TransfersIn(t))
    ensures RecordReads(w, t, i, v.review.record, k, d, RecordFor(w, TransfersIn(t), v, d, rows, i))
  {
    hide O.Ok, Decided, Pays;
    TA.OrderedEvents(TransfersIn(t));
  }

  lemma CreateEventFor(w: World, t: Tables, i: CreateInput, r: Record)
    requires HeadIndex(t.events) == |t.events|
    ensures CreateEventReads(w, t, i, r, SealedEvent(w, CreateContent(w, t, r, i)))
  {
  }

  lemma CreatesOrFails(w: World, t: Tables, v: Standing, i: CreateInput, d: Decision, rows: A.Rows)
    requires Decide(w, TransfersIn(t), v.review.record, i.decisionMode, i.transferId, i.completionHash, i.beneficiaryId)
             == Some(d)
    requires var x := v.review.record;
             A.Derived(SettledIn(t), x.content.groupId, x.settlements, d.beneficiaryType, d.beneficiaryId) == Some(rows)
    requires SourceClock(t, i.acceptedAt, v.event, rows.sources) && !KeyUsed(t.events, i.idempotencyKey)
    ensures var r := RecordFor(w, TransfersIn(t), v, d, rows, i);
            var e := SealedEvent(w, CreateContent(w, t, r, i));
            match CreatingFor(w, t, v, i)
            case Err(x) => CreateFails(w, t, r, e, x)
            case Ok(m) =>
              && m.event == e && m.allocation.record == r && !m.duplicate && Adds(t, m)
              && forall x :: !CreateFails(w, t, r, e, x)
  {
    hide Decide, A.Derived, SourceClock, RecordFor;
  }

  /** What a creation answers for a review that stands. */
  lemma CreatingForAnswers(w: World, t: Tables, v: Standing, i: CreateInput, k: nat)
    requires O.Ok(TransfersIn(t)) && SB.IdsUnique(t.reviews.sources.settlements) && LogInPlace(t)
    requires TA.Stands(t, i.exitReviewId, i.verificationHash, k) && v.event == t.reviews.events[k]
    requires v.event.content.eventIndex == k + 1 && v.review.record.content.reviewId == i.exitReviewId
    requires i.exitReviewId in t.reviews.records && v.review.record == t.reviews.records[i.exitReviewId]
    requires !KeyUsed(t.events, i.idempotencyKey)
    ensures var x := v.review.record;
            match CreatingFor(w, t, v, i)
            case Ok(m) =>
              && !m.duplicate && Adds(t, m) && CreateReads(w, t, i, m.allocation.record, m.event)
              && forall err :: !BlockedOn(w, t, i, x, err) && !CreateFails(w, t, m.allocation.record, m.event, err)
            case Err(err) =>
              || BlockedOn(w, t, i, x, err)
              || ((forall y :: !BlockedOn(w, t, i, x, y))
                  && exists r, e :: CreateReads(w, t, i, r, e) && CreateFails(w, t, r, e, err))
  {
    hide O.Ok, SB.IdsUnique, LogInPlace, Decide, A.Derived, SourceClock, Untimely, RecordReads, CreateEventReads,
         CreateFails, Adds, RecordFor, SealedEvent, CreateContent;
    var x := v.review.record;
    forall d
      ensures Decide(w, TransfersIn(t), x, i.decisionMode, i.transferId, i.completionHash, i.beneficiaryId) == Some(d)
              <==> Decided(w, t, i, x, d)
    {
      DecideMeans(w, TransfersIn(t), x, i.decisionMode, i.transferId, i.completionHash, i.beneficiaryId, d);
    }
    var decision := Decide(w, TransfersIn(t), x, i.decisionMode, i.transferId, i.completionHash, i.beneficiaryId);
    if decision.Some? {
      var d := decision.value;
      forall rows
        ensures Pays(t, x, d, rows)
                <==> A.Derived(SettledIn(t), x.content.groupId, x.settlements, d.beneficiaryType, d.beneficiaryId)
                     == Some(rows)
      {
        PaysMeans(w, t, x, d, rows);
      }
      var money := A.Derived(SettledIn(t), x.content.groupId, x.settlements, d.beneficiaryType, d.beneficiaryId);
      if money.Some? {
        PaysMeans(w, t, x, d, money.value);
        ClockOfSources(t, i, x, k, money.value);
        var r := RecordFor(w, TransfersIn(t), v, d, money.value, i);
        RecordForReads(w, t, i, v, k, d, money.value);
        HeadNumbered(t);
        CreateEventFor(w, t, i, r);
        assert CreateReads(w, t, i, r, SealedEvent(w, CreateContent(w, t, r, i)));
        if SourceClock(t, i.acceptedAt, v.event, money.value.sources) {
          CreatesOrFails(w, t, v, i, d, money.value);
        }
      }
    }
  }

  lemma SourcesSound(w: World, t: Tables)
    requires ES.Sound(w, t)
    ensures O.Ok(TransfersIn(t)) && SB.IdsUnique(t.reviews.sources.settlements) && RS.LogOk(w.r, t.reviews)
    ensures forall id :: id in t.records ==> t.records[id].content.allocationId == id
  {
    S.IdsFromRows(R.SettingOf(w.r), t.reviews.sources);
    TA.SourcesOk(w, t);
  }

  lemma CreateFreshAnswers(w: World, t: Tables, i: CreateInput)
    requires RS.LogOk(w.r, t.reviews) && O.Ok(TransfersIn(t)) && SB.IdsUnique(t.reviews.sources.settlements)
    requires LogInPlace(t)
    requires !KeyUsed(t.events, i.idempotencyKey) && FindByKey(t.events, i.idempotencyKey).None?
    ensures CreateAnswer(w, t, i, Creating(w, t, i))
  {
    hide O.Ok, RS.LogOk, LogInPlace, CreatingFor, BlockedOn, CreateReads, CreateFails, Adds, ExactReview, Verified,
         SB.IdsUnique, ClockGuard;
    ClockMeans(w, t, i.acceptedAt);
    var k := StandingFound(w, t, i.exitReviewId, i.verificationHash);
    var v := ExactReview(t, i.exitReviewId, i.verificationHash);
    if v.Some? {
      CreatingForAnswers(w, t, v.value, i, k);
    }
  }

  /** What `CreateExitAllocation` answers to any request, in every state that a run reaches. */
  lemma CreateAnswers(w: World, t: Tables, i: CreateInput)
    requires Orderly(w, t)
    ensures CreateAnswer(w, t, i, Creating(w, t, i))
  {
    hide ES.Sound, LogInPlace, Creating, CreateAnswer;
    var k := KeyMeans(t.events, i.idempotencyKey);
    if KeyUsed(t.events, i.idempotencyKey) {
      CreateRepeatAnswers(w, t, i);
    } else {
      SourcesSound(w, t);
      CreateFreshAnswers(w, t, i);
    }
  }

  // ---------------------------------------------------------------- verifying

  /** What the record pins is decided and paid again. */
  ghost predicate StillDue(w: World, t: Tables, x: R.Record, r: Record) {
    var c := r.content;
    DecisionIs(w, TransfersIn(t), x, c.decisionMode, c.transferId, c.transferCompletionEventHash,
               if c.decisionMode == CompletedTransfer then "" else c.beneficiaryId,
               Decision(c.beneficiaryType, c.beneficiaryId, c.transferCompletionEventIndex,
                        c.transferCompletionEventHash))
  }

  ghost predicate StillPays(t: Tables, x: R.Record, r: Record) {
    RowsAre(t.reviews.sources.settlements, x.content.groupId, x.settlements, r.content.beneficiaryType,
            r.content.beneficiaryId, r.rows)
  }

  /** Why a verification of an allocation that stands at event `k` is refused, if it is. */
  ghost predicate VerifyBlockedAt(w: World, t: Tables, k: nat, r: Record, err: Error)
    requires k < |t.events|
  {
    if t.events[k].content.action != Create || t.events[k].content.status != Recorded then err == InvalidTransition
    else if !Verified(t, r.content.exitReviewId, r.content.exitVerificationEventHash) then err == ExitBoundary
    else if !StillDue(w, t, t.reviews.records[r.content.exitReviewId], r) then err == TransferBoundary
    else !StillPays(t, t.reviews.records[r.content.exitReviewId], r) && err == Conservation
  }

  predicate VerifyEventReads(w: World, t: Tables, i: VerifyInput, r: Record, k: nat, e: Event)
    requires k < |t.events|
  {
    var c := e.content;
    && ContinuesLog(w, t.events, r, e) && c.eventId == i.candidateEventId && c.action == VerifyFinal
    && c.status == VerifiedFinal && c.actorRole == RegistryVerifier && c.actorId == i.actorId
    && c.reference == i.reference && c.evidenceHash == i.evidenceHash && c.idempotencyKey == i.idempotencyKey
    && c.payloadHash == i.payloadHash && c.acceptedAt == i.acceptedAt
    && c.previousAllocationEventHash == t.events[k].eventHash
  }

  ghost predicate VerifyFails(w: World, t: Tables, e: Event, err: Error) {
    if !WellFormed(w, e.content) then err == InvalidField else EventTaken(t.events, e) && err == UniqueViolation
  }

  /** The event is the one that this verification asks for. */
  predicate AsksVerify(i: VerifyInput, c: AllocationEventContent) {
    && c.allocationId == i.allocationId && c.action == VerifyFinal && c.actorId == i.actorId
    && c.reference == i.reference && c.evidenceHash == i.evidenceHash && c.payloadHash == i.payloadHash
  }

  /** The answer to a verification of an allocation that stands at event `k`. */
  ghost predicate VerifyAnswerAt(w: World, t: Tables, i: VerifyInput, k: nat, result: Result<Mutation>) {
    && LastOf(t.events, i.allocationId, k) && i.allocationId in t.records
    && var r := t.records[i.allocationId];
       match result
       case Err(err) =>
         || VerifyBlockedAt(w, t, k, r, err)
         || ((forall y :: !VerifyBlockedAt(w, t, k, r, y))
             && exists e :: VerifyEventReads(w, t, i, r, k, e) && VerifyFails(w, t, e, err))
       case Ok(m) =>
         && (forall y :: !VerifyBlockedAt(w, t, k, r, y) && !VerifyFails(w, t, m.event, y))
         && !m.duplicate && m.allocation.record == r && VerifyEventReads(w, t, i, r, k, m.event) && Adds(t, m)
  }

  /** The answer to a verification. */
  ghost predicate VerifyAnswer(w: World, t: Tables, i: VerifyInput, result: Result<Mutation>) {
    if KeyUsed(t.events, i.idempotencyKey) then
      exists k :: 0 <= k < |t.events|
                  && RepeatAnswer(t, i.idempotencyKey, k, AsksVerify(i, t.events[k].content), result)
    else if i.acceptedAt < w.r.createdAt then result == Err(AcceptedAtBeforeIdentity)
    else if Later(t.events, i.acceptedAt) then result == Err(ClockBeforeHead)
    else if i.allocationId !in t.records then result == Err(NotFound)
    else exists k :: 0 <= k && VerifyAnswerAt(w, t, i, k, result)
  }

  lemma SameVerifyMeans(i: VerifyInput, e: Event)
    ensures SameVerify(i, e) <==> AsksVerify(i, e.content)
  {
  }

  lemma VerifyRepeatAnswers(w: World, t: Tables, i: VerifyInput)
    requires Orderly(w, t) && KeyUsed(t.events, i.idempotencyKey)
    ensures VerifyAnswer(w, t, i, Verifying(w, t, i))
  {
    hide Orderly, VerifyingFor, FindsAgain, SameVerify, AsksVerify;
    var k := KeyMeans(t.events, i.idempotencyKey);
    KeyedRecord(w, t, k);
    SameVerifyMeans(i, t.events[k]);
    FoundAgain(w, t, i.idempotencyKey, k, AllocationById(t, t.events[k].content.allocationId).value);
    assert RepeatAnswer(t, i.idempotencyKey, k, AsksVerify(i, t.events[k].content), Verifying(w, t, i));
  }

  lemma VerifiesOrFails(w: World, t: Tables, v: Standing, a: Allocation, i: VerifyInput, k: nat)
    requires HeadIndex(t.events) == |t.events| && !KeyUsed(t.events, i.idempotencyKey)
    requires k < |t.events| && RowCopies(a.state, a.record, t.events[k])
    requires var c := a.record.content;
             Decide(w, TransfersIn(t), v.review.record, c.decisionMode, c.transferId, c.transferCompletionEventHash,
                    if c.decisionMode == CompletedTransfer then "" else c.beneficiaryId)
             == Some(Decision(c.beneficiaryType, c.beneficiaryId, c.transferCompletionEventIndex,
                              c.transferCompletionEventHash))
    requires var c, x := a.record.content, v.review.record;
             A.Derived(SettledIn(t), x.content.groupId, x.settlements, c.beneficiaryType, c.beneficiaryId)
             == Some(a.record.rows)
    ensures var e := SealedEvent(w, VerifyContent(w, t, a, i));
            && (a.record.content.allocationId == i.allocationId ==> VerifyEventReads(w, t, i, a.record, k, e))
            && match VerifyingFor(w, t, v, a, i)
               case Err(x) => VerifyFails(w, t, e, x)
               case Ok(m) =>
                 && m.event == e && m.allocation.record == a.record && !m.duplicate && Adds(t, m)
                 && forall x :: !VerifyFails(w, t, e, x)
  {
    hide Decide, A.Derived;
  }

  lemma StillMeans(w: World, t: Tables, x: R.Record, r: Record)
    requires O.Ok(TransfersIn(t)) && SB.IdsUnique(t.reviews.sources.settlements)
    ensures var c := r.content;
            && (StillDue(w, t, x, r)
                <==> Decide(w, TransfersIn(t), x, c.decisionMode, c.transferId, c.transferCompletionEventHash,
                            if c.decisionMode == CompletedTransfer then "" else c.beneficiaryId)
                     == Some(Decision(c.beneficiaryType, c.beneficiaryId, c.transferCompletionEventIndex,
                                      c.transferCompletionEventHash)))
            && (StillPays(t, x, r)
                <==> A.Derived(SettledIn(t), x.content.groupId, x.settlements, c.beneficiaryType, c.beneficiaryId)
                     == Some(r.rows))
  {
    hide Decide, A.Derived, O.Ok, SB.IdsUnique, DecisionIs, RowsAre;
    var c := r.content;
    DecideMeans(w, TransfersIn(t), x, c.decisionMode, c.transferId, c.transferCompletionEventHash,
                if c.decisionMode == CompletedTransfer then "" else c.beneficiaryId,
                Decision(c.beneficiaryType, c.beneficiaryId, c.transferCompletionEventIndex,
                         c.transferCompletionEventHash));
    DerivedMeans(t.reviews.sources.settlements, x.content.groupId, x.settlements, c.beneficiaryType, c.beneficiaryId,
                 r.rows);
  }

  lemma VerifyingForAnswers(w: World, t: Tables, v: Standing, a: Allocation, i: VerifyInput, k: nat)
    requires O.Ok(TransfersIn(t)) && SB.IdsUnique(t.reviews.sources.settlements) && HeadIndex(t.events) == |t.events|
    requires !KeyUsed(t.events, i.idempotencyKey) && LastOf(t.events, i.allocationId, k)
    requires RowCopies(a.state, a.record, t.events[k]) && a.state.status == Recorded && a.state.action == Create
    requires i.allocationId in t.records && a.record == t.records[i.allocationId]
    requires a.record.content.allocationId == i.allocationId
    requires Verified(t, a.record.content.exitReviewId, a.record.content.exitVerificationEventHash)
    requires a.record.content.exitReviewId in t.reviews.records
    requires v.review.record == t.reviews.records[a.record.content.exitReviewId]
    ensures VerifyAnswerAt(w, t, i, k, VerifyingFor(w, t, v, a, i))
  {
    hide O.Ok, SB.IdsUnique, Decide, A.Derived, StillDue, StillPays, Verified, VerifyEventReads, VerifyFails, Adds,
         SealedEvent, VerifyContent;
    var c, x := a.record.content, v.review.record;
    StillMeans(w, t, x, a.record);
    if StillDue(w, t, x, a.record) && StillPays(t, x, a.record) {
      VerifiesOrFails(w, t, v, a, i, k);
    }
  }

  lemma VerifyFreshAnswers(w: World, t: Tables, i: VerifyInput)
    requires Orderly(w, t) && !KeyUsed(t.events, i.idempotencyKey) && FindByKey(t.events, i.idempotencyKey).None?
    ensures VerifyAnswer(w, t, i, Verifying(w, t, i))
  {
    hide ES.Sound, O.Ok, RS.LogOk, LogInPlace, VerifyingFor, SB.IdsUnique, ClockGuard, AllocationById;
    SourcesSound(w, t);
    ClockMeans(w, t, i.acceptedAt);
    HeadNumbered(t);
    if ClockGuard(w, t, i.acceptedAt).None? && i.allocationId in t.records {
      var k := AllocationReads(w, t, i.allocationId);
      VerifyAtAnswers(w, t, i, k);
    } else if i.allocationId !in t.records {
      NotThere(t, i.allocationId);
    }
  }

  lemma NotThere(t: Tables, id: string)
    requires id !in t.records
    ensures AllocationById(t, id).None?
  {
  }

  lemma VerifyAtAnswers(w: World, t: Tables, i: VerifyInput, k: nat)
    requires RS.LogOk(w.r, t.reviews) && O.Ok(TransfersIn(t)) && SB.IdsUnique(t.reviews.sources.settlements)
    requires HeadIndex(t.events) == |t.events|
    requires !KeyUsed(t.events, i.idempotencyKey) && FindByKey(t.events, i.idempotencyKey).None?
    requires i.allocationId in t.records && LastOf(t.events, i.allocationId, k) && k < |t.states|
    requires AllocationById(t, i.allocationId) == Some(Allocation(t.records[i.allocationId], t.states[k]))
    requires RowCopies(t.states[k], t.records[i.allocationId], t.events[k])
    requires t.records[i.allocationId].content.allocationId == i.allocationId && ClockGuard(w, t, i.acceptedAt).None?
    ensures VerifyAnswerAt(w, t, i, k, Verifying(w, t, i))
  {
    hide O.Ok, RS.LogOk, VerifyingFor, SB.IdsUnique, ClockGuard, ExactReview, Verified, StillDue, StillPays,
         VerifyEventReads, VerifyFails, Adds;
    var a := Allocation(t.records[i.allocationId], t.states[k]);
    var c := a.record.content;
    if a.state.status == Recorded && a.state.action == Create {
      var j := StandingFound(w, t, c.exitReviewId, c.exitVerificationEventHash);
      var v := ExactReview(t, c.exitReviewId, c.exitVerificationEventHash);
      if v.Some? {
        VerifyingForAnswers(w, t, v.value, a, i, k);
      }
    }
  }

  /** What `VerifyExitAllocation` answers to any request, in every state that a run reaches. */
  lemma VerifyAnswers(w: World, t: Tables, i: VerifyInput)
    requires Orderly(w, t)
    ensures VerifyAnswer(w, t, i, Verifying(w, t, i))
  {
    hide Orderly, Verifying, VerifyAnswer;
    var k := KeyMeans(t.events, i.idempotencyKey);
    if KeyUsed(t.events, i.idempotencyKey) {
      VerifyRepeatAnswers(w, t, i);
    } else {
      VerifyFreshAnswers(w, t, i);
    }
  }

  // ---------------------------------------------------------------- every run is orderly

  lemma AddsInPlace(t: Tables, m: Mutation)
    requires LogInPlace(t) && Adds(t, m) && Next(t, m.allocation.record, m.event)
    ensures LogInPlace(m.tables)
  {
    CopyIsState(m.allocation.state, m.allocation.record, m.event);
    WrittenInPlace(t, m.allocation.record, m.event);
  }

  lemma CopyIsState(row: StateRow, r: Record, e: Event)
    ensures RowCopies(row, r, e) <==> row == StateOf(r, e)
  {
  }

  lemma NotLater(t: Tables, at: int)
    requires !Later(t.events, at)
    ensures t.events != [] ==> t.events[|t.events| - 1].content.acceptedAt <= at
  {
  }

  lemma CreateInPlace(w: World, t: Tables, i: CreateInput)
    requires Orderly(w, t) && Creating(w, t, i).Ok?
    ensures LogInPlace(Creating(w, t, i).value.tables)
  {
    hide ES.Sound, LogInPlace, Creating, BlockedOn, CreateFails, RecordReads, Adds;
    var m := Creating(w, t, i).value;
    CreateAnswers(w, t, i);
    if !KeyUsed(t.events, i.idempotencyKey) {
      NotLater(t, i.acceptedAt) by {
        assert !CreateBlockedAs(w, t, i, ClockBeforeHead) && !CreateBlockedAs(w, t, i, AcceptedAtBeforeIdentity);
      }
      FreshId(w, t, m.allocation.record, m.event);
      CreatedId(w, t, i, m.allocation.record, m.event);
      AddsInPlace(t, m);
    }
  }

  lemma FreshId(w: World, t: Tables, r: Record, e: Event)
    requires forall x :: !CreateFails(w, t, r, e, x)
    ensures r.content.allocationId !in t.records
  {
    assert !CreateFails(w, t, r, e, InvalidField) && !CreateFails(w, t, r, e, UniqueViolation);
  }

  lemma CreatedId(w: World, t: Tables, i: CreateInput, r: Record, e: Event)
    requires CreateReads(w, t, i, r, e)
    ensures e.content.eventIndex == |t.events| + 1 && e.content.allocationId == r.content.allocationId
    ensures e.content.acceptedAt == i.acceptedAt
  {
  }

  lemma VerifyInPlace(w: World, t: Tables, i: VerifyInput)
    requires Orderly(w, t) && Verifying(w, t, i).Ok?
    ensures LogInPlace(Verifying(w, t, i).value.tables)
  {
    hide ES.Sound, LogInPlace, Verifying, VerifyBlockedAt, VerifyFails, Adds;
    var m := Verifying(w, t, i).value;
    VerifyAnswers(w, t, i);
    if !KeyUsed(t.events, i.idempotencyKey) {
      SourcesSound(w, t);
      NotLater(t, i.acceptedAt);
      AddsInPlace(t, m);
    }
  }

  lemma StepOrderly(w: World, t: Tables, s: ES.Step)
    requires Orderly(w, t)
    ensures Orderly(w, ES.Apply(w, t, s))
  {
    hide ES.Sound, LogInPlace, RS.Apply, Creating, Verifying, TS.Preparing, TS.Advancing, ES.OnReviews;
    ES.StepSound(w, t, s);
    if s.AllocationCreate? {
      if Creating(w, t, s.create).Ok? { CreateInPlace(w, t, s.create); }
    } else if s.AllocationVerify? {
      if Verifying(w, t, s.verify).Ok? { VerifyInPlace(w, t, s.verify); }
    } else {
      ES.StepOnReviews(w, t, s);
      ES.OnReviewsSound(w, t, s, ES.Apply(w, t, s));
      SameLog(t, ES.Apply(w, t, s));
    }
  }

  lemma SameLog(t: Tables, u: Tables)
    requires LogInPlace(t) && u == t.(reviews := u.reviews)
    ensures LogInPlace(u)
  {
    forall i | 0 <= i < |u.events|
      ensures InPlace(u, i)
    {
      assert InPlace(t, i);
    }
    forall id | id in u.records
      ensures HasEvent(u, id)
    {
      assert HasEvent(t, id);
    }
  }

  lemma EmptyOrderly(w: World)
    ensures Orderly(w, Empty)
  {
    ES.EmptySound(w);
  }

  lemma {:induction false} RunOrderly(w: World, t: Tables, steps: seq<ES.Step>)
    requires Orderly(w, t)
    ensures Orderly(w, ES.Run(w, t, steps))
    decreases |steps|
  {
    hide ES.Apply, Orderly;
    if steps != [] {
      StepOrderly(w, t, steps[0]);
      RunOrderly(w, ES.Apply(w, t, steps[0]), steps[1..]);
    }
  }

  /** So every request in every run gets the answers above. */
  lemma AnswersInRuns(w: World, steps: seq<ES.Step>, t: Tables, c: CreateInput, v: VerifyInput)
    requires t == ES.Run(w, Empty, steps)
    ensures CreateAnswer(w, t, c, Creating(w, t, c)) && VerifyAnswer(w, t, v, Verifying(w, t, v))
  {
    hide ES.Run, Orderly, Creating, Verifying, CreateAnswer, VerifyAnswer;
    EmptyOrderly(w);
    RunOrderly(w, Empty, steps);
    CreateAnswers(w, t, c);
    VerifyAnswers(w, t, v);
  }
}
