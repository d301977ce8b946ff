/**
  The store of ownership transfers and final exit allocations: prepare and decide, create and verify, and
  the independent verification of records, events and query rows.
*/
module AllocationStore {
  import opened Basics
  import opened Protocol
  import R = ExitReview
  import A = AllocationRows
  import O = OwnershipTransfers
  import Src = ReviewSources
  import TS = TransferSteps
  import opened DecisionBoundary
  import opened ExitAllocation
  import opened AllocationReplay

  // ---------------------------------------------------------------- the event replay

  /** What the replay remembers of each allocation: its last event, and how many there were. */
  ghost predicate Tracks(events: seq<Event>, latest: map<string, Event>, counts: map<string, int>) {
    forall id {:trigger Last(events, id)} ::
      match Last(events, id)
      case None => id !in latest && id !in counts
      case Some(p) =>
        && id in latest && latest[id] == p && id in counts
        && counts[id] == if p.content.status == Recorded then 1 else 2
  }

  /** What the replay checks of one event. */
  predicate Checked(w: World, t: Tables, i: nat, previousHash: string, latest: map<string, Event>, seen: set<string>)
    requires i < |t.events|
  {
    var e := t.events[i];
    var id := e.content.allocationId;
    && id in t.records
    && (i > 0 ==> t.events[i - 1].content.acceptedAt <= e.content.acceptedAt)
    && Immutable(w, t.records[id], e, i + 1, previousHash)
    && e.content.idempotencyKey !in seen
    && Semantics(t.records[id], e.content, if id in latest then Some(latest[id]) else None)
  }

  ghost predicate Seen(events: seq<Event>, seen: set<string>) {
    forall key :: key in seen <==> HasKey(events, key)
  }

  ghost predicate HasKey(events: seq<Event>, key: string) {
    exists k :: 0 <= k < |events| && events[k].content.idempotencyKey == key
  }

  lemma KeyUnused(events: seq<Event>, i: nat, key: string)
    requires i <= |events|
    ensures HasKey(events[..i], key) <==> !(forall k :: 0 <= k < i ==> events[k].content.idempotencyKey != key)
  {
    var a := events[..i];
    if k :| 0 <= k < i && events[k].content.idempotencyKey == key {
      assert a[k].content.idempotencyKey == key;
    }
  }

  method CheckEvent(w: World, t: Tables, i: nat, previousHash: string, latest: map<string, Event>,
                    ghost counts: map<string, int>, seen: set<string>) returns (good: bool)
    requires i < |t.events| && previousHash == HeadHash(t.events[..i])
    requires Tracks(t.events[..i], latest, counts) && Seen(t.events[..i], seen)
    ensures good <==> EventVerifies(w, t, i)
  {
    KeyUnused(t.events, i, t.events[i].content.idempotencyKey);
    var before := Last(t.events[..i], t.events[i].content.allocationId);
    good := Checked(w, t, i, previousHash, latest, seen);
  }

  lemma TracksAppend(events: seq<Event>, e: Event, latest: map<string, Event>, counts: map<string, int>, count: int)
    requires Tracks(events, latest, counts)
    requires count == if e.content.status == Recorded then 1 else 2
    ensures Tracks(events + [e], latest[e.content.allocationId := e], counts[e.content.allocationId := count])
  {
    forall id
      ensures Last(events + [e], id) == if e.content.allocationId == id then Some(e) else Last(events, id)
    {
      LastAppended(events, e, id);
    }
  }

  /** An event that verifies is the first or the second of its allocation. */
  lemma TracksNext(w: World, t: Tables, i: nat, latest: map<string, Event>, counts: map<string, int>)
    requires i < |t.events| && EventVerifies(w, t, i) && Tracks(t.events[..i], latest, counts)
    ensures var e := t.events[i];
            var count := (if e.content.allocationId in counts then counts[e.content.allocationId] else 0) + 1;
            count <= 2
            && Tracks(t.events[..i + 1], latest[e.content.allocationId := e], counts[e.content.allocationId := count])
  {
    var e := t.events[i];
    var before := Last(t.events[..i], e.content.allocationId);
    PrefixNext(t.events, i);
    TracksAppend(t.events[..i], e, latest, counts, if before.None? then 1 else 2);
  }

  lemma SeenNext(events: seq<Event>, i: nat, seen: set<string>)
    requires i < |events| && Seen(events[..i], seen)
    ensures Seen(events[..i + 1], seen + {events[i].content.idempotencyKey})
  {
    forall key
      ensures key in seen + {events[i].content.idempotencyKey} <==> HasKey(events[..i + 1], key)
    {
      HasKeyNext(events, i, key);
    }
  }

  lemma HasKeyNext(events: seq<Event>, i: nat, key: string)
    requires i < |events|
    ensures HasKey(events[..i + 1], key) <==> HasKey(events[..i], key) || events[i].content.idempotencyKey == key
  {
    var a, b := events[..i], events[..i + 1];
    if HasKey(a, key) {
      var k :| 0 <= k < i && a[k].content.idempotencyKey == key;
      assert b[k].content.idempotencyKey == key;
    }
    if events[i].content.idempotencyKey == key {
      assert b[i].content.idempotencyKey == key;
    }
    if HasKey(b, key) && events[i].content.idempotencyKey != key {
      var k :| 0 <= k < i + 1 && b[k].content.idempotencyKey == key;
      assert a[k].content.idempotencyKey == key;
    }
  }

  /** The expected query rows of the first `n` events. */
  ghost predicate Expects(t: Tables, n: nat, expected: map<int, StateRow>)
    requires n <= |t.events|
  {
    && (forall index :: index in expected <==> 1 <= index <= n)
    && (forall i :: 0 <= i < n ==> ExpectsAt(t, i, expected))
  }

  ghost predicate ExpectsAt(t: Tables, i: nat, expected: map<int, StateRow>)
    requires i < |t.events|
  {
    && t.events[i].content.allocationId in t.records && i + 1 in expected
    && expected[i + 1] == StateOf(t.records[t.events[i].content.allocationId], t.events[i])
    && expected[i + 1].eventIndex == i + 1
  }

  lemma ExpectsNext(w: World, t: Tables, i: nat, expected: map<int, StateRow>)
    requires i < |t.events| && EventVerifies(w, t, i) && Expects(t, i, expected)
    ensures var e := t.events[i];
            Expects(t, i + 1, expected[e.content.eventIndex := StateOf(t.records[e.content.allocationId], e)])
  {
    var e := t.events[i];
    var next := expected[e.content.eventIndex := StateOf(t.records[e.content.allocationId], e)];
    forall k | 0 <= k < i + 1
      ensures ExpectsAt(t, k, next)
    {
      assert k < i ==> ExpectsAt(t, k, expected);
    }
  }

  method VerifiedEvents(w: World, t: Tables)
    returns (ok: bool, latest: map<string, Event>, expected: map<int, StateRow>)
    ensures ok <==> forall i :: 0 <= i < |t.events| ==> EventVerifies(w, t, i)
    ensures ok ==> (forall id :: id in latest <==> Last(t.events, id).Some?) && Expects(t, |t.events|, expected)
  {
    latest, expected := map[], map[];
    var counts: map<string, int>, seen: set<string> := map[], {};
    var i, previousHash := 0, ZERO_HASH;
    while i < |t.events|
      invariant 0 <= i <= |t.events| && previousHash == HeadHash(t.events[..i])
      invariant Tracks(t.events[..i], latest, counts) && Seen(t.events[..i], seen) && Expects(t, i, expected)
      invariant forall k :: 0 <= k < i ==> EventVerifies(w, t, k)
    {
      var e := t.events[i];
      var id := e.content.allocationId;
      var good := CheckEvent(w, t, i, previousHash, latest, counts, seen);
      if !good {
        return false, latest, expected;
      }
      TracksNext(w, t, i, latest, counts);
      SeenNext(t.events, i, seen);
      ExpectsNext(w, t, i, expected);
      var count := (if id in counts then counts[id] else 0) + 1;
      if count > 2 {
        return false, latest, expected;
      }
      counts, latest := counts[id := count], latest[id := e];
      seen := seen + {e.content.idempotencyKey};
      expected := expected[e.content.eventIndex := StateOf(t.records[id], e)];
      previousHash := e.eventHash;
      i := i + 1;
    }
    PrefixAll(t.events);
    return true, latest, expected;
  }

  method VerifyStateRows(t: Tables, expected: map<int, StateRow>) returns (ok: bool)
    requires Expects(t, |t.events|, expected)
    ensures ok <==> |t.states| == |t.events| && forall k :: 0 <= k < |t.states| ==> RowProjects(t, t.states[k])
  {
    var count := 0;
    while count < |t.states|
      invariant 0 <= count <= |t.states|
      invariant forall k :: 0 <= k < count ==> RowProjects(t, t.states[k])
    {
      var row := t.states[count];
      assert 1 <= row.eventIndex <= |t.events| ==> ExpectsAt(t, row.eventIndex - 1, expected);
      if row.eventIndex !in expected || row != expected[row.eventIndex] {
        assert !RowProjects(t, row);
        return false;
      }
      count := count + 1;
    }
    ExpectedSize(t, |t.events|, expected);
    return count == |expected|;
  }

  lemma {:induction false} ExpectedSize(t: Tables, n: nat, expected: map<int, StateRow>)
    requires n <= |t.events| && forall index :: index in expected <==> 1 <= index <= n
    ensures |expected| == n
  {
    if n > 0 {
      var less := expected - {n};
      ExpectedSize(t, n - 1, less);
      assert expected == less[n := expected[n]];
    } else {
      assert expected == map[];
    }
  }

  // ---------------------------------------------------------------- the store

  /** What a mutation is about to write. */
  datatype Draft = Draft(record: Record, event: Event)

  class Store {
    const w: World
    var reviews: R.Tables
    var records: map<string, Record>
    var events: seq<Event>
    var states: seq<StateRow>

    constructor (w: World)
      ensures Valid() && Contents() == Empty && this.w == w
    {
      this.w := w;
      reviews, records, events, states := R.Empty, map[], [], [];
    }

    function Contents(): Tables
      reads this
    {
      Tables(reviews, records, events, states)
    }

    /** The allocation ID is the primary key of the records. */
    ghost predicate Valid()
      reads this
    {
      forall id :: id in records ==> records[id].content.allocationId == id
    }

    /** Prepare a transfer of a claim whose exit review stands verified and has no allocation. */
    method PrepareOwnershipTransfer(i: TS.PrepareInput) returns (result: Result<TS.Outcome>)
      modifies this`reviews
      ensures result == TS.Preparing(w, old(Contents()), i) && Contents() == TS.After(old(Contents()), result)
    {
      var log := reviews.sources.transfers;
      var existing := O.FindByKey(log.events, i.idempotencyKey);
      if existing.Some? {
        var e := existing.value;
        if e.transferId !in log.records {
          return Err(NotFound);
        }
        if !TS.SamePrepare(i, log.records[e.transferId], e) {
          return Err(IdempotencyConflict);
        }
        return Ok(TS.Outcome(log.records[e.transferId], e, true));
      }
      var clock := TS.ClockGuardFor(w, log, i.acceptedAt);
      if clock.Some? {
        return Err(clock.value);
      }
      if i.sourceGroupId == i.targetGroupId {
        return Err(TargetGroup);
      }
      if O.Active(log, i.targetDeploymentId, i.claimActionId) || !Unallocated(Contents(), i.exitReviewId) {
        return Err(TransferConflict);
      }
      if !Src.ClaimCurrent(reviews.sources, i.targetDeploymentId, i.claimActionId, i.sourceGroupId) {
        return Err(ClaimBoundary);
      }
      if !TS.StandsFor(Contents(), i.exitReviewId, i.verificationHash, i.targetDeploymentId, i.claimActionId,
                       i.sourceGroupId) {
        return Err(ExitBoundary);
      }
      if !Src.TargetEligible(reviews.sources, i.targetGroupId) {
        return Err(TargetGroup);
      }
      var record, event := TS.PrepareRecord(i), TS.PrepareEvent(log, i);
      if record.transferId in log.records || !O.NewEvent(log, event) {
        return Err(UniqueViolation);
      }
      reviews := reviews.(sources := Src.Transferred(reviews.sources, record, event));
      return Ok(TS.Outcome(record, event, false));
    }

    /** A decision on a prepared transfer; a completion also writes the membership row. */
    method AppendOwnershipTransferEvent(i: TS.AdvanceInput) returns (result: Result<TS.Outcome>)
      modifies this`reviews
      ensures result == TS.Advancing(w, old(Contents()), i) && Contents() == TS.After(old(Contents()), result)
    {
      var log := reviews.sources.transfers;
      var existing := O.FindByKey(log.events, i.idempotencyKey);
      if existing.Some? {
        var e := existing.value;
        if e.transferId !in log.records {
          return Err(NotFound);
        }
        if !TS.SameAdvance(i, e) {
          return Err(IdempotencyConflict);
        }
        return Ok(TS.Outcome(log.records[e.transferId], e, true));
      }
      var clock := TS.ClockGuardFor(w, log, i.acceptedAt);
      if clock.Some? {
        return Err(clock.value);
      }
      var last := O.Last(log.events, i.transferId);
      if i.transferId !in log.records || last.None? {
        return Err(NotFound);
      }
      var record := log.records[i.transferId];
      var refused := TS.AdvanceGuard(Contents(), record, last.value, i);
      if refused.Some? {
        return Err(refused.value);
      }
      var event := TS.AdvanceEvent(log, i);
      if !O.NewEvent(log, event) {
        return Err(UniqueViolation);
      }
      reviews := reviews.(sources := Src.Transferred(reviews.sources, record, event));
      return Ok(TS.Outcome(record, event, false));
    }

    method CreateExitAllocation(i: CreateInput) returns (result: Result<Allocation>, duplicate: bool)
      requires Valid()
      modifies this
      ensures Valid()
      ensures match Creating(w, old(Contents()), i)
              case Ok(m) => result == Ok(m.allocation) && duplicate == m.duplicate && Contents() == m.tables
              case Err(e) => result == Err(e) && Contents() == old(Contents())
    {
      hide CreatingFor, VerifyingFor;
      var existing := FindByKey(events, i.idempotencyKey);
      if existing.Some? {
        var current := AllocationById(Contents(), existing.value.content.allocationId);
        if current.None? {
          return Err(NotFound), false;
        }
        if !SameCreate(i, existing.value, current.value.record) {
          return Err(IdempotencyConflict), false;
        }
        return Ok(current.value), true;
      }
      var drafted := DraftCreation(i);
      if drafted.Err? {
        return Err(drafted.error), false;
      }
      var record, event := drafted.value.record, drafted.value.event;
      records := records[record.content.allocationId := record];
      events := events + [event];
      states := states + [StateOf(record, event)];
      return Ok(Allocation(record, StateOf(record, event))), false;
    }

    /** The mutation that writes a draft. */
    function MutationOf(d: Draft): Mutation
      reads this
    {
      Mutation(d.event, Allocation(d.record, StateOf(d.record, d.event)), false, Written(Contents(), d.record, d.event))
    }

    /** The record and event of a new creation, or the reason why there is none. */
    method DraftCreation(i: CreateInput) returns (r: Result<Draft>)
      requires FindByKey(events, i.idempotencyKey).None?
      ensures match Creating(w, Contents(), i)
              case Ok(m) => r.Ok? && m == MutationOf(r.value)
              case Err(e) => r == Err(e)
    {
      var clock := ClockGuard(w, Contents(), i.acceptedAt);
      if clock.Some? {
        return Err(clock.value);
      }
      if !Unallocated(Contents(), i.exitReviewId) {
        return Err(AlreadyExists);
      }
      var standing := ExactReview(Contents(), i.exitReviewId, i.verificationHash);
      if standing.None? {
        return Err(ExitBoundary);
      }
      r := DraftFor(standing.value, i);
    }

    /** The record and event of a creation for a standing review, or the reason why there is none. */
    method DraftFor(v: Standing, i: CreateInput) returns (r: Result<Draft>)
      ensures match CreatingFor(w, Contents(), v, i)
              case Ok(m) => r.Ok? && m == MutationOf(r.value)
              case Err(e) => r == Err(e)
    {
      var review := v.review.record;
      var decision := Decide(w, TransfersIn(Contents()), review, i.decisionMode, i.transferId, i.completionHash,
                             i.beneficiaryId);
      if decision.None? {
        return Err(TransferBoundary);
      }
      var rows := A.DeriveRows(SettledIn(Contents()), review.content.groupId, review.settlements,
                               decision.value.beneficiaryType, decision.value.beneficiaryId);
      if rows.Err? {
        return Err(Conservation);
      }
      if !SourceClock(Contents(), i.acceptedAt, v.event, rows.value.sources) {
        return Err(ClockBeforeHead);
      }
      var record := RecordFor(w, TransfersIn(Contents()), v, decision.value, rows.value, i);
      var event := SealedEvent(w, CreateContent(w, Contents(), record, i));
      if FieldsOf(event.content) !in w.wellFormed || record.content !in w.recordsWellFormed {
        return Err(InvalidField);
      }
      if !NewRecord(Contents(), record) || !NewEvent(Contents(), event) {
        return Err(UniqueViolation);
      }
      return Ok(Draft(record, event));
    }

    method VerifyExitAllocation(i: VerifyInput) returns (result: Result<Allocation>, duplicate: bool)
      requires Valid()
      modifies this
      ensures Valid()
      ensures match Verifying(w, old(Contents()), i)
              case Ok(m) => result == Ok(m.allocation) && duplicate == m.duplicate && Contents() == m.tables
              case Err(e) => result == Err(e) && Contents() == old(Contents())
    {
      hide CreatingFor, VerifyingFor;
      var existing := FindByKey(events, i.idempotencyKey);
      if existing.Some? {
        var stored := AllocationById(Contents(), existing.value.content.allocationId);
        if stored.None? {
          return Err(NotFound), false;
        }
        if !SameVerify(i, existing.value) {
          return Err(IdempotencyConflict), false;
        }
        return Ok(stored.value), true;
      }
      var clock := ClockGuard(w, Contents(), i.acceptedAt);
      if clock.Some? {
        return Err(clock.value), false;
      }
      var found := AllocationById(Contents(), i.allocationId);
      if found.None? {
        return Err(NotFound), false;
      }
      var current := found.value;
      if current.state.status != Recorded || current.state.action != Create {
        return Err(InvalidTransition), false;
      }
      var c := current.record.content;
      var standing := ExactReview(Contents(), c.exitReviewId, c.exitVerificationEventHash);
      if standing.None? {
        return Err(ExitBoundary), false;
      }
      var drafted := DraftVerification(standing.value, current, i);
      if drafted.Err? {
        return Err(drafted.error), false;
      }
      var event := drafted.value.event;
      assert records[i.allocationId := current.record] == records;
      events := events + [event];
      states := states + [StateOf(current.record, event)];
      return Ok(Allocation(current.record, StateOf(current.record, event))), false;
    }

    /** The event of a verification against a standing review, or the reason why there is none. */
    method DraftVerification(v: Standing, current: Allocation, i: VerifyInput) returns (r: Result<Draft>)
      ensures match VerifyingFor(w, Contents(), v, current, i)
              case Ok(m) => r.Ok? && r.value.record == current.record && m == MutationOf(r.value)
              case Err(e) => r == Err(e)
    {
      var review, c := v.review.record, current.record.content;
      var decision := Decide(w, TransfersIn(Contents()), review, c.decisionMode, c.transferId,
                             c.transferCompletionEventHash,
                             if c.decisionMode == CompletedTransfer then "" else c.beneficiaryId);
      if decision != Some(Decision(c.beneficiaryType, c.beneficiaryId, c.transferCompletionEventIndex,
                                   c.transferCompletionEventHash)) {
        return Err(TransferBoundary);
      }
      var rows := A.DeriveRows(SettledIn(Contents()), review.content.groupId, review.settlements, c.beneficiaryType,
                               c.beneficiaryId);
      if rows != A.Ok(current.record.rows) {
        return Err(Conservation);
      }
      var event := SealedEvent(w, VerifyContent(w, Contents(), current, i));
      if FieldsOf(event.content) !in w.wellFormed {
        return Err(InvalidField);
      }
      if !NewEvent(Contents(), event) {
        return Err(UniqueViolation);
      }
      return Ok(Draft(current.record, event));
    }

    method VerifyRecord(id: string) returns (ok: bool)
      requires id in records
      ensures ok <==> RecordVerifies(w, Contents(), id)
    {
      var r := records[id];
      if !(r.content.allocationId == id && r.content.scope == w.r.scope && r.content.registryKeyId == w.r.keyId
           && r.content in w.recordsWellFormed && r == SealedRecord(w, r.content, r.rows)
           && ExitRecordMatches(Contents(), r.content) && PinVerifies(Contents(), r.content)) {
        return false;
      }
      var c := r.content;
      var rows := A.DeriveRows(SettledIn(Contents()), c.sourceGroupId, reviews.records[c.exitReviewId].settlements,
                               c.beneficiaryType, c.beneficiaryId);
      if rows != A.Ok(r.rows) {
        return false;
      }
      var conserved := A.ValidConservation(w.r.patterns, r.rows, c.beneficiaryType, c.beneficiaryId);
      if !conserved {
        return false;
      }
      return DecisionVerifies(TransfersIn(Contents()), c);
    }

    method VerifyRecords() returns (ok: bool)
      ensures ok <==> forall id :: id in records ==> RecordVerifies(w, Contents(), id)
    {
      var ids := records.Keys;
      while ids != {}
        invariant ids <= records.Keys
        invariant forall id :: id in records && id !in ids ==> RecordVerifies(w, Contents(), id)
        decreases |ids|
      {
        var id :| id in ids;
        var good := VerifyRecord(id);
        if !good {
          return false;
        }
        ids := ids - {id};
      }
      return true;
    }

    /** Records, events and query rows are accepted exactly if the whole state is replayable. */
    method VerifyExitAllocations() returns (ok: bool)
      ensures ok <==> Replayable(w, Contents())
    {
      var recordsOk := VerifyRecords();
      if !recordsOk {
        return false;
      }
      var eventsOk, latest, expected := VerifiedEvents(w, Contents());
      if !eventsOk || exists id :: id in records && id !in latest {
        return false;
      }
      ok := VerifyStateRows(Contents(), expected);
    }
  }
}
