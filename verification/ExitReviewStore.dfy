/**
  The store of exit reviews: freeze, decide, and the independent replay, which computes every record again
  and follows the events with per-review maps.
*/
module ExitReviewStore {
  import opened Basics
  import opened Protocol
  import opened ExitReview
  import opened ExitReviewSafety
  import O = OwnershipTransfers
  import Ro = Rosters
  import S = ReviewSources
  import SB = SettlementBoundaries

  /** The replay's own transition rules, over the current status of the review if it has one. */
  predicate VerifierSemantics(c: ReviewEventContent, current: Option<ReviewStatus>, freezeSeen: bool, recordDay: int) {
    match c.action
    case Freeze =>
      !freezeSeen && current.None? && c.status == Pending && c.effectiveDay == recordDay && c.reasonCode == ""
    case Verify =>
      freezeSeen && (current == Some(Pending) || current == Some(Disputed)) && c.status == Eligible
      && c.reasonCode == ""
    case Reject =>
      freezeSeen && (current == Some(Pending) || current == Some(Disputed)) && c.status == Rejected
      && IsReason(c.reasonCode)
    case Dispute =>
      freezeSeen && (current == Some(Eligible) || current == Some(Rejected)) && c.status == Disputed
      && IsReason(c.reasonCode)
    case Withdraw =>
      freezeSeen && current.Some? && current != Some(Withdrawn) && c.status == Withdrawn && IsReason(c.reasonCode)
  }

  function StatusOf(e: Option<Event>): Option<ReviewStatus> {
    if e.None? then None else Some(e.value.content.status)
  }

  /** The replay's rules and the writer's agree. */
  lemma SemanticsAgree(c: ReviewEventContent, before: Option<Event>, recordDay: int)
    ensures Semantics(c, before, recordDay)
            <==> && VerifierSemantics(c, StatusOf(before), before.Some?, recordDay)
                 && (before.Some? ==> before.value.content.effectiveDay <= c.effectiveDay)
  {
  }

  /** What the replay remembers of each review is its last event. */
  ghost predicate Tracks(events: seq<Event>, perHash: map<string, string>, perStatus: map<string, ReviewStatus>,
                         perDay: map<string, int>, freezeSeen: set<string>) {
    forall id {:trigger Last(events, id)} ::
      match Last(events, id)
      case None => id !in perHash && id !in perStatus && id !in perDay && id !in freezeSeen
      case Some(p) =>
        && id in perHash && perHash[id] == p.eventHash && id in perStatus && perStatus[id] == p.content.status
        && id in perDay && perDay[id] == p.content.effectiveDay && id in freezeSeen
  }

  lemma TracksNext(events: seq<Event>, e: Event, perHash: map<string, string>, perStatus: map<string, ReviewStatus>,
                   perDay: map<string, int>, freezeSeen: set<string>)
    requires Tracks(events, perHash, perStatus, perDay, freezeSeen)
    requires e.content.action == Freeze || Last(events, e.content.reviewId).Some?
    ensures var id := e.content.reviewId;
            Tracks(events + [e], perHash[id := e.eventHash], perStatus[id := e.content.status],
                   perDay[id := e.content.effectiveDay],
                   if e.content.action == Freeze then freezeSeen + {id} else freezeSeen)
  {
    forall id
      ensures Last(events + [e], id) == if e.content.reviewId == id then Some(e) else Last(events, id)
    {
      LastAppended(events, e, id);
    }
    assert Last(events, e.content.reviewId).Some? ==> e.content.reviewId in freezeSeen;
  }

  /** What the replay checks of one event, with what it remembers of the review. */
  predicate Checked(w: World, t: Tables, i: nat, previousHash: string, perHash: map<string, string>,
                    perStatus: map<string, ReviewStatus>, perDay: map<string, int>, freezeSeen: set<string>)
    requires i < |t.events|
  {
    var e := t.events[i];
    var id := e.content.reviewId;
    && id in t.records
    && (i > 0 ==> t.events[i - 1].content.acceptedAt <= e.content.acceptedAt)
    && Immutable(w, t.records[id], e, i + 1, previousHash)
    && (id in perDay ==> perDay[id] <= e.content.effectiveDay)
    && e.content.previousReviewEventHash == (if id in perHash then perHash[id] else ZERO_HASH)
    && VerifierSemantics(e.content, if id in perStatus then Some(perStatus[id]) else None, id in freezeSeen,
                         t.records[id].content.recordDay)
    && StateAt(t.states, e.content.eventIndex) == Some(StateOf(t.records[id], e))
  }

  lemma CheckAgrees(w: World, t: Tables, i: nat, previousHash: string, perHash: map<string, string>,
                    perStatus: map<string, ReviewStatus>, perDay: map<string, int>, freezeSeen: set<string>)
    requires i < |t.events| && previousHash == HeadHash(t.events[..i])
    requires Tracks(t.events[..i], perHash, perStatus, perDay, freezeSeen)
    ensures Checked(w, t, i, previousHash, perHash, perStatus, perDay, freezeSeen) <==> EventVerifies(w, t, i)
    ensures EventVerifies(w, t, i) ==>
              t.events[i].content.action == Freeze || Last(t.events[..i], t.events[i].content.reviewId).Some?
  {
    var e := t.events[i];
    var id := e.content.reviewId;
    if id in t.records {
      SemanticsAgree(e.content, Last(t.events[..i], id), t.records[id].content.recordDay);
    }
  }

  /** One more event is remembered. */
  lemma TracksPrefix(events: seq<Event>, i: nat, perHash: map<string, string>, perStatus: map<string, ReviewStatus>,
                     perDay: map<string, int>, freezeSeen: set<string>)
    requires i < |events| && Tracks(events[..i], perHash, perStatus, perDay, freezeSeen)
    requires events[i].content.action == Freeze || Last(events[..i], events[i].content.reviewId).Some?
    ensures var e, id := events[i], events[i].content.reviewId;
            && HeadHash(events[..i + 1]) == e.eventHash
            && Tracks(events[..i + 1], perHash[id := e.eventHash], perStatus[id := e.content.status],
                      perDay[id := e.content.effectiveDay],
                      if e.content.action == Freeze then freezeSeen + {id} else freezeSeen)
  {
    PrefixNext(events, i);
    TracksNext(events[..i], events[i], perHash, perStatus, perDay, freezeSeen);
  }

  method CheckEvent(w: World, t: Tables, i: nat, previousHash: string, perHash: map<string, string>,
                    perStatus: map<string, ReviewStatus>, perDay: map<string, int>, freezeSeen: set<string>)
    returns (good: bool)
    requires i < |t.events| && previousHash == HeadHash(t.events[..i])
    requires Tracks(t.events[..i], perHash, perStatus, perDay, freezeSeen)
    ensures good <==> EventVerifies(w, t, i)
    ensures good ==> t.events[i].content.action == Freeze || Last(t.events[..i], t.events[i].content.reviewId).Some?
  {
    CheckAgrees(w, t, i, previousHash, perHash, perStatus, perDay, freezeSeen);
    good := Checked(w, t, i, previousHash, perHash, perStatus, perDay, freezeSeen);
  }

  method ReplayEvents(w: World, t: Tables) returns (ok: bool, freezeSeen: set<string>)
    ensures ok <==> forall i :: 0 <= i < |t.events| ==> EventVerifies(w, t, i)
    ensures ok ==> forall id :: id in freezeSeen <==> Last(t.events, id).Some?
  {
    var perHash: map<string, string>, perStatus: map<string, ReviewStatus> := map[], map[];
    var perDay: map<string, int> := map[];
    var i, previousHash := 0, ZERO_HASH;
    freezeSeen := {};
    while i < |t.events|
      invariant 0 <= i <= |t.events| && previousHash == HeadHash(t.events[..i])
      invariant Tracks(t.events[..i], perHash, perStatus, perDay, freezeSeen)
      invariant forall k :: 0 <= k < i ==> EventVerifies(w, t, k)
    {
      var e := t.events[i];
      var id := e.content.reviewId;
      var good := CheckEvent(w, t, i, previousHash, perHash, perStatus, perDay, freezeSeen);
      if !good {
        return false, freezeSeen;
      }
      TracksPrefix(t.events, i, perHash, perStatus, perDay, freezeSeen);
      perHash, perStatus := perHash[id := e.eventHash], perStatus[id := e.content.status];
      perDay := perDay[id := e.content.effectiveDay];
      if e.content.action == Freeze {
        freezeSeen := freezeSeen + {id};
      }
      previousHash := e.eventHash;
      i := i + 1;
    }
    PrefixAll(t.events);
    return true, freezeSeen;
  }

  /** What a mutation is about to write. */
  datatype Draft = Draft(record: Record, event: Event)

  class Store {
    const w: World
    var sources: S.Sources
    var records: map<string, Record>
    var events: seq<Event>
    var states: seq<StateRow>

    function Contents(): Tables
      reads this
    {
      Tables(sources, records, events, states)
    }

    ghost predicate Valid()
      reads this
    {
      Sound(w, Contents())
    }

    constructor (w: World)
      ensures Valid() && Contents() == Empty && this.w == w
    {
      this.w := w;
      sources, records, events, states := S.Empty, map[], [], [];
      new;
      EmptySound(w);
    }

    /** Another writer of the same database commits. */
    method WriteSources(x: S.Step)
      requires Valid()
      modifies this
      ensures Valid() && Contents() == Apply(w, old(Contents()), SourceStep(x))
    {
      hide Sound, S.TransferAllowed, Freezing, Deciding, S.Apply;
      StepSound(w, Contents(), SourceStep(x));
      sources := S.Apply(SettingOf(w), sources, x);
    }

    /** Another writer of the same database commits an event of the transfer log. */
    method WriteTransfer(r: O.Record, e: O.Event)
      requires Valid()
      modifies this
      ensures Valid() && Contents() == Apply(w, old(Contents()), TransferStep(r, e))
    {
      hide Sound, S.TransferAllowed, Freezing, Deciding, S.Apply;
      StepSound(w, Contents(), TransferStep(r, e));
      if S.TransferAllowed(SettingOf(w), sources, r, e) {
        sources := S.Transferred(sources, r, e);
      }
    }

    /** The record over the tables of the moment: the day's checkpoint, the heads, the roster, the settlements. */
    method ComputeRecord(c: Claim, reviewId: string, frozenAt: int) returns (r: Result<Record>)
      ensures r == RecordOf(w, sources, c, reviewId, frozenAt)
    {
      var setting := SettingOf(w);
      var checkpoint := S.CheckpointOn(sources.ledger.checkpoints, c.recordDay);
      if checkpoint.None? {
        return Err(NotFound);
      }
      var k := checkpoint.value.content;
      if k.entryCount != k.throughLedgerIndex {
        return Err(InconsistentState);
      }
      var root := S.RootText(setting.registry, sources.ledger, k.entryCount);
      if root.None? {
        return Err(InconsistentState);
      }
      var heads := HeadsAt(sources, c.recordDay);
      var roster := Ro.MembersAtBoundary(BoundaryOf(sources, heads, c.recordDay), sources.audits,
                                         c.targetDeploymentId, c.claimActionId, c.groupId);
      if roster.None? {
        return Err(ClaimBoundary);
      }
      var settlements, last := SB.SettlementsAtBoundary(sources.settlements, k.throughLedgerIndex);
      var view := S.View(checkpoint.value, root.value, settlements);
      return Ok(RecordWith(w, c, reviewId, frozenAt, view, heads, roster.value));
    }

    method FreezeExitReview(i: FreezeInput) returns (result: Result<Review>, duplicate: bool)
      requires Valid()
      modifies this
      ensures Valid()
      ensures match Freezing(w, old(Contents()), i)
              case Ok(m) => result == Ok(m.review) && duplicate == m.duplicate && Contents() == m.tables
              case Err(e) => result == Err(e) && Contents() == old(Contents())
    {
      if Freezing(w, Contents(), i).Ok? {
        FreezeSound(w, Contents(), i);
      }
      result, duplicate := Freeze(i);
    }

    method Freeze(i: FreezeInput) returns (result: Result<Review>, duplicate: bool)
      modifies this
      ensures match Freezing(w, old(Contents()), i)
              case Ok(m) => result == Ok(m.review) && duplicate == m.duplicate && Contents() == m.tables
              case Err(e) => result == Err(e) && Contents() == old(Contents())
    {
      var existing := FindByKey(events, i.idempotencyKey);
      if existing.Some? {
        var current := ReviewById(Contents(), existing.value.content.reviewId);
        if current.None? {
          return Err(NotFound), false;
        }
        if !SameFreeze(i, existing.value, current.value.record) {
          return Err(IdempotencyConflict), false;
        }
        return Ok(current.value), true;
      }
      var drafted := DraftFreeze(i);
      if drafted.Err? {
        return Err(drafted.error), false;
      }
      var record, event := drafted.value.record, drafted.value.event;
      records := records[record.content.reviewId := record];
      events := events + [event];
      states := states + [StateOf(record, event)];
      return Ok(Review(record, StateOf(record, event))), false;
    }

    /** The record and event of a new freeze, or the reason why there is none. */
    method DraftFreeze(i: FreezeInput) returns (r: Result<Draft>)
      requires FindByKey(events, i.idempotencyKey).None?
      ensures match Freezing(w, Contents(), i)
              case Ok(m) => r.Ok? && m == MutationOf(r.value)
              case Err(e) => r == Err(e)
    {
      var clock := ClockGuard(w, Contents(), i.acceptedAt);
      if clock.Some? {
        return Err(clock.value);
      }
      if !ClaimFree(Contents(), i.claim) {
        return Err(AlreadyFrozen);
      }
      var frozen := ComputeRecord(i.claim, i.candidateReviewId, i.acceptedAt);
      if frozen.Err? {
        return Err(frozen.error);
      }
      var record := frozen.value;
      var event := SealedEvent(w, FreezeContent(w, Contents(), record, i));
      if FieldsOf(event.content) !in w.wellFormed || record.content !in w.recordsWellFormed {
        return Err(InvalidField);
      }
      if !NewRecord(Contents(), record) || !NewEvent(Contents(), event) {
        return Err(UniqueViolation);
      }
      return Ok(Draft(record, event));
    }

    /** The mutation that writes a draft. */
    function MutationOf(d: Draft): Mutation
      reads this
    {
      Mutation(d.event, Review(d.record, StateOf(d.record, d.event)), false, Written(Contents(), d.record, d.event))
    }

    method AppendExitReviewEvent(i: DecisionInput) returns (result: Result<Review>, duplicate: bool)
      requires Valid()
      modifies this
      ensures Valid()
      ensures match Deciding(w, old(Contents()), i)
              case Ok(m) => result == Ok(m.review) && duplicate == m.duplicate && Contents() == m.tables
              case Err(e) => result == Err(e) && Contents() == old(Contents())
    {
      if Deciding(w, Contents(), i).Ok? {
        DecideSound(w, Contents(), i);
      }
      result, duplicate := Decide(i);
    }

    method Decide(i: DecisionInput) returns (result: Result<Review>, duplicate: bool)
      requires RecordsKeyed(records)
      modifies this
      ensures match Deciding(w, old(Contents()), i)
              case Ok(m) => result == Ok(m.review) && duplicate == m.duplicate && Contents() == m.tables
              case Err(e) => result == Err(e) && Contents() == old(Contents())
    {
      if !ReasonRule(i.action, i.reasonCode) {
        return Err(InvalidField), false;
      }
      var existing := FindByKey(events, i.idempotencyKey);
      if existing.Some? {
        var stored := ReviewById(Contents(), existing.value.content.reviewId);
        if stored.None? {
          return Err(NotFound), false;
        }
        if !SameDecision(i, existing.value) {
          return Err(IdempotencyConflict), false;
        }
        return Ok(stored.value), true;
      }
      var drafted := DraftDecision(i);
      if drafted.Err? {
        return Err(drafted.error), false;
      }
      var record, event := drafted.value.record, drafted.value.event;
      assert records[record.content.reviewId := record] == records;
      events := events + [event];
      states := states + [StateOf(record, event)];
      return Ok(Review(record, StateOf(record, event))), false;
    }

    /** The event of a new decision on a stored record, or the reason why there is none. */
    method DraftDecision(i: DecisionInput) returns (r: Result<Draft>)
      requires FindByKey(events, i.idempotencyKey).None? && ReasonRule(i.action, i.reasonCode) && RecordsKeyed(records)
      ensures match Deciding(w, Contents(), i)
              case Ok(m) =>
                && r.Ok? && m == MutationOf(r.value)
                && r.value.record.content.reviewId in records
                && records[r.value.record.content.reviewId] == r.value.record
              case Err(e) => r == Err(e)
    {
      var found := ReviewById(Contents(), i.reviewId);
      if found.None? {
        return Err(NotFound);
      }
      var current := found.value;
      if !ValidTransition(current.state.status, i.action, i.status)
         || i.effectiveDay < current.record.content.recordDay || i.effectiveDay < current.state.effectiveDay {
        return Err(InvalidTransition);
      }
      var clock := ClockGuard(w, Contents(), i.acceptedAt);
      if clock.Some? {
        return Err(clock.value);
      }
      var content := DecisionContent(w, Contents(), current, i);
      if content.payloadHash != Digest(w.g, ReviewPayloadMessage(PayloadOf(content))) {
        return Err(InconsistentState);
      }
      var event := SealedEvent(w, content);
      if FieldsOf(content) !in w.wellFormed {
        return Err(InvalidField);
      }
      if !NewEvent(Contents(), event) {
        return Err(UniqueViolation);
      }
      return Ok(Draft(current.record, event));
    }

    /** One record: its fields, and the same record computed again. */
    method VerifyRecord(id: string) returns (ok: bool)
      requires id in records
      ensures ok <==> RecordVerifies(w, sources, id, records[id])
    {
      var r := records[id];
      if r.content.reviewId != id || r.content.scope != w.scope || r.content.registryKeyId != w.keyId
         || r.content !in w.recordsWellFormed
         || r.content.deploymentCount != |r.members| || r.content.settlementBoundaryCount != |r.settlements| {
        return false;
      }
      var again := ComputeRecord(ClaimOf(r), id, r.content.frozenAt);
      return again == Ok(r);
    }

    method VerifyRecords() returns (ok: bool)
      ensures ok <==> RecordsVerify(w, Contents())
    {
      var ids := records.Keys;
      while ids != {}
        invariant ids <= records.Keys
        invariant forall id :: id in records && id !in ids ==> RecordVerifies(w, sources, id, records[id])
        decreases |ids|
      {
        var id :| id in ids;
        var good := VerifyRecord(id);
        if !good {
          return false;
        }
        ids := ids - {id};
      }
      return true;
    }

    /**
      The replay accepts exactly the states whose records are computed again and whose every event verifies
      against the ones before it.  Of the states that the writers reach, it accepts those in which no frozen
      record was disturbed.
    */
    method VerifyExitReviews() returns (ok: bool)
      ensures ok <==> Replayable(w, Contents())
      ensures Valid() ==> (ok <==> AllStand(Contents()))
    {
      ghost var t := Contents();
      if Valid() {
        ReplaysIffStanding(w, t);
      }
      var recordsOk := VerifyRecords();
      if !recordsOk {
        return false;
      }
      var eventsOk, freezeSeen := ReplayEvents(w, Contents());
      if !eventsOk || exists id :: id in records && id !in freezeSeen {
        return false;
      }
      return |states| == |events|;
    }
  }
}
