/**
  Writer and replay of the exit-review log agree, and what the replay accepts is a well-formed history.
*/
module ExitReviewSafety {
  import opened Basics
  import opened Protocol
  import opened ExitReview
  import opened FrozenRecords
  import opened RosterMoves
  import DL = DatedLogs
  import L = Ledger
  import O = OwnershipTransfers
  import C = OperatorClaims
  import Ro = Rosters
  import S = ReviewSources

  datatype Step =
    | SourceStep(source: S.Step)
    | TransferStep(transfer: O.Record, event: O.Event)
    | FreezeStep(freeze: FreezeInput)
    | DecideStep(decision: DecisionInput)

  /** A transfer event that its log, and a completion that the claims and the clock, allow. */
  function Transferring(w: World, t: Tables, r: O.Record, e: O.Event): Tables {
    if S.TransferAllowed(SettingOf(w), t.sources, r, e) then t.(sources := S.Transferred(t.sources, r, e)) else t
  }

  /** One committed transaction; a failed one leaves the tables as they were. */
  function Apply(w: World, t: Tables, s: Step): Tables {
    match s
    case SourceStep(x) => t.(sources := S.Apply(SettingOf(w), t.sources, x))
    case TransferStep(r, e) => Transferring(w, t, r, e)
    case FreezeStep(i) => (match Freezing(w, t, i) case Ok(m) => m.tables case Err(_) => t)
    case DecideStep(i) => (match Deciding(w, t, i) case Ok(m) => m.tables case Err(_) => t)
  }

  function Run(w: World, t: Tables, steps: seq<Step>): Tables
    decreases |steps|
  {
    if steps == [] then t else Run(w, Apply(w, t, steps[0]), steps[1..])
  }

  /** The query rows are exactly the log's projection, in its order. */
  ghost predicate Projected(t: Tables) {
    && |t.states| == |t.events|
    && (forall i :: 0 <= i < |t.events| ==> RowProjects(t, i))
  }

  ghost predicate RowProjects(t: Tables, i: nat)
    requires i < |t.events| && i < |t.states|
  {
    && t.events[i].content.reviewId in t.records
    && t.states[i] == StateOf(t.records[t.events[i].content.reviewId], t.events[i])
  }

  ghost predicate AllAnchored(w: World, t: Tables) {
    forall id :: id in t.records ==> Anchored(w, t.sources, id, t.records[id])
  }

  /** The sources are sound, the records once came from them, and the log replays. */
  ghost predicate Sound(w: World, t: Tables) {
    S.Sound(SettingOf(w), t.sources) && AllAnchored(w, t) && LogOk(w, t)
  }

  /** The log replays over keyed records, and the query rows project it. */
  ghost predicate LogOk(w: World, t: Tables) {
    RecordsKeyed(t.records) && LogReplays(w, t) && Projected(t)
  }

  // ---------------------------------------------------------------- the writer keeps the replay

  /** The latest query row of a review is the projection of its last event. */
  lemma {:induction false} LatestIsLast(sources: S.Sources, records: map<string, Record>, events: seq<Event>,
                                        states: seq<StateRow>, id: string)
    requires RecordsKeyed(records) && Projected(Tables(sources, records, events, states)) && id in records
    ensures match Last(events, id)
            case None => LatestState(states, id).None?
            case Some(e) => LatestState(states, id) == Some(StateOf(records[id], e))
  {
    if events != [] {
      var n := |events| - 1;
      var t, p := Tables(sources, records, events, states), Tables(sources, records, events[..n], states[..n]);
      assert RowProjects(t, n);
      forall i | 0 <= i < n
        ensures RowProjects(p, i)
      {
        assert RowProjects(t, i);
      }
      if events[n].content.reviewId != id {
        LatestIsLast(sources, records, events[..n], states[..n], id);
      }
    }
  }

  lemma {:induction false} StateAtAppended(states: seq<StateRow>, row: StateRow, index: int)
    ensures StateAt(states + [row], index)
            == if StateAt(states, index).Some? then StateAt(states, index)
               else if row.eventIndex == index then Some(row) else None
  {
    if states != [] {
      assert (states + [row])[1..] == states[1..] + [row];
      StateAtAppended(states[1..], row, index);
    }
  }

  lemma {:induction false} StateAtMissing(states: seq<StateRow>, index: int)
    requires forall i :: 0 <= i < |states| ==> states[i].eventIndex != index
    ensures StateAt(states, index).None?
  {
    if states != [] {
      StateAtMissing(states[1..], index);
    }
  }

  lemma LastAppended(events: seq<Event>, e: Event, id: string)
    ensures Last(events + [e], id) == if e.content.reviewId == id then Some(e) else Last(events, id)
  {
    assert (events + [e])[..|events|] == events;
  }

  /** The new event continues the log: the conditions under which an append is replayable. */
  ghost predicate Continues(w: World, t: Tables, r: Record, e: Event) {
    && Immutable(w, r, e, |t.events| + 1, HeadHash(t.events))
    && (t.events != [] ==> t.events[|t.events| - 1].content.acceptedAt <= e.content.acceptedAt)
    && e.content.previousReviewEventHash == HashOf(Last(t.events, e.content.reviewId))
    && Semantics(e.content, Last(t.events, e.content.reviewId), r.content.recordDay)
  }

  /** The record is the stored one, or a new one. */
  predicate Fits(t: Tables, r: Record, id: string) {
    r.content.reviewId == id && (id in t.records ==> t.records[id] == r)
  }

  lemma OldEventVerifies(w: World, t: Tables, r: Record, e: Event, i: nat)
    requires i < |t.events| && EventVerifies(w, t, i) && Fits(t, r, r.content.reviewId)
    ensures EventVerifies(w, Written(t, r, e), i)
  {
    var u := Written(t, r, e);
    assert u.events[..i] == t.events[..i];
    StateAtAppended(t.states, StateOf(r, e), i + 1);
  }

  lemma NewEventVerifies(w: World, t: Tables, r: Record, e: Event)
    requires Projected(t) && Continues(w, t, r, e) && r.content.reviewId == e.content.reviewId
    requires forall i :: 0 <= i < |t.events| ==> t.events[i].content.eventIndex == i + 1
    ensures EventVerifies(w, Written(t, r, e), |t.events|)
  {
    var u, n := Written(t, r, e), |t.events|;
    assert u.events[..n] == t.events;
    forall i | 0 <= i < n
      ensures t.states[i].eventIndex != n + 1
    {
      assert RowProjects(t, i);
    }
    StateAtMissing(t.states, n + 1);
    StateAtAppended(t.states, StateOf(r, e), n + 1);
  }

  lemma IndexesContiguous(w: World, t: Tables)
    requires LogReplays(w, t)
    ensures forall i :: 0 <= i < |t.events| ==> t.events[i].content.eventIndex == i + 1
  {
    forall i | 0 <= i < |t.events|
      ensures t.events[i].content.eventIndex == i + 1
    {
      assert EventVerifies(w, t, i);
    }
  }

  lemma WrittenProjected(t: Tables, r: Record, e: Event)
    requires Projected(t) && r.content.reviewId == e.content.reviewId
    requires r.content.reviewId in t.records ==> t.records[r.content.reviewId] == r
    ensures Projected(Written(t, r, e))
  {
    var u := Written(t, r, e);
    forall i | 0 <= i < |u.events|
      ensures RowProjects(u, i)
    {
      if i < |t.events| {
        assert RowProjects(t, i);
      }
    }
  }

  lemma WrittenLogOk(w: World, t: Tables, r: Record, e: Event)
    requires LogOk(w, t) && Continues(w, t, r, e) && Fits(t, r, e.content.reviewId)
    ensures LogOk(w, Written(t, r, e))
  {
    var u := Written(t, r, e);
    WrittenProjected(t, r, e);
    IndexesContiguous(w, t);
    forall i | 0 <= i < |u.events|
      ensures EventVerifies(w, u, i)
    {
      if i < |t.events| {
        OldEventVerifies(w, t, r, e, i);
      } else {
        NewEventVerifies(w, t, r, e);
      }
    }
    forall id | id in u.records
      ensures Last(u.events, id).Some?
    {
      LastAppended(t.events, e, id);
    }
  }

  lemma NoEventWithoutRecord(w: World, t: Tables, id: string)
    requires LogReplays(w, t) && id !in t.records
    ensures Last(t.events, id).None?
  {
    NoEventWithoutRecordIn(w, t, id, |t.events|);
    assert t.events[..|t.events|] == t.events;
  }

  lemma {:induction false} NoEventWithoutRecordIn(w: World, t: Tables, id: string, n: nat)
    requires LogReplays(w, t) && id !in t.records && n <= |t.events|
    ensures Last(t.events[..n], id).None?
  {
    if n > 0 {
      assert EventVerifies(w, t, n - 1);
      assert t.events[..n][..n - 1] == t.events[..n - 1];
      NoEventWithoutRecordIn(w, t, id, n - 1);
    }
  }

  lemma HeadIsLength(w: World, t: Tables)
    requires LogReplays(w, t)
    ensures HeadIndex(t.events) == |t.events|
  {
    if t.events != [] {
      assert EventVerifies(w, t, |t.events| - 1);
    }
  }

  /** What a fresh freeze writes: the record its sources give, and the next event of the log. */
  lemma FreezeWrites(w: World, t: Tables, i: FreezeInput)
    requires Freezing(w, t, i).Ok? && !Freezing(w, t, i).value.duplicate
    ensures var m := Freezing(w, t, i).value;
            && FindByKey(t.events, i.idempotencyKey).None? && m.event.content.idempotencyKey == i.idempotencyKey
            && m.tables == Written(t, m.review.record, m.event) && NewEvent(t, m.event)
            && RecordOf(w, t.sources, i.claim, i.candidateReviewId, i.acceptedAt) == Ok(m.review.record)
            && m.review.record.content in w.recordsWellFormed && NewRecord(t, m.review.record)
            && m.event == SealedEvent(w, FreezeContent(w, t, m.review.record, i))
            && FieldsOf(m.event.content) in w.wellFormed && ClockGuard(w, t, i.acceptedAt).None?
  {
  }

  lemma FreezeMatches(w: World, t: Tables, i: FreezeInput)
    requires Freezing(w, t, i).Ok? && !Freezing(w, t, i).value.duplicate
    ensures var m := Freezing(w, t, i).value;
            && m.review.record.content.reviewId == m.event.content.reviewId == i.candidateReviewId
            && SameFreeze(i, m.event, m.review.record)
  {
    FreezeWrites(w, t, i);
    RecordParts(w, t.sources, i.claim, i.candidateReviewId, i.acceptedAt);
  }

  lemma FreezeLogOk(w: World, t: Tables, i: FreezeInput)
    requires LogOk(w, t) && Freezing(w, t, i).Ok?
    ensures LogOk(w, Freezing(w, t, i).value.tables)
  {
    var m := Freezing(w, t, i).value;
    if !m.duplicate {
      FreezeWrites(w, t, i);
      FreezeMatches(w, t, i);
      var r := m.review.record;
      NoEventWithoutRecord(w, t, r.content.reviewId);
      HeadIsLength(w, t);
      FreezeContinues(w, t, r, i);
      WrittenLogOk(w, t, r, m.event);
    }
  }

  lemma FreezeContinues(w: World, t: Tables, r: Record, i: FreezeInput)
    requires ClockGuard(w, t, i.acceptedAt).None? && HeadIndex(t.events) == |t.events|
    requires FieldsOf(SealedEvent(w, FreezeContent(w, t, r, i)).content) in w.wellFormed
    requires Last(t.events, r.content.reviewId).None?
    ensures Continues(w, t, r, SealedEvent(w, FreezeContent(w, t, r, i)))
  {
  }

  lemma FreezeSound(w: World, t: Tables, i: FreezeInput)
    requires Sound(w, t) && Freezing(w, t, i).Ok?
    ensures Sound(w, Freezing(w, t, i).value.tables)
  {
    hide S.Sound, LogOk, Freezing, RecordOf, Anchored;
    var m := Freezing(w, t, i).value;
    FreezeLogOk(w, t, i);
    if m.duplicate {
      FreezeRepeated(w, t, i);
    } else {
      FreezeWrites(w, t, i);
      FreezeMatches(w, t, i);
      FreshIsAnchored(w, t.sources, i.claim, i.candidateReviewId, i.acceptedAt, m.review.record);
    }
  }

  /** A freeze that finds its key changes nothing. */
  lemma FreezeRepeated(w: World, t: Tables, i: FreezeInput)
    requires Freezing(w, t, i).Ok? && Freezing(w, t, i).value.duplicate
    ensures Freezing(w, t, i).value.tables == t
  {
  }

  /** A decision that passes the guards continues the log. */
  lemma DecisionContinues(w: World, t: Tables, v: Review, i: DecisionInput, last: Event)
    requires DecidingOn(w, t, v, i).Ok? && ReasonRule(i.action, i.reasonCode)
    requires HeadIndex(t.events) == |t.events|
    requires Last(t.events, i.reviewId) == Some(last) && v.state == StateOf(v.record, last)
    ensures Continues(w, t, v.record, DecidingOn(w, t, v, i).value.event)
  {
  }

  /** What a fresh decision writes. */
  lemma DecideWrites(w: World, t: Tables, i: DecisionInput)
    requires Deciding(w, t, i).Ok? && !Deciding(w, t, i).value.duplicate
    ensures var m := Deciding(w, t, i).value;
            && FindByKey(t.events, i.idempotencyKey).None? && m.event.content.idempotencyKey == i.idempotencyKey
            && i.reviewId in t.records && m.tables == Written(t, t.records[i.reviewId], m.event) && NewEvent(t, m.event)
            && m.event.content.reviewId == i.reviewId && SameDecision(i, m.event) && ReasonRule(i.action, i.reasonCode)
            && ReviewById(t, i.reviewId).Some? && ReviewById(t, i.reviewId).value.record == t.records[i.reviewId]
            && DecidingOn(w, t, ReviewById(t, i.reviewId).value, i) == Deciding(w, t, i)
  {
  }

  /** A decision that finds its key changes nothing. */
  lemma DecideRepeated(w: World, t: Tables, i: DecisionInput)
    requires Deciding(w, t, i).Ok? && Deciding(w, t, i).value.duplicate
    ensures Deciding(w, t, i).value.tables == t
  {
  }

  lemma DecideLogOk(w: World, t: Tables, i: DecisionInput)
    requires LogOk(w, t) && Deciding(w, t, i).Ok? && !Deciding(w, t, i).value.duplicate
    ensures LogOk(w, Deciding(w, t, i).value.tables)
  {
    DecideWrites(w, t, i);
    var v := ReviewById(t, i.reviewId).value;
    LatestIsLast(t.sources, t.records, t.events, t.states, i.reviewId);
    HeadIsLength(w, t);
    DecisionContinues(w, t, v, i, Last(t.events, i.reviewId).value);
    WrittenLogOk(w, t, v.record, Deciding(w, t, i).value.event);
  }

  /** A decision adds an event and its row, or nothing. */
  lemma DecideFrame(w: World, t: Tables, i: DecisionInput)
    requires Deciding(w, t, i).Ok? && RecordsKeyed(t.records)
    ensures var u := Deciding(w, t, i).value.tables;
            u.sources == t.sources && u.records == t.records
  {
    if Deciding(w, t, i).value.duplicate {
      DecideRepeated(w, t, i);
    } else {
      DecideWrites(w, t, i);
      assert t.records[i.reviewId := t.records[i.reviewId]] == t.records;
    }
  }

  lemma DecideSound(w: World, t: Tables, i: DecisionInput)
    requires Sound(w, t) && Deciding(w, t, i).Ok?
    ensures Sound(w, Deciding(w, t, i).value.tables)
  {
    DecideFrame(w, t, i);
    if Deciding(w, t, i).value.duplicate {
      DecideRepeated(w, t, i);
    } else {
      DecideLogOk(w, t, i);
    }
  }

  lemma LogStays(w: World, t: Tables, u: Tables)
    requires LogOk(w, t) && u == t.(sources := u.sources)
    ensures LogOk(w, u)
  {
    forall i | 0 <= i < |u.events|
      ensures EventVerifies(w, u, i) && RowProjects(u, i)
    {
      assert EventVerifies(w, t, i) && RowProjects(t, i);
    }
  }

  lemma SourcesSound(w: World, t: Tables, u: Tables)
    requires Sound(w, t) && u == t.(sources := u.sources)
    requires S.Sound(SettingOf(w), u.sources) && S.Extends(t.sources, u.sources)
    ensures Sound(w, u)
  {
    LogStays(w, t, u);
    forall id | id in u.records
      ensures Anchored(w, u.sources, id, u.records[id])
    {
      AnchoredStays(w, t.sources, u.sources, id, t.records[id]);
    }
  }

  lemma SourcesExtend(w: World, t: Tables, s: Step)
    requires S.Sound(SettingOf(w), t.sources) && (s.SourceStep? || s.TransferStep?)
    ensures var u := Apply(w, t, s);
            && u == t.(sources := u.sources)
            && S.Sound(SettingOf(w), u.sources) && S.Extends(t.sources, u.sources)
  {
    S.ExtendsSame(t.sources);
    match s
    case SourceStep(x) => S.StepSound(SettingOf(w), t.sources, x);
    case TransferStep(r, e) =>
      if S.TransferAllowed(SettingOf(w), t.sources, r, e) { S.TransferSound(SettingOf(w), t.sources, r, e); }
  }

  lemma StepSound(w: World, t: Tables, s: Step)
    requires Sound(w, t)
    ensures Sound(w, Apply(w, t, s))
  {
    hide S.Sound, LogOk, AllAnchored, S.Apply, S.Transferred, S.TransferAllowed, S.Extends;
    match s
    case SourceStep(x) => SourcesExtend(w, t, s); SourcesSound(w, t, Apply(w, t, s));
    case TransferStep(r, e) => SourcesExtend(w, t, s); SourcesSound(w, t, Apply(w, t, s));
    case FreezeStep(i) => if Freezing(w, t, i).Ok? { FreezeSound(w, t, i); }
    case DecideStep(i) => if Deciding(w, t, i).Ok? { DecideSound(w, t, i); }
  }

  lemma StepSourcesGrow(w: World, t: Tables, s: Step)
    requires Sound(w, t)
    ensures S.Extends(t.sources, Apply(w, t, s).sources)
  {
    hide S.Extends, S.Apply, S.TransferAllowed, Freezing, Deciding;
    S.ExtendsSame(t.sources);
    match s
    case SourceStep(x) => SourcesExtend(w, t, s);
    case TransferStep(r, e) => SourcesExtend(w, t, s);
    case FreezeStep(i) => if Freezing(w, t, i).Ok? { FreezeKeepsSources(w, t, i); }
    case DecideStep(i) => if Deciding(w, t, i).Ok? { DecideFrame(w, t, i); }
  }

  lemma FreezeKeepsSources(w: World, t: Tables, i: FreezeInput)
    requires Freezing(w, t, i).Ok?
    ensures Freezing(w, t, i).value.tables.sources == t.sources
  {
    if Freezing(w, t, i).value.duplicate {
      FreezeRepeated(w, t, i);
    } else {
      FreezeWrites(w, t, i);
    }
  }

  /** Only transfer steps change the transfer log. */
  lemma StepKeepsTransfers(w: World, t: Tables, s: Step)
    requires RecordsKeyed(t.records) && !s.TransferStep?
    ensures Apply(w, t, s).sources.transfers == t.sources.transfers
  {
    match s
    case SourceStep(x) =>
    case FreezeStep(i) => if Freezing(w, t, i).Ok? { FreezeKeepsSources(w, t, i); }
    case DecideStep(i) => if Deciding(w, t, i).Ok? { DecideFrame(w, t, i); }
  }

  /** Every run keeps the sources, the records' anchors, the log and its query rows. */
  lemma {:induction false} RunSound(w: World, t: Tables, steps: seq<Step>)
    requires Sound(w, t)
    ensures Sound(w, Run(w, t, steps))
    decreases |steps|
  {
    if steps != [] {
      StepSound(w, t, steps[0]);
      RunSound(w, Apply(w, t, steps[0]), steps[1..]);
    }
  }

  lemma EmptySound(w: World)
    ensures Sound(w, Empty)
  {
    S.EmptySound(SettingOf(w));
  }

  // ---------------------------------------------------------------- when a reached state replays

  /** Since their freezes, no log got an early event and no roster a transfer, for any of the records. */
  ghost predicate AllStand(t: Tables) {
    forall id :: id in t.records ==> Stands(t.sources, t.records[id])
  }

  ghost predicate Stands(s: S.Sources, r: Record) { LogsQuiet(s, r) && RosterStands(s, r) }

  /** The replay accepts a reached state if and only if every frozen record still has its heads and roster. */
  lemma ReplaysIffStanding(w: World, t: Tables)
    requires Sound(w, t)
    ensures Replayable(w, t) <==> AllStand(t)
  {
    hide RecordVerifies, LogsQuiet, RosterStands, LogReplays, Anchored, S.Sound;
    forall id | id in t.records
      ensures RecordVerifies(w, t.sources, id, t.records[id]) <==> Stands(t.sources, t.records[id])
    {
      VerifiesIff(w, t.sources, id, t.records[id]);
    }
  }

  /** A record was frozen whose day ends after `time`. */
  predicate FrozenBeyond(t: Tables, time: int) {
    exists id :: id in t.records && time < L.EndOf(t.records[id].content.recordDay)
  }

  /** A dated log accepts an event from before the end of a day of which a record is already frozen. */
  predicate EarlyEvent(w: World, t: Tables, s: Step) {
    && s.SourceStep?
    && var time := S.DatedTime(SettingOf(w), t.sources, s.source);
       time.Some? && FrozenBeyond(t, time.value)
  }

  /** A transfer is completed before the end of such a day, from or to the group of the record. */
  predicate EarlyCompletion(w: World, t: Tables, s: Step) {
    && s.TransferStep? && S.TransferAllowed(SettingOf(w), t.sources, s.transfer, s.event)
    && exists id :: id in t.records && Touches(t.records[id], s.transfer, s.event)
  }

  predicate Early(w: World, t: Tables, s: Step) { EarlyEvent(w, t, s) || EarlyCompletion(w, t, s) }

  predicate NoneEarly(w: World, t: Tables, steps: seq<Step>)
    decreases |steps|
  {
    steps == [] || (!Early(w, t, steps[0]) && NoneEarly(w, Apply(w, t, steps[0]), steps[1..]))
  }

  /** A source step disturbs a record exactly if it adds a dated event from before the end of its day. */
  lemma SourceDisturbs(w: World, s: S.Sources, x: S.Step, id: string, r: Record)
    requires S.LogsOk(s) && Anchored(w, s, id, r)
    ensures var u, time := S.Apply(SettingOf(w), s, x), S.DatedTime(SettingOf(w), s, x);
            && (LogsQuiet(u, r) <==> LogsQuiet(s, r) && (time.Some? ==> time.value >= L.EndOf(r.content.recordDay)))
            && (RosterStands(u, r) <==> RosterStands(s, r))
  {
    hide DL.QuietAfter, DL.ClockAllows, DL.Ordered, S.AuditAccepted, S.ReviewAccepted, S.EligibilityAccepted, Anchored,
         O.Ok, S.RowsLinked, Ro.ListsExactly, C.AuditsOk, C.ReviewsOk, C.EligibilitiesOk;
    var c, end := r.content, L.EndOf(r.content.recordDay);
    PinsBounded(w, s, id, r);
    match x
    case AuditStep(at, hash, f) =>
      DL.QuietAppended(s.audits, at, hash, f, c.throughAuditIndex, end);
      DL.UptoAppended(s.audits, at, hash, f, c.throughAuditIndex);
    case ClaimReviewStep(at, hash, f) =>
      DL.QuietAppended(s.claimReviews, at, hash, f, c.throughReviewIndex, end);
      DL.UptoAppended(s.claimReviews, at, hash, f, c.throughReviewIndex);
    case EligibilityStep(at, hash, f) =>
      DL.QuietAppended(s.eligibilities, at, hash, f, c.throughEligibilityIndex, end);
      DL.UptoAppended(s.eligibilities, at, hash, f, c.throughEligibilityIndex);
    case LedgerStep(_) =>
    case SettleStep(_, _) =>
  }

  lemma SourceStepStands(w: World, t: Tables, x: S.Step)
    requires Sound(w, t)
    ensures AllStand(Apply(w, t, SourceStep(x))) <==> AllStand(t) && !Early(w, t, SourceStep(x))
  {
    hide LogsQuiet, RosterStands, S.Apply, S.DatedTime, Anchored, LogOk;
    var u, time := S.Apply(SettingOf(w), t.sources, x), S.DatedTime(SettingOf(w), t.sources, x);
    forall id | id in t.records
      ensures Stands(u, t.records[id])
              <==> && Stands(t.sources, t.records[id])
                   && (time.Some? ==> time.value >= L.EndOf(t.records[id].content.recordDay))
    {
      SourceDisturbs(w, t.sources, x, id, t.records[id]);
    }
  }

  /** A transfer event disturbs a standing record exactly if it touches it, and mends no disturbed one. */
  lemma TransferStepStands(w: World, t: Tables, x: O.Record, e: O.Event)
    requires Sound(w, t)
    ensures AllStand(Transferring(w, t, x, e)) <==> AllStand(t) && !Early(w, t, TransferStep(x, e))
  {
    hide LogsQuiet, RosterStands, S.TransferAllowed, Anchored, LogOk, Touches, S.RowsOk;
    if S.TransferAllowed(SettingOf(w), t.sources, x, e) {
      var u := S.Transferred(t.sources, x, e);
      forall id | id in t.records
        ensures Stands(u, t.records[id]) <==> Stands(t.sources, t.records[id]) && !Touches(t.records[id], x, e)
      {
        var r := t.records[id];
        QuietTransferred(t.sources, x, e, r);
        if LogsQuiet(t.sources, r) {
          TransferDisturbs(w, t.sources, id, r, x, e);
        }
      }
    }
  }

  lemma QuietTransferred(s: S.Sources, x: O.Record, e: O.Event, r: Record)
    ensures LogsQuiet(S.Transferred(s, x, e), r) <==> LogsQuiet(s, r)
  {
  }

  /** A freshly frozen record has the heads and the roster of the moment. */
  lemma FreezeStands(w: World, t: Tables, i: FreezeInput)
    requires Sound(w, t) && Freezing(w, t, i).Ok? && !Freezing(w, t, i).value.duplicate
    ensures var m := Freezing(w, t, i).value;
            && m.tables == Written(t, m.review.record, m.event) && m.review.record.content.reviewId !in t.records
            && Stands(t.sources, m.review.record)
  {
    FreezeWrites(w, t, i);
    FreezeMatches(w, t, i);
    var r := Freezing(w, t, i).value.review.record;
    FreshIsAnchored(w, t.sources, i.claim, i.candidateReviewId, i.acceptedAt, r);
    VerifiesIff(w, t.sources, i.candidateReviewId, r);
  }

  lemma WrittenStands(t: Tables, r: Record, e: Event)
    requires r.content.reviewId !in t.records && Stands(t.sources, r)
    ensures AllStand(Written(t, r, e)) <==> AllStand(t)
  {
    hide LogsQuiet, RosterStands;
    var u := Written(t, r, e);
    assert forall id :: id in t.records ==> id in u.records && u.records[id] == t.records[id];
  }

  lemma FreezeKeeps(w: World, t: Tables, i: FreezeInput)
    requires Sound(w, t) && Freezing(w, t, i).Ok?
    ensures AllStand(Freezing(w, t, i).value.tables) <==> AllStand(t)
  {
    hide Freezing, Stands;
    if Freezing(w, t, i).value.duplicate {
      FreezeRepeated(w, t, i);
    } else {
      FreezeStands(w, t, i);
      WrittenStands(t, Freezing(w, t, i).value.review.record, Freezing(w, t, i).value.event);
    }
  }

  lemma DecideKeeps(w: World, t: Tables, i: DecisionInput)
    requires Sound(w, t) && Deciding(w, t, i).Ok?
    ensures AllStand(Deciding(w, t, i).value.tables) <==> AllStand(t)
  {
    hide Deciding, Stands, S.Sound, AllAnchored, LogReplays, Projected;
    DecideFrame(w, t, i);
  }

  lemma StepStands(w: World, t: Tables, s: Step)
    requires Sound(w, t)
    ensures AllStand(Apply(w, t, s)) <==> AllStand(t) && !Early(w, t, s)
  {
    hide Freezing, Deciding, S.Apply, Stands, Transferring, S.DatedTime, Sound, AllStand;
    match s
    case SourceStep(x) => SourceStepStands(w, t, x);
    case TransferStep(x, e) => TransferStepStands(w, t, x, e);
    case FreezeStep(i) => if Freezing(w, t, i).Ok? { FreezeKeeps(w, t, i); }
    case DecideStep(i) => if Deciding(w, t, i).Ok? { DecideKeeps(w, t, i); }
  }

  lemma {:induction false} RunStands(w: World, t: Tables, steps: seq<Step>)
    requires Sound(w, t)
    ensures AllStand(Run(w, t, steps)) <==> AllStand(t) && NoneEarly(w, t, steps)
    decreases |steps|
  {
    hide Apply, AllStand, Early;
    if steps != [] {
      StepSound(w, t, steps[0]);
      StepStands(w, t, steps[0]);
      RunStands(w, Apply(w, t, steps[0]), steps[1..]);
    }
  }

  /**
    The replay accepts the state that a run has reached if and only if nothing in that run was accepted before
    the end of a day after a record of that day had been frozen: no audit event, claim review or eligibility
    decision, and no completion of an ownership transfer from or to the record's group.
  */
  lemma ReplayIffNoneEarly(w: World, steps: seq<Step>)
    ensures Replayable(w, Run(w, Empty, steps)) <==> NoneEarly(w, Empty, steps)
  {
    EmptySound(w);
    RunSound(w, Empty, steps);
    RunStands(w, Empty, steps);
    ReplaysIffStanding(w, Run(w, Empty, steps));
  }

  // ---------------------------------------------------------------- repeated submissions

  /** The tables only grow. */
  ghost predicate Extends(t: Tables, u: Tables) {
    && t.events <= u.events && t.states <= u.states
    && (forall id :: id in t.records ==> id in u.records && u.records[id] == t.records[id])
  }

  lemma FreezeExtends(w: World, t: Tables, i: FreezeInput)
    requires Freezing(w, t, i).Ok?
    ensures Extends(t, Freezing(w, t, i).value.tables)
  {
    if Freezing(w, t, i).value.duplicate {
      FreezeRepeated(w, t, i);
    } else {
      FreezeWrites(w, t, i);
    }
  }

  lemma DecideExtends(w: World, t: Tables, i: DecisionInput)
    requires Deciding(w, t, i).Ok? && RecordsKeyed(t.records)
    ensures Extends(t, Deciding(w, t, i).value.tables)
  {
    DecideFrame(w, t, i);
    if Deciding(w, t, i).value.duplicate {
      DecideRepeated(w, t, i);
    } else {
      DecideWrites(w, t, i);
    }
  }

  lemma StepExtends(w: World, t: Tables, s: Step)
    requires RecordsKeyed(t.records)
    ensures Extends(t, Apply(w, t, s))
  {
    match s
    case SourceStep(x) =>
    case TransferStep(r, e) =>
    case FreezeStep(i) => if Freezing(w, t, i).Ok? { FreezeExtends(w, t, i); }
    case DecideStep(i) => if Deciding(w, t, i).Ok? { DecideExtends(w, t, i); }
  }

  lemma {:induction false} RunExtends(w: World, t: Tables, steps: seq<Step>)
    requires Sound(w, t)
    ensures Extends(t, Run(w, t, steps))
    decreases |steps|
  {
    if steps != [] {
      var u := Apply(w, t, steps[0]);
      StepSound(w, t, steps[0]);
      StepExtends(w, t, steps[0]);
      RunExtends(w, u, steps[1..]);
      ExtendsTransitive(t, u, Run(w, t, steps));
    }
  }

  lemma ExtendsTransitive(t: Tables, u: Tables, v: Tables)
    requires Extends(t, u) && Extends(u, v)
    ensures Extends(t, v)
  {
  }

  lemma {:induction false} FindStays(a: seq<Event>, b: seq<Event>, key: string)
    requires a <= b && FindByKey(a, key).Some?
    ensures FindByKey(b, key) == FindByKey(a, key)
  {
    if a[0].content.idempotencyKey != key {
      FindStays(a[1..], b[1..], key);
    }
  }

  lemma {:induction false} FindAppended(events: seq<Event>, e: Event)
    requires FindByKey(events, e.content.idempotencyKey).None?
    ensures FindByKey(events + [e], e.content.idempotencyKey) == Some(e)
  {
    if events != [] {
      assert (events + [e])[1..] == events[1..] + [e];
      FindAppended(events[1..], e);
    }
  }

  /** A stored review can be read, and shows its last event. */
  lemma Readable(w: World, t: Tables, id: string)
    requires LogOk(w, t) && id in t.records
    ensures ReviewById(t, id).Some? && ReviewById(t, id).value.record == t.records[id]
    ensures Last(t.events, id).Some?
    ensures ReviewById(t, id).value.state == StateOf(t.records[id], Last(t.events, id).value)
    ensures t.records[id].content.reviewId == id
  {
    LatestIsLast(t.sources, t.records, t.events, t.states, id);
  }

  /**
    A freeze that is submitted again, with the same contents under the same key, returns the first event as a
    duplicate and changes nothing, however many steps came in between.
  */
  lemma FreezeRepeats(w: World, t: Tables, i: FreezeInput, more: seq<Step>, again: FreezeInput)
    requires Sound(w, t) && Freezing(w, t, i).Ok? && !Freezing(w, t, i).value.duplicate
    requires again == i.(candidateReviewId := again.candidateReviewId, candidateEventId := again.candidateEventId,
                         acceptedAt := again.acceptedAt)
    ensures var u := Run(w, Freezing(w, t, i).value.tables, more);
            && Freezing(w, u, again).Ok? && Freezing(w, u, again).value.duplicate
            && Freezing(w, u, again).value.event == Freezing(w, t, i).value.event
            && Freezing(w, u, again).value.tables == u
  {
    hide Apply, Freezing, S.Sound, AllAnchored;
    var m := Freezing(w, t, i).value;
    FreezeWrites(w, t, i);
    FreezeMatches(w, t, i);
    FreezeSound(w, t, i);
    RunExtends(w, m.tables, more);
    RunSound(w, m.tables, more);
    var u := Run(w, m.tables, more);
    FindAppended(t.events, m.event);
    FindStays(m.tables.events, u.events, i.idempotencyKey);
    Readable(w, u, m.event.content.reviewId);
    FreezeAgain(w, u, again, m.event);
  }

  lemma FreezeAgain(w: World, u: Tables, again: FreezeInput, e: Event)
    requires FindByKey(u.events, again.idempotencyKey) == Some(e) && ReviewById(u, e.content.reviewId).Some?
    requires SameFreeze(again, e, ReviewById(u, e.content.reviewId).value.record)
    ensures var r := Freezing(w, u, again);
            r.Ok? && r.value.duplicate && r.value.event == e && r.value.tables == u
  {
  }

  lemma DecideAgain(w: World, u: Tables, again: DecisionInput, e: Event)
    requires ReasonRule(again.action, again.reasonCode) && FindByKey(u.events, again.idempotencyKey) == Some(e)
    requires ReviewById(u, e.content.reviewId).Some? && SameDecision(again, e)
    ensures var r := Deciding(w, u, again);
            r.Ok? && r.value.duplicate && r.value.event == e && r.value.tables == u
  {
  }

  /** The same for a decision: whatever the review's status is by then. */
  lemma DecisionRepeats(w: World, t: Tables, i: DecisionInput, more: seq<Step>, again: DecisionInput)
    requires Sound(w, t) && Deciding(w, t, i).Ok? && !Deciding(w, t, i).value.duplicate
    requires again == i.(candidateEventId := again.candidateEventId, acceptedAt := again.acceptedAt)
    ensures var u := Run(w, Deciding(w, t, i).value.tables, more);
            && Deciding(w, u, again).Ok? && Deciding(w, u, again).value.duplicate
            && Deciding(w, u, again).value.event == Deciding(w, t, i).value.event
            && Deciding(w, u, again).value.tables == u
  {
    hide Apply, Deciding, S.Sound, AllAnchored;
    var m := Deciding(w, t, i).value;
    DecideWrites(w, t, i);
    DecideSound(w, t, i);
    RunExtends(w, m.tables, more);
    RunSound(w, m.tables, more);
    var u := Run(w, m.tables, more);
    FindAppended(t.events, m.event);
    FindStays(m.tables.events, u.events, i.idempotencyKey);
    Readable(w, u, i.reviewId);
    DecideAgain(w, u, again, m.event);
  }

  // ---------------------------------------------------------------- what an accepted log says

  /** If `j` is a later event of the review of event `i`, the last event before `j` is `i` or later. */
  lemma {:induction false} LastFrom(events: seq<Event>, i: nat, j: nat) returns (k: nat)
    requires i < j <= |events|
    ensures i <= k < j && Last(events[..j], events[i].content.reviewId) == Some(events[k])
    ensures events[k].content.reviewId == events[i].content.reviewId
    decreases j
  {
    assert events[..j][..j - 1] == events[..j - 1];
    if events[j - 1].content.reviewId == events[i].content.reviewId {
      k := j - 1;
    } else {
      k := LastFrom(events, i, j - 1);
    }
  }

  /**
    In an accepted log, two events of one review are in order: the later one is no freeze, its effective
    date is not earlier, and nothing follows a withdrawal.
  */
  lemma {:induction false} HistoryOrdered(w: World, t: Tables, i: nat, j: nat)
    requires LogReplays(w, t) && i < j < |t.events|
    requires t.events[i].content.reviewId == t.events[j].content.reviewId
    ensures t.events[j].content.action != Freeze
    ensures t.events[i].content.effectiveDay <= t.events[j].content.effectiveDay
    ensures t.events[i].content.status != Withdrawn
    ensures exists k :: i <= k < j && t.events[k].content.reviewId == t.events[j].content.reviewId
              && ValidTransition(t.events[k].content.status, t.events[j].content.action, t.events[j].content.status)
    decreases j
  {
    var k := LastFrom(t.events, i, j);
    assert EventVerifies(w, t, j);
    if i < k {
      HistoryOrdered(w, t, i, k);
    }
  }

  lemma {:induction false} FirstOf(events: seq<Event>, id: string, n: nat) returns (k: nat)
    requires n <= |events| && Last(events[..n], id).Some?
    ensures k < n && events[k].content.reviewId == id && Last(events[..k], id).None?
    decreases n
  {
    assert events[..n][..n - 1] == events[..n - 1];
    if Last(events[..n - 1], id).Some? {
      k := FirstOf(events, id, n - 1);
    } else {
      k := n - 1;
    }
  }

  /** Every frozen record has exactly one freeze, and it is the first event of its review. */
  lemma FreezeIsFirst(w: World, t: Tables, id: string)
    requires LogReplays(w, t) && id in t.records
    ensures exists k :: 0 <= k < |t.events| && t.events[k].content.reviewId == id
              && t.events[k].content.action == Freeze && t.events[k].content.status == Pending
              && t.events[k].content.effectiveDay == t.records[id].content.recordDay
              && forall j :: 0 <= j < |t.events| && j != k && t.events[j].content.reviewId == id ==>
                   k < j && t.events[j].content.action != Freeze
  {
    assert t.events[..|t.events|] == t.events;
    var k := FirstOf(t.events, id, |t.events|);
    assert EventVerifies(w, t, k);
    forall j | 0 <= j < |t.events| && j != k && t.events[j].content.reviewId == id
      ensures k < j && t.events[j].content.action != Freeze
    {
      if j < k {
        var x := LastFrom(t.events, j, k);
      } else {
        HistoryOrdered(w, t, k, j);
      }
    }
  }

  lemma {:induction false} StateAtFinds(states: seq<StateRow>, index: int) returns (k: nat)
    requires StateAt(states, index).Some?
    ensures k < |states| && states[k].eventIndex == index && StateAt(states, index) == Some(states[k])
  {
    if states[0].eventIndex == index {
      k := 0;
    } else {
      k := StateAtFinds(states[1..], index);
      k := k + 1;
    }
  }

  lemma KeyOrder(states: seq<StateRow>, a: nat, b: nat)
    requires KeyedStates(states) && a < |states| && b < |states| && states[a].eventIndex < states[b].eventIndex
    ensures a < b
  {
  }

  /** In rows ordered by their key, the row of event `i` is at position `i` or later. */
  lemma {:induction false} RowNotBefore(w: World, t: Tables, i: nat) returns (k: nat)
    requires LogReplays(w, t) && KeyedStates(t.states) && i < |t.events|
    ensures i <= k < |t.states| && t.states[k].eventIndex == i + 1
    ensures StateAt(t.states, i + 1) == Some(t.states[k])
  {
    assert EventVerifies(w, t, i);
    k := StateAtFinds(t.states, i + 1);
    if i > 0 {
      var p := RowNotBefore(w, t, i - 1);
      KeyOrder(t.states, p, k);
    }
  }

  lemma {:induction false} RowNotAfter(w: World, t: Tables, i: nat, k: nat)
    requires LogReplays(w, t) && KeyedStates(t.states) && i < |t.events|
    requires k < |t.states| && t.states[k].eventIndex == i + 1
    ensures |t.events| - i <= |t.states| - k
    decreases |t.events| - i
  {
    if i + 1 < |t.events| {
      var n := RowNotBefore(w, t, i + 1);
      KeyOrder(t.states, k, n);
      RowNotAfter(w, t, i + 1, n);
    }
  }

  /** In an accepted state the query rows are the log's projection, with no row more. */
  lemma AcceptedRowsProject(w: World, t: Tables)
    requires LogReplays(w, t) && KeyedStates(t.states)
    ensures Projected(t)
  {
    forall i | 0 <= i < |t.events|
      ensures RowProjects(t, i)
    {
      assert EventVerifies(w, t, i);
      var k := RowNotBefore(w, t, i);
      RowNotAfter(w, t, i, k);
    }
  }

  /** Contents with equal hashes are equal, for the events of two logs. */
  ghost predicate LogsApart(w: World, a: seq<Event>, b: seq<Event>) {
    && (forall i, j :: 0 <= i < |a| && 0 <= j < |b| ==>
          Apart(w.g, ReviewEventMessage(a[i].content), ReviewEventMessage(b[j].content)))
    && (forall i :: 0 <= i < |a| ==> a[i].eventHash != ZERO_HASH)
    && (forall i :: 0 <= i < |b| ==> b[i].eventHash != ZERO_HASH)
  }

  /** The hash chain alone: each event is sealed, numbered, and names the hash before it. */
  ghost predicate Chained(w: World, events: seq<Event>) {
    forall i :: 0 <= i < |events| ==> Link(w, events, i)
  }

  ghost predicate Link(w: World, events: seq<Event>, i: nat)
    requires i < |events|
  {
    && events[i] == SealedEvent(w, events[i].content) && events[i].content.eventIndex == i + 1
    && events[i].content.previousEventHash == HeadHash(events[..i])
  }

  lemma ReplayChained(w: World, t: Tables)
    requires LogReplays(w, t)
    ensures Chained(w, t.events)
  {
    forall i | 0 <= i < |t.events|
      ensures Link(w, t.events, i)
    {
      assert EventVerifies(w, t, i);
    }
  }

  lemma SameAt(w: World, a: seq<Event>, b: seq<Event>, i: nat)
    requires i < |a| && i < |b| && Link(w, a, i) && Link(w, b, i) && a[i].eventHash == b[i].eventHash
    requires Apart(w.g, ReviewEventMessage(a[i].content), ReviewEventMessage(b[i].content))
    ensures a[i] == b[i] && (i > 0 ==> a[i - 1].eventHash == b[i - 1].eventHash)
  {
  }

  lemma {:induction false} SameBelow(w: World, a: seq<Event>, b: seq<Event>, i: nat)
    requires Chained(w, a) && Chained(w, b) && LogsApart(w, a, b)
    requires i < |a| && i < |b| && a[i].eventHash == b[i].eventHash
    ensures forall k :: 0 <= k <= i ==> a[k] == b[k]
  {
    hide Link, Apart;
    assert Link(w, a, i) && Link(w, b, i);
    assert Apart(w.g, ReviewEventMessage(a[i].content), ReviewEventMessage(b[i].content));
    SameAt(w, a, b, i);
    if i > 0 {
      SameBelow(w, a, b, i - 1);
    }
  }

  lemma ChainedSame(w: World, a: seq<Event>, b: seq<Event>)
    requires Chained(w, a) && Chained(w, b) && LogsApart(w, a, b) && HeadHash(a) == HeadHash(b)
    ensures a == b
  {
    var m, n := |a|, |b|;
    if m > 0 && n > 0 {
      assert Link(w, a, m - 1) && Link(w, b, n - 1);
      assert Apart(w.g, ReviewEventMessage(a[m - 1].content), ReviewEventMessage(b[n - 1].content));
      SameBelow(w, a, b, m - 1);
    }
  }

  /** The head hash fixes the history: two accepted logs with one head are the same log. */
  lemma HeadFixesHistory(w: World, t: Tables, u: Tables)
    requires LogReplays(w, t) && LogReplays(w, u) && LogsApart(w, t.events, u.events)
    requires HeadHash(t.events) == HeadHash(u.events)
    ensures t.events == u.events
  {
    ReplayChained(w, t);
    ReplayChained(w, u);
    ChainedSame(w, t.events, u.events);
  }
}
