/**
  Reviews and allocations together: an allocation whose review has left the verification it was recorded
  against never becomes final.
*/
module ExitSafety {
  import opened Basics
  import opened Protocol
  import R = ExitReview
  import RS = ExitReviewSafety
  import O = OwnershipTransfers
  import RM = RosterMoves
  import Src = ReviewSources
  import TS = TransferSteps
  import opened ExitAllocation

  datatype Step =
    | SourceWrite(source: Src.Step)
    | ReviewFreeze(freeze: R.FreezeInput)
    | ReviewDecision(decision: R.DecisionInput)
    | TransferPrepare(prepare: TS.PrepareInput)
    | TransferAdvance(advance: TS.AdvanceInput)
    | AllocationCreate(create: CreateInput)
    | AllocationVerify(verify: VerifyInput)

  /** One committed transaction; a failed one leaves the tables as they were. */
  ghost function Apply(w: World, t: Tables, s: Step): Tables {
    match s
    case SourceWrite(x) => t.(reviews := RS.Apply(w.r, t.reviews, RS.SourceStep(x)))
    case ReviewFreeze(i) => t.(reviews := RS.Apply(w.r, t.reviews, RS.FreezeStep(i)))
    case ReviewDecision(i) => t.(reviews := RS.Apply(w.r, t.reviews, RS.DecideStep(i)))
    case TransferPrepare(i) => TS.After(t, TS.Preparing(w, t, i))
    case TransferAdvance(i) => TS.After(t, TS.Advancing(w, t, i))
    case AllocationCreate(i) => (match Creating(w, t, i) case Ok(m) => m.tables case Err(_) => t)
    case AllocationVerify(i) => (match Verifying(w, t, i) case Ok(m) => m.tables case Err(_) => t)
  }

  ghost function Run(w: World, t: Tables, steps: seq<Step>): Tables
    decreases |steps|
  {
    if steps == [] then t else Run(w, Apply(w, t, steps[0]), steps[1..])
  }

  // ---------------------------------------------------------------- what every step keeps

  ghost predicate HashesUnique(events: seq<R.Event>) {
    forall i, j :: 0 <= i < j < |events| ==> events[i].eventHash != events[j].eventHash
  }

  /** The log holds the verification that the record pins. */
  ghost predicate Pinned(w: World, events: seq<R.Event>, r: Record) {
    exists k :: 0 <= k < |events| && PinnedAt(events[k], r)
  }

  predicate PinnedAt(e: R.Event, r: Record) {
    && e.content.reviewId == r.content.exitReviewId
    && e.eventHash == r.content.exitVerificationEventHash
    && e.content.eventIndex == r.content.exitVerificationEventIndex
    && e.content.action == Verify && e.content.status == Eligible
    && e.content.evidenceHash == r.content.exitEvidenceHash && e.content.recordHash == r.content.exitRecordHash
    && e.content.acceptedAt <= r.content.createdAt
  }

  predicate SameReview(t: Tables, a: string, b: string)
    requires a in t.records && b in t.records
  {
    t.records[a].content.exitReviewId == t.records[b].content.exitReviewId
  }

  ghost predicate RecordsOk(w: World, t: Tables) {
    && (forall id :: id in t.records ==>
          t.records[id].content.allocationId == id && Pinned(w, t.reviews.events, t.records[id]))
    && (forall a, b :: a in t.records && b in t.records && SameReview(t, a, b) ==> a == b)
  }

  /** Reviews are sound, their hashes differ, and each allocation pins a verification of its own review. */
  ghost predicate Sound(w: World, t: Tables) {
    RS.Sound(w.r, t.reviews) && HashesUnique(t.reviews.events) && RecordsOk(w, t)
  }

  /** A review step leaves the log as it is, or appends an event with a new hash. */
  ghost predicate LogGrows(t: R.Tables, u: R.Tables) {
    t.events <= u.events && (HashesUnique(t.events) ==> HashesUnique(u.events))
  }

  lemma FreezeGrows(w: R.World, t: R.Tables, i: R.FreezeInput)
    requires R.Freezing(w, t, i).Ok?
    ensures LogGrows(t, R.Freezing(w, t, i).value.tables)
  {
    if R.Freezing(w, t, i).value.duplicate {
      RS.FreezeRepeated(w, t, i);
    } else {
      RS.FreezeWrites(w, t, i);
    }
  }

  lemma DecideGrows(w: R.World, t: R.Tables, i: R.DecisionInput)
    requires R.Deciding(w, t, i).Ok?
    ensures LogGrows(t, R.Deciding(w, t, i).value.tables)
  {
    if R.Deciding(w, t, i).value.duplicate {
      RS.DecideRepeated(w, t, i);
    } else {
      RS.DecideWrites(w, t, i);
    }
  }

  /** A step of the review machine keeps it sound and its log growing. */
  lemma ReviewGrows(w: R.World, t: R.Tables, s: RS.Step)
    requires RS.Sound(w, t)
    ensures RS.Sound(w, RS.Apply(w, t, s)) && LogGrows(t, RS.Apply(w, t, s)) && RS.Extends(t, RS.Apply(w, t, s))
  {
    hide Src.Apply, R.Freezing, R.Deciding, Src.Sound, RS.AllAnchored, R.LogReplays, RS.Projected, RS.Extends,
         Src.TransferAllowed;
    RS.StepSound(w, t, s);
    RS.StepExtends(w, t, s);
    match s
    case SourceStep(x) =>
    case TransferStep(r, e) =>
    case FreezeStep(i) => if R.Freezing(w, t, i).Ok? { FreezeGrows(w, t, i); }
    case DecideStep(i) => if R.Deciding(w, t, i).Ok? { DecideGrows(w, t, i); }
  }

  /** What the steps other than those on allocations do: a step of the review machine, or nothing. */
  ghost predicate OnReviews(w: World, t: Tables, s: Step, u: Tables) {
    u == t || exists x :: u == t.(reviews := RS.Apply(w.r, t.reviews, x))
  }

  /** The step of the review machine that a preparation is. */
  lemma PrepareIsStep(w: World, t: Tables, i: TS.PrepareInput) returns (x: RS.Step)
    requires TS.Writes(TS.Preparing(w, t, i))
    ensures x.TransferStep? && x.event.action == O.Prepare
    ensures Apply(w, t, TransferPrepare(i)) == t.(reviews := RS.Apply(w.r, t.reviews, x))
  {
    hide Creating, Verifying, TS.Preparing, Src.TransferAllowed, R.Freezing, R.Deciding;
    var o := TS.Preparing(w, t, i).value;
    TS.PrepareContinues(w, t, i);
    x := RS.TransferStep(o.record, o.event);
    assert RS.Apply(w.r, t.reviews, x) == RS.Transferring(w.r, t.reviews, o.record, o.event);
  }

  /** The same for a decision on a transfer. */
  lemma AdvanceIsTransfer(w: World, t: Tables, i: TS.AdvanceInput) returns (x: RS.Step)
    requires TS.Writes(TS.Advancing(w, t, i))
    requires var o := TS.Advancing(w, t, i).value;
             Src.TransferAllowed(R.SettingOf(w.r), t.reviews.sources, o.record, o.event)
    ensures x == RS.TransferStep(TS.Advancing(w, t, i).value.record, TS.Advancing(w, t, i).value.event)
    ensures Apply(w, t, TransferAdvance(i)) == t.(reviews := RS.Apply(w.r, t.reviews, x))
  {
    hide Creating, Verifying, TS.Advancing, Src.TransferAllowed, R.Freezing, R.Deciding;
    var o := TS.Advancing(w, t, i).value;
    x := RS.TransferStep(o.record, o.event);
    assert RS.Apply(w.r, t.reviews, x) == RS.Transferring(w.r, t.reviews, o.record, o.event);
  }

  lemma TransfersSound(w: World, t: Tables)
    requires RS.Sound(w.r, t.reviews)
    ensures O.Ok(TransfersIn(t))
  {
  }

  lemma TransferOnReviews(w: World, t: Tables, s: Step)
    requires RS.Sound(w.r, t.reviews) && (s.TransferPrepare? || s.TransferAdvance?)
    ensures OnReviews(w, t, s, Apply(w, t, s))
  {
    hide RS.Apply, RS.Sound, O.Ok, TS.Preparing, TS.Advancing, Src.TransferAllowed;
    TransfersSound(w, t);
    if s.TransferPrepare? && TS.Writes(TS.Preparing(w, t, s.prepare)) {
      var x := PrepareIsStep(w, t, s.prepare);
    } else if s.TransferAdvance? && TS.Writes(TS.Advancing(w, t, s.advance)) {
      TS.AdvanceContinues(w, t, s.advance);
      var x := AdvanceIsTransfer(w, t, s.advance);
    }
  }

  lemma StepOnReviews(w: World, t: Tables, s: Step)
    requires Sound(w, t) && !s.AllocationCreate? && !s.AllocationVerify?
    ensures OnReviews(w, t, s, Apply(w, t, s))
  {
    hide RS.Apply, Creating, Verifying, TS.Preparing, TS.Advancing;
    match s
    case SourceWrite(x) => assert Apply(w, t, s) == t.(reviews := RS.Apply(w.r, t.reviews, RS.SourceStep(x)));
    case ReviewFreeze(i) => assert Apply(w, t, s) == t.(reviews := RS.Apply(w.r, t.reviews, RS.FreezeStep(i)));
    case ReviewDecision(i) => assert Apply(w, t, s) == t.(reviews := RS.Apply(w.r, t.reviews, RS.DecideStep(i)));
    case TransferPrepare(_) => TransferOnReviews(w, t, s);
    case TransferAdvance(_) => TransferOnReviews(w, t, s);
  }

  lemma PinnedStays(w: World, a: seq<R.Event>, b: seq<R.Event>, r: Record)
    requires Pinned(w, a, r) && a <= b
    ensures Pinned(w, b, r)
  {
    var k :| 0 <= k < |a| && PinnedAt(a[k], r);
    assert PinnedAt(b[k], r);
  }

  lemma ReviewStepSound(w: World, t: Tables, u: R.Tables)
    requires Sound(w, t) && RS.Sound(w.r, u) && LogGrows(t.reviews, u)
    ensures Sound(w, t.(reviews := u))
  {
    SameRecordsOk(w, t, t.(reviews := u));
  }

  lemma {:induction false} ReviewEventFound(events: seq<R.Event>, index: int, hash: string, reviewId: string)
    returns (k: nat)
    requires ReviewEventAt(events, index, hash, reviewId).Some?
    ensures k < |events| && ReviewEventAt(events, index, hash, reviewId) == Some(events[k])
    ensures events[k].content.eventIndex == index && events[k].eventHash == hash
    ensures events[k].content.reviewId == reviewId
  {
    if events[0].content.eventIndex == index && events[0].eventHash == hash && events[0].content.reviewId == reviewId {
      k := 0;
    } else {
      k := ReviewEventFound(events[1..], index, hash, reviewId);
      k := k + 1;
    }
  }

  /** A review stands at a verification only if that is its last event. */
  lemma StandingIsLast(w: World, t: Tables, reviewId: string, hash: string)
    requires Sound(w, t) && ExactReview(t, reviewId, hash).Some?
    ensures var v := ExactReview(t, reviewId, hash).value;
            && R.Last(t.reviews.events, reviewId).Some? && R.Last(t.reviews.events, reviewId).value.eventHash == hash
            && v.review.record.content.reviewId == reviewId && v.event in t.reviews.events
            && v.event.content.reviewId == reviewId && v.event.eventHash == hash
            && v.event.content.action == Verify && v.event.content.status == Eligible
            && v.event.content.recordHash == v.review.record.recordHash
  {
    hide HashesUnique, RecordsOk, RS.LogOk, RS.AllAnchored, Src.Sound;
    RS.Readable(w.r, t.reviews, reviewId);
    var v := ExactReview(t, reviewId, hash).value;
    var k := ReviewEventFound(t.reviews.events, v.review.state.eventIndex, hash, reviewId);
  }

  lemma CreateRecords(w: World, t: Tables, v: Standing, i: CreateInput)
    requires CreatingFor(w, t, v, i).Ok?
    requires v.event in t.reviews.events
    requires v.review.record.content.reviewId == i.exitReviewId
    requires v.event.content.reviewId == i.exitReviewId && v.event.content.action == Verify
    requires v.event.content.status == Eligible && v.event.content.recordHash == v.review.record.recordHash
    ensures var m := CreatingFor(w, t, v, i).value;
            var r := m.allocation.record;
            && m.tables == Written(t, r, m.event) && NewRecord(t, r) && NewEvent(t, m.event) && !m.duplicate
            && r.content.exitReviewId == i.exitReviewId && Pinned(w, t.reviews.events, r)
            && m.event.content.allocationId == r.content.allocationId && m.event.content.status == Recorded
  {
    var r := CreatingFor(w, t, v, i).value.allocation.record;
    var k :| 0 <= k < |t.reviews.events| && t.reviews.events[k] == v.event;
    assert PinnedAt(t.reviews.events[k], r);
  }

  lemma RecordsWritten(w: World, t: Tables, r: Record, e: Event)
    requires RecordsOk(w, t) && Pinned(w, t.reviews.events, r)
    requires r.content.allocationId !in t.records && Unallocated(t, r.content.exitReviewId)
    ensures RecordsOk(w, Written(t, r, e))
  {
    var u := Written(t, r, e);
    forall a, b | a in u.records && b in u.records && SameReview(u, a, b)
      ensures a == b
    {
      assert a in t.records && b in t.records ==> SameReview(t, a, b);
    }
  }

  /** What a successful creation does. */
  ghost predicate Created(t: Tables, m: Mutation) {
    if m.duplicate then m.tables == t
    else
      && m.tables == Written(t, m.allocation.record, m.event) && NewRecord(t, m.allocation.record)
      && m.event.content.allocationId == m.allocation.record.content.allocationId
      && m.event.content.status == Recorded && Unallocated(t, m.allocation.record.content.exitReviewId)
  }

  /** A creation either changes nothing or writes a new record of an unallocated, standing review. */
  lemma CreateSound(w: World, t: Tables, i: CreateInput)
    requires Sound(w, t) && Creating(w, t, i).Ok?
    ensures Created(t, Creating(w, t, i).value)
    ensures Sound(w, Creating(w, t, i).value.tables)
  {
    hide RS.Sound, CreatingFor;
    var m := Creating(w, t, i).value;
    if FindByKey(t.events, i.idempotencyKey).None? {
      StandingIsLast(w, t, i.exitReviewId, i.verificationHash);
      CreateRecords(w, t, ExactReview(t, i.exitReviewId, i.verificationHash).value, i);
      RecordsWritten(w, t, m.allocation.record, m.event);
    }
  }

  /** What a successful verification of `id` does. */
  ghost predicate Verified(t: Tables, id: string, m: Mutation) {
    if m.duplicate then m.tables == t
    else
      && id in t.records && m.tables == t.(events := t.events + [m.event], states := m.tables.states)
      && m.event.content.allocationId == id
      && var c := t.records[id].content;
         && R.Last(t.reviews.events, c.exitReviewId).Some?
         && R.Last(t.reviews.events, c.exitReviewId).value.eventHash == c.exitVerificationEventHash
  }

  lemma VerifyRecords(w: World, t: Tables, v: Standing, a: Allocation, i: VerifyInput)
    requires VerifyingFor(w, t, v, a, i).Ok? && i.allocationId in t.records && a.record == t.records[i.allocationId]
    requires a.record.content.allocationId == i.allocationId
    ensures var m := VerifyingFor(w, t, v, a, i).value;
            && !m.duplicate && m.tables == t.(events := t.events + [m.event], states := m.tables.states)
            && m.event.content.allocationId == i.allocationId
  {
    assert t.records[i.allocationId := a.record] == t.records;
  }

  /** A verification either changes nothing or adds the final event of a standing review's allocation. */
  lemma VerifySound(w: World, t: Tables, i: VerifyInput)
    requires Sound(w, t) && Verifying(w, t, i).Ok?
    ensures Verified(t, i.allocationId, Verifying(w, t, i).value)
    ensures Sound(w, Verifying(w, t, i).value.tables)
  {
    hide RS.Sound, VerifyingFor;
    if FindByKey(t.events, i.idempotencyKey).None? {
      var a := AllocationById(t, i.allocationId).value;
      var c := a.record.content;
      StandingIsLast(w, t, c.exitReviewId, c.exitVerificationEventHash);
      VerifyRecords(w, t, ExactReview(t, c.exitReviewId, c.exitVerificationEventHash).value, a, i);
      SameRecordsOk(w, t, Verifying(w, t, i).value.tables);
    }
  }

  lemma SameRecordsOk(w: World, t: Tables, u: Tables)
    requires RecordsOk(w, t) && u.records == t.records && t.reviews.events <= u.reviews.events
    ensures RecordsOk(w, u)
  {
    forall id | id in u.records
      ensures Pinned(w, u.reviews.events, u.records[id])
    {
      PinnedStays(w, t.reviews.events, u.reviews.events, u.records[id]);
    }
    forall a, b | a in u.records && b in u.records && SameReview(u, a, b)
      ensures a == b
    {
      assert SameReview(t, a, b);
    }
  }

  lemma OnReviewsSound(w: World, t: Tables, s: Step, u: Tables)
    requires Sound(w, t) && OnReviews(w, t, s, u)
    ensures Sound(w, u) && LogGrows(t.reviews, u.reviews) && RS.Extends(t.reviews, u.reviews)
    ensures u == t.(reviews := u.reviews)
  {
    if u != t {
      var x :| u == t.(reviews := RS.Apply(w.r, t.reviews, x));
      ReviewGrows(w.r, t.reviews, x);
      ReviewStepSound(w, t, u.reviews);
    }
  }

  lemma StepSound(w: World, t: Tables, s: Step)
    requires Sound(w, t)
    ensures Sound(w, Apply(w, t, s))
  {
    hide RS.Apply, Creating, Verifying, TS.Preparing, TS.Advancing, Sound, OnReviews;
    if s.AllocationCreate? {
      if Creating(w, t, s.create).Ok? { CreateSound(w, t, s.create); }
    } else if s.AllocationVerify? {
      if Verifying(w, t, s.verify).Ok? { VerifySound(w, t, s.verify); }
    } else {
      StepOnReviews(w, t, s);
      OnReviewsSound(w, t, s, Apply(w, t, s));
    }
  }

  lemma EmptySound(w: World)
    ensures Sound(w, Empty)
  {
    RS.EmptySound(w.r);
  }

  lemma {:induction false} RunSound(w: World, t: Tables, steps: seq<Step>)
    requires Sound(w, t)
    ensures Sound(w, Run(w, t, steps))
    decreases |steps|
  {
    hide Apply, Sound;
    if steps != [] {
      StepSound(w, t, steps[0]);
      RunSound(w, Apply(w, t, steps[0]), steps[1..]);
    }
  }

  // ---------------------------------------------------------------- when the reviews replay

  /**
    The step writes something from before the end of a day after a record of that day was frozen: an audit
    event, claim review or eligibility decision, or the completion of a transfer from or to the record's group.
  */
  predicate Early(w: World, t: Tables, s: Step) {
    match s
    case SourceWrite(x) => RS.EarlyEvent(w.r, t.reviews, RS.SourceStep(x))
    case TransferAdvance(i) =>
      var outcome := TS.Advancing(w, t, i);
      && TS.Writes(outcome) && i.action == O.Complete
      && exists id :: id in t.reviews.records
                      && RM.Touches(t.reviews.records[id], outcome.value.record, outcome.value.event)
    case _ => false
  }

  ghost predicate NoneEarly(w: World, t: Tables, steps: seq<Step>)
    decreases |steps|
  {
    steps == [] || (!Early(w, t, steps[0]) && NoneEarly(w, Apply(w, t, steps[0]), steps[1..]))
  }

  lemma EarlyAlike(w: World, t: Tables, i: TS.AdvanceInput, x: RS.Step)
    requires TS.Writes(TS.Advancing(w, t, i))
    requires x == RS.TransferStep(TS.Advancing(w, t, i).value.record, TS.Advancing(w, t, i).value.event)
    requires Src.TransferAllowed(R.SettingOf(w.r), t.reviews.sources, x.transfer, x.event) && x.event.action == i.action
    ensures RS.Early(w.r, t.reviews, x) <==> Early(w, t, TransferAdvance(i))
  {
    hide TS.Advancing, Src.TransferAllowed;
  }

  lemma AdvanceStands(w: World, t: Tables, i: TS.AdvanceInput)
    requires RS.Sound(w.r, t.reviews) && TS.Writes(TS.Advancing(w, t, i))
    ensures RS.AllStand(Apply(w, t, TransferAdvance(i)).reviews)
            <==> RS.AllStand(t.reviews) && !Early(w, t, TransferAdvance(i))
  {
    hide RS.Sound, RS.Apply, Creating, Verifying, TS.Advancing, Src.TransferAllowed, O.Ok, RS.Early, Early, RS.AllStand;
    TransfersSound(w, t);
    TS.AdvanceContinues(w, t, i);
    var x := AdvanceIsTransfer(w, t, i);
    EarlyAlike(w, t, i, x);
    RS.StepStands(w.r, t.reviews, x);
  }

  lemma StepReviewsStand(w: World, t: Tables, s: Step)
    requires Sound(w, t)
    ensures RS.AllStand(Apply(w, t, s).reviews) <==> RS.AllStand(t.reviews) && !Early(w, t, s)
  {
    hide RS.Apply, Creating, Verifying, TS.Preparing, TS.Advancing, RS.AllStand, RS.Sound;
    match s
    case SourceWrite(x) => RS.StepStands(w.r, t.reviews, RS.SourceStep(x));
    case ReviewFreeze(i) => RS.StepStands(w.r, t.reviews, RS.FreezeStep(i));
    case ReviewDecision(i) => RS.StepStands(w.r, t.reviews, RS.DecideStep(i));
    case TransferPrepare(i) =>
      if TS.Writes(TS.Preparing(w, t, i)) {
        var x := PrepareIsStep(w, t, i);
        RS.StepStands(w.r, t.reviews, x);
      }
    case TransferAdvance(i) =>
      if TS.Writes(TS.Advancing(w, t, i)) {
        AdvanceStands(w, t, i);
      }
    case AllocationCreate(i) => if Creating(w, t, i).Ok? { CreateSound(w, t, i); }
    case AllocationVerify(i) => if Verifying(w, t, i).Ok? { VerifySound(w, t, i); }
  }

  lemma {:induction false} RunReviewsStand(w: World, t: Tables, steps: seq<Step>)
    requires Sound(w, t)
    ensures RS.AllStand(Run(w, t, steps).reviews) <==> RS.AllStand(t.reviews) && NoneEarly(w, t, steps)
    decreases |steps|
  {
    hide Apply, Sound, Early, RS.AllStand;
    if steps != [] {
      StepSound(w, t, steps[0]);
      StepReviewsStand(w, t, steps[0]);
      RunReviewsStand(w, Apply(w, t, steps[0]), steps[1..]);
    }
  }

  /** With all writers and their own guards, the replay of the reviews accepts exactly the runs with nothing early. */
  lemma ReviewsReplayIff(w: World, steps: seq<Step>)
    ensures R.Replayable(w.r, Run(w, Empty, steps).reviews) <==> NoneEarly(w, Empty, steps)
  {
    hide Apply, Early;
    EmptySound(w);
    RunSound(w, Empty, steps);
    RunReviewsStand(w, Empty, steps);
    RS.ReplaysIffStanding(w.r, Run(w, Empty, steps).reviews);
  }

  // ---------------------------------------------------------------- stale allocations

  /** No event has made the allocation final. */
  ghost predicate NotFinal(t: Tables, id: string) {
    forall k :: 0 <= k < |t.events| && t.events[k].content.allocationId == id ==>
      t.events[k].content.status != VerifiedFinal
  }

  /** The allocation is recorded, not final, and its review has moved on from the pinned verification. */
  ghost predicate Stale(t: Tables, id: string) {
    && id in t.records && NotFinal(t, id)
    && var c := t.records[id].content;
       && R.Last(t.reviews.events, c.exitReviewId).Some?
       && R.Last(t.reviews.events, c.exitReviewId).value.eventHash != c.exitVerificationEventHash
  }

  lemma {:induction false} LastIn(events: seq<R.Event>, id: string)
    requires R.Last(events, id).Some?
    ensures R.Last(events, id).value in events && R.Last(events, id).value.content.reviewId == id
  {
    if events[|events| - 1].content.reviewId != id {
      LastIn(events[..|events| - 1], id);
    }
  }

  lemma {:induction false} LastGrows(a: seq<R.Event>, b: seq<R.Event>, id: string)
    requires a <= b
    ensures R.Last(b, id) == R.Last(a, id) || exists k :: |a| <= k < |b| && R.Last(b, id) == Some(b[k])
    decreases |b|
  {
    if |a| == |b| {
      assert a == b;
    } else if b[|b| - 1].content.reviewId != id {
      LastGrows(a, b[..|b| - 1], id);
    }
  }

  /** New review events have new hashes, so none of them is the pinned verification. */
  lemma StaleUnderReviews(w: World, t: Tables, u: R.Tables, id: string)
    requires Sound(w, t) && Stale(t, id) && LogGrows(t.reviews, u)
    ensures Stale(t.(reviews := u), id)
  {
    var c := t.records[id].content;
    LastGrows(t.reviews.events, u.events, c.exitReviewId);
    assert Pinned(w, t.reviews.events, t.records[id]);
    var p :| 0 <= p < |t.reviews.events| && PinnedAt(t.reviews.events[p], t.records[id]);
    assert u.events[p] == t.reviews.events[p];
  }

  lemma StaleCreated(t: Tables, m: Mutation, id: string)
    requires Stale(t, id) && Created(t, m)
    ensures Stale(m.tables, id) && m.tables.records[id] == t.records[id]
  {
  }

  lemma StaleVerified(t: Tables, verified: string, m: Mutation, id: string)
    requires Stale(t, id) && Verified(t, verified, m)
    ensures Stale(m.tables, id) && m.tables.records[id] == t.records[id]
  {
  }

  ghost predicate StaleStill(t: Tables, u: Tables, id: string) {
    Stale(t, id) && Stale(u, id) && u.records[id] == t.records[id]
  }

  lemma StaleStep(w: World, t: Tables, s: Step, id: string)
    requires Sound(w, t) && Stale(t, id)
    ensures StaleStill(t, Apply(w, t, s), id)
  {
    hide RS.Apply, Creating, Verifying, TS.Preparing, TS.Advancing, OnReviews, Sound, Stale, Created, Verified,
         LogGrows;
    if s.AllocationCreate? {
      if Creating(w, t, s.create).Ok? {
        CreateSound(w, t, s.create);
        StaleCreated(t, Creating(w, t, s.create).value, id);
      }
    } else if s.AllocationVerify? {
      if Verifying(w, t, s.verify).Ok? {
        VerifySound(w, t, s.verify);
        StaleVerified(t, s.verify.allocationId, Verifying(w, t, s.verify).value, id);
      }
    } else {
      StepOnReviews(w, t, s);
      OnReviewsSound(w, t, s, Apply(w, t, s));
      StaleUnderReviews(w, t, Apply(w, t, s).reviews, id);
    }
  }

  lemma {:induction false} StaleRun(w: World, t: Tables, steps: seq<Step>, id: string)
    requires Sound(w, t) && Stale(t, id)
    ensures StaleStill(t, Run(w, t, steps), id)
    decreases |steps|
  {
    hide Apply, Stale, Sound;
    if steps != [] {
      StepSound(w, t, steps[0]);
      StaleStep(w, t, steps[0], id);
      StaleRun(w, Apply(w, t, steps[0]), steps[1..], id);
    }
  }

  /** A review that is no longer eligible has moved on from every verification. */
  lemma NotEligibleIsStale(w: World, t: Tables, id: string)
    requires Sound(w, t) && id in t.records && NotFinal(t, id)
    requires R.ReviewById(t.reviews, t.records[id].content.exitReviewId).Some?
    requires R.ReviewById(t.reviews, t.records[id].content.exitReviewId).value.state.status != Eligible
    ensures Stale(t, id)
  {
    var c := t.records[id].content;
    RS.LatestIsLast(t.reviews.sources, t.reviews.records, t.reviews.events, t.reviews.states, c.exitReviewId);
    assert Pinned(w, t.reviews.events, t.records[id]);
    var p :| 0 <= p < |t.reviews.events| && PinnedAt(t.reviews.events[p], t.records[id]);
    LastIn(t.reviews.events, c.exitReviewId);
    var l :| 0 <= l < |t.reviews.events| && t.reviews.events[l] == R.Last(t.reviews.events, c.exitReviewId).value;
    assert l != p;
  }

  /** No event makes any allocation of this review final. */
  ghost predicate NeverFinalFor(t: Tables, reviewId: string) {
    forall k :: 0 <= k < |t.events| && t.events[k].content.allocationId in t.records
                && t.records[t.events[k].content.allocationId].content.exitReviewId == reviewId ==>
      t.events[k].content.status != VerifiedFinal
  }

  lemma StaleMeans(w: World, t: Tables, id: string)
    requires RecordsOk(w, t) && Stale(t, id)
    ensures NeverFinalFor(t, t.records[id].content.exitReviewId)
  {
    forall other | other in t.records && SameReview(t, other, id)
      ensures other == id
    {
    }
    var reviewId := t.records[id].content.exitReviewId;
    assert forall k :: 0 <= k < |t.events| && t.events[k].content.allocationId in t.records
                       && t.records[t.events[k].content.allocationId].content.exitReviewId == reviewId ==>
             SameReview(t, t.events[k].content.allocationId, id);
  }

  /** The review of a recorded allocation that is not final was disputed or withdrawn. */
  ghost predicate Challenged(t: Tables, id: string) {
    && id in t.records && NotFinal(t, id)
    && var v := R.ReviewById(t.reviews, t.records[id].content.exitReviewId);
       v.Some? && (v.value.state.status == Disputed || v.value.state.status == Withdrawn)
  }

  /**
    If a review is disputed or withdrawn after its allocation was recorded and before it was verified, then
    in no later run, with or without a fresh verification of the review, does that review get a final
    allocation.
  */
  lemma NeverFinal(w: World, steps: seq<Step>, more: seq<Step>, id: string)
    requires Challenged(Run(w, Empty, steps), id)
    ensures NeverFinalFor(Run(w, Run(w, Empty, steps), more), Run(w, Empty, steps).records[id].content.exitReviewId)
  {
    hide Apply, NeverFinalFor;
    EmptySound(w);
    RunSound(w, Empty, steps);
    var t := Run(w, Empty, steps);
    NotEligibleIsStale(w, t, id);
    StaleRun(w, t, more, id);
    RunSound(w, t, more);
    StaleMeans(w, Run(w, t, more), id);
  }
}
