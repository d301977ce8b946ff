/**
  Three reached states that the independent replays refuse: an audit event and the completion of a transfer
  under a clock that has run back behind a frozen day, and a final verification whose payload hash its caller
  made up.
*/
module Counterexamples {
  import opened Basics
  import opened Protocol
  import MT = MerkleTree
  import L = Ledger
  import LS = LedgerSafety
  import C = OperatorClaims
  import DL = DatedLogs
  import O = OwnershipTransfers
  import Ro = Rosters
  import SB = SettlementBoundaries
  import D = DigestText
  import Src = ReviewSources
  import R = ExitReview
  import RM = RosterMoves
  import RS = ExitReviewSafety
  import A = AllocationRows
  import E = ExitAllocation
  import TS = TransferSteps
  import S = ExitSafety
  import AR = AllocationReplay

  // ---------------------------------------------------------------- the registry

  /** Events hash by their index, and everything else to the empty text. */
  function HashOf(m: Message): string {
    match m
    case ReviewEventMessage(c) => if c.eventIndex == 1 then "freeze" else "verify"
    case AllocationEventMessage(c) => if c.eventIndex == 1 then "create" else "final"
    case _ => ""
  }

  const TARGET: R.Claim := R.Claim(0, "deployment", "claim", "group")

  predicate Any<T>(x: T) { true }

  ghost function Anything<T(!new)>(): iset<T> { iset x: T | Any(x) }

  function EmptyText(m: Message): string { "" }

  function EmptyDigest(m: MT.Message): MT.Digest { MT.Digest([]) }

  /** A registry from the start of day 0. */
  ghost function Sample(): R.World {
    R.World(
      imap m: Message | Any(m) :: HashOf(m), imap m: MT.Message | Any(m) :: EmptyDigest(m),
      imap m: Message | Any(m) :: EmptyText(m), map[], "scope", "key", 0, Anything<R.Fields>(),
      Anything<ReviewContent>(), SB.Patterns(Anything<string>(), Anything<string>()))
  }

  /** On day 0 two deployments are claimed, in two groups, and the claims are approved. */
  const CLAIMED: C.AuditFact :=
    C.AuditFact("claim", "deployment", C.SubmitClaim, C.PendingReview, "group", "", "name")

  const OTHER: C.AuditFact :=
    C.AuditFact("other-claim", "other", C.SubmitClaim, C.PendingReview, "other-group", "", "other-name")

  const CLAIMS: seq<C.Audit> := [DL.Dated(1, 5, "claim-hash", CLAIMED), DL.Dated(2, 6, "other-hash", OTHER)]

  const APPROVALS: seq<C.ClaimReview> :=
    [DL.Dated(1, 7, "approval-hash", C.ReviewFact("deployment", "claim", true)),
     DL.Dated(2, 8, "other-approval-hash", C.ReviewFact("other", "other-claim", true))]

  const DAY: seq<Src.Step> :=
    [Src.AuditStep(5, "claim-hash", CLAIMED), Src.AuditStep(6, "other-hash", OTHER),
     Src.ClaimReviewStep(7, "approval-hash", APPROVALS[0].fact),
     Src.ClaimReviewStep(8, "other-approval-hash", APPROVALS[1].fact)]

  /** Day 0 is finalized when day 1 has begun. */
  const CLOSE: Src.Step := Src.LedgerStep(LS.Close(86400))

  const FREEZE: R.FreezeInput :=
    R.FreezeInput(TARGET, Buyer, "actor", "reference", "evidence", "freeze-key", "review", "event-1", 86400)

  ghost function After(t: R.Tables, steps: seq<Src.Step>): R.Tables {
    if steps == [] then t
    else RS.Apply(Sample(), After(t, steps[..|steps| - 1]), RS.SourceStep(steps[|steps| - 1]))
  }

  ghost function Approved(): R.Tables { After(R.Empty, DAY) }

  ghost function Closed(): R.Tables { After(R.Empty, DAY + [CLOSE]) }

  ghost function Frozen(): R.Tables {
    RS.Apply(Sample(), Closed(), RS.FreezeStep(FREEZE))
  }

  const STANDING: C.Network :=
    C.Network(true, true, C.PendingReview, 1, "claim", "claim-hash", 5, "group", "group", 1)

  const OTHER_STANDING: C.Network :=
    C.Network(true, true, C.PendingReview, 2, "other-claim", "other-hash", 6, "other-group", "other-group", 2)

  lemma ClaimsStand()
    ensures C.NetworkOf(CLAIMS, "deployment") == STANDING && C.NetworkOf(CLAIMS, "other") == OTHER_STANDING
    ensures C.ReviewOf(APPROVALS, "claim") == Some(APPROVALS[0])
    ensures C.ReviewOf(APPROVALS, "other-claim") == Some(APPROVALS[1])
  {
    ClaimsBuilt();
    assert CLAIMS[..1] == [CLAIMS[0]] && APPROVALS[..1] == [APPROVALS[0]];
  }

  lemma ClaimsBuilt()
    ensures C.NetworkOf([CLAIMS[0]], "deployment") == STANDING && C.NetworkOf([CLAIMS[0]], "other") == C.UNKNOWN
    ensures C.ReviewOf([APPROVALS[0]], "claim") == Some(APPROVALS[0])
    ensures C.ReviewOf([APPROVALS[0]], "other-claim") == None
  {
    assert C.NetworkOf([], "deployment") == C.UNKNOWN && C.NetworkOf([], "other") == C.UNKNOWN;
    assert [CLAIMS[0]][..0] == [] && [APPROVALS[0]][..0] == [];
    assert C.ReviewOf([], "other-claim") == None;
  }

  /** The sources after the first events of the day. */
  function Begun(audits: nat, reviews: nat): Src.Sources
    requires audits <= |CLAIMS| && reviews <= |APPROVALS|
  {
    Src.Empty.(audits := CLAIMS[..audits], claimReviews := APPROVALS[..reviews])
  }

  lemma ClaimsMade()
    ensures var c := R.SettingOf(Sample());
            Src.Apply(c, Begun(0, 0), DAY[0]) == Begun(1, 0) && Src.Apply(c, Begun(1, 0), DAY[1]) == Begun(2, 0)
  {
    ClaimsBuilt();
    assert C.NetworkOf([], "deployment") == C.UNKNOWN;
    assert CLAIMS[..0] == [] && CLAIMS[..1] == [CLAIMS[0]] && CLAIMS[..2] == CLAIMS && APPROVALS[..0] == [];
    assert [] + [CLAIMS[0]] == [CLAIMS[0]] && [CLAIMS[0]] + [CLAIMS[1]] == CLAIMS;
  }

  lemma ClaimsApproved()
    ensures var c := R.SettingOf(Sample());
            Src.Apply(c, Begun(2, 0), DAY[2]) == Begun(2, 1) && Src.Apply(c, Begun(2, 1), DAY[3]) == Begun(2, 2)
  {
    ClaimsStand();
    ClaimsBuilt();
    assert C.ReviewOf([], "claim") == None;
    assert CLAIMS[..2] == CLAIMS;
    assert APPROVALS[..0] == [] && APPROVALS[..1] == [APPROVALS[0]] && APPROVALS[..2] == APPROVALS;
    assert [] + [APPROVALS[0]] == [APPROVALS[0]] && [APPROVALS[0]] + [APPROVALS[1]] == APPROVALS;
  }

  lemma DayApproved()
    ensures Approved() == R.Empty.(sources := Src.Empty.(audits := CLAIMS, claimReviews := APPROVALS))
  {
    hide Src.Apply;
    ClaimsMade();
    ClaimsApproved();
    assert CLAIMS[..0] == [] && CLAIMS[..2] == CLAIMS && APPROVALS[..0] == [] && APPROVALS[..2] == APPROVALS;
    assert DAY[..3] == [DAY[0], DAY[1], DAY[2]] && DAY[..3][..2] == [DAY[0], DAY[1]];
    assert [DAY[0], DAY[1]][..1] == [DAY[0]] && [DAY[0]][..0] == [];
    assert After(R.Empty, []) == R.Empty;
    assert After(R.Empty, [DAY[0]]).sources == Begun(1, 0);
    assert After(R.Empty, [DAY[0], DAY[1]]).sources == Begun(2, 0);
    assert After(R.Empty, DAY[..3]).sources == Begun(2, 1);
  }

  lemma DayCloses()
    ensures var r := R.SettingOf(Sample()).registry;
            var c := CheckpointContent("scope", 0, 0, 0, ZERO_HASH, ZERO_HASH, 86400, "key");
            Closed() == Approved().(sources := Approved().sources.(ledger := L.Empty.(checkpoints := [L.Sealed(r, c)])))
  {
    var r := R.SettingOf(Sample()).registry;
    var c := CheckpointContent("scope", 0, 0, 0, ZERO_HASH, ZERO_HASH, 86400, "key");
    hide L.Accept, L.SideWrite, L.AppendOther;
    var u := L.Empty.(checkpoints := [L.Sealed(r, c)]);
    DayApproved();
    assert (DAY + [CLOSE])[..|DAY|] == DAY;
    assert L.HeadBefore([], L.EndOf(0)) == Some(L.Head(0, 0, ZERO_HASH));
    assert L.CheckpointFor(r, L.Empty, 0, 86400) == Some(L.Sealed(r, c));
    assert L.Empty.checkpoints + [L.Sealed(r, c)] == u.checkpoints;
    assert L.FinalizeDays(r, u, 1, 0, 86400) == Some(u);
    assert L.FinalizeDays(r, L.Empty, 0, 0, 86400) == Some(u);
    assert L.Finalize(r, L.Empty, 86400) == Some(u);
  }

  /** The roster of the group at the end of day 0: the deployment, with its approved claim. */
  lemma RosterReads(s: Src.Sources)
    requires s.audits == CLAIMS && s.claimReviews == APPROVALS && s.eligibilities == [] && s.transfers == O.Empty
    ensures R.HeadsAt(s, 0) == R.Heads(Some(CLAIMS[1]), Some(APPROVALS[1]), None, 0)
    ensures R.RosterAt(s, TARGET, R.HeadsAt(s, 0)).Some?
    ensures Ro.Lists(R.RosterAt(s, TARGET, R.HeadsAt(s, 0)).value.members, "deployment")
  {
    var h := R.HeadsAt(s, 0);
    var b := R.BoundaryOf(s, h, 0);
    assert DL.HeadBefore(CLAIMS, L.EndOf(0)) == Some(CLAIMS[1]);
    assert DL.HeadBefore(APPROVALS, L.EndOf(0)) == Some(APPROVALS[1]);
    DL.UptoIsPrefix(CLAIMS, 2);
    DL.UptoIsPrefix(APPROVALS, 2);
    assert CLAIMS[..2] == CLAIMS && APPROVALS[..2] == APPROVALS;
    assert b == Ro.Boundary(CLAIMS, APPROVALS, [], []);
    ClaimsStand();
    assert Ro.GroupOf(b, "deployment") == "group";
    assert Ro.TargetIn(b, "group", "deployment", "claim");
    Ro.RosterExact(b, s.audits, "deployment", "claim", "group");
    assert Ro.Lists(R.RosterAt(s, TARGET, h).value.members, "deployment");
  }

  /** A record of day 0 can be computed, without settlements; its roster has the claim's deployment. */
  lemma RecordComputes() returns (r: R.Record)
    ensures R.RecordOf(Sample(), Closed().sources, TARGET, "review", 86400) == R.Ok(r)
    ensures r.settlements == [] && r.content.recordDay == 0 && r.content.reviewId == "review" && R.ClaimOf(r) == TARGET
    ensures Ro.Lists(r.members, "deployment")
  {
    hide R.RosterAt, R.HeadsAt, D.Format;
    DayCloses();
    DayApproved();
    var w, s := Sample(), Closed().sources;
    RosterReads(s);
    var v := Src.ViewOf(R.SettingOf(w), s, 0);
    assert SB.Ranked([], 0) == [];
    assert v.View? && v.settlements == [];
    r := R.RecordOf(w, s, TARGET, "review", 86400).value;
  }

  /** The freeze of day 0 is accepted. */
  lemma DayFreezes()
    ensures R.Freezing(Sample(), Closed(), FREEZE).Ok? && !R.Freezing(Sample(), Closed(), FREEZE).value.duplicate
    ensures var r := R.Freezing(Sample(), Closed(), FREEZE).value.review.record;
            r.settlements == [] && Ro.Lists(r.members, "deployment")
  {
    hide R.RecordOf, LS.Apply;
    var r := RecordComputes();
    DayCloses();
    DayApproved();
    assert Closed().records == map[] && Closed().events == [];
  }

  // ---------------------------------------------------------------- the clock runs back

  function Sourced(steps: seq<Src.Step>): seq<RS.Step> {
    if steps == [] then [] else Sourced(steps[..|steps| - 1]) + [RS.SourceStep(steps[|steps| - 1])]
  }

  const BEFORE: seq<RS.Step> := Sourced(DAY + [CLOSE]) + [RS.FreezeStep(FREEZE)]

  /** An audit event under a clock that shows day 0 again. */
  const AUDIT: RS.Step :=
    RS.SourceStep(Src.AuditStep(10, "audit-hash",
                                C.AuditFact("token", "deployment", C.IssueToken, C.PendingReview, "group", "", "")))

  lemma {:induction false} StepsAppended(w: R.World, t: R.Tables, steps: seq<RS.Step>, s: RS.Step)
    ensures RS.Run(w, t, steps + [s]) == RS.Apply(w, RS.Run(w, t, steps), s)
    ensures RS.NoneEarly(w, t, steps + [s]) <==> RS.NoneEarly(w, t, steps) && !RS.Early(w, RS.Run(w, t, steps), s)
    decreases |steps|
  {
    hide RS.Apply, RS.Early;
    if steps == [] {
      assert [] + [s] == [s] && [s][1..] == [];
    } else {
      assert (steps + [s])[1..] == steps[1..] + [s];
      StepsAppended(w, RS.Apply(w, t, steps[0]), steps[1..], s);
    }
  }

  /** What the freeze leaves of the sources, and the day that it has frozen. */
  lemma FrozenDay()
    ensures Frozen().sources == Closed().sources && RS.FrozenBeyond(Frozen(), 10)
    ensures "review" in Frozen().records && Ro.Lists(Frozen().records["review"].members, "deployment")
  {
    DayFreezes();
    RS.FreezeWrites(Sample(), Closed(), FREEZE);
    RS.FreezeMatches(Sample(), Closed(), FREEZE);
    var m := R.Freezing(Sample(), Closed(), FREEZE).value;
    assert m.review.record.content.reviewId in Frozen().records;
  }

  lemma SourceKeepsRecords(w: R.World, t: R.Tables, x: Src.Step)
    ensures RS.Apply(w, t, RS.SourceStep(x)).records == t.records
  {
    hide Src.Apply;
  }

  lemma {:induction false} SourcesRun(steps: seq<Src.Step>)
    ensures RS.Run(Sample(), R.Empty, Sourced(steps)) == After(R.Empty, steps)
    ensures RS.NoneEarly(Sample(), R.Empty, Sourced(steps)) && After(R.Empty, steps).records == map[]
  {
    hide RS.Apply, Src.DatedTime, Sample;
    if steps != [] {
      var rest, last := steps[..|steps| - 1], steps[|steps| - 1];
      SourcesRun(rest);
      StepsAppended(Sample(), R.Empty, Sourced(rest), RS.SourceStep(last));
      SourceKeepsRecords(Sample(), After(R.Empty, rest), last);
    }
  }

  lemma NothingFrozenYet()
    ensures RS.Run(Sample(), R.Empty, BEFORE) == Frozen() && RS.NoneEarly(Sample(), R.Empty, BEFORE)
  {
    hide RS.Apply, Src.DatedTime, Sample, After;
    SourcesRun(DAY + [CLOSE]);
    StepsAppended(Sample(), R.Empty, Sourced(DAY + [CLOSE]), RS.FreezeStep(FREEZE));
  }

  lemma AuditIsEarly()
    ensures RS.Early(Sample(), Frozen(), AUDIT)
  {
    hide RS.Apply, L.Sealed, RS.FrozenBeyond;
    FrozenDay();
    DayCloses();
    DayApproved();
    ClaimsStand();
    assert Src.DatedTime(R.SettingOf(Sample()), Frozen().sources, AUDIT.source) == Some(10);
  }

  /**
    Claim two deployments and approve the claims, close the day, freeze a review of one claim, and then accept
    an audit event of that day: the replay accepts the state before the event and refuses the one after it.  The
    frozen roster has the deployment.
  */
  lemma EarlyAuditIsRefused()
    ensures var w := Sample();
            && R.Replayable(w, RS.Run(w, R.Empty, BEFORE)) && !R.Replayable(w, RS.Run(w, R.Empty, BEFORE + [AUDIT]))
            && "review" in RS.Run(w, R.Empty, BEFORE).records
            && Ro.Lists(RS.Run(w, R.Empty, BEFORE).records["review"].members, "deployment")
  {
    hide RS.Apply, RS.Early, R.Replayable, Sample, Frozen, Ro.Lists;
    var w := Sample();
    NothingFrozenYet();
    FrozenDay();
    AuditIsEarly();
    RS.ReplayIffNoneEarly(w, BEFORE);
    StepsAppended(w, R.Empty, BEFORE, AUDIT);
    RS.ReplayIffNoneEarly(w, BEFORE + [AUDIT]);
  }

  // ---------------------------------------------------------------- a payload hash of the caller's own

  const VERIFY: R.DecisionInput :=
    R.DecisionInput("review", Verify, Eligible, 0, Buyer, "actor", "reference", "evidence", "", "verify-key", "",
                    "event-2", 86400)

  const CREATE: E.CreateInput :=
    E.CreateInput("review", "verify", NoTransfer, "", ZERO_HASH, "beneficiary", "reference", "terms", "evidence",
                  "actor", "create-key", "allocation", "event-1", 86400)

  const FINAL: E.VerifyInput :=
    E.VerifyInput("allocation", "actor", "reference", "evidence", "final-key", "WRONG", "event-2", 86400)

  ghost function Exits(): E.World {
    E.World(Sample(), Anything<E.Fields>(), Anything<AllocationContent>())
  }

  ghost function Verified(): R.Tables {
    RS.Apply(Sample(), Frozen(), RS.DecideStep(VERIFY))
  }

  /** What day 0 has left in the sources. */
  ghost predicate Today(s: Src.Sources) {
    && s.audits == CLAIMS && s.claimReviews == APPROVALS && s.eligibilities == [] && s.transfers == O.Empty
    && s.settlements == [] && s.ledger.entries == []
  }

  /** The tables after the freeze: one record, its event and its row. */
  ghost predicate OnlyFrozen(t: R.Tables, r: R.Record, e: R.Event) {
    && t.records == map["review" := r] && t.events == [e] && t.states == [R.StateOf(r, e)]
    && r.content.reviewId == "review" && r.content.recordDay == 0 && r.settlements == []
    && e.content.reviewId == "review" && e.content.idempotencyKey == "freeze-key" && e.content.eventId == "event-1"
    && e.eventHash == "freeze" && e.content.eventIndex == 1 && e.content.status == Pending
    && e.content.acceptedAt == 86400 && e.content.effectiveDay == 0
    && R.ClaimOf(r) == TARGET && Ro.Lists(r.members, "deployment") && Today(t.sources)
  }

  lemma NothingWritten()
    ensures Closed() == R.Empty.(sources := Closed().sources) && Today(Closed().sources)
  {
    DayCloses();
    DayApproved();
  }

  lemma ReviewFrozen() returns (r: R.Record, e: R.Event)
    ensures OnlyFrozen(Frozen(), r, e)
  {
    hide R.Freezing, Closed;
    NothingWritten();
    DayFreezes();
    RS.FreezeWrites(Sample(), Closed(), FREEZE);
    RS.FreezeMatches(Sample(), Closed(), FREEZE);
    var m := R.Freezing(Sample(), Closed(), FREEZE).value;
    r, e := m.review.record, m.event;
  }

  /** The tables after the review's verification. */
  ghost predicate Standing(t: R.Tables, r: R.Record, e: R.Event, v: R.Event) {
    && t.records == map["review" := r] && t.events == [e, v] && t.states == [R.StateOf(r, e), R.StateOf(r, v)]
    && r.content.reviewId == "review" && r.settlements == [] && e.content.reviewId == "review"
    && e.content.eventIndex == 1 && v.content.eventIndex == 2 && v.eventHash == "verify"
    && v.content.reviewId == "review" && v.content.action == Verify && v.content.status == Eligible
    && v.content.recordHash == r.recordHash && v.content.acceptedAt == 86400
    && R.ClaimOf(r) == TARGET && Ro.Lists(r.members, "deployment")
  }

  lemma ReviewDecides(t: R.Tables, r: R.Record, e: R.Event) returns (v: R.Event)
    requires OnlyFrozen(t, r, e)
    ensures R.Deciding(Sample(), t, VERIFY).Ok?
    ensures var u := R.Deciding(Sample(), t, VERIFY).value.tables;
            Standing(u, r, e, v) && Today(u.sources)
  {
    assert R.FindByKey(t.events, "verify-key") == None;
    assert R.LatestState(t.states, "review") == Some(t.states[0]);
    v := R.Deciding(Sample(), t, VERIFY).value.event;
  }

  lemma ReviewVerifies() returns (r: R.Record, e: R.Event, v: R.Event)
    ensures Standing(Verified(), r, e, v) && Today(Verified().sources)
  {
    hide R.Freezing, R.Deciding, Standing, OnlyFrozen, Today;
    r, e := ReviewFrozen();
    v := ReviewDecides(Frozen(), r, e);
  }

  lemma ReviewStands(t: E.Tables, r: R.Record, e: R.Event, v: R.Event)
    requires Standing(t.reviews, r, e, v)
    ensures E.ExactReview(t, "review", "verify") == Some(E.Standing(R.Review(r, R.StateOf(r, v)), v))
  {
    var events := t.reviews.events;
    assert R.LatestState(t.reviews.states, "review") == Some(t.reviews.states[1]);
    assert E.ReviewEventAt(events[1..], 2, "verify", "review") == Some(v);
    assert E.ReviewEventAt(events, 2, "verify", "review") == Some(v);
  }

  ghost function NoRows(): A.Rows { A.Rows([], A.CurrenciesFor([], ContractBeneficiary, "beneficiary")) }

  lemma NothingToDerive(t: E.Tables, groupId: string)
    requires t.reviews.sources.settlements == []
    ensures A.Derived(E.SettledIn(t), groupId, [], ContractBeneficiary, "beneficiary") == Some(NoRows())
  {
    assert A.Copied(E.SettledIn(t), groupId, []) == [];
  }

  lemma NobodyContests(t: E.Tables, r: R.Record)
    requires t.reviews.sources.transfers == Src.Empty.transfers
    ensures E.Decide(Exits(), E.TransfersIn(t), r, NoTransfer, "", ZERO_HASH, "beneficiary")
            == Some(E.Decision(ContractBeneficiary, "beneficiary", 0, ZERO_HASH))
  {
  }

  /** The tables after the creation: one allocation, its event and its row. */
  ghost predicate OnlyCreated(t: E.Tables, a: E.Record, c: E.Event) {
    && t.records == map["allocation" := a] && t.events == [c] && t.states == [E.StateOf(a, c)]
    && a.content.allocationId == "allocation" && a.content.exitReviewId == "review"
    && a.content.exitVerificationEventHash == "verify" && a.content.decisionMode == NoTransfer
    && a.content.transferId == "" && a.content.transferCompletionEventHash == ZERO_HASH
    && a.content.transferCompletionEventIndex == 0 && a.content.beneficiaryType == ContractBeneficiary
    && a.content.beneficiaryId == "beneficiary" && a.rows == NoRows()
    && c.content.allocationId == "allocation" && c.content.action == Create
    && c.content.status == AllocationStatus.Recorded
    && c.content.eventIndex == 1 && c.content.eventId == "event-1" && c.content.idempotencyKey == "create-key"
    && c.content.acceptedAt == 86400 && c.eventHash == "create"
  }

  lemma CreationIsOk(t: E.Tables, r: R.Record, e: R.Event, v: R.Event)
    requires t == E.Empty.(reviews := t.reviews) && Standing(t.reviews, r, e, v) && Today(t.reviews.sources)
    ensures var m := E.CreatingFor(Exits(), t, E.Standing(R.Review(r, R.StateOf(r, v)), v), CREATE);
            m.Ok? && !m.value.duplicate
  {
    hide E.Decide, E.ExactReview, A.Derived, NoRows, Standing, A.CurrenciesFor, E.RecordFor, E.CreateContent,
         E.StateOf, E.FieldsOf;
    StandingParts(t.reviews, r, e, v);
    NothingToDerive(t, r.content.groupId);
    NobodyContests(t, r);
  }

  lemma CreationWrites(t: E.Tables, r: R.Record, e: R.Event, v: R.Event)
    requires t == E.Empty.(reviews := t.reviews) && Standing(t.reviews, r, e, v) && Today(t.reviews.sources)
    requires E.CreatingFor(Exits(), t, E.Standing(R.Review(r, R.StateOf(r, v)), v), CREATE).Ok?
    ensures var m := E.CreatingFor(Exits(), t, E.Standing(R.Review(r, R.StateOf(r, v)), v), CREATE);
            var a, c := m.value.allocation.record, m.value.event;
            OnlyCreated(E.Written(t, a, c), a, c) && m.value.tables == E.Written(t, a, c)
  {
    hide E.CreatingFor, E.Decide, E.ExactReview, A.Derived, NoRows, Standing;
    var standing := E.Standing(R.Review(r, R.StateOf(r, v)), v);
    StandingParts(t.reviews, r, e, v);
    NothingToDerive(t, r.content.groupId);
    NobodyContests(t, r);
    AR.CreatedRecord(Exits(), t, standing, CREATE);
    AR.CreatedPins(Exits(), t, standing, CREATE);
    var d, rows := AR.CreatedFrom(Exits(), t, standing, CREATE);
  }

  /** The allocation's creation is accepted. */
  lemma AllocationCreates(t: E.Tables, r: R.Record, e: R.Event, v: R.Event) returns (a: E.Record, c: E.Event)
    requires t == E.Empty.(reviews := t.reviews) && Standing(t.reviews, r, e, v) && Today(t.reviews.sources)
    ensures var u := S.Apply(Exits(), t, S.AllocationCreate(CREATE));
            u.reviews == t.reviews && OnlyCreated(u, a, c)
  {
    hide E.ExactReview, E.CreatingFor, E.Verifying, Standing, NoRows;
    var standing := E.Standing(R.Review(r, R.StateOf(r, v)), v);
    ReviewStands(t, r, e, v);
    CreationIsOk(t, r, e, v);
    CreationWrites(t, r, e, v);
    var m := E.CreatingFor(Exits(), t, standing, CREATE).value;
    a, c := m.allocation.record, m.event;
    assert E.Creating(Exits(), t, CREATE) == E.CreatingFor(Exits(), t, standing, CREATE);
    assert map[][a.content.allocationId := a] == map["allocation" := a];
  }

  lemma StandingParts(t: R.Tables, r: R.Record, e: R.Event, v: R.Event)
    requires Standing(t, r, e, v) && Today(t.sources)
    ensures r.content.reviewId == "review" && r.settlements == [] && v.eventHash == "verify"
    ensures v.content.acceptedAt == 86400 && t.sources.transfers == Src.Empty.transfers && t.sources.settlements == []
  {
  }

  /** Its verification is accepted, though its payload hash is made up. */
  lemma AllocationVerifies(t: E.Tables, r: R.Record, e: R.Event, v: R.Event, a: E.Record, c: E.Event)
    requires Standing(t.reviews, r, e, v) && Today(t.reviews.sources) && OnlyCreated(t, a, c)
    ensures E.Verifying(Exits(), t, FINAL).Ok? && E.FindByKey(t.events, "final-key").None?
    ensures !AR.PayloadRight(Exits(), t, S.AllocationVerify(FINAL))
  {
    hide E.Decide, A.Derived, NoRows, Standing, E.ExactReview, A.CurrenciesFor;
    ReviewStands(t, r, e, v);
    StandingParts(t.reviews, r, e, v);
    NothingToDerive(t, r.content.groupId);
    NobodyContests(t, r);
    assert E.FindByKey(t.events, "final-key") == None;
    assert E.LatestState(t.states, "allocation") == Some(t.states[0]);
    assert E.Verifying(Exits(), t, FINAL).Ok?;
  }

  lemma {:induction false} RunAppended(w: E.World, t: E.Tables, steps: seq<S.Step>, s: S.Step)
    ensures S.Run(w, t, steps + [s]) == S.Apply(w, S.Run(w, t, steps), s)
    ensures AR.PayloadsRight(w, t, steps + [s])
            <==> AR.PayloadsRight(w, t, steps) && AR.PayloadRight(w, S.Run(w, t, steps), s)
    decreases |steps|
  {
    hide S.Apply, AR.PayloadRight;
    if steps == [] {
      assert [] + [s] == [s] && [s][1..] == [];
    } else {
      assert (steps + [s])[1..] == steps[1..] + [s];
      RunAppended(w, S.Apply(w, t, steps[0]), steps[1..], s);
    }
  }

  const REVIEWED: seq<S.Step> :=
    Writes(DAY + [CLOSE]) + [S.ReviewFreeze(FREEZE)] + [S.ReviewDecision(VERIFY)]

  function Writes(steps: seq<Src.Step>): seq<S.Step> {
    if steps == [] then [] else Writes(steps[..|steps| - 1]) + [S.SourceWrite(steps[|steps| - 1])]
  }

  lemma {:induction false} WritesRun(steps: seq<Src.Step>)
    ensures S.Run(Exits(), E.Empty, Writes(steps)) == E.Empty.(reviews := After(R.Empty, steps))
    ensures AR.PayloadsRight(Exits(), E.Empty, Writes(steps))
  {
    hide RS.Apply, E.Creating, E.Verifying, Sample;
    if steps != [] {
      var rest, last := steps[..|steps| - 1], steps[|steps| - 1];
      WritesRun(rest);
      RunAppended(Exits(), E.Empty, Writes(rest), S.SourceWrite(last));
    }
  }

  lemma ReviewedRun()
    ensures S.Run(Exits(), E.Empty, REVIEWED) == E.Empty.(reviews := Verified())
    ensures AR.PayloadsRight(Exits(), E.Empty, REVIEWED)
  {
    hide RS.Apply, E.Creating, E.Verifying, Sample, After;
    var writes := Writes(DAY + [CLOSE]);
    WritesRun(DAY + [CLOSE]);
    RunAppended(Exits(), E.Empty, writes, S.ReviewFreeze(FREEZE));
    RunAppended(Exits(), E.Empty, writes + [S.ReviewFreeze(FREEZE)], S.ReviewDecision(VERIFY));
  }

  /**
    A verification whose payload hash its caller made up is accepted by the store, and the state after it is
    refused by the replay that accepted the state before it.
  */
  lemma MadeUpPayloadIsRefused()
    ensures var w, created := Exits(), REVIEWED + [S.AllocationCreate(CREATE)];
            var t, u := S.Run(w, E.Empty, created), S.Run(w, E.Empty, created + [S.AllocationVerify(FINAL)]);
            E.Verifying(w, t, FINAL).Ok? && AR.Replayable(w, t) && !AR.Replayable(w, u)
  {
    hide S.Apply, AR.PayloadRight, AR.Replayable, Standing, OnlyCreated, Today;
    var w := Exits();
    var r, e, v := ReviewVerifies();
    var t := E.Empty.(reviews := Verified());
    ReviewedRun();
    var a, c := AllocationCreates(t, r, e, v);
    var created := REVIEWED + [S.AllocationCreate(CREATE)];
    RunAppended(w, E.Empty, REVIEWED, S.AllocationCreate(CREATE));
    RunAppended(w, E.Empty, created, S.AllocationVerify(FINAL));
    AllocationVerifies(S.Run(w, E.Empty, created), r, e, v, a, c);
    CreationIsNoVerification(w, t, CREATE);
    AR.ReplayIffPayloadsRight(w, created);
    AR.ReplayIffPayloadsRight(w, created + [S.AllocationVerify(FINAL)]);
  }

  lemma CreationIsNoVerification(w: E.World, t: E.Tables, i: E.CreateInput)
    ensures AR.PayloadRight(w, t, S.AllocationCreate(i))
  {
  }

  // ---------------------------------------------------------------- a transfer under a clock that runs back

  const PREPARE: TS.PrepareInput :=
    TS.PrepareInput("review", "deployment", "claim", "group", "other-group", "verify", "actor", "reference", "evidence",
                    "prepare-key", "payload", "transfer", "prepared", 20)

  const ALLOW: TS.AdvanceInput :=
    TS.AdvanceInput("transfer", O.Approve, O.Approved, 0, "actor", "reference", "evidence", "", "approve-key",
                    "payload", "approved", 21)

  const COMPLETE: TS.AdvanceInput :=
    TS.AdvanceInput("transfer", O.Complete, O.Completed, 0, "actor", "reference", "evidence", "", "complete-key",
                    "payload", "completed", 22)

  const TRANSFER: O.Record := TS.PrepareRecord(PREPARE)

  const PREPARED: O.Log := O.Log(map["transfer" := TRANSFER], [TS.PrepareEvent(O.Empty, PREPARE)], [])

  const ALLOWED: O.Log := O.Log(PREPARED.records, PREPARED.events + [TS.AdvanceEvent(PREPARED, ALLOW)], [])

  /** The review stands verified, nothing is allocated, and this is the transfer log. */
  ghost predicate Stage(t: E.Tables, r: R.Record, e: R.Event, v: R.Event, log: O.Log) {
    && t == E.Empty.(reviews := t.reviews) && Standing(t.reviews, r, e, v)
    && t.reviews.sources.transfers == log && Today(t.reviews.sources.(transfers := O.Empty))
  }

  lemma ClaimsCurrent(s: Src.Sources)
    requires Today(s.(transfers := O.Empty)) && s.transfers.memberships == []
    ensures Src.ClaimCurrent(s, "deployment", "claim", "group") && Src.TargetEligible(s, "other-group")
  {
    ClaimsStand();
    assert s.audits[1].fact.deploymentId == "other";
    assert Src.HoldsGroup(s, "other-group", "other");
  }

  lemma StandsForClaim(t: E.Tables, r: R.Record, e: R.Event, v: R.Event)
    requires Standing(t.reviews, r, e, v)
    ensures TS.StandsFor(t, "review", "verify", "deployment", "claim", "group")
  {
    ReviewStands(t, r, e, v);
  }

  lemma Prepares(t: E.Tables, r: R.Record, e: R.Event, v: R.Event)
    requires Stage(t, r, e, v, O.Empty)
    ensures Stage(S.Apply(Exits(), t, S.TransferPrepare(PREPARE)), r, e, v, PREPARED)
  {
    hide E.Creating, E.Verifying, Src.ClaimCurrent, Src.TargetEligible, TS.StandsFor, Standing, RS.Apply;
    ClaimsCurrent(t.reviews.sources);
    StandsForClaim(t, r, e, v);
    assert TS.Preparing(Exits(), t, PREPARE) == E.Ok(TS.Outcome(TRANSFER, PREPARED.events[0], false));
    assert O.Empty.records["transfer" := TRANSFER] == PREPARED.records && [] + PREPARED.events == PREPARED.events;
    StandingElsewhere(t.reviews, S.Apply(Exits(), t, S.TransferPrepare(PREPARE)).reviews, r, e, v);
  }

  lemma StandingElsewhere(t: R.Tables, u: R.Tables, r: R.Record, e: R.Event, v: R.Event)
    requires Standing(t, r, e, v) && u == t.(sources := u.sources)
    ensures Standing(u, r, e, v)
  {
  }

  lemma Allows(t: E.Tables, r: R.Record, e: R.Event, v: R.Event)
    requires Stage(t, r, e, v, PREPARED)
    ensures Stage(S.Apply(Exits(), t, S.TransferAdvance(ALLOW)), r, e, v, ALLOWED)
  {
    hide E.Creating, E.Verifying, Standing, RS.Apply;
    assert O.FindByKey(PREPARED.events, "approve-key") == None;
    assert O.Last(PREPARED.events, "transfer") == Some(PREPARED.events[0]);
    assert TS.Advancing(Exits(), t, ALLOW) == E.Ok(TS.Outcome(TRANSFER, ALLOWED.events[1], false));
    assert PREPARED.records["transfer" := TRANSFER] == ALLOWED.records;
    StandingElsewhere(t.reviews, S.Apply(Exits(), t, S.TransferAdvance(ALLOW)).reviews, r, e, v);
  }

  lemma CompletesEarly(t: E.Tables, r: R.Record, e: R.Event, v: R.Event)
    requires Stage(t, r, e, v, ALLOWED)
    ensures S.Early(Exits(), t, S.TransferAdvance(COMPLETE))
  {
    hide Src.ClaimCurrent, Src.TargetEligible, TS.StandsFor;
    ClaimsCurrent(t.reviews.sources);
    StandsForClaim(t, r, e, v);
    assert O.FindByKey(ALLOWED.events[1..], "complete-key") == None;
    assert O.FindByKey(ALLOWED.events, "complete-key") == None;
    assert O.Last(ALLOWED.events, "transfer") == Some(ALLOWED.events[1]);
    var o := TS.Advancing(Exits(), t, COMPLETE);
    assert o == E.Ok(TS.Outcome(TRANSFER, TS.AdvanceEvent(ALLOWED, COMPLETE), false));
    assert RM.Touches(t.reviews.records["review"], o.value.record, o.value.event);
  }

  lemma {:induction false} EarlyAppended(w: E.World, t: E.Tables, steps: seq<S.Step>, s: S.Step)
    ensures S.NoneEarly(w, t, steps + [s]) <==> S.NoneEarly(w, t, steps) && !S.Early(w, S.Run(w, t, steps), s)
    decreases |steps|
  {
    hide S.Apply, S.Early;
    if steps == [] {
      assert [] + [s] == [s] && [s][1..] == [];
    } else {
      assert (steps + [s])[1..] == steps[1..] + [s];
      EarlyAppended(w, S.Apply(w, t, steps[0]), steps[1..], s);
    }
  }

  lemma {:induction false} WritesNotEarly(steps: seq<Src.Step>)
    ensures S.NoneEarly(Exits(), E.Empty, Writes(steps))
  {
    hide S.Apply, Src.DatedTime, Exits, Sample;
    if steps != [] {
      var rest, last := steps[..|steps| - 1], steps[|steps| - 1];
      WritesNotEarly(rest);
      WritesRun(rest);
      SourcesRun(rest);
      EarlyAppended(Exits(), E.Empty, Writes(rest), S.SourceWrite(last));
    }
  }

  const MOVING: seq<S.Step> := REVIEWED + [S.TransferPrepare(PREPARE)] + [S.TransferAdvance(ALLOW)]

  lemma MovingRun() returns (r: R.Record, e: R.Event, v: R.Event)
    ensures Stage(S.Run(Exits(), E.Empty, MOVING), r, e, v, ALLOWED) && S.NoneEarly(Exits(), E.Empty, MOVING)
  {
    hide S.Apply, Stage, Exits, Sample, S.Run, S.NoneEarly, TS.Advancing, RS.EarlyEvent;
    var w := Exits();
    var frozen := Writes(DAY + [CLOSE]) + [S.ReviewFreeze(FREEZE)];
    WritesNotEarly(DAY + [CLOSE]);
    EarlyAppended(w, E.Empty, Writes(DAY + [CLOSE]), S.ReviewFreeze(FREEZE));
    EarlyAppended(w, E.Empty, frozen, S.ReviewDecision(VERIFY));
    EarlyAppended(w, E.Empty, REVIEWED, S.TransferPrepare(PREPARE));
    EarlyAppended(w, E.Empty, REVIEWED + [S.TransferPrepare(PREPARE)], S.TransferAdvance(ALLOW));
    RunAppended(w, E.Empty, REVIEWED, S.TransferPrepare(PREPARE));
    RunAppended(w, E.Empty, REVIEWED + [S.TransferPrepare(PREPARE)], S.TransferAdvance(ALLOW));
    r, e, v := VerifiedStage();
    ReviewedRun();
    var t := S.Run(w, E.Empty, REVIEWED);
    Prepares(t, r, e, v);
    Allows(S.Apply(w, t, S.TransferPrepare(PREPARE)), r, e, v);
  }

  lemma VerifiedStage() returns (r: R.Record, e: R.Event, v: R.Event)
    ensures Stage(E.Empty.(reviews := Verified()), r, e, v, O.Empty)
  {
    hide Standing, Verified;
    r, e, v := ReviewVerifies();
  }

  /**
    Freeze and verify a review of day 0, prepare and approve a transfer of its claim under a clock that shows
    day 0 again, and complete it: the replay accepts the state before the completion and refuses the one after.
  */
  lemma EarlyCompletionIsRefused()
    ensures var w := Exits();
            && R.Replayable(w.r, S.Run(w, E.Empty, MOVING).reviews)
            && !R.Replayable(w.r, S.Run(w, E.Empty, MOVING + [S.TransferAdvance(COMPLETE)]).reviews)
  {
    hide S.Apply, Exits, Sample, R.Replayable, Stage, S.Early;
    var w := Exits();
    var r, e, v := MovingRun();
    S.ReviewsReplayIff(w, MOVING);
    CompletesEarly(S.Run(w, E.Empty, MOVING), r, e, v);
    EarlyAppended(w, E.Empty, MOVING, S.TransferAdvance(COMPLETE));
    S.ReviewsReplayIff(w, MOVING + [S.TransferAdvance(COMPLETE)]);
  }
}
