/**
  The exit-review event log: frozen records, an append-only chain of events over all reviews, and one
  query row per event, beside the tables that the records are computed from.
*/
module ExitReview {
  import opened Basics
  import opened Protocol
  import DL = DatedLogs
  import SB = SettlementBoundaries
  import MT = MerkleTree
  import L = Ledger
  import O = OwnershipTransfers
  import S = ReviewSources
  import C = OperatorClaims
  import Ro = Rosters

  /** A frozen record: its hashed content, and the two lists the content commits to. */
  datatype Record = Record(
    content: ReviewContent, recordHash: string, members: seq<ReviewMember>, settlements: seq<SettlementBoundary>)

  datatype Event = Event(content: ReviewEventContent, eventHash: string, signature: string)

  /** The query row written with each event. */
  datatype StateRow = StateRow(
    eventIndex: int, eventHash: string, reviewId: string, status: ReviewStatus, recordDay: int,
    targetDeploymentId: string, claimActionId: string, groupId: string, legalName: string, recordHash: string,
    action: ReviewAction, effectiveDay: int, actorRole: ReviewRole, actorId: string, reference: string,
    evidenceHash: string, reasonCode: string, acceptedAt: int)

  datatype Tables = Tables(
    sources: S.Sources, records: map<string, Record>, events: seq<Event>, states: seq<StateRow>)

  const Empty: Tables := Tables(S.Empty, map[], [], [])

  datatype Claim = Claim(recordDay: int, targetDeploymentId: string, claimActionId: string, groupId: string)

  /** The texts of an event that are checked against patterns. */
  datatype Fields = Fields(
    eventId: string, reviewId: string, evidenceHash: string, actorId: string, reference: string,
    idempotencyKey: string)

  /**
    What does not change: the digests, the receipt signatures by event hash, the registry's identity, and the
    patterns that service and verifier share.
  */
  datatype World = World(
    g: Digests, merkle: MT.Hash, checkpointSign: Digests, sign: map<string, string>, scope: string, keyId: string,
    createdAt: int, wellFormed: iset<Fields>, recordsWellFormed: iset<ReviewContent>, patterns: SB.Patterns)

  /** The part of it that the sources need. */
  function SettingOf(w: World): S.Setting {
    S.Setting(L.Registry(w.g, w.merkle, w.checkpointSign, w.scope, w.keyId, w.createdAt), w.patterns)
  }

  function SignatureOn(w: World, eventHash: string): string {
    if eventHash in w.sign then w.sign[eventHash] else ""
  }

  datatype Error =
    | IdempotencyConflict
    | AcceptedAtBeforeIdentity
    | ClockBeforeHead
    | AlreadyFrozen
    | NotFound
    | ClaimBoundary
    | InvalidTransition
    | InconsistentState
    | InvalidField
    | UniqueViolation

  datatype Result<+T> = Ok(value: T) | Err(error: Error)

  // ---------------------------------------------------------------- records

  /** The heads of the dated logs at the end of a day. */
  datatype Heads = Heads(
    audit: Option<C.Audit>, review: Option<C.ClaimReview>, eligibility: Option<C.Eligibility>, transferIndex: int)

  function HeadsAt(s: S.Sources, day: int): Heads {
    var end := L.EndOf(day);
    Heads(DL.HeadBefore(s.audits, end), DL.HeadBefore(s.claimReviews, end), DL.HeadBefore(s.eligibilities, end),
          O.IndexBefore(s.transfers.events, end))
  }

  function HashOfHead<T>(head: Option<DL.Dated<T>>): string { if head.None? then ZERO_HASH else head.value.hash }

  /** What the logs say up to these indexes, and the transfers that have taken effect on the day. */
  function BoundaryAt(s: S.Sources, audit: int, review: int, eligibility: int, transfer: int, day: int): Ro.Boundary {
    Ro.Boundary(DL.Upto(s.audits, audit), DL.Upto(s.claimReviews, review), DL.Upto(s.eligibilities, eligibility),
                O.RowsUpto(s.transfers.memberships, transfer, day))
  }

  function BoundaryOf(s: S.Sources, h: Heads, day: int): Ro.Boundary {
    BoundaryAt(s, DL.IndexOf(h.audit), DL.IndexOf(h.review), DL.IndexOf(h.eligibility), h.transferIndex, day)
  }

  /** The roster of the claim's group at the heads of the logs, if the claim's deployment is eligible in it. */
  function RosterAt(s: S.Sources, c: Claim, h: Heads): Option<Ro.Roster> {
    Ro.RosterOf(BoundaryOf(s, h, c.recordDay), s.audits, c.targetDeploymentId, c.claimActionId, c.groupId)
  }

  /** The record over a day's view of the ledger, the heads of the logs and the roster at them. */
  function RecordWith(w: World, c: Claim, reviewId: string, frozenAt: int, v: S.View, h: Heads, m: Ro.Roster): Record
    requires v.View?
  {
    var k, b := v.checkpoint, v.settlements;
    var content := ReviewContent(
      reviewId, c.recordDay, c.targetDeploymentId, c.claimActionId, c.groupId, m.legalName, k.checkpointHash,
      k.content.throughLedgerIndex, k.content.ledgerHeadHash, k.content.entryCount, v.rootHash,
      DL.IndexOf(h.audit), HashOfHead(h.audit), DL.IndexOf(h.review), HashOfHead(h.review),
      DL.IndexOf(h.eligibility), HashOfHead(h.eligibility), SB.LastIndex(b), |b|, Digest(w.g, BoundariesMessage(b)),
      |m.members|, Digest(w.g, MembersMessage(m.members)), frozenAt, w.scope, w.keyId);
    Record(content, Digest(w.g, ReviewMessage(content)), m.members, b)
  }

  /** The record that a freeze pins, or that verification recomputes, from the tables of the moment. */
  function RecordOf(w: World, s: S.Sources, c: Claim, reviewId: string, frozenAt: int): Result<Record> {
    match S.ViewOf(SettingOf(w), s, c.recordDay)
    case NoCheckpoint => Err(NotFound)
    case Unreadable => Err(InconsistentState)
    case View(k, root, b) =>
      var h := HeadsAt(s, c.recordDay);
      match RosterAt(s, c, h)
      case None => Err(ClaimBoundary)
      case Some(m) => Ok(RecordWith(w, c, reviewId, frozenAt, S.View(k, root, b), h, m))
  }

  function ClaimOf(r: Record): Claim {
    Claim(r.content.recordDay, r.content.targetDeploymentId, r.content.claimActionId, r.content.groupId)
  }

  /** The stored record is well formed, and the one that its sources give now. */
  predicate RecordVerifies(w: World, s: S.Sources, id: string, r: Record) {
    && r.content.reviewId == id && r.content.scope == w.scope && r.content.registryKeyId == w.keyId
    && r.content in w.recordsWellFormed
    && r.content.deploymentCount == |r.members| && r.content.settlementBoundaryCount == |r.settlements|
    && RecordOf(w, s, ClaimOf(r), id, r.content.frozenAt) == Ok(r)
  }

  // ---------------------------------------------------------------- events

  /** A reason code: 3 to 64 lowercase letters, digits and hyphens, a letter first. */
  predicate IsReason(s: string) {
    && 3 <= |s| <= 64 && 'a' <= s[0] <= 'z'
    && forall i :: 0 <= i < |s| ==> 'a' <= s[i] <= 'z' || '0' <= s[i] <= '9' || s[i] == '-'
  }

  predicate ReasonRule(action: ReviewAction, reason: string) {
    if action == Freeze || action == Verify then reason == "" else IsReason(reason)
  }

  predicate ValidTransition(current: ReviewStatus, action: ReviewAction, resulting: ReviewStatus) {
    match action
    case Freeze => false
    case Verify => (current == Pending || current == Disputed) && resulting == Eligible
    case Reject => (current == Pending || current == Disputed) && resulting == Rejected
    case Dispute => (current == Eligible || current == Rejected) && resulting == Disputed
    case Withdraw => current != Withdrawn && resulting == Withdrawn
  }

  function PayloadOf(c: ReviewEventContent): ReviewPayload {
    ReviewPayload(c.reviewId, c.action, c.status, c.effectiveDay, c.actorRole, c.actorId, c.reference,
                  c.evidenceHash, c.reasonCode, c.recordHash)
  }

  function FieldsOf(c: ReviewEventContent): Fields {
    Fields(c.eventId, c.reviewId, c.evidenceHash, c.actorId, c.reference, c.idempotencyKey)
  }

  function SealedEvent(w: World, c: ReviewEventContent): Event {
    var hash := Digest(w.g, ReviewEventMessage(c));
    Event(c, hash, SignatureOn(w, hash))
  }

  function StateOf(r: Record, e: Event): StateRow {
    StateRow(e.content.eventIndex, e.eventHash, r.content.reviewId, e.content.status, r.content.recordDay,
             r.content.targetDeploymentId, r.content.claimActionId, r.content.groupId, r.content.legalName,
             r.recordHash, e.content.action, e.content.effectiveDay, e.content.actorRole, e.content.actorId,
             e.content.reference, e.content.evidenceHash, e.content.reasonCode, e.content.acceptedAt)
  }

  function HeadHash(events: seq<Event>): string {
    if events == [] then ZERO_HASH else events[|events| - 1].eventHash
  }

  function HeadIndex(events: seq<Event>): int {
    if events == [] then 0 else events[|events| - 1].content.eventIndex
  }

  function FindByKey(events: seq<Event>, key: string): Option<Event> {
    if events == [] then None
    else if events[0].content.idempotencyKey == key then Some(events[0])
    else FindByKey(events[1..], key)
  }

  /** The query row of a review with the largest event index. */
  function LatestState(states: seq<StateRow>, reviewId: string): Option<StateRow> {
    if states == [] then None
    else if states[|states| - 1].reviewId == reviewId then Some(states[|states| - 1])
    else LatestState(states[..|states| - 1], reviewId)
  }

  datatype Review = Review(record: Record, state: StateRow)

  function ReviewById(t: Tables, id: string): Option<Review> {
    if id !in t.records then None
    else
      match LatestState(t.states, id)
      case None => None
      case Some(s) => Some(Review(t.records[id], s))
  }

  // ---------------------------------------------------------------- writing

  datatype FreezeInput = FreezeInput(
    claim: Claim, actorRole: ReviewRole, actorId: string, reference: string, evidenceHash: string,
    idempotencyKey: string, candidateReviewId: string, candidateEventId: string, acceptedAt: int)

  datatype DecisionInput = DecisionInput(
    reviewId: string, action: ReviewAction, status: ReviewStatus, effectiveDay: int, actorRole: ReviewRole,
    actorId: string, reference: string, evidenceHash: string, reasonCode: string, idempotencyKey: string,
    payloadHash: string, candidateEventId: string, acceptedAt: int)

  datatype Mutation = Mutation(event: Event, review: Review, duplicate: bool, tables: Tables)

  function ClockGuard(w: World, t: Tables, acceptedAt: int): Option<Error> {
    if acceptedAt < w.createdAt then Some(AcceptedAtBeforeIdentity)
    else if t.events != [] && acceptedAt < t.events[|t.events| - 1].content.acceptedAt then Some(ClockBeforeHead)
    else None
  }

  predicate ClaimFree(t: Tables, c: Claim) {
    forall id :: id in t.records ==>
      !(t.records[id].content.targetDeploymentId == c.targetDeploymentId
        && t.records[id].content.claimActionId == c.claimActionId)
  }

  predicate NewEvent(t: Tables, e: Event) {
    forall i :: 0 <= i < |t.events| ==>
      && t.events[i].content.eventId != e.content.eventId && t.events[i].eventHash != e.eventHash
      && t.events[i].content.idempotencyKey != e.content.idempotencyKey
  }

  predicate NewRecord(t: Tables, r: Record) {
    r.content.reviewId !in t.records && forall id :: id in t.records ==> t.records[id].recordHash != r.recordHash
  }

  function FreezeContent(w: World, t: Tables, r: Record, i: FreezeInput): ReviewEventContent {
    var c := ReviewEventContent(
      HeadIndex(t.events) + 1, i.candidateEventId, r.content.reviewId, Freeze, Pending, r.content.recordDay,
      i.actorRole, i.actorId, i.reference, i.evidenceHash, "", i.idempotencyKey, "", r.recordHash, i.acceptedAt,
      HeadHash(t.events), ZERO_HASH, w.scope, w.keyId);
    c.(payloadHash := Digest(w.g, ReviewPayloadMessage(PayloadOf(c))))
  }

  /** The event and its query row, written in one transaction with the record of a freeze. */
  function Written(t: Tables, r: Record, e: Event): Tables {
    Tables(t.sources, t.records[r.content.reviewId := r], t.events + [e], t.states + [StateOf(r, e)])
  }

  predicate SameFreeze(i: FreezeInput, e: Event, r: Record) {
    && e.content.action == Freeze && ClaimOf(r) == i.claim && e.content.actorRole == i.actorRole
    && e.content.actorId == i.actorId && e.content.reference == i.reference
    && e.content.evidenceHash == i.evidenceHash
  }

  function Freezing(w: World, t: Tables, i: FreezeInput): Result<Mutation> {
    match FindByKey(t.events, i.idempotencyKey)
    case Some(e) =>
      (match ReviewById(t, e.content.reviewId)
       case None => Err(NotFound)
       case Some(v) =>
         if SameFreeze(i, e, v.record) then Ok(Mutation(e, v, true, t)) else Err(IdempotencyConflict))
    case None =>
      match ClockGuard(w, t, i.acceptedAt)
      case Some(e) => Err(e)
      case None =>
        if !ClaimFree(t, i.claim) then Err(AlreadyFrozen)
        else
          match RecordOf(w, t.sources, i.claim, i.candidateReviewId, i.acceptedAt)
          case Err(e) => Err(e)
          case Ok(r) =>
            var e := SealedEvent(w, FreezeContent(w, t, r, i));
            if FieldsOf(e.content) !in w.wellFormed || r.content !in w.recordsWellFormed then Err(InvalidField)
            else if !NewRecord(t, r) || !NewEvent(t, e) then Err(UniqueViolation)
            else Ok(Mutation(e, Review(r, StateOf(r, e)), false, Written(t, r, e)))
  }

  function DecisionContent(w: World, t: Tables, v: Review, i: DecisionInput): ReviewEventContent {
    ReviewEventContent(
      HeadIndex(t.events) + 1, i.candidateEventId, i.reviewId, i.action, i.status, i.effectiveDay, i.actorRole,
      i.actorId, i.reference, i.evidenceHash, i.reasonCode, i.idempotencyKey, i.payloadHash,
      v.record.recordHash, i.acceptedAt, HeadHash(t.events), v.state.eventHash, w.scope, w.keyId)
  }

  predicate SameDecision(i: DecisionInput, e: Event) {
    && e.content.reviewId == i.reviewId && e.content.action == i.action && e.content.status == i.status
    && e.content.effectiveDay == i.effectiveDay && e.content.actorRole == i.actorRole
    && e.content.actorId == i.actorId && e.content.reference == i.reference
    && e.content.evidenceHash == i.evidenceHash && e.content.reasonCode == i.reasonCode
    && e.content.payloadHash == i.payloadHash
  }

  /** A decision on a review, behind the service's reason-code rule and field patterns. */
  function Deciding(w: World, t: Tables, i: DecisionInput): Result<Mutation> {
    if !ReasonRule(i.action, i.reasonCode) then Err(InvalidField)
    else
      match FindByKey(t.events, i.idempotencyKey)
      case Some(e) =>
        (match ReviewById(t, e.content.reviewId)
         case None => Err(NotFound)
         case Some(v) => if SameDecision(i, e) then Ok(Mutation(e, v, true, t)) else Err(IdempotencyConflict))
      case None =>
        match ReviewById(t, i.reviewId)
        case None => Err(NotFound)
        case Some(v) => DecidingOn(w, t, v, i)
  }

  function DecidingOn(w: World, t: Tables, v: Review, i: DecisionInput): Result<Mutation> {
    if !ValidTransition(v.state.status, i.action, i.status) then Err(InvalidTransition)
    else if i.effectiveDay < v.record.content.recordDay || i.effectiveDay < v.state.effectiveDay then
      Err(InvalidTransition)
    else
      match ClockGuard(w, t, i.acceptedAt)
      case Some(e) => Err(e)
      case None =>
        var c := DecisionContent(w, t, v, i);
        if c.payloadHash != Digest(w.g, ReviewPayloadMessage(PayloadOf(c))) then Err(InconsistentState)
        else
          var e := SealedEvent(w, c);
          if FieldsOf(c) !in w.wellFormed then Err(InvalidField)
          else if !NewEvent(t, e) then Err(UniqueViolation)
          else Ok(Mutation(e, Review(v.record, StateOf(v.record, e)), false, Written(t, v.record, e)))
  }

  // ---------------------------------------------------------------- what the replay accepts

  /** The last event of a review. */
  function Last(events: seq<Event>, reviewId: string): Option<Event> {
    if events == [] then None
    else if events[|events| - 1].content.reviewId == reviewId then Some(events[|events| - 1])
    else Last(events[..|events| - 1], reviewId)
  }

  /** A review starts with its freeze, on its record date; every other event is a legal transition. */
  predicate Semantics(c: ReviewEventContent, before: Option<Event>, recordDay: int) {
    && ReasonRule(c.action, c.reasonCode)
    && match before
       case None => c.action == Freeze && c.status == Pending && c.effectiveDay == recordDay
       case Some(p) => ValidTransition(p.content.status, c.action, c.status) && p.content.effectiveDay <= c.effectiveDay
  }

  function HashOf(e: Option<Event>): string { if e.None? then ZERO_HASH else e.value.eventHash }

  /** The fields of one event, given its record and what came before it. */
  predicate Immutable(w: World, r: Record, e: Event, index: int, previousHash: string) {
    && w.createdAt <= e.content.acceptedAt
    && e.content.eventIndex == index && e.content.previousEventHash == previousHash
    && e.content.scope == w.scope && e.content.registryKeyId == w.keyId && e.content.recordHash == r.recordHash
    && FieldsOf(e.content) in w.wellFormed
    && r.content.recordDay <= e.content.effectiveDay
    && e.content.payloadHash == Digest(w.g, ReviewPayloadMessage(PayloadOf(e.content)))
    && e == SealedEvent(w, e.content)
  }

  predicate EventVerifies(w: World, t: Tables, i: nat)
    requires i < |t.events|
  {
    var e := t.events[i];
    var before := Last(t.events[..i], e.content.reviewId);
    && e.content.reviewId in t.records
    && var r := t.records[e.content.reviewId];
       && Immutable(w, r, e, i + 1, HeadHash(t.events[..i]))
       && (i > 0 ==> t.events[i - 1].content.acceptedAt <= e.content.acceptedAt)
       && e.content.previousReviewEventHash == HashOf(before)
       && Semantics(e.content, before, r.content.recordDay)
       && StateAt(t.states, i + 1) == Some(StateOf(r, e))
  }

  function StateAt(states: seq<StateRow>, index: int): Option<StateRow> {
    if states == [] then None
    else if states[0].eventIndex == index then Some(states[0])
    else StateAt(states[1..], index)
  }

  /** The event index is the primary key of the query rows, which are read in its order. */
  ghost predicate KeyedStates(states: seq<StateRow>) {
    forall i, j :: 0 <= i < j < |states| ==> states[i].eventIndex < states[j].eventIndex
  }

  predicate RecordsKeyed(records: map<string, Record>) {
    forall id :: id in records ==> records[id].content.reviewId == id
  }

  ghost predicate RecordsVerify(w: World, t: Tables) {
    forall id :: id in t.records ==> RecordVerifies(w, t.sources, id, t.records[id])
  }

  /** Every event verifies against the ones before it, every record has one, and no query row is left over. */
  ghost predicate LogReplays(w: World, t: Tables) {
    && (forall i :: 0 <= i < |t.events| ==> EventVerifies(w, t, i))
    && (forall id :: id in t.records ==> Last(t.events, id).Some?)
    && |t.states| == |t.events|
  }

  ghost predicate Replayable(w: World, t: Tables) {
    RecordsVerify(w, t) && LogReplays(w, t)
  }
}
