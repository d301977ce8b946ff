/**
  Final exit allocations: at most one per exit review, recorded against the review's standing
  verification and made final only while that verification still stands.

  Reviews, with the sources and the ownership transfers, and allocations are one store.
*/
module ExitAllocation {
  import opened Basics
  import opened Protocol
  import R = ExitReview
  import A = AllocationRows
  import SB = SettlementBoundaries
  import O = OwnershipTransfers

  datatype Record = Record(content: AllocationContent, recordHash: string, rows: A.Rows)

  datatype Event = Event(content: AllocationEventContent, eventHash: string, signature: string)

  /** The query row written with each event. */
  datatype StateRow = StateRow(
    eventIndex: int, eventHash: string, allocationId: string, status: AllocationStatus, decisionMode: DecisionMode,
    beneficiaryType: BeneficiaryType, beneficiaryId: string, exitReviewId: string, targetDeploymentId: string,
    claimActionId: string, sourceGroupId: string, transferId: string, settlementSourceCount: int,
    settlementSourceHash: string, currencyAllocationCount: int, currencyAllocationHash: string, recordHash: string,
    action: AllocationAction, actorRole: AllocationRole, actorId: string, reference: string, evidenceHash: string,
    acceptedAt: int)

  datatype Tables = Tables(
    reviews: R.Tables, records: map<string, Record>, events: seq<Event>, states: seq<StateRow>)

  const Empty: Tables := Tables(R.Empty, map[], [], [])

  /** The texts of an event that are checked against patterns. */
  datatype Fields = Fields(eventId: string, evidenceHash: string, actorId: string, reference: string,
                           idempotencyKey: string)

  /** What does not change: the exit-review world and the patterns. */
  datatype World = World(r: R.World, wellFormed: iset<Fields>, recordsWellFormed: iset<AllocationContent>)

  function SettledIn(t: Tables): A.Settlements { SB.ById(t.reviews.sources.settlements) }

  function TransfersIn(t: Tables): O.Log { t.reviews.sources.transfers }

  datatype Error =
    | IdempotencyConflict
    | AcceptedAtBeforeIdentity
    | ClockBeforeHead
    | AlreadyExists
    | ExitBoundary
    | TransferBoundary
    | TransferConflict
    | TargetGroup
    | ClaimBoundary
    | Conservation
    | NotFound
    | InvalidTransition
    | InvalidField
    | UniqueViolation

  datatype Result<+T> = Ok(value: T) | Err(error: Error)

  // ---------------------------------------------------------------- the review that is exited

  function ReviewEventAt(events: seq<R.Event>, index: int, hash: string, reviewId: string): Option<R.Event> {
    if events == [] then None
    else if events[0].content.eventIndex == index && events[0].eventHash == hash
            && events[0].content.reviewId == reviewId then Some(events[0])
    else ReviewEventAt(events[1..], index, hash, reviewId)
  }

  /** The review stands at exactly this verification, which is its last event. */
  datatype Standing = Standing(review: R.Review, event: R.Event)

  function ExactReview(t: Tables, reviewId: string, verificationHash: string): Option<Standing> {
    match R.ReviewById(t.reviews, reviewId)
    case None => None
    case Some(v) =>
      if v.state.status != Eligible || v.state.action != Verify || v.state.eventHash != verificationHash then None
      else
        match ReviewEventAt(t.reviews.events, v.state.eventIndex, verificationHash, reviewId)
        case None => None
        case Some(e) =>
          if e.content.action == Verify && e.content.status == Eligible && e.content.recordHash == v.record.recordHash
          then Some(Standing(v, e)) else None
  }

  // ---------------------------------------------------------------- the ownership decision

  datatype Decision = Decision(
    beneficiaryType: BeneficiaryType, beneficiaryId: string, completionIndex: int, completionHash: string)

  /** The transfer is completed for the review's claim, by the event with this hash. */
  predicate CompletedFor(log: O.Log, id: string, r: R.Record, completionHash: string) {
    var last, row := O.Last(log.events, id), O.MembershipOf(log.memberships, id);
    && id in log.records && last.Some? && row.Some?
    && last.value.status == O.Completed && last.value.action == O.Complete
    && log.records[id].exitReviewId == r.content.reviewId
    && O.OfClaim(log.records[id], r.content.targetDeploymentId, r.content.claimActionId)
    && log.records[id].sourceGroupId == r.content.groupId
    && row.value.eventHash == completionHash && last.value.eventHash == completionHash
  }

  predicate Contested(log: O.Log, r: R.Record, selected: string) {
    O.Conflicting(log.records, log.events, r.content.targetDeploymentId, r.content.claimActionId, selected)
  }

  function Decide(w: World, log: O.Log, r: R.Record, mode: DecisionMode, transferId: string,
                  completionHash: string, requested: string): Option<Decision> {
    match mode
    case CompletedTransfer =>
      if transferId == "" || completionHash !in w.r.patterns.digests || requested != "" then None
      else if !CompletedFor(log, transferId, r, completionHash) then None
      else if Contested(log, r, transferId) then None
      else
        var m := O.MembershipOf(log.memberships, transferId).value;
        Some(Decision(OperatorGroup, log.records[transferId].targetGroupId, m.eventIndex, m.eventHash))
    case NoTransfer =>
      if transferId != "" || completionHash != ZERO_HASH || requested == "" then None
      else if Contested(log, r, "") then None
      else Some(Decision(ContractBeneficiary, requested, 0, ZERO_HASH))
  }

  // ---------------------------------------------------------------- records, events and rows

  function SealedRecord(w: World, c: AllocationContent, rows: A.Rows): Record {
    var content := c.(settlementSourceCount := |rows.sources|,
                      settlementSourceHash := Digest(w.r.g, SourcesMessage(rows.sources)),
                      currencyAllocationCount := |rows.currencies|,
                      currencyAllocationHash := Digest(w.r.g, CurrenciesMessage(rows.currencies)));
    Record(content, Digest(w.r.g, AllocationMessage(content)), rows)
  }

  function PayloadOf(c: AllocationEventContent): AllocationPayload {
    AllocationPayload(c.allocationId, c.action, c.status, c.actorRole, c.actorId, c.reference, c.evidenceHash,
                      c.recordHash)
  }

  function PayloadHash(w: World, c: AllocationEventContent): string {
    Digest(w.r.g, AllocationPayloadMessage(PayloadOf(c)))
  }

  function FieldsOf(c: AllocationEventContent): Fields {
    Fields(c.eventId, c.evidenceHash, c.actorId, c.reference, c.idempotencyKey)
  }

  function SealedEvent(w: World, c: AllocationEventContent): Event {
    var hash := Digest(w.r.g, AllocationEventMessage(c));
    Event(c, hash, R.SignatureOn(w.r, hash))
  }

  function StateOf(r: Record, e: Event): StateRow {
    var c, d := r.content, e.content;
    StateRow(d.eventIndex, e.eventHash, c.allocationId, d.status, c.decisionMode, c.beneficiaryType, c.beneficiaryId,
             c.exitReviewId, c.targetDeploymentId, c.claimActionId, c.sourceGroupId, c.transferId,
             c.settlementSourceCount, c.settlementSourceHash, c.currencyAllocationCount, c.currencyAllocationHash,
             r.recordHash, d.action, d.actorRole, d.actorId, d.reference, d.evidenceHash, d.acceptedAt)
  }

  function HeadHash(events: seq<Event>): string {
    if events == [] then ZERO_HASH else events[|events| - 1].eventHash
  }

  function HeadIndex(events: seq<Event>): int {
    if events == [] then 0 else events[|events| - 1].content.eventIndex
  }

  function FindByKey(events: seq<Event>, key: string): Option<Event> {
    if events == [] then None
    else if events[0].content.idempotencyKey == key then Some(events[0])
    else FindByKey(events[1..], key)
  }

  function LatestState(states: seq<StateRow>, id: string): Option<StateRow> {
    if states == [] then None
    else if states[|states| - 1].allocationId == id then Some(states[|states| - 1])
    else LatestState(states[..|states| - 1], id)
  }

  datatype Allocation = Allocation(record: Record, state: StateRow)

  function AllocationById(t: Tables, id: string): Option<Allocation> {
    if id !in t.records then None
    else
      match LatestState(t.states, id)
      case None => None
      case Some(s) => Some(Allocation(t.records[id], s))
  }

  function Written(t: Tables, r: Record, e: Event): Tables {
    Tables(t.reviews, t.records[r.content.allocationId := r], t.events + [e], t.states + [StateOf(r, e)])
  }

  predicate NewEvent(t: Tables, e: Event) {
    forall i :: 0 <= i < |t.events| ==>
      && t.events[i].content.eventId != e.content.eventId && t.events[i].eventHash != e.eventHash
      && t.events[i].content.idempotencyKey != e.content.idempotencyKey
  }

  predicate NewRecord(t: Tables, r: Record) {
    r.content.allocationId !in t.records && forall id :: id in t.records ==> t.records[id].recordHash != r.recordHash
  }

  /** No allocation of this review exists. */
  predicate Unallocated(t: Tables, exitReviewId: string) {
    forall id :: id in t.records ==> t.records[id].content.exitReviewId != exitReviewId
  }

  function ClockGuard(w: World, t: Tables, acceptedAt: int): Option<Error> {
    if acceptedAt < w.r.createdAt then Some(AcceptedAtBeforeIdentity)
    else if t.events != [] && acceptedAt < t.events[|t.events| - 1].content.acceptedAt then Some(ClockBeforeHead)
    else None
  }

  // ---------------------------------------------------------------- creating

  datatype CreateInput = CreateInput(
    exitReviewId: string, verificationHash: string, decisionMode: DecisionMode, transferId: string,
    completionHash: string, beneficiaryId: string, contractReference: string, contractTermsHash: string,
    evidenceHash: string, actorId: string, idempotencyKey: string, candidateAllocationId: string,
    candidateEventId: string, acceptedAt: int)

  datatype Mutation = Mutation(event: Event, allocation: Allocation, duplicate: bool, tables: Tables)

  predicate SameCreate(i: CreateInput, e: Event, r: Record) {
    && e.content.action == Create && r.content.exitReviewId == i.exitReviewId
    && r.content.exitVerificationEventHash == i.verificationHash && r.content.decisionMode == i.decisionMode
    && r.content.transferId == i.transferId
    && r.content.transferCompletionEventHash == (if i.decisionMode == NoTransfer then ZERO_HASH else i.completionHash)
    && (i.decisionMode == NoTransfer ==> r.content.beneficiaryId == i.beneficiaryId)
    && r.content.contractReference == i.contractReference && r.content.contractTermsHash == i.contractTermsHash
    && r.content.evidenceHash == i.evidenceHash && e.content.actorId == i.actorId
  }

  predicate SourceClock(t: Tables, acceptedAt: int, exit: R.Event, sources: seq<SettlementSource>) {
    var transfers, settled := TransfersIn(t).events, SettledIn(t);
    && exit.content.acceptedAt <= acceptedAt
    && (transfers != [] ==> transfers[|transfers| - 1].acceptedAt <= acceptedAt)
    && forall k :: 0 <= k < |sources| && sources[k].settlementId in settled ==>
         settled[sources[k].settlementId].acceptedAt <= acceptedAt
  }

  function RecordFor(w: World, log: O.Log, v: Standing, d: Decision, rows: A.Rows, i: CreateInput): Record {
    var r, e := v.review.record, v.event;
    SealedRecord(
      w,
      AllocationContent(
        i.candidateAllocationId, r.content.reviewId, r.content.targetDeploymentId, r.content.claimActionId,
        r.content.groupId, r.recordHash, e.content.eventIndex, e.eventHash, e.content.evidenceHash, i.decisionMode,
        i.transferId, d.completionIndex, d.completionHash, O.HeadIndex(log.events), O.HeadHash(log.events),
        d.beneficiaryType, d.beneficiaryId, i.contractReference, i.contractTermsHash, i.evidenceHash, 0, "", 0, "",
        i.acceptedAt, w.r.scope, w.r.keyId),
      rows)
  }

  function CreateContent(w: World, t: Tables, r: Record, i: CreateInput): AllocationEventContent {
    var c := AllocationEventContent(
      HeadIndex(t.events) + 1, i.candidateEventId, r.content.allocationId, Create, Recorded, Allocator, i.actorId,
      i.contractReference, i.evidenceHash, i.idempotencyKey, "", r.recordHash, i.acceptedAt, HeadHash(t.events),
      ZERO_HASH, w.r.scope, w.r.keyId);
    c.(payloadHash := PayloadHash(w, c))
  }

  ghost function Creating(w: World, t: Tables, i: CreateInput): Result<Mutation> {
    match FindByKey(t.events, i.idempotencyKey)
    case Some(e) =>
      (match AllocationById(t, e.content.allocationId)
       case None => Err(NotFound)
       case Some(a) => if SameCreate(i, e, a.record) then Ok(Mutation(e, a, true, t)) else Err(IdempotencyConflict))
    case None =>
      match ClockGuard(w, t, i.acceptedAt)
      case Some(e) => Err(e)
      case None =>
        if !Unallocated(t, i.exitReviewId) then Err(AlreadyExists)
        else
          match ExactReview(t, i.exitReviewId, i.verificationHash)
          case None => Err(ExitBoundary)
          case Some(v) => CreatingFor(w, t, v, i)
  }

  ghost function CreatingFor(w: World, t: Tables, v: Standing, i: CreateInput): Result<Mutation> {
    var r := v.review.record;
    match Decide(w, TransfersIn(t), r, i.decisionMode, i.transferId, i.completionHash, i.beneficiaryId)
    case None => Err(TransferBoundary)
    case Some(d) =>
      match A.Derived(SettledIn(t), r.content.groupId, r.settlements, d.beneficiaryType, d.beneficiaryId)
      case None => Err(Conservation)
      case Some(rows) =>
        if !SourceClock(t, i.acceptedAt, v.event, rows.sources) then Err(ClockBeforeHead)
        else
          var record := RecordFor(w, TransfersIn(t), v, d, rows, i);
          var e := SealedEvent(w, CreateContent(w, t, record, i));
          if FieldsOf(e.content) !in w.wellFormed || record.content !in w.recordsWellFormed then Err(InvalidField)
          else if !NewRecord(t, record) || !NewEvent(t, e) then Err(UniqueViolation)
          else Ok(Mutation(e, Allocation(record, StateOf(record, e)), false, Written(t, record, e)))
  }

  // ---------------------------------------------------------------- verifying

  datatype VerifyInput = VerifyInput(
    allocationId: string, actorId: string, reference: string, evidenceHash: string, idempotencyKey: string,
    payloadHash: string, candidateEventId: string, acceptedAt: int)

  predicate SameVerify(i: VerifyInput, e: Event) {
    && e.content.allocationId == i.allocationId && e.content.action == VerifyFinal && e.content.actorId == i.actorId
    && e.content.reference == i.reference && e.content.evidenceHash == i.evidenceHash
    && e.content.payloadHash == i.payloadHash
  }

  function VerifyContent(w: World, t: Tables, a: Allocation, i: VerifyInput): AllocationEventContent {
    AllocationEventContent(
      HeadIndex(t.events) + 1, i.candidateEventId, a.record.content.allocationId, VerifyFinal, VerifiedFinal,
      RegistryVerifier, i.actorId, i.reference, i.evidenceHash, i.idempotencyKey, i.payloadHash,
      a.record.recordHash, i.acceptedAt, HeadHash(t.events), a.state.eventHash, w.r.scope, w.r.keyId)
  }

  ghost function Verifying(w: World, t: Tables, i: VerifyInput): Result<Mutation> {
    match FindByKey(t.events, i.idempotencyKey)
    case Some(e) =>
      (match AllocationById(t, e.content.allocationId)
       case None => Err(NotFound)
       case Some(a) => if SameVerify(i, e) then Ok(Mutation(e, a, true, t)) else Err(IdempotencyConflict))
    case None =>
      match ClockGuard(w, t, i.acceptedAt)
      case Some(e) => Err(e)
      case None =>
        match AllocationById(t, i.allocationId)
        case None => Err(NotFound)
        case Some(a) =>
          if a.state.status != Recorded || a.state.action != Create then Err(InvalidTransition)
          else
            match ExactReview(t, a.record.content.exitReviewId, a.record.content.exitVerificationEventHash)
            case None => Err(ExitBoundary)
            case Some(v) => VerifyingFor(w, t, v, a, i)
  }

  ghost function VerifyingFor(w: World, t: Tables, v: Standing, a: Allocation, i: VerifyInput): Result<Mutation> {
    var r, c := v.review.record, a.record.content;
    match Decide(w, TransfersIn(t), r, c.decisionMode, c.transferId, c.transferCompletionEventHash,
                 if c.decisionMode == CompletedTransfer then "" else c.beneficiaryId)
    case None => Err(TransferBoundary)
    case Some(d) =>
      if d != Decision(c.beneficiaryType, c.beneficiaryId, c.transferCompletionEventIndex,
                       c.transferCompletionEventHash) then
        Err(TransferBoundary)
      else
        match A.Derived(SettledIn(t), r.content.groupId, r.settlements, d.beneficiaryType, d.beneficiaryId)
        case None => Err(Conservation)
        case Some(rows) =>
          if rows != a.record.rows then Err(Conservation)
          else
            var e := SealedEvent(w, VerifyContent(w, t, a, i));
            if FieldsOf(e.content) !in w.wellFormed then Err(InvalidField)
            else if !NewEvent(t, e) then Err(UniqueViolation)
            else Ok(Mutation(e, Allocation(a.record, StateOf(a.record, e)), false, Written(t, a.record, e)))
  }
}
