/**
  The append-only ledger with its Merkle index, its idempotency and nonce tables, and the daily checkpoints.

  Each committed transaction is one step.  Times are seconds and days are numbers; the clock that drives
  the steps is arbitrary and may run backwards.
*/
module Ledger {
  import opened Basics
  import opened Protocol
  import D = DigestText
  import M = MerkleIndex
  import T = MerkleTree

  const DAY: int := 86400

  function DayOf(time: int): int { time / DAY }

  /** The first second after a day. */
  function EndOf(day: int): int { (day + 1) * DAY }

  // ---------------------------------------------------------------- tables

  datatype Entry = Entry(content: EntryContent, entryHash: string)

  datatype Batch = Batch(
    batchId: string, deploymentId: string, idempotencyKey: string, kind: Kind, period: string,
    qualifiedMauCount: int, commitmentHash: string, revision: int, supersedesBatchId: string, payloadHash: string,
    acceptedAt: int, ledgerIndex: int, receiptSignature: string)

  datatype WeightRow = WeightRow(
    ledgerIndex: int, deploymentId: string, period: string, revision: int, qualifiedMauCount: int,
    acceptedAt: int, sourceEntryHash: string)

  datatype NonceKey = NonceKey(signer: string, nonce: string)

  datatype NonceRow = NonceRow(requestHash: string, idempotencyKey: string, payloadHash: string, timestamp: string)

  datatype IdempotencyKey = IdempotencyKey(signer: string, key: string)

  datatype ResultType = DeploymentResult | BatchResult

  datatype IdempotencyRow = IdempotencyRow(payloadHash: string, resultType: ResultType, resultId: string)

  datatype Checkpoint = Checkpoint(content: CheckpointContent, checkpointHash: string, signature: string)

  datatype Tables = Tables(
    entries: seq<Entry>, nodes: M.Nodes, batches: seq<Batch>, weights: seq<WeightRow>, nonces: map<NonceKey, NonceRow>,
    idempotency: map<IdempotencyKey, IdempotencyRow>, checkpoints: seq<Checkpoint>)

  /** What does not change: the digests, the registry's signatures, its identity and creation time. */
  datatype Registry = Registry(g: Digests, merkle: T.Hash, sign: Digests, scope: string, keyId: string, createdAt: int)

  const Empty: Tables := Tables([], map[], [], [], map[], map[], [])

  datatype Error =
    | ReplayConflict
    | IdempotencyConflict
    | InconsistentState
    | NotFound
    | AcceptedAtBeforeIdentity
    | AcceptedAtFinalized
    | AcceptedAtBeforeHead
    | RevisionConflict
    | SignerFailed
    | UniqueViolation

  datatype Result<+T> = Ok(value: T) | Err(error: Error)

  // ---------------------------------------------------------------- reading the tables

  /** The row with the largest ledger index below `end` seconds, as the checkpoint query reads it. */
  datatype Head = Head(ledgerIndex: int, entryCount: int, entryHash: string)

  function CountBefore(entries: seq<Entry>, end: int): nat {
    if entries == [] then 0
    else CountBefore(entries[..|entries| - 1], end)
         + if entries[|entries| - 1].content.acceptedAt < end then 1 else 0
  }

  /** MAX(ledger_index) of the rows before `end`, or 0. */
  function MaxIndexBefore(entries: seq<Entry>, end: int): int {
    if entries == [] then 0
    else
      var most, last := MaxIndexBefore(entries[..|entries| - 1], end), entries[|entries| - 1].content;
      if last.acceptedAt < end && last.ledgerIndex > most then last.ledgerIndex else most
  }

  function RowAt(entries: seq<Entry>, ledgerIndex: int): Option<Entry> {
    if entries == [] then None
    else if entries[0].content.ledgerIndex == ledgerIndex then Some(entries[0])
    else RowAt(entries[1..], ledgerIndex)
  }

  function HeadBefore(entries: seq<Entry>, end: int): Option<Head> {
    var index := MaxIndexBefore(entries, end);
    if index <= 0 then Some(Head(index, CountBefore(entries, end), ZERO_HASH))
    else
      match RowAt(entries, index)
      case None => None
      case Some(row) => Some(Head(index, CountBefore(entries, end), row.entryHash))
  }

  function HeadHash(entries: seq<Entry>): string {
    if entries == [] then ZERO_HASH else entries[|entries| - 1].entryHash
  }

  function HeadIndex(entries: seq<Entry>): int {
    if entries == [] then 0 else entries[|entries| - 1].content.ledgerIndex
  }

  function FindBatch(batches: seq<Batch>, batchId: string): Option<Batch> {
    if batches == [] then None
    else if batches[0].batchId == batchId then Some(batches[0])
    else FindBatch(batches[1..], batchId)
  }

  datatype BatchRecord = BatchRecord(batch: Batch, entry: Entry)

  /** A ledger row as the join with its batch shows it. */
  function Joined(b: Batch, e: Entry): Entry {
    e.(content := e.content.(deploymentId := b.deploymentId, batchId := b.batchId, kind := b.kind,
                             period := b.period, qualifiedMauCount := b.qualifiedMauCount,
                             acceptedAt := b.acceptedAt))
  }

  function RecordById(t: Tables, batchId: string): Option<BatchRecord> {
    match FindBatch(t.batches, batchId)
    case None => None
    case Some(b) =>
      match RowAt(t.entries, b.ledgerIndex)
      case None => None
      case Some(e) => Some(BatchRecord(b, Joined(b, e)))
  }

  /** The qualified-MAU batches of one deployment and period, in the order of acceptance. */
  function Revisions(batches: seq<Batch>, deploymentId: string, period: string): seq<Batch> {
    if batches == [] then []
    else
      var last := batches[|batches| - 1];
      Revisions(batches[..|batches| - 1], deploymentId, period)
      + if last.kind == QualifiedMau && last.deploymentId == deploymentId && last.period == period then [last] else []
  }

  /** The row with the largest revision. */
  function Newest(rows: seq<Batch>): Batch
    requires rows != []
  {
    var last := rows[|rows| - 1];
    if |rows| == 1 then last
    else
      var best := Newest(rows[..|rows| - 1]);
      if last.revision > best.revision then last else best
  }

  // ---------------------------------------------------------------- accepting a batch

  /** `receipt` is the receipt's signature, or none if the signer failed. */
  datatype Input = Input(
    request: Request, candidateBatchId: string, kind: Kind, period: string, qualifiedMauCount: int,
    commitmentHash: string, revision: int, supersedesBatchId: string, acceptedAt: int, receipt: Option<string>)

  function NonceOf(q: Request): NonceKey { NonceKey(q.signer, q.nonce) }

  function KeyOf(q: Request): IdempotencyKey { IdempotencyKey(q.signer, q.idempotencyKey) }

  function NonceRowOf(r: Registry, q: Request): NonceRow {
    NonceRow(Digest(r.g, RequestMessage(q)), q.idempotencyKey, q.payloadHash, q.timestamp)
  }

  /** Is the nonce used?  Used by a different request, it is a conflict. */
  function NonceState(r: Registry, t: Tables, q: Request): Result<bool> {
    if NonceOf(q) !in t.nonces then Ok(false)
    else if t.nonces[NonceOf(q)].requestHash != Digest(r.g, RequestMessage(q)) then Err(ReplayConflict)
    else Ok(true)
  }

  function TimeGuards(r: Registry, t: Tables, acceptedAt: int): Option<Error> {
    if acceptedAt < r.createdAt then Some(AcceptedAtBeforeIdentity)
    else if t.checkpoints != [] && acceptedAt < EndOf(t.checkpoints[|t.checkpoints| - 1].content.checkpointDay) then
      Some(AcceptedAtFinalized)
    else None
  }

  function RevisionGuard(t: Tables, i: Input): Option<Error> {
    if i.kind != QualifiedMau then None
    else
      var rows := Revisions(t.batches, i.request.signer, i.period);
      if rows == [] then
        if i.revision != 1 || i.supersedesBatchId != "" then Some(RevisionConflict) else None
      else if i.revision != Newest(rows).revision + 1 || i.supersedesBatchId != Newest(rows).batchId then
        Some(RevisionConflict)
      else None
  }

  function HeadGuard(t: Tables, acceptedAt: int): Option<Error> {
    if t.entries != [] && acceptedAt < t.entries[|t.entries| - 1].content.acceptedAt then Some(AcceptedAtBeforeHead)
    else None
  }

  predicate Unique(t: Tables, e: Entry) {
    forall i :: 0 <= i < |t.entries| ==>
      t.entries[i].content.batchId != e.content.batchId && t.entries[i].entryHash != e.entryHash
  }

  function NextEntry(r: Registry, t: Tables, deploymentId: string, batchId: string, kind: Kind, period: string,
                     count: int, batchHash: string, acceptedAt: int): Entry {
    var content := EntryContent(r.scope, HeadIndex(t.entries) + 1, deploymentId, batchId, kind, period, count,
                                batchHash, HeadHash(t.entries), acceptedAt);
    Entry(content, Digest(r.g, EntryMessage(content)))
  }

  function EntryFor(r: Registry, t: Tables, i: Input): Entry {
    NextEntry(r, t, i.request.signer, i.candidateBatchId, i.kind, i.period, i.qualifiedMauCount,
              i.request.payloadHash, i.acceptedAt)
  }

  // ---------------------------------------------------------------- the Merkle index

  function LeafOf(e: Entry): T.Digest {
    var d := D.Parse(e.entryHash);
    if d.None? then T.Digest([]) else d.value
  }

  /** The leaves of the tree: the entries' decoded hashes. */
  function Leaves(entries: seq<Entry>): (d: seq<T.Digest>)
    ensures |d| == |entries|
    ensures forall i :: 0 <= i < |d| ==> d[i] == LeafOf(entries[i])
  {
    seq(|entries|, i requires 0 <= i < |entries| => LeafOf(entries[i]))
  }

  /** The stored nodes after the new entry's, or none if its hash is no digest or a node is in the way. */
  function NodesWith(r: Registry, t: Tables, e: Entry): Option<M.Nodes> {
    if e.content.ledgerIndex < 1 || D.Parse(e.entryHash).None? then None
    else
      M.Completions(r.merkle, Leaves(t.entries + [e]), t.nodes, M.Key(0, e.content.ledgerIndex - 1),
                    T.LeafHash(r.merkle, LeafOf(e)))
  }

  // ---------------------------------------------------------------- the rows of a batch

  function BatchFor(i: Input, e: Entry, signature: string): Batch {
    Batch(i.candidateBatchId, i.request.signer, i.request.idempotencyKey, i.kind, i.period, i.qualifiedMauCount,
          i.commitmentHash, i.revision, i.supersedesBatchId, i.request.payloadHash, i.acceptedAt,
          e.content.ledgerIndex, signature)
  }

  function WeightFor(i: Input, e: Entry): WeightRow {
    WeightRow(e.content.ledgerIndex, e.content.deploymentId, e.content.period, i.revision,
              e.content.qualifiedMauCount, e.content.acceptedAt, e.entryHash)
  }

  /** The record, whether it was there before, and the tables after the transaction. */
  datatype Acceptance = Acceptance(record: BatchRecord, duplicate: bool, tables: Tables)

  function Insert(r: Registry, t: Tables, i: Input, signature: string, nodes: M.Nodes): Acceptance {
    var e := EntryFor(r, t, i);
    var b := BatchFor(i, e, signature);
    Acceptance(
      BatchRecord(b, e), false,
      Tables(t.entries + [e], nodes, t.batches + [b], t.weights + [WeightFor(i, e)],
             t.nonces[NonceOf(i.request) := NonceRowOf(r, i.request)],
             t.idempotency[KeyOf(i.request) := IdempotencyRow(i.request.payloadHash, BatchResult, i.candidateBatchId)],
             t.checkpoints))
  }

  /** A key that was used before: the stored record, and at most one more nonce row. */
  function Replay(r: Registry, t: Tables, i: Input, nonceUsed: bool): Result<Acceptance>
    requires KeyOf(i.request) in t.idempotency
  {
    var row := t.idempotency[KeyOf(i.request)];
    if row.payloadHash != i.request.payloadHash then Err(IdempotencyConflict)
    else if row.resultType != BatchResult then Err(InconsistentState)
    else
      match RecordById(t, row.resultId)
      case None => Err(NotFound)
      case Some(record) =>
        Ok(Acceptance(record, true,
                      if nonceUsed then t
                      else t.(nonces := t.nonces[NonceOf(i.request) := NonceRowOf(r, i.request)])))
  }

  /** The three guards on the time, the revision and the ledger head. */
  function Guards(r: Registry, t: Tables, i: Input): Option<Error> {
    match TimeGuards(r, t, i.acceptedAt)
    case Some(e) => Some(e)
    case None =>
      match RevisionGuard(t, i)
      case Some(e) => Some(e)
      case None => HeadGuard(t, i.acceptedAt)
  }

  function Accept(r: Registry, t: Tables, i: Input): Result<Acceptance> {
    match NonceState(r, t, i.request)
    case Err(e) => Err(e)
    case Ok(nonceUsed) =>
      if KeyOf(i.request) in t.idempotency then Replay(r, t, i, nonceUsed)
      else if nonceUsed then Err(InconsistentState)
      else
        match Guards(r, t, i)
        case Some(e) => Err(e)
        case None => Appending(r, t, i)
  }

  /** A new batch that passed its guards: sign its receipt and write its rows. */
  function Appending(r: Registry, t: Tables, i: Input): Result<Acceptance> {
    if i.receipt.None? then Err(SignerFailed)
    else if !Unique(t, EntryFor(r, t, i)) then Err(UniqueViolation)
    else
      match NodesWith(r, t, EntryFor(r, t, i))
      case None => Err(InconsistentState)
      case Some(nodes) => Ok(Insert(r, t, i, i.receipt.value, nodes))
  }

  // ---------------------------------------------------------------- other writers

  /** A revenue batch or a settlement: it appends to the ledger behind the same three guards. */
  datatype Appended = Appended(
    deploymentId: string, batchId: string, kind: Kind, period: string, batchHash: string, acceptedAt: int)

  function AppendOther(r: Registry, t: Tables, x: Appended): Result<Tables> {
    match TimeGuards(r, t, x.acceptedAt)
    case Some(e) => Err(e)
    case None =>
      match HeadGuard(t, x.acceptedAt)
      case Some(e) => Err(e)
      case None =>
        var e := NextEntry(r, t, x.deploymentId, x.batchId, x.kind, x.period, 0, x.batchHash, x.acceptedAt);
        if !Unique(t, e) then Err(UniqueViolation)
        else
          match NodesWith(r, t, e)
          case None => Err(InconsistentState)
          case Some(nodes) => Ok(t.(entries := t.entries + [e], nodes := nodes))
  }

  /** A registration or a revenue batch: it shares the nonce and idempotency tables. */
  datatype Side = Side(
    request: Request, appended: Option<Appended>, resultType: ResultType, resultId: string, admitted: bool)

  function WithNonce(r: Registry, t: Tables, q: Request): Tables {
    t.(nonces := t.nonces[NonceOf(q) := NonceRowOf(r, q)])
  }

  function SideWrite(r: Registry, t: Tables, s: Side): Result<Tables> {
    match NonceState(r, t, s.request)
    case Err(e) => Err(e)
    case Ok(nonceUsed) =>
      if KeyOf(s.request) in t.idempotency then
        if t.idempotency[KeyOf(s.request)].payloadHash != s.request.payloadHash then Err(IdempotencyConflict)
        else Ok(if nonceUsed then t else WithNonce(r, t, s.request))
      else if nonceUsed || !s.admitted then Err(InconsistentState)
      else
        var u := if s.appended.None? then Ok(t) else AppendOther(r, t, s.appended.value);
        match u
        case Err(e) => Err(e)
        case Ok(v) =>
          Ok(WithNonce(r, v, s.request).(
               idempotency := v.idempotency[KeyOf(s.request) :=
                                 IdempotencyRow(s.request.payloadHash, s.resultType, s.resultId)]))
  }

  // ---------------------------------------------------------------- checkpoints

  function LastCheckpointHash(checkpoints: seq<Checkpoint>): string {
    if checkpoints == [] then ZERO_HASH else checkpoints[|checkpoints| - 1].checkpointHash
  }

  function NextDay(r: Registry, checkpoints: seq<Checkpoint>): int {
    if checkpoints == [] then DayOf(r.createdAt) else checkpoints[|checkpoints| - 1].content.checkpointDay + 1
  }

  function Sealed(r: Registry, c: CheckpointContent): Checkpoint {
    Checkpoint(c, Digest(r.g, CheckpointMessage(c)), Digest(r.sign, CheckpointMessage(c)))
  }

  function CheckpointFor(r: Registry, t: Tables, day: int, now: int): Option<Checkpoint> {
    match HeadBefore(t.entries, EndOf(day))
    case None => None
    case Some(head) =>
      Some(Sealed(r, CheckpointContent(r.scope, day, head.ledgerIndex, head.entryCount, head.entryHash,
                                       LastCheckpointHash(t.checkpoints), now, r.keyId)))
  }

  /** Primary key and UNIQUE constraint of the checkpoint table. */
  predicate NewCheckpoint(checkpoints: seq<Checkpoint>, c: Checkpoint) {
    forall i :: 0 <= i < |checkpoints| ==>
      && checkpoints[i].content.checkpointDay != c.content.checkpointDay
      && checkpoints[i].checkpointHash != c.checkpointHash
  }

  /** One checkpoint for each day from `day` through `target`, or no change at all. */
  function FinalizeDays(r: Registry, t: Tables, day: int, target: int, now: int): Option<Tables>
    decreases target - day
  {
    if day > target then Some(t)
    else
      match CheckpointFor(r, t, day, now)
      case None => None
      case Some(c) =>
        if !NewCheckpoint(t.checkpoints, c) then None
        else FinalizeDays(r, t.(checkpoints := t.checkpoints + [c]), day + 1, target, now)
  }

  function Finalize(r: Registry, t: Tables, now: int): Option<Tables> {
    FinalizeDays(r, t, NextDay(r, t.checkpoints), DayOf(now) - 1, now)
  }

  // ---------------------------------------------------------------- what the verifiers accept

  /** Entry `i` continues the chain. */
  ghost predicate Linked(r: Registry, entries: seq<Entry>, i: nat)
    requires i < |entries|
  {
    var e := entries[i];
    && e.content.ledgerIndex == i + 1
    && e.content.scope == r.scope
    && e.content.previousEntryHash == HeadHash(entries[..i])
    && e.entryHash == Digest(r.g, EntryMessage(e.content))
    && (i > 0 ==> entries[i - 1].content.acceptedAt <= e.content.acceptedAt)
  }

  ghost predicate LedgerVerifies(r: Registry, entries: seq<Entry>) {
    forall i :: 0 <= i < |entries| ==> Linked(r, entries, i)
  }

  /** The checkpoint states the ledger head at the end of its day. */
  ghost predicate StatesHead(entries: seq<Entry>, c: CheckpointContent) {
    HeadBefore(entries, EndOf(c.checkpointDay)) == Some(Head(c.throughLedgerIndex, c.entryCount, c.ledgerHeadHash))
  }

  ghost predicate CheckpointLinked(r: Registry, entries: seq<Entry>, checkpoints: seq<Checkpoint>, i: nat)
    requires i < |checkpoints|
  {
    var c := checkpoints[i];
    && (i > 0 ==> c.content.checkpointDay == checkpoints[i - 1].content.checkpointDay + 1)
    && c.content.scope == r.scope && c.content.registryKeyId == r.keyId
    && c.content.previousCheckpointHash == LastCheckpointHash(checkpoints[..i])
    && c == Sealed(r, c.content)
    && StatesHead(entries, c.content)
  }

  ghost predicate CheckpointsVerify(r: Registry, entries: seq<Entry>, checkpoints: seq<Checkpoint>) {
    forall i :: 0 <= i < |checkpoints| ==> CheckpointLinked(r, entries, checkpoints, i)
  }
}
