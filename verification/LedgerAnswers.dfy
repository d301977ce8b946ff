/**
  What the ledger's writers answer, said of the rows themselves: which days a finalization closes, when a
  submission is accepted, and with which error it is refused.
*/
module LedgerAnswers {
  import opened Basics
  import opened Protocol
  import opened Ledger
  import opened LedgerSafety
  import D = DigestText
  import M = MerkleIndex

  // ---------------------------------------------------------------- finalization

  ghost predicate HasDay(checkpoints: seq<Checkpoint>, day: int) {
    exists i :: 0 <= i < |checkpoints| && checkpoints[i].content.checkpointDay == day
  }

  /** Only checkpoints are added, of days that have ended; and every day that has ended since the creation has one. */
  ghost predicate Closes(r: Registry, t: Tables, u: Tables, now: int) {
    && t.checkpoints <= u.checkpoints && u == t.(checkpoints := u.checkpoints)
    && (forall i :: |t.checkpoints| <= i < |u.checkpoints| ==>
          && (u.checkpoints[i].content.checkpointDay + 1) * 86400 <= now
          && u.checkpoints[i].content.generatedAt == now)
    && (forall day {:trigger HasDay(u.checkpoints, day)} ::
          r.createdAt < (day + 1) * 86400 <= now ==> HasDay(u.checkpoints, day))
  }

  /** Two different checkpoints have one hash. */
  ghost predicate CheckpointsCollide(r: Registry) {
    exists c, d :: c != d && Digest(r.g, CheckpointMessage(c)) == Digest(r.g, CheckpointMessage(d))
  }

  lemma {:induction false} DaysAdded(r: Registry, t: Tables, day: int, target: int, now: int)
    ensures var u := FinalizeDays(r, t, day, target, now);
            u.Some? ==>
              && t.checkpoints <= u.value.checkpoints && u.value == t.(checkpoints := u.value.checkpoints)
              && |u.value.checkpoints| - |t.checkpoints| == (if day <= target then target - day + 1 else 0)
              && forall i :: |t.checkpoints| <= i < |u.value.checkpoints| ==>
                   && u.value.checkpoints[i].content.checkpointDay == day + i - |t.checkpoints|
                   && u.value.checkpoints[i].content.generatedAt == now
    decreases target - day
  {
    if day <= target && CheckpointFor(r, t, day, now).Some? {
      var c := CheckpointFor(r, t, day, now).value;
      DaysAdded(r, t.(checkpoints := t.checkpoints + [c]), day + 1, target, now);
    }
  }

  /** A finalization that fails has met two checkpoints with one hash. */
  lemma {:induction false} FailureCollides(r: Registry, t: Tables, day: int, target: int, now: int)
    requires ChainOk(r, t) && day == NextDay(r, t.checkpoints) && FinalizeDays(r, t, day, target, now).None?
    ensures CheckpointsCollide(r)
    decreases target - day
  {
    CheckpointExtends(r, t, day, now);
    var c := CheckpointFor(r, t, day, now).value;
    if NewCheckpoint(t.checkpoints, c) {
      FailureCollides(r, t.(checkpoints := t.checkpoints + [c]), day + 1, target, now);
    } else {
      var i :| 0 <= i < |t.checkpoints| && (t.checkpoints[i].content.checkpointDay == c.content.checkpointDay
                                            || t.checkpoints[i].checkpointHash == c.checkpointHash);
      assert CheckpointLinked(r, t.entries, t.checkpoints, i);
      assert t.checkpoints[i].content != c.content;
    }
  }

  lemma DayCovered(r: Registry, u: Tables, day: int, next: int)
    requires CheckpointsOk(r, u.entries, u.checkpoints) && NextDay(r, u.checkpoints) == next
    requires r.createdAt / 86400 <= day < next
    ensures HasDay(u.checkpoints, day)
  {
    var i := day - DayOf(r.createdAt);
    assert u.checkpoints[i].content.checkpointDay == day;
  }

  /**
    A finalization closes exactly the days that have ended by its clock: none that is still running, and
    none left out since the registry's creation.  It fails only over a collision.
  */
  lemma FinalizeCloses(r: Registry, t: Tables, now: int)
    requires Sound(r, t)
    ensures match Finalize(r, t, now)
            case Some(u) => Closes(r, t, u, now)
            case None => CheckpointsCollide(r)
  {
    var next := NextDay(r, t.checkpoints);
    FinalizeKeepsChain(r, t, next, DayOf(now) - 1, now);
    DaysAdded(r, t, next, DayOf(now) - 1, now);
    match Finalize(r, t, now)
    case None => FailureCollides(r, t, next, DayOf(now) - 1, now);
    case Some(u) =>
      forall day | r.createdAt < (day + 1) * 86400 <= now
        ensures HasDay(u.checkpoints, day)
      {
        DayCovered(r, u, day, NextDay(r, u.checkpoints));
      }
  }

  /** The checkpoint's row: chained to the one before it, and stating the ledger's head at the end of its day. */
  ghost predicate CheckpointReads(r: Registry, t: Tables, i: nat)
    requires i < |t.checkpoints|
  {
    var c, x := t.checkpoints[i].content, t.checkpoints[i];
    && c.scope == r.scope && c.registryKeyId == r.keyId
    && c.previousCheckpointHash == (if i == 0 then ZERO_HASH else t.checkpoints[i - 1].checkpointHash)
    && 0 <= c.entryCount <= |t.entries| && c.throughLedgerIndex == c.entryCount
    && (forall j :: 0 <= j < |t.entries| ==>
          (t.entries[j].content.acceptedAt < (c.checkpointDay + 1) * 86400 <==> j < c.entryCount))
    && c.ledgerHeadHash == (if c.entryCount == 0 then ZERO_HASH else t.entries[c.entryCount - 1].entryHash)
    && x.checkpointHash == Digest(r.g, CheckpointMessage(c))
    && x.signature == Digest(r.sign, CheckpointMessage(c))
  }

  lemma CheckpointSays(r: Registry, t: Tables, i: nat)
    requires ChainOk(r, t) && i < |t.checkpoints|
    ensures CheckpointReads(r, t, i)
  {
    var end := EndOf(t.checkpoints[i].content.checkpointDay);
    assert CheckpointLinked(r, t.entries, t.checkpoints, i);
    HeadIsPrefix(r, t.entries, end);
    ExtentIsPrefix(r, t.entries, end);
  }

  lemma OnlyClosingCheckpoints(r: Registry, t: Tables, s: Step)
    requires !s.Close?
    ensures Apply(r, t, s).checkpoints == t.checkpoints
  {
  }

  ghost predicate EndedBy(checkpoints: seq<Checkpoint>, limit: int) {
    forall i :: 0 <= i < |checkpoints| ==> (checkpoints[i].content.checkpointDay + 1) * 86400 <= limit
  }

  ghost predicate ClocksUpTo(steps: seq<Step>, limit: int) {
    forall i :: 0 <= i < |steps| && steps[i].Close? ==> steps[i].now <= limit
  }

  lemma StepEnded(r: Registry, t: Tables, s: Step, limit: int)
    requires Sound(r, t) && EndedBy(t.checkpoints, limit) && (s.Close? ==> s.now <= limit)
    ensures EndedBy(Apply(r, t, s).checkpoints, limit)
  {
    hide Sound, Finalize;
    if s.Close? {
      FinalizeCloses(r, t, s.now);
    } else {
      OnlyClosingCheckpoints(r, t, s);
    }
  }

  /** No run whose clocks are all at most `limit` holds a checkpoint of a day that ends later. */
  lemma {:induction false} NoneFromTheFuture(r: Registry, t: Tables, steps: seq<Step>, limit: int)
    requires Sound(r, t) && EndedBy(t.checkpoints, limit) && ClocksUpTo(steps, limit)
    ensures EndedBy(Run(r, t, steps).checkpoints, limit)
    decreases |steps|
  {
    hide Sound, EndedBy, Apply;
    if steps != [] {
      StepSound(r, t, steps[0]);
      StepEnded(r, t, steps[0], limit);
      assert forall i :: 0 <= i < |steps[1..]| ==> steps[1..][i] == steps[i + 1];
      NoneFromTheFuture(r, Apply(r, t, steps[0]), steps[1..], limit);
    }
  }

  // ---------------------------------------------------------------- accepting a batch

  /** Another request has used this nonce. */
  predicate NonceTaken(r: Registry, t: Tables, q: Request) {
    var n := NonceKey(q.signer, q.nonce);
    n in t.nonces && t.nonces[n].requestHash != Digest(r.g, RequestMessage(q))
  }

  /** Batch `k` is a qualified-MAU batch of the deployment and period. */
  predicate IsPrior(t: Tables, k: int, deploymentId: string, period: string) {
    && 0 <= k < |t.batches| && t.batches[k].kind == QualifiedMau
    && t.batches[k].deploymentId == deploymentId && t.batches[k].period == period
  }

  ghost predicate IsLatest(t: Tables, k: int, deploymentId: string, period: string) {
    IsPrior(t, k, deploymentId, period) && forall j :: j > k ==> !IsPrior(t, j, deploymentId, period)
  }

  /** A qualified-MAU batch is the first revision, or continues the latest one. */
  ghost predicate RevisionRight(t: Tables, i: Input) {
    i.kind == QualifiedMau ==>
      if forall k :: !IsPrior(t, k, i.request.signer, i.period) then i.revision == 1 && i.supersedesBatchId == ""
      else
        exists k :: IsLatest(t, k, i.request.signer, i.period) && i.revision == t.batches[k].revision + 1
                    && i.supersedesBatchId == t.batches[k].batchId
  }

  /** A finalized day ends after `at`. */
  ghost predicate Finalized(t: Tables, at: int) {
    exists i :: 0 <= i < |t.checkpoints| && at < (t.checkpoints[i].content.checkpointDay + 1) * 86400
  }

  ghost predicate BehindLedger(t: Tables, at: int) {
    exists i :: 0 <= i < |t.entries| && at < t.entries[i].content.acceptedAt
  }

  ghost predicate IdTaken(t: Tables, batchId: string) {
    exists i :: 0 <= i < |t.entries| && t.entries[i].content.batchId == batchId
  }

  ghost predicate HashTaken(t: Tables, hash: string) {
    exists i :: 0 <= i < |t.entries| && t.entries[i].entryHash == hash
  }

  /** The content of the ledger entry that a new batch gets. */
  function ContentFor(r: Registry, t: Tables, i: Input): EntryContent {
    EntryContent(r.scope, |t.entries| + 1, i.request.signer, i.candidateBatchId, i.kind, i.period, i.qualifiedMauCount,
                 i.request.payloadHash, if t.entries == [] then ZERO_HASH else t.entries[|t.entries| - 1].entryHash,
                 i.acceptedAt)
  }

  /** Why a submission without a row for its key is refused, if it is. */
  ghost predicate RefusedAs(r: Registry, t: Tables, i: Input, e: Error) {
    var hash := Digest(r.g, EntryMessage(ContentFor(r, t, i)));
    if NonceKey(i.request.signer, i.request.nonce) in t.nonces then e == InconsistentState
    else if i.acceptedAt < r.createdAt then e == AcceptedAtBeforeIdentity
    else if Finalized(t, i.acceptedAt) then e == AcceptedAtFinalized
    else if !RevisionRight(t, i) then e == RevisionConflict
    else if BehindLedger(t, i.acceptedAt) then e == AcceptedAtBeforeHead
    else if i.receipt.None? then e == SignerFailed
    else if IdTaken(t, i.candidateBatchId) || HashTaken(t, hash) then e == UniqueViolation
    else !D.IsDigest(hash) && e == InconsistentState
  }

  /** A new batch: its record, and one row more in each table. */
  ghost predicate Appends(r: Registry, t: Tables, i: Input, v: BatchRecord, u: Tables) {
    var q, c := i.request, v.entry.content;
    && Describes(r, t, i, v) && c == ContentFor(r, t, i)
    && u == Tables(
              t.entries + [v.entry], u.nodes, t.batches + [v.batch],
              t.weights + [WeightRow(|t.entries| + 1, q.signer, i.period, i.revision, i.qualifiedMauCount, i.acceptedAt,
                                     v.entry.entryHash)],
              t.nonces[NonceKey(q.signer, q.nonce) :=
                NonceRow(Digest(r.g, RequestMessage(q)), q.idempotencyKey, q.payloadHash, q.timestamp)],
              t.idempotency[IdempotencyKey(q.signer, q.idempotencyKey) :=
                IdempotencyRow(q.payloadHash, BatchResult, i.candidateBatchId)],
              t.checkpoints)
  }

  /** The stored record of a batch: its row, and the ledger row that it points to. */
  ghost predicate StoredAs(t: Tables, batchId: string, v: BatchRecord) {
    exists k :: 0 <= k < |t.batches| && t.batches[k].batchId == batchId && v.batch == t.batches[k]
                && 1 <= v.batch.ledgerIndex <= |t.entries| && v.entry == t.entries[v.batch.ledgerIndex - 1]
  }

  /** A repeated submission: the stored record, and no change but the row of a new nonce. */
  ghost predicate Recalls(r: Registry, t: Tables, i: Input, batchId: string, v: BatchRecord, u: Tables) {
    var q := i.request;
    var n := NonceKey(q.signer, q.nonce);
    && StoredAs(t, batchId, v)
    && u == t.(nonces := if n in t.nonces then t.nonces
                         else t.nonces[n := NonceRow(Digest(r.g, RequestMessage(q)), q.idempotencyKey, q.payloadHash,
                                                     q.timestamp)])
  }

  ghost predicate NoBatch(t: Tables, batchId: string) {
    forall k :: 0 <= k < |t.batches| ==> t.batches[k].batchId != batchId
  }

  /** The answer to a submission and the tables after it. */
  ghost predicate Answers(r: Registry, t: Tables, i: Input, result: Result<BatchRecord>, duplicate: bool, u: Tables) {
    var key := IdempotencyKey(i.request.signer, i.request.idempotencyKey);
    && (result.Err? ==> u == t && !duplicate)
    && if NonceTaken(r, t, i.request) then result == Err(ReplayConflict)
       else if key in t.idempotency then
         var row := t.idempotency[key];
         if row.payloadHash != i.request.payloadHash then result == Err(IdempotencyConflict)
         else if row.resultType != BatchResult then result == Err(InconsistentState)
         else if NoBatch(t, row.resultId) then result == Err(NotFound)
         else result.Ok? && duplicate && Recalls(r, t, i, row.resultId, result.value, u)
       else if result.Err? then RefusedAs(r, t, i, result.error)
       else !duplicate && (forall e :: !RefusedAs(r, t, i, e)) && Appends(r, t, i, result.value, u)
  }

  lemma {:induction false} FindBatchIn(batches: seq<Batch>, id: string) returns (k: nat)
    requires FindBatch(batches, id).Some?
    ensures k < |batches| && batches[k].batchId == id && FindBatch(batches, id) == Some(batches[k])
  {
    if batches[0].batchId == id {
      k := 0;
    } else {
      k := FindBatchIn(batches[1..], id);
      k := k + 1;
    }
  }

  lemma {:induction false} FindBatchNone(batches: seq<Batch>, id: string)
    requires FindBatch(batches, id).None?
    ensures forall k :: 0 <= k < |batches| ==> batches[k].batchId != id
  {
    if batches != [] {
      FindBatchNone(batches[1..], id);
      assert forall k :: 1 <= k < |batches| ==> batches[k] == batches[1..][k - 1];
    }
  }

  lemma RecordStored(r: Registry, t: Tables, id: string)
    requires BatchesOk(t) && LedgerVerifies(r, t.entries)
    ensures match RecordById(t, id) case None => NoBatch(t, id) case Some(v) => StoredAs(t, id, v) && !NoBatch(t, id)
  {
    if FindBatch(t.batches, id).None? {
      FindBatchNone(t.batches, id);
    } else {
      var k := FindBatchIn(t.batches, id);
      assert BatchMatches(t, t.batches[k]);
      IndexesContiguous(r, t.entries);
      RowAtIndex(t.entries, 1, t.batches[k].ledgerIndex - 1);
    }
  }

  /** The latest revision is the last of the batches of its deployment and period. */
  lemma {:induction false} LatestOf(batches: seq<Batch>, d: string, p: string) returns (k: int)
    ensures var rows := Revisions(batches, d, p);
            if rows == [] then
              forall j :: 0 <= j < |batches| ==>
                !(batches[j].kind == QualifiedMau && batches[j].deploymentId == d && batches[j].period == p)
            else
              && 0 <= k < |batches| && rows[|rows| - 1] == batches[k]
              && batches[k].kind == QualifiedMau && batches[k].deploymentId == d && batches[k].period == p
              && forall j :: k < j < |batches| ==>
                   !(batches[j].kind == QualifiedMau && batches[j].deploymentId == d && batches[j].period == p)
  {
    k := -1;
    if batches != [] {
      var n := |batches| - 1;
      k := LatestOf(batches[..n], d, p);
      if batches[n].kind == QualifiedMau && batches[n].deploymentId == d && batches[n].period == p {
        k := n;
      }
    }
  }

  lemma RevisionGuardMeans(t: Tables, i: Input)
    requires RevisionsOk(t.batches)
    ensures RevisionGuard(t, i) == if RevisionRight(t, i) then None else Some(RevisionConflict)
  {
    if i.kind == QualifiedMau {
      var d, p := i.request.signer, i.period;
      var k := LatestOf(t.batches, d, p);
      var rows := Revisions(t.batches, d, p);
      if rows != [] {
        assert Linear(rows);
        NewestIsLast(rows);
        assert IsPrior(t, k, d, p) && IsLatest(t, k, d, p);
        forall j | IsLatest(t, j, d, p)
          ensures j == k
        {
        }
      }
    }
  }

  lemma TimeGuardsMean(r: Registry, t: Tables, at: int)
    requires CheckpointsOk(r, t.entries, t.checkpoints)
    ensures TimeGuards(r, t, at)
            == if at < r.createdAt then Some(AcceptedAtBeforeIdentity)
               else if Finalized(t, at) then Some(AcceptedAtFinalized) else None
  {
    var n := |t.checkpoints|;
    assert forall i :: 0 <= i < n ==>
             t.checkpoints[i].content.checkpointDay <= t.checkpoints[n - 1].content.checkpointDay;
  }

  lemma {:induction false} TimesOrdered(r: Registry, entries: seq<Entry>, i: nat, j: nat)
    requires LedgerVerifies(r, entries) && i <= j < |entries|
    ensures entries[i].content.acceptedAt <= entries[j].content.acceptedAt
    decreases j
  {
    if i < j {
      TimesOrdered(r, entries, i, j - 1);
      assert Linked(r, entries, j);
    }
  }

  lemma HeadGuardMeans(r: Registry, t: Tables, at: int)
    requires LedgerVerifies(r, t.entries)
    ensures HeadGuard(t, at) == if BehindLedger(t, at) then Some(AcceptedAtBeforeHead) else None
  {
    var n := |t.entries|;
    forall i | 0 <= i < n
      ensures t.entries[i].content.acceptedAt <= t.entries[n - 1].content.acceptedAt
    {
      TimesOrdered(r, t.entries, i, n - 1);
    }
  }

  lemma EntryForIs(r: Registry, t: Tables, i: Input)
    requires LedgerVerifies(r, t.entries)
    ensures EntryFor(r, t, i) == Entry(ContentFor(r, t, i), Digest(r.g, EntryMessage(ContentFor(r, t, i))))
    ensures !Unique(t, EntryFor(r, t, i))
            <==> IdTaken(t, i.candidateBatchId) || HashTaken(t, Digest(r.g, EntryMessage(ContentFor(r, t, i))))
  {
    NextIndex(r, t.entries);
  }

  /** A submission for a key that has no row. */
  lemma FreshAnswers(r: Registry, t: Tables, i: Input)
    requires Sound(r, t) && KeyOf(i.request) !in t.idempotency && !NonceTaken(r, t, i.request)
    ensures match Accept(r, t, i)
            case Err(e) => RefusedAs(r, t, i, e)
            case Ok(a) => !a.duplicate && (forall e :: !RefusedAs(r, t, i, e)) && Appends(r, t, i, a.record, a.tables)
  {
    hide BatchesOk, IndexOk, NoncesOk, RevisionRight, RevisionGuard, NodesWith, M.Indexed;
    TimeGuardsMean(r, t, i.acceptedAt);
    RevisionGuardMeans(t, i);
    HeadGuardMeans(r, t, i.acceptedAt);
    EntryForIs(r, t, i);
    NextIndex(r, t.entries);
    AppendKeepsIndex(r, t, EntryFor(r, t, i));
  }

  /** What `AcceptInstallationBatch` answers to any submission, in every sound state. */
  lemma AcceptAnswers(r: Registry, t: Tables, i: Input)
    requires Sound(r, t)
    ensures match Accept(r, t, i)
            case Ok(a) => Answers(r, t, i, Ok(a.record), a.duplicate, a.tables)
            case Err(e) => Answers(r, t, i, Err(e), false, t)
  {
    hide Sound, RefusedAs, Appends, Appending, Guards, StoredAs, NoBatch;
    if NonceTaken(r, t, i.request) {
    } else if KeyOf(i.request) in t.idempotency {
      StoredAlways(r, t, t.idempotency[KeyOf(i.request)].resultId);
    } else {
      FreshAnswers(r, t, i);
    }
  }

  lemma StoredAlways(r: Registry, t: Tables, id: string)
    requires Sound(r, t)
    ensures match RecordById(t, id) case None => NoBatch(t, id) case Some(v) => StoredAs(t, id, v) && !NoBatch(t, id)
  {
    RecordStored(r, t, id);
  }

  /**
    A key stands for one payload: after its first acceptance and any further run, another payload under it is
    refused and changes nothing.  The error is a conflict of payloads, or of nonces if another request has
    used the nonce.
  */
  lemma OtherPayloadRefused(r: Registry, t: Tables, i: Input, a: Acceptance, more: seq<Step>, other: Input)
    requires Sound(r, t) && Accept(r, t, i) == Ok(a) && !a.duplicate
    requires other.request.signer == i.request.signer && other.request.idempotencyKey == i.request.idempotencyKey
    requires other.request.payloadHash != i.request.payloadHash
    ensures var u := Run(r, a.tables, more);
            && Accept(r, u, other)
               == Err(if NonceTaken(r, u, other.request) then ReplayConflict else IdempotencyConflict)
            && Apply(r, u, Submit(other)) == u
  {
    hide Accept, Sound;
    FreshAcceptance(r, t, i);
    AcceptSound(r, t, i);
    RunSound(r, a.tables, more);
    AcceptAnswers(r, Run(r, a.tables, more), other);
  }

  // ---------------------------------------------------------------- the other writers

  function OtherContent(r: Registry, t: Tables, x: Appended): EntryContent {
    EntryContent(r.scope, |t.entries| + 1, x.deploymentId, x.batchId, x.kind, x.period, 0, x.batchHash,
                 if t.entries == [] then ZERO_HASH else t.entries[|t.entries| - 1].entryHash, x.acceptedAt)
  }

  ghost predicate OtherRefusedAs(r: Registry, t: Tables, x: Appended, e: Error) {
    var hash := Digest(r.g, EntryMessage(OtherContent(r, t, x)));
    if x.acceptedAt < r.createdAt then e == AcceptedAtBeforeIdentity
    else if Finalized(t, x.acceptedAt) then e == AcceptedAtFinalized
    else if BehindLedger(t, x.acceptedAt) then e == AcceptedAtBeforeHead
    else if IdTaken(t, x.batchId) || HashTaken(t, hash) then e == UniqueViolation
    else !D.IsDigest(hash) && e == InconsistentState
  }

  /** Revenue batches and settlements append behind the same guards on the time, and nothing but their entry. */
  lemma OtherAnswers(r: Registry, t: Tables, x: Appended)
    requires Sound(r, t)
    ensures match AppendOther(r, t, x)
            case Err(e) => OtherRefusedAs(r, t, x, e)
            case Ok(u) =>
              var c := OtherContent(r, t, x);
              && (forall e :: !OtherRefusedAs(r, t, x, e))
              && u == t.(entries := t.entries + [Entry(c, Digest(r.g, EntryMessage(c)))], nodes := u.nodes)
  {
    hide BatchesOk, IndexOk, NoncesOk, NodesWith, M.Indexed;
    TimeGuardsMean(r, t, x.acceptedAt);
    HeadGuardMeans(r, t, x.acceptedAt);
    NextIndex(r, t.entries);
    AppendKeepsIndex(r, t, NextEntry(r, t, x.deploymentId, x.batchId, x.kind, x.period, 0, x.batchHash, x.acceptedAt));
  }

  /** The answer to a registration or a revenue batch, which share the keys and the nonces. */
  ghost predicate SideAnswer(r: Registry, t: Tables, x: Side, result: Result<Tables>) {
    var q := x.request;
    var n, key := NonceKey(q.signer, q.nonce), IdempotencyKey(q.signer, q.idempotencyKey);
    var nonces := t.nonces[n := NonceRow(Digest(r.g, RequestMessage(q)), q.idempotencyKey, q.payloadHash, q.timestamp)];
    if NonceTaken(r, t, q) then result == Err(ReplayConflict)
    else if key in t.idempotency then
      if t.idempotency[key].payloadHash != q.payloadHash then result == Err(IdempotencyConflict)
      else result == Ok(t.(nonces := if n in t.nonces then t.nonces else nonces))
    else if n in t.nonces || !x.admitted then result == Err(InconsistentState)
    else if x.appended.Some? && (exists e :: OtherRefusedAs(r, t, x.appended.value, e)) then
      result.Err? && OtherRefusedAs(r, t, x.appended.value, result.error)
    else
      result.Ok? && SideAdds(r, t, x, result.value)
      && result.value.nonces == nonces
      && result.value.idempotency == t.idempotency[key := IdempotencyRow(q.payloadHash, x.resultType, x.resultId)]
  }

  /** The ledger gets the entry of a revenue batch, and nothing from a registration. */
  ghost predicate SideAdds(r: Registry, t: Tables, x: Side, u: Tables) {
    && u.batches == t.batches && u.weights == t.weights && u.checkpoints == t.checkpoints
    && match x.appended
       case None => u.entries == t.entries && u.nodes == t.nodes
       case Some(a) =>
         var c := OtherContent(r, t, a);
         u.entries == t.entries + [Entry(c, Digest(r.g, EntryMessage(c)))]
  }

  lemma SideAnswers(r: Registry, t: Tables, x: Side)
    requires Sound(r, t)
    ensures SideAnswer(r, t, x, SideWrite(r, t, x))
  {
    hide Sound, AppendOther, OtherRefusedAs;
    if x.appended.Some? {
      OtherAnswers(r, t, x.appended.value);
    }
  }

  // ---------------------------------------------------------------- the verifiers and the writers

  /** Entry `i` is what the writers append for its batch to the entries before it. */
  ghost predicate WrittenNext(r: Registry, t: Tables, i: nat)
    requires i < |t.entries|
  {
    var before, c := t.(entries := t.entries[..i]), t.entries[i].content;
    && t.entries[i] == NextEntry(r, before, c.deploymentId, c.batchId, c.kind, c.period, c.qualifiedMauCount,
                                 c.batchHash, c.acceptedAt)
    && HeadGuard(before, c.acceptedAt).None?
  }

  /** The ledger verifier accepts exactly the chains that the writers append entry by entry. */
  lemma VerifiesIffWritten(r: Registry, t: Tables)
    ensures LedgerVerifies(r, t.entries) <==> AllWritten(r, t)
  {
    if LedgerVerifies(r, t.entries) {
      IndexesContiguous(r, t.entries);
      forall i | 0 <= i < |t.entries|
        ensures WrittenNext(r, t, i)
      {
        assert Linked(r, t.entries, i);
      }
    }
    if AllWritten(r, t) {
      WrittenLinked(r, t, |t.entries|);
    }
  }

  ghost predicate AllWritten(r: Registry, t: Tables) {
    forall i :: 0 <= i < |t.entries| ==> WrittenNext(r, t, i)
  }

  lemma {:induction false} WrittenLinked(r: Registry, t: Tables, n: nat)
    requires n <= |t.entries| && forall i :: 0 <= i < n ==> WrittenNext(r, t, i)
    ensures forall i :: 0 <= i < n ==> Linked(r, t.entries, i)
  {
    if n > 0 {
      WrittenLinked(r, t, n - 1);
      assert WrittenNext(r, t, n - 1);
      if n > 1 {
        assert Linked(r, t.entries, n - 2);
        assert t.entries[..n - 1][|t.entries[..n - 1]| - 1] == t.entries[n - 2];
      }
    }
  }

  /** Checkpoint `i` is what a finalization at its time writes for its day behind the checkpoints before it. */
  ghost predicate SealedNext(r: Registry, t: Tables, i: nat)
    requires i < |t.checkpoints|
  {
    var before, c := t.(checkpoints := t.checkpoints[..i]), t.checkpoints[i];
    && CheckpointFor(r, before, c.content.checkpointDay, c.content.generatedAt) == Some(c)
    && (i > 0 ==> c.content.checkpointDay == NextDay(r, before.checkpoints))
  }

  /** The checkpoint verifier accepts exactly the chains that finalizations write over the ledger. */
  lemma CheckpointsIffSealed(r: Registry, t: Tables)
    ensures CheckpointsVerify(r, t.entries, t.checkpoints)
            <==> forall i :: 0 <= i < |t.checkpoints| ==> SealedNext(r, t, i)
  {
    forall i | 0 <= i < |t.checkpoints|
      ensures CheckpointLinked(r, t.entries, t.checkpoints, i) <==> SealedNext(r, t, i)
    {
      if i > 0 {
        assert t.checkpoints[..i][|t.checkpoints[..i]| - 1] == t.checkpoints[i - 1];
      }
    }
  }
}
