/**
  The store that holds the ledger tables: acceptance, daily finalization and the two verifiers, in the
  form in which they work on the tables.
*/
module LedgerStore {
  import opened Basics
  import opened Protocol
  import opened Ledger
  import opened LedgerSafety
  import LA = LedgerAnswers
  import D = DigestText
  import M = MerkleIndex
  import T = MerkleTree

  class Store {
    const r: Registry
    var entries: seq<Entry>
    var nodes: M.Nodes
    var batches: seq<Batch>
    var weights: seq<WeightRow>
    var nonces: map<NonceKey, NonceRow>
    var idempotency: map<IdempotencyKey, IdempotencyRow>
    var checkpoints: seq<Checkpoint>

    function Contents(): Tables
      reads this
    {
      Tables(entries, nodes, batches, weights, nonces, idempotency, checkpoints)
    }

    ghost predicate Valid()
      reads this
    {
      Sound(r, Contents())
    }

    constructor (r: Registry)
      ensures Valid() && Contents() == Empty && this.r == r
    {
      this.r := r;
      entries, nodes, batches, weights, nonces, idempotency, checkpoints := [], map[], [], [], map[], map[], [];
      new;
      EmptySound(r);
    }

    method AcceptInstallationBatch(i: Input) returns (result: Result<BatchRecord>, duplicate: bool)
      requires Valid()
      modifies this
      ensures Valid() && Extends(old(Contents()), Contents())
      ensures LA.Answers(r, old(Contents()), i, result, duplicate, Contents())
      ensures match Accept(r, old(Contents()), i)
              case Ok(a) => result == Ok(a.record) && duplicate == a.duplicate && Contents() == a.tables
              case Err(e) => result == Err(e) && Contents() == old(Contents())
    {
      LA.AcceptAnswers(r, Contents(), i);
      if Accept(r, Contents(), i).Ok? {
        AcceptSound(r, Contents(), i);
      }
      result, duplicate := AcceptBatch(i);
    }

    method AcceptBatch(i: Input) returns (result: Result<BatchRecord>, duplicate: bool)
      modifies this
      ensures match Accept(r, old(Contents()), i)
              case Ok(a) => result == Ok(a.record) && duplicate == a.duplicate && Contents() == a.tables
              case Err(e) => result == Err(e) && !duplicate && Contents() == old(Contents())
    {
      duplicate := false;
      var used := NonceState(r, Contents(), i.request);
      if used.Err? {
        return Err(used.error), false;
      }
      if KeyOf(i.request) in idempotency {
        result := ReplayBatch(i, used.value);
        return result, result.Ok?;
      }
      if used.value {
        return Err(InconsistentState), false;
      }
      var refused := CheckGuards(i);
      if refused.Some? {
        return Err(refused.value), false;
      }
      result := AppendBatch(i);
    }

    /** A key that was used before. */
    method ReplayBatch(i: Input, nonceUsed: bool) returns (result: Result<BatchRecord>)
      requires KeyOf(i.request) in idempotency
      modifies this
      ensures match Replay(r, old(Contents()), i, nonceUsed)
              case Ok(a) => result == Ok(a.record) && a.duplicate && Contents() == a.tables
              case Err(e) => result == Err(e) && Contents() == old(Contents())
    {
      var row := idempotency[KeyOf(i.request)];
      if row.payloadHash != i.request.payloadHash {
        return Err(IdempotencyConflict);
      }
      if row.resultType != BatchResult {
        return Err(InconsistentState);
      }
      var record := RecordById(Contents(), row.resultId);
      if record.None? {
        return Err(NotFound);
      }
      if !nonceUsed {
        nonces := nonces[NonceOf(i.request) := NonceRowOf(r, i.request)];
      }
      return Ok(record.value);
    }

    method CheckGuards(i: Input) returns (refused: Option<Error>)
      ensures refused == Guards(r, Contents(), i)
    {
      var time := TimeGuards(r, Contents(), i.acceptedAt);
      if time.Some? {
        return time;
      }
      var revision := RevisionGuard(Contents(), i);
      if revision.Some? {
        return revision;
      }
      refused := HeadGuard(Contents(), i.acceptedAt);
    }

    /** Sign and write a new batch: its ledger entry with the Merkle nodes that it completes, and its rows. */
    method AppendBatch(i: Input) returns (result: Result<BatchRecord>)
      modifies this
      ensures match Appending(r, old(Contents()), i)
              case Ok(a) => result == Ok(a.record) && !a.duplicate && Contents() == a.tables
              case Err(e) => result == Err(e) && Contents() == old(Contents())
    {
      var entry := EntryFor(r, Contents(), i);
      if i.receipt.None? {
        return Err(SignerFailed);
      }
      if !Unique(Contents(), entry) {
        return Err(UniqueViolation);
      }
      var completed := AppendMerkleEntry(entry);
      if completed.None? {
        return Err(InconsistentState);
      }
      var batch := BatchFor(i, entry, i.receipt.value);
      entries := entries + [entry];
      nodes := completed.value;
      weights := weights + [WeightFor(i, entry)];
      batches := batches + [batch];
      nonces := nonces[NonceOf(i.request) := NonceRowOf(r, i.request)];
      idempotency := idempotency[KeyOf(i.request) :=
                       IdempotencyRow(i.request.payloadHash, BatchResult, i.candidateBatchId)];
      return Ok(BatchRecord(batch, entry));
    }

    /** The stored nodes with those that the new entry completes. */
    method AppendMerkleEntry(entry: Entry) returns (completed: Option<M.Nodes>)
      ensures completed == NodesWith(r, Contents(), entry)
    {
      if entry.content.ledgerIndex < 1 {
        return None;
      }
      var decoded := D.Parse(entry.entryHash);
      if decoded.None? {
        return None;
      }
      completed := M.Complete(r.merkle, Leaves(entries + [entry]), nodes, entry.content.ledgerIndex - 1,
                              T.LeafHash(r.merkle, decoded.value));
    }

    /** Checkpoint every completed day; a failure rolls all of them back. */
    method FinalizeCompletedCheckpoints(now: int) returns (ok: bool)
      requires Valid()
      modifies this
      ensures Valid() && Extends(old(Contents()), Contents())
      ensures if ok then LA.Closes(r, old(Contents()), Contents(), now) else LA.CheckpointsCollide(r)
      ensures match Finalize(r, old(Contents()), now)
              case Some(u) => ok && Contents() == u
              case None => !ok && Contents() == old(Contents())
    {
      LA.FinalizeCloses(r, Contents(), now);
      CloseSound(r, Contents(), now);
      ok := CheckpointDays(NextDay(r, checkpoints), DayOf(now) - 1, now);
    }

    /** One checkpoint for each day in turn, and none if one of them fails. */
    method CheckpointDays(next: int, target: int, now: int) returns (ok: bool)
      modifies this
      ensures match FinalizeDays(r, old(Contents()), next, target, now)
              case Some(u) => ok && Contents() == u
              case None => !ok && Contents() == old(Contents())
    {
      ghost var before := Contents();
      var rollback := checkpoints;
      var day, previousHash := next, LastCheckpointHash(checkpoints);
      while day <= target
        invariant Contents() == before.(checkpoints := checkpoints)
        invariant previousHash == LastCheckpointHash(checkpoints)
        invariant FinalizeDays(r, Contents(), day, target, now) == FinalizeDays(r, before, next, target, now)
      {
        var head := HeadBefore(entries, EndOf(day));
        if head.None? {
          checkpoints := rollback;
          return false;
        }
        var checkpoint := Sealed(r, CheckpointContent(r.scope, day, head.value.ledgerIndex, head.value.entryCount,
                                                      head.value.entryHash, previousHash, now, r.keyId));
        if !NewCheckpoint(checkpoints, checkpoint) {
          checkpoints := rollback;
          return false;
        }
        checkpoints := checkpoints + [checkpoint];
        previousHash := checkpoint.checkpointHash;
        day := day + 1;
      }
      return true;
    }

    method VerifyLedger() returns (ok: bool)
      ensures ok <==> LedgerVerifies(r, entries)
    {
      var i, previousHash := 0, ZERO_HASH;
      while i < |entries|
        invariant 0 <= i <= |entries| && previousHash == HeadHash(entries[..i])
        invariant forall k :: 0 <= k < i ==> Linked(r, entries, k)
      {
        var e := entries[i];
        if e.content.ledgerIndex != i + 1 || e.content.scope != r.scope || e.content.previousEntryHash != previousHash
           || (i > 0 && e.content.acceptedAt < entries[i - 1].content.acceptedAt)
           || e.entryHash != Digest(r.g, EntryMessage(e.content)) {
          assert !Linked(r, entries, i);
          return false;
        }
        assert entries[..i + 1] == entries[..i] + [e];
        previousHash := e.entryHash;
        i := i + 1;
      }
      return true;
    }

    method VerifyCheckpoints() returns (ok: bool)
      ensures ok <==> CheckpointsVerify(r, entries, checkpoints)
      ensures Valid() ==> ok
    {
      var i, previousHash := 0, ZERO_HASH;
      while i < |checkpoints|
        invariant 0 <= i <= |checkpoints| && previousHash == LastCheckpointHash(checkpoints[..i])
        invariant forall k :: 0 <= k < i ==> CheckpointLinked(r, entries, checkpoints, k)
      {
        var c := checkpoints[i];
        var head := HeadBefore(entries, EndOf(c.content.checkpointDay));
        if (i > 0 && c.content.checkpointDay != checkpoints[i - 1].content.checkpointDay + 1)
           || c.content.registryKeyId != r.keyId || c.content.scope != r.scope
           || c.content.previousCheckpointHash != previousHash
           || c.checkpointHash != Digest(r.g, CheckpointMessage(c.content))
           || c.signature != Digest(r.sign, CheckpointMessage(c.content))
           || head.None?
           || c.content.throughLedgerIndex != head.value.ledgerIndex
           || c.content.entryCount != head.value.entryCount
           || c.content.ledgerHeadHash != head.value.entryHash {
          assert !CheckpointLinked(r, entries, checkpoints, i);
          return false;
        }
        assert checkpoints[..i + 1] == checkpoints[..i] + [c];
        previousHash := c.checkpointHash;
        i := i + 1;
      }
      return true;
    }
  }
}
