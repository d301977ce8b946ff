/**
  What every run of the ledger keeps: the chain and its Merkle index, the checkpoints that were finalized,
  the idempotency rows and the linear revisions of qualified-MAU batches.
*/
module LedgerSafety {
  import opened Basics
  import opened Protocol
  import opened Ledger
  import D = DigestText
  import M = MerkleIndex

  datatype Step =
    | Submit(input: Input)
    | SideStep(side: Side)
    | Settle(appended: Appended)
    | Close(now: int)

  /** One committed transaction; a failed one leaves the tables as they were. */
  function Apply(r: Registry, t: Tables, s: Step): Tables {
    match s
    case Submit(i) => (match Accept(r, t, i) case Ok(a) => a.tables case Err(_) => t)
    case SideStep(x) => (match SideWrite(r, t, x) case Ok(u) => u case Err(_) => t)
    case Settle(x) => (match AppendOther(r, t, x) case Ok(u) => u case Err(_) => t)
    case Close(now) => (match Finalize(r, t, now) case Some(u) => u case None => t)
  }

  function Run(r: Registry, t: Tables, steps: seq<Step>): Tables
    decreases |steps|
  {
    if steps == [] then t else Run(r, Apply(r, t, steps[0]), steps[1..])
  }

  // ---------------------------------------------------------------- the ledger and its checkpoints

  /** The chain verifies, starts no earlier than the registry, and no batch ID repeats. */
  ghost predicate LedgerOk(r: Registry, entries: seq<Entry>) {
    && LedgerVerifies(r, entries)
    && (forall i :: 0 <= i < |entries| ==> r.createdAt <= entries[i].content.acceptedAt)
    && (forall i, j :: 0 <= i < j < |entries| ==> entries[i].content.batchId != entries[j].content.batchId)
  }

  /** The checkpoints verify, and cover every day from the registry's first one. */
  ghost predicate CheckpointsOk(r: Registry, entries: seq<Entry>, checkpoints: seq<Checkpoint>) {
    && CheckpointsVerify(r, entries, checkpoints)
    && (forall i :: 0 <= i < |checkpoints| ==> checkpoints[i].content.checkpointDay == DayOf(r.createdAt) + i)
  }

  lemma PrefixVerifies(r: Registry, entries: seq<Entry>, n: nat)
    requires LedgerVerifies(r, entries) && n <= |entries|
    ensures LedgerVerifies(r, entries[..n])
  {
    forall i | 0 <= i < n
      ensures Linked(r, entries[..n], i)
    {
      assert Linked(r, entries, i);
      assert entries[..n][..i] == entries[..i];
    }
  }

  /** The entries before `end` are a prefix, and both its length and its largest index count it. */
  lemma {:induction false} ExtentIsPrefix(r: Registry, entries: seq<Entry>, end: int)
    requires LedgerVerifies(r, entries)
    ensures var k := CountBefore(entries, end);
            && MaxIndexBefore(entries, end) == k <= |entries|
            && (forall i :: 0 <= i < k ==> entries[i].content.acceptedAt < end)
            && (forall i :: k <= i < |entries| ==> entries[i].content.acceptedAt >= end)
  {
    if entries != [] {
      var n := |entries| - 1;
      PrefixVerifies(r, entries, n);
      ExtentIsPrefix(r, entries[..n], end);
      assert Linked(r, entries, n);
      if n > 0 && entries[n].content.acceptedAt < end {
        assert entries[..n][n - 1] == entries[n - 1];
      }
    }
  }

  lemma {:induction false} RowAtIndex(entries: seq<Entry>, first: int, k: nat)
    requires k < |entries|
    requires forall i :: 0 <= i < |entries| ==> entries[i].content.ledgerIndex == first + i
    ensures RowAt(entries, first + k) == Some(entries[k])
  {
    if k > 0 {
      RowAtIndex(entries[1..], first + 1, k - 1);
    }
  }

  lemma IndexesContiguous(r: Registry, entries: seq<Entry>)
    requires LedgerVerifies(r, entries)
    ensures forall i :: 0 <= i < |entries| ==> entries[i].content.ledgerIndex == 1 + i
  {
    forall i | 0 <= i < |entries|
      ensures entries[i].content.ledgerIndex == 1 + i
    {
      assert Linked(r, entries, i);
    }
  }

  /** The head before `end` is the end of a prefix of the chain. */
  lemma HeadIsPrefix(r: Registry, entries: seq<Entry>, end: int)
    requires LedgerVerifies(r, entries)
    ensures var k := CountBefore(entries, end);
            k <= |entries| && HeadBefore(entries, end) == Some(Head(k, k, HeadHash(entries[..k])))
  {
    ExtentIsPrefix(r, entries, end);
    var k := CountBefore(entries, end);
    if k > 0 {
      IndexesContiguous(r, entries);
      RowAtIndex(entries, 1, k - 1);
    }
  }

  lemma AppendLinked(r: Registry, entries: seq<Entry>, e: Entry)
    requires LedgerVerifies(r, entries)
    requires Linked(r, entries + [e], |entries|)
    ensures LedgerVerifies(r, entries + [e])
  {
    forall i | 0 <= i < |entries| + 1
      ensures Linked(r, entries + [e], i)
    {
      if i < |entries| {
        assert Linked(r, entries, i);
        assert (entries + [e])[..i] == entries[..i];
      }
    }
  }

  /** An entry accepted at or after `end` does not move the head before `end`. */
  lemma HeadStays(r: Registry, entries: seq<Entry>, e: Entry, end: int)
    requires LedgerVerifies(r, entries) && LedgerVerifies(r, entries + [e]) && e.content.acceptedAt >= end
    ensures HeadBefore(entries + [e], end) == HeadBefore(entries, end)
  {
    HeadIsPrefix(r, entries, end);
    HeadIsPrefix(r, entries + [e], end);
    assert (entries + [e])[..|entries|] == entries;
    var k := CountBefore(entries, end);
    assert (entries + [e])[..k] == entries[..k];
  }

  /** The guards let an entry in only behind every finalized day. */
  lemma CheckpointsStay(r: Registry, t: Tables, e: Entry)
    requires LedgerVerifies(r, t.entries) && LedgerVerifies(r, t.entries + [e])
    requires CheckpointsOk(r, t.entries, t.checkpoints)
    requires TimeGuards(r, t, e.content.acceptedAt).None?
    ensures CheckpointsOk(r, t.entries + [e], t.checkpoints)
  {
    forall i | 0 <= i < |t.checkpoints|
      ensures CheckpointLinked(r, t.entries + [e], t.checkpoints, i)
    {
      assert CheckpointLinked(r, t.entries, t.checkpoints, i);
      HeadStays(r, t.entries, e, EndOf(t.checkpoints[i].content.checkpointDay));
    }
  }

  /** The ledger and its checkpoints, with the tables that only follow them. */
  ghost predicate ChainOk(r: Registry, t: Tables) {
    LedgerOk(r, t.entries) && CheckpointsOk(r, t.entries, t.checkpoints)
  }

  lemma NextEntryLinked(r: Registry, t: Tables, e: Entry)
    requires LedgerOk(r, t.entries)
    requires e == NextEntry(r, t, e.content.deploymentId, e.content.batchId, e.content.kind, e.content.period,
                            e.content.qualifiedMauCount, e.content.batchHash, e.content.acceptedAt)
    requires TimeGuards(r, t, e.content.acceptedAt).None? && HeadGuard(t, e.content.acceptedAt).None? && Unique(t, e)
    ensures LedgerOk(r, t.entries + [e])
  {
    var n := |t.entries|;
    assert (t.entries + [e])[..n] == t.entries;
    if n > 0 {
      assert Linked(r, t.entries, n - 1);
    }
    AppendLinked(r, t.entries, e);
  }

  /** Every guarded append keeps the chain and all finalized checkpoints. */
  lemma AppendKeepsChain(r: Registry, t: Tables, e: Entry)
    requires ChainOk(r, t)
    requires e == NextEntry(r, t, e.content.deploymentId, e.content.batchId, e.content.kind, e.content.period,
                            e.content.qualifiedMauCount, e.content.batchHash, e.content.acceptedAt)
    requires TimeGuards(r, t, e.content.acceptedAt).None? && HeadGuard(t, e.content.acceptedAt).None? && Unique(t, e)
    ensures ChainOk(r, t.(entries := t.entries + [e]))
  {
    NextEntryLinked(r, t, e);
    CheckpointsStay(r, t, e);
  }

  lemma CheckpointExtends(r: Registry, t: Tables, day: int, now: int)
    requires ChainOk(r, t) && day == NextDay(r, t.checkpoints)
    ensures var c := CheckpointFor(r, t, day, now);
            c.Some? && ChainOk(r, t.(checkpoints := t.checkpoints + [c.value]))
            && NextDay(r, t.checkpoints + [c.value]) == day + 1
  {
    HeadIsPrefix(r, t.entries, EndOf(day));
    var c, n := CheckpointFor(r, t, day, now).value, |t.checkpoints|;
    assert (t.checkpoints + [c])[..n] == t.checkpoints;
    forall i | 0 <= i < n + 1
      ensures CheckpointLinked(r, t.entries, t.checkpoints + [c], i)
    {
      if i < n {
        assert CheckpointLinked(r, t.entries, t.checkpoints, i);
        assert (t.checkpoints + [c])[..i] == t.checkpoints[..i];
      }
    }
  }

  /** Finalization covers every completed day, and each new checkpoint continues the chain. */
  lemma {:induction false} FinalizeKeepsChain(r: Registry, t: Tables, day: int, target: int, now: int)
    requires ChainOk(r, t) && day == NextDay(r, t.checkpoints)
    ensures var u := FinalizeDays(r, t, day, target, now);
            u.Some? ==> ChainOk(r, u.value)
                        && NextDay(r, u.value.checkpoints) == if day <= target then target + 1 else day
    decreases target - day
  {
    if day <= target {
      CheckpointExtends(r, t, day, now);
      var c := CheckpointFor(r, t, day, now).value;
      FinalizeKeepsChain(r, t.(checkpoints := t.checkpoints + [c]), day + 1, target, now);
    }
  }

  // ---------------------------------------------------------------- the Merkle index

  /** Every entry hash is a digest, and the stored nodes are exactly the completed subtrees over them. */
  ghost predicate IndexOk(r: Registry, entries: seq<Entry>, nodes: M.Nodes) {
    && (forall i :: 0 <= i < |entries| ==> D.Parse(entries[i].entryHash).Some?)
    && M.Indexed(r.merkle, Leaves(entries), nodes)
  }

  lemma EmptyIndex(r: Registry)
    ensures IndexOk(r, [], map[])
  {
    M.EmptyIndexed(r.merkle);
    assert Leaves([]) == [];
  }

  /** The next entry's nodes are missing only if its hash is no digest, and they keep the index exact. */
  lemma AppendKeepsIndex(r: Registry, t: Tables, e: Entry)
    requires IndexOk(r, t.entries, t.nodes) && e.content.ledgerIndex == |t.entries| + 1
    ensures NodesWith(r, t, e).Some? <==> D.Parse(e.entryHash).Some?
    ensures NodesWith(r, t, e).Some? ==>
              IndexOk(r, t.entries + [e], NodesWith(r, t, e).value) && NodesStay(t.nodes, NodesWith(r, t, e).value)
  {
    assert Leaves(t.entries + [e]) == Leaves(t.entries) + [LeafOf(e)];
    M.AppendIndexes(r.merkle, Leaves(t.entries), LeafOf(e), t.nodes);
  }

  ghost predicate NodesStay(a: M.Nodes, b: M.Nodes) {
    forall k :: k in a ==> k in b && b[k] == a[k]
  }

  lemma NextIndex(r: Registry, entries: seq<Entry>)
    requires LedgerVerifies(r, entries)
    ensures HeadIndex(entries) == |entries|
  {
    if entries != [] {
      assert Linked(r, entries, |entries| - 1);
    }
  }

  // ---------------------------------------------------------------- batches and their revisions

  /** The batch describes the ledger row it points to. */
  ghost predicate BatchMatches(t: Tables, b: Batch) {
    && 1 <= b.ledgerIndex <= |t.entries|
    && var e := t.entries[b.ledgerIndex - 1];
       Joined(b, e) == e && e.content.batchHash == b.payloadHash
  }

  /** Each batch has its ledger row and its weight row, and no two share an ID. */
  ghost predicate BatchesOk(t: Tables) {
    && (forall i :: 0 <= i < |t.batches| ==> BatchMatches(t, t.batches[i]))
    && (forall i, j :: 0 <= i < j < |t.batches| ==> t.batches[i].batchId != t.batches[j].batchId)
    && |t.weights| == |t.batches|
    && (forall i :: 0 <= i < |t.batches| ==>
          && t.weights[i].ledgerIndex == t.batches[i].ledgerIndex
          && t.weights[i].revision == t.batches[i].revision
          && t.weights[i].qualifiedMauCount == t.batches[i].qualifiedMauCount)
  }

  /** Revisions 1, 2, 3, ..., each superseding the one before it. */
  ghost predicate Linear(rows: seq<Batch>) {
    forall i :: 0 <= i < |rows| ==> Follows(rows, i)
  }

  ghost predicate Follows(rows: seq<Batch>, i: nat)
    requires i < |rows|
  {
    rows[i].revision == i + 1 && rows[i].supersedesBatchId == if i == 0 then "" else rows[i - 1].batchId
  }

  ghost predicate RevisionsOk(batches: seq<Batch>) {
    forall d, p :: Linear(Revisions(batches, d, p))
  }

  lemma {:induction false} NewestIsLast(rows: seq<Batch>)
    requires rows != [] && Linear(rows)
    ensures Newest(rows) == rows[|rows| - 1]
  {
    if |rows| > 1 {
      var init := rows[..|rows| - 1];
      assert forall i :: 0 <= i < |init| ==> Follows(rows, i) ==> Follows(init, i);
      NewestIsLast(init);
      assert Follows(rows, |rows| - 1) && Follows(rows, |rows| - 2);
    }
  }

  lemma RevisionsAppend(batches: seq<Batch>, b: Batch, d: string, p: string)
    ensures Revisions(batches + [b], d, p)
            == Revisions(batches, d, p)
               + if b.kind == QualifiedMau && b.deploymentId == d && b.period == p then [b] else []
  {
    assert (batches + [b])[..|batches|] == batches;
  }

  lemma LinearAppend(rows: seq<Batch>, b: Batch)
    requires Linear(rows)
    requires rows == [] ==> b.revision == 1 && b.supersedesBatchId == ""
    requires rows != [] ==> b.revision == Newest(rows).revision + 1 && b.supersedesBatchId == Newest(rows).batchId
    ensures Linear(rows + [b])
  {
    if rows != [] {
      NewestIsLast(rows);
      assert Follows(rows, |rows| - 1);
    }
    forall i | 0 <= i < |rows| + 1
      ensures Follows(rows + [b], i)
    {
      assert i < |rows| ==> Follows(rows, i);
    }
  }

  /** The revision guard keeps every chain of revisions linear. */
  lemma InsertKeepsRevisions(t: Tables, i: Input, b: Batch)
    requires RevisionsOk(t.batches) && RevisionGuard(t, i).None?
    requires b.kind == i.kind && b.deploymentId == i.request.signer && b.period == i.period
    requires b.revision == i.revision && b.supersedesBatchId == i.supersedesBatchId
    ensures RevisionsOk(t.batches + [b])
  {
    forall d, p
      ensures Linear(Revisions(t.batches + [b], d, p))
    {
      RevisionsAppend(t.batches, b, d, p);
      var rows := Revisions(t.batches, d, p);
      assert Linear(rows);
      if b.kind == QualifiedMau && b.deploymentId == d && b.period == p {
        LinearAppend(rows, b);
      } else {
        assert rows + [] == rows;
      }
    }
  }

  lemma BatchesStay(t: Tables, e: Entry, nodes: M.Nodes)
    requires BatchesOk(t)
    ensures BatchesOk(t.(entries := t.entries + [e], nodes := nodes))
  {
    var u := t.(entries := t.entries + [e], nodes := nodes);
    forall i | 0 <= i < |t.batches|
      ensures BatchMatches(u, u.batches[i])
    {
      assert BatchMatches(t, t.batches[i]);
    }
  }

  lemma InsertKeepsBatches(r: Registry, t: Tables, i: Input, signature: string, nodes: M.Nodes)
    requires BatchesOk(t) && LedgerVerifies(r, t.entries)
    requires Unique(t, EntryFor(r, t, i))
    ensures BatchesOk(Insert(r, t, i, signature, nodes).tables)
  {
    var e, u := EntryFor(r, t, i), Insert(r, t, i, signature, nodes).tables;
    BatchesStay(t, e, nodes);
    NextIndex(r, t.entries);
    forall k | 0 <= k < |u.batches|
      ensures BatchMatches(u, u.batches[k])
    {
      assert k < |t.batches| ==> BatchMatches(t.(entries := t.entries + [e], nodes := nodes), t.batches[k]);
    }
    forall k | 0 <= k < |t.batches|
      ensures t.batches[k].batchId != i.candidateBatchId
    {
      assert BatchMatches(t, t.batches[k]);
    }
  }

  // ---------------------------------------------------------------- nonces

  function RequestOf(n: NonceKey, row: NonceRow, path: string, scope: string): Request {
    Request(path, scope, n.signer, row.timestamp, n.nonce, row.idempotencyKey, row.payloadHash)
  }

  /** The row's hash is the hash of a request with the row's fields, and that request's key has a row. */
  ghost predicate NonceOk(r: Registry, t: Tables, n: NonceKey)
    requires n in t.nonces
  {
    && (exists path, scope ::
          t.nonces[n].requestHash == Digest(r.g, RequestMessage(RequestOf(n, t.nonces[n], path, scope))))
    && IdempotencyKey(n.signer, t.nonces[n].idempotencyKey) in t.idempotency
  }

  ghost predicate NoncesOk(r: Registry, t: Tables) {
    forall n :: n in t.nonces ==> NonceOk(r, t, n)
  }

  lemma NonceAdded(r: Registry, t: Tables, u: Tables, q: Request)
    requires NoncesOk(r, t)
    requires u.nonces == t.nonces[NonceOf(q) := NonceRowOf(r, q)]
    requires KeyOf(q) in u.idempotency && forall k :: k in t.idempotency ==> k in u.idempotency
    ensures NoncesOk(r, u)
  {
    forall n | n in u.nonces
      ensures NonceOk(r, u, n)
    {
      if n == NonceOf(q) {
        assert RequestOf(n, u.nonces[n], q.path, q.scope) == q;
      } else {
        assert NonceOk(r, t, n);
      }
    }
  }

  /** Another request with the fields of this nonce row has the hash of `q`. */
  ghost predicate Collides(r: Registry, row: NonceRow, q: Request) {
    exists path, scope ::
      !Apart(r.g, RequestMessage(RequestOf(NonceOf(q), row, path, scope)), RequestMessage(q))
  }

  /** A used nonce has an idempotency record: the branch for a missing one takes a collision. */
  lemma UsedNonceHasRecord(r: Registry, t: Tables, q: Request)
    requires NoncesOk(r, t) && NonceState(r, t, q) == Ok(true)
    ensures KeyOf(q) in t.idempotency || Collides(r, t.nonces[NonceOf(q)], q)
  {
    assert NonceOk(r, t, NonceOf(q));
  }

  // ---------------------------------------------------------------- whole runs

  ghost predicate Sound(r: Registry, t: Tables) {
    ChainOk(r, t) && IndexOk(r, t.entries, t.nodes) && BatchesOk(t) && RevisionsOk(t.batches) && NoncesOk(r, t)
  }

  /** Nothing that was written is changed or removed. */
  ghost predicate Extends(t: Tables, u: Tables) {
    && t.entries <= u.entries && NodesStay(t.nodes, u.nodes) && t.batches <= u.batches && t.weights <= u.weights
    && t.checkpoints <= u.checkpoints
    && (forall n :: n in t.nonces ==> n in u.nonces && u.nonces[n] == t.nonces[n])
    && (forall k :: k in t.idempotency ==> k in u.idempotency && u.idempotency[k] == t.idempotency[k])
  }

  lemma EmptySound(r: Registry)
    ensures Sound(r, Empty)
  {
    EmptyIndex(r);
  }

  lemma AcceptSound(r: Registry, t: Tables, i: Input)
    requires Sound(r, t) && Accept(r, t, i).Ok?
    ensures Sound(r, Accept(r, t, i).value.tables) && Extends(t, Accept(r, t, i).value.tables)
  {
    hide Appending, Replay;
    if KeyOf(i.request) in t.idempotency {
      ReplaySound(r, t, i, NonceState(r, t, i.request).value);
    } else {
      InsertSound(r, t, i);
    }
  }

  lemma ReplaySound(r: Registry, t: Tables, i: Input, nonceUsed: bool)
    requires Sound(r, t) && KeyOf(i.request) in t.idempotency && Replay(r, t, i, nonceUsed).Ok?
    requires nonceUsed || NonceOf(i.request) !in t.nonces
    ensures Sound(r, Replay(r, t, i, nonceUsed).value.tables) && Extends(t, Replay(r, t, i, nonceUsed).value.tables)
  {
    hide Sound, Extends;
    if nonceUsed {
      SameTables(t);
    } else {
      NonceSound(r, t, i.request);
    }
  }

  lemma SameTables(t: Tables)
    ensures Extends(t, t)
  {
  }

  lemma InsertKeepsLedger(r: Registry, t: Tables, i: Input)
    requires Sound(r, t) && Guards(r, t, i).None? && Appending(r, t, i).Ok?
    ensures var u := Appending(r, t, i).value.tables;
            ChainOk(r, u) && IndexOk(r, u.entries, u.nodes) && NodesStay(t.nodes, u.nodes)
  {
    hide NodesWith, BatchesOk, RevisionsOk, IndexOk, NoncesOk;
    var e := EntryFor(r, t, i);
    AppendKeepsChain(r, t, e);
    NextIndex(r, t.entries);
    AppendKeepsIndex(r, t, e);
  }

  lemma InsertSound(r: Registry, t: Tables, i: Input)
    requires Sound(r, t) && NonceOf(i.request) !in t.nonces && KeyOf(i.request) !in t.idempotency
    requires Guards(r, t, i).None? && Appending(r, t, i).Ok?
    ensures Sound(r, Appending(r, t, i).value.tables) && Extends(t, Appending(r, t, i).value.tables)
  {
    hide NodesWith, BatchesOk, RevisionsOk, IndexOk, CheckpointsOk, NodesStay;
    var e, signature := EntryFor(r, t, i), i.receipt.value;
    var nodes := NodesWith(r, t, e).value;
    var u := Insert(r, t, i, signature, nodes).tables;
    InsertKeepsLedger(r, t, i);
    InsertKeepsBatches(r, t, i, signature, nodes);
    InsertKeepsRevisions(t, i, BatchFor(i, e, signature));
    NonceAdded(r, t, u, i.request);
  }

  lemma OtherSound(r: Registry, t: Tables, x: Appended)
    requires Sound(r, t) && AppendOther(r, t, x).Ok?
    ensures var u := AppendOther(r, t, x).value;
            && Sound(r, u) && Extends(t, u) && u == t.(entries := u.entries, nodes := u.nodes)
  {
    var e := NextEntry(r, t, x.deploymentId, x.batchId, x.kind, x.period, 0, x.batchHash, x.acceptedAt);
    var nodes := NodesWith(r, t, e).value;
    AppendKeepsChain(r, t, e);
    NextIndex(r, t.entries);
    AppendKeepsIndex(r, t, e);
    BatchesStay(t, e, nodes);
    NoncesStay(r, t, t.(entries := t.entries + [e], nodes := nodes));
  }

  lemma NoncesStay(r: Registry, t: Tables, u: Tables)
    requires NoncesOk(r, t) && u.nonces == t.nonces && u.idempotency == t.idempotency
    ensures NoncesOk(r, u)
  {
    forall n | n in u.nonces
      ensures NonceOk(r, u, n)
    {
      assert NonceOk(r, t, n);
    }
  }

  lemma NonceSound(r: Registry, t: Tables, q: Request)
    requires Sound(r, t) && KeyOf(q) in t.idempotency && NonceOf(q) !in t.nonces
    ensures Sound(r, WithNonce(r, t, q)) && Extends(t, WithNonce(r, t, q))
  {
    NonceAdded(r, t, WithNonce(r, t, q), q);
    BatchesCopied(t, WithNonce(r, t, q));
  }

  lemma BatchesCopied(t: Tables, u: Tables)
    requires BatchesOk(t) && u.entries == t.entries && u.batches == t.batches && u.weights == t.weights
    ensures BatchesOk(u)
  {
    forall i | 0 <= i < |u.batches|
      ensures BatchMatches(u, u.batches[i])
    {
      assert BatchMatches(t, t.batches[i]);
    }
  }

  function WithKey(t: Tables, q: Request, row: IdempotencyRow): Tables {
    t.(idempotency := t.idempotency[KeyOf(q) := row])
  }

  lemma KeySound(r: Registry, t: Tables, q: Request, row: IdempotencyRow)
    requires Sound(r, t) && KeyOf(q) !in t.idempotency
    ensures Sound(r, WithKey(t, q, row)) && Extends(t, WithKey(t, q, row))
  {
    var u := WithKey(t, q, row);
    BatchesCopied(t, u);
    forall n | n in u.nonces
      ensures NonceOk(r, u, n)
    {
      assert NonceOk(r, t, n);
    }
  }

  lemma SideSound(r: Registry, t: Tables, s: Side)
    requires Sound(r, t) && SideWrite(r, t, s).Ok?
    ensures Sound(r, SideWrite(r, t, s).value) && Extends(t, SideWrite(r, t, s).value)
  {
    var q := s.request;
    if KeyOf(q) in t.idempotency {
      if NonceOf(q) !in t.nonces {
        NonceSound(r, t, q);
      }
    } else {
      var v := t;
      if s.appended.Some? {
        OtherSound(r, t, s.appended.value);
        v := AppendOther(r, t, s.appended.value).value;
      }
      var w := WithKey(v, q, IdempotencyRow(q.payloadHash, s.resultType, s.resultId));
      KeySound(r, v, q, IdempotencyRow(q.payloadHash, s.resultType, s.resultId));
      NonceSound(r, w, q);
      ExtendsTransitive(t, v, w);
      ExtendsTransitive(t, w, WithNonce(r, w, q));
    }
  }

  lemma {:induction false} FinalizeExtends(r: Registry, t: Tables, day: int, target: int, now: int)
    ensures var u := FinalizeDays(r, t, day, target, now);
            u.Some? ==> t.checkpoints <= u.value.checkpoints && u.value == t.(checkpoints := u.value.checkpoints)
    decreases target - day
  {
    if day <= target && CheckpointFor(r, t, day, now).Some? {
      var c := CheckpointFor(r, t, day, now).value;
      FinalizeExtends(r, t.(checkpoints := t.checkpoints + [c]), day + 1, target, now);
    }
  }

  lemma CloseSound(r: Registry, t: Tables, now: int)
    requires Sound(r, t)
    ensures match Finalize(r, t, now)
            case Some(u) => Sound(r, u) && Extends(t, u) && NextDay(r, u.checkpoints) >= DayOf(now)
            case None => true
  {
    var next := NextDay(r, t.checkpoints);
    FinalizeKeepsChain(r, t, next, DayOf(now) - 1, now);
    FinalizeExtends(r, t, next, DayOf(now) - 1, now);
    if Finalize(r, t, now).Some? {
      NoncesStay(r, t, Finalize(r, t, now).value);
      BatchesCopied(t, Finalize(r, t, now).value);
    }
  }

  lemma StepSound(r: Registry, t: Tables, s: Step)
    requires Sound(r, t)
    ensures Sound(r, Apply(r, t, s)) && Extends(t, Apply(r, t, s))
  {
    match s
    case Submit(i) => if Accept(r, t, i).Ok? { AcceptSound(r, t, i); }
    case SideStep(x) => if SideWrite(r, t, x).Ok? { SideSound(r, t, x); }
    case Settle(x) => if AppendOther(r, t, x).Ok? { OtherSound(r, t, x); }
    case Close(now) => CloseSound(r, t, now);
  }

  lemma ExtendsTransitive(t: Tables, u: Tables, v: Tables)
    requires Extends(t, u) && Extends(u, v)
    ensures Extends(t, v)
  {
  }

  /** Every run, under any clock, keeps the tables sound and only adds to them. */
  lemma {:induction false} RunSound(r: Registry, t: Tables, steps: seq<Step>)
    requires Sound(r, t)
    ensures Sound(r, Run(r, t, steps)) && Extends(t, Run(r, t, steps))
    decreases |steps|
  {
    if steps != [] {
      StepSound(r, t, steps[0]);
      RunSound(r, Apply(r, t, steps[0]), steps[1..]);
      ExtendsTransitive(t, Apply(r, t, steps[0]), Run(r, t, steps));
    }
  }

  /**
    A finalized checkpoint is permanent: however the run goes on, its row stays, the verifier accepts it,
    and its count and its index are the number of entries ever accepted before the end of its day.
  */
  lemma FinalizedForever(r: Registry, steps: seq<Step>, more: seq<Step>, i: nat)
    requires i < |Run(r, Empty, steps).checkpoints|
    ensures var t, u := Run(r, Empty, steps), Run(r, Run(r, Empty, steps), more);
            && t.entries <= u.entries && LedgerVerifies(r, u.entries)
            && t.checkpoints <= u.checkpoints && CheckpointsVerify(r, u.entries, u.checkpoints)
            && var c := t.checkpoints[i].content;
               && c.checkpointDay == DayOf(r.createdAt) + i
               && c.throughLedgerIndex == c.entryCount
               && forall j :: 0 <= j < |u.entries| ==>
                    (u.entries[j].content.acceptedAt < EndOf(c.checkpointDay) <==> j < c.entryCount)
  {
    EmptySound(r);
    RunSound(r, Empty, steps);
    var t := Run(r, Empty, steps);
    RunSound(r, t, more);
    var u := Run(r, t, more);
    CheckpointCounts(r, u, i);
  }

  lemma CheckpointCounts(r: Registry, u: Tables, i: nat)
    requires ChainOk(r, u) && i < |u.checkpoints|
    ensures var c := u.checkpoints[i].content;
            && c.throughLedgerIndex == c.entryCount
            && forall j :: 0 <= j < |u.entries| ==>
                 (u.entries[j].content.acceptedAt < EndOf(c.checkpointDay) <==> j < c.entryCount)
  {
    var end := EndOf(u.checkpoints[i].content.checkpointDay);
    assert CheckpointLinked(r, u.entries, u.checkpoints, i);
    HeadIsPrefix(r, u.entries, end);
    ExtentIsPrefix(r, u.entries, end);
  }

  /** In no run does a repeated request meet a used nonce without its idempotency record, short of a collision. */
  lemma MissingRecordUnreachable(r: Registry, steps: seq<Step>, q: Request)
    requires NonceState(r, Run(r, Empty, steps), q) == Ok(true)
    ensures var t := Run(r, Empty, steps);
            KeyOf(q) in t.idempotency || Collides(r, t.nonces[NonceOf(q)], q)
  {
    EmptySound(r);
    RunSound(r, Empty, steps);
    UsedNonceHasRecord(r, Run(r, Empty, steps), q);
  }

  /** Per deployment and period the qualified-MAU batches of any run are revisions 1..n in one chain. */
  lemma RevisionsLinear(r: Registry, steps: seq<Step>, deploymentId: string, period: string)
    ensures Linear(Revisions(Run(r, Empty, steps).batches, deploymentId, period))
  {
    EmptySound(r);
    RunSound(r, Empty, steps);
  }

  lemma {:induction false} FindStays(b: seq<Batch>, c: seq<Batch>, id: string)
    requires b <= c && FindBatch(b, id).Some?
    ensures FindBatch(c, id) == FindBatch(b, id)
  {
    if b[0].batchId != id {
      FindStays(b[1..], c[1..], id);
    }
  }

  lemma {:induction false} RowStays(b: seq<Entry>, c: seq<Entry>, index: int)
    requires b <= c && RowAt(b, index).Some?
    ensures RowAt(c, index) == RowAt(b, index)
  {
    if b[0].content.ledgerIndex != index {
      RowStays(b[1..], c[1..], index);
    }
  }

  lemma RecordStays(t: Tables, u: Tables, id: string)
    requires Extends(t, u) && RecordById(t, id).Some?
    ensures RecordById(u, id) == RecordById(t, id)
  {
    FindStays(t.batches, u.batches, id);
    RowStays(t.entries, u.entries, FindBatch(t.batches, id).value.ledgerIndex);
  }

  lemma {:induction false} FindAppended(batches: seq<Batch>, b: Batch)
    requires forall i :: 0 <= i < |batches| ==> batches[i].batchId != b.batchId
    ensures FindBatch(batches + [b], b.batchId) == Some(b)
  {
    if batches != [] {
      assert (batches + [b])[1..] == batches[1..] + [b];
      FindAppended(batches[1..], b);
    }
  }

  /** An accepted batch can be read back as the record that was returned. */
  lemma InsertedRecord(r: Registry, t: Tables, i: Input, signature: string, nodes: M.Nodes)
    requires BatchesOk(t) && LedgerVerifies(r, t.entries) && Unique(t, EntryFor(r, t, i))
    requires LedgerVerifies(r, t.entries + [EntryFor(r, t, i)])
    ensures var a := Insert(r, t, i, signature, nodes);
            RecordById(a.tables, i.candidateBatchId) == Some(a.record)
  {
    var e := EntryFor(r, t, i);
    forall k | 0 <= k < |t.batches|
      ensures t.batches[k].batchId != i.candidateBatchId
    {
      assert BatchMatches(t, t.batches[k]);
    }
    FindAppended(t.batches, BatchFor(i, e, signature));
    IndexesContiguous(r, t.entries + [e]);
    RowAtIndex(t.entries + [e], 1, |t.entries|);
  }

  /** The record carries what was submitted, under the next ledger index and the hash of the entry before it. */
  ghost predicate Describes(r: Registry, t: Tables, i: Input, v: BatchRecord) {
    var b, c, q := v.batch, v.entry.content, i.request;
    && b.batchId == c.batchId == i.candidateBatchId && b.deploymentId == c.deploymentId == q.signer
    && b.idempotencyKey == q.idempotencyKey && b.payloadHash == c.batchHash == q.payloadHash
    && b.kind == c.kind == i.kind && b.period == c.period == i.period
    && b.qualifiedMauCount == c.qualifiedMauCount == i.qualifiedMauCount && b.commitmentHash == i.commitmentHash
    && b.revision == i.revision && b.supersedesBatchId == i.supersedesBatchId
    && b.acceptedAt == c.acceptedAt == i.acceptedAt && Some(b.receiptSignature) == i.receipt
    && b.ledgerIndex == c.ledgerIndex == |t.entries| + 1 && c.previousEntryHash == HeadHash(t.entries)
    && v.entry.entryHash == Digest(r.g, EntryMessage(c))
  }

  /** A first acceptance describes its input, and leaves its idempotency row and a record that reads back the same. */
  lemma FreshAcceptance(r: Registry, t: Tables, i: Input)
    requires Sound(r, t) && Accept(r, t, i).Ok? && !Accept(r, t, i).value.duplicate
    ensures var a := Accept(r, t, i).value;
            && Describes(r, t, i, a.record)
            && KeyOf(i.request) in a.tables.idempotency
            && a.tables.idempotency[KeyOf(i.request)]
               == IdempotencyRow(i.request.payloadHash, BatchResult, i.candidateBatchId)
            && RecordById(a.tables, i.candidateBatchId) == Some(a.record)
  {
    NextEntryLinked(r, t, EntryFor(r, t, i));
    assert Linked(r, t.entries + [EntryFor(r, t, i)], |t.entries|);
    InsertedRecord(r, t, i, i.receipt.value, NodesWith(r, t, EntryFor(r, t, i)).value);
  }

  /** The outcome `b` of a resubmission: `record` again, and no change but at most a nonce row. */
  ghost predicate Repeats(r: Registry, u: Tables, again: Input, record: BatchRecord, b: Result<Acceptance>) {
    if NonceState(r, u, again.request).Err? then b == Err(ReplayConflict)
    else
      && b.Ok? && b.value.record == record && b.value.duplicate
      && b.value.tables == u.(nonces := b.value.tables.nonces)
      && b.value.tables.nonces.Keys == u.nonces.Keys + {NonceOf(again.request)}
  }

  lemma ReplayRepeats(r: Registry, u: Tables, again: Input, record: BatchRecord, batchId: string)
    requires KeyOf(again.request) in u.idempotency
    requires u.idempotency[KeyOf(again.request)] == IdempotencyRow(again.request.payloadHash, BatchResult, batchId)
    requires RecordById(u, batchId) == Some(record)
    ensures Repeats(r, u, again, record, Accept(r, u, again))
  {
  }

  /**
    Resubmission is idempotent: after any further run, the same payload under the same key returns the
    original record and writes at most a nonce row.  Only a nonce that another request used stops it.
  */
  lemma Resubmission(r: Registry, t: Tables, i: Input, more: seq<Step>, again: Input)
    requires Sound(r, t) && Accept(r, t, i).Ok? && !Accept(r, t, i).value.duplicate
    requires KeyOf(again.request) == KeyOf(i.request) && again.request.payloadHash == i.request.payloadHash
    ensures var a := Accept(r, t, i).value;
            var u := Run(r, a.tables, more);
            Repeats(r, u, again, a.record, Accept(r, u, again))
  {
    FreshAcceptance(r, t, i);
    AcceptSound(r, t, i);
    var a := Accept(r, t, i).value;
    RunSound(r, a.tables, more);
    var u := Run(r, a.tables, more);
    RecordStays(a.tables, u, i.candidateBatchId);
    ReplayRepeats(r, u, again, a.record, i.candidateBatchId);
  }
}
