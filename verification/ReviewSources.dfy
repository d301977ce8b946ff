/**
  The tables that a frozen exit review is computed from: the ledger with its checkpoints, the settlement
  rows, the audit, claim-review and eligibility logs and the ownership transfers; and the transactions that
  write them.
*/
module ReviewSources {
  import opened Basics
  import opened DatedLogs
  import opened OperatorClaims
  import opened SettlementBoundaries
  import P = Protocol
  import D = DigestText
  import T = MerkleTree
  import M = MerkleIndex
  import L = Ledger
  import LS = LedgerSafety
  import O = OwnershipTransfers
  import Ro = Rosters

  datatype Sources = Sources(
    ledger: L.Tables, settlements: seq<Settled>, audits: seq<Audit>, claimReviews: seq<ClaimReview>,
    eligibilities: seq<Eligibility>, transfers: O.Log)

  const Empty: Sources := Sources(L.Empty, [], [], [], [], O.Empty)

  /** What does not change: the registry, and the patterns of settlement rows. */
  datatype Setting = Setting(registry: L.Registry, patterns: Patterns)

  /** One transaction.  A settlement is a `SettleStep`, which also writes its row. */
  datatype Step =
    | LedgerStep(step: LS.Step)
    | SettleStep(appended: L.Appended, row: Settled)
    | AuditStep(acceptedAt: int, hash: string, audit: AuditFact)
    | ClaimReviewStep(acceptedAt: int, hash: string, review: ReviewFact)
    | EligibilityStep(acceptedAt: int, hash: string, eligibility: EligibilityFact)

  /** A settlement: its row and its ledger entry, in one transaction. */
  function Settling(c: Setting, s: Sources, x: L.Appended, row: Settled): Option<Sources> {
    var placed := row.(ledgerIndex := L.HeadIndex(s.ledger.entries) + 1, acceptedAt := x.acceptedAt);
    if !RowOk(c.patterns, placed) || !NewRow(s.settlements, placed) then None
    else
      match L.AppendOther(c.registry, s.ledger, x)
      case Err(_) => None
      case Ok(u) => Some(s.(ledger := u, settlements := s.settlements + [placed]))
  }

  /** An audit event comes after the last completed transfer, and not before the head of its log. */
  predicate AuditAccepted(c: Setting, s: Sources, at: int, f: AuditFact) {
    var rows := s.transfers.memberships;
    && ClockAllows(s.audits, c.registry.createdAt, at) && AuditAllowed(s.audits, f)
    && (rows != [] ==> rows[|rows| - 1].completedAt < at)
  }

  predicate ReviewAccepted(c: Setting, s: Sources, at: int, f: ReviewFact) {
    ClockAllows(s.claimReviews, c.registry.createdAt, at) && ReviewAllowed(s.audits, s.claimReviews, at, f)
  }

  predicate EligibilityAccepted(c: Setting, s: Sources, at: int, f: EligibilityFact) {
    && ClockAllows(s.eligibilities, c.registry.createdAt, at)
    && EligibilityAllowed(s.audits, s.claimReviews, s.eligibilities, at, f)
  }

  /** The time of an event that one of the three dated logs accepts, if the step is one. */
  function DatedTime(c: Setting, s: Sources, step: Step): Option<int> {
    match step
    case LedgerStep(_) => None
    case SettleStep(_, _) => None
    case AuditStep(at, _, f) => if AuditAccepted(c, s, at, f) then Some(at) else None
    case ClaimReviewStep(at, _, f) => if ReviewAccepted(c, s, at, f) then Some(at) else None
    case EligibilityStep(at, _, f) => if EligibilityAccepted(c, s, at, f) then Some(at) else None
  }

  function Apply(c: Setting, s: Sources, step: Step): Sources {
    match step
    case LedgerStep(x) => s.(ledger := LS.Apply(c.registry, s.ledger, x))
    case SettleStep(x, row) => (match Settling(c, s, x, row) case Some(u) => u case None => s)
    case AuditStep(at, hash, f) =>
      if AuditAccepted(c, s, at, f) then s.(audits := Append(s.audits, at, hash, f)) else s
    case ClaimReviewStep(at, hash, f) =>
      if ReviewAccepted(c, s, at, f) then s.(claimReviews := Append(s.claimReviews, at, hash, f)) else s
    case EligibilityStep(at, hash, f) =>
      if EligibilityAccepted(c, s, at, f) then s.(eligibilities := Append(s.eligibilities, at, hash, f)) else s
  }

  // ---------------------------------------------------------------- ownership transfers

  /** What the logs say at present. */
  function Present(s: Sources): Ro.Boundary {
    Ro.Boundary(s.audits, s.claimReviews, s.eligibilities, s.transfers.memberships)
  }

  /** The last completed transfer of a claim. */
  function TransferFor(rows: seq<O.Membership>, d: string, claimActionId: string): Option<O.Membership> {
    if rows == [] then None
    else if rows[|rows| - 1].deploymentId == d && rows[|rows| - 1].claimActionId == claimActionId then
      Some(rows[|rows| - 1])
    else TransferFor(rows[..|rows| - 1], d, claimActionId)
  }

  predicate EligibleNow(s: Sources, n: Network) {
    n.claimed && Approved(n, s.claimReviews) && !Suspended(n, s.eligibilities)
  }

  /** The claim is approved and active, it was made in this group, and the deployment is still there. */
  predicate ClaimCurrent(s: Sources, d: string, claimActionId: string, group: string) {
    var n, m := NetworkOf(s.audits, d), TransferFor(s.transfers.memberships, d, claimActionId);
    && n.claimActionId == claimActionId && n.claimGroupId == group && EligibleNow(s, n)
    && group == if Ro.Applies(m, n) then m.value.targetGroupId else n.groupId
  }

  /** An active deployment with an approved and active claim of the group is in it. */
  predicate TargetEligible(s: Sources, group: string) {
    exists i :: 0 <= i < |s.audits| && HoldsGroup(s, group, s.audits[i].fact.deploymentId)
  }

  predicate HoldsGroup(s: Sources, group: string, d: string) {
    var n := NetworkOf(s.audits, d);
    n.claimGroupId == group && EligibleNow(s, n) && Ro.InGroup(Present(s), group, d)
  }

  predicate AfterLedger(s: Sources, at: int) {
    var entries := s.ledger.entries;
    entries != [] ==> entries[|entries| - 1].content.acceptedAt < at
  }

  predicate AfterAudits(s: Sources, at: int) {
    s.audits != [] ==> s.audits[|s.audits| - 1].acceptedAt < at
  }

  /** A completion moves a current claim to an eligible group, after the heads of the ledger and the audit log. */
  predicate CompletionAllowed(s: Sources, r: O.Record, at: int) {
    && ClaimCurrent(s, r.targetDeploymentId, r.claimActionId, r.sourceGroupId) && TargetEligible(s, r.targetGroupId)
    && AfterLedger(s, at) && AfterAudits(s, at)
  }

  predicate TransferAllowed(c: Setting, s: Sources, r: O.Record, e: O.Event) {
    && O.Continues(s.transfers, c.registry.createdAt, r, e)
    && (e.action == O.Complete ==> CompletionAllowed(s, r, e.acceptedAt))
  }

  function Transferred(s: Sources, r: O.Record, e: O.Event): Sources {
    s.(transfers := O.Written(s.transfers, r, e, HeadIndex(s.audits)))
  }

  // ---------------------------------------------------------------- what the writers keep

  ghost predicate RowsOk(c: Setting, s: Sources) {
    && (forall i :: 0 <= i < |s.settlements| ==>
          RowOk(c.patterns, s.settlements[i]) && s.settlements[i].ledgerIndex <= |s.ledger.entries|)
    && (forall i, j :: 0 <= i < j < |s.settlements| ==> NewRow([s.settlements[i]], s.settlements[j]))
  }

  /** A completed transfer was one of a claim made in its source group, at the audit log's head of that time. */
  ghost predicate RowLinked(audits: seq<Audit>, m: O.Membership) {
    && 0 <= m.throughAuditIndex <= |audits| && SplitsAt(audits, m.throughAuditIndex, m.completedAt)
    && exists i :: 0 <= i < |audits| && ClaimMadeBy(audits[i], m.claimActionId, m.sourceGroupId)
  }

  /** The first `n` audit events were accepted before the time, and all others after it. */
  ghost predicate SplitsAt(audits: seq<Audit>, n: int, at: int) {
    forall i :: 0 <= i < |audits| ==> if i < n then audits[i].acceptedAt < at else at < audits[i].acceptedAt
  }

  predicate ClaimMadeBy(e: Audit, claimActionId: string, group: string) {
    e.fact.actionId == claimActionId && e.fact.groupId == group
  }

  ghost predicate RowsLinked(audits: seq<Audit>, rows: seq<O.Membership>) {
    && (forall k :: 0 <= k < |rows| ==> RowLinked(audits, rows[k]))
    && (forall j, k :: 0 <= j < k < |rows| ==> rows[j].throughAuditIndex <= rows[k].throughAuditIndex)
  }

  ghost predicate LogsOk(s: Sources) {
    && Ordered(s.audits) && Ordered(s.claimReviews) && Ordered(s.eligibilities) && AuditsOk(s.audits)
    && ReviewsOk(s.audits, s.claimReviews) && EligibilitiesOk(s.claimReviews, s.eligibilities)
    && O.Ok(s.transfers) && RowsLinked(s.audits, s.transfers.memberships)
  }

  ghost predicate Sound(c: Setting, s: Sources) {
    LS.Sound(c.registry, s.ledger) && RowsOk(c, s) && LogsOk(s)
  }

  /** Settlement rows are only added, each at a ledger index beyond the ledger before it. */
  ghost predicate RowsExtend(s: Sources, u: Sources) {
    && s.settlements <= u.settlements
    && forall i :: |s.settlements| <= i < |u.settlements| ==> u.settlements[i].ledgerIndex > |s.ledger.entries|
  }

  /** Nothing that was written is changed or removed. */
  ghost predicate Extends(s: Sources, u: Sources) {
    && LS.Extends(s.ledger, u.ledger) && RowsExtend(s, u)
    && s.audits <= u.audits && s.claimReviews <= u.claimReviews && s.eligibilities <= u.eligibilities
    && O.Extends(s.transfers, u.transfers)
  }

  lemma EmptySound(c: Setting)
    ensures Sound(c, Empty)
  {
    LS.EmptySound(c.registry);
  }

  lemma ExtendsTransitive(s: Sources, u: Sources, v: Sources)
    requires Extends(s, u) && Extends(u, v)
    ensures Extends(s, v)
  {
    LS.ExtendsTransitive(s.ledger, u.ledger, v.ledger);
    forall i | |s.settlements| <= i < |v.settlements|
      ensures v.settlements[i].ledgerIndex > |s.ledger.entries|
    {
      assert i < |u.settlements| ==> v.settlements[i] == u.settlements[i];
    }
  }

  lemma ExtendsSame(s: Sources)
    ensures Extends(s, s)
  {
  }

  lemma IdsFromRows(c: Setting, s: Sources)
    requires RowsOk(c, s)
    ensures IdsUnique(s.settlements) && RevisionsUnique(s.settlements)
  {
    forall i, j | 0 <= i < j < |s.settlements|
      ensures s.settlements[i].settlementId != s.settlements[j].settlementId
      ensures SameGroup(s.settlements[i], s.settlements[j]) ==> s.settlements[i].revision != s.settlements[j].revision
    {
      assert NewRow([s.settlements[i]], s.settlements[j]);
      assert [s.settlements[i]][0] == s.settlements[i];
    }
  }

  lemma RowAdded(c: Setting, s: Sources, u: Sources, row: Settled)
    requires RowsOk(c, s) && RowOk(c.patterns, row) && NewRow(s.settlements, row)
    requires u.settlements == s.settlements + [row] && |s.ledger.entries| < |u.ledger.entries|
    requires row.ledgerIndex == |s.ledger.entries| + 1
    ensures RowsOk(c, u) && RowsExtend(s, u)
  {
    forall i, j | 0 <= i < j < |u.settlements|
      ensures NewRow([u.settlements[i]], u.settlements[j])
    {
      if j < |s.settlements| {
        assert NewRow([s.settlements[i]], s.settlements[j]);
      }
    }
  }

  lemma SettlingSound(c: Setting, s: Sources, x: L.Appended, row: Settled)
    requires Sound(c, s) && Settling(c, s, x, row).Some?
    ensures Sound(c, Settling(c, s, x, row).value) && Extends(s, Settling(c, s, x, row).value)
  {
    var placed := row.(ledgerIndex := L.HeadIndex(s.ledger.entries) + 1, acceptedAt := x.acceptedAt);
    LS.OtherSound(c.registry, s.ledger, x);
    LS.NextIndex(c.registry, s.ledger.entries);
    RowAdded(c, s, Settling(c, s, x, row).value, placed);
  }

  lemma LedgerSound(c: Setting, s: Sources, x: LS.Step)
    requires Sound(c, s)
    ensures Sound(c, Apply(c, s, LedgerStep(x))) && Extends(s, Apply(c, s, LedgerStep(x)))
  {
    LS.StepSound(c.registry, s.ledger, x);
    var u := Apply(c, s, LedgerStep(x));
    forall i | 0 <= i < |u.settlements|
      ensures RowOk(c.patterns, u.settlements[i]) && u.settlements[i].ledgerIndex <= |u.ledger.entries|
    {
      assert u.settlements[i] == s.settlements[i];
    }
  }

  lemma StepSound(c: Setting, s: Sources, step: Step)
    requires Sound(c, s)
    ensures Sound(c, Apply(c, s, step)) && Extends(s, Apply(c, s, step))
  {
    hide LS.Apply, LS.Sound, LS.Extends, LogsOk, RowsOk, AuditAccepted, ReviewAccepted, EligibilityAccepted, Settling;
    match step
    case LedgerStep(x) => LedgerSound(c, s, x);
    case SettleStep(x, row) =>
      ExtendsSame(s);
      if Settling(c, s, x, row).Some? { SettlingSound(c, s, x, row); }
    case AuditStep(_, _, _) => LogStepSound(c, s, step);
    case ClaimReviewStep(_, _, _) => LogStepSound(c, s, step);
    case EligibilityStep(_, _, _) => LogStepSound(c, s, step);
  }

  lemma LogStepSound(c: Setting, s: Sources, step: Step)
    requires Sound(c, s) && (step.AuditStep? || step.ClaimReviewStep? || step.EligibilityStep?)
    ensures Sound(c, Apply(c, s, step)) && Extends(s, Apply(c, s, step))
  {
    hide LS.Sound, LS.Extends, AuditAllowed, ReviewAllowed, EligibilityAllowed, O.Ok, RowLinked, AuditsOk, Ordered,
         RowOk, NewRow;
    hide ReviewsOk, EligibilitiesOk;
    ExtendsSame(s);
    var u := Apply(c, s, step);
    DecisionsStay(s.audits, u.audits, s.claimReviews, u.claimReviews, s.eligibilities);
    match step
    case AuditStep(at, hash, f) =>
      if AuditAccepted(c, s, at, f) {
        AppendOrdered(s.audits, c.registry.createdAt, at, hash, f);
        AuditsOkAppended(s.audits, Dated(HeadIndex(s.audits) + 1, at, hash, f));
        O.CompletionsOrdered(s.transfers);
        RowsStayLinked(s.audits, Append(s.audits, at, hash, f), s.transfers.memberships);
      }
    case ClaimReviewStep(at, hash, f) =>
      if ReviewAccepted(c, s, at, f) {
        AppendOrdered(s.claimReviews, c.registry.createdAt, at, hash, f);
        ReviewsOkAppended(s.audits, s.claimReviews, Dated(HeadIndex(s.claimReviews) + 1, at, hash, f));
      }
    case EligibilityStep(at, hash, f) =>
      if EligibilityAccepted(c, s, at, f) {
        var e := Dated(HeadIndex(s.eligibilities) + 1, at, hash, f);
        AppendOrdered(s.eligibilities, c.registry.createdAt, at, hash, f);
        EligibilitiesOkAppended(s.audits, s.claimReviews, s.eligibilities, e);
      }
  }

  lemma RowsStayLinked(a: seq<Audit>, b: seq<Audit>, rows: seq<O.Membership>)
    requires RowsLinked(a, rows) && a <= b
    requires forall i, k :: |a| <= i < |b| && 0 <= k < |rows| ==> rows[k].completedAt < b[i].acceptedAt
    ensures RowsLinked(b, rows)
  {
    forall k | 0 <= k < |rows|
      ensures RowLinked(b, rows[k])
    {
      assert RowLinked(a, rows[k]);
      var i :| 0 <= i < |a| && ClaimMadeBy(a[i], rows[k].claimActionId, rows[k].sourceGroupId);
      assert b[i] == a[i];
    }
  }

  /** The row of a completion names the claim that it moves. */
  lemma CompletionLinked(s: Sources, r: O.Record, e: O.Event)
    requires Ordered(s.audits) && AuditsOk(s.audits) && RowsLinked(s.audits, s.transfers.memberships)
    requires ClaimCurrent(s, r.targetDeploymentId, r.claimActionId, r.sourceGroupId) && AfterAudits(s, e.acceptedAt)
    ensures RowsLinked(s.audits, s.transfers.memberships + [O.MembershipFor(r, e, HeadIndex(s.audits))])
  {
    var rows, m := s.transfers.memberships, O.MembershipFor(r, e, HeadIndex(s.audits));
    var i := ClaimMade(s.audits, r.targetDeploymentId);
    assert ClaimMadeBy(s.audits[i], r.claimActionId, r.sourceGroupId);
    assert SplitsAt(s.audits, m.throughAuditIndex, m.completedAt);
    forall k | 0 <= k < |rows|
      ensures rows[k].throughAuditIndex <= m.throughAuditIndex
    {
      assert RowLinked(s.audits, rows[k]);
    }
  }

  /** A transfer event changes the transfer log alone; a completion's row names a claim of its source group. */
  lemma TransferSound(c: Setting, s: Sources, r: O.Record, e: O.Event)
    requires Sound(c, s) && TransferAllowed(c, s, r, e)
    ensures Sound(c, Transferred(s, r, e)) && Extends(s, Transferred(s, r, e))
  {
    hide LS.Sound, LS.Extends, AuditsOk, O.Ok, O.Continues, O.Extends, TargetEligible, ClaimCurrent, RowOk, NewRow,
         Ordered, RowsLinked, AfterLedger, AfterAudits, ReviewsOk, EligibilitiesOk;
    O.WrittenOk(s.transfers, c.registry.createdAt, r, e, HeadIndex(s.audits));
    ExtendsSame(s);
    if e.action == O.Complete {
      CompletionLinked(s, r, e);
    }
  }

  // ---------------------------------------------------------------- the ledger's part of a record

  /** The checkpoint of a day. */
  function CheckpointOn(checkpoints: seq<L.Checkpoint>, day: int): Option<L.Checkpoint> {
    if checkpoints == [] then None
    else if checkpoints[0].content.checkpointDay == day then Some(checkpoints[0])
    else CheckpointOn(checkpoints[1..], day)
  }

  /** The text of the Merkle root over the first `n` entries, from the stored nodes. */
  function RootText(r: L.Registry, t: L.Tables, n: int): Option<string> {
    if n <= 0 then Some(D.Format(T.EmptyRoot(r.merkle)))
    else
      match M.RangeRoot(r.merkle, L.Leaves(t.entries), t.nodes, 0, n)
      case None => None
      case Some(root) => Some(D.Format(root))
  }

  /** What a day's checkpoint fixes, with the settlement boundary at its ledger index. */
  datatype View =
    | View(checkpoint: L.Checkpoint, rootHash: string, settlements: seq<P.SettlementBoundary>)
    | NoCheckpoint
    | Unreadable

  function ViewOf(c: Setting, s: Sources, day: int): View {
    match CheckpointOn(s.ledger.checkpoints, day)
    case None => NoCheckpoint
    case Some(k) =>
      if k.content.entryCount != k.content.throughLedgerIndex then Unreadable
      else
        match RootText(c.registry, s.ledger, k.content.entryCount)
        case None => Unreadable
        case Some(root) => View(k, root, Boundaries(s.settlements, k.content.throughLedgerIndex))
  }

  lemma {:induction false} CheckpointStays(a: seq<L.Checkpoint>, b: seq<L.Checkpoint>, day: int)
    requires a <= b && CheckpointOn(a, day).Some?
    ensures CheckpointOn(b, day) == CheckpointOn(a, day)
  {
    if a[0].content.checkpointDay != day {
      CheckpointStays(a[1..], b[1..], day);
    }
  }

  lemma {:induction false} CheckpointIn(checkpoints: seq<L.Checkpoint>, day: int) returns (k: nat)
    requires CheckpointOn(checkpoints, day).Some?
    ensures k < |checkpoints| && CheckpointOn(checkpoints, day) == Some(checkpoints[k])
    ensures checkpoints[k].content.checkpointDay == day
  {
    if checkpoints[0].content.checkpointDay == day {
      k := 0;
    } else {
      k := CheckpointIn(checkpoints[1..], day);
      k := k + 1;
    }
  }

  /** A finalized checkpoint counts a prefix of the ledger. */
  lemma CheckpointBounded(r: L.Registry, t: L.Tables, day: int)
    requires LS.ChainOk(r, t) && CheckpointOn(t.checkpoints, day).Some?
    ensures var c := CheckpointOn(t.checkpoints, day).value.content;
            0 <= c.entryCount == c.throughLedgerIndex <= |t.entries|
  {
    var k := CheckpointIn(t.checkpoints, day);
    assert L.CheckpointLinked(r, t.entries, t.checkpoints, k);
    LS.HeadIsPrefix(r, t.entries, L.EndOf(day));
  }

  lemma LeavesStay(a: seq<L.Entry>, b: seq<L.Entry>, n: nat)
    requires a <= b && n <= |a|
    ensures L.Leaves(a)[..n] == L.Leaves(b)[..n]
  {
    forall i | 0 <= i < n
      ensures L.Leaves(a)[i] == L.Leaves(b)[i]
    {
      assert a[i] == b[i];
    }
  }

  /** The stored nodes give the Merkle Tree Hash of the prefix, which later entries leave as it is. */
  lemma RootStays(r: L.Registry, t: L.Tables, u: L.Tables, n: nat)
    requires LS.IndexOk(r, t.entries, t.nodes) && LS.IndexOk(r, u.entries, u.nodes)
    requires t.entries <= u.entries && n <= |t.entries|
    ensures RootText(r, t, n).Some? && RootText(r, u, n) == RootText(r, t, n)
  {
    if n > 0 {
      var a, b := L.Leaves(t.entries), L.Leaves(u.entries);
      M.RangeRootIsTrue(r.merkle, a, t.nodes, 0, n);
      M.RangeRootIsTrue(r.merkle, b, u.nodes, 0, n);
      LeavesStay(t.entries, u.entries, n);
      assert a[0..0 + n] == a[..n] && b[0..0 + n] == b[..n];
      T.TreeHashFrame(r.merkle, a, 0, b, 0, n);
    }
  }

  /** Once a day is finalized, its view is readable and never changes. */
  lemma ViewStays(c: Setting, s: Sources, u: Sources, day: int)
    requires Sound(c, s) && Sound(c, u) && Extends(s, u) && !ViewOf(c, s, day).NoCheckpoint?
    ensures ViewOf(c, s, day).View? && ViewOf(c, u, day) == ViewOf(c, s, day)
  {
    CheckpointBounded(c.registry, s.ledger, day);
    CheckpointStays(s.ledger.checkpoints, u.ledger.checkpoints, day);
    var k := CheckpointOn(s.ledger.checkpoints, day).value.content;
    RootStays(c.registry, s.ledger, u.ledger, k.entryCount);
    var later := u.settlements[|s.settlements|..];
    assert u.settlements == s.settlements + later;
    BoundaryStable(s.settlements, later, k.throughLedgerIndex);
  }
}
