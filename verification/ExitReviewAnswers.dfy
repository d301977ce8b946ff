/**
  What the exit-review writers answer, said of the rows themselves: what a freeze needs and pins, when a
  decision is accepted, and what the replay then accepts.
*/
module ExitReviewAnswers {
  import opened Basics
  import opened Protocol
  import opened BoundaryLaws
  import opened ClaimLaws
  import opened ExitReview
  import opened ExitReviewSafety
  import DL = DatedLogs
  import L = Ledger
  import LS = LedgerSafety
  import D = DigestText
  import T = MerkleTree
  import M = MerkleIndex
  import C = OperatorClaims
  import O = OwnershipTransfers
  import Ro = Rosters
  import S = ReviewSources
  import SB = SettlementBoundaries
  import TO = TextOrder

  // ---------------------------------------------------------------- the roster

  /** A claim event of this deployment and group gave this name. */
  ghost predicate Named(s: S.Sources, c: Claim, name: string) {
    exists k :: 0 <= k < |s.audits| && MakesClaim(s.audits[k], c.targetDeploymentId)
                && s.audits[k].fact.actionId == c.claimActionId && s.audits[k].fact.groupId == c.groupId
                && s.audits[k].fact.operatorName == name
  }

  lemma {:induction false} NameMeans(log: seq<C.Audit>, d: string, claim: string, group: string) returns (k: int)
    ensures match C.LegalNameOf(log, d, claim, group)
            case Some(name) =>
              && 0 <= k < |log| && MakesClaim(log[k], d) && log[k].fact.actionId == claim
              && log[k].fact.groupId == group && log[k].fact.operatorName == name
            case None =>
              forall j :: 0 <= j < |log| && MakesClaim(log[j], d) ==>
                log[j].fact.actionId != claim || log[j].fact.groupId != group
  {
    k := 0;
    if log != [] && !C.Submits(log[0].fact, d, claim, group) {
      k := NameMeans(log[1..], d, claim, group);
      assert forall j :: 1 <= j < |log| ==> log[j] == log[1..][j - 1];
      k := k + 1;
    }
  }

  /** At the end of the day the claim's deployment is in the group by the claim, which may be exited. */
  ghost predicate MayFreeze(s: S.Sources, c: Claim) {
    && (exists b :: IsBoundary(s, c.recordDay, b) && Exits(b, c.groupId, c.targetDeploymentId, c.claimActionId))
    && exists name :: Named(s, c, name)
  }

  ghost predicate RowOfMember(b: Ro.Boundary, group: string, row: ReviewMember) {
    exists k :: 0 <= k < |b.audits| && InBy(b, group, row.deploymentId, k) && RowSays(b, row, k)
  }

  /** One row for each deployment of the group, in the order of their IDs, saying what the logs say of it. */
  ghost predicate RosterReads(b: Ro.Boundary, group: string, members: seq<ReviewMember>) {
    && (forall i :: 0 <= i < |members| ==> members[i].memberOrder == i && RowOfMember(b, group, members[i]))
    && (forall i, j :: 0 <= i < j < |members| ==> TO.Less(members[i].deploymentId, members[j].deploymentId))
    && forall d :: Member(b, group, d) ==> Ro.Lists(members, d)
  }

  ghost predicate RosterRight(s: S.Sources, c: Claim, name: string, members: seq<ReviewMember>) {
    && Named(s, c, name)
    && exists b :: IsBoundary(s, c.recordDay, b) && RosterReads(b, c.groupId, members)
                   && Exits(b, c.groupId, c.targetDeploymentId, c.claimActionId)
  }

  lemma OneBoundary(s: S.Sources, day: int, a: Ro.Boundary, b: Ro.Boundary)
    requires IsBoundary(s, day, a) && IsBoundary(s, day, b)
    ensures a == b
  {
    SamePart(a.audits, b.audits, s.audits, (day + 1) * 86400);
    SamePart(a.reviews, b.reviews, s.claimReviews, (day + 1) * 86400);
    SamePart(a.eligibilities, b.eligibilities, s.eligibilities, (day + 1) * 86400);
    var m, n, rows := |a.transfers|, |b.transfers|, s.transfers.memberships;
    assert m < |rows| ==> (rows[m].completedAt < (day + 1) * 86400 <==> m < n);
    assert n < |rows| ==> (rows[n].completedAt < (day + 1) * 86400 <==> n < m);
  }

  lemma SamePart<X>(a: seq<DL.Dated<X>>, b: seq<DL.Dated<X>>, log: seq<DL.Dated<X>>, end: int)
    requires Before(a, log, end) && Before(b, log, end)
    ensures a == b
  {
    var m, n := |a|, |b|;
    assert m < |log| ==> (log[m].acceptedAt < end <==> m < n);
    assert n < |log| ==> (log[n].acceptedAt < end <==> n < m);
  }

  lemma MembersRead(b: Ro.Boundary, group: string, members: seq<ReviewMember>)
    requires InOrder(b) && Ro.RowsOf(b, members, Ro.GroupIn(b, group))
    ensures RosterReads(b, group, members)
  {
    hide InOrder, Ro.InGroup, InBy, Member, RowSays, Ro.MemberRow;
    forall i | 0 <= i < |members|
      ensures members[i].memberOrder == i && RowOfMember(b, group, members[i])
    {
      var d := members[i].deploymentId;
      assert Ro.Lists(members, d);
      assert d in Ro.GroupIn(b, group);
      RowReads(b, group, i, d);
    }
    forall d | Member(b, group, d)
      ensures Ro.Lists(members, d)
    {
      var k := InGroupMeans(b, group, d);
      assert d in Ro.GroupIn(b, group);
    }
  }

  /** A claim has a roster exactly if it may be frozen, and it is that of its group at the end of the day. */
  lemma RosterAnswers(s: S.Sources, c: Claim)
    requires S.LogsOk(s)
    ensures match RosterAt(s, c, HeadsAt(s, c.recordDay))
            case None => !MayFreeze(s, c)
            case Some(m) => MayFreeze(s, c) && RosterRight(s, c, m.legalName, m.members)
  {
    hide S.LogsOk, IsBoundary, InOrder, Exits, Ro.TargetIn, Ro.RowsOf, RosterReads, HeadsAt, BoundaryOf;
    var b := BoundaryOf(s, HeadsAt(s, c.recordDay), c.recordDay);
    BoundaryIs(s, c.recordDay);
    TargetMeans(b, c.groupId, c.targetDeploymentId, c.claimActionId);
    var k := NameMeans(s.audits, c.targetDeploymentId, c.claimActionId, c.groupId);
    if RosterAt(s, c, HeadsAt(s, c.recordDay)).Some? {
      assert Named(s, c, RosterAt(s, c, HeadsAt(s, c.recordDay)).value.legalName);
      assert Exits(b, c.groupId, c.targetDeploymentId, c.claimActionId);
      Ro.RosterExact(b, s.audits, c.targetDeploymentId, c.claimActionId, c.groupId);
      MembersRead(b, c.groupId, RosterAt(s, c, HeadsAt(s, c.recordDay)).value.members);
    } else if MayFreeze(s, c) {
      var a :| IsBoundary(s, c.recordDay, a) && Exits(a, c.groupId, c.targetDeploymentId, c.claimActionId);
      OneBoundary(s, c.recordDay, a, b);
    }
  }

  // ---------------------------------------------------------------- the record

  /** The index counts the events before `end`, and the hash is that of the last of them. */
  ghost predicate HeadAt<X>(log: seq<DL.Dated<X>>, end: int, index: int, hash: string) {
    && 0 <= index <= |log| && (forall i :: 0 <= i < |log| ==> (log[i].acceptedAt < end <==> i < index))
    && hash == if index == 0 then ZERO_HASH else log[index - 1].hash
  }

  ghost predicate HasCheckpoint(s: S.Sources, day: int) {
    exists k :: 0 <= k < |s.ledger.checkpoints| && s.ledger.checkpoints[k].content.checkpointDay == day
  }

  /** The record states the checkpoint of its day, and the Merkle Tree Hash over the entries of its tree. */
  ghost predicate PinsCheckpoint(w: World, s: S.Sources, x: ReviewContent, k: nat) {
    && k < |s.ledger.checkpoints|
    && var c := s.ledger.checkpoints[k];
       && c.content.checkpointDay == x.recordDay && x.checkpointHash == c.checkpointHash
       && x.ledgerHeadHash == c.content.ledgerHeadHash && x.throughLedgerIndex == c.content.throughLedgerIndex
       && x.merkleTreeSize == c.content.entryCount && 0 <= x.merkleTreeSize <= |s.ledger.entries|
       && x.merkleRootHash == D.Format(T.TreeHash(w.merkle, L.Leaves(s.ledger.entries), 0, x.merkleTreeSize))
  }

  ghost predicate Largest(b: seq<SettlementBoundary>, index: int) {
    && (forall i :: 0 <= i < |b| ==> b[i].ledgerIndex <= index)
    && if b == [] then index == 0 else exists i :: 0 <= i < |b| && b[i].ledgerIndex == index
  }

  /** What a frozen record says, and what it pins. */
  ghost predicate RecordReads(w: World, s: S.Sources, c: Claim, id: string, at: int, r: Record) {
    var x, end := r.content, (c.recordDay + 1) * 86400;
    && x.reviewId == id && x.recordDay == c.recordDay && x.targetDeploymentId == c.targetDeploymentId
    && x.claimActionId == c.claimActionId && x.groupId == c.groupId && x.frozenAt == at
    && x.scope == w.scope && x.registryKeyId == w.keyId && r.recordHash == Digest(w.g, ReviewMessage(x))
    && (exists k :: 0 <= k && PinsCheckpoint(w, s, x, k))
    && HeadAt(s.audits, end, x.throughAuditIndex, x.auditHeadHash)
    && HeadAt(s.claimReviews, end, x.throughReviewIndex, x.claimReviewHeadHash)
    && HeadAt(s.eligibilities, end, x.throughEligibilityIndex, x.eligibilityHeadHash)
    && RosterRight(s, c, x.legalName, r.members) && x.deploymentCount == |r.members|
    && x.membershipHash == Digest(w.g, MembersMessage(r.members))
    && SB.ReadsBoundary(s.settlements, x.throughLedgerIndex, r.settlements)
    && x.settlementBoundaryCount == |r.settlements| && Largest(r.settlements, x.throughSettlementLedgerIndex)
    && x.settlementBoundaryHash == Digest(w.g, BoundariesMessage(r.settlements))
  }

  lemma HeadMeans<X>(log: seq<DL.Dated<X>>, end: int)
    requires DL.Ordered(log)
    ensures var head := DL.HeadBefore(log, end); HeadAt(log, end, DL.IndexOf(head), HashOfHead(head))
  {
    DL.HeadCounts(log, end);
  }

  lemma {:induction false} LargestMeans(b: seq<SettlementBoundary>)
    requires forall i :: 0 <= i < |b| ==> b[i].ledgerIndex >= 1
    ensures Largest(b, SB.LastIndex(b))
  {
    if b != [] {
      var n := |b| - 1;
      LargestMeans(b[..n]);
      assert b == b[..n] + [b[n]];
      if b[n].ledgerIndex <= SB.LastIndex(b[..n]) {
        var i :| 0 <= i < n && b[..n][i].ledgerIndex == SB.LastIndex(b[..n]);
        assert b[i].ledgerIndex == SB.LastIndex(b);
      }
    }
  }

  lemma {:induction false} NoneOn(checkpoints: seq<L.Checkpoint>, day: int)
    requires S.CheckpointOn(checkpoints, day).None?
    ensures forall k :: 0 <= k < |checkpoints| ==> checkpoints[k].content.checkpointDay != day
  {
    if checkpoints != [] {
      NoneOn(checkpoints[1..], day);
      assert forall k :: 1 <= k < |checkpoints| ==> checkpoints[k] == checkpoints[1..][k - 1];
    }
  }

  /** A day has a view exactly if it has a checkpoint, which the view states with the Merkle Tree Hash. */
  lemma ViewMeans(w: World, s: S.Sources, day: int) returns (k: nat)
    requires S.Sound(SettingOf(w), s)
    ensures var v := S.ViewOf(SettingOf(w), s, day);
            if HasCheckpoint(s, day) then
              && v.View? && k < |s.ledger.checkpoints| && v.checkpoint == s.ledger.checkpoints[k]
              && v.checkpoint.content.checkpointDay == day
              && v.settlements == SB.Boundaries(s.settlements, v.checkpoint.content.throughLedgerIndex)
              && 0 <= v.checkpoint.content.entryCount <= |s.ledger.entries|
              && v.rootHash == D.Format(T.TreeHash(w.merkle, L.Leaves(s.ledger.entries), 0,
                                                   v.checkpoint.content.entryCount))
            else v.NoCheckpoint?
  {
    k := 0;
    var t, r := s.ledger, SettingOf(w).registry;
    if S.CheckpointOn(t.checkpoints, day).None? {
      NoneOn(t.checkpoints, day);
    } else {
      k := S.CheckpointIn(t.checkpoints, day);
      S.CheckpointBounded(r, t, day);
      if t.checkpoints[k].content.entryCount > 0 {
        M.RangeRootIsTrue(r.merkle, L.Leaves(t.entries), t.nodes, 0, t.checkpoints[k].content.entryCount);
      }
    }
  }

  lemma SettlementsRead(w: World, s: S.Sources, through: int)
    requires S.RowsOk(SettingOf(w), s)
    ensures var b := SB.Boundaries(s.settlements, through);
            SB.ReadsBoundary(s.settlements, through, b) && Largest(b, SB.LastIndex(b))
  {
    S.IdsFromRows(SettingOf(w), s);
    SB.BoundaryReads(s.settlements, through);
    var b := SB.Boundaries(s.settlements, through);
    forall i | 0 <= i < |b|
      ensures b[i].ledgerIndex >= 1
    {
      SB.BoundaryRow(s.settlements, through, i);
    }
    LargestMeans(b);
  }

  /** A record is computed exactly for a finalized day and a claim that may be frozen at its end. */
  lemma RecordAnswers(w: World, s: S.Sources, c: Claim, id: string, at: int)
    requires S.Sound(SettingOf(w), s)
    ensures RecordOf(w, s, c, id, at).Ok? <==> HasCheckpoint(s, c.recordDay) && MayFreeze(s, c)
    ensures match RecordOf(w, s, c, id, at)
            case Ok(r) => RecordReads(w, s, c, id, at, r)
            case Err(e) => e == if HasCheckpoint(s, c.recordDay) then ClaimBoundary else NotFound
  {
    hide S.LogsOk, S.RowsOk, LS.Sound, RosterAt, MayFreeze, RosterRight, Largest, SB.ReadsBoundary, S.ViewOf;
    var k := ViewMeans(w, s, c.recordDay);
    RosterAnswers(s, c);
    HeadsMeans(s, L.EndOf(c.recordDay));
    var v := S.ViewOf(SettingOf(w), s, c.recordDay);
    if RecordOf(w, s, c, id, at).Ok? {
      SettlementsRead(w, s, v.checkpoint.content.throughLedgerIndex);
      assert PinsCheckpoint(w, s, RecordOf(w, s, c, id, at).value.content, k);
    }
  }

  lemma HeadsMeans(s: S.Sources, end: int)
    requires S.LogsOk(s)
    ensures HeadAt(s.audits, end, DL.IndexOf(DL.HeadBefore(s.audits, end)), HashOfHead(DL.HeadBefore(s.audits, end)))
    ensures HeadAt(s.claimReviews, end, DL.IndexOf(DL.HeadBefore(s.claimReviews, end)),
                   HashOfHead(DL.HeadBefore(s.claimReviews, end)))
    ensures HeadAt(s.eligibilities, end, DL.IndexOf(DL.HeadBefore(s.eligibilities, end)),
                   HashOfHead(DL.HeadBefore(s.eligibilities, end)))
  {
    HeadMeans(s.audits, end);
    HeadMeans(s.claimReviews, end);
    HeadMeans(s.eligibilities, end);
  }

  // ---------------------------------------------------------------- the log

  /** Event `k` is the first one under the key. */
  ghost predicate FirstUnder(events: seq<Event>, key: string, k: nat) {
    && k < |events| && events[k].content.idempotencyKey == key
    && forall j :: 0 <= j < k ==> events[j].content.idempotencyKey != key
  }

  ghost predicate KeyUsed(events: seq<Event>, key: string) {
    exists k :: 0 <= k < |events| && events[k].content.idempotencyKey == key
  }

  /** Event `k` is the last one of the review. */
  ghost predicate LastOf(events: seq<Event>, id: string, k: nat) {
    && k < |events| && events[k].content.reviewId == id
    && forall j :: k < j < |events| ==> events[j].content.reviewId != id
  }

  /** The last event of the review, if any, has this hash. */
  ghost predicate FollowsOn(events: seq<Event>, id: string, hash: string) {
    if forall k :: 0 <= k < |events| ==> events[k].content.reviewId != id then hash == ZERO_HASH
    else exists k :: 0 <= k < |events| && LastOf(events, id, k) && events[k].eventHash == hash
  }

  ghost predicate Later(events: seq<Event>, at: int) {
    exists k :: 0 <= k < |events| && at < events[k].content.acceptedAt
  }

  lemma {:induction false} KeyMeans(events: seq<Event>, key: string) returns (k: nat)
    ensures match FindByKey(events, key)
            case None => !KeyUsed(events, key)
            case Some(e) => KeyUsed(events, key) && FirstUnder(events, key, k) && events[k] == e
  {
    k := 0;
    if events != [] && events[0].content.idempotencyKey != key {
      k := KeyMeans(events[1..], key);
      assert forall j :: 1 <= j < |events| ==> events[j] == events[1..][j - 1];
      k := k + 1;
    }
  }

  lemma {:induction false} LastMeans(events: seq<Event>, id: string) returns (k: nat)
    ensures match Last(events, id)
            case None => forall j :: 0 <= j < |events| ==> events[j].content.reviewId != id
            case Some(e) => LastOf(events, id, k) && events[k] == e
  {
    k := 0;
    if events != [] {
      var n := |events| - 1;
      k := n;
      if events[n].content.reviewId != id {
        k := LastMeans(events[..n], id);
      }
    }
  }

  lemma {:induction false} TimesOrdered(w: World, t: Tables, i: nat, j: nat)
    requires LogReplays(w, t) && i <= j < |t.events|
    ensures t.events[i].content.acceptedAt <= t.events[j].content.acceptedAt
    decreases j
  {
    if i < j {
      assert EventVerifies(w, t, j);
      TimesOrdered(w, t, i, j - 1);
    }
  }

  lemma ClockMeans(w: World, t: Tables, at: int)
    requires LogReplays(w, t)
    ensures ClockGuard(w, t, at) == if at < w.createdAt then Some(AcceptedAtBeforeIdentity)
                                    else if Later(t.events, at) then Some(ClockBeforeHead) else None
  {
    var n := |t.events|;
    forall i | 0 <= i < n
      ensures t.events[i].content.acceptedAt <= t.events[n - 1].content.acceptedAt
    {
      TimesOrdered(w, t, i, n - 1);
    }
  }

  /** The event is numbered, chained, sealed and signed behind the events before it, for this record. */
  ghost predicate ContinuesLog(w: World, before: seq<Event>, r: Record, e: Event) {
    var c := e.content;
    && c.eventIndex == |before| + 1 && c.scope == w.scope && c.registryKeyId == w.keyId
    && c.recordHash == r.recordHash
    && c.previousEventHash == (if before == [] then ZERO_HASH else before[|before| - 1].eventHash)
    && c.payloadHash == Digest(w.g, ReviewPayloadMessage(
                          ReviewPayload(c.reviewId, c.action, c.status, c.effectiveDay, c.actorRole, c.actorId,
                                        c.reference, c.evidenceHash, c.reasonCode, c.recordHash)))
    && e.eventHash == Digest(w.g, ReviewEventMessage(c))
    && e.signature == if e.eventHash in w.sign then w.sign[e.eventHash] else ""
  }

  /** The query row copies the event and its record. */
  predicate RowCopies(row: StateRow, r: Record, e: Event) {
    var c, x := e.content, r.content;
    && row.eventIndex == c.eventIndex && row.eventHash == e.eventHash && row.reviewId == x.reviewId
    && row.status == c.status && row.action == c.action && row.effectiveDay == c.effectiveDay
    && row.actorRole == c.actorRole && row.actorId == c.actorId && row.reference == c.reference
    && row.evidenceHash == c.evidenceHash && row.reasonCode == c.reasonCode && row.acceptedAt == c.acceptedAt
    && row.recordDay == x.recordDay && row.targetDeploymentId == x.targetDeploymentId
    && row.claimActionId == x.claimActionId && row.groupId == x.groupId && row.legalName == x.legalName
    && row.recordHash == r.recordHash
  }

  /** The texts of the event satisfy their patterns. */
  predicate WellFormed(w: World, c: ReviewEventContent) {
    Fields(c.eventId, c.reviewId, c.evidenceHash, c.actorId, c.reference, c.idempotencyKey) in w.wellFormed
  }

  /** Another event has the event's ID or hash. */
  ghost predicate EventTaken(events: seq<Event>, e: Event) {
    exists k :: 0 <= k < |events| && (events[k].content.eventId == e.content.eventId
                                      || events[k].eventHash == e.eventHash)
  }

  ghost predicate RecordTaken(t: Tables, id: string, hash: string) {
    id in t.records || exists other :: other in t.records && t.records[other].recordHash == hash
  }

  /** One event and one row more, and the record of the event. */
  ghost predicate Adds(t: Tables, m: Mutation) {
    var r, e := m.review.record, m.event;
    && RowCopies(m.review.state, r, e)
    && m.tables == Tables(t.sources, t.records[r.content.reviewId := r], t.events + [e], t.states + [m.review.state])
  }

  /** The first event under the key again, with its review as it stands; nothing is written. */
  ghost predicate FindsAgain(t: Tables, key: string, m: Mutation) {
    && m.tables == t && m.event.content.reviewId in t.records
    && m.review.record == t.records[m.event.content.reviewId]
    && (exists k :: 0 <= k < |t.events| && FirstUnder(t.events, key, k) && t.events[k] == m.event)
    && exists k :: 0 <= k < |t.events| && LastOf(t.events, m.event.content.reviewId, k)
                   && RowCopies(m.review.state, m.review.record, t.events[k])
  }

  // ---------------------------------------------------------------- freezing

  /** Why a freeze under a new key is refused before its record is built, if it is. */
  ghost predicate FreezeBlockedAs(w: World, t: Tables, i: FreezeInput, x: Error) {
    if i.acceptedAt < w.createdAt then x == AcceptedAtBeforeIdentity
    else if Later(t.events, i.acceptedAt) then x == ClockBeforeHead
    else if exists id :: id in t.records && OfClaim(t.records[id], i.claim) then x == AlreadyFrozen
    else if !HasCheckpoint(t.sources, i.claim.recordDay) then x == NotFound
    else !MayFreeze(t.sources, i.claim) && x == ClaimBoundary
  }

  predicate OfClaim(r: Record, c: Claim) {
    r.content.targetDeploymentId == c.targetDeploymentId && r.content.claimActionId == c.claimActionId
  }

  /** The record and the event that a freeze writes. */
  ghost predicate FreezeReads(w: World, t: Tables, i: FreezeInput, r: Record, e: Event) {
    var c := e.content;
    && RecordReads(w, t.sources, i.claim, i.candidateReviewId, i.acceptedAt, r) && ContinuesLog(w, t.events, r, e)
    && c.eventId == i.candidateEventId && c.reviewId == i.candidateReviewId && c.action == Freeze && c.status == Pending
    && c.effectiveDay == i.claim.recordDay && c.actorRole == i.actorRole && c.actorId == i.actorId
    && c.reference == i.reference && c.evidenceHash == i.evidenceHash && c.reasonCode == ""
    && c.idempotencyKey == i.idempotencyKey && c.acceptedAt == i.acceptedAt && c.previousReviewEventHash == ZERO_HASH
  }

  ghost predicate FreezeFails(w: World, t: Tables, r: Record, e: Event, x: Error) {
    if !WellFormed(w, e.content) || r.content !in w.recordsWellFormed then x == InvalidField
    else (RecordTaken(t, r.content.reviewId, r.recordHash) || EventTaken(t.events, e)) && x == UniqueViolation
  }

  /** The event and its record are what this freeze asks for. */
  predicate AsksFreeze(i: FreezeInput, c: ReviewEventContent, x: ReviewContent) {
    && c.action == Freeze && c.actorRole == i.actorRole && c.actorId == i.actorId && c.reference == i.reference
    && c.evidenceHash == i.evidenceHash && x.recordDay == i.claim.recordDay && x.groupId == i.claim.groupId
    && x.targetDeploymentId == i.claim.targetDeploymentId && x.claimActionId == i.claim.claimActionId
  }

  ghost predicate FreezeRepeatAnswer(t: Tables, i: FreezeInput, k: nat, result: Result<Mutation>) {
    && FirstUnder(t.events, i.idempotencyKey, k) && t.events[k].content.reviewId in t.records
    && if AsksFreeze(i, t.events[k].content, t.records[t.events[k].content.reviewId].content) then
         result.Ok? && result.value.duplicate && FindsAgain(t, i.idempotencyKey, result.value)
       else result == Err(IdempotencyConflict)
  }

  /** The answer to a freeze. */
  ghost predicate FreezeAnswer(w: World, t: Tables, i: FreezeInput, result: Result<Mutation>) {
    if KeyUsed(t.events, i.idempotencyKey) then exists k :: 0 <= k && FreezeRepeatAnswer(t, i, k, result)
    else if result.Err? then
      || FreezeBlockedAs(w, t, i, result.error)
      || ((forall x :: !FreezeBlockedAs(w, t, i, x))
          && exists r, e :: FreezeReads(w, t, i, r, e) && FreezeFails(w, t, r, e, result.error))
    else
      var m := result.value;
      && (forall x :: !FreezeBlockedAs(w, t, i, x) && !FreezeFails(w, t, m.review.record, m.event, x))
      && !m.duplicate && FreezeReads(w, t, i, m.review.record, m.event) && Adds(t, m)
  }

  lemma FoundAgain(w: World, t: Tables, key: string, m: Mutation)
    requires LogOk(w, t) && m.tables == t && FindByKey(t.events, key) == Some(m.event)
    requires ReviewById(t, m.event.content.reviewId) == Some(m.review)
    ensures FindsAgain(t, key, m)
  {
    var k := KeyMeans(t.events, key);
    var j := LastMeans(t.events, m.event.content.reviewId);
    Readable(w, t, m.event.content.reviewId);
    assert LastOf(t.events, m.event.content.reviewId, j) && RowCopies(m.review.state, m.review.record, t.events[j]);
  }

  lemma Recorded(w: World, t: Tables, k: nat)
    requires LogOk(w, t) && k < |t.events|
    ensures t.events[k].content.reviewId in t.records && ReviewById(t, t.events[k].content.reviewId).Some?
    ensures t.records[t.events[k].content.reviewId].content.reviewId == t.events[k].content.reviewId
    ensures ReviewById(t, t.events[k].content.reviewId).value.record == t.records[t.events[k].content.reviewId]
  {
    assert EventVerifies(w, t, k);
    Readable(w, t, t.events[k].content.reviewId);
  }

  lemma SameFreezeMeans(i: FreezeInput, e: Event, r: Record)
    ensures SameFreeze(i, e, r) <==> AsksFreeze(i, e.content, r.content)
  {
  }

  lemma FreezeRepeatAnswers(w: World, t: Tables, i: FreezeInput)
    requires LogOk(w, t) && KeyUsed(t.events, i.idempotencyKey)
    ensures FreezeAnswer(w, t, i, Freezing(w, t, i))
  {
    hide LogReplays, Projected, SameFreeze, AsksFreeze;
    var k := KeyMeans(t.events, i.idempotencyKey);
    Recorded(w, t, k);
    SameFreezeMeans(i, t.events[k], t.records[t.events[k].content.reviewId]);
    if Freezing(w, t, i).Ok? {
      FoundAgain(w, t, i.idempotencyKey, Freezing(w, t, i).value);
    }
    assert FreezeRepeatAnswer(t, i, k, Freezing(w, t, i));
  }

  /** The event of a freeze, behind the log. */
  lemma FreezeEventReads(w: World, t: Tables, r: Record, i: FreezeInput)
    requires LogOk(w, t) && RecordReads(w, t.sources, i.claim, i.candidateReviewId, i.acceptedAt, r)
    ensures FreezeReads(w, t, i, r, SealedEvent(w, FreezeContent(w, t, r, i)))
  {
    hide LogReplays, Projected;
    HeadIsLength(w, t);
  }

  lemma BlockedMeans(w: World, t: Tables, i: FreezeInput)
    requires Sound(w, t)
    ensures match ClockGuard(w, t, i.acceptedAt)
            case Some(x) => FreezeBlockedAs(w, t, i, x)
            case None =>
              if !ClaimFree(t, i.claim) then FreezeBlockedAs(w, t, i, AlreadyFrozen)
              else
                match RecordOf(w, t.sources, i.claim, i.candidateReviewId, i.acceptedAt)
                case Err(x) => FreezeBlockedAs(w, t, i, x)
                case Ok(r) =>
                  && (forall x :: !FreezeBlockedAs(w, t, i, x))
                  && RecordReads(w, t.sources, i.claim, i.candidateReviewId, i.acceptedAt, r)
  {
    hide S.Sound, LogReplays, Projected, AllAnchored, RecordOf, RecordReads, HasCheckpoint, MayFreeze;
    ClockMeans(w, t, i.acceptedAt);
    RecordAnswers(w, t.sources, i.claim, i.candidateReviewId, i.acceptedAt);
  }

  /** What `FreezeExitReview` answers to any request, in every sound state. */
  lemma FreezeAnswers(w: World, t: Tables, i: FreezeInput)
    requires Sound(w, t)
    ensures FreezeAnswer(w, t, i, Freezing(w, t, i))
  {
    hide S.Sound, LogReplays, Projected, AllAnchored, RecordOf, RecordReads, FreezeBlockedAs, ClockGuard, ClaimFree,
         FreezeRepeatAnswer, ContinuesLog, FreezeReads;
    var k := KeyMeans(t.events, i.idempotencyKey);
    if KeyUsed(t.events, i.idempotencyKey) {
      FreezeRepeatAnswers(w, t, i);
    } else {
      BlockedMeans(w, t, i);
      if ClockGuard(w, t, i.acceptedAt).None? && ClaimFree(t, i.claim)
         && RecordOf(w, t.sources, i.claim, i.candidateReviewId, i.acceptedAt).Ok? {
        var r := RecordOf(w, t.sources, i.claim, i.candidateReviewId, i.acceptedAt).value;
        FreezeEventReads(w, t, r, i);
        FreezeWritesOrFails(w, t, i, r);
      }
    }
  }

  lemma FreezeWritesOrFails(w: World, t: Tables, i: FreezeInput, r: Record)
    requires FindByKey(t.events, i.idempotencyKey).None? && !KeyUsed(t.events, i.idempotencyKey)
    requires ClockGuard(w, t, i.acceptedAt).None? && ClaimFree(t, i.claim)
    requires RecordOf(w, t.sources, i.claim, i.candidateReviewId, i.acceptedAt) == Ok(r)
    requires FreezeReads(w, t, i, r, SealedEvent(w, FreezeContent(w, t, r, i)))
    ensures var e := SealedEvent(w, FreezeContent(w, t, r, i));
            match Freezing(w, t, i)
            case Err(x) => FreezeFails(w, t, r, e, x)
            case Ok(m) =>
              && m.event == e && m.review.record == r && !m.duplicate && Adds(t, m)
              && forall x :: !FreezeFails(w, t, r, e, x)
  {
    hide RecordOf, RecordReads, ContinuesLog;
  }

  /** An approving review of the claim was accepted before this time. */
  ghost predicate ApprovedBefore(s: S.Sources, claim: string, end: int) {
    exists j :: 0 <= j < |s.claimReviews| && Judges(s.claimReviews[j], claim, true)
                && s.claimReviews[j].acceptedAt < end
  }

  /** Decision `j` on the claim's eligibility is the last one that was accepted before this time. */
  ghost predicate LastBefore(s: S.Sources, claim: string, end: int, j: nat) {
    && j < |s.eligibilities| && DecidesBefore(s.eligibilities[j], claim, end)
    && forall i :: j < i < |s.eligibilities| ==> !DecidesBefore(s.eligibilities[i], claim, end)
  }

  predicate DecidesBefore(e: C.Eligibility, claim: string, end: int) {
    e.fact.claimActionId == claim && e.acceptedAt < end
  }

  lemma ExitsApproved(s: S.Sources, c: Claim, b: Ro.Boundary)
    requires S.LogsOk(s) && IsBoundary(s, c.recordDay, b) && Exits(b, c.groupId, c.targetDeploymentId, c.claimActionId)
    ensures ApprovedBefore(s, c.claimActionId, (c.recordDay + 1) * 86400)
    ensures forall j :: 0 <= j && LastBefore(s, c.claimActionId, (c.recordDay + 1) * 86400, j) ==>
              !s.eligibilities[j].fact.suspended
  {
    hide O.Ok, S.RowsLinked, C.ReviewsOk, C.EligibilitiesOk, DL.Ordered, Moved, MovedTo, PutInto, IsActive, ClaimStands;
    var claim, end := c.claimActionId, (c.recordDay + 1) * 86400;
    var k :| 0 <= k < |b.audits| && InBy(b, c.groupId, c.targetDeploymentId, k) && b.audits[k].fact.actionId == claim
             && MayExit(b, b.audits[k].fact.claimState, claim);
    assert b.audits[k] == s.audits[k] && C.AuditAllowed(s.audits[..k], s.audits[k].fact);
    var r :| 0 <= r < |b.reviews| && Judges(b.reviews[r], claim, true);
    assert b.reviews[r] == s.claimReviews[r];
    forall j | 0 <= j && LastBefore(s, claim, end, j)
      ensures !s.eligibilities[j].fact.suspended
    {
      assert j < |b.eligibilities| && b.eligibilities[j] == s.eligibilities[j];
      assert C.LastDecision(b.eligibilities, claim, j);
    }
  }

  /**
    A claim is frozen only if a review of it that was accepted before the end of the day approves it, and the
    last decision on its eligibility from before that end, if there is one, does not suspend it.
  */
  lemma FreezeNeedsApproval(w: World, t: Tables, i: FreezeInput)
    requires Sound(w, t) && Freezing(w, t, i).Ok? && !Freezing(w, t, i).value.duplicate
    ensures ApprovedBefore(t.sources, i.claim.claimActionId, (i.claim.recordDay + 1) * 86400)
    ensures forall j :: 0 <= j && LastBefore(t.sources, i.claim.claimActionId, (i.claim.recordDay + 1) * 86400, j) ==>
              !t.sources.eligibilities[j].fact.suspended
  {
    hide Sound, Freezing, MayFreeze, ApprovedBefore, LastBefore;
    FreezeMay(w, t, i);
    LogsOf(w, t);
    MayMeans(t.sources, i.claim);
  }

  lemma FreezeMay(w: World, t: Tables, i: FreezeInput)
    requires Sound(w, t) && Freezing(w, t, i).Ok? && !Freezing(w, t, i).value.duplicate
    ensures MayFreeze(t.sources, i.claim)
  {
    hide S.Sound, LogOk, AllAnchored, Freezing, MayFreeze, RecordOf, RecordReads, HasCheckpoint;
    FreezeWrites(w, t, i);
    RecordAnswers(w, t.sources, i.claim, i.candidateReviewId, i.acceptedAt);
  }

  lemma MayMeans(s: S.Sources, c: Claim)
    requires S.LogsOk(s) && MayFreeze(s, c)
    ensures ApprovedBefore(s, c.claimActionId, (c.recordDay + 1) * 86400)
    ensures forall j :: 0 <= j && LastBefore(s, c.claimActionId, (c.recordDay + 1) * 86400, j) ==>
              !s.eligibilities[j].fact.suspended
  {
    hide S.LogsOk, IsBoundary, Exits, ApprovedBefore, LastBefore;
    var b :| IsBoundary(s, c.recordDay, b) && Exits(b, c.groupId, c.targetDeploymentId, c.claimActionId);
    ExitsApproved(s, c, b);
  }

  lemma LogsOf(w: World, t: Tables)
    requires Sound(w, t)
    ensures S.LogsOk(t.sources)
  {
  }

  // ---------------------------------------------------------------- deciding

  /** Freezes and verifications give no reason; every other decision gives a code of letters, digits and hyphens. */
  ghost predicate ReasonRight(action: ReviewAction, reason: string) {
    if action == Freeze || action == Verify then reason == ""
    else
      && 3 <= |reason| <= 64 && reason[0] in TO.LOWER
      && forall k :: 0 <= k < |reason| ==> reason[k] in TO.LOWER || reason[k] in TO.DIGITS || reason[k] == '-'
  }

  lemma ReasonMeans(action: ReviewAction, reason: string)
    ensures ReasonRule(action, reason) <==> ReasonRight(action, reason)
  {
    forall k | 0 <= k < |reason|
      ensures 'a' <= reason[k] <= 'z' <==> reason[k] in TO.LOWER
      ensures '0' <= reason[k] <= '9' <==> reason[k] in TO.DIGITS
    {
      TO.IsLower(reason[k]);
      TO.IsDigit(reason[k]);
    }
  }

  /** From this status the action leads to that one. */
  predicate Leads(from: ReviewStatus, action: ReviewAction, to: ReviewStatus) {
    || (from in {Pending, Disputed} && (action, to) in {(Verify, Eligible), (Reject, Rejected), (Withdraw, Withdrawn)})
    || (from in {Eligible, Rejected} && (action, to) in {(Dispute, Disputed), (Withdraw, Withdrawn)})
  }

  ghost predicate NotDue(t: Tables, i: DecisionInput, k: nat)
    requires k < |t.events| && i.reviewId in t.records
  {
    || !Leads(t.events[k].content.status, i.action, i.status)
    || i.effectiveDay < t.records[i.reviewId].content.recordDay || i.effectiveDay < t.events[k].content.effectiveDay
  }

  /** Why a decision under a new key is refused before its event is built, if it is; its review stands at event `k`. */
  ghost predicate DecisionBlockedAs(w: World, t: Tables, i: DecisionInput, k: nat, x: Error)
    requires k < |t.events| && i.reviewId in t.records
  {
    if NotDue(t, i, k) then x == InvalidTransition
    else if i.acceptedAt < w.createdAt then x == AcceptedAtBeforeIdentity
    else if Later(t.events, i.acceptedAt) then x == ClockBeforeHead
    else
      && i.payloadHash != Digest(w.g, ReviewPayloadMessage(
                            ReviewPayload(i.reviewId, i.action, i.status, i.effectiveDay, i.actorRole, i.actorId,
                                          i.reference, i.evidenceHash, i.reasonCode,
                                          t.records[i.reviewId].recordHash)))
      && x == InconsistentState
  }

  /** The event that a decision writes on its review's record. */
  ghost predicate DecisionReads(w: World, t: Tables, i: DecisionInput, r: Record, e: Event) {
    var c := e.content;
    && ContinuesLog(w, t.events, r, e) && FollowsOn(t.events, i.reviewId, c.previousReviewEventHash)
    && c.eventId == i.candidateEventId && c.reviewId == i.reviewId && c.action == i.action && c.status == i.status
    && c.effectiveDay == i.effectiveDay && c.actorRole == i.actorRole && c.actorId == i.actorId
    && c.reference == i.reference && c.evidenceHash == i.evidenceHash && c.reasonCode == i.reasonCode
    && c.idempotencyKey == i.idempotencyKey && c.payloadHash == i.payloadHash && c.acceptedAt == i.acceptedAt
  }

  ghost predicate DecisionFails(w: World, t: Tables, e: Event, x: Error) {
    if !WellFormed(w, e.content) then x == InvalidField else EventTaken(t.events, e) && x == UniqueViolation
  }

  /** The event is the one that this decision asks for. */
  predicate AsksDecision(i: DecisionInput, c: ReviewEventContent) {
    && c.reviewId == i.reviewId && c.action == i.action && c.status == i.status && c.effectiveDay == i.effectiveDay
    && c.actorRole == i.actorRole && c.actorId == i.actorId && c.reference == i.reference
    && c.evidenceHash == i.evidenceHash && c.reasonCode == i.reasonCode && c.payloadHash == i.payloadHash
  }

  ghost predicate DecisionRepeatAnswer(t: Tables, i: DecisionInput, k: nat, result: Result<Mutation>) {
    && FirstUnder(t.events, i.idempotencyKey, k)
    && if AsksDecision(i, t.events[k].content) then
         result.Ok? && result.value.duplicate && FindsAgain(t, i.idempotencyKey, result.value)
       else result == Err(IdempotencyConflict)
  }

  /** The answer to a decision on a review that stands at event `k`. */
  ghost predicate DecisionAnswerAt(w: World, t: Tables, i: DecisionInput, k: nat, result: Result<Mutation>) {
    && LastOf(t.events, i.reviewId, k) && i.reviewId in t.records
    && match result
       case Err(x) =>
         || DecisionBlockedAs(w, t, i, k, x)
         || ((forall y :: !DecisionBlockedAs(w, t, i, k, y))
             && exists e :: DecisionReads(w, t, i, t.records[i.reviewId], e) && DecisionFails(w, t, e, x))
       case Ok(m) =>
         && (forall y :: !DecisionBlockedAs(w, t, i, k, y) && !DecisionFails(w, t, m.event, y))
         && !m.duplicate && m.review.record == t.records[i.reviewId]
         && DecisionReads(w, t, i, m.review.record, m.event) && Adds(t, m)
  }

  /** The answer to a decision. */
  ghost predicate DecisionAnswer(w: World, t: Tables, i: DecisionInput, result: Result<Mutation>) {
    if !ReasonRight(i.action, i.reasonCode) then result == Err(InvalidField)
    else if KeyUsed(t.events, i.idempotencyKey) then exists k :: 0 <= k && DecisionRepeatAnswer(t, i, k, result)
    else if i.reviewId !in t.records then result == Err(NotFound)
    else exists k :: 0 <= k && DecisionAnswerAt(w, t, i, k, result)
  }

  lemma LeadsMeans(from: ReviewStatus, action: ReviewAction, to: ReviewStatus)
    ensures ValidTransition(from, action, to) <==> Leads(from, action, to)
  {
  }

  lemma SameDecisionMeans(i: DecisionInput, e: Event)
    ensures SameDecision(i, e) <==> AsksDecision(i, e.content)
  {
  }

  lemma DecisionRepeatAnswers(w: World, t: Tables, i: DecisionInput)
    requires LogOk(w, t) && KeyUsed(t.events, i.idempotencyKey) && ReasonRule(i.action, i.reasonCode)
    ensures exists k :: 0 <= k && DecisionRepeatAnswer(t, i, k, Deciding(w, t, i))
  {
    hide LogReplays, Projected, SameDecision, AsksDecision;
    var k := KeyMeans(t.events, i.idempotencyKey);
    Recorded(w, t, k);
    SameDecisionMeans(i, t.events[k]);
    if Deciding(w, t, i).Ok? {
      FoundAgain(w, t, i.idempotencyKey, Deciding(w, t, i).value);
    }
    assert DecisionRepeatAnswer(t, i, k, Deciding(w, t, i));
  }

  lemma DecisionEventReads(w: World, t: Tables, v: Review, i: DecisionInput)
    requires LogOk(w, t) && i.reviewId in t.records && ReviewById(t, i.reviewId) == Some(v)
    requires var c := DecisionContent(w, t, v, i); c.payloadHash == Digest(w.g, ReviewPayloadMessage(PayloadOf(c)))
    ensures DecisionReads(w, t, i, t.records[i.reviewId], SealedEvent(w, DecisionContent(w, t, v, i)))
  {
    hide LogReplays, Projected;
    HeadIsLength(w, t);
    Readable(w, t, i.reviewId);
    FollowsMeans(t.events, i.reviewId, HashOf(Last(t.events, i.reviewId)));
  }

  lemma DecisionAnswersAt(w: World, t: Tables, i: DecisionInput, v: Review, k: nat)
    requires LogOk(w, t) && i.reviewId in t.records && ReviewById(t, i.reviewId) == Some(v)
    requires v.record == t.records[i.reviewId] && v.record.content.reviewId == i.reviewId
    requires LastOf(t.events, i.reviewId, k) && v.state == StateOf(v.record, t.events[k])
    requires !KeyUsed(t.events, i.idempotencyKey)
    ensures DecisionAnswerAt(w, t, i, k, DecidingOn(w, t, v, i))
  {
    hide LogReplays, Projected, DecisionReads, DecisionFails, Adds, KeyUsed, Leads, ValidTransition, ClockGuard, Later;
    ClockMeans(w, t, i.acceptedAt);
    LeadsMeans(v.state.status, i.action, i.status);
    var c := DecisionContent(w, t, v, i);
    if !NotDue(t, i, k) && ClockGuard(w, t, i.acceptedAt).None?
       && c.payloadHash == Digest(w.g, ReviewPayloadMessage(PayloadOf(c))) {
      DecisionEventReads(w, t, v, i);
      DecidesOrFails(w, t, i, v);
    }
  }

  lemma DecidesOrFails(w: World, t: Tables, i: DecisionInput, v: Review)
    requires !KeyUsed(t.events, i.idempotencyKey) && i.reviewId == v.record.content.reviewId
    requires ValidTransition(v.state.status, i.action, i.status) && ClockGuard(w, t, i.acceptedAt).None?
    requires v.record.content.recordDay <= i.effectiveDay && v.state.effectiveDay <= i.effectiveDay
    requires var c := DecisionContent(w, t, v, i); c.payloadHash == Digest(w.g, ReviewPayloadMessage(PayloadOf(c)))
    ensures var e := SealedEvent(w, DecisionContent(w, t, v, i));
            match DecidingOn(w, t, v, i)
            case Err(x) => DecisionFails(w, t, e, x)
            case Ok(m) =>
              && m.event == e && m.review.record == v.record && !m.duplicate && Adds(t, m)
              && forall x :: !DecisionFails(w, t, e, x)
  {
    hide ValidTransition, ClockGuard;
  }

  /** What `AppendExitReviewEvent` answers to any request, in every sound state. */
  lemma DecisionAnswers(w: World, t: Tables, i: DecisionInput)
    requires Sound(w, t)
    ensures DecisionAnswer(w, t, i, Deciding(w, t, i))
  {
    hide S.Sound, LogReplays, Projected, AllAnchored, DecidingOn, DecisionAnswerAt, DecisionRepeatAnswer, ReasonRule,
         ReasonRight;
    ReasonMeans(i.action, i.reasonCode);
    var k := KeyMeans(t.events, i.idempotencyKey);
    if ReasonRule(i.action, i.reasonCode) {
      if KeyUsed(t.events, i.idempotencyKey) {
        DecisionRepeatAnswers(w, t, i);
      } else if i.reviewId in t.records {
        Readable(w, t, i.reviewId);
        var j := LastMeans(t.events, i.reviewId);
        DecisionAnswersAt(w, t, i, ReviewById(t, i.reviewId).value, j);
      }
    }
  }

  // ---------------------------------------------------------------- what the replay accepts

  /** An event that is the first of its review freezes it; any other is led to from the one before it. */
  ghost predicate Due(before: seq<Event>, r: Record, c: ReviewEventContent) {
    if forall k :: 0 <= k < |before| ==> before[k].content.reviewId != c.reviewId then
      c.action == Freeze && c.status == Pending && c.effectiveDay == r.content.recordDay
    else
      && r.content.recordDay <= c.effectiveDay
      && exists k :: 0 <= k < |before| && LastOf(before, c.reviewId, k)
                     && Leads(before[k].content.status, c.action, c.status)
                     && before[k].content.effectiveDay <= c.effectiveDay
  }

  /** The first row with this index copies the event and its record. */
  ghost predicate RowAtCopies(states: seq<StateRow>, index: int, r: Record, e: Event) {
    exists k :: 0 <= k < |states| && states[k].eventIndex == index && RowCopies(states[k], r, e)
                && forall j :: 0 <= j < k ==> states[j].eventIndex != index
  }

  /** Event `i` is one that the writers write behind the events before it, with its query row. */
  ghost predicate WrittenAt(w: World, t: Tables, i: nat)
    requires i < |t.events|
  {
    var e, c, before := t.events[i], t.events[i].content, t.events[..i];
    && c.reviewId in t.records && ContinuesLog(w, before, t.records[c.reviewId], e)
    && FollowsOn(before, c.reviewId, c.previousReviewEventHash) && Due(before, t.records[c.reviewId], c)
    && ReasonRight(c.action, c.reasonCode) && WellFormed(w, c) && w.createdAt <= c.acceptedAt
    && (i > 0 ==> t.events[i - 1].content.acceptedAt <= c.acceptedAt)
    && RowAtCopies(t.states, i + 1, t.records[c.reviewId], e)
  }

  lemma {:induction false} StateAtMeans(states: seq<StateRow>, index: int, r: Record, e: Event)
    requires e.content.eventIndex == index
    ensures StateAt(states, index) == Some(StateOf(r, e)) <==> RowAtCopies(states, index, r, e)
  {
    if StateAt(states, index).Some? {
      var k := StateAtFirst(states, index);
      assert StateAt(states, index) == Some(StateOf(r, e)) <==> RowCopies(states[k], r, e);
      if RowAtCopies(states, index, r, e) {
        var j :| 0 <= j < |states| && states[j].eventIndex == index && RowCopies(states[j], r, e)
                 && forall i :: 0 <= i < j ==> states[i].eventIndex != index;
        assert j == k;
      }
    } else {
      StateAtNone(states, index);
    }
  }

  lemma {:induction false} StateAtNone(states: seq<StateRow>, index: int)
    requires StateAt(states, index).None?
    ensures forall k :: 0 <= k < |states| ==> states[k].eventIndex != index
  {
    if states != [] {
      StateAtNone(states[1..], index);
      assert forall k :: 1 <= k < |states| ==> states[k] == states[1..][k - 1];
    }
  }

  lemma {:induction false} StateAtFirst(states: seq<StateRow>, index: int) returns (k: nat)
    requires StateAt(states, index).Some?
    ensures k < |states| && states[k].eventIndex == index && StateAt(states, index) == Some(states[k])
    ensures forall j :: 0 <= j < k ==> states[j].eventIndex != index
  {
    if states[0].eventIndex == index {
      k := 0;
    } else {
      k := StateAtFirst(states[1..], index);
      assert forall j :: 1 <= j < |states| ==> states[j] == states[1..][j - 1];
      k := k + 1;
    }
  }

  lemma DueMeans(before: seq<Event>, r: Record, c: ReviewEventContent)
    ensures Due(before, r, c) && ReasonRight(c.action, c.reasonCode)
            <==> r.content.recordDay <= c.effectiveDay && Semantics(c, Last(before, c.reviewId), r.content.recordDay)
  {
    hide ReasonRule, ReasonRight, FollowsOn;
    ReasonMeans(c.action, c.reasonCode);
    var k := LastMeans(before, c.reviewId);
    if Last(before, c.reviewId).Some? {
      LeadsMeans(before[k].content.status, c.action, c.status);
      forall j | 0 <= j < |before| && LastOf(before, c.reviewId, j)
        ensures j == k
      {
      }
    }
  }

  lemma FollowsMeans(before: seq<Event>, id: string, hash: string)
    ensures FollowsOn(before, id, hash) <==> hash == HashOf(Last(before, id))
  {
    var k := LastMeans(before, id);
    if Last(before, id).Some? {
      forall j | 0 <= j < |before| && LastOf(before, id, j)
        ensures j == k
      {
      }
    }
  }

  /** The replay accepts exactly the events that the writers write behind the ones before them. */
  lemma ReplaysIffWritten(w: World, t: Tables, i: nat)
    requires i < |t.events|
    ensures EventVerifies(w, t, i) <==> WrittenAt(w, t, i)
  {
    hide Semantics, Due, FollowsOn, StateAt, RowAtCopies, ReasonRight;
    var e, c, before := t.events[i], t.events[i].content, t.events[..i];
    if c.reviewId in t.records {
      var r := t.records[c.reviewId];
      DueMeans(before, r, c);
      FollowsMeans(before, c.reviewId, c.previousReviewEventHash);
      ImmutableMeans(w, r, e, before);
      if c.eventIndex == i + 1 {
        StateAtMeans(t.states, i + 1, r, e);
      }
    }
  }

  lemma ImmutableMeans(w: World, r: Record, e: Event, before: seq<Event>)
    ensures Immutable(w, r, e, |before| + 1, HeadHash(before))
            <==> && ContinuesLog(w, before, r, e) && WellFormed(w, e.content)
                 && w.createdAt <= e.content.acceptedAt && r.content.recordDay <= e.content.effectiveDay
  {
  }

  /** An accepted record says what its sources say now. */
  lemma RecordSays(w: World, s: S.Sources, id: string, r: Record)
    requires S.Sound(SettingOf(w), s) && RecordVerifies(w, s, id, r)
    ensures RecordReads(w, s, ClaimOf(r), id, r.content.frozenAt, r) && r.content in w.recordsWellFormed
  {
    hide RecordReads, RecordOf, S.Sound;
    RecordAnswers(w, s, ClaimOf(r), id, r.content.frozenAt);
  }

  // ---------------------------------------------------------------- histories

  /** What was decided on a review, and how it stood after each decision. */
  function History(events: seq<Event>, id: string): seq<(ReviewAction, ReviewStatus)> {
    if events == [] then []
    else
      var rest, last := History(events[..|events| - 1], id), events[|events| - 1].content;
      if last.reviewId == id then rest + [(last.action, last.status)] else rest
  }

  /** A freeze, then verdicts and disputes in turn, verdicts first; and at the end, if at all, a withdrawal. */
  ghost predicate InTurn(h: seq<(ReviewAction, ReviewStatus)>) {
    && (h != [] ==> h[0] == (Freeze, Pending))
    && forall i :: 0 < i < |h| ==>
         || (i == |h| - 1 && h[i] == (Withdraw, Withdrawn))
         || h[i] in if i % 2 == 1 then {(Verify, Eligible), (Reject, Rejected)} else {(Dispute, Disputed)}
  }

  lemma {:induction false} HistoryEnds(events: seq<Event>, id: string)
    ensures var h, last := History(events, id), Last(events, id);
            if h == [] then last.None?
            else last.Some? && h[|h| - 1] == (last.value.content.action, last.value.content.status)
  {
    if events != [] && events[|events| - 1].content.reviewId != id {
      HistoryEnds(events[..|events| - 1], id);
    }
  }

  lemma TurnContinues(h: seq<(ReviewAction, ReviewStatus)>, x: (ReviewAction, ReviewStatus))
    requires InTurn(h)
    requires if h == [] then x == (Freeze, Pending) else Leads(h[|h| - 1].1, x.0, x.1)
    ensures InTurn(h + [x])
  {
  }

  lemma {:induction false} HistoriesInTurn(w: World, t: Tables, id: string, n: nat)
    requires LogReplays(w, t) && n <= |t.events|
    ensures InTurn(History(t.events[..n], id))
  {
    hide InTurn, Immutable, ReasonRule, Leads, ValidTransition;
    if n == 0 {
      assert InTurn([]) by { TurnEmpty(); }
    } else {
      var before, e := t.events[..n - 1], t.events[n - 1];
      assert t.events[..n][..n - 1] == before;
      HistoriesInTurn(w, t, id, n - 1);
      HistoryEnds(before, id);
      assert EventVerifies(w, t, n - 1);
      if e.content.reviewId == id {
        if Last(before, id).Some? {
          LeadsMeans(Last(before, id).value.content.status, e.content.action, e.content.status);
        }
        TurnContinues(History(before, id), (e.content.action, e.content.status));
      }
    }
  }

  lemma TurnEmpty()
    ensures InTurn([])
  {
  }

  /**
    In every accepted log, a review is frozen, then decided and disputed in turn; a withdrawal is its last
    event.
  */
  lemma ReviewHistories(w: World, t: Tables, id: string)
    requires LogReplays(w, t)
    ensures InTurn(History(t.events, id)) && (id in t.records <==> History(t.events, id) != [])
  {
    hide InTurn;
    assert t.events[..|t.events|] == t.events;
    HistoriesInTurn(w, t, id, |t.events|);
    HistoryEnds(t.events, id);
    if id !in t.records {
      NoEventWithoutRecord(w, t, id);
    }
  }

  /** No two records freeze one claim. */
  ghost predicate OnePerClaim(t: Tables) {
    forall a, b :: a in t.records && b in t.records && OfClaim(t.records[a], ClaimOf(t.records[b])) ==> a == b
  }

  lemma StepOnePerClaim(w: World, t: Tables, s: Step)
    requires Sound(w, t) && OnePerClaim(t)
    ensures OnePerClaim(Apply(w, t, s))
  {
    hide S.Apply, Deciding, Freezing, S.Sound, AllAnchored, LogReplays, Projected;
    match s
    case SourceStep(_) =>
    case TransferStep(_, _) =>
    case DecideStep(i) => if Deciding(w, t, i).Ok? { DecideFrame(w, t, i); }
    case FreezeStep(i) => if Freezing(w, t, i).Ok? { FreezeOnePerClaim(w, t, i); }
  }

  lemma FreezeOnePerClaim(w: World, t: Tables, i: FreezeInput)
    requires OnePerClaim(t) && Freezing(w, t, i).Ok?
    ensures OnePerClaim(Freezing(w, t, i).value.tables)
  {
    if Freezing(w, t, i).value.duplicate {
      FreezeRepeated(w, t, i);
    } else {
      FreezeWrites(w, t, i);
      FreezeMatches(w, t, i);
      FreezeClaims(w, t, i);
    }
  }

  lemma FreezeClaims(w: World, t: Tables, i: FreezeInput)
    requires Freezing(w, t, i).Ok? && !Freezing(w, t, i).value.duplicate
    ensures forall id :: id in t.records ==> !OfClaim(t.records[id], i.claim)
  {
  }

  /** In every run a claim is frozen at most once. */
  lemma {:induction false} ClaimsFrozenOnce(w: World, t: Tables, steps: seq<Step>)
    requires Sound(w, t) && OnePerClaim(t)
    ensures OnePerClaim(Run(w, t, steps))
    decreases |steps|
  {
    hide Sound, OnePerClaim, Apply;
    if steps != [] {
      StepOnePerClaim(w, t, steps[0]);
      StepSound(w, t, steps[0]);
      ClaimsFrozenOnce(w, Apply(w, t, steps[0]), steps[1..]);
    }
  }
}
