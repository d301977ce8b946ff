/**
  What a transfer event does to a frozen roster: nothing, unless it completes a transfer before the end of the
  record's day, out of the record's group or into it.
*/
module RosterMoves {
  import opened Basics
  import DL = DatedLogs
  import L = Ledger
  import O = OwnershipTransfers
  import S = ReviewSources
  import C = OperatorClaims
  import opened Rosters
  import opened ExitReview
  import opened FrozenRecords

  /** The event completes a transfer from or to the record's group, before the end of the record's day. */
  predicate Touches(r: Record, x: O.Record, e: O.Event) {
    && e.action == O.Complete && e.acceptedAt < L.EndOf(r.content.recordDay)
    && (r.content.groupId == x.sourceGroupId || r.content.groupId == x.targetGroupId)
  }

  // ---------------------------------------------------------------- a current claim has not been transferred

  lemma {:induction false} TransferForFinds(rows: seq<O.Membership>, d: string, claimActionId: string, k: nat)
    returns (j: nat)
    requires k < |rows| && rows[k].deploymentId == d && rows[k].claimActionId == claimActionId
    ensures k <= j < |rows| && S.TransferFor(rows, d, claimActionId) == Some(rows[j])
    ensures rows[j].deploymentId == d && rows[j].claimActionId == claimActionId
  {
    var n := |rows| - 1;
    if rows[n].deploymentId == d && rows[n].claimActionId == claimActionId {
      j := n;
    } else {
      j := TransferForFinds(rows[..n], d, claimActionId, k);
    }
  }

  lemma OneClaim(audits: seq<C.Audit>, i: nat, j: nat, claimActionId: string, group: string, other: string)
    requires C.AuditsOk(audits) && i < |audits| && j < |audits|
    requires S.ClaimMadeBy(audits[i], claimActionId, group) && S.ClaimMadeBy(audits[j], claimActionId, other)
    ensures group == other
  {
    C.ActionsUnique(audits);
  }

  /**
    While a claim is current in the group it was made in, no completed transfer applies to its deployment: it
    would have led to another group.
  */
  lemma CurrentUntransferred(s: S.Sources, d: string, claimActionId: string, group: string)
    requires S.LogsOk(s) && S.ClaimCurrent(s, d, claimActionId, group)
    ensures var n := C.NetworkOf(s.audits, d);
            && n.active && n.claimed && n.groupId == group
            && forall m :: m in s.transfers.memberships && m.deploymentId == d ==> !Applies(Some(m), n)
  {
    hide O.CompletionKept, O.CompletedIsLast, O.EventsOrdered, DL.Ordered, C.Approved, C.Suspended;
    var n, rows := C.NetworkOf(s.audits, d), s.transfers.memberships;
    var made := C.ClaimMade(s.audits, d);
    var last := S.TransferFor(rows, d, claimActionId);
    forall m | m in rows && m.deploymentId == d
      ensures !Applies(Some(m), n)
    {
      if Applies(Some(m), n) {
        var k :| 0 <= k < |rows| && rows[k] == m;
        var j := TransferForFinds(rows, d, claimActionId, k);
        assert O.RowKept(s.transfers, rows[j]) && S.RowLinked(s.audits, rows[j]);
        var i :| 0 <= i < |s.audits| && S.ClaimMadeBy(s.audits[i], rows[j].claimActionId, rows[j].sourceGroupId);
        OneClaim(s.audits, made, i, claimActionId, group, rows[j].sourceGroupId);
      }
    }
    if last.Some? {
      var j := TransferForIn(rows, d, claimActionId);
    }
  }

  lemma {:induction false} TransferForIn(rows: seq<O.Membership>, d: string, claimActionId: string) returns (j: nat)
    requires S.TransferFor(rows, d, claimActionId).Some?
    ensures j < |rows| && S.TransferFor(rows, d, claimActionId) == Some(rows[j])
    ensures rows[j].deploymentId == d && rows[j].claimActionId == claimActionId
  {
    var n := |rows| - 1;
    if rows[n].deploymentId == d && rows[n].claimActionId == claimActionId {
      j := n;
    } else {
      j := TransferForIn(rows[..n], d, claimActionId);
    }
  }

  lemma {:induction false} TransferOfIn(rows: seq<O.Membership>, d: string)
    requires TransferOf(rows, d).Some?
    ensures TransferOf(rows, d).value in rows && TransferOf(rows, d).value.deploymentId == d
  {
    if rows[|rows| - 1].deploymentId != d {
      TransferOfIn(rows[..|rows| - 1], d);
    }
  }

  /** So the deployment is in that group by any of the transfers that there are. */
  lemma CurrentIsThere(s: S.Sources, b: Boundary, d: string, claimActionId: string, group: string, other: string)
    requires S.LogsOk(s) && S.ClaimCurrent(s, d, claimActionId, group) && b.audits == s.audits
    requires forall m :: m in b.transfers ==> m in s.transfers.memberships
    ensures InGroup(b, other, d) <==> other == group
  {
    CurrentUntransferred(s, d, claimActionId, group);
    if TransferOf(b.transfers, d).Some? {
      TransferOfIn(b.transfers, d);
    }
  }

  // ---------------------------------------------------------------- one more completed transfer

  lemma TransferOfAppended(rows: seq<O.Membership>, m: O.Membership, d: string)
    ensures TransferOf(rows + [m], d) == if m.deploymentId == d then Some(m) else TransferOf(rows, d)
  {
    assert (rows + [m])[..|rows|] == rows;
  }

  /** A completion takes its deployment to the target group, and leaves all others where they are. */
  lemma CompletionMoves(s: S.Sources, b: Boundary, m: O.Membership, group: string, d: string)
    requires S.LogsOk(s) && b.audits == s.audits && m.throughAuditIndex == DL.HeadIndex(s.audits)
    requires S.ClaimCurrent(s, m.deploymentId, m.claimActionId, m.sourceGroupId)
    ensures InGroup(b.(transfers := b.transfers + [m]), group, d)
            <==> if d == m.deploymentId then group == m.targetGroupId else InGroup(b, group, d)
  {
    TransferOfAppended(b.transfers, m, d);
    CurrentUntransferred(s, m.deploymentId, m.claimActionId, m.sourceGroupId);
    C.NetworkBounded(s.audits, d);
  }

  /** A completion before the end of a quiet record's day comes after all audit events, which are all pinned. */
  lemma AllPinned(s: S.Sources, r: Record, at: int)
    requires S.LogsOk(s) && LogsQuiet(s, r) && S.AfterAudits(s, at) && at < L.EndOf(r.content.recordDay)
    requires 0 <= r.content.throughAuditIndex <= |s.audits|
    ensures BoundaryNow(s, r).audits == s.audits
  {
    var k := r.content.throughAuditIndex;
    DL.UptoIsPrefix(s.audits, k);
  }

  /** An event that does not complete a transfer before the end of the day leaves the boundary as it is. */
  lemma BoundaryKept(c: S.Setting, s: S.Sources, r: Record, x: O.Record, e: O.Event)
    requires S.LogsOk(s) && S.TransferAllowed(c, s, x, e)
    requires e.action != O.Complete || e.acceptedAt >= L.EndOf(r.content.recordDay)
    ensures BoundaryNow(S.Transferred(s, x, e), r) == BoundaryNow(s, r)
  {
    hide O.CompletionKept, O.CompletedIsLast, C.AuditsOk, S.RowsLinked, S.CompletionAllowed, DL.Ordered;
    var log, day, end := s.transfers, r.content.recordDay, L.EndOf(r.content.recordDay);
    var m := O.MembershipFor(x, e, DL.HeadIndex(s.audits));
    O.IndexAppended(log, c.registry.createdAt, x, e, end);
    O.IndexCounts(log.events, end);
    assert forall k :: 0 <= k < |log.memberships| ==> O.RowKept(log, log.memberships[k]);
    if e.action == O.Complete {
      O.RowsUptoAppended(log.memberships, m, O.IndexBefore(log.events, end), day);
    } else if e.acceptedAt < end {
      O.RowsUptoSame(log.memberships, |log.events|, e.eventIndex, day);
    }
  }

  /** A completion before the end of the day adds its row to the boundary. */
  lemma BoundaryMoved(c: S.Setting, s: S.Sources, r: Record, x: O.Record, e: O.Event)
    requires S.LogsOk(s) && S.TransferAllowed(c, s, x, e)
    requires e.action == O.Complete && e.acceptedAt < L.EndOf(r.content.recordDay)
    ensures var b := BoundaryNow(s, r);
            BoundaryNow(S.Transferred(s, x, e), r)
            == b.(transfers := b.transfers + [O.MembershipFor(x, e, DL.HeadIndex(s.audits))])
  {
    hide O.CompletionKept, O.CompletedIsLast, C.AuditsOk, S.RowsLinked, S.CompletionAllowed, DL.Ordered;
    var log, day, end := s.transfers, r.content.recordDay, L.EndOf(r.content.recordDay);
    var m := O.MembershipFor(x, e, DL.HeadIndex(s.audits));
    O.IndexAppended(log, c.registry.createdAt, x, e, end);
    assert forall k :: 0 <= k < |log.memberships| ==> O.RowKept(log, log.memberships[k]);
    O.RowsUptoAppended(log.memberships, m, e.eventIndex, day);
    O.RowsUptoSame(log.memberships, |log.events|, e.eventIndex, day);
  }

  /**
    An accepted transfer event takes a quiet record's roster away if and only if it touches the record, and
    never gives it back.
  */
  lemma TransferDisturbs(w: World, s: S.Sources, id: string, r: Record, x: O.Record, e: O.Event)
    requires S.LogsOk(s) && Anchored(w, s, id, r) && LogsQuiet(s, r) && S.TransferAllowed(SettingOf(w), s, x, e)
    ensures RosterStands(S.Transferred(s, x, e), r) <==> RosterStands(s, r) && !Touches(r, x, e)
  {
    if e.action != O.Complete || e.acceptedAt >= L.EndOf(r.content.recordDay) {
      BoundaryKept(SettingOf(w), s, r, x, e);
    } else {
      CompletionDisturbs(w, s, id, r, x, e);
    }
  }

  lemma CompletionDisturbs(w: World, s: S.Sources, id: string, r: Record, x: O.Record, e: O.Event)
    requires S.LogsOk(s) && Anchored(w, s, id, r) && LogsQuiet(s, r) && S.TransferAllowed(SettingOf(w), s, x, e)
    requires e.action == O.Complete && e.acceptedAt < L.EndOf(r.content.recordDay)
    ensures RosterStands(S.Transferred(s, x, e), r) <==> RosterStands(s, r) && !Touches(r, x, e)
  {
    hide C.AuditAllowed, S.TargetEligible, S.EligibleNow, O.CompletionKept, O.CompletedIsLast, LogsQuiet, Anchored,
         InGroup, BoundaryNow, ListsExactly, S.RowsLinked, O.RowsKept, O.EventsOrdered, C.AuditsOk, DL.Ordered;
    var d, group, now := x.targetDeploymentId, r.content.groupId, BoundaryNow(s, r);
    var m := O.MembershipFor(x, e, DL.HeadIndex(s.audits));
    var moved := now.(transfers := now.transfers + [m]);
    PinsBounded(w, s, id, r);
    AllPinned(s, r, e.acceptedAt);
    BoundaryMoved(SettingOf(w), s, r, x, e);
    ListsCurrent(w, s, id, r, d, x.claimActionId, x.sourceGroupId);
    forall y
      ensures y in GroupIn(moved, group) <==> if y == d then group == x.targetGroupId else y in GroupIn(now, group)
    {
      CompletionMoves(s, now, m, group, y);
    }
    OneMoves(r.members, GroupIn(now, group), GroupIn(moved, group), d, group == x.targetGroupId);
    assert x.transferId in s.transfers.records;
  }

  /** A deployment whose claim is current is listed, now and when the record was frozen, exactly by its own group. */
  lemma ListsCurrent(w: World, s: S.Sources, id: string, r: Record, d: string, claimActionId: string, group: string)
    requires S.LogsOk(s) && Anchored(w, s, id, r) && BoundaryNow(s, r).audits == s.audits
    requires S.ClaimCurrent(s, d, claimActionId, group)
    ensures Lists(r.members, d) <==> r.content.groupId == group
    ensures d in GroupIn(BoundaryNow(s, r), r.content.groupId) <==> r.content.groupId == group
  {
    hide S.LogsOk, S.ClaimCurrent, InGroup;
    var k :| FrozenAt(w, s, id, r, k);
    var c, now := ClaimOf(r), BoundaryNow(s, r);
    var b := FrozenRoster(w, s, id, r, k);
    RosterExact(b, s.audits, c.targetDeploymentId, c.claimActionId, c.groupId);
    CurrentIsThere(s, b, d, claimActionId, group, c.groupId);
    forall m | m in now.transfers
      ensures m in s.transfers.memberships
    {
      O.RowsUptoIn(s.transfers.memberships, O.IndexBefore(s.transfers.events, L.EndOf(c.recordDay)), c.recordDay, m);
    }
    CurrentIsThere(s, now, d, claimActionId, group, c.groupId);
    assert Lists(r.members, d) <==> d in GroupIn(b, c.groupId);
  }
}
