/**
  A frozen record and the tables it was computed from: what later transactions leave as it is, and exactly
  when the record is computed again.
*/
module FrozenRecords {
  import opened Basics
  import DL = DatedLogs
  import SB = SettlementBoundaries
  import L = Ledger
  import O = OwnershipTransfers
  import S = ReviewSources
  import C = OperatorClaims
  import Ro = Rosters
  import opened ExitReview

  /** The sources with the dated logs cut back to lengths that they had before. */
  datatype Cut = Cut(audits: nat, claimReviews: nat, eligibilities: nat, transfers: nat, memberships: nat)

  predicate Within(s: S.Sources, k: Cut) {
    && k.audits <= |s.audits| && k.claimReviews <= |s.claimReviews| && k.eligibilities <= |s.eligibilities|
    && k.transfers <= |s.transfers.events| && k.memberships <= |s.transfers.memberships|
  }

  function At(s: S.Sources, k: Cut): S.Sources
    requires Within(s, k)
  {
    s.(audits := s.audits[..k.audits], claimReviews := s.claimReviews[..k.claimReviews],
       eligibilities := s.eligibilities[..k.eligibilities],
       transfers := s.transfers.(events := s.transfers.events[..k.transfers],
                                 memberships := s.transfers.memberships[..k.memberships]))
  }

  function Whole(s: S.Sources): Cut {
    Cut(|s.audits|, |s.claimReviews|, |s.eligibilities|, |s.transfers.events|, |s.transfers.memberships|)
  }

  ghost predicate FrozenAt(w: World, s: S.Sources, id: string, r: Record, k: Cut) {
    Within(s, k) && RecordOf(w, At(s, k), ClaimOf(r), id, r.content.frozenAt) == Ok(r)
  }

  /** The record is what the sources gave at some time. */
  ghost predicate Anchored(w: World, s: S.Sources, id: string, r: Record) {
    r.content in w.recordsWellFormed && exists k :: FrozenAt(w, s, id, r, k)
  }

  // ---------------------------------------------------------------- what stays

  lemma FreshIsAnchored(w: World, s: S.Sources, c: Claim, id: string, at: int, r: Record)
    requires RecordOf(w, s, c, id, at) == Ok(r) && r.content in w.recordsWellFormed
    ensures Anchored(w, s, id, r) && ClaimOf(r) == c && RecordVerifies(w, s, id, r)
  {
    hide S.ViewOf, HeadsAt, RosterAt;
    assert At(s, Whole(s)) == s;
    assert FrozenAt(w, s, id, r, Whole(s));
  }

  lemma ViewAtCut(w: World, s: S.Sources, k: Cut, day: int)
    requires Within(s, k)
    ensures S.ViewOf(SettingOf(w), At(s, k), day) == S.ViewOf(SettingOf(w), s, day)
  {
  }

  lemma SameAtCut(s: S.Sources, u: S.Sources, k: Cut, c: Claim)
    requires S.Extends(s, u) && Within(s, k)
    ensures Within(u, k)
    ensures var h := HeadsAt(At(s, k), c.recordDay);
            HeadsAt(At(u, k), c.recordDay) == h && RosterAt(At(u, k), c, h) == RosterAt(At(s, k), c, h)
  {
    assert u.audits[..k.audits] == s.audits[..k.audits];
    assert u.claimReviews[..k.claimReviews] == s.claimReviews[..k.claimReviews];
    assert u.eligibilities[..k.eligibilities] == s.eligibilities[..k.eligibilities];
    assert u.transfers.events[..k.transfers] == s.transfers.events[..k.transfers];
    assert u.transfers.memberships[..k.memberships] == s.transfers.memberships[..k.memberships];
  }

  /** What a computed record says of its view, heads and roster. */
  lemma RecordParts(w: World, s: S.Sources, c: Claim, id: string, at: int)
    requires RecordOf(w, s, c, id, at).Ok?
    ensures var v, h := S.ViewOf(SettingOf(w), s, c.recordDay), HeadsAt(s, c.recordDay);
            && v.View? && RosterAt(s, c, h).Some?
            && RecordOf(w, s, c, id, at) == Ok(RecordWith(w, c, id, at, v, h, RosterAt(s, c, h).value))
  {
  }

  lemma SameRecord(w: World, s: S.Sources, u: S.Sources, c: Claim, id: string, at: int)
    requires RecordOf(w, s, c, id, at).Ok?
    requires S.ViewOf(SettingOf(w), u, c.recordDay) == S.ViewOf(SettingOf(w), s, c.recordDay)
    requires HeadsAt(u, c.recordDay) == HeadsAt(s, c.recordDay)
    requires RosterAt(u, c, HeadsAt(s, c.recordDay)) == RosterAt(s, c, HeadsAt(s, c.recordDay))
    ensures RecordOf(w, u, c, id, at) == RecordOf(w, s, c, id, at)
  {
  }

  /** A record that was once computed stays anchored, whatever is written later. */
  lemma AnchoredStays(w: World, s: S.Sources, u: S.Sources, id: string, r: Record)
    requires S.Sound(SettingOf(w), s) && S.Sound(SettingOf(w), u) && S.Extends(s, u) && Anchored(w, s, id, r)
    ensures Anchored(w, u, id, r)
  {
    var k :| FrozenAt(w, s, id, r, k);
    var c := ClaimOf(r);
    ViewAtCut(w, s, k, c.recordDay);
    SameAtCut(s, u, k, c);
    ViewAtCut(w, u, k, c.recordDay);
    RecordParts(w, At(s, k), c, id, r.content.frozenAt);
    S.ViewStays(SettingOf(w), s, u, c.recordDay);
    SameRecord(w, At(s, k), At(u, k), c, id, r.content.frozenAt);
    assert FrozenAt(w, u, id, r, k);
  }

  /** The settlement list of a record is the boundary of today's rows at some ledger index. */
  lemma AnchoredSettlements(w: World, s: S.Sources, id: string, r: Record) returns (through: int)
    requires Anchored(w, s, id, r)
    ensures r.settlements == SB.Boundaries(s.settlements, through)
  {
    var k :| FrozenAt(w, s, id, r, k);
    RecordParts(w, At(s, k), ClaimOf(r), id, r.content.frozenAt);
    ViewAtCut(w, s, k, r.content.recordDay);
    through := S.ViewOf(SettingOf(w), s, r.content.recordDay).checkpoint.content.throughLedgerIndex;
  }

  // ---------------------------------------------------------------- when a record is computed again

  /** Since the freeze no log got an event from before the end of the record's day. */
  ghost predicate LogsQuiet(s: S.Sources, r: Record) {
    var c, end := r.content, L.EndOf(r.content.recordDay);
    && DL.QuietAfter(s.audits, c.throughAuditIndex, end)
    && DL.QuietAfter(s.claimReviews, c.throughReviewIndex, end)
    && DL.QuietAfter(s.eligibilities, c.throughEligibilityIndex, end)
  }

  /** What the logs said at the pinned indexes, with the transfers known today to have taken effect by then. */
  function BoundaryNow(s: S.Sources, r: Record): Ro.Boundary {
    var c := r.content;
    BoundaryAt(s, c.throughAuditIndex, c.throughReviewIndex, c.throughEligibilityIndex,
               O.IndexBefore(s.transfers.events, L.EndOf(c.recordDay)), c.recordDay)
  }

  /** These transfers have moved no deployment into the record's group or out of it. */
  ghost predicate RosterStands(s: S.Sources, r: Record) {
    Ro.ListsExactly(r.members, Ro.GroupIn(BoundaryNow(s, r), r.content.groupId))
  }

  /** Heads with the indexes that a record pins are the pinned heads. */
  lemma SameHeads(s: S.Sources, k: Cut, day: int)
    requires S.LogsOk(s) && Within(s, k)
    ensures var now, frozen := HeadsAt(s, day), HeadsAt(At(s, k), day);
            var end := L.EndOf(day);
            && (DL.IndexOf(now.audit) == DL.IndexOf(frozen.audit)
                <==> DL.QuietAfter(s.audits, DL.IndexOf(frozen.audit), end))
            && (DL.IndexOf(now.review) == DL.IndexOf(frozen.review)
                <==> DL.QuietAfter(s.claimReviews, DL.IndexOf(frozen.review), end))
            && (DL.IndexOf(now.eligibility) == DL.IndexOf(frozen.eligibility)
                <==> DL.QuietAfter(s.eligibilities, DL.IndexOf(frozen.eligibility), end))
            && (DL.QuietAfter(s.audits, DL.IndexOf(frozen.audit), end) ==> now.audit == frozen.audit)
            && (DL.QuietAfter(s.claimReviews, DL.IndexOf(frozen.review), end) ==> now.review == frozen.review)
            && (DL.QuietAfter(s.eligibilities, DL.IndexOf(frozen.eligibility), end) ==>
                  now.eligibility == frozen.eligibility)
  {
    var end := L.EndOf(day);
    DL.HeadStandsIff(s.audits, k.audits, end);
    DL.HeadStandsIff(s.claimReviews, k.claimReviews, end);
    DL.HeadStandsIff(s.eligibilities, k.eligibilities, end);
  }

  lemma PinsCut<T>(log: seq<DL.Dated<T>>, n: nat, end: int)
    requires DL.Ordered(log) && n <= |log|
    ensures var pin := DL.IndexOf(DL.HeadBefore(log[..n], end));
            0 <= pin <= n && DL.Upto(log[..n], pin) == DL.Upto(log, pin)
  {
    var pin := DL.IndexOf(DL.HeadBefore(log[..n], end));
    DL.PrefixOrdered(log, n);
    DL.HeadCounts(log[..n], end);
    DL.UptoIsPrefix(log, pin);
    DL.UptoIsPrefix(log[..n], pin);
    assert log[..n][..pin] == log[..pin];
  }

  lemma PinsBounded(w: World, s: S.Sources, id: string, r: Record)
    requires S.LogsOk(s) && Anchored(w, s, id, r)
    ensures 0 <= r.content.throughAuditIndex <= |s.audits| && 0 <= r.content.throughReviewIndex <= |s.claimReviews|
    ensures 0 <= r.content.throughEligibilityIndex <= |s.eligibilities|
  {
    var k :| FrozenAt(w, s, id, r, k);
    var c := ClaimOf(r);
    RecordParts(w, At(s, k), c, id, r.content.frozenAt);
    PinsCut(s.audits, k.audits, L.EndOf(c.recordDay));
    PinsCut(s.claimReviews, k.claimReviews, L.EndOf(c.recordDay));
    PinsCut(s.eligibilities, k.eligibilities, L.EndOf(c.recordDay));
  }

  /** A frozen record lists the group that it was frozen with; today only the transfers may differ from then. */
  lemma FrozenRoster(w: World, s: S.Sources, id: string, r: Record, k: Cut) returns (b: Ro.Boundary)
    requires S.LogsOk(s) && FrozenAt(w, s, id, r, k)
    ensures BoundaryNow(s, r) == b.(transfers := BoundaryNow(s, r).transfers)
    ensures forall m :: m in b.transfers ==> m in s.transfers.memberships
    ensures var c := ClaimOf(r);
            Ro.RosterOf(b, s.audits, c.targetDeploymentId, c.claimActionId, c.groupId)
            == Some(Ro.Roster(r.content.legalName, r.members))
  {
    var c, h, end := ClaimOf(r), HeadsAt(At(s, k), r.content.recordDay), L.EndOf(r.content.recordDay);
    b := BoundaryOf(At(s, k), h, c.recordDay);
    RecordParts(w, At(s, k), c, id, r.content.frozenAt);
    PinsCut(s.audits, k.audits, end);
    PinsCut(s.claimReviews, k.claimReviews, end);
    PinsCut(s.eligibilities, k.eligibilities, end);
    C.LegalNameStays(s.audits[..k.audits], s.audits, c.targetDeploymentId, c.claimActionId, c.groupId);
    forall m | m in b.transfers
      ensures m in s.transfers.memberships
    {
      O.RowsUptoIn(s.transfers.memberships[..k.memberships], h.transferIndex, c.recordDay, m);
    }
  }

  /** The roster is read today as it was frozen if and only if it stands. */
  lemma RosterStandsIff(w: World, s: S.Sources, id: string, r: Record, k: Cut)
    requires S.LogsOk(s) && FrozenAt(w, s, id, r, k)
    ensures var c := ClaimOf(r);
            RosterStands(s, r)
            <==> Ro.RosterOf(BoundaryNow(s, r), s.audits, c.targetDeploymentId, c.claimActionId, c.groupId)
                 == Some(Ro.Roster(r.content.legalName, r.members))
  {
    hide S.LogsOk, FrozenAt, BoundaryNow, Ro.RosterOf;
    var c, now := ClaimOf(r), BoundaryNow(s, r);
    var b := FrozenRoster(w, s, id, r, k);
    Ro.RosterExact(b, s.audits, c.targetDeploymentId, c.claimActionId, c.groupId);
    Ro.RosterSameIff(b, now, s.audits, c.targetDeploymentId, c.claimActionId, c.groupId);
    if RosterStands(s, r) {
      forall d
        ensures d in Ro.GroupIn(now, c.groupId) <==> d in Ro.GroupIn(b, c.groupId)
      {
        assert Ro.Lists(r.members, d) <==> d in Ro.GroupIn(b, c.groupId);
      }
    }
  }

  lemma QuietGivesRecord(w: World, s: S.Sources, id: string, r: Record, k: Cut)
    requires S.Sound(SettingOf(w), s) && FrozenAt(w, s, id, r, k) && LogsQuiet(s, r) && RosterStands(s, r)
    ensures RecordOf(w, s, ClaimOf(r), id, r.content.frozenAt) == Ok(r)
  {
    var c := ClaimOf(r);
    RecordParts(w, At(s, k), c, id, r.content.frozenAt);
    ViewAtCut(w, s, k, c.recordDay);
    SameHeads(s, k, c.recordDay);
    RosterStandsIff(w, s, id, r, k);
  }

  lemma RecordGivesQuiet(w: World, s: S.Sources, id: string, r: Record, k: Cut)
    requires S.Sound(SettingOf(w), s) && FrozenAt(w, s, id, r, k)
    requires RecordOf(w, s, ClaimOf(r), id, r.content.frozenAt) == Ok(r)
    ensures LogsQuiet(s, r) && RosterStands(s, r)
  {
    var c := ClaimOf(r);
    RecordParts(w, At(s, k), c, id, r.content.frozenAt);
    RecordParts(w, s, c, id, r.content.frozenAt);
    SameHeads(s, k, c.recordDay);
    RosterStandsIff(w, s, id, r, k);
  }

  /**
    A frozen record is accepted again if and only if, since its freeze, no operator-audit event, claim
    review or eligibility decision was accepted before the end of its day, and the ownership transfers that
    have taken effect by then have moved no deployment into its group or out of it.  The ledger, its
    checkpoints, its Merkle index and the settlements never make a difference.
  */
  lemma VerifiesIff(w: World, s: S.Sources, id: string, r: Record)
    requires S.Sound(SettingOf(w), s) && Anchored(w, s, id, r)
    ensures RecordVerifies(w, s, id, r) <==> LogsQuiet(s, r) && RosterStands(s, r)
  {
    hide S.Sound, LogsQuiet, RosterStands, S.ViewOf, HeadsAt, RosterAt;
    var k :| FrozenAt(w, s, id, r, k);
    RecordParts(w, At(s, k), ClaimOf(r), id, r.content.frozenAt);
    if RecordVerifies(w, s, id, r) {
      RecordGivesQuiet(w, s, id, r, k);
    }
    if LogsQuiet(s, r) && RosterStands(s, r) {
      QuietGivesRecord(w, s, id, r, k);
    }
  }
}
