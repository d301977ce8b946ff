/**
  The roster of an operator group at the heads of the logs: the deployments that are active and claimed in the
  group, by its claims, links and completed ownership transfers.
*/
module Rosters {
  import opened Basics
  import opened DatedLogs
  import opened OperatorClaims
  import opened TextOrder
  import P = Protocol
  import O = OwnershipTransfers

  /** The target's legal name, and the group's deployments. */
  datatype Roster = Roster(legalName: string, members: seq<P.ReviewMember>)

  /** What the logs say up to their heads, and the completed transfers that have taken effect. */
  datatype Boundary = Boundary(
    audits: seq<Audit>, reviews: seq<ClaimReview>, eligibilities: seq<Eligibility>, transfers: seq<O.Membership>)

  /** The last completed transfer of a deployment. */
  function TransferOf(rows: seq<O.Membership>, d: string): Option<O.Membership> {
    if rows == [] then None
    else if rows[|rows| - 1].deploymentId == d then Some(rows[|rows| - 1])
    else TransferOf(rows[..|rows| - 1], d)
  }

  /** A transfer stands for the claim that it was made for, until the next audit event about the deployment. */
  predicate Applies(m: Option<O.Membership>, n: Network) {
    m.Some? && m.value.claimActionId == n.claimActionId && n.index <= m.value.throughAuditIndex
  }

  function GroupOf(b: Boundary, d: string): string {
    var n, m := NetworkOf(b.audits, d), TransferOf(b.transfers, d);
    if Applies(m, n) then m.value.targetGroupId else n.groupId
  }

  predicate InGroup(b: Boundary, group: string, d: string) {
    var n := NetworkOf(b.audits, d);
    n.active && n.claimed && GroupOf(b, d) == group
  }

  predicate Eligible(b: Boundary, n: Network) {
    n.claimState == Claimed || (Approved(n, b.reviews) && !Suspended(n, b.eligibilities))
  }

  function ClaimText(b: Boundary, n: Network): string {
    match n.claimState
    case NoClaim => ""
    case Claimed => "claimed"
    case ClaimWithdrawn => "withdrawn"
    case PendingReview =>
      match ReviewOf(b.reviews, n.claimActionId)
      case None => "pending-review"
      case Some(r) => if r.fact.approved then "approved" else "rejected"
  }

  function EligibilityText(b: Boundary, n: Network): string {
    if Eligible(b, n) then "active" else if Approved(n, b.reviews) then "suspended" else "inactive"
  }

  function HeadIndexOf<T>(e: Option<Dated<T>>): int { if e.None? then 0 else e.value.index }

  function HeadHashOf<T>(e: Option<Dated<T>>): string { if e.None? then P.ZERO_HASH else e.value.hash }

  function MemberRow(b: Boundary, order: int, d: string): P.ReviewMember {
    var n := NetworkOf(b.audits, d);
    var r, e := ReviewOf(b.reviews, n.claimActionId), EligibilityOf(b.eligibilities, n.claimActionId);
    P.ReviewMember(order, d, n.claimActionId, ClaimText(b, n), EligibilityText(b, n), n.claimIndex, n.claimHash,
                   HeadIndexOf(r), HeadHashOf(r), HeadIndexOf(e), HeadHashOf(e))
  }

  /** The deployments with audit events, in the order of their IDs. */
  function Deployments(audits: seq<Audit>): seq<string> {
    if audits == [] then [] else InsertText(Deployments(audits[..|audits| - 1]), audits[|audits| - 1].fact.deploymentId)
  }

  function MembersOf(b: Boundary, group: string, ids: seq<string>): seq<P.ReviewMember> {
    if ids == [] then []
    else
      var rest, d := MembersOf(b, group, ids[..|ids| - 1]), ids[|ids| - 1];
      if InGroup(b, group, d) then rest + [MemberRow(b, |rest|, d)] else rest
  }

  /** The claim's deployment is in the group, by this claim, and eligible. */
  predicate TargetIn(b: Boundary, group: string, d: string, claimActionId: string) {
    var n := NetworkOf(b.audits, d);
    InGroup(b, group, d) && n.claimActionId == claimActionId && Eligible(b, n)
  }

  /** The roster that a claim is frozen with; none if its target is not in it. */
  function RosterOf(b: Boundary, submitted: seq<Audit>, d: string, claimActionId: string, group: string)
    : Option<Roster>
  {
    match LegalNameOf(submitted, d, claimActionId, group)
    case None => None
    case Some(name) =>
      if TargetIn(b, group, d, claimActionId) then Some(Roster(name, MembersOf(b, group, Deployments(b.audits))))
      else None
  }

  // ---------------------------------------------------------------- what a roster holds

  predicate Lists(members: seq<P.ReviewMember>, d: string) {
    exists i :: 0 <= i < |members| && members[i].deploymentId == d
  }

  /** These rows are those of the chosen deployments, each once, in the order of their IDs. */
  ghost predicate RowsOf(b: Boundary, members: seq<P.ReviewMember>, chosen: iset<string>) {
    && (forall i :: 0 <= i < |members| ==> members[i] == MemberRow(b, i, members[i].deploymentId))
    && (forall i, j :: 0 <= i < j < |members| ==> Less(members[i].deploymentId, members[j].deploymentId))
    && ListsExactly(members, chosen)
  }

  ghost predicate ListsExactly(members: seq<P.ReviewMember>, chosen: iset<string>) {
    forall d {:trigger Lists(members, d)} {:trigger d in chosen} :: Lists(members, d) <==> d in chosen
  }

  /** If one deployment moves, a list that was right about it stays exact if and only if nothing changes for it. */
  lemma OneMoves(members: seq<P.ReviewMember>, before: iset<string>, after: iset<string>, d: string, there: bool)
    requires Lists(members, d) <==> d in before
    requires forall y :: y in after <==> if y == d then there else y in before
    ensures ListsExactly(members, after) <==> ListsExactly(members, before) && (there <==> d in before)
  {
    if ListsExactly(members, after) {
      assert Lists(members, d) <==> d in after;
      forall y
        ensures Lists(members, y) <==> y in before
      {
        assert Lists(members, y) <==> y in after;
      }
    }
    if ListsExactly(members, before) && (there <==> d in before) {
      forall y
        ensures Lists(members, y) <==> y in after
      {
        assert Lists(members, y) <==> y in before;
      }
    }
  }

  ghost function GroupIn(b: Boundary, group: string): iset<string> { iset d | InGroup(b, group, d) }

  lemma {:induction false} DeploymentsSorted(audits: seq<Audit>)
    ensures StrictlySorted(Deployments(audits))
    ensures forall i :: 0 <= i < |audits| ==> audits[i].fact.deploymentId in Deployments(audits)
  {
    if audits != [] {
      var n := |audits| - 1;
      DeploymentsSorted(audits[..n]);
      InsertTextSorted(Deployments(audits[..n]), audits[n].fact.deploymentId);
      InsertTextMembers(Deployments(audits[..n]), audits[n].fact.deploymentId);
    }
  }

  lemma {:induction false} NetworkKnown(audits: seq<Audit>, d: string)
    requires NetworkOf(audits, d) != UNKNOWN
    ensures exists i :: 0 <= i < |audits| && audits[i].fact.deploymentId == d
  {
    var n := |audits| - 1;
    if audits[n].fact.deploymentId != d {
      NetworkKnown(audits[..n], d);
    }
  }

  lemma RowAdded(b: Boundary, members: seq<P.ReviewMember>, chosen: iset<string>, d: string)
    requires RowsOf(b, members, chosen) && forall x :: x in chosen ==> Less(x, d)
    ensures RowsOf(b, members + [MemberRow(b, |members|, d)], chosen + iset{d})
  {
    var m := members + [MemberRow(b, |members|, d)];
    forall i | 0 <= i < |members|
      ensures Less(members[i].deploymentId, d)
    {
      assert Lists(members, members[i].deploymentId);
    }
    forall x
      ensures Lists(m, x) <==> x in chosen + iset{d}
    {
      assert m[|members|].deploymentId == d;
      if Lists(members, x) {
        var i :| 0 <= i < |members| && members[i].deploymentId == x;
        assert m[i].deploymentId == x;
      }
    }
  }

  lemma {:induction false} MembersExact(b: Boundary, group: string, ids: seq<string>)
    requires StrictlySorted(ids)
    ensures RowsOf(b, MembersOf(b, group, ids), iset d | d in ids && InGroup(b, group, d))
  {
    if ids == [] {
      assert MembersOf(b, group, ids) == [];
    } else {
      var n := |ids| - 1;
      var rest, chosen := MembersOf(b, group, ids[..n]), iset d | d in ids[..n] && InGroup(b, group, d);
      MembersExact(b, group, ids[..n]);
      assert ids == ids[..n] + [ids[n]];
      if InGroup(b, group, ids[n]) {
        RowAdded(b, rest, chosen, ids[n]);
        assert chosen + iset{ids[n]} == iset d | d in ids && InGroup(b, group, d);
      } else {
        assert chosen == iset d | d in ids && InGroup(b, group, d);
      }
    }
  }

  /** A roster lists exactly the deployments of its group, each once, in the order of their IDs. */
  lemma RosterExact(b: Boundary, submitted: seq<Audit>, d: string, claimActionId: string, group: string)
    requires RosterOf(b, submitted, d, claimActionId, group).Some?
    ensures RowsOf(b, RosterOf(b, submitted, d, claimActionId, group).value.members, GroupIn(b, group))
    ensures d in GroupIn(b, group)
  {
    var ids := Deployments(b.audits);
    DeploymentsSorted(b.audits);
    MembersExact(b, group, ids);
    forall x | InGroup(b, group, x)
      ensures x in ids
    {
      NetworkKnown(b.audits, x);
    }
    assert GroupIn(b, group) == iset x | x in ids && InGroup(b, group, x);
  }

  /** Members depend on the transfers only through who is in the group. */
  lemma {:induction false} MembersSame(b: Boundary, c: Boundary, group: string, ids: seq<string>)
    requires c == b.(transfers := c.transfers)
    requires forall i :: 0 <= i < |ids| ==> (InGroup(b, group, ids[i]) <==> InGroup(c, group, ids[i]))
    ensures MembersOf(b, group, ids) == MembersOf(c, group, ids)
  {
    if ids != [] {
      MembersSame(b, c, group, ids[..|ids| - 1]);
    }
  }

  /** Two rosters over the same logs are the same if and only if the same deployments are in the group. */
  lemma RosterSameIff(b: Boundary, c: Boundary, submitted: seq<Audit>, d: string, claimActionId: string, group: string)
    requires c == b.(transfers := c.transfers) && RosterOf(b, submitted, d, claimActionId, group).Some?
    ensures RosterOf(c, submitted, d, claimActionId, group) == RosterOf(b, submitted, d, claimActionId, group)
            <==> GroupIn(c, group) == GroupIn(b, group)
  {
    RosterExact(b, submitted, d, claimActionId, group);
    if RosterOf(c, submitted, d, claimActionId, group) == RosterOf(b, submitted, d, claimActionId, group) {
      RosterExact(c, submitted, d, claimActionId, group);
      var m := RosterOf(b, submitted, d, claimActionId, group).value.members;
      forall x
        ensures x in GroupIn(c, group) <==> x in GroupIn(b, group)
      {
        assert Lists(m, x) <==> x in GroupIn(b, group);
      }
    }
    if GroupIn(c, group) == GroupIn(b, group) {
      forall x
        ensures InGroup(c, group, x) <==> InGroup(b, group, x)
      {
        assert x in GroupIn(c, group) <==> x in GroupIn(b, group);
      }
      MembersSame(b, c, group, Deployments(b.audits));
    }
  }

  // ---------------------------------------------------------------- reading it

  /** Read the group's deployments in the order of their IDs, and look for the target among them. */
  method MembersAtBoundary(b: Boundary, submitted: seq<Audit>, d: string, claimActionId: string, group: string)
    returns (r: Option<Roster>)
    ensures r == RosterOf(b, submitted, d, claimActionId, group)
  {
    var name := LegalNameOf(submitted, d, claimActionId, group);
    if name.None? {
      return None;
    }
    var ids, members: seq<P.ReviewMember>, i, targetFound := Deployments(b.audits), [], 0, false;
    DeploymentsSorted(b.audits);
    while i < |ids|
      invariant 0 <= i <= |ids| && members == MembersOf(b, group, ids[..i])
      invariant targetFound <==> d in ids[..i] && TargetIn(b, group, d, claimActionId)
    {
      PrefixNext(ids, i);
      assert ids[..i + 1][..i] == ids[..i];
      if InGroup(b, group, ids[i]) {
        var n := NetworkOf(b.audits, ids[i]);
        if ids[i] == d && n.claimActionId == claimActionId && Eligible(b, n) {
          targetFound := true;
        }
        members := members + [MemberRow(b, |members|, ids[i])];
      }
      i := i + 1;
    }
    PrefixAll(ids);
    if TargetIn(b, group, d, claimActionId) {
      NetworkKnown(b.audits, d);
    }
    if !targetFound {
      return None;
    }
    return Some(Roster(name.value, members));
  }
}
