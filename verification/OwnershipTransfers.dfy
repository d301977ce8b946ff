/**
  The ownership-transfer log: prepared transfers of one claim, the manager's decisions on them as an
  append-only chain of events, and one membership row per completed transfer.

  The guards that read reviews, allocations and the other logs are with those tables; here are the log, its
  transitions and its queries.  An event's hash is an input.
*/
module OwnershipTransfers {
  import opened Basics
  import P = Protocol
  import L = Ledger

  datatype Action = Prepare | Approve | Reject | Cancel | Complete

  datatype Status = Prepared | Approved | Rejected | Cancelled | Completed

  datatype Record = Record(
    transferId: string, exitReviewId: string, targetDeploymentId: string, claimActionId: string,
    sourceGroupId: string, targetGroupId: string, verificationHash: string, preparedAt: int)

  datatype Event = Event(
    eventIndex: int, transferId: string, action: Action, status: Status, effectiveDay: int, actorId: string,
    reference: string, evidenceHash: string, reasonCode: string, idempotencyKey: string, payloadHash: string,
    acceptedAt: int, eventHash: string)

  /** The membership row of a completed transfer, with the head of the audit log at its completion. */
  datatype Membership = Membership(
    transferId: string, eventIndex: int, eventHash: string, deploymentId: string, claimActionId: string,
    sourceGroupId: string, targetGroupId: string, effectiveDay: int, throughAuditIndex: int, completedAt: int)

  datatype Log = Log(records: map<string, Record>, events: seq<Event>, memberships: seq<Membership>)

  const Empty: Log := Log(map[], [], [])

  // ---------------------------------------------------------------- queries

  function HeadIndex(events: seq<Event>): int {
    if events == [] then 0 else events[|events| - 1].eventIndex
  }

  function HeadHash(events: seq<Event>): string {
    if events == [] then P.ZERO_HASH else events[|events| - 1].eventHash
  }

  /** The index of the last event accepted before `end`, or 0. */
  function IndexBefore(events: seq<Event>, end: int): int {
    if events == [] then 0
    else if events[|events| - 1].acceptedAt < end then events[|events| - 1].eventIndex
    else IndexBefore(events[..|events| - 1], end)
  }

  /** The last event of a transfer. */
  function Last(events: seq<Event>, transferId: string): Option<Event> {
    if events == [] then None
    else if events[|events| - 1].transferId == transferId then Some(events[|events| - 1])
    else Last(events[..|events| - 1], transferId)
  }

  function FindByKey(events: seq<Event>, key: string): Option<Event> {
    if events == [] then None
    else if events[0].idempotencyKey == key then Some(events[0])
    else FindByKey(events[1..], key)
  }

  function MembershipOf(rows: seq<Membership>, transferId: string): Option<Membership> {
    if rows == [] then None
    else if rows[|rows| - 1].transferId == transferId then Some(rows[|rows| - 1])
    else MembershipOf(rows[..|rows| - 1], transferId)
  }

  /** The membership row of a transfer names this completion. */
  predicate RowNames(rows: seq<Membership>, transferId: string, eventIndex: int, eventHash: string) {
    var row := MembershipOf(rows, transferId);
    row.Some? && row.value.eventIndex == eventIndex && row.value.eventHash == eventHash
  }

  /** The rows of completions up to an event index that have taken effect on a day. */
  function RowsUpto(rows: seq<Membership>, through: int, day: int): seq<Membership> {
    if rows == [] then []
    else
      var rest, last := RowsUpto(rows[..|rows| - 1], through, day), rows[|rows| - 1];
      if last.eventIndex <= through && last.effectiveDay <= day then rest + [last] else rest
  }

  predicate StandsAs(events: seq<Event>, transferId: string, statuses: set<Status>) {
    var last := Last(events, transferId);
    last.Some? && last.value.status in statuses
  }

  predicate OfClaim(r: Record, deploymentId: string, claimActionId: string) {
    r.targetDeploymentId == deploymentId && r.claimActionId == claimActionId
  }

  /** A transfer of the claim is open. */
  predicate Active(log: Log, deploymentId: string, claimActionId: string) {
    exists id :: id in log.records && OfClaim(log.records[id], deploymentId, claimActionId)
                 && StandsAs(log.events, id, {Prepared, Approved})
  }

  /** After these events, a transfer of the claim other than the selected one is open or done. */
  predicate Conflicting(records: map<string, Record>, events: seq<Event>, deploymentId: string,
                        claimActionId: string, selected: string)
  {
    exists id :: id in records && OfClaim(records[id], deploymentId, claimActionId)
                 && (selected == "" || id != selected) && StandsAs(events, id, {Prepared, Approved, Completed})
  }

  predicate ValidTransition(current: Status, action: Action, resulting: Status) {
    match action
    case Prepare => false
    case Approve => current == Prepared && resulting == Approved
    case Reject => current == Prepared && resulting == Rejected
    case Cancel => (current == Prepared || current == Approved) && resulting == Cancelled
    case Complete => current == Approved && resulting == Completed
  }

  // ---------------------------------------------------------------- writing

  predicate ClockAllows(log: Log, createdAt: int, acceptedAt: int) {
    createdAt <= acceptedAt && (log.events != [] ==> log.events[|log.events| - 1].acceptedAt <= acceptedAt)
  }

  predicate NewEvent(log: Log, e: Event) {
    forall i :: 0 <= i < |log.events| ==>
      log.events[i].eventHash != e.eventHash && log.events[i].idempotencyKey != e.idempotencyKey
  }

  function MembershipFor(r: Record, e: Event, auditIndex: int): Membership {
    Membership(e.transferId, e.eventIndex, e.eventHash, r.targetDeploymentId, r.claimActionId, r.sourceGroupId,
               r.targetGroupId, e.effectiveDay, auditIndex, e.acceptedAt)
  }

  /** The event, its transfer's record, and the membership row of a completion at the audit log's head. */
  function Written(log: Log, r: Record, e: Event, auditIndex: int): Log {
    Log(log.records[r.transferId := r], log.events + [e],
        if e.action == Complete then log.memberships + [MembershipFor(r, e, auditIndex)] else log.memberships)
  }

  /** The event may be written: it is the next of its log, and the first or a legal one of its transfer. */
  predicate Continues(log: Log, createdAt: int, r: Record, e: Event) {
    && ClockAllows(log, createdAt, e.acceptedAt) && e.eventIndex == HeadIndex(log.events) + 1
    && e.transferId == r.transferId && NewEvent(log, e)
    && (e.action == Complete ==> e.effectiveDay == L.DayOf(e.acceptedAt))
    && if r.transferId !in log.records then
         && e.action == Prepare && e.status == Prepared && r.sourceGroupId != r.targetGroupId
         && !Active(log, r.targetDeploymentId, r.claimActionId)
       else
         && log.records[r.transferId] == r && Last(log.events, r.transferId).Some?
         && Last(log.events, r.transferId).value.effectiveDay <= e.effectiveDay
         && ValidTransition(Last(log.events, r.transferId).value.status, e.action, e.status)
  }

  // ---------------------------------------------------------------- what the writer keeps

  /** A completed transfer stands at its completion, which its membership row names. */
  predicate CompletionKept(log: Log, id: string) {
    var last := Last(log.events, id);
    last.Some? && last.value.status == Completed ==>
      last.value.action == Complete && RowNames(log.memberships, id, last.value.eventIndex, last.value.eventHash)
  }

  /** Nothing follows a completion in its transfer. */
  ghost predicate CompletedIsLast(log: Log, i: nat)
    requires i < |log.events|
  {
    log.events[i].status == Completed ==> Last(log.events, log.events[i].transferId) == Some(log.events[i])
  }

  /** A membership row is that of a completion in the log, from one group to another. */
  predicate RowKept(log: Log, m: Membership) {
    && 1 <= m.eventIndex <= |log.events| && m.sourceGroupId != m.targetGroupId
    && m.effectiveDay == L.DayOf(m.completedAt) && m.completedAt == log.events[m.eventIndex - 1].acceptedAt
    && var e := log.events[m.eventIndex - 1];
       && e.action == Complete && e.status == Completed && e.transferId == m.transferId && e.eventHash == m.eventHash
       && m.transferId in log.records
       && var r := log.records[m.transferId];
          && r.targetDeploymentId == m.deploymentId && r.claimActionId == m.claimActionId
          && r.sourceGroupId == m.sourceGroupId && r.targetGroupId == m.targetGroupId
  }

  /** What has been done with a transfer, and how it stood after each deed. */
  function History(events: seq<Event>, transferId: string): seq<(Action, Status)> {
    if events == [] then []
    else
      var rest, last := History(events[..|events| - 1], transferId), events[|events| - 1];
      if last.transferId == transferId then rest + [(last.action, last.status)] else rest
  }

  /** A transfer is prepared, approved, and completed; or rejected when prepared, or cancelled before its completion. */
  ghost predicate Legal(h: seq<(Action, Status)>) {
    || h == [(Prepare, Prepared)]
    || h == [(Prepare, Prepared), (Reject, Rejected)]
    || h == [(Prepare, Prepared), (Cancel, Cancelled)]
    || h == [(Prepare, Prepared), (Approve, Approved)]
    || h == [(Prepare, Prepared), (Approve, Approved), (Cancel, Cancelled)]
    || h == [(Prepare, Prepared), (Approve, Approved), (Complete, Completed)]
  }

  ghost predicate HistoriesLegal(log: Log) {
    forall id :: id in log.records ==> Legal(History(log.events, id))
  }

  /** The effective days of a transfer's events do not fall. */
  ghost predicate DaysOrdered(events: seq<Event>) {
    forall i, j :: 0 <= i < j < |events| && events[i].transferId == events[j].transferId ==>
      events[i].effectiveDay <= events[j].effectiveDay
  }

  predicate Open(log: Log, id: string) { StandsAs(log.events, id, {Prepared, Approved}) }

  /** At most one transfer of a claim is open. */
  ghost predicate OneOpen(log: Log) {
    forall a, b :: (a in log.records && b in log.records && Open(log, a) && Open(log, b)
                    && OfClaim(log.records[a], log.records[b].targetDeploymentId, log.records[b].claimActionId))
                   ==> a == b
  }

  ghost predicate RowsKept(log: Log) {
    && (forall k :: 0 <= k < |log.memberships| ==> RowKept(log, log.memberships[k]))
    && (forall j, k :: 0 <= j < k < |log.memberships| ==> log.memberships[j].eventIndex < log.memberships[k].eventIndex)
  }

  ghost predicate EventsOrdered(events: seq<Event>) {
    && (forall i :: 0 <= i < |events| ==> events[i].eventIndex == i + 1)
    && (forall i, j :: 0 <= i < j < |events| ==>
          events[i].acceptedAt <= events[j].acceptedAt && events[i].eventHash != events[j].eventHash)
  }

  /** Every event is of a recorded transfer, from one group to another, and every record has an event. */
  ghost predicate RecordsKept(log: Log) {
    && (forall i :: 0 <= i < |log.events| ==> log.events[i].transferId in log.records)
    && (forall id :: id in log.records ==>
          && log.records[id].transferId == id && Last(log.events, id).Some?
          && log.records[id].sourceGroupId != log.records[id].targetGroupId)
  }

  ghost predicate Ok(log: Log) {
    && EventsOrdered(log.events) && RowsKept(log) && HistoriesLegal(log) && DaysOrdered(log.events) && OneOpen(log)
    && RecordsKept(log) && (forall id {:trigger CompletionKept(log, id)} :: CompletionKept(log, id))
    && (forall i :: 0 <= i < |log.events| ==> CompletedIsLast(log, i))
  }

  /** Records, events and membership rows are only added. */
  ghost predicate Extends(a: Log, b: Log) {
    && a.events <= b.events && a.memberships <= b.memberships
    && (forall id :: id in a.records ==> id in b.records && b.records[id] == a.records[id])
  }

  lemma LastAppended(events: seq<Event>, e: Event, id: string)
    ensures Last(events + [e], id) == if e.transferId == id then Some(e) else Last(events, id)
  {
    assert (events + [e])[..|events|] == events;
  }

  lemma {:induction false} LastIn(events: seq<Event>, id: string) returns (k: nat)
    requires Last(events, id).Some?
    ensures k < |events| && events[k] == Last(events, id).value && events[k].transferId == id
  {
    if events[|events| - 1].transferId == id {
      k := |events| - 1;
    } else {
      k := LastIn(events[..|events| - 1], id);
    }
  }

  lemma LastOfWritten(log: Log, r: Record, e: Event, auditIndex: int)
    ensures forall id {:trigger Last(Written(log, r, e, auditIndex).events, id)} ::
              Last(Written(log, r, e, auditIndex).events, id)
              == if e.transferId == id then Some(e) else Last(log.events, id)
  {
    forall id
      ensures Last(log.events + [e], id) == if e.transferId == id then Some(e) else Last(log.events, id)
    {
      LastAppended(log.events, e, id);
    }
  }

  lemma CompletionsKept(log: Log, createdAt: int, r: Record, e: Event, auditIndex: int)
    requires Ok(log) && Continues(log, createdAt, r, e)
    ensures forall id :: CompletionKept(Written(log, r, e, auditIndex), id)
  {
    hide RowsKept, EventsOrdered, CompletedIsLast;
    var u := Written(log, r, e, auditIndex);
    LastOfWritten(log, r, e, auditIndex);
    assert (log.memberships + [MembershipFor(r, e, auditIndex)])[..|log.memberships|] == log.memberships;
    forall id
      ensures CompletionKept(u, id)
    {
      assert CompletionKept(log, id);
    }
  }

  lemma CompletedStayLast(log: Log, createdAt: int, r: Record, e: Event, auditIndex: int, i: nat)
    requires Ok(log) && Continues(log, createdAt, r, e) && i <= |log.events|
    ensures CompletedIsLast(Written(log, r, e, auditIndex), i)
  {
    hide CompletionKept, RowsKept, EventsOrdered, NewEvent, ClockAllows;
    var u := Written(log, r, e, auditIndex);
    if i < |log.events| {
      assert CompletedIsLast(log, i) && u.events[i] == log.events[i];
      LastAppended(log.events, e, log.events[i].transferId);
    } else {
      LastAppended(log.events, e, e.transferId);
    }
  }

  lemma RowsStayKept(log: Log, createdAt: int, r: Record, e: Event, auditIndex: int)
    requires Ok(log) && Continues(log, createdAt, r, e)
    ensures RowsKept(Written(log, r, e, auditIndex))
  {
    var u := Written(log, r, e, auditIndex);
    assert e.action == Complete ==> r.transferId in log.records;
    forall k | 0 <= k < |u.memberships|
      ensures RowKept(u, u.memberships[k])
    {
      if k < |log.memberships| {
        assert RowKept(log, log.memberships[k]);
      }
    }
  }

  lemma {:induction false} HistoryEnds(events: seq<Event>, id: string)
    ensures var h, last := History(events, id), Last(events, id);
            if h == [] then last.None? else last.Some? && h[|h| - 1] == (last.value.action, last.value.status)
  {
    if events != [] && events[|events| - 1].transferId != id {
      HistoryEnds(events[..|events| - 1], id);
    }
  }

  lemma HistoriesStayLegal(log: Log, createdAt: int, r: Record, e: Event, auditIndex: int)
    requires Ok(log) && Continues(log, createdAt, r, e)
    ensures HistoriesLegal(Written(log, r, e, auditIndex))
  {
    hide RowsKept, EventsOrdered, CompletionKept, CompletedIsLast, OneOpen, DaysOrdered, NewEvent, ClockAllows, Active,
         Legal, ValidTransition;
    var u := Written(log, r, e, auditIndex);
    assert (log.events + [e])[..|log.events|] == log.events;
    forall id | id in u.records
      ensures Legal(History(u.events, id))
    {
      HistoryEnds(log.events, id);
      if id !in log.records {
        NoHistory(log, id);
        LegalFirst();
      } else if e.transferId == id {
        LegalNext(History(log.events, id), e.action, e.status);
      }
    }
  }

  lemma LegalFirst()
    ensures Legal([] + [(Prepare, Prepared)])
  {
  }

  /** A legal history goes on legally, by an action that its last status allows. */
  lemma LegalNext(h: seq<(Action, Status)>, action: Action, status: Status)
    requires Legal(h) && h != [] && ValidTransition(h[|h| - 1].1, action, status)
    ensures Legal(h + [(action, status)])
  {
    match action
    case Prepare =>
    case Approve => assert h == [(Prepare, Prepared)];
    case Reject => assert h == [(Prepare, Prepared)];
    case Cancel => assert h == [(Prepare, Prepared)] || h == [(Prepare, Prepared), (Approve, Approved)];
    case Complete => assert h == [(Prepare, Prepared), (Approve, Approved)];
  }

  lemma RecordsStayKept(log: Log, createdAt: int, r: Record, e: Event, auditIndex: int)
    requires Ok(log) && Continues(log, createdAt, r, e)
    ensures RecordsKept(Written(log, r, e, auditIndex)) && EventsOrdered(log.events + [e])
    ensures Extends(log, Written(log, r, e, auditIndex))
  {
    hide RowsKept, CompletionKept, CompletedIsLast, OneOpen, DaysOrdered, HistoriesLegal, Active, ValidTransition;
    LastOfWritten(log, r, e, auditIndex);
  }

  lemma NoHistory(log: Log, id: string)
    requires id !in log.records && forall i :: 0 <= i < |log.events| ==> log.events[i].transferId in log.records
    ensures History(log.events, id) == []
  {
    HistoryEnds(log.events, id);
    if Last(log.events, id).Some? {
      var k := LastIn(log.events, id);
    }
  }

  lemma DaysStayOrdered(log: Log, createdAt: int, r: Record, e: Event)
    requires Ok(log) && Continues(log, createdAt, r, e)
    ensures DaysOrdered(log.events + [e])
  {
    hide RowsKept, CompletionKept, CompletedIsLast, OneOpen, HistoriesLegal, Active;
    forall i | 0 <= i < |log.events| && log.events[i].transferId == e.transferId
      ensures log.events[i].effectiveDay <= e.effectiveDay
    {
      assert r.transferId in log.records;
      var k := LastFrom(log.events, i);
    }
  }

  lemma {:induction false} LastFrom(events: seq<Event>, i: nat) returns (k: nat)
    requires i < |events|
    ensures i <= k < |events| && Last(events, events[i].transferId) == Some(events[k])
    ensures events[k].transferId == events[i].transferId
  {
    if events[|events| - 1].transferId == events[i].transferId {
      k := |events| - 1;
    } else {
      k := LastFrom(events[..|events| - 1], i);
    }
  }

  lemma OneStaysOpen(log: Log, createdAt: int, r: Record, e: Event, auditIndex: int)
    requires Ok(log) && Continues(log, createdAt, r, e)
    ensures OneOpen(Written(log, r, e, auditIndex))
  {
    hide RowsKept, EventsOrdered, CompletionKept, CompletedIsLast, DaysOrdered, HistoriesLegal, NewEvent, ClockAllows;
    var u := Written(log, r, e, auditIndex);
    LastOfWritten(log, r, e, auditIndex);
    forall a, b | a in u.records && b in u.records && Open(u, a) && Open(u, b)
                  && OfClaim(u.records[a], u.records[b].targetDeploymentId, u.records[b].claimActionId)
      ensures a == b
    {
      assert a != r.transferId ==> Open(log, a) && u.records[a] == log.records[a];
      assert b != r.transferId ==> Open(log, b) && u.records[b] == log.records[b];
      if r.transferId in log.records && (a == r.transferId || b == r.transferId) {
        assert Open(log, r.transferId);
      }
    }
  }

  /** A written event keeps the log; a completed transfer stays as it is, as no action leads on from there. */
  lemma WrittenOk(log: Log, createdAt: int, r: Record, e: Event, auditIndex: int)
    requires Ok(log) && Continues(log, createdAt, r, e)
    ensures Ok(Written(log, r, e, auditIndex)) && Extends(log, Written(log, r, e, auditIndex))
  {
    hide Last, Continues, HistoriesLegal, DaysOrdered, OneOpen, RowsKept, RecordsKept, CompletionKept, CompletedIsLast;
    hide EventsOrdered;
    var u := Written(log, r, e, auditIndex);
    RecordsStayKept(log, createdAt, r, e, auditIndex);
    CompletionsKept(log, createdAt, r, e, auditIndex);
    RowsStayKept(log, createdAt, r, e, auditIndex);
    HistoriesStayLegal(log, createdAt, r, e, auditIndex);
    DaysStayOrdered(log, createdAt, r, e);
    OneStaysOpen(log, createdAt, r, e, auditIndex);
    forall i | 0 <= i < |u.events|
      ensures CompletedIsLast(u, i)
    {
      CompletedStayLast(log, createdAt, r, e, auditIndex, i);
    }
  }

  // ---------------------------------------------------------------- the rows at a boundary

  lemma {:induction false} RowsUptoIn(rows: seq<Membership>, through: int, day: int, m: Membership)
    ensures m in RowsUpto(rows, through, day) <==> m in rows && m.eventIndex <= through && m.effectiveDay <= day
  {
    if rows != [] {
      RowsUptoIn(rows[..|rows| - 1], through, day, m);
      assert rows == rows[..|rows| - 1] + [rows[|rows| - 1]];
    }
  }

  /** Only the indexes that there are make a difference. */
  lemma {:induction false} RowsUptoSame(rows: seq<Membership>, a: int, b: int, day: int)
    requires forall k :: 0 <= k < |rows| ==> (rows[k].eventIndex <= a <==> rows[k].eventIndex <= b)
    ensures RowsUpto(rows, a, day) == RowsUpto(rows, b, day)
  {
    if rows != [] {
      RowsUptoSame(rows[..|rows| - 1], a, b, day);
    }
  }

  lemma RowsUptoAppended(rows: seq<Membership>, m: Membership, through: int, day: int)
    ensures RowsUpto(rows + [m], through, day)
            == RowsUpto(rows, through, day) + if m.eventIndex <= through && m.effectiveDay <= day then [m] else []
  {
    assert (rows + [m])[..|rows|] == rows;
  }

  /** Completions come in the order of their rows. */
  lemma CompletionsOrdered(log: Log)
    requires Ok(log)
    ensures forall j, k :: 0 <= j < k < |log.memberships| ==>
              log.memberships[j].completedAt <= log.memberships[k].completedAt
  {
    forall j, k | 0 <= j < k < |log.memberships|
      ensures log.memberships[j].completedAt <= log.memberships[k].completedAt
    {
      assert RowKept(log, log.memberships[j]) && RowKept(log, log.memberships[k]);
    }
  }

  /** The index before a time counts the events before it, which come first. */
  lemma {:induction false} IndexCounts(events: seq<Event>, end: int)
    requires EventsOrdered(events)
    ensures 0 <= IndexBefore(events, end) <= |events|
    ensures forall i :: 0 <= i < |events| ==> (events[i].acceptedAt < end <==> i < IndexBefore(events, end))
  {
    if events != [] && events[|events| - 1].acceptedAt >= end {
      IndexCounts(events[..|events| - 1], end);
    }
  }

  /** One more event is within the boundary exactly if it was accepted before its end, and then all before it are. */
  lemma IndexAppended(log: Log, createdAt: int, r: Record, e: Event, end: int)
    requires Ok(log) && Continues(log, createdAt, r, e)
    ensures IndexBefore(log.events + [e], end)
            == if e.acceptedAt < end then e.eventIndex else IndexBefore(log.events, end)
    ensures e.acceptedAt < end ==> IndexBefore(log.events, end) == |log.events|
    ensures e.eventIndex == |log.events| + 1
  {
    assert (log.events + [e])[..|log.events|] == log.events;
  }
}
