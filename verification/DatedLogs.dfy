/**
  Append-only logs of dated events: the operator audit, the claim reviews and the eligibility decisions.
  A frozen exit review pins the head that each of them has at the end of its record day.

  A writer refuses an event from before the registry's creation or from before the log's own head.  It does
  not ask whether the event's day has been frozen.
*/
module DatedLogs {
  import opened Basics

  /** An event, with what it says. */
  datatype Dated<T> = Dated(index: int, acceptedAt: int, hash: string, fact: T)

  function HeadIndex<T>(log: seq<Dated<T>>): int {
    if log == [] then 0 else log[|log| - 1].index
  }

  predicate ClockAllows<T>(log: seq<Dated<T>>, createdAt: int, acceptedAt: int) {
    createdAt <= acceptedAt && (log != [] ==> log[|log| - 1].acceptedAt <= acceptedAt)
  }

  /** The log with one event more. */
  function Append<T>(log: seq<Dated<T>>, acceptedAt: int, hash: string, fact: T): seq<Dated<T>> {
    log + [Dated(HeadIndex(log) + 1, acceptedAt, hash, fact)]
  }

  /** The last event accepted before `end`. */
  function HeadBefore<T>(log: seq<Dated<T>>, end: int): Option<Dated<T>> {
    if log == [] then None
    else if log[|log| - 1].acceptedAt < end then Some(log[|log| - 1])
    else HeadBefore(log[..|log| - 1], end)
  }

  function IndexOf<T>(head: Option<Dated<T>>): int { if head.None? then 0 else head.value.index }

  /** The events with indexes up to `through`. */
  function Upto<T>(log: seq<Dated<T>>, through: int): seq<Dated<T>> {
    if log == [] then []
    else
      var rest := Upto(log[..|log| - 1], through);
      if log[|log| - 1].index <= through then rest + [log[|log| - 1]] else rest
  }

  /** What the writers keep: consecutive indexes, and times that do not fall. */
  ghost predicate Ordered<T>(log: seq<Dated<T>>) {
    && (forall i :: 0 <= i < |log| ==> log[i].index == i + 1)
    && (forall i, j :: 0 <= i < j < |log| ==> log[i].acceptedAt <= log[j].acceptedAt)
  }

  lemma AppendOrdered<T>(log: seq<Dated<T>>, createdAt: int, acceptedAt: int, hash: string, fact: T)
    requires Ordered(log) && ClockAllows(log, createdAt, acceptedAt)
    ensures Ordered(Append(log, acceptedAt, hash, fact))
  {
  }

  lemma PrefixOrdered<T>(log: seq<Dated<T>>, n: nat)
    requires Ordered(log) && n <= |log|
    ensures Ordered(log[..n])
  {
  }

  lemma {:induction false} UptoAll<T>(log: seq<Dated<T>>, through: int)
    requires forall i :: 0 <= i < |log| ==> log[i].index <= through
    ensures Upto(log, through) == log
  {
    if log != [] {
      UptoAll(log[..|log| - 1], through);
    }
  }

  /** In an ordered log, the events up to an index are as many first ones. */
  lemma {:induction false} UptoIsPrefix<T>(log: seq<Dated<T>>, through: nat)
    requires Ordered(log)
    ensures Upto(log, through) == if through <= |log| then log[..through] else log
  {
    if through >= |log| {
      UptoAll(log, through);
    } else {
      var rest := log[..|log| - 1];
      PrefixOrdered(log, |log| - 1);
      UptoIsPrefix(rest, through);
      assert rest[..through] == log[..through];
    }
  }

  /** An event beyond the index is not among them. */
  lemma UptoAppended<T>(log: seq<Dated<T>>, at: int, hash: string, fact: T, through: int)
    requires Ordered(log) && through <= |log|
    ensures Upto(Append(log, at, hash, fact), through) == Upto(log, through)
  {
    assert Append(log, at, hash, fact)[..|log|] == log;
  }

  /** The head's index counts the events before `end`, which come first. */
  lemma {:induction false} HeadCounts<T>(log: seq<Dated<T>>, end: int)
    requires Ordered(log)
    ensures var k := IndexOf(HeadBefore(log, end));
            && 0 <= k <= |log|
            && HeadBefore(log, end) == (if k > 0 then Some(log[k - 1]) else None)
            && forall i :: 0 <= i < |log| ==> (log[i].acceptedAt < end <==> i < k)
  {
    if log != [] && log[|log| - 1].acceptedAt >= end {
      HeadCounts(log[..|log| - 1], end);
    }
  }

  /** No event after the first `n` was accepted before `end`. */
  ghost predicate QuietAfter<T>(log: seq<Dated<T>>, n: int, end: int) {
    forall i :: n <= i < |log| && 0 <= i ==> log[i].acceptedAt >= end
  }

  /**
    The head at `end` is the one that the first `n` events had if and only if no later event was accepted
    before `end`; counted from the head or from `n`, that is the same.
  */
  lemma HeadStandsIff<T>(log: seq<Dated<T>>, n: nat, end: int)
    requires Ordered(log) && n <= |log|
    ensures var head := HeadBefore(log[..n], end);
            && (HeadBefore(log, end) == head <==> QuietAfter(log, n, end))
            && (IndexOf(HeadBefore(log, end)) == IndexOf(head) <==> QuietAfter(log, n, end))
            && (QuietAfter(log, n, end) <==> QuietAfter(log, IndexOf(head), end))
  {
    var early := log[..n];
    HeadCounts(log, end);
    HeadCounts(early, end);
    var k, m := IndexOf(HeadBefore(log, end)), IndexOf(HeadBefore(early, end));
    assert forall i :: 0 <= i < n ==> early[i] == log[i];
    if m < n {
      assert log[m] == early[m];
    }
    if k > m {
      assert log[k - 1].acceptedAt < end;
    }
  }

  /** One more event disturbs a boundary exactly if it is dated before the boundary's end. */
  lemma QuietAppended<T>(log: seq<Dated<T>>, at: int, hash: string, fact: T, through: int, end: int)
    requires 0 <= through <= |log|
    ensures QuietAfter(Append(log, at, hash, fact), through, end) <==> QuietAfter(log, through, end) && at >= end
  {
    var u := Append(log, at, hash, fact);
    assert u[|log|].acceptedAt == at;
    assert forall i :: 0 <= i < |log| ==> u[i] == log[i];
  }
}
