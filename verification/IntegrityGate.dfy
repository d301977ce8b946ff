/**
  The integrity gate in front of every request: a trusted revision, a sticky failure, and checks during
  which other connections may commit.

  The revision is the connection's view of the data: it changes when another connection commits, and not
  when this process writes.  The mutex admits one audit or gate call at a time; commits and own writes
  come between any two of its reads.
*/
module IntegrityGate {
  import opened Basics

  // ---------------------------------------------------------------- the fields and their updates

  datatype Fields = Fields(trustedRevision: int, revisionTrusted: bool, failed: bool)

  /** What a complete audit reads: the revision before and after, and whether every check passed. */
  datatype AuditReads = AuditReads(before: Option<int>, passed: bool, after: Option<int>)

  function AfterAudit(f: Fields, a: AuditReads): Fields {
    if a.before.Some? && a.passed && a.after == a.before then Fields(a.before.value, true, false)
    else f.(failed := true)
  }

  datatype Verdict = Admitted | Refused

  /** What a gate call reads; on the fast path only the first revision is used. */
  datatype GateReads = GateReads(before: Option<int>, passed: bool, after: Option<int>)

  predicate FastPath(f: Fields, revision: int) { f.revisionTrusted && revision == f.trustedRevision }

  function GateVerdict(f: Fields, g: GateReads): Verdict {
    if f.failed || g.before.None? then Refused
    else if FastPath(f, g.before.value) then Admitted
    else if g.passed && g.after == g.before then Admitted
    else Refused
  }

  function AfterGate(f: Fields, g: GateReads): Fields {
    if GateVerdict(f, g) == Admitted then Fields(g.before.value, true, f.failed) else f
  }

  class Service {
    var trustedRevision: int
    var revisionTrusted: bool
    var failed: bool

    function Contents(): Fields
      reads this
    {
      Fields(trustedRevision, revisionTrusted, failed)
    }

    constructor ()
      ensures Contents() == Fields(0, false, false)
    {
      trustedRevision, revisionTrusted, failed := 0, false, false;
    }

    method VerifyState(before: Option<int>, complete: bool, merkle: bool, after: Option<int>) returns (ok: bool)
      modifies this
      ensures Contents() == AfterAudit(old(Contents()), AuditReads(before, complete && merkle, after))
      ensures ok == !failed && (ok <==> before.Some? && complete && merkle && after == before)
      ensures if ok then revisionTrusted && Some(trustedRevision) == before
              else revisionTrusted == old(revisionTrusted) && trustedRevision == old(trustedRevision)
    {
      if before.None? || !complete {
        failed := true;
        return false;
      }
      if !merkle {
        failed := true;
        return false;
      }
      if after.None? {
        failed := true;
        return false;
      }
      if before.value != after.value {
        failed := true;
        return false;
      }
      trustedRevision, revisionTrusted, failed := after.value, true, false;
      return true;
    }

    method VerifyOperationalState(before: Option<int>, checks: seq<bool>, after: Option<int>) returns (v: Verdict)
      modifies this
      ensures var g := GateReads(before, forall i :: 0 <= i < |checks| ==> checks[i], after);
              v == GateVerdict(old(Contents()), g) && Contents() == AfterGate(old(Contents()), g)
      ensures v == Admitted
              <==> && !old(failed) && before.Some?
                   && ((old(revisionTrusted) && before.value == old(trustedRevision))
                       || ((forall i :: 0 <= i < |checks| ==> checks[i]) && after == before))
      ensures failed == old(failed)
      ensures if v == Admitted then revisionTrusted && Some(trustedRevision) == before
              else revisionTrusted == old(revisionTrusted) && trustedRevision == old(trustedRevision)
    {
      if failed || before.None? {
        return Refused;
      }
      if revisionTrusted && before.value == trustedRevision {
        return Admitted;
      }
      var i := 0;
      while i < |checks|
        invariant 0 <= i <= |checks| && forall k :: 0 <= k < i ==> checks[k]
      {
        if !checks[i] {
          return Refused;
        }
        i := i + 1;
      }
      if after.None? || before.value != after.value {
        return Refused;
      }
      trustedRevision, revisionTrusted := after.value, true;
      return Admitted;
    }
  }

  // ---------------------------------------------------------------- the interleaved machine

  /** A check passes on some contents of the database; contents are named by numbers. */
  type Check = iset<int>

  /** The checks of a complete audit and those of a gate call, in their order. */
  datatype Checks = Checks(full: seq<Check>, boundary: seq<Check>)

  datatype Kind = Full | Boundary

  function ChecksOf(c: Checks, k: Kind): seq<Check> { if k == Full then c.full else c.boundary }

  /** Where the holder of the mutex is: what it read first, and how many checks have passed. */
  datatype Phase = Idle | Checking(kind: Kind, before: int, passed: nat)

  /**
    `trust` is the kind of check that established the trusted revision, `audit` the outcome of the last
    complete audit, and `verdict` what the last step answered.
  */
  datatype State = State(
    fields: Fields, phase: Phase, content: int, revision: int, trust: Kind, audit: Option<bool>,
    verdict: Option<Verdict>)

  /** `readable` says whether the first reading of the revision succeeds; a `ReadError` is a later one that does not. */
  datatype Step =
    | ExternalCommit(to: int)
    | OwnWrite(to: int)
    | StartAudit(readable: bool)
    | StartGate(readable: bool)
    | NextCheck
    | EndChecks
    | ReadError

  ghost predicate Passes(c: Check, content: int) { content in c }

  /** Writes of this process keep whatever a check has established. */
  ghost predicate Preserves(c: Checks, from: int, to: int) {
    && (forall i :: 0 <= i < |c.full| && Passes(c.full[i], from) ==> Passes(c.full[i], to))
    && (forall i :: 0 <= i < |c.boundary| && Passes(c.boundary[i], from) ==> Passes(c.boundary[i], to))
  }

  ghost function Finish(s: State, kind: Kind, before: Option<int>, passed: bool, after: Option<int>): State {
    if kind == Full then
      var f := AfterAudit(s.fields, AuditReads(before, passed, after));
      s.(fields := f, phase := Idle, trust := if f.failed then s.trust else Full, audit := Some(!f.failed),
         verdict := None)
    else
      var g := GateReads(before, passed, after);
      var v := GateVerdict(s.fields, g);
      s.(fields := AfterGate(s.fields, g), phase := Idle, trust := if v == Admitted then Boundary else s.trust,
         verdict := Some(v))
  }

  ghost function Apply(c: Checks, s: State, step: Step): State {
    match step
    case ExternalCommit(to) => s.(content := to, revision := s.revision + 1, verdict := None)
    case OwnWrite(to) => if Preserves(c, s.content, to) then s.(content := to, verdict := None) else s.(verdict := None)
    case StartAudit(readable) =>
      if s.phase != Idle then s.(verdict := None)
      else if !readable then Finish(s, Full, None, false, None)
      else s.(phase := Checking(Full, s.revision, 0), verdict := None)
    case StartGate(readable) =>
      if s.phase != Idle then s.(verdict := None)
      else if s.fields.failed || !readable then Finish(s, Boundary, None, false, None)
      else if FastPath(s.fields, s.revision) then s.(verdict := Some(Admitted))
      else s.(phase := Checking(Boundary, s.revision, 0), verdict := None)
    case NextCheck =>
      (match s.phase
       case Idle => s.(verdict := None)
       case Checking(kind, before, passed) =>
         if passed >= |ChecksOf(c, kind)| then s.(verdict := None)
         else if Passes(ChecksOf(c, kind)[passed], s.content) then
           s.(phase := Checking(kind, before, passed + 1), verdict := None)
         else Finish(s, kind, Some(before), false, Some(s.revision)))
    case EndChecks =>
      (match s.phase
       case Idle => s.(verdict := None)
       case Checking(kind, before, passed) =>
         if passed < |ChecksOf(c, kind)| then s.(verdict := None)
         else Finish(s, kind, Some(before), true, Some(s.revision)))
    case ReadError =>
      (match s.phase
       case Idle => s.(verdict := None)
       case Checking(kind, before, passed) => Finish(s, kind, Some(before), false, None))
  }

  ghost function Run(c: Checks, s: State, steps: seq<Step>): State
    decreases |steps|
  {
    if steps == [] then s else Run(c, Apply(c, s, steps[0]), steps[1..])
  }

  /** A service that just started, over any content. */
  ghost predicate Initial(s: State) {
    s.fields == Fields(0, false, false) && s.phase == Idle && s.revision >= 0 && s.audit == None && s.verdict == None
  }

  /** The first `n` checks of a kind pass on the content. */
  ghost predicate Holds(c: Checks, kind: Kind, n: nat, content: int)
  {
    forall i :: 0 <= i < n && i < |ChecksOf(c, kind)| ==> Passes(ChecksOf(c, kind)[i], content)
  }

  ghost predicate AllHold(c: Checks, kind: Kind, content: int) {
    Holds(c, kind, |ChecksOf(c, kind)|, content)
  }

  ghost predicate Sound(c: Checks, s: State) {
    && (s.fields.failed <==> s.audit == Some(false))
    && (s.fields.revisionTrusted ==> s.fields.trustedRevision <= s.revision)
    && (FastPath(s.fields, s.revision) ==> AllHold(c, s.trust, s.content))
    && (s.phase.Checking? ==>
          && s.phase.before <= s.revision && s.phase.passed <= |ChecksOf(c, s.phase.kind)|
          && (s.phase.before == s.revision ==> Holds(c, s.phase.kind, s.phase.passed, s.content))
          && (s.phase.kind == Boundary ==> !s.fields.failed && !FastPath(s.fields, s.phase.before)))
    && (s.verdict == Some(Admitted) ==> !s.fields.failed && FastPath(s.fields, s.revision))
  }

  lemma PreservesHolds(c: Checks, kind: Kind, n: nat, from: int, to: int)
    requires Preserves(c, from, to) && Holds(c, kind, n, from)
    ensures Holds(c, kind, n, to)
  {
  }

  lemma OwnWriteSound(c: Checks, s: State, to: int)
    requires Sound(c, s)
    ensures Sound(c, Apply(c, s, OwnWrite(to)))
  {
    if Preserves(c, s.content, to) {
      if FastPath(s.fields, s.revision) {
        PreservesHolds(c, s.trust, |ChecksOf(c, s.trust)|, s.content, to);
      }
      if s.phase.Checking? && s.phase.before == s.revision {
        PreservesHolds(c, s.phase.kind, s.phase.passed, s.content, to);
      }
    }
  }

  lemma ProgressSound(c: Checks, s: State, step: Step)
    requires Sound(c, s) && (step.NextCheck? || step.EndChecks? || step.ReadError?)
    ensures Sound(c, Apply(c, s, step))
  {
  }

  lemma StepSound(c: Checks, s: State, step: Step)
    requires Sound(c, s)
    ensures Sound(c, Apply(c, s, step))
  {
    match step
    case OwnWrite(to) => OwnWriteSound(c, s, to);
    case NextCheck => ProgressSound(c, s, step);
    case EndChecks => ProgressSound(c, s, step);
    case ReadError => ProgressSound(c, s, step);
    case _ =>
  }

  lemma {:induction false} RunSound(c: Checks, s: State, steps: seq<Step>)
    requires Sound(c, s)
    ensures Sound(c, Run(c, s, steps))
    decreases |steps|
  {
    if steps != [] {
      StepSound(c, s, steps[0]);
      RunSound(c, Apply(c, s, steps[0]), steps[1..]);
    }
  }

  /**
    An admitted request stands on a check that is still true: no complete audit has failed since the last
    that succeeded, and on the present content every check of the kind that established the trust passes,
    whatever was committed in between.
  */
  lemma AdmissionIsSafe(c: Checks, s: State, steps: seq<Step>)
    requires Initial(s) && Run(c, s, steps).verdict == Some(Admitted)
    ensures var t := Run(c, s, steps);
            t.audit != Some(false) && t.fields.trustedRevision == t.revision && AllHold(c, t.trust, t.content)
  {
    RunSound(c, s, steps);
  }

  /** Steps in which no other connection commits. */
  ghost predicate NoCommits(steps: seq<Step>) {
    forall i :: 0 <= i < |steps| ==> !steps[i].ExternalCommit?
  }

  /** With an audit's revision trusted and still current, the trust stays an audit's. */
  lemma QuietStep(c: Checks, s: State, step: Step)
    requires Sound(c, s) && s.fields.revisionTrusted && s.fields.trustedRevision == s.revision && s.trust == Full
    requires s.phase.Checking? ==> s.phase.kind == Full
    requires !step.ExternalCommit?
    ensures var t := Apply(c, s, step);
            && t.fields.revisionTrusted && t.fields.trustedRevision == t.revision == s.revision && t.trust == Full
            && (t.phase.Checking? ==> t.phase.kind == Full)
  {
  }

  lemma {:induction false} QuietRun(c: Checks, s: State, steps: seq<Step>)
    requires Sound(c, s) && s.fields.revisionTrusted && s.fields.trustedRevision == s.revision && s.trust == Full
    requires s.phase.Checking? ==> s.phase.kind == Full
    requires NoCommits(steps)
    ensures Run(c, s, steps).trust == Full
    decreases |steps|
  {
    if steps != [] {
      assert !steps[0].ExternalCommit?;
      QuietStep(c, s, steps[0]);
      StepSound(c, s, steps[0]);
      QuietRun(c, Apply(c, s, steps[0]), steps[1..]);
    }
  }

  /** The state right after a complete audit has succeeded. */
  ghost predicate JustAudited(s: State) {
    s.phase == Idle && s.trust == Full && s.audit == Some(true) && FastPath(s.fields, s.revision)
  }

  /**
    The fast path never admits an invalid state: from a successful audit until another connection
    commits, every admitted request sees a content on which all checks of the complete audit pass.
  */
  lemma FastPathIsFullyValid(c: Checks, s: State, before: seq<Step>, quiet: seq<Step>)
    requires Initial(s) && JustAudited(Run(c, s, before)) && NoCommits(quiet)
    requires Run(c, Run(c, s, before), quiet).verdict == Some(Admitted)
    ensures AllHold(c, Full, Run(c, Run(c, s, before), quiet).content)
  {
    RunSound(c, s, before);
    var t := Run(c, s, before);
    QuietRun(c, t, quiet);
    RunSound(c, t, quiet);
  }

  /** Steps in which no complete audit ends: what a failed one leaves, stays. */
  ghost predicate NoAuditEnds(c: Checks, s: State, steps: seq<Step>)
    decreases |steps|
  {
    steps == [] || (Apply(c, s, steps[0]).audit == s.audit && NoAuditEnds(c, Apply(c, s, steps[0]), steps[1..]))
  }

  lemma {:induction false} FailureIsSticky(c: Checks, s: State, steps: seq<Step>)
    requires Sound(c, s) && s.audit == Some(false) && s.verdict != Some(Admitted) && NoAuditEnds(c, s, steps)
    ensures Run(c, s, steps).verdict != Some(Admitted)
    decreases |steps|
  {
    if steps != [] {
      StepSound(c, s, steps[0]);
      FailureIsSticky(c, Apply(c, s, steps[0]), steps[1..]);
    }
  }

  /** A complete audit is under way after every one of the steps. */
  ghost predicate UnderWay(c: Checks, s: State, steps: seq<Step>)
    decreases |steps|
  {
    && s.phase.Checking? && s.phase.kind == Full
    && (steps == [] || UnderWay(c, Apply(c, s, steps[0]), steps[1..]))
  }

  /** While it is under way, the revision it began with is the present one until another connection commits. */
  lemma {:induction false} RevisionMoves(c: Checks, s: State, steps: seq<Step>)
    requires UnderWay(c, s, steps) && s.phase.before <= s.revision
    ensures var t := Run(c, s, steps);
            && t.phase.Checking? && t.phase.kind == Full && t.phase.before == s.phase.before
            && t.phase.before <= t.revision
            && (t.phase.before == t.revision <==> s.phase.before == s.revision && NoCommits(steps))
    decreases |steps|
  {
    if steps != [] {
      var u := Apply(c, s, steps[0]);
      RevisionMoves(c, u, steps[1..]);
      assert NoCommits(steps) <==> !steps[0].ExternalCommit? && NoCommits(steps[1..]) by {
        NoCommitsFirst(steps);
      }
    }
  }

  lemma NoCommitsFirst(steps: seq<Step>)
    requires steps != []
    ensures NoCommits(steps) <==> !steps[0].ExternalCommit? && NoCommits(steps[1..])
  {
    assert forall i :: 1 <= i < |steps| ==> steps[i] == steps[1..][i - 1];
  }

  /**
    A complete audit that begins in state `s` and ends with the step `last` succeeds if and only if it ends by
    having passed all its checks and no other connection committed since it began.  After a success the
    content passes every check of a complete audit.
  */
  lemma AuditEndsIff(c: Checks, s: State, steps: seq<Step>, last: Step)
    requires Sound(c, s) && s.phase == Idle
    requires UnderWay(c, Apply(c, s, StartAudit(true)), steps)
    requires Apply(c, Run(c, Apply(c, s, StartAudit(true)), steps), last).phase == Idle
    ensures var t := Apply(c, Run(c, Apply(c, s, StartAudit(true)), steps), last);
            && t.audit == Some(last == EndChecks && NoCommits(steps))
            && (t.audit == Some(true) ==> JustAudited(t) && AllHold(c, Full, t.content))
  {
    var u := Apply(c, s, StartAudit(true));
    StepSound(c, s, StartAudit(true));
    RunSound(c, u, steps);
    RevisionMoves(c, u, steps);
    StepSound(c, Run(c, u, steps), last);
  }

  // ---------------------------------------------------------------- what a gate call answers

  /** A gate call is under way after every one of the steps. */
  ghost predicate GateUnderWay(c: Checks, s: State, steps: seq<Step>)
    decreases |steps|
  {
    && s.phase.Checking? && s.phase.kind == Boundary
    && (steps == [] || GateUnderWay(c, Apply(c, s, steps[0]), steps[1..]))
  }

  lemma {:induction false} GateRevisionMoves(c: Checks, s: State, steps: seq<Step>)
    requires GateUnderWay(c, s, steps) && s.phase.before <= s.revision
    ensures var t := Run(c, s, steps);
            && t.phase.Checking? && t.phase.kind == Boundary && t.phase.before == s.phase.before
            && t.fields == s.fields && t.phase.before <= t.revision
            && (t.phase.before == t.revision <==> s.phase.before == s.revision && NoCommits(steps))
    decreases |steps|
  {
    if steps != [] {
      GateRevisionMoves(c, Apply(c, s, steps[0]), steps[1..]);
      NoCommitsFirst(steps);
    }
  }

  /** The trusted revision is the present one. */
  ghost predicate Trusted(s: State) {
    s.fields.revisionTrusted && s.fields.trustedRevision == s.revision
  }

  /**
    A gate call that begins without a failed audit and without a trusted present revision, and that ends with
    the step `last`, admits if and only if it ends by having passed all its checks and no other connection
    committed since it began.  Then the present revision is trusted; otherwise the fields stay as they were.
  */
  lemma GateEndsIff(c: Checks, s: State, steps: seq<Step>, last: Step)
    requires Sound(c, s) && s.phase == Idle && !s.fields.failed && !Trusted(s)
    requires GateUnderWay(c, Apply(c, s, StartGate(true)), steps)
    requires Apply(c, Run(c, Apply(c, s, StartGate(true)), steps), last).phase == Idle
    ensures var t := Apply(c, Run(c, Apply(c, s, StartGate(true)), steps), last);
            var admits := last == EndChecks && NoCommits(steps);
            && t.verdict == Some(if admits then Admitted else Refused)
            && (if admits then Trusted(t) && !t.fields.failed && AllHold(c, Boundary, t.content)
                else t.fields == s.fields)
  {
    var u := Apply(c, s, StartGate(true));
    StepSound(c, s, StartGate(true));
    RunSound(c, u, steps);
    GateRevisionMoves(c, u, steps);
    StepSound(c, Run(c, u, steps), last);
  }

  /** A gate call begins its checks, or answers at once by a trusted revision, a failed audit or a failed reading. */
  lemma GateBegins(c: Checks, s: State, readable: bool)
    requires s.phase == Idle
    ensures var t := Apply(c, s, StartGate(readable));
            && t.fields == s.fields && t.content == s.content && t.revision == s.revision
            && (if s.fields.failed || !readable then t.phase == Idle && t.verdict == Some(Refused)
                else if Trusted(s) then t.phase == Idle && t.verdict == Some(Admitted)
                else t.phase == Checking(Boundary, s.revision, 0) && t.verdict == None)
  {
  }

  /** Checks that pass are followed by the next one; after the last one the call can end, and not before. */
  lemma ChecksGoOn(c: Checks, s: State)
    requires s.phase.Checking? && s.phase.passed <= |ChecksOf(c, s.phase.kind)|
    ensures var n, k := s.phase.passed, |ChecksOf(c, s.phase.kind)|;
            && (n < k && s.content in ChecksOf(c, s.phase.kind)[n] ==>
                  Apply(c, s, NextCheck).phase == s.phase.(passed := n + 1))
            && (n < k && s.content !in ChecksOf(c, s.phase.kind)[n] ==> Apply(c, s, NextCheck).phase == Idle)
            && (Apply(c, s, EndChecks).phase == Idle <==> n == k) && Apply(c, s, ReadError).phase == Idle
  {
  }

  /** A complete audit whose first reading fails is a failed one. */
  lemma UnreadableAuditFails(c: Checks, s: State)
    requires s.phase == Idle
    ensures var t := Apply(c, s, StartAudit(false));
            t.fields.failed && t.audit == Some(false) && t.phase == Idle
  {
  }
}
