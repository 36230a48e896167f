/**
The meaning of a run: everything the report says is a function of the set of distinct events,
whatever files they came in and whatever order they were read in.
*/
module Meaning {
  import opened Protocol
  import opened Validator
  import opened Lifecycle
  import opened Soundness

  ghost predicate SameEvents(a: seq<Event>, b: seq<Event>) {
    forall e :: e in a <==> e in b
  }

  // ---------------------------------------------------------------- sessions

  lemma NumberedNoLonger(a: seq<Event>, b: seq<Event>)
    requires WellNumbered(a) && WellNumbered(b) && SameEvents(a, b)
    ensures |a| <= |b|
  {
    if a != [] {
      assert a[|a| - 1] in b;
    }
  }

  /** A numbered session is determined by the set of its events. */
  lemma NumberedUnique(a: seq<Event>, b: seq<Event>)
    requires WellNumbered(a) && WellNumbered(b) && SameEvents(a, b)
    ensures a == b
  {
    NumberedNoLonger(a, b);
    NumberedNoLonger(b, a);
    forall i | 0 <= i < |a| ensures a[i] == b[i] {
      assert a[i] in b;
    }
  }

  lemma SameSessions(a: seq<Event>, b: seq<Event>, s: string)
    requires Lawful(a) && Lawful(b) && SameEvents(a, b)
    ensures Of(a, s) == Of(b, s)
  {
    SessionsAreNumbered(a, s);
    SessionsAreNumbered(b, s);
    OfMembers(a, s);
    OfMembers(b, s);
    NumberedUnique(Of(a, s), Of(b, s));
  }

  // ---------------------------------------------------------------- counts

  function Without(log: seq<Event>, i: nat): seq<Event>
    requires i < |log|
  {
    log[..i] + log[i + 1..]
  }

  lemma {:induction false} TallyWithout(log: seq<Event>, i: nat)
    requires i < |log|
    ensures Tally(log) == Plus(Tally(Without(log, i)), Weight(log[i]))
    decreases |log|
  {
    hide Weight;
    var before, e := log[..|log| - 1], log[|log| - 1];
    if i == |before| {
      assert Without(log, i) == before;
    } else {
      TallyWithout(before, i);
      assert Without(log, i) == Without(before, i) + [e];
      TallySnoc(Without(before, i), e);
    }
  }

  ghost predicate Distinct(log: seq<Event>) {
    forall i, j | 0 <= i < j < |log| :: log[i] != log[j]
  }

  lemma LawfulIsDistinct(log: seq<Event>)
    requires Lawful(log)
    ensures Distinct(log)
  {
    forall i, j | 0 <= i < j < |log| ensures log[i] != log[j] { IdentifiersAreUnique(log, i, j); }
  }

  lemma FirstIsMember(log: seq<Event>)
    requires log != []
    ensures exists e :: e in log
  {
    assert log[0] in log;
  }

  lemma {:induction false} TallySame(a: seq<Event>, b: seq<Event>)
    requires Distinct(a) && Distinct(b) && SameEvents(a, b)
    ensures Tally(a) == Tally(b) && |a| == |b|
  {
    hide Weight;
    if a == [] {
      if b != [] { FirstIsMember(b); }
    } else {
      var before, e := a[..|a| - 1], a[|a| - 1];
      assert e in a;
      var i :| 0 <= i < |b| && b[i] == e;
      var rest := Without(b, i);
      forall x ensures x in before <==> x in rest {
        if x in before { assert x in b; var k :| 0 <= k < |b| && b[k] == x; assert k != i; assert rest[if k < i then k else k - 1] == x; }
        if x in rest { assert x in b; assert x in a; assert x != e; }
      }
      TallySame(before, rest);
      TallyWithout(b, i);
    }
  }

  // ---------------------------------------------------------------- the whole state

  lemma SameSteps(a: map<string, AttemptState>, b: map<string, AttemptState>, la: seq<Event>, lb: seq<Event>, i: string)
    requires StepInv(a, la) && StepInv(b, lb) && SameEvents(la, lb) && i in a && i in b
    ensures a[i].steps == b[i].steps
  {
    assert StepsStarted(la, i) == StepsStarted(lb, i) && StepsFinished(la, i) == StepsFinished(lb, i);
  }

  lemma SameAttempt(a: map<string, AttemptState>, b: map<string, AttemptState>, la: seq<Event>, lb: seq<Event>, i: string)
    requires AttemptInv(a, la) && AttemptInv(b, lb) && SameEvents(la, lb) && i in a && i in b
    ensures a[i].(steps := b[i].steps) == b[i]
  {
    assert Finished(la) == Finished(lb);
    var x :| x in la && x.payload.AttemptStarted? && x.payload.attemptId == i;
    assert x in lb;
    if i in Finished(la) {
      var y :| y in la && y.payload.AttemptFinished? && y.payload.attemptId == i;
      assert y in lb;
    }
  }

  lemma SameKeys(a: map<string, AttemptState>, b: map<string, AttemptState>, la: seq<Event>, lb: seq<Event>)
    requires AttemptInv(a, la) && AttemptInv(b, lb) && SameEvents(la, lb)
    ensures a.Keys == b.Keys
  {
    assert Started(la) == Started(lb);
  }

  lemma SameAttempts(a: map<string, AttemptState>, b: map<string, AttemptState>, la: seq<Event>, lb: seq<Event>)
    requires AttemptInv(a, la) && AttemptInv(b, lb) && StepInv(a, la) && StepInv(b, lb) && SameEvents(la, lb)
    ensures a == b
  {
    hide StepInv;
    SameKeys(a, b, la, lb);
    hide AttemptInv, SameEvents;
    forall i | i in a ensures i in b && a[i] == b[i] {
      SameSteps(a, b, la, lb, i);
      SameAttempt(a, b, la, lb, i);
    }
  }

  lemma SameExecutions(a: map<string, ExecutionState>, b: map<string, ExecutionState>, la: seq<Event>, lb: seq<Event>)
    requires ExecutionInv(a, la) && ExecutionInv(b, lb) && SameEvents(la, lb)
    requires forall s :: RunnerOf(la, s) == RunnerOf(lb, s)
    ensures a == b
  {
    assert Executions(la) == Executions(lb);
    forall x | x in a ensures a[x] == b[x] {
      assert Numbers(la, x) == Numbers(lb, x);
      var e :| e in la && e.payload.AttemptStarted? && e.payload.execution == x;
      assert e in lb;
    }
  }

  lemma SameSessionTables(a: map<string, SessionState>, b: map<string, SessionState>, la: seq<Event>, lb: seq<Event>)
    requires SessionInv(a, la) && SessionInv(b, lb) && SameEvents(la, lb)
    requires forall s :: Of(la, s) == Of(lb, s)
    ensures a == b
  {
    assert a.Keys == b.Keys;
    forall s | s in a ensures a[s] == b[s] {
      assert SessionClosed(la, s) <==> SessionClosed(lb, s);
    }
  }

  lemma SameSeen(c: Core, d: Core, la: seq<Event>, lb: seq<Event>)
    requires SeenInv(c.seen, c.runId, la) && SeenInv(d.seen, d.runId, lb) && SameEvents(la, lb)
    ensures c.seen == d.seen && c.runId == d.runId
  {
    assert c.seen.Keys == d.seen.Keys;
    if la != [] { assert la[0] in lb; }
    if lb != [] { assert lb[0] in la; }
  }

  /** Two lawful readings of the same events end in the same state. */
  lemma SameState(c: Core, d: Core, la: seq<Event>, lb: seq<Event>)
    requires Lawful(la) && Lawful(lb) && Inv(c, la) && Inv(d, lb) && SameEvents(la, lb)
    ensures d == c.(errors := d.errors)
  {
    forall s ensures Of(la, s) == Of(lb, s) { SameSessions(la, lb, s); }
    SameSeen(c, d, la, lb);
    SameSessionTables(c.sessions, d.sessions, la, lb);
    SameAttempts(c.attempts, d.attempts, la, lb);
    SameExecutions(c.executions, d.executions, la, lb);
    LawfulIsDistinct(la);
    LawfulIsDistinct(lb);
    TallySame(la, lb);
    assert RunClosed(la) <==> RunClosed(lb);
  }

  /** Two run directories fed without error that hold the same events mean the same run. */
  lemma SameEventsSameReport(fs: seq<File>, gs: seq<File>)
    requires FeedAll(FRESH, fs).core.errors == [] && FeedAll(FRESH, gs).core.errors == []
    requires SameEvents(Logged(fs), Logged(gs))
    ensures FeedAll(FRESH, fs).core == FeedAll(FRESH, gs).core
  {
    FedExact(fs);
    FedExact(gs);
    SameState(FeedAll(FRESH, fs).core, FeedAll(FRESH, gs).core, Logged(fs), Logged(gs));
  }

  // ---------------------------------------------------------------- the verdict

  predicate StillOpen(log: seq<Event>) {
    exists e | e in log ::
      || (e.payload.SessionStarted? && !SessionClosed(log, e.sessionId))
      || (e.payload.AttemptStarted? && e.payload.attemptId !in Finished(log))
      || (e.payload.StepStarted? && e.payload.stepId !in StepsFinished(log, e.payload.attemptId))
  }

  /** The attempt with the highest number of its execution. */
  predicate FinalStart(log: seq<Event>, x: Event) {
    && x in log && x.payload.AttemptStarted?
    && forall y | y in log && y.payload.AttemptStarted? && y.payload.execution == x.payload.execution ::
         y.payload.number <= x.payload.number
  }

  /** The end of a final attempt. */
  predicate FinalEnd(log: seq<Event>, y: Event) {
    && y in log && y.payload.AttemptFinished?
    && exists x | x in log :: FinalStart(log, x) && x.payload.attemptId == y.payload.attemptId
  }

  predicate FailureEvidence(log: seq<Event>) {
    exists e | e in log ::
      || (FinalEnd(log, e) && Unexpected(e.payload.status, e.payload.expected))
      || e.payload.ScopeFailed?
      || (e.payload.SessionFinished? && e.payload.outcome == Some(SessionFailed))
  }

  predicate DoubtEvidence(log: seq<Event>) {
    exists e | e in log ::
      || (FinalEnd(log, e) && e.payload.status.Inconclusive?)
      || (e.payload.SessionFinished? && e.payload.outcome == Some(SessionInconclusive))
  }

  /** The four rules, in order of precedence. */
  function VerdictByRules(log: seq<Event>): Verdict {
    if StillOpen(log) then VerdictIncomplete
    else if FailureEvidence(log) then VerdictFailed
    else if DoubtEvidence(log) then VerdictInconclusive
    else VerdictPassed
  }

  lemma {:induction false} TallyEvidence(log: seq<Event>)
    ensures Tally(log).scopeFailures > 0 <==> exists e | e in log :: e.payload.ScopeFailed?
    ensures Tally(log).failedSessions > 0 <==>
            exists e | e in log :: e.payload.SessionFinished? && e.payload.outcome == Some(SessionFailed)
    ensures Tally(log).inconclusiveSessions > 0 <==>
            exists e | e in log :: e.payload.SessionFinished? && e.payload.outcome == Some(SessionInconclusive)
  {
    if log != [] {
      TallyEvidence(log[..|log| - 1]);
      assert log == log[..|log| - 1] + [log[|log| - 1]];
      assert forall e :: e in log <==> e in log[..|log| - 1] || e == log[|log| - 1];
    }
  }

  lemma OpenExact(c: Core, log: seq<Event>)
    requires Inv(c, log) && Lawful(log)
    ensures Complete(c) <==> !StillOpen(log)
  {
    CompleteWhenSessionsFinish(c, log);
    if StillOpen(log) {
      var e :| e in log &&
        (|| (e.payload.SessionStarted? && !SessionClosed(log, e.sessionId))
         || (e.payload.AttemptStarted? && e.payload.attemptId !in Finished(log))
         || (e.payload.StepStarted? && e.payload.stepId !in StepsFinished(log, e.payload.attemptId)));
      OfMembers(log, e.sessionId);
      assert e in Of(log, e.sessionId);
      if e.payload.AttemptStarted? { assert e.payload.attemptId in Started(log); }
      if e.payload.StepStarted? { assert e.payload.stepId in StepsStarted(log, e.payload.attemptId); }
    } else {
      forall s | s in c.sessions ensures c.sessions[s].finished {
        SessionsAreNumbered(log, s);
        OfMembers(log, s);
        assert Of(log, s)[0] in log;
      }
    }
  }

  lemma FinalExact(c: Core, log: seq<Event>, y: Event)
    requires AttemptInv(c.attempts, log) && y in log && y.payload.AttemptFinished?
    ensures y.payload.attemptId in c.attempts
    ensures Final(c, y.payload.attemptId) <==> FinalEnd(log, y)
  {
    var a := y.payload.attemptId;
    var x :| x in log && x.payload.AttemptStarted? && x.payload.attemptId == a;
    if Final(c, a) {
      forall z | z in log && z.payload.AttemptStarted? && z.payload.execution == x.payload.execution
        ensures z.payload.number <= x.payload.number
      {
        assert z.payload.attemptId in Started(log);
      }
      assert FinalStart(log, x);
    }
    if FinalEnd(log, y) {
      var w :| w in log && FinalStart(log, w) && w.payload.attemptId == a;
      forall b | b in c.attempts && c.attempts[b].execution == c.attempts[a].execution
        ensures c.attempts[b].number <= c.attempts[a].number
      {
        var z :| z in log && z.payload.AttemptStarted? && z.payload.attemptId == b;
      }
    }
  }

  /** The attempt table says of an ended attempt what its end says. */
  lemma EndTabled(c: Core, log: seq<Event>, y: Event)
    requires AttemptInv(c.attempts, log) && y in log && FinalEnd(log, y)
    ensures y.payload.AttemptFinished? && y.payload.attemptId in c.attempts && Final(c, y.payload.attemptId)
    ensures c.attempts[y.payload.attemptId].unexpected == Unexpected(y.payload.status, y.payload.expected)
    ensures c.attempts[y.payload.attemptId].inconclusive == y.payload.status.Inconclusive?
  {
    hide Final, Unexpected;
    FinalExact(c, log, y);
  }

  lemma EndOfFinal(c: Core, log: seq<Event>, a: string) returns (y: Event)
    requires AttemptInv(c.attempts, log) && a in c.attempts && c.attempts[a].finished && Final(c, a)
    ensures y in log && FinalEnd(log, y) && y.payload.attemptId == a
  {
    hide Final, FinalEnd, Unexpected;
    y :| y in log && y.payload.AttemptFinished? && y.payload.attemptId == a;
    FinalExact(c, log, y);
  }

  lemma FinalsExact(c: Core, log: seq<Event>)
    requires AttemptInv(c.attempts, log) && forall a | a in c.attempts :: c.attempts[a].finished
    ensures AnyFinalUnexpected(c) <==>
            exists y | y in log :: FinalEnd(log, y) && Unexpected(y.payload.status, y.payload.expected)
    ensures AnyFinalInconclusive(c) <==> exists y | y in log :: FinalEnd(log, y) && y.payload.status.Inconclusive?
  {
    hide AttemptInv, Final, FinalEnd, Unexpected;
    if AnyFinalUnexpected(c) {
      var a :| a in c.attempts && Final(c, a) && c.attempts[a].unexpected;
      var y := EndOfFinal(c, log, a);
      EndTabled(c, log, y);
    }
    if AnyFinalInconclusive(c) {
      var a :| a in c.attempts && Final(c, a) && c.attempts[a].inconclusive;
      var y := EndOfFinal(c, log, a);
      EndTabled(c, log, y);
    }
    forall y | y in log && FinalEnd(log, y)
      ensures y.payload.AttemptFinished? && (Unexpected(y.payload.status, y.payload.expected) ==> AnyFinalUnexpected(c))
      ensures y.payload.status.Inconclusive? ==> AnyFinalInconclusive(c)
    {
      EndTabled(c, log, y);
    }
  }

  lemma CompleteFinished(c: Core)
    requires Complete(c)
    ensures forall a | a in c.attempts :: c.attempts[a].finished
  {
  }

  /** The verdict of a lawful run is the four-rule derivation over its events. */
  lemma VerdictIsDerived(c: Core, log: seq<Event>)
    requires Inv(c, log) && Lawful(log)
    ensures DerivedVerdict(c) == VerdictByRules(log)
  {
    hide StepInv, ExecutionInv, SessionInv, SeenInv, AttemptInv, FinalEnd, Lawful, Complete, StillOpen, AnyFinalUnexpected,
         AnyFinalInconclusive, Unexpected, Tally;
    OpenExact(c, log);
    TallyEvidence(log);
    if Complete(c) { CompleteFinished(c); FinalsExact(c, log); }
  }
}
