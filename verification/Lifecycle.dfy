/**
The lifecycle rules as a specification over the log of events alone, and the proof that the
validator's bookkeeping decides exactly that specification.

`Admissible(log, e)` quantifies over the events already in the log and knows nothing of the
validator's maps. `Inv` ties the maps to the log.
*/
module Lifecycle {
  import opened Protocol
  import opened Validator

  // ---------------------------------------------------------------- reading a log

  /** The events of one session, in log order. */
  function Of(log: seq<Event>, session: string): seq<Event> {
    if log == [] then []
    else
      var last := log[|log| - 1];
      Of(log[..|log| - 1], session) + (if last.sessionId == session then [last] else [])
  }

  function Started(log: seq<Event>): set<string> {
    set e | e in log && e.payload.AttemptStarted? :: e.payload.attemptId
  }

  function Finished(log: seq<Event>): set<string> {
    set e | e in log && e.payload.AttemptFinished? :: e.payload.attemptId
  }

  function StepsStarted(log: seq<Event>, attempt: string): set<string> {
    set e | e in log && e.payload.StepStarted? && e.payload.attemptId == attempt :: e.payload.stepId
  }

  function StepsFinished(log: seq<Event>, attempt: string): set<string> {
    set e | e in log && e.payload.StepFinished? && e.payload.attemptId == attempt :: e.payload.stepId
  }

  function Executions(log: seq<Event>): set<string> {
    set e | e in log && e.payload.AttemptStarted? :: e.payload.execution
  }

  function Numbers(log: seq<Event>, execution: string): set<int> {
    set e | e in log && e.payload.AttemptStarted? && e.payload.execution == execution :: e.payload.number
  }

  predicate SessionClosed(log: seq<Event>, session: string) {
    exists e | e in log :: e.sessionId == session && e.payload.SessionFinished?
  }

  predicate RunClosed(log: seq<Event>) {
    exists e | e in log :: e.payload.RunFinished?
  }

  function RunnerOf(log: seq<Event>, session: string): Option<string> {
    var own := Of(log, session);
    if own != [] && own[0].payload.SessionStarted? then own[0].payload.runner else None
  }

  // ---------------------------------------------------------------- the rules

  predicate Consistent(log: seq<Event>, e: Event)
    requires e.payload.AttemptStarted?
  {
    forall x | x in log && x.payload.AttemptStarted? && x.payload.execution == e.payload.execution ::
      && x.payload.number != e.payload.number
      && x.payload.identity == e.payload.identity
      && RunnerOf(log, x.sessionId) == RunnerOf(log, e.sessionId)
  }

  predicate PayloadAdmissible(log: seq<Event>, e: Event) {
    match e.payload
    case SessionStarted(_) => true
    case SessionFinished(_, _, _) =>
      forall x | x in log && x.payload.AttemptStarted? && x.sessionId == e.sessionId ::
        x.payload.attemptId in Finished(log)
    case RunFinished => !RunClosed(log)
    case AttemptStarted(a, _, _, identity) =>
      && (identity.historicalId.Some? ==> RunnerOf(log, e.sessionId).Some?)
      && a !in Started(log)
      && Consistent(log, e)
    case AttemptFinished(a, _, _) =>
      a in Started(log) && a !in Finished(log) && StepsStarted(log, a) <= StepsFinished(log, a)
    case StepStarted(a, s, parent) =>
      && a in Started(log) && a !in Finished(log)
      && s !in StepsStarted(log, a)
      && (parent.Some? ==> parent.value in StepsStarted(log, a))
    case StepFinished(a, s) =>
      a in Started(log) && s in StepsStarted(log, a) && s !in StepsFinished(log, a)
    case AttachmentAdded(a, s, _, _) =>
      && a in Started(log) && a !in Finished(log)
      && (s.Some? ==> s.value in StepsStarted(log, a))
    case ScopeFailed => true
    case Unknown(_) => true
  }

  /** May `e` be the next event after `log`? */
  predicate Admissible(log: seq<Event>, e: Event) {
    && (forall x | x in log :: x.eventId != e.eventId && x.runId == e.runId)
    && e.sequence == |Of(log, e.sessionId)| + 1
    && (e.payload.SessionStarted? <==> Of(log, e.sessionId) == [])
    && (SessionClosed(log, e.sessionId) ==> e.payload.RunFinished?)
    && PayloadAdmissible(log, e)
  }

  // ---------------------------------------------------------------- the invariant

  ghost predicate SeenInv(seen: map<string, Event>, runId: Option<string>, log: seq<Event>) {
    && (forall e | e in log :: e.eventId in seen && seen[e.eventId] == e)
    && (forall id | id in seen :: seen[id] in log && seen[id].eventId == id)
    && (log == [] <==> runId.None?)
    && (forall e | e in log :: runId == Some(e.runId))
  }

  ghost predicate SessionInv(sessions: map<string, SessionState>, log: seq<Event>) {
    && (forall s :: s in sessions <==> Of(log, s) != [])
    && (forall s | s in sessions ::
          && sessions[s].lastSequence == |Of(log, s)|
          && !sessions[s].synthesized
          && sessions[s].runner == RunnerOf(log, s)
          && (sessions[s].finished <==> SessionClosed(log, s)))
  }

  ghost predicate AttemptInv(attempts: map<string, AttemptState>, log: seq<Event>) {
    && attempts.Keys == Started(log)
    && (forall e | e in log && e.payload.AttemptStarted? ::
          var a := attempts[e.payload.attemptId];
          a.session == e.sessionId && a.execution == e.payload.execution && a.number == e.payload.number)
    && (forall a | a in attempts :: attempts[a].finished <==> a in Finished(log))
    && (forall a | a in attempts && !attempts[a].finished :: !attempts[a].unexpected && !attempts[a].inconclusive)
    && (forall e | e in log && e.payload.AttemptFinished? ::
          && e.payload.attemptId in attempts
          && attempts[e.payload.attemptId].unexpected == Unexpected(e.payload.status, e.payload.expected)
          && attempts[e.payload.attemptId].inconclusive == e.payload.status.Inconclusive?)
  }

  ghost predicate StepInv(attempts: map<string, AttemptState>, log: seq<Event>) {
    && (forall a | a in attempts :: attempts[a].steps.Keys == StepsStarted(log, a))
    && (forall a, s | a in attempts && s in attempts[a].steps ::
          attempts[a].steps[s] <==> s in StepsFinished(log, a))
    && (forall e | e in log && (e.payload.StepStarted? || e.payload.StepFinished?) ::
          e.payload.attemptId in attempts)
    && (forall e | e in log && e.payload.StepFinished? :: e.payload.stepId in StepsStarted(log, e.payload.attemptId))
  }

  ghost predicate ExecutionInv(executions: map<string, ExecutionState>, log: seq<Event>) {
    && executions.Keys == Executions(log)
    && (forall x | x in executions ::
          executions[x].numbers == Numbers(log, x) && executions[x].runnerKnown)
    && (forall e | e in log && e.payload.AttemptStarted? ::
          var x := executions[e.payload.execution];
          x.identity == e.payload.identity && x.runner == RunnerOf(log, e.sessionId))
  }

  function Plus(m: Counts, n: Counts): Counts {
    Counts(m.events + n.events, m.ignored + n.ignored, m.steps + n.steps, m.attachments + n.attachments,
           m.scopeFailures + n.scopeFailures, m.failedAttempts + n.failedAttempts,
           m.failedSessions + n.failedSessions, m.inconclusiveSessions + n.inconclusiveSessions,
           m.sessionFailures + n.sessionFailures)
  }

  /** What one event adds to the counts of a lawful run. */
  function Weight(e: Event): Counts {
    var one := NO_COUNTS.(events := 1);
    match e.payload
    case SessionFinished(outcome, _, failures) =>
      one.(failedSessions := if outcome == Some(SessionFailed) then 1 else 0,
           inconclusiveSessions := if outcome == Some(SessionInconclusive) then 1 else 0,
           sessionFailures := |failures|)
    case AttemptFinished(_, status, _) => one.(failedAttempts := if status.Failed? then 1 else 0)
    case StepStarted(_, _, _) => one.(steps := 1)
    case AttachmentAdded(_, _, _, _) => one.(attachments := 1)
    case ScopeFailed => one.(scopeFailures := 1)
    case Unknown(_) => one.(ignored := 1)
    case _ => one
  }

  function Tally(log: seq<Event>): Counts {
    if log == [] then NO_COUNTS else Plus(Tally(log[..|log| - 1]), Weight(log[|log| - 1]))
  }

  ghost predicate Inv(c: Core, log: seq<Event>) {
    && SeenInv(c.seen, c.runId, log)
    && SessionInv(c.sessions, log)
    && AttemptInv(c.attempts, log)
    && StepInv(c.attempts, log)
    && ExecutionInv(c.executions, log)
    && c.closed == RunClosed(log)
    && c.counts == Tally(log)
  }

  // ---------------------------------------------------------------- logs grow at the end

  lemma OfSnoc(log: seq<Event>, e: Event, s: string)
    ensures Of(log + [e], s) == Of(log, s) + (if e.sessionId == s then [e] else [])
  {
    assert (log + [e])[..|log|] == log;
  }

  lemma TallySnoc(log: seq<Event>, e: Event)
    ensures Tally(log + [e]) == Plus(Tally(log), Weight(e))
  {
    assert (log + [e])[..|log|] == log;
  }

  lemma {:induction false} OfMembers(log: seq<Event>, s: string)
    ensures forall e :: e in Of(log, s) <==> e in log && e.sessionId == s
  {
    if log != [] {
      OfMembers(log[..|log| - 1], s);
      assert log == log[..|log| - 1] + [log[|log| - 1]];
    }
  }

  lemma RunnerSnoc(log: seq<Event>, e: Event, s: string)
    requires Of(log, s) != []
    ensures RunnerOf(log + [e], s) == RunnerOf(log, s)
  {
    OfSnoc(log, e, s);
  }

  // ---------------------------------------------------------------- one event, exactly

  lemma ExecutionFaultsExact(c: Core, log: seq<Event>, e: Event)
    requires SessionInv(c.sessions, log) && ExecutionInv(c.executions, log)
    requires e.payload.AttemptStarted? && e.sessionId in c.sessions
    ensures ExecutionFaults(c, e.payload, SessionFor(c, e)) == [] <==> Consistent(log, e)
  {
    var p := e.payload;
    if p.execution in c.executions {
      var known := c.executions[p.execution];
      var w :| w in log && w.payload.AttemptStarted? && w.payload.execution == p.execution;
      assert known.identity == w.payload.identity && known.runner == RunnerOf(log, w.sessionId);
      if Consistent(log, e) {
        assert p.number !in Numbers(log, p.execution);
      }
    }
  }

  lemma SessionEndExact(c: Core, log: seq<Event>, s: string)
    requires AttemptInv(c.attempts, log)
    ensures OpenAttempts(c.attempts, s) == {} <==>
            forall x | x in log && x.payload.AttemptStarted? && x.sessionId == s :: x.payload.attemptId in Finished(log)
  {
    if x :| x in log && x.payload.AttemptStarted? && x.sessionId == s && x.payload.attemptId !in Finished(log) {
      assert x.payload.attemptId in OpenAttempts(c.attempts, s);
    }
  }

  lemma AttemptEndExact(c: Core, log: seq<Event>, a: string)
    requires StepInv(c.attempts, log) && a in c.attempts
    ensures OpenSteps(c.attempts[a]) == {} <==> StepsStarted(log, a) <= StepsFinished(log, a)
  {
    if s :| s in StepsStarted(log, a) && s !in StepsFinished(log, a) {
      assert s in OpenSteps(c.attempts[a]);
    }
  }

  lemma WithinAttemptExact(c: Core, log: seq<Event>, e: Event)
    requires AttemptInv(c.attempts, log) && StepInv(c.attempts, log)
    requires e.payload.StepStarted? || e.payload.StepFinished? || e.payload.AttachmentAdded? || e.payload.AttemptFinished?
    ensures PayloadFaults(c, e) == [] <==> PayloadAdmissible(log, e)
  {
    var a := e.payload.attemptId;
    if a in c.attempts { AttemptEndExact(c, log, a); }
  }

  lemma RunnerExact(c: Core, log: seq<Event>, e: Event)
    requires SessionInv(c.sessions, log) && e.sessionId in c.sessions
    ensures SessionFor(c, e).runner == RunnerOf(log, e.sessionId)
  {
  }

  lemma AttemptStartExact(c: Core, log: seq<Event>, e: Event)
    requires Inv(c, log) && e.sessionId in c.sessions && e.payload.AttemptStarted?
    ensures PayloadFaults(c, e) == [] <==> PayloadAdmissible(log, e)
  {
    hide StepInv, SeenInv, ExecutionInv, SessionInv, ExecutionFaults, Consistent, SessionFor, Tally, RunnerOf;
    ExecutionFaultsExact(c, log, e);
    RunnerExact(c, log, e);
  }

  lemma PayloadExact(c: Core, log: seq<Event>, e: Event)
    requires Inv(c, log) && (e.payload.SessionStarted? || e.sessionId in c.sessions)
    ensures PayloadFaults(c, e) == [] <==> PayloadAdmissible(log, e)
  {
    match e.payload
    case SessionFinished(_, _, _) => SessionEndExact(c, log, e.sessionId);
    case AttemptStarted(_, _, _, _) => AttemptStartExact(c, log, e);
    case AttemptFinished(_, _, _) => WithinAttemptExact(c, log, e);
    case StepStarted(_, _, _) => WithinAttemptExact(c, log, e);
    case StepFinished(_, _) => WithinAttemptExact(c, log, e);
    case AttachmentAdded(_, _, _, _) => WithinAttemptExact(c, log, e);
    case _ =>
  }

  /** The errors an event draws are exactly the rules it breaks. */
  lemma FaultsExact(c: Core, f: FileState, log: seq<Event>, e: Event)
    requires Inv(c, log)
    ensures Faults(c, f, e) == [] <==> Admissible(log, e) && !Mixed(f, e) && !f.closedHere
  {
    if e.payload.SessionStarted? || e.sessionId in c.sessions {
      PayloadExact(c, log, e);
    }
    OfMembers(log, e.sessionId);
    if Faults(c, f, e) == [] {
      assert e.eventId !in c.seen;
    }
    if Admissible(log, e) {
      assert e.eventId !in c.seen;
      assert c.runId.Some? ==> c.runId.value == e.runId;
    }
  }

  // ---------------------------------------------------------------- the invariant is kept

  lemma StartedSnoc(log: seq<Event>, e: Event)
    ensures Started(log + [e]) == Started(log) + (if e.payload.AttemptStarted? then {e.payload.attemptId} else {})
    ensures Finished(log + [e]) == Finished(log) + (if e.payload.AttemptFinished? then {e.payload.attemptId} else {})
    ensures Executions(log + [e]) == Executions(log) + (if e.payload.AttemptStarted? then {e.payload.execution} else {})
  {
    assert forall x :: x in log + [e] <==> x in log || x == e;
    assert e in log + [e];
  }

  lemma StepsSnoc(log: seq<Event>, e: Event, a: string)
    ensures StepsStarted(log + [e], a) ==
            StepsStarted(log, a) + (if e.payload.StepStarted? && e.payload.attemptId == a then {e.payload.stepId} else {})
    ensures StepsFinished(log + [e], a) ==
            StepsFinished(log, a) + (if e.payload.StepFinished? && e.payload.attemptId == a then {e.payload.stepId} else {})
  {
    assert forall x :: x in log + [e] <==> x in log || x == e;
    assert e in log + [e];
  }

  lemma NumbersSnoc(log: seq<Event>, e: Event, x: string)
    ensures Numbers(log + [e], x) ==
            Numbers(log, x) + (if e.payload.AttemptStarted? && e.payload.execution == x then {e.payload.number} else {})
  {
    assert forall y :: y in log + [e] <==> y in log || y == e;
    assert e in log + [e];
  }

  function SessionsAfter(c: Core, e: Event): map<string, SessionState> {
    var s := SessionFor(c, e).(lastSequence := e.sequence);
    c.sessions[e.sessionId := if e.payload.SessionFinished? then s.(finished := true) else s]
  }

  lemma CountsClean(c: Core, e: Event)
    requires PayloadFaults(c, e) == []
    ensures AppliedCounts(c.counts, c.attempts, e) == Plus(c.counts, Weight(e)).(events := c.counts.events)
  {
  }

  lemma AttemptsClean(c: Core, e: Event)
    requires PayloadFaults(c, e) == []
    ensures AttemptStep(c.attempts, e)
  {
  }

  /** What an event without faults finds in the attempt table. */
  ghost predicate AttemptStep(attempts: map<string, AttemptState>, e: Event) {
    match e.payload
    case AttemptStarted(a, _, _, _) => a !in attempts
    case AttemptFinished(a, _, _) => a in attempts && !attempts[a].finished && OpenSteps(attempts[a]) == {}
    case StepStarted(a, s, parent) => a in attempts && !attempts[a].finished && s !in attempts[a].steps
    case StepFinished(a, s) => a in attempts && s in attempts[a].steps && !attempts[a].steps[s]
    case AttachmentAdded(a, _, _, _) => a in attempts && !attempts[a].finished
    case _ => true
  }

  /** An event without faults passes every gate; this is the whole effect it has. */
  lemma CleanUpdate(c: Core, f: FileState, e: Event)
    requires Faults(c, f, e) == []
    ensures e.eventId !in c.seen && PayloadFaults(c, e) == [] && e.sequence == SessionFor(c, e).lastSequence + 1
    ensures e.payload.SessionStarted? <==> e.sessionId !in c.sessions
    ensures c.runId.Some? ==> c.runId.value == e.runId
    ensures AttemptStep(c.attempts, e)
    ensures Updated(c, f, e) ==
            Core(c.seen[e.eventId := e], Some(e.runId), SessionsAfter(c, e), AppliedAttempts(c.attempts, e),
                 if e.payload.AttemptStarted? then Joined(c.executions, e.payload, SessionFor(c, e)) else c.executions,
                 c.closed || e.payload.RunFinished?, Plus(c.counts, Weight(e)), c.errors)
  {
    var n := Numbered(Recorded(c, e), e);
    var s := n.sessions[e.sessionId];
    assert s == SessionFor(c, e).(lastSequence := e.sequence);
    assert Updated(c, f, e) == Apply(n, e, s);
    AttemptsClean(c, e);
    CountsClean(c, e);
    RecordedCounts(c.counts, c.attempts, e);
    if e.payload.AttemptStarted? {
      assert Joined(c.executions, e.payload, s) == Joined(c.executions, e.payload, SessionFor(c, e));
    }
  }

  lemma RecordedCounts(n: Counts, attempts: map<string, AttemptState>, e: Event)
    ensures AppliedCounts(n.(events := n.events + 1), attempts, e) ==
            AppliedCounts(n, attempts, e).(events := n.events + 1)
  {
  }

  lemma SeenKept(seen: map<string, Event>, runId: Option<string>, log: seq<Event>, e: Event)
    requires SeenInv(seen, runId, log) && e.eventId !in seen && (runId.Some? ==> runId.value == e.runId)
    ensures SeenInv(seen[e.eventId := e], Some(e.runId), log + [e])
  {
  }

  lemma ClosedSnoc(log: seq<Event>, e: Event, s: string)
    ensures SessionClosed(log + [e], s) <==> SessionClosed(log, s) || (e.sessionId == s && e.payload.SessionFinished?)
    ensures RunClosed(log + [e]) <==> RunClosed(log) || e.payload.RunFinished?
  {
    assert forall x :: x in log + [e] <==> x in log || x == e;
    if SessionClosed(log, s) {
      var x :| x in log && x.sessionId == s && x.payload.SessionFinished?;
      assert x in log + [e];
    }
    if RunClosed(log) {
      var x :| x in log && x.payload.RunFinished?;
      assert x in log + [e];
    }
    assert e in log + [e];
  }

  lemma SessionKept(c: Core, log: seq<Event>, e: Event)
    requires SessionInv(c.sessions, log)
    requires e.payload.SessionStarted? <==> e.sessionId !in c.sessions
    requires e.sequence == SessionFor(c, e).lastSequence + 1
    ensures SessionInv(SessionsAfter(c, e), log + [e])
  {
    var d := SessionsAfter(c, e);
    forall s ensures s in d <==> Of(log + [e], s) != [] { OfSnoc(log, e, s); }
    forall s | s in d
      ensures d[s].lastSequence == |Of(log + [e], s)| && !d[s].synthesized && d[s].runner == RunnerOf(log + [e], s)
      ensures d[s].finished <==> SessionClosed(log + [e], s)
    {
      OfSnoc(log, e, s);
      ClosedSnoc(log, e, s);
      if s in c.sessions { RunnerSnoc(log, e, s); } else { OfMembers(log, s); }
    }
  }

  lemma AttemptKept(attempts: map<string, AttemptState>, log: seq<Event>, e: Event)
    requires AttemptInv(attempts, log) && AttemptStep(attempts, e)
    ensures AttemptInv(AppliedAttempts(attempts, e), log + [e])
  {
    hide AttemptInv;
    StartedSnoc(log, e);
    var d := AppliedAttempts(attempts, e);
    if e.payload.AttemptStarted? {
      AttemptOpened(attempts, log, e, d);
    } else if e.payload.AttemptFinished? {
      AttemptEnded(attempts, log, e, d);
    } else {
      AttemptTouched(attempts, log, e, d);
    }
  }

  lemma AttemptOpened(attempts: map<string, AttemptState>, log: seq<Event>, e: Event, d: map<string, AttemptState>)
    requires AttemptInv(attempts, log) && e.payload.AttemptStarted? && e.payload.attemptId !in attempts
    requires d == attempts[e.payload.attemptId := AttemptState(e.sessionId, e.payload.execution, e.payload.number, false, false, false, map[])]
    requires Started(log + [e]) == Started(log) + {e.payload.attemptId} && Finished(log + [e]) == Finished(log)
    ensures AttemptInv(d, log + [e])
  {
    forall x | x in log && x.payload.AttemptFinished? ensures x.payload.attemptId != e.payload.attemptId {}
    assert e.payload.attemptId !in Finished(log);
    forall x | x in log && x.payload.AttemptStarted? ensures x.payload.attemptId in attempts && x.payload.attemptId != e.payload.attemptId {
      assert x.payload.attemptId in Started(log);
    }
  }

  lemma AttemptEnded(attempts: map<string, AttemptState>, log: seq<Event>, e: Event, d: map<string, AttemptState>)
    requires AttemptInv(attempts, log) && e.payload.AttemptFinished?
    requires e.payload.attemptId in attempts && !attempts[e.payload.attemptId].finished
    requires d == attempts[e.payload.attemptId := attempts[e.payload.attemptId].(
                    finished := true, unexpected := Unexpected(e.payload.status, e.payload.expected),
                    inconclusive := e.payload.status.Inconclusive?)]
    requires Started(log + [e]) == Started(log) && Finished(log + [e]) == Finished(log) + {e.payload.attemptId}
    ensures AttemptInv(d, log + [e])
  {
    EndIsFirst(log, e, attempts);
    EndedStarts(attempts, log, e, d);
    EndedFlags(attempts, log, e, d);
    forall a | a in d ensures d[a].finished <==> a in Finished(log + [e]) {
      assert attempts[a].finished <==> a in Finished(log);
    }
    hide Started, Finished, Unexpected;
  }

  lemma EndIsFirst(log: seq<Event>, e: Event, attempts: map<string, AttemptState>)
    requires AttemptInv(attempts, log) && e.payload.AttemptFinished?
    requires e.payload.attemptId in attempts && !attempts[e.payload.attemptId].finished
    ensures forall x | x in log && x.payload.AttemptFinished? :: x.payload.attemptId in attempts && x.payload.attemptId != e.payload.attemptId
  {
    hide Unexpected;
    forall x | x in log && x.payload.AttemptFinished? ensures x.payload.attemptId in attempts && x.payload.attemptId != e.payload.attemptId {
      assert x.payload.attemptId in Finished(log);
    }
  }

  lemma EndedStarts(attempts: map<string, AttemptState>, log: seq<Event>, e: Event, d: map<string, AttemptState>)
    requires AttemptInv(attempts, log) && e.payload.AttemptFinished? && d.Keys == attempts.Keys
    requires forall a | a in d :: d[a].session == attempts[a].session && d[a].execution == attempts[a].execution && d[a].number == attempts[a].number
    ensures forall x | x in log + [e] && x.payload.AttemptStarted? ::
              && x.payload.attemptId in d
              && d[x.payload.attemptId].session == x.sessionId && d[x.payload.attemptId].execution == x.payload.execution
              && d[x.payload.attemptId].number == x.payload.number
  {
    hide Unexpected, Finished;
    forall x | x in log && x.payload.AttemptStarted? ensures x.payload.attemptId in attempts { assert x.payload.attemptId in Started(log); }
  }

  lemma EndedFlags(attempts: map<string, AttemptState>, log: seq<Event>, e: Event, d: map<string, AttemptState>)
    requires AttemptInv(attempts, log) && e.payload.AttemptFinished? && e.payload.attemptId in attempts
    requires forall x | x in log && x.payload.AttemptFinished? :: x.payload.attemptId in attempts && x.payload.attemptId != e.payload.attemptId
    requires d == attempts[e.payload.attemptId := attempts[e.payload.attemptId].(
                    finished := true, unexpected := Unexpected(e.payload.status, e.payload.expected),
                    inconclusive := e.payload.status.Inconclusive?)]
    ensures forall a | a in d && !d[a].finished :: !d[a].unexpected && !d[a].inconclusive
    ensures forall x | x in log + [e] && x.payload.AttemptFinished? ::
              && x.payload.attemptId in d
              && d[x.payload.attemptId].unexpected == Unexpected(x.payload.status, x.payload.expected)
              && d[x.payload.attemptId].inconclusive == x.payload.status.Inconclusive?
  {
    hide Unexpected, Started, Finished;
  }

  lemma AttemptTouched(attempts: map<string, AttemptState>, log: seq<Event>, e: Event, d: map<string, AttemptState>)
    requires AttemptInv(attempts, log) && !e.payload.AttemptStarted? && !e.payload.AttemptFinished?
    requires d.Keys == attempts.Keys && forall a | a in d :: d[a].(steps := attempts[a].steps) == attempts[a]
    requires Started(log + [e]) == Started(log) && Finished(log + [e]) == Finished(log)
    ensures AttemptInv(d, log + [e])
  {
    forall x | x in log + [e] && x.payload.AttemptStarted? ensures x in log && x.payload.attemptId in d {
      assert x.payload.attemptId in Started(log);
    }
  }

  lemma StepKept(attempts: map<string, AttemptState>, log: seq<Event>, e: Event)
    requires StepInv(attempts, log) && AttemptStep(attempts, e)
    ensures StepInv(AppliedAttempts(attempts, e), log + [e])
  {
    var d := AppliedAttempts(attempts, e);
    forall a | a in d
      ensures d[a].steps.Keys == StepsStarted(log + [e], a)
      ensures forall s | s in d[a].steps :: d[a].steps[s] <==> s in StepsFinished(log + [e], a)
    {
      StepsSnoc(log, e, a);
      if a !in attempts { assert StepsStarted(log, a) == {}; assert StepsFinished(log, a) == {}; }
    }
    forall x | x in log + [e] && x.payload.StepFinished?
      ensures x.payload.stepId in StepsStarted(log + [e], x.payload.attemptId)
    {
      StepsSnoc(log, e, x.payload.attemptId);
    }
  }

  lemma ExecutionKept(c: Core, log: seq<Event>, e: Event)
    requires SessionInv(c.sessions, log) && ExecutionInv(c.executions, log)
    requires e.payload.AttemptStarted? && e.sessionId in c.sessions
    requires ExecutionFaults(c, e.payload, SessionFor(c, e)) == []
    ensures ExecutionInv(Joined(c.executions, e.payload, SessionFor(c, e)), log + [e])
  {
    StartedSnoc(log, e);
    var d := Joined(c.executions, e.payload, SessionFor(c, e));
    NumbersKept(c, log, e, d);
    RunnersKept(c, log, e, d);
  }

  lemma NumbersKept(c: Core, log: seq<Event>, e: Event, d: map<string, ExecutionState>)
    requires ExecutionInv(c.executions, log) && e.payload.AttemptStarted? && !SessionFor(c, e).synthesized
    requires d == Joined(c.executions, e.payload, SessionFor(c, e))
    ensures forall x | x in d :: d[x].numbers == Numbers(log + [e], x) && d[x].runnerKnown
  {
    forall x | x in d ensures d[x].numbers == Numbers(log + [e], x) && d[x].runnerKnown {
      NumbersSnoc(log, e, x);
      if x !in c.executions { assert Numbers(log, x) == {}; }
    }
  }

  lemma RunnersKept(c: Core, log: seq<Event>, e: Event, d: map<string, ExecutionState>)
    requires SessionInv(c.sessions, log) && ExecutionInv(c.executions, log) && e.sessionId in c.sessions
    requires if e.payload.AttemptStarted?
             then d == Joined(c.executions, e.payload, SessionFor(c, e)) && ExecutionFaults(c, e.payload, SessionFor(c, e)) == []
             else d == c.executions
    ensures forall y | y in log + [e] && y.payload.AttemptStarted? ::
              && y.payload.execution in d
              && d[y.payload.execution].identity == y.payload.identity
              && d[y.payload.execution].runner == RunnerOf(log + [e], y.sessionId)
  {
    forall y | y in log + [e] && y.payload.AttemptStarted?
      ensures y.payload.execution in d
      ensures d[y.payload.execution].identity == y.payload.identity
      ensures d[y.payload.execution].runner == RunnerOf(log + [e], y.sessionId)
    {
      OfMembers(log, y.sessionId);
      RunnerSnoc(log, e, y.sessionId);
    }
  }

  lemma ExecutionUnchanged(executions: map<string, ExecutionState>, log: seq<Event>, e: Event)
    requires ExecutionInv(executions, log) && !e.payload.AttemptStarted?
    ensures ExecutionInv(executions, log + [e])
  {
    StartedSnoc(log, e);
    forall x | x in executions ensures executions[x].numbers == Numbers(log + [e], x) {
      NumbersSnoc(log, e, x);
    }
    forall y | y in log + [e] && y.payload.AttemptStarted?
      ensures executions[y.payload.execution].runner == RunnerOf(log + [e], y.sessionId)
    {
      OfMembers(log, y.sessionId);
      RunnerSnoc(log, e, y.sessionId);
    }
  }

  /** The bookkeeping stays tied to the log after every event without faults. */
  lemma InvKept(c: Core, f: FileState, log: seq<Event>, e: Event)
    requires Inv(c, log) && Faults(c, f, e) == []
    ensures Inv(Updated(c, f, e), log + [e])
  {
    hide Updated, SeenInv, SessionInv, AttemptInv, StepInv, ExecutionInv, AppliedAttempts, Joined, SessionsAfter;
    CleanUpdate(c, f, e);
    SeenKept(c.seen, c.runId, log, e);
    SessionKept(c, log, e);
    AttemptKept(c.attempts, log, e);
    StepKept(c.attempts, log, e);
    if e.payload.AttemptStarted? { ExecutionKept(c, log, e); } else { ExecutionUnchanged(c.executions, log, e); }
    TallySnoc(log, e);
    ClosedSnoc(log, e, e.sessionId);
  }
}
