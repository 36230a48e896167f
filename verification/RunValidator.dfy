/**
The validator object: the tables it updates line by line, proved against the state machine.
*/
module RunValidation {
  import opened Protocol
  import opened Validator

  /** Only the attempt, execution and session tables and the closing mark matter to a payload. */
  lemma PayloadFaultsAfter(c: Core, e: Event)
    ensures var n := Numbered(Recorded(c, e), e);
            PayloadFaults(n, e) == PayloadFaults(c, e) && e.sessionId in n.sessions
  {
    var n := Numbered(Recorded(c, e), e);
    if e.payload.AttemptStarted? {
      assert ExecutionFaults(n, e.payload, SessionFor(n, e)) == ExecutionFaults(c, e.payload, SessionFor(c, e));
    }
  }

  lemma RepeatNone(detail: Detail)
    ensures Repeat(0, detail) == []
  {
  }

  lemma RepeatMore(n: nat, detail: Detail)
    ensures Repeat(n, detail) + [detail] == Repeat(n + 1, detail)
  {
  }

  /** Visiting one more member of `left` counts it when it is open. */
  lemma Visit(open: set<string>, left: set<string>, a: string)
    requires a in left
    ensures |open - (left - {a})| == |open - left| + (if a in open then 1 else 0)
  {
    if a in open {
      assert open - (left - {a}) == (open - left) + {a};
    } else {
      assert open - (left - {a}) == open - left;
    }
  }

  /** One error for every open attempt of the session. */
  method OpenAttemptErrors(attempts: map<string, AttemptState>, session: string) returns (errors: seq<Detail>)
    ensures errors == Repeat(|OpenAttempts(attempts, session)|, AttemptNotFinishedAtSessionEnd)
  {
    hide Repeat;
    errors := [];
    RepeatNone(AttemptNotFinishedAtSessionEnd);
    var left := attempts.Keys;
    ghost var open := OpenAttempts(attempts, session);
    assert open - left == {};
    while left != {}
      invariant left <= attempts.Keys && errors == Repeat(|open - left|, AttemptNotFinishedAtSessionEnd)
      decreases |left|
    {
      var a :| a in left;
      Visit(open, left, a);
      left := left - {a};
      if attempts[a].session == session && !attempts[a].finished {
        RepeatMore(|open - left| - 1, AttemptNotFinishedAtSessionEnd);
        errors := errors + [AttemptNotFinishedAtSessionEnd];
      }
    }
    assert open - left == open;
  }

  /** One error for every open step of the attempt. */
  method OpenStepErrors(a: AttemptState) returns (errors: seq<Detail>)
    ensures errors == Repeat(|OpenSteps(a)|, StepNotFinishedAtAttemptEnd)
  {
    hide Repeat;
    errors := [];
    RepeatNone(StepNotFinishedAtAttemptEnd);
    var left := a.steps.Keys;
    ghost var open := OpenSteps(a);
    assert open - left == {};
    while left != {}
      invariant left <= a.steps.Keys && errors == Repeat(|open - left|, StepNotFinishedAtAttemptEnd)
      decreases |left|
    {
      var s :| s in left;
      Visit(open, left, s);
      left := left - {s};
      if !a.steps[s] {
        RepeatMore(|open - left| - 1, StepNotFinishedAtAttemptEnd);
        errors := errors + [StepNotFinishedAtAttemptEnd];
      }
    }
    assert open - left == open;
  }

  class RunValidator {
    var seen: map<string, Event>
    var runId: Option<string>
    var sessions: map<string, SessionState>
    var attempts: map<string, AttemptState>
    var executions: map<string, ExecutionState>
    var closed: bool
    var counts: Counts
    var errors: seq<Detail>
    var files: nat
    var duplicates: nat
    var source: seq<SourceLine>

    ghost function Tables(): Core
      reads this
    {
      Core(seen, runId, sessions, attempts, executions, closed, counts, errors)
    }

    ghost function State(): Validation
      reads this
    {
      Validation(Tables(), files, duplicates, source)
    }

    constructor ()
      ensures State() == FRESH
    {
      seen, runId, sessions, attempts, executions := map[], None, map[], map[], map[];
      closed, counts, errors, files, duplicates, source := false, NO_COUNTS, [], 0, 0, [];
    }

    // -------------------------------------------------------------- payloads

    method EndSession(e: Event)
      requires e.payload.SessionFinished? && e.sessionId in sessions
      modifies this`sessions, this`counts, this`errors
      ensures sessions == old(sessions)[e.sessionId := old(sessions[e.sessionId]).(finished := true)]
      ensures counts == AppliedCounts(old(counts), old(attempts), e)
      ensures errors == old(errors) + PayloadFaults(old(Tables()), e)
    {
      var p := e.payload;
      sessions := sessions[e.sessionId := sessions[e.sessionId].(finished := true)];
      if p.outcome == Some(SessionFailed) {
        counts := counts.(failedSessions := counts.failedSessions + 1);
      }
      if p.outcome == Some(SessionInconclusive) {
        counts := counts.(inconclusiveSessions := counts.inconclusiveSessions + 1);
      }
      counts := counts.(sessionFailures := counts.sessionFailures + |p.failures|);
      var found := OpenAttemptErrors(attempts, e.sessionId);
      errors := errors + found;
    }

    method EndAttempt(e: Event)
      requires e.payload.AttemptFinished?
      modifies this`attempts, this`counts, this`errors
      ensures attempts == AppliedAttempts(old(attempts), e)
      ensures counts == AppliedCounts(old(counts), old(attempts), e)
      ensures errors == old(errors) + PayloadFaults(old(Tables()), e)
    {
      var id := e.payload.attemptId;
      if id !in attempts {
        errors := errors + [AttemptNotStarted];
      } else if attempts[id].finished {
        errors := errors + [DuplicateAttemptFinished];
      } else {
        var a := attempts[id];
        if e.payload.status.Failed? {
          counts := counts.(failedAttempts := counts.failedAttempts + 1);
        }
        attempts := attempts[id := a.(finished := true, unexpected := Unexpected(e.payload.status, e.payload.expected),
                                      inconclusive := e.payload.status.Inconclusive?)];
        var found := OpenStepErrors(a);
        errors := errors + found;
      }
    }

    /** The relational rules of one execution. */
    method CheckExecution(e: Event, session: SessionState)
      requires e.payload.AttemptStarted?
      modifies this`executions, this`errors
      ensures executions == Joined(old(executions), e.payload, session)
      ensures errors == old(errors) + ExecutionFaults(old(Tables()), e.payload, session)
    {
      var p := e.payload;
      if p.execution !in executions {
        executions := executions[p.execution := ExecutionState({p.number}, p.identity, session.runner, !session.synthesized)];
        return;
      }
      var known := executions[p.execution];
      if p.number in known.numbers {
        errors := errors + [DuplicateAttemptNumber];
        assert known.numbers + {p.number} == known.numbers;
      } else {
        executions := executions[p.execution := known.(numbers := known.numbers + {p.number})];
      }
      if known.identity != p.identity {
        errors := errors + [HistoricalIdentityChanged];
      }
      if known.runnerKnown && !session.synthesized && known.runner != session.runner {
        errors := errors + [ExecutionRunnerChanged];
      }
      assert executions == Joined(old(executions), p, session);
    }

    method BeginAttempt(e: Event, session: SessionState)
      requires e.payload.AttemptStarted? && session == SessionFor(Tables(), e)
      modifies this`attempts, this`executions, this`errors
      ensures attempts == AppliedAttempts(old(attempts), e)
      ensures executions == if e.payload.attemptId in old(attempts) then old(executions) else Joined(old(executions), e.payload, session)
      ensures errors == old(errors) + PayloadFaults(old(Tables()), e)
    {
      var p := e.payload;
      if p.identity.historicalId.Some? && session.runner.None? {
        errors := errors + [HistoricalIdWithoutRunner];
      }
      if p.attemptId in attempts {
        errors := errors + [DuplicateAttemptId];
      } else {
        attempts := attempts[p.attemptId := AttemptState(e.sessionId, p.execution, p.number, false, false, false, map[])];
        CheckExecution(e, session);
      }
    }

    method StepEvent(e: Event)
      requires e.payload.StepStarted? || e.payload.StepFinished?
      modifies this`attempts, this`counts, this`errors
      ensures attempts == AppliedAttempts(old(attempts), e)
      ensures counts == AppliedCounts(old(counts), old(attempts), e)
      ensures errors == old(errors) + PayloadFaults(old(Tables()), e)
    {
      var id, step := e.payload.attemptId, e.payload.stepId;
      if e.payload.StepStarted? {
        if id !in attempts || attempts[id].finished {
          errors := errors + [StepOutsideAttempt];
        } else {
          var a := attempts[id];
          if step in a.steps {
            errors := errors + [DuplicateStepId];
          }
          if e.payload.parent.Some? && e.payload.parent.value !in a.steps {
            errors := errors + [StepParentUnknown];
          }
          attempts := attempts[id := a.(steps := a.steps[step := false])];
          counts := counts.(steps := counts.steps + 1);
        }
      } else if id !in attempts || step !in attempts[id].steps {
        errors := errors + [StepNotStarted];
      } else if attempts[id].steps[step] {
        errors := errors + [DuplicateStepFinished];
      } else {
        attempts := attempts[id := attempts[id].(steps := attempts[id].steps[step := true])];
      }
    }

    method Attach(e: Event)
      requires e.payload.AttachmentAdded?
      modifies this`counts, this`errors
      ensures counts == AppliedCounts(old(counts), old(attempts), e)
      ensures errors == old(errors) + PayloadFaults(old(Tables()), e)
    {
      var id := e.payload.attemptId;
      if id !in attempts {
        errors := errors + [AttachmentAttemptUnknown];
      } else if attempts[id].finished {
        errors := errors + [AttachmentAfterAttemptFinished];
      } else if e.payload.onStep.Some? && e.payload.onStep.value !in attempts[id].steps {
        errors := errors + [AttachmentStepUnknown];
      }
      counts := counts.(attachments := counts.attachments + 1);
    }

    /** The payload of an event its session has taken; true when it closes the run. */
    method TakePayload(e: Event) returns (closes: bool)
      requires e.sessionId in sessions
      modifies this`sessions, this`attempts, this`executions, this`closed, this`counts, this`errors
      ensures closes == e.payload.RunFinished?
      ensures Tables() == Apply(old(Tables()), e, old(sessions[e.sessionId])).(errors := old(errors) + PayloadFaults(old(Tables()), e))
    {
      hide AppliedAttempts, PayloadFaults, Joined;
      closes := false;
      ghost var c := Tables();
      match e.payload
      case SessionStarted(_) => NoFaults(c, e);
      case SessionFinished(_, _, _) => NoFaults(c, e); EndSession(e);
      case RunFinished =>
        NoFaults(c, e);
        if closed {
          errors := errors + [DuplicateRunFinished];
        }
        closed := true;
        closes := true;
      case AttemptStarted(_, _, _, _) => BeginAttempt(e, sessions[e.sessionId]);
      case AttemptFinished(_, _, _) => EndAttempt(e);
      case StepStarted(_, _, _) => StepEvent(e);
      case StepFinished(_, _) => StepEvent(e);
      case AttachmentAdded(_, _, _, _) => NoFaults(c, e); Attach(e);
      case ScopeFailed =>
        NoFaults(c, e);
        counts := counts.(scopeFailures := counts.scopeFailures + 1);
      case Unknown(_) =>
        NoFaults(c, e);
        counts := counts.(ignored := counts.ignored + 1);
    }

    // -------------------------------------------------------------- events and lines

    /** Remembers a new event and names the run after the first. */
    method Record(e: Event)
      modifies this`seen, this`runId, this`counts, this`errors
      ensures Tables() == Recorded(old(Tables()), e).(errors := old(errors) + When(old(runId).Some? && old(runId).value != e.runId, RunIdMismatch))
    {
      seen := seen[e.eventId := e];
      counts := counts.(events := counts.events + 1);
      if runId.None? {
        runId := Some(e.runId);
      } else if runId.value != e.runId {
        errors := errors + [RunIdMismatch];
      }
    }

    /** Opens or finds the session of an event and moves its sequence on. */
    method EnterSession(e: Event)
      requires !Restarted(Tables(), e)
      modifies this`sessions, this`errors
      ensures Tables() == Numbered(old(Tables()), e).(errors := EntryErrors(old(Tables()), e))
    {
      if e.payload.SessionStarted? {
        sessions := sessions[e.sessionId := SessionState(false, 0, e.payload.runner, false)];
      } else if e.sessionId !in sessions {
        errors := errors + [SessionNotStarted];
        sessions := sessions[e.sessionId := SessionState(false, e.sequence - 1, None, true)];
      }
      var session := sessions[e.sessionId];
      if e.sequence != session.lastSequence + 1 {
        errors := errors + [SequenceGap];
      }
      sessions := sessions[e.sessionId := session.(lastSequence := e.sequence)];
    }

    /** An event that may enter its session; true when the session still takes it. */
    method TakeInSession(e: Event, f: FileState) returns (g: FileState, retained: bool)
      requires !Restarted(Tables(), e)
      modifies this`sessions, this`attempts, this`executions, this`closed, this`counts, this`errors
      ensures Tables() == InSession(old(Tables()), e)
      ensures g == f.(closedHere := f.closedHere || e.payload.RunFinished?)
      ensures retained == !Late(old(Tables()), e)
    {
      hide PayloadFaults, Apply, Numbered, EntryErrors, SessionFor;
      g := f;
      ghost var c := Tables();
      NumberedSession(c, e);
      EnterSession(e);
      if sessions[e.sessionId].finished && !e.payload.RunFinished? {
        errors := errors + [SessionAlreadyFinished];
        return g, false;
      }
      PayloadFaultsSame(Tables(), Numbered(c, e), e);
      var closes := TakePayload(e);
      if closes {
        g := g.(closedHere := true);
      }
      retained := true;
    }

    /** An event not seen before; true when its line is retained. */
    method TakeEvent(e: Event, f: FileState) returns (g: FileState, retained: bool)
      requires e.eventId !in seen
      modifies this`seen, this`runId, this`sessions, this`attempts, this`executions, this`closed, this`counts, this`errors
      ensures At(Tables(), g) == Step(old(At(Tables(), f)), e)
      ensures retained == !(Mixed(f, e) || Restarted(old(Tables()), e) || Late(old(Tables()), e))
    {
      hide Step, InSession, Late;
      ghost var c := Tables();
      if Mixed(f, e) || Restarted(c, e) { StepGated(c, f, e); } else { StepInSession(c, f, e); }
      Record(e);
      g := f;
      if f.single {
        if f.session.None? {
          g := g.(session := Some(e.sessionId));
        } else if f.session.value != e.sessionId {
          errors := errors + [SessionFileMixed];
          assert Tables() == Gated(c, f, e);
          return g, false;
        }
      }
      if f.closedHere {
        errors := errors + [EventAfterRunFinished];
      }
      assert Tables() == Gated(c, f, e);
      if e.payload.SessionStarted? && e.sessionId in sessions {
        errors := errors + [SessionAlreadyStarted];
        if f.single {
          g := g.(abandoned := true);
        }
        return g, false;
      }
      g, retained := TakeInSession(e, g);
    }

    /** One line of a file. */
    method TakeLine(line: Line, name: string, number: nat, f: FileState) returns (g: FileState)
      modifies this`seen, this`runId, this`sessions, this`attempts, this`executions, this`closed, this`counts, this`errors,
               this`duplicates, this`source
      ensures At(Tables(), g) == ReadLine(old(At(Tables(), f)), line)
      ensures duplicates == old(duplicates) + (if !f.abandoned && Repeated(old(Tables()), line) then 1 else 0)
      ensures source == old(source) + Retained(old(At(Tables(), f)), line, name, number)
    {
      hide Step, Mixed, Restarted, Late;
      g := f;
      if f.abandoned || line.Blank? {
        return;
      }
      if line.Rejected? {
        errors := errors + [DecodeRejected(line.reason)];
        return;
      }
      var e := line.event;
      if e.eventId in seen {
        if seen[e.eventId] == e {
          duplicates := duplicates + 1;
          source := source + [SourceLine(e, line.raw, Duplicate, name, number)];
        } else {
          errors := errors + [DuplicateEventId];
          SeenStep(old(Tables()), f, e);
        }
        return;
      }
      var retained;
      g, retained := TakeEvent(e, f);
      if retained {
        source := source + [SourceLine(e, line.raw, if e.payload.Unknown? then Ignored else Accepted, name, number)];
      }
    }

    /** The lines of one file, as the events of one session when `single`. */
    method Feed(lines: seq<Line>, name: string, single: bool)
      modifies this
      ensures State() == Validator.Feed(old(State()), lines, name, single)
    {
      hide ReadLine, Retained, Repeated;
      files := files + 1;
      var file := NewFile(single);
      ghost var x := At(Tables(), file);
      for number := 0 to |lines|
        invariant files == old(files) + 1
        invariant At(Tables(), file) == Read(x, lines[..number])
        invariant duplicates == old(duplicates) + CountRepeats(x, lines[..number])
        invariant source == old(source) + Source(x, lines[..number], name)
      {
        assert lines[..number + 1][..number] == lines[..number];
        file := TakeLine(lines[number], name, number + 1, file);
      }
      assert lines[..|lines|] == lines;
    }

    // -------------------------------------------------------------- the report

    method AllFinished() returns (all: bool)
      ensures all == SessionsFinished(Tables())
    {
      all := true;
      var left := sessions.Keys;
      while left != {}
        invariant left <= sessions.Keys && all == forall s | s in sessions && s !in left :: sessions[s].finished
        decreases |left|
      {
        var s :| s in left;
        left := left - {s};
        if !sessions[s].finished {
          all := false;
        }
      }
    }

    method AllDone() returns (all: bool)
      ensures all == forall a | a in attempts :: AttemptDone(attempts[a])
    {
      all := true;
      var left := attempts.Keys;
      while left != {}
        invariant left <= attempts.Keys && all == forall a | a in attempts && a !in left :: AttemptDone(attempts[a])
        decreases |left|
      {
        var a :| a in left;
        left := left - {a};
        var stepsDone := StepsDone(attempts[a]);
        if !attempts[a].finished || !stepsDone {
          all := false;
        }
      }
    }

    /** For each execution, the attempt with the highest number met. */
    method FinalAttempts() returns (finals: map<string, string>)
      ensures forall x :: x in finals <==> exists a | a in attempts :: attempts[a].execution == x
      ensures forall x | x in finals :: finals[x] in attempts && attempts[finals[x]].execution == x && Final(Tables(), finals[x])
    {
      finals := map[];
      var left := attempts.Keys;
      while left != {}
        invariant left <= attempts.Keys
        invariant forall a | a in attempts && a !in left :: attempts[a].execution in finals
        invariant forall x | x in finals :: finals[x] in attempts && finals[x] !in left && attempts[finals[x]].execution == x
        invariant forall a | a in attempts && a !in left :: attempts[a].number <= attempts[finals[attempts[a].execution]].number
        decreases |left|
      {
        var a :| a in left;
        left := left - {a};
        var x := attempts[a].execution;
        if x !in finals || attempts[a].number > attempts[finals[x]].number {
          finals := finals[x := a];
        }
      }
    }

    /** The evidence of the final attempts and of the counts, and what it comes to. */
    method Verdict(complete: bool) returns (verdict: Validator.Verdict)
      ensures DistinctNumbers(attempts) ==>
                verdict == VerdictOf(complete,
                                     AnyFinalUnexpected(Tables()) || counts.scopeFailures > 0 || counts.failedSessions > 0,
                                     AnyFinalInconclusive(Tables()) || counts.inconclusiveSessions > 0)
    {
      hide Final, DistinctNumbers, AnyFinalUnexpected, AnyFinalInconclusive;
      var finals := FinalAttempts();
      var anyUnexpected := exists x | x in finals :: attempts[finals[x]].unexpected;
      var anyInconclusive := exists x | x in finals :: attempts[finals[x]].inconclusive;
      if DistinctNumbers(attempts) {
        FinalsDecide(Tables(), finals);
      }
      verdict := VerdictOf(complete,
                           anyUnexpected || counts.scopeFailures > 0 || counts.failedSessions > 0,
                           anyInconclusive || counts.inconclusiveSessions > 0);
    }

    /** The run-level rules, without the attachment bytes; an incomplete run is an error on request. */
    method Finish(requireComplete: bool) returns (valid: bool, summary: Summary)
      ensures valid <==> Valid(Tables()) && (requireComplete ==> Complete(Tables()))
      ensures summary == Summarize(State()).(verdict := summary.verdict)
      ensures DistinctNumbers(attempts) ==> summary == Summarize(State())
    {
      hide Final, AttemptDone, DistinctNumbers, SessionsFinished, AnyFinalUnexpected, AnyFinalInconclusive;
      var finished := AllFinished();
      var done := AllDone();
      var complete := finished && done;
      valid := errors == [] && (closed ==> finished) && (requireComplete ==> complete);
      var verdict := Verdict(complete);
      summary := Summary(files, |sessions|, |attempts|, counts, duplicates, complete, closed, verdict);
    }
  }

  method StepsDone(a: AttemptState) returns (all: bool)
    ensures all == forall s | s in a.steps :: a.steps[s]
  {
    all := true;
    var left := a.steps.Keys;
    while left != {}
      invariant left <= a.steps.Keys && all == forall s | s in a.steps && s !in left :: a.steps[s]
      decreases |left|
    {
      var s :| s in left;
      left := left - {s};
      if !a.steps[s] {
        all := false;
      }
    }
  }

  /** No two attempts of one execution carry one number. */
  ghost predicate DistinctNumbers(attempts: map<string, AttemptState>) {
    forall a, b | a in attempts && b in attempts && a != b && attempts[a].execution == attempts[b].execution ::
      attempts[a].number != attempts[b].number
  }

  /** With distinct numbers the final attempts are determined, so any way of finding them will do. */
  lemma FinalsDecide(c: Core, finals: map<string, string>)
    requires DistinctNumbers(c.attempts)
    requires forall x :: x in finals <==> exists a | a in c.attempts :: c.attempts[a].execution == x
    requires forall x | x in finals :: finals[x] in c.attempts && c.attempts[finals[x]].execution == x && Final(c, finals[x])
    ensures AnyFinalUnexpected(c) <==> exists x | x in finals :: c.attempts[finals[x]].unexpected
    ensures AnyFinalInconclusive(c) <==> exists x | x in finals :: c.attempts[finals[x]].inconclusive
  {
    forall a | a in c.attempts && Final(c, a) ensures c.attempts[a].execution in finals && finals[c.attempts[a].execution] == a {
      var b := finals[c.attempts[a].execution];
      assert c.attempts[a].number <= c.attempts[b].number <= c.attempts[a].number;
    }
  }

  lemma SeenStep(c: Core, f: FileState, e: Event)
    requires e.eventId in c.seen
    ensures Step(At(c, f), e) == At(c.(errors := c.errors + [DuplicateEventId]), f)
  {
  }

  lemma PayloadFaultsSame(c: Core, d: Core, e: Event)
    requires c == d.(errors := c.errors)
    ensures PayloadFaults(c, e) == PayloadFaults(d, e)
    ensures e.sessionId in c.sessions ==>
              Apply(c, e, c.sessions[e.sessionId]) == Apply(d, e, d.sessions[e.sessionId]).(errors := c.errors)
  {
  }

  ghost function EntryErrors(c: Core, e: Event): seq<Detail> {
    c.errors
    + When(!e.payload.SessionStarted? && e.sessionId !in c.sessions, SessionNotStarted)
    + When(e.sequence != SessionFor(c, e).lastSequence + 1, SequenceGap)
  }

  lemma NumberedSession(c: Core, e: Event)
    ensures e.sessionId in Numbered(c, e).sessions
    ensures Numbered(c, e).sessions[e.sessionId].finished == SessionFor(c, e).finished
  {
  }

  /** What follows once an event has passed the gates of its run and its file. */
  ghost function InSession(c: Core, e: Event): Core {
    var n := Numbered(c, e);
    if Late(c, e) then n.(errors := EntryErrors(c, e) + [SessionAlreadyFinished])
    else Apply(n, e, n.sessions[e.sessionId]).(errors := EntryErrors(c, e) + PayloadFaults(n, e))
  }

  /** The state an event finds its session in: recorded, with the errors of run and file reported. */
  ghost function Gated(c: Core, f: FileState, e: Event): Core {
    Recorded(c, e).(errors := c.errors + When(c.runId.Some? && c.runId.value != e.runId, RunIdMismatch)
                              + (if Mixed(f, e) then [SessionFileMixed] else When(f.closedHere, EventAfterRunFinished)))
  }

  lemma StepGated(c: Core, f: FileState, e: Event)
    requires e.eventId !in c.seen && (Mixed(f, e) || Restarted(c, e))
    ensures Mixed(f, e) ==> Step(At(c, f), e) == At(Gated(c, f, e), f)
    ensures !Mixed(f, e) ==>
              Step(At(c, f), e) == At(Gated(c, f, e).(errors := Gated(c, f, e).errors + [SessionAlreadyStarted]),
                                      Entered(f, e).(abandoned := f.abandoned || f.single))
  {
  }

  lemma GatedSession(c: Core, f: FileState, e: Event)
    ensures var r := Gated(c, f, e); r.sessions == c.sessions && SessionFor(r, e) == SessionFor(c, e) && Late(r, e) == Late(c, e)
  {
  }

  lemma GatedFaults(c: Core, f: FileState, e: Event)
    requires e.eventId !in c.seen && !Mixed(f, e) && !Restarted(c, e)
    ensures var r := Gated(c, f, e);
            && Late(r, e) == Late(c, e)
            && c.errors + Faults(c, f, e) ==
               EntryErrors(r, e) + (if Late(c, e) then [SessionAlreadyFinished] else PayloadFaults(c, e))
  {
    GatedSession(c, f, e);
    hide PayloadFaults, SessionFor, Late, Restarted, When;
  }

  lemma GatedUpdate(c: Core, f: FileState, e: Event)
    requires e.eventId !in c.seen && !Mixed(f, e) && !Restarted(c, e)
    ensures var r := Recorded(c, e);
            && Numbered(Gated(c, f, e), e) == Numbered(r, e).(errors := Gated(c, f, e).errors)
            && Updated(c, f, e) == (if Late(c, e) then Numbered(r, e) else Apply(Numbered(r, e), e, Numbered(r, e).sessions[e.sessionId]))
  {
    hide Apply;
  }

  lemma StepInSession(c: Core, f: FileState, e: Event)
    requires e.eventId !in c.seen && !Mixed(f, e) && !Restarted(c, e)
    ensures Step(At(c, f), e).core == InSession(Gated(c, f, e), e)
    ensures Step(At(c, f), e).file == Entered(f, e).(closedHere := f.closedHere || e.payload.RunFinished?)
    ensures Late(Gated(c, f, e), e) == Late(c, e)
  {
    var n, m := Numbered(Gated(c, f, e), e), Numbered(Recorded(c, e), e);
    PayloadFaultsAfter(c, e);
    GatedUpdate(c, f, e);
    PayloadFaultsSame(n, m, e);
    GatedFaults(c, f, e);
    NumberedSession(Gated(c, f, e), e);
    hide PayloadFaults, Apply, Numbered, EntryErrors, Faults, Updated, Gated, Recorded;
  }

  lemma NoFaults(c: Core, e: Event)
    requires !e.payload.AttemptStarted? && !e.payload.AttemptFinished? && !e.payload.StepStarted? && !e.payload.StepFinished?
    ensures AppliedAttempts(c.attempts, e) == c.attempts
    ensures !e.payload.AttachmentAdded? && !e.payload.SessionFinished? ==>
              PayloadFaults(c, e) == When(e.payload.RunFinished? && c.closed, DuplicateRunFinished)
  {
  }
}
