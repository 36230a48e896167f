/**
The lifecycle validator as a state machine over decoded lines.

`Core` is everything a later line can depend on. The file count, the duplicate count and the
retained source lines only accumulate, so they are kept beside it.
*/
module Validator {
  import opened Protocol

  datatype Detail =
    | DecodeRejected(reason: Rejection)
    | DuplicateEventId
    | RunIdMismatch
    | SessionFileMixed
    | EventAfterRunFinished
    | SessionAlreadyStarted
    | SessionNotStarted
    | SequenceGap
    | SessionAlreadyFinished
    | AttemptNotFinishedAtSessionEnd
    | DuplicateRunFinished
    | HistoricalIdWithoutRunner
    | DuplicateAttemptId
    | DuplicateAttemptNumber
    | HistoricalIdentityChanged
    | ExecutionRunnerChanged
    | AttemptNotStarted
    | DuplicateAttemptFinished
    | StepNotFinishedAtAttemptEnd
    | StepOutsideAttempt
    | DuplicateStepId
    | StepParentUnknown
    | StepNotStarted
    | DuplicateStepFinished
    | AttachmentAttemptUnknown
    | AttachmentAfterAttemptFinished
    | AttachmentStepUnknown

  datatype SessionState = SessionState(
    finished: bool, lastSequence: int, runner: Option<string>, synthesized: bool)

  datatype AttemptState = AttemptState(
    session: string, execution: string, number: int,
    finished: bool, unexpected: bool, inconclusive: bool, steps: map<string, bool>)

  datatype ExecutionState = ExecutionState(
    numbers: set<int>, identity: Identity, runner: Option<string>, runnerKnown: bool)

  datatype Counts = Counts(
    events: nat, ignored: nat, steps: nat, attachments: nat, scopeFailures: nat,
    failedAttempts: nat, failedSessions: nat, inconclusiveSessions: nat, sessionFailures: nat)

  datatype Core = Core(
    seen: map<string, Event>,
    runId: Option<string>,
    sessions: map<string, SessionState>,
    attempts: map<string, AttemptState>,
    executions: map<string, ExecutionState>,
    closed: bool,
    counts: Counts,
    errors: seq<Detail>)

  const NO_COUNTS := Counts(0, 0, 0, 0, 0, 0, 0, 0, 0)
  const EMPTY := Core(map[], None, map[], map[], map[], false, NO_COUNTS, [])

  /** What the validator keeps while it reads one file. */
  datatype FileState = FileState(single: bool, session: Option<string>, closedHere: bool, abandoned: bool)

  const SESSION_FILE := FileState(true, None, false, false)

  datatype At = At(core: Core, file: FileState)

  // ---------------------------------------------------------------- one event

  function When(condition: bool, detail: Detail): seq<Detail> {
    if condition then [detail] else []
  }

  /** The session the event belongs to, opened or synthesized when there was none. */
  function SessionFor(c: Core, e: Event): SessionState {
    if e.sessionId in c.sessions then c.sessions[e.sessionId]
    else if e.payload.SessionStarted? then SessionState(false, 0, e.payload.runner, false)
    else SessionState(false, e.sequence - 1, None, true)
  }

  predicate Mixed(f: FileState, e: Event) {
    f.single && f.session.Some? && f.session.value != e.sessionId
  }

  predicate Restarted(c: Core, e: Event) {
    e.payload.SessionStarted? && e.sessionId in c.sessions
  }

  predicate Late(c: Core, e: Event) {
    SessionFor(c, e).finished && !e.payload.RunFinished?
  }

  function OpenAttempts(attempts: map<string, AttemptState>, session: string): set<string> {
    set a | a in attempts && attempts[a].session == session && !attempts[a].finished
  }

  function OpenSteps(a: AttemptState): set<string> {
    set s | s in a.steps && !a.steps[s]
  }

  function Repeat(n: nat, detail: Detail): seq<Detail> {
    seq(n, _ => detail)
  }

  /** The relational rules every attempt of one execution is held to. */
  function ExecutionFaults(c: Core, p: Payload, s: SessionState): seq<Detail>
    requires p.AttemptStarted?
  {
    if p.execution !in c.executions then []
    else
      var known := c.executions[p.execution];
      When(p.number in known.numbers, DuplicateAttemptNumber)
      + When(known.identity != p.identity, HistoricalIdentityChanged)
      + When(known.runnerKnown && !s.synthesized && known.runner != s.runner, ExecutionRunnerChanged)
  }

  function PayloadFaults(c: Core, e: Event): seq<Detail> {
    match e.payload
    case SessionStarted(_) => []
    case SessionFinished(_, _, _) =>
      Repeat(|OpenAttempts(c.attempts, e.sessionId)|, AttemptNotFinishedAtSessionEnd)
    case RunFinished => When(c.closed, DuplicateRunFinished)
    case AttemptStarted(a, n, x, identity) =>
      When(identity.historicalId.Some? && SessionFor(c, e).runner.None?, HistoricalIdWithoutRunner)
      + (if a in c.attempts then [DuplicateAttemptId] else ExecutionFaults(c, e.payload, SessionFor(c, e)))
    case AttemptFinished(a, _, _) =>
      if a !in c.attempts then [AttemptNotStarted]
      else if c.attempts[a].finished then [DuplicateAttemptFinished]
      else Repeat(|OpenSteps(c.attempts[a])|, StepNotFinishedAtAttemptEnd)
    case StepStarted(a, s, parent) =>
      if a !in c.attempts || c.attempts[a].finished then [StepOutsideAttempt]
      else
        When(s in c.attempts[a].steps, DuplicateStepId)
        + When(parent.Some? && parent.value !in c.attempts[a].steps, StepParentUnknown)
    case StepFinished(a, s) =>
      if a !in c.attempts || s !in c.attempts[a].steps then [StepNotStarted]
      else When(c.attempts[a].steps[s], DuplicateStepFinished)
    case AttachmentAdded(a, s, _, _) =>
      if a !in c.attempts then [AttachmentAttemptUnknown]
      else if c.attempts[a].finished then [AttachmentAfterAttemptFinished]
      else When(s.Some? && s.value !in c.attempts[a].steps, AttachmentStepUnknown)
    case ScopeFailed => []
    case Unknown(_) => []
  }

  /** Every lifecycle error one event draws, in the order it is reported. */
  function Faults(c: Core, f: FileState, e: Event): seq<Detail> {
    if e.eventId in c.seen then [DuplicateEventId]
    else
      When(c.runId.Some? && c.runId.value != e.runId, RunIdMismatch)
      + (if Mixed(f, e) then [SessionFileMixed]
         else
           When(f.closedHere, EventAfterRunFinished)
           + (if Restarted(c, e) then [SessionAlreadyStarted]
              else
                When(!e.payload.SessionStarted? && e.sessionId !in c.sessions, SessionNotStarted)
                + When(e.sequence != SessionFor(c, e).lastSequence + 1, SequenceGap)
                + (if Late(c, e) then [SessionAlreadyFinished] else PayloadFaults(c, e))))
  }

  /** The execution table once an attempt has started. */
  function Joined(executions: map<string, ExecutionState>, p: Payload, s: SessionState): map<string, ExecutionState>
    requires p.AttemptStarted?
  {
    if p.execution !in executions then
      executions[p.execution := ExecutionState({p.number}, p.identity, s.runner, !s.synthesized)]
    else
      var known := executions[p.execution];
      executions[p.execution := known.(numbers := known.numbers + {p.number})]
  }

  /** The attempt table after the payload; an event its attempt cannot take leaves it alone. */
  function AppliedAttempts(attempts: map<string, AttemptState>, e: Event): map<string, AttemptState> {
    match e.payload
    case AttemptStarted(a, n, x, _) =>
      if a in attempts then attempts
      else attempts[a := AttemptState(e.sessionId, x, n, false, false, false, map[])]
    case AttemptFinished(a, status, expected) =>
      if a !in attempts || attempts[a].finished then attempts
      else attempts[a := attempts[a].(finished := true, unexpected := Unexpected(status, expected),
                                      inconclusive := status.Inconclusive?)]
    case StepStarted(a, step, _) =>
      if a !in attempts || attempts[a].finished then attempts
      else attempts[a := attempts[a].(steps := attempts[a].steps[step := false])]
    case StepFinished(a, step) =>
      if a !in attempts || step !in attempts[a].steps || attempts[a].steps[step] then attempts
      else attempts[a := attempts[a].(steps := attempts[a].steps[step := true])]
    case _ => attempts
  }

  function AppliedCounts(n: Counts, attempts: map<string, AttemptState>, e: Event): Counts {
    match e.payload
    case SessionFinished(outcome, _, failures) =>
      n.(failedSessions := n.failedSessions + (if outcome == Some(SessionFailed) then 1 else 0),
         inconclusiveSessions := n.inconclusiveSessions + (if outcome == Some(SessionInconclusive) then 1 else 0),
         sessionFailures := n.sessionFailures + |failures|)
    case AttemptFinished(a, status, _) =>
      if a !in attempts || attempts[a].finished || !status.Failed? then n
      else n.(failedAttempts := n.failedAttempts + 1)
    case StepStarted(a, _, _) =>
      if a !in attempts || attempts[a].finished then n else n.(steps := n.steps + 1)
    case AttachmentAdded(_, _, _, _) => n.(attachments := n.attachments + 1)
    case ScopeFailed => n.(scopeFailures := n.scopeFailures + 1)
    case Unknown(_) => n.(ignored := n.ignored + 1)
    case _ => n
  }

  /** The change of state the payload of an event makes once its session has taken it. */
  function Apply(c: Core, e: Event, s: SessionState): Core {
    c.(sessions := if e.payload.SessionFinished? then c.sessions[e.sessionId := s.(finished := true)] else c.sessions,
       attempts := AppliedAttempts(c.attempts, e),
       executions := if e.payload.AttemptStarted? && e.payload.attemptId !in c.attempts
                     then Joined(c.executions, e.payload, s) else c.executions,
       closed := c.closed || e.payload.RunFinished?,
       counts := AppliedCounts(c.counts, c.attempts, e))
  }

  /** The event is remembered and counted whatever is wrong with it. */
  function Recorded(c: Core, e: Event): Core {
    c.(seen := c.seen[e.eventId := e],
       runId := if c.runId.None? then Some(e.runId) else c.runId,
       counts := c.counts.(events := c.counts.events + 1))
  }

  function Numbered(c: Core, e: Event): Core {
    c.(sessions := c.sessions[e.sessionId := SessionFor(c, e).(lastSequence := e.sequence)])
  }

  function Updated(c: Core, f: FileState, e: Event): Core {
    if e.eventId in c.seen then c
    else
      var r := Recorded(c, e);
      if Mixed(f, e) || Restarted(c, e) then r
      else
        var n := Numbered(r, e);
        if Late(c, e) then n else Apply(n, e, n.sessions[e.sessionId])
  }

  function Entered(f: FileState, e: Event): FileState {
    if f.single && f.session.None? then f.(session := Some(e.sessionId)) else f
  }

  function UpdatedFile(c: Core, f: FileState, e: Event): FileState {
    if e.eventId in c.seen || Mixed(f, e) then f
    else if Restarted(c, e) then
      Entered(f, e).(abandoned := f.abandoned || f.single)
    else
      Entered(f, e).(closedHere := f.closedHere || e.payload.RunFinished?)
  }

  function Step(x: At, e: Event): At {
    At(Updated(x.core, x.file, e).(errors := x.core.errors + Faults(x.core, x.file, e)),
       UpdatedFile(x.core, x.file, e))
  }

  /** A stream of events none of which repeats an earlier one, from a given state. */
  function Run(x: At, es: seq<Event>): At {
    if es == [] then x else Step(Run(x, es[..|es| - 1]), es[|es| - 1])
  }

  // ---------------------------------------------------------------- one line

  predicate Repeated(c: Core, line: Line) {
    line.Decoded? && line.event.eventId in c.seen && c.seen[line.event.eventId] == line.event
  }

  function ReadLine(x: At, line: Line): At {
    if x.file.abandoned || line.Blank? then x
    else if line.Rejected? then x.(core := x.core.(errors := x.core.errors + [DecodeRejected(line.reason)]))
    else if Repeated(x.core, line) then x
    else Step(x, line.event)
  }

  function Read(x: At, lines: seq<Line>): At {
    if lines == [] then x else ReadLine(Read(x, lines[..|lines| - 1]), lines[|lines| - 1])
  }

  function CountRepeats(x: At, lines: seq<Line>): nat {
    if lines == [] then 0
    else
      var before := Read(x, lines[..|lines| - 1]);
      CountRepeats(x, lines[..|lines| - 1])
      + (if !before.file.abandoned && Repeated(before.core, lines[|lines| - 1]) then 1 else 0)
  }

  // ---------------------------------------------------------------- retained source

  datatype Disposition = Accepted | Ignored | Duplicate

  datatype SourceLine = SourceLine(event: Event, raw: string, disposition: Disposition, file: string, line: nat)

  /** The retained form of a line: nothing for a line that drew an error ending its processing. */
  function Retained(x: At, line: Line, file: string, number: nat): seq<SourceLine> {
    if x.file.abandoned || !line.Decoded? then []
    else
      var e := line.event;
      if e.eventId in x.core.seen then
        if x.core.seen[e.eventId] == e then [SourceLine(e, line.raw, Duplicate, file, number)] else []
      else if Mixed(x.file, e) || Restarted(x.core, e) || Late(x.core, e) then []
      else [SourceLine(e, line.raw, if e.payload.Unknown? then Ignored else Accepted, file, number)]
  }

  function Source(x: At, lines: seq<Line>, file: string): seq<SourceLine> {
    if lines == [] then []
    else
      Source(x, lines[..|lines| - 1], file)
      + Retained(Read(x, lines[..|lines| - 1]), lines[|lines| - 1], file, |lines|)
  }

  // ---------------------------------------------------------------- whole runs

  /** Everything one validator holds. */
  datatype Validation = Validation(core: Core, files: nat, duplicates: nat, source: seq<SourceLine>)

  const FRESH := Validation(EMPTY, 0, 0, [])

  function NewFile(single: bool): FileState {
    FileState(single, None, false, false)
  }

  function Feed(v: Validation, lines: seq<Line>, file: string, single: bool): Validation {
    var x := At(v.core, NewFile(single));
    Validation(Read(x, lines).core, v.files + 1, v.duplicates + CountRepeats(x, lines), v.source + Source(x, lines, file))
  }

  /** A run directory: every file fed as one session file, in the order given. */
  function FeedAll(v: Validation, files: seq<File>): Validation {
    if files == [] then v
    else
      var last := files[|files| - 1];
      Feed(FeedAll(v, files[..|files| - 1]), last.lines, last.name, true)
  }

  // ---------------------------------------------------------------- the report

  datatype Verdict = VerdictPassed | VerdictFailed | VerdictInconclusive | VerdictIncomplete

  datatype Summary = Summary(
    files: nat, sessions: nat, attempts: nat, counts: Counts, duplicates: nat,
    complete: bool, closed: bool, verdict: Verdict)

  predicate SessionsFinished(c: Core) {
    forall s | s in c.sessions :: c.sessions[s].finished
  }

  predicate AttemptDone(a: AttemptState) {
    a.finished && forall s | s in a.steps :: a.steps[s]
  }

  predicate Complete(c: Core) {
    SessionsFinished(c) && forall a | a in c.attempts :: AttemptDone(c.attempts[a])
  }

  /** No attempt of the same execution has a higher number. */
  predicate Final(c: Core, a: string)
    requires a in c.attempts
  {
    forall b | b in c.attempts && c.attempts[b].execution == c.attempts[a].execution ::
      c.attempts[b].number <= c.attempts[a].number
  }

  predicate AnyFinalUnexpected(c: Core) {
    exists a | a in c.attempts :: Final(c, a) && c.attempts[a].unexpected
  }

  predicate AnyFinalInconclusive(c: Core) {
    exists a | a in c.attempts :: Final(c, a) && c.attempts[a].inconclusive
  }

  function VerdictOf(complete: bool, failure: bool, doubt: bool): Verdict {
    if !complete then VerdictIncomplete
    else if failure then VerdictFailed
    else if doubt then VerdictInconclusive
    else VerdictPassed
  }

  function DerivedVerdict(c: Core): Verdict {
    VerdictOf(Complete(c),
              AnyFinalUnexpected(c) || c.counts.scopeFailures > 0 || c.counts.failedSessions > 0,
              AnyFinalInconclusive(c) || c.counts.inconclusiveSessions > 0)
  }

  /** No error while reading, and no session left open by a closed run. */
  predicate Valid(c: Core) {
    c.errors == [] && (c.closed ==> SessionsFinished(c))
  }

  function Summarize(v: Validation): Summary {
    Summary(v.files, |v.core.sessions|, |v.core.attempts|, v.core.counts, v.duplicates,
            Complete(v.core), v.core.closed, DerivedVerdict(v.core))
  }
}
