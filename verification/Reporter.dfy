/**
The Playwright reporter: test callbacks turned into the events of one session.

A step or an attachment is known by its object identity, a number here. Each callback emits a list
of payloads computed from the reporter's tables, in order, through the session.
*/
module Reporter {
  import opened Protocol
  import S = ReportSessions

  // ---------------------------------------------------------------- identifiers

  function Digit(n: nat): char
    requires n < 10
  {
    "0123456789"[n]
  }

  function Decimal(n: nat): string {
    if n < 10 then [Digit(n)] else Decimal(n / 10) + [Digit(n % 10)]
  }

  function AttemptId(test: string, retry: nat): string {
    test + "-" + Decimal(retry + 1)
  }

  function StepId(attempt: string, count: nat): string {
    attempt + "-s" + Decimal(count)
  }

  // ---------------------------------------------------------------- tables

  datatype OpenStep = OpenStep(step: nat, id: string)

  datatype OpenAttempt = OpenAttempt(steps: seq<OpenStep>, count: nat, emitted: set<nat>)

  /** The attempts now open, and the order in which they were opened. */
  datatype Tables = Tables(attempts: map<string, OpenAttempt>, order: seq<string>, failures: seq<string>)

  const MAX_FAILURES := 32

  datatype Attachment = Attachment(item: nat, sha256: nat, sizeBytes: nat, stored: bool)

  datatype Callback =
    | TestBegin(test: string, retry: nat, identity: Identity)
    | StepBegin(test: string, retry: nat, step: nat, parent: Option<nat>)
    | StepEnd(test: string, retry: nat, step: nat, attachments: seq<Attachment>)
    | TestEnd(test: string, retry: nat, status: Status, expected: Option<Status>, attachments: seq<Attachment>)
    | FileError
    | InvocationError(failure: string)
    | OtherError

  /** The id a step object is open under, if it is. */
  function StepOf(steps: seq<OpenStep>, step: nat): Option<string> {
    if steps == [] then None
    else if steps[|steps| - 1].step == step then Some(steps[|steps| - 1].id)
    else StepOf(steps[..|steps| - 1], step)
  }

  /** A step object that begins again while open takes its new id in its old place. */
  function WithStep(steps: seq<OpenStep>, step: nat, id: string): seq<OpenStep> {
    if steps == [] then [OpenStep(step, id)]
    else if steps[|steps| - 1].step == step then steps[..|steps| - 1] + [OpenStep(step, id)]
    else if StepOf(steps, step).None? then steps + [OpenStep(step, id)]
    else WithStep(steps[..|steps| - 1], step, id) + [steps[|steps| - 1]]
  }

  function WithoutStep(steps: seq<OpenStep>, step: nat): seq<OpenStep> {
    if steps == [] then []
    else if steps[|steps| - 1].step == step then steps[..|steps| - 1]
    else WithoutStep(steps[..|steps| - 1], step) + [steps[|steps| - 1]]
  }

  // ---------------------------------------------------------------- what a callback emits

  /** The attachments not emitted before and stored by the sink. */
  function Attached(list: seq<Attachment>, emitted: set<nat>, attempt: string, step: Option<string>, remember: bool): seq<Payload> {
    if list == [] then []
    else
      var a := list[0];
      if a.item in emitted then Attached(list[1..], emitted, attempt, step, remember)
      else
        (if a.stored then [AttachmentAdded(attempt, step, a.sha256, a.sizeBytes)] else [])
        + Attached(list[1..], if remember then emitted + {a.item} else emitted, attempt, step, remember)
  }

  function Objects(list: seq<Attachment>): set<nat> {
    set a | a in list :: a.item
  }

  function ClosedSteps(attempt: string, steps: seq<OpenStep>): seq<Payload> {
    if steps == [] then []
    else ClosedSteps(attempt, steps[..|steps| - 1]) + [StepFinished(attempt, steps[|steps| - 1].id)]
  }

  function Output(t: Tables, c: Callback): seq<Payload> {
    match c
    case TestBegin(test, retry, identity) =>
      var id := AttemptId(test, retry);
      if id in t.attempts then [] else [AttemptStarted(id, retry + 1, test, identity)]
    case StepBegin(test, retry, step, parent) =>
      var id := AttemptId(test, retry);
      if id !in t.attempts then []
      else
        var a := t.attempts[id];
        [StepStarted(id, StepId(id, a.count + 1), if parent.Some? then StepOf(a.steps, parent.value) else None)]
    case StepEnd(test, retry, step, attachments) =>
      var id := AttemptId(test, retry);
      if id !in t.attempts || StepOf(t.attempts[id].steps, step).None? then []
      else
        var s := StepOf(t.attempts[id].steps, step);
        Attached(attachments, t.attempts[id].emitted, id, s, true) + [StepFinished(id, s.value)]
    case TestEnd(test, retry, status, expected, attachments) =>
      var id := AttemptId(test, retry);
      if id !in t.attempts then []
      else
        ClosedSteps(id, t.attempts[id].steps)
        + Attached(attachments, t.attempts[id].emitted, id, None, false)
        + [AttemptFinished(id, status, expected)]
    case FileError => [ScopeFailed]
    case InvocationError(_) => []
    case OtherError => []
  }

  function Without(order: seq<string>, id: string): seq<string> {
    if order == [] then []
    else Without(order[..|order| - 1], id) + (if order[|order| - 1] == id then [] else [order[|order| - 1]])
  }

  function Updated(t: Tables, c: Callback): Tables {
    match c
    case TestBegin(test, retry, _) =>
      var id := AttemptId(test, retry);
      if id in t.attempts then t else t.(attempts := t.attempts[id := OpenAttempt([], 0, {})], order := t.order + [id])
    case StepBegin(test, retry, step, _) =>
      var id := AttemptId(test, retry);
      if id !in t.attempts then t
      else
        var a := t.attempts[id];
        t.(attempts := t.attempts[id := a.(steps := WithStep(a.steps, step, StepId(id, a.count + 1)), count := a.count + 1)])
    case StepEnd(test, retry, step, attachments) =>
      var id := AttemptId(test, retry);
      if id !in t.attempts || StepOf(t.attempts[id].steps, step).None? then t
      else
        var a := t.attempts[id];
        t.(attempts := t.attempts[id := a.(steps := WithoutStep(a.steps, step), emitted := a.emitted + Objects(attachments))])
    case TestEnd(test, retry, _, _, _) =>
      var id := AttemptId(test, retry);
      if id !in t.attempts then t else t.(attempts := t.attempts - {id}, order := Without(t.order, id))
    case InvocationError(f) => if |t.failures| < MAX_FAILURES then t.(failures := t.failures + [f]) else t
    case _ => t
  }

  // ---------------------------------------------------------------- the reporter

  datatype Run = Run(session: S.Session, tables: Tables)

  function EmitAll(s: S.Session, env: S.Environment, ps: seq<Payload>): S.Session {
    if ps == [] then s else S.Emit(EmitAll(s, env, ps[..|ps| - 1]), env, ps[|ps| - 1]).session
  }

  /** The beginning of the run opens the session. */
  function Begun(env: S.Environment, runner: string): Run {
    Run(S.Emit(S.NEW, env, SessionStarted(Some(runner))).session, Tables(map[], [], []))
  }

  function Called(r: Run, env: S.Environment, c: Callback): Run {
    Run(EmitAll(r.session, env, Output(r.tables, c)), Updated(r.tables, c))
  }

  function After(r: Run, env: S.Environment, cs: seq<Callback>): Run {
    if cs == [] then r else Called(After(r, env, cs[..|cs| - 1]), env, cs[|cs| - 1])
  }

  /** Attempts never finished are closed as inconclusive, with their steps. */
  function Leftover(t: Tables, order: seq<string>): seq<Payload> {
    if order == [] then []
    else
      var id := order[|order| - 1];
      Leftover(t, order[..|order| - 1])
      + (if id in t.attempts then ClosedSteps(id, t.attempts[id].steps) + [AttemptFinished(id, Inconclusive, None)] else [])
  }

  /** The outcome of the invocation; a passed one carries no failures. */
  function Outcome(t: Tables, result: Option<SessionStatus>, raw: string): Payload {
    if result.None? then S.EMPTY_OUTCOME
    else SessionFinished(result, Some(raw), if result.value.SessionPassed? then [] else t.failures)
  }

  /** The end of the run: close what is open, finish, close the run when it is this process's own. */
  function Ended(r: Run, env: S.Environment, result: Option<SessionStatus>, raw: string, owned: bool): S.Session {
    var s := EmitAll(r.session, env, Leftover(r.tables, r.tables.order));
    var finished := S.Finish(s, env, Outcome(r.tables, result, raw));
    var closed := if finished.ok && owned then S.FinishRun(finished.session, env).session else finished.session;
    S.Close(closed, env)
  }
}
