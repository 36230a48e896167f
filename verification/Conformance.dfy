/**
What the reporter writes is what the validator accepts.
*/
module Conformance {
  import opened Protocol
  import opened Lifecycle
  import opened Soundness
  import opened SessionBlocks
  import S = ReportSessions
  import R = Reporter

  // ---------------------------------------------------------------- identifiers

  function Value(c: char): nat {
    if '0' <= c <= '9' then (c as int) - ('0' as int) else 0
  }

  lemma DigitValue(n: nat)
    requires n < 10
    ensures Value(R.Digit(n)) == n && R.Digit(n) != '-'
  {
  }

  lemma {:induction false} DecimalInjective(m: nat, n: nat)
    requires R.Decimal(m) == R.Decimal(n)
    ensures m == n
  {
    DecimalShape(m);
    DecimalShape(n);
    var a, b := R.Decimal(m), R.Decimal(n);
    DigitValue(m % 10);
    DigitValue(n % 10);
    assert a[|a| - 1] == b[|b| - 1];
    if m >= 10 && n >= 10 {
      assert R.Decimal(m / 10) == a[..|a| - 1] && R.Decimal(n / 10) == b[..|b| - 1];
      DecimalInjective(m / 10, n / 10);
    }
  }

  lemma {:induction false} DecimalShape(n: nat)
    ensures var d := R.Decimal(n);
            && d != [] && d[|d| - 1] == R.Digit(n % 10)
            && (n >= 10 <==> |d| > 1)
            && forall i | 0 <= i < |d| :: d[i] != '-'
  {
    DigitValue(n % 10);
    if n >= 10 { DecimalShape(n / 10); }
  }

  lemma StepIdInjective(a: string, m: nat, n: nat)
    requires R.StepId(a, m) == R.StepId(a, n)
    ensures m == n
  {
    var p := a + "-s";
    assert R.Decimal(m) == R.StepId(a, m)[|p|..] && R.Decimal(n) == R.StepId(a, n)[|p|..];
    DecimalInjective(m, n);
  }

  lemma SplitLength(a: string, t: string, x: string, u: string, y: string)
    requires a == t + "-" + x && a == u + "-" + y && forall i | 0 <= i < |y| :: y[i] != '-'
    ensures |y| <= |x|
  {
    assert a[|a| - |x| - 1] == '-';
    assert forall i | 0 <= i < |y| :: a[|a| - |y| + i] == y[i];
  }

  lemma SplitUnique(a: string, t: string, x: string, u: string, y: string)
    requires a == t + "-" + x && a == u + "-" + y
    requires (forall i | 0 <= i < |x| :: x[i] != '-') && (forall i | 0 <= i < |y| :: y[i] != '-')
    ensures t == u && x == y
  {
    SplitLength(a, t, x, u, y);
    SplitLength(a, u, y, t, x);
    assert x == a[|a| - |x|..] && y == a[|a| - |y|..];
    assert t == a[..|a| - |x| - 1] && u == a[..|a| - |y| - 1];
  }

  /** The attempt id names its test and its retry: no two attempts share one. */
  lemma AttemptIdInjective(t: string, m: nat, u: string, n: nat)
    requires R.AttemptId(t, m) == R.AttemptId(u, n)
    ensures t == u && m == n
  {
    hide R.Decimal;
    DecimalShape(m + 1);
    DecimalShape(n + 1);
    SplitUnique(R.AttemptId(t, m), t, R.Decimal(m + 1), u, R.Decimal(n + 1));
    DecimalInjective(m + 1, n + 1);
  }

  // ---------------------------------------------------------------- the session writes what it is given

  /** No write is dropped, and event ids are not reused. */
  ghost predicate Reliable(env: S.Environment) {
    && (forall k :: env.results(k).Written?)
    && (forall j: nat, k: nat | j != k :: env.ids(j) != env.ids(k))
  }

  function Stamp(env: S.Environment, n: nat, p: Payload): Event {
    Event(env.ids(n), env.runId, env.sessionId, n + 1, env.clock(n), p, "")
  }

  function Stamps(env: S.Environment, n: nat, ps: seq<Payload>): (es: seq<Event>)
    ensures |es| == |ps|
  {
    seq(|ps|, i requires 0 <= i < |ps| => Stamp(env, n + i, ps[i]))
  }

  predicate Ordinary(p: Payload) {
    !p.SessionFinished? && !p.RunFinished? && !p.SessionStarted?
  }

  ghost predicate Stamped(log: seq<Event>, env: S.Environment) {
    && log != [] && log[0].payload.SessionStarted? && log[0].payload.runner.Some?
    && (forall i | 0 <= i < |log| :: log[i] == Stamp(env, i, log[i].payload))
    && (forall i | 0 < i < |log| :: Ordinary(log[i].payload))
  }

  /** The session is open and has written everything it was given. */
  ghost predicate Ready(s: S.Session, env: S.Environment) {
    && S.Accepts(s) && s.attempted == |s.log| && s.sequence == |s.log| && s.written == |s.log|
    && Stamped(s.log, env)
  }

  lemma EmitAppends(s: S.Session, env: S.Environment, p: Payload)
    requires Reliable(env) && Ready(s, env) && Ordinary(p)
    ensures S.Emit(s, env, p).session.log == s.log + [Stamp(env, |s.log|, p)]
    ensures Ready(S.Emit(s, env, p).session, env)
  {
    var t := S.Emit(s, env, p).session;
    assert env.results(s.attempted).Written?;
    assert t.log == s.log + [Stamp(env, |s.log|, p)];
  }

  lemma StampsSnoc(env: S.Environment, n: nat, ps: seq<Payload>)
    requires ps != []
    ensures Stamps(env, n, ps) == Stamps(env, n, ps[..|ps| - 1]) + [Stamp(env, n + |ps| - 1, ps[|ps| - 1])]
  {
  }

  lemma {:induction false} EmitAllAppends(s: S.Session, env: S.Environment, ps: seq<Payload>)
    requires Reliable(env) && Ready(s, env) && forall p | p in ps :: Ordinary(p)
    ensures R.EmitAll(s, env, ps).log == s.log + Stamps(env, |s.log|, ps)
    ensures Ready(R.EmitAll(s, env, ps), env)
  {
    if ps != [] {
      hide Reliable, Ready, S.Emit, Stamp, Stamps;
      var before, p := ps[..|ps| - 1], ps[|ps| - 1];
      assert p in ps;
      EmitAllAppends(s, env, before);
      EmitAppends(R.EmitAll(s, env, before), env, p);
      StampsSnoc(env, |s.log|, ps);
    }
  }

  lemma StampedOwn(log: seq<Event>, env: S.Environment)
    requires Stamped(log, env)
    ensures Of(log, env.sessionId) == log && !SessionClosed(log, env.sessionId)
    ensures forall e | e in log :: e.sessionId == env.sessionId && e.runId == env.runId
  {
    forall e | e in log ensures e.sessionId == env.sessionId && e.runId == env.runId && !e.payload.SessionFinished? {
      var i :| 0 <= i < |log| && log[i] == e;
    }
    OfOwn(log, env.sessionId);
  }

  /** In an open session, an event of an ordinary kind is judged by its payload alone. */
  lemma StampAdmissible(log: seq<Event>, env: S.Environment, p: Payload)
    requires Reliable(env) && Stamped(log, env) && Ordinary(p)
    ensures Admissible(log, Stamp(env, |log|, p)) <==> PayloadAdmissible(log, Stamp(env, |log|, p))
  {
    hide PayloadAdmissible;
    StampedOwn(log, env);
    forall e | e in log ensures e.eventId != env.ids(|log|) {
      var i :| 0 <= i < |log| && log[i] == e;
    }
  }

  // ---------------------------------------------------------------- attempts in the tables and in the log

  function Ids(steps: seq<R.OpenStep>): set<string> {
    set o | o in steps :: o.id
  }

  ghost predicate DistinctSteps(steps: seq<R.OpenStep>) {
    forall i, j | 0 <= i < j < |steps| :: steps[i].step != steps[j].step && steps[i].id != steps[j].id
  }

  /** The open steps are those the log has started and not finished, numbered up to the count. */
  ghost predicate Tracks(a: R.OpenAttempt, id: string, log: seq<Event>) {
    && DistinctSteps(a.steps)
    && (forall s :: s in Ids(a.steps) <==> s in StepsStarted(log, id) && s !in StepsFinished(log, id))
    && (forall s | s in StepsStarted(log, id) :: exists k: nat | k <= a.count :: s == R.StepId(id, k))
  }

  /** Attempts are named after their test and number. */
  ghost predicate WellNamed(log: seq<Event>) {
    forall e | e in log && e.payload.AttemptStarted? ::
      e.payload.number >= 1 && e.payload.attemptId == R.AttemptId(e.payload.execution, e.payload.number - 1)
  }

  ghost predicate TracksAll(t: R.Tables, log: seq<Event>) {
    && (forall id :: id in t.attempts <==> id in Started(log) && id !in Finished(log))
    && (forall id | id in t.attempts :: Tracks(t.attempts[id], id, log))
    && (forall id :: id in t.order <==> id in t.attempts)
    && (forall i, j | 0 <= i < j < |t.order| :: t.order[i] != t.order[j])
    && WellNamed(log)
  }

  /** What every callback keeps while the discipline is kept. */
  ghost predicate Conforms(r: R.Run, env: S.Environment) {
    Ready(r.session, env) && Lawful(r.session.log) && TracksAll(r.tables, r.session.log)
  }

  // ---------------------------------------------------------------- the discipline

  /**
   * What the callbacks owe the reporter: an attempt does not begin again after it ended, a test
   * keeps one history identity, and a step object does not begin again while it is open.
   */
  ghost predicate Allowed(r: R.Run, c: R.Callback) {
    match c
    case TestBegin(test, retry, identity) =>
      var id := R.AttemptId(test, retry);
      id in r.tables.attempts ||
      (&& id !in Started(r.session.log)
       && forall e | e in r.session.log && e.payload.AttemptStarted? && e.payload.execution == test :: e.payload.identity == identity)
    case StepBegin(test, retry, step, _) =>
      var id := R.AttemptId(test, retry);
      id in r.tables.attempts ==> R.StepOf(r.tables.attempts[id].steps, step).None?
    case _ => true
  }

  ghost predicate Disciplined(r: R.Run, env: S.Environment, cs: seq<R.Callback>) {
    forall i | 0 <= i < |cs| :: Allowed(R.After(r, env, cs[..i]), cs[i])
  }

  // ---------------------------------------------------------------- one payload

  ghost predicate Good(log: seq<Event>, env: S.Environment) {
    Stamped(log, env) && Lawful(log)
  }

  lemma StampedSnoc(log: seq<Event>, env: S.Environment, p: Payload)
    requires Stamped(log, env) && Ordinary(p)
    ensures Stamped(log + [Stamp(env, |log|, p)], env)
  {
  }

  lemma LawfulSnoc(log: seq<Event>, e: Event)
    requires Lawful(log)
    ensures Lawful(log + [e]) <==> Admissible(log, e)
  {
    hide Admissible;
    assert (log + [e])[..|log|] == log && [] + log == log;
  }

  /** The log is taken further exactly by a payload that is admissible. */
  lemma Take(log: seq<Event>, env: S.Environment, p: Payload)
    requires Reliable(env) && Good(log, env) && Ordinary(p)
    ensures var e := Stamp(env, |log|, p);
            && Stamped(log + [e], env)
            && (Lawful(log + [e]) <==> PayloadAdmissible(log, e))
  {
    hide PayloadAdmissible, Admissible, Reliable, Stamped, Lawful, Stamp;
    StampAdmissible(log, env, p);
    StampedSnoc(log, env, p);
    LawfulSnoc(log, Stamp(env, |log|, p));
  }

  lemma StampsJoin(env: S.Environment, n: nat, a: seq<Payload>, b: seq<Payload>)
    ensures Stamps(env, n, a + b) == Stamps(env, n, a) + Stamps(env, n + |a|, b)
  {
  }

  lemma StampsOne(env: S.Environment, n: nat, p: Payload)
    ensures Stamps(env, n, [p]) == [Stamp(env, n, p)]
  {
  }

  /** The log after a list of payloads. */
  function With(log: seq<Event>, env: S.Environment, ps: seq<Payload>): seq<Event> {
    log + Stamps(env, |log|, ps)
  }

  lemma WithJoin(log: seq<Event>, env: S.Environment, a: seq<Payload>, b: seq<Payload>)
    ensures With(log, env, a + b) == With(With(log, env, a), env, b)
  {
    StampsJoin(env, |log|, a, b);
  }

  lemma WithOne(log: seq<Event>, env: S.Environment, p: Payload)
    ensures With(log, env, [p]) == log + [Stamp(env, |log|, p)]
    ensures With(log, env, []) == log
  {
    StampsOne(env, |log|, p);
  }

  /** The attempts and steps of the two logs are the same, but for steps of one attempt finished. */
  ghost predicate SameBut(log: seq<Event>, log': seq<Event>, id: string, finished: set<string>) {
    && Started(log') == Started(log) && Finished(log') == Finished(log)
    && (forall x :: StepsStarted(log', x) == StepsStarted(log, x))
    && (forall x :: StepsFinished(log', x) == StepsFinished(log, x) + if x == id then finished else {})
    && (WellNamed(log) ==> WellNamed(log'))
  }

  lemma SnocSame(log: seq<Event>, e: Event, id: string)
    requires Ordinary(e.payload) && !e.payload.AttemptStarted? && !e.payload.AttemptFinished? && !e.payload.StepStarted?
    requires e.payload.StepFinished? ==> e.payload.attemptId == id
    ensures SameBut(log, log + [e], id, if e.payload.StepFinished? then {e.payload.stepId} else {})
  {
    StartedSnoc(log, e);
    forall x ensures StepsStarted(log + [e], x) == StepsStarted(log, x) { StepsSnoc(log, e, x); }
    forall x ensures StepsFinished(log + [e], x) == StepsFinished(log, x) + if x == id && e.payload.StepFinished? then {e.payload.stepId} else {} {
      StepsSnoc(log, e, x);
    }
    assert forall x :: x in log + [e] <==> x in log || x == e;
  }

  lemma SameChain(a: seq<Event>, b: seq<Event>, c: seq<Event>, id: string, m: set<string>, n: set<string>)
    requires SameBut(a, b, id, m) && SameBut(b, c, id, n)
    ensures SameBut(a, c, id, m + n)
  {
    hide WellNamed;
    forall x ensures StepsFinished(c, x) == StepsFinished(a, x) + if x == id then m + n else {} {}
  }

  lemma SameRefl(log: seq<Event>, id: string)
    ensures SameBut(log, log, id, {})
  {
  }

  // ---------------------------------------------------------------- lists of payloads

  lemma IdsSnoc(steps: seq<R.OpenStep>)
    requires steps != []
    ensures Ids(steps) == Ids(steps[..|steps| - 1]) + {steps[|steps| - 1].id}
  {
    assert steps == steps[..|steps| - 1] + [steps[|steps| - 1]];
  }

  /** Closing the open steps of an open attempt is lawful and finishes exactly those. */
  lemma {:induction false} CloseSteps(log: seq<Event>, env: S.Environment, id: string, steps: seq<R.OpenStep>)
    requires Reliable(env) && Good(log, env) && DistinctSteps(steps)
    requires id in Started(log) && Ids(steps) <= StepsStarted(log, id) && Ids(steps) !! StepsFinished(log, id)
    ensures Good(With(log, env, R.ClosedSteps(id, steps)), env)
    ensures SameBut(log, With(log, env, R.ClosedSteps(id, steps)), id, Ids(steps))
  {
    hide Reliable, Good, Stamps, Stamp;
    if steps == [] {
      WithOne(log, env, ScopeFailed);
      SameRefl(log, id);
      assert Ids(steps) == {};
    } else {
      var before, last := steps[..|steps| - 1], steps[|steps| - 1];
      IdsSnoc(steps);
      assert last.id !in Ids(before);
      CloseSteps(log, env, id, before);
      var now, p := With(log, env, R.ClosedSteps(id, before)), StepFinished(id, last.id);
      WithJoin(log, env, R.ClosedSteps(id, before), [p]);
      WithOne(now, env, p);
      hide With;
      TakeStepEnd(now, env, id, last.id);
      SameChain(log, now, now + [Stamp(env, |now|, p)], id, Ids(before), {last.id});
    }
  }

  lemma TakeStepEnd(log: seq<Event>, env: S.Environment, id: string, step: string)
    requires Reliable(env) && Good(log, env) && id in Started(log) && step in StepsStarted(log, id) && step !in StepsFinished(log, id)
    ensures var next := log + [Stamp(env, |log|, StepFinished(id, step))];
            Good(next, env) && SameBut(log, next, id, {step})
  {
    hide Reliable;
    var p := StepFinished(id, step);
    Take(log, env, p);
    SnocSame(log, Stamp(env, |log|, p), id);
  }

  /** Attachments of an open attempt are lawful and change nothing. */
  lemma {:induction false} AttachAll(
    log: seq<Event>, env: S.Environment, id: string, step: Option<string>, list: seq<R.Attachment>, emitted: set<nat>, remember: bool)
    requires Reliable(env) && Good(log, env) && id in Started(log) && id !in Finished(log)
    requires step.Some? ==> step.value in StepsStarted(log, id)
    ensures var next := With(log, env, R.Attached(list, emitted, id, step, remember));
            Good(next, env) && SameBut(log, next, id, {})
    decreases |list|
  {
    hide Reliable, Good, Stamps, Stamp;
    if list == [] {
      WithOne(log, env, ScopeFailed);
      SameRefl(log, id);
    } else {
      var a, rest := list[0], list[1..];
      if a.item in emitted {
        AttachAll(log, env, id, step, rest, emitted, remember);
      } else {
        var more := if remember then emitted + {a.item} else emitted;
        if a.stored {
          var p := AttachmentAdded(id, step, a.sha256, a.sizeBytes);
          TakeAttachment(log, env, p);
          WithJoin(log, env, [p], R.Attached(rest, more, id, step, remember));
          WithOne(log, env, p);
          var now := log + [Stamp(env, |log|, p)];
          hide With;
          AttachAll(now, env, id, step, rest, more, remember);
          SameChain(log, now, With(now, env, R.Attached(rest, more, id, step, remember)), id, {}, {});
        } else {
          AttachAll(log, env, id, step, rest, more, remember);
          assert [] + R.Attached(rest, more, id, step, remember) == R.Attached(rest, more, id, step, remember);
        }
      }
    }
  }

  lemma TakeAttachment(log: seq<Event>, env: S.Environment, p: Payload)
    requires Reliable(env) && Good(log, env) && p.AttachmentAdded? && p.attemptId in Started(log) && p.attemptId !in Finished(log)
    requires p.onStep.Some? ==> p.onStep.value in StepsStarted(log, p.attemptId)
    ensures var next := log + [Stamp(env, |log|, p)]; Good(next, env) && SameBut(log, next, p.attemptId, {})
  {
    hide Reliable;
    Take(log, env, p);
    SnocSame(log, Stamp(env, |log|, p), p.attemptId);
  }

  /** An open attempt whose steps are all finished may end. */
  lemma TakeAttemptEnd(log: seq<Event>, env: S.Environment, p: Payload)
    requires Reliable(env) && Good(log, env) && p.AttemptFinished? && p.attemptId in Started(log) && p.attemptId !in Finished(log)
    requires StepsStarted(log, p.attemptId) <= StepsFinished(log, p.attemptId)
    ensures Good(log + [Stamp(env, |log|, p)], env)
    ensures Ends(log, log + [Stamp(env, |log|, p)], p.attemptId)
  {
    hide Reliable;
    Take(log, env, p);
    EndsSnoc(log, Stamp(env, |log|, p));
  }

  /** The one change is that an attempt has finished. */
  ghost predicate Ends(log: seq<Event>, log': seq<Event>, id: string) {
    && Started(log') == Started(log) && Finished(log') == Finished(log) + {id}
    && (forall x :: StepsStarted(log', x) == StepsStarted(log, x) && StepsFinished(log', x) == StepsFinished(log, x))
    && (WellNamed(log) ==> WellNamed(log'))
  }

  lemma EndsSnoc(log: seq<Event>, e: Event)
    requires e.payload.AttemptFinished?
    ensures Ends(log, log + [e], e.payload.attemptId)
  {
    StartedSnoc(log, e);
    forall x ensures StepsStarted(log + [e], x) == StepsStarted(log, x) && StepsFinished(log + [e], x) == StepsFinished(log, x) {
      StepsSnoc(log, e, x);
    }
    assert forall x :: x in log + [e] <==> x in log || x == e;
  }

  // ---------------------------------------------------------------- callbacks keep the conformance

  lemma OutputOrdinary(t: R.Tables, c: R.Callback)
    ensures forall p | p in R.Output(t, c) :: Ordinary(p)
  {
    match c
    case StepEnd(test, retry, step, attachments) =>
      var id := R.AttemptId(test, retry);
      if id in t.attempts {
        AttachedOrdinary(attachments, t.attempts[id].emitted, id, R.StepOf(t.attempts[id].steps, step), true);
      }
    case TestEnd(test, retry, _, _, attachments) =>
      var id := R.AttemptId(test, retry);
      if id in t.attempts {
        AttachedOrdinary(attachments, t.attempts[id].emitted, id, None, false);
        ClosedOrdinary(id, t.attempts[id].steps);
      }
    case _ =>
  }

  lemma {:induction false} AttachedOrdinary(list: seq<R.Attachment>, emitted: set<nat>, id: string, step: Option<string>, remember: bool)
    ensures forall p | p in R.Attached(list, emitted, id, step, remember) :: Ordinary(p)
    decreases |list|
  {
    if list != [] {
      AttachedOrdinary(list[1..], emitted, id, step, remember);
      AttachedOrdinary(list[1..], if remember then emitted + {list[0].item} else emitted, id, step, remember);
    }
  }

  lemma {:induction false} ClosedOrdinary(id: string, steps: seq<R.OpenStep>)
    ensures forall p | p in R.ClosedSteps(id, steps) :: Ordinary(p)
  {
    if steps != [] { ClosedOrdinary(id, steps[..|steps| - 1]); }
  }

  lemma CalledLog(r: R.Run, env: S.Environment, c: R.Callback)
    requires Reliable(env) && Ready(r.session, env)
    ensures R.Called(r, env, c).session.log == With(r.session.log, env, R.Output(r.tables, c))
    ensures Ready(R.Called(r, env, c).session, env)
  {
    hide Reliable, Ready, R.Output, R.EmitAll;
    OutputOrdinary(r.tables, c);
    EmitAllAppends(r.session, env, R.Output(r.tables, c));
  }

  /** The step table of an attempt as its log moves on. */
  lemma TracksSame(a: R.OpenAttempt, id: string, log: seq<Event>, log': seq<Event>)
    requires Tracks(a, id, log) && StepsStarted(log', id) == StepsStarted(log, id) && StepsFinished(log', id) == StepsFinished(log, id)
    ensures Tracks(a, id, log')
  {
  }

  lemma TracksOthers(t: R.Tables, log: seq<Event>, log': seq<Event>, id: string)
    requires TracksAll(t, log)
    requires forall x | x != id :: StepsStarted(log', x) == StepsStarted(log, x) && StepsFinished(log', x) == StepsFinished(log, x)
    ensures forall x | x in t.attempts && x != id :: Tracks(t.attempts[x], x, log')
  {
    hide Tracks;
    forall x | x in t.attempts && x != id ensures Tracks(t.attempts[x], x, log') { TracksSame(t.attempts[x], x, log, log'); }
  }

  // ---------------------------------------------------------------- attempts begin

  lemma OneRunner(log: seq<Event>, env: S.Environment)
    requires Stamped(log, env)
    ensures RunnerOf(log, env.sessionId).Some? && forall e | e in log :: e.sessionId == env.sessionId
  {
    StampedOwn(log, env);
  }

  /** Two attempts of one test never share a number, since the number is part of the id. */
  lemma NumberIsNew(log: seq<Event>, test: string, retry: nat, x: Event)
    requires WellNamed(log) && R.AttemptId(test, retry) !in Started(log)
    requires x in log && x.payload.AttemptStarted? && x.payload.execution == test
    ensures x.payload.number != retry + 1
  {
    hide R.AttemptId;
    assert x.payload.attemptId in Started(log);
  }

  lemma BeginAdmissible(log: seq<Event>, env: S.Environment, test: string, retry: nat, identity: Identity)
    requires Good(log, env) && WellNamed(log) && R.AttemptId(test, retry) !in Started(log)
    requires forall e | e in log && e.payload.AttemptStarted? && e.payload.execution == test :: e.payload.identity == identity
    ensures PayloadAdmissible(log, Stamp(env, |log|, AttemptStarted(R.AttemptId(test, retry), retry + 1, test, identity)))
  {
    OneRunner(log, env);
    hide R.AttemptId, Lawful, RunnerOf, WellNamed, Stamped, Started;
    forall x | x in log && x.payload.AttemptStarted? && x.payload.execution == test ensures x.payload.number != retry + 1 {
      NumberIsNew(log, test, retry, x);
    }
  }

  lemma BeginSnoc(log: seq<Event>, e: Event)
    requires e.payload.AttemptStarted?
    ensures Started(log + [e]) == Started(log) + {e.payload.attemptId} && Finished(log + [e]) == Finished(log)
    ensures forall x :: StepsStarted(log + [e], x) == StepsStarted(log, x) && StepsFinished(log + [e], x) == StepsFinished(log, x)
  {
    StartedSnoc(log, e);
    forall x ensures StepsStarted(log + [e], x) == StepsStarted(log, x) && StepsFinished(log + [e], x) == StepsFinished(log, x) {
      StepsSnoc(log, e, x);
    }
  }

  lemma NamedSnoc(log: seq<Event>, e: Event)
    requires WellNamed(log)
    requires e.payload.AttemptStarted? ==>
               e.payload.number >= 1 && e.payload.attemptId == R.AttemptId(e.payload.execution, e.payload.number - 1)
    ensures WellNamed(log + [e])
  {
    assert forall x :: x in log + [e] <==> x in log || x == e;
  }

  lemma FreshTracks(id: string, log: seq<Event>)
    requires StepsStarted(log, id) == {}
    ensures Tracks(R.OpenAttempt([], 0, {}), id, log)
  {
    assert Ids([]) == {};
  }

  lemma TablesBegin(t: R.Tables, log: seq<Event>, log': seq<Event>, id: string)
    requires TracksAll(t, log) && id !in t.attempts && id !in Started(log) && WellNamed(log')
    requires Started(log') == Started(log) + {id} && Finished(log') == Finished(log)
    requires forall x :: StepsStarted(log', x) == StepsStarted(log, x) && StepsFinished(log', x) == StepsFinished(log, x)
    requires StepsStarted(log, id) == {} && id !in Finished(log)
    ensures TracksAll(t.(attempts := t.attempts[id := R.OpenAttempt([], 0, {})], order := t.order + [id]), log')
  {
    hide Tracks, WellNamed;
    FreshTracks(id, log');
    TracksOthers(t, log, log', id);
  }

  lemma TestBegins(r: R.Run, env: S.Environment, c: R.Callback)
    requires Reliable(env) && Conforms(r, env) && c.TestBegin? && Allowed(r, c) && R.AttemptId(c.test, c.retry) !in r.tables.attempts
    ensures Lawful(R.Called(r, env, c).session.log) && TracksAll(R.Updated(r.tables, c), R.Called(r, env, c).session.log)
  {
    var log, id := r.session.log, R.AttemptId(c.test, c.retry);
    var p := AttemptStarted(id, c.retry + 1, c.test, c.identity);
    var e := Stamp(env, |log|, p);
    assert R.Output(r.tables, c) == [p];
    hide Reliable, Ready, R.EmitAll, R.AttemptId, Tracks, R.Called, R.Output, Lawful;
    CalledLog(r, env, c);
    WithOne(log, env, p);
    ReadyStamped(r.session, env);
    BeginAdmissible(log, env, c.test, c.retry, c.identity);
    Take(log, env, p);
    BeginSnoc(log, e);
    NamedSnoc(log, e);
    ReferencesAreStarted(log, id);
    hide Stamp;
    TablesBegin(r.tables, log, log + [e], id);
  }

  lemma ReadyStamped(s: S.Session, env: S.Environment)
    requires Ready(s, env)
    ensures Stamped(s.log, env)
  {
  }

  // ---------------------------------------------------------------- steps begin

  lemma {:induction false} StepOfMeans(steps: seq<R.OpenStep>, step: nat)
    requires DistinctSteps(steps)
    ensures R.StepOf(steps, step).Some? ==> R.OpenStep(step, R.StepOf(steps, step).value) in steps
    ensures R.StepOf(steps, step).None? ==> forall o | o in steps :: o.step != step
  {
    if steps != [] {
      assert steps == steps[..|steps| - 1] + [steps[|steps| - 1]];
      StepOfMeans(steps[..|steps| - 1], step);
    }
  }

  lemma {:induction false} WithStepFresh(steps: seq<R.OpenStep>, step: nat, id: string)
    requires DistinctSteps(steps) && R.StepOf(steps, step).None?
    ensures R.WithStep(steps, step, id) == steps + [R.OpenStep(step, id)]
  {
  }

  lemma {:induction false} WithoutStepMeans(steps: seq<R.OpenStep>, step: nat)
    requires DistinctSteps(steps) && R.StepOf(steps, step).Some?
    ensures DistinctSteps(R.WithoutStep(steps, step))
    ensures forall o :: o in R.WithoutStep(steps, step) <==> o in steps && o.step != step
  {
    var before, last := steps[..|steps| - 1], steps[|steps| - 1];
    assert steps == before + [last];
    if last.step != step {
      WithoutStepMeans(before, step);
      var w := R.WithoutStep(before, step);
      forall i | 0 <= i < |w| ensures w[i].step != last.step && w[i].id != last.id { assert w[i] in before; }
    }
  }

  lemma StepsSnocOnly(log: seq<Event>, e: Event, id: string)
    requires e.payload.StepStarted? && e.payload.attemptId == id
    ensures Started(log + [e]) == Started(log) && Finished(log + [e]) == Finished(log)
    ensures StepsStarted(log + [e], id) == StepsStarted(log, id) + {e.payload.stepId}
    ensures forall x :: StepsFinished(log + [e], x) == StepsFinished(log, x)
    ensures forall x | x != id :: StepsStarted(log + [e], x) == StepsStarted(log, x)
  {
    StartedSnoc(log, e);
    forall x ensures StepsFinished(log + [e], x) == StepsFinished(log, x) { StepsSnoc(log, e, x); }
    forall x | x != id ensures StepsStarted(log + [e], x) == StepsStarted(log, x) { StepsSnoc(log, e, x); }
    StepsSnoc(log, e, id);
  }

  lemma NextStepIsNew(a: R.OpenAttempt, id: string, log: seq<Event>)
    requires Tracks(a, id, log)
    ensures R.StepId(id, a.count + 1) !in StepsStarted(log, id)
  {
    hide R.StepId;
    if R.StepId(id, a.count + 1) in StepsStarted(log, id) {
      var k: nat :| k <= a.count && R.StepId(id, a.count + 1) == R.StepId(id, k);
      StepIdInjective(id, a.count + 1, k);
    }
  }

  lemma NextIds(steps: seq<R.OpenStep>, o: R.OpenStep, started: set<string>, finished: set<string>)
    requires forall s :: s in Ids(steps) <==> s in started && s !in finished
    requires o.id !in finished
    ensures forall s :: s in Ids(steps + [o]) <==> s in started + {o.id} && s !in finished
  {
    assert (steps + [o])[..|steps|] == steps;
    IdsSnoc(steps + [o]);
    hide Ids;
  }

  lemma NextCounted(started: set<string>, id: string, count: nat, next: nat)
    requires next == count + 1
    requires forall s | s in started :: exists k: nat | k <= count :: s == R.StepId(id, k)
    ensures forall s | s in started + {R.StepId(id, next)} :: exists k: nat | k <= next :: s == R.StepId(id, k)
  {
    hide R.StepId;
    forall s | s in started + {R.StepId(id, next)} ensures exists k: nat | k <= next :: s == R.StepId(id, k) {
      if s in started { var k: nat :| k <= count && s == R.StepId(id, k); }
    }
  }

  lemma TracksStep(a: R.OpenAttempt, id: string, log: seq<Event>, e: Event, step: nat)
    requires Tracks(a, id, log) && R.StepOf(a.steps, step).None?
    requires e.payload.StepStarted? && e.payload.attemptId == id && e.payload.stepId == R.StepId(id, a.count + 1)
    requires R.StepId(id, a.count + 1) !in StepsStarted(log, id)
    requires StepsFinished(log, id) <= StepsStarted(log, id)
    ensures Tracks(a.(steps := R.WithStep(a.steps, step, e.payload.stepId), count := a.count + 1), id, log + [e])
  {
    hide R.StepId, R.StepOf, R.WithStep, StepsStarted, StepsFinished, Ids;
    StepsSnocOnly(log, e, id);
    TracksApart(a, id, log);
    WithStepFresh(a.steps, step, e.payload.stepId);
    DistinctNext(a.steps, step, e.payload.stepId);
    NextIds(a.steps, R.OpenStep(step, e.payload.stepId), StepsStarted(log, id), StepsFinished(log, id));
    NextCounted(StepsStarted(log, id), id, a.count, a.count + 1);
    hide DistinctSteps;
  }

  lemma TracksApart(a: R.OpenAttempt, id: string, log: seq<Event>)
    requires Tracks(a, id, log)
    ensures DistinctSteps(a.steps)
  {
  }

  lemma DistinctNext(steps: seq<R.OpenStep>, step: nat, id: string)
    requires DistinctSteps(steps) && R.StepOf(steps, step).None? && id !in Ids(steps)
    ensures DistinctSteps(steps + [R.OpenStep(step, id)])
  {
    StepOfMeans(steps, step);
    hide R.StepOf;
    forall i | 0 <= i < |steps| ensures steps[i].step != step && steps[i].id != id {
      assert steps[i] in steps && steps[i].id in Ids(steps);
    }
  }

  lemma FinishedWereStarted(log: seq<Event>, id: string)
    requires Lawful(log)
    ensures StepsFinished(log, id) <= StepsStarted(log, id)
  {
    forall e | e in log && e.payload.StepFinished? && e.payload.attemptId == id ensures e.payload.stepId in StepsStarted(log, id) {
      var i :| 0 <= i < |log| && log[i] == e;
      LawfulAt(log, i);
      assert StepsStarted(log[..i], id) <= StepsStarted(log, id);
    }
  }

  lemma TablesStep(t: R.Tables, log: seq<Event>, log': seq<Event>, id: string, a: R.OpenAttempt)
    requires TracksAll(t, log) && id in t.attempts && WellNamed(log')
    requires Started(log') == Started(log) && Finished(log') == Finished(log)
    requires forall x | x != id :: StepsStarted(log', x) == StepsStarted(log, x) && StepsFinished(log', x) == StepsFinished(log, x)
    requires Tracks(a, id, log')
    ensures TracksAll(t.(attempts := t.attempts[id := a]), log')
  {
    hide Tracks, WellNamed;
    TracksOthers(t, log, log', id);
  }

  lemma ParentKnown(a: R.OpenAttempt, id: string, log: seq<Event>, parent: Option<nat>)
    requires Tracks(a, id, log) && parent.Some? && R.StepOf(a.steps, parent.value).Some?
    ensures R.StepOf(a.steps, parent.value).value in StepsStarted(log, id)
  {
    StepOfMeans(a.steps, parent.value);
    assert R.StepOf(a.steps, parent.value).value in Ids(a.steps);
  }

  lemma StepAdmissible(log: seq<Event>, env: S.Environment, a: R.OpenAttempt, id: string, p: Payload, parent: Option<nat>)
    requires Tracks(a, id, log) && id in Started(log) && id !in Finished(log)
    requires p == StepStarted(id, R.StepId(id, a.count + 1), if parent.Some? then R.StepOf(a.steps, parent.value) else None)
    ensures PayloadAdmissible(log, Stamp(env, |log|, p))
  {
    hide R.StepId;
    NextStepIsNew(a, id, log);
    if p.parent.Some? { ParentKnown(a, id, log, parent); }
  }

  lemma StepBegins(r: R.Run, env: S.Environment, c: R.Callback)
    requires Reliable(env) && Conforms(r, env) && c.StepBegin? && Allowed(r, c) && R.AttemptId(c.test, c.retry) in r.tables.attempts
    ensures Lawful(R.Called(r, env, c).session.log) && TracksAll(R.Updated(r.tables, c), R.Called(r, env, c).session.log)
  {
    var log, id := r.session.log, R.AttemptId(c.test, c.retry);
    var a := r.tables.attempts[id];
    var p := StepStarted(id, R.StepId(id, a.count + 1), if c.parent.Some? then R.StepOf(a.steps, c.parent.value) else None);
    var e := Stamp(env, |log|, p);
    assert R.Output(r.tables, c) == [p];
    hide Reliable, Ready, R.EmitAll, R.AttemptId, R.StepId, R.WithStep, R.Called, R.Output, Lawful, PayloadAdmissible, Tracks, R.StepOf;
    CalledLog(r, env, c);
    WithOne(log, env, p);
    ReadyStamped(r.session, env);
    FinishedWereStarted(log, id);
    StepAdmissible(log, env, a, id, p, c.parent);
    NextStepIsNew(a, id, log);
    Take(log, env, p);
    StepsSnocOnly(log, e, id);
    NamedSnoc(log, e);
    TracksStep(a, id, log, e, c.step);
    hide Stamp;
    TablesStep(r.tables, log, log + [e], id,
               a.(steps := R.WithStep(a.steps, c.step, R.StepId(id, a.count + 1)), count := a.count + 1));
  }

  // ---------------------------------------------------------------- steps and attempts end

  lemma WithoutIds(steps: seq<R.OpenStep>, step: nat)
    requires DistinctSteps(steps) && R.StepOf(steps, step).Some?
    ensures Ids(R.WithoutStep(steps, step)) == Ids(steps) - {R.StepOf(steps, step).value}
  {
    var w, id := R.WithoutStep(steps, step), R.StepOf(steps, step).value;
    StepOfMeans(steps, step);
    WithoutStepMeans(steps, step);
    forall o | o in steps ensures o.step == step <==> o.id == id {
      var i :| 0 <= i < |steps| && steps[i] == o;
      var j :| 0 <= j < |steps| && steps[j] == R.OpenStep(step, id);
    }
    assert forall x | x in Ids(w) :: exists o | o in w :: o.id == x;
  }

  lemma TracksStepEnd(a: R.OpenAttempt, id: string, log: seq<Event>, log': seq<Event>, step: nat, emitted: set<nat>)
    requires Tracks(a, id, log) && R.StepOf(a.steps, step).Some?
    requires SameBut(log, log', id, {R.StepOf(a.steps, step).value})
    ensures Tracks(a.(steps := R.WithoutStep(a.steps, step), emitted := emitted), id, log')
  {
    hide R.WithoutStep, WellNamed;
    WithoutStepMeans(a.steps, step);
    WithoutIds(a.steps, step);
  }

  /** Ending an open step: its attachments first, then its end. */
  lemma EndStep(log: seq<Event>, env: S.Environment, a: R.OpenAttempt, id: string, step: nat, list: seq<R.Attachment>)
    requires Reliable(env) && Good(log, env) && Tracks(a, id, log) && id in Started(log) && id !in Finished(log)
    requires R.StepOf(a.steps, step).Some?
    ensures var s := R.StepOf(a.steps, step);
            var last := With(log, env, R.Attached(list, a.emitted, id, s, true) + [StepFinished(id, s.value)]);
            Good(last, env) && SameBut(log, last, id, {s.value})
  {
    hide Reliable, R.Attached, With, Good, WellNamed, R.StepOf;
    var s := R.StepOf(a.steps, step);
    var attach, p := R.Attached(list, a.emitted, id, s, true), StepFinished(id, s.value);
    OpenStepKnown(a, id, log, step);
    hide Tracks;
    AttachAll(log, env, id, s, list, a.emitted, true);
    var now := With(log, env, attach);
    WithJoin(log, env, attach, [p]);
    WithOne(now, env, p);
    TakeStepEnd(now, env, id, s.value);
    SameChain(log, now, now + [Stamp(env, |now|, p)], id, {}, {s.value});
    assert {} + {s.value} == {s.value};
  }

  lemma OpenStepKnown(a: R.OpenAttempt, id: string, log: seq<Event>, step: nat)
    requires Tracks(a, id, log) && R.StepOf(a.steps, step).Some?
    ensures R.StepOf(a.steps, step).value in StepsStarted(log, id) && R.StepOf(a.steps, step).value !in StepsFinished(log, id)
  {
    StepOfMeans(a.steps, step);
    assert R.StepOf(a.steps, step).value in Ids(a.steps);
  }

  lemma StepEnds(r: R.Run, env: S.Environment, c: R.Callback)
    requires Reliable(env) && Conforms(r, env) && c.StepEnd? && R.AttemptId(c.test, c.retry) in r.tables.attempts
    requires R.StepOf(r.tables.attempts[R.AttemptId(c.test, c.retry)].steps, c.step).Some?
    ensures Lawful(R.Called(r, env, c).session.log) && TracksAll(R.Updated(r.tables, c), R.Called(r, env, c).session.log)
  {
    var log, id := r.session.log, R.AttemptId(c.test, c.retry);
    var a := r.tables.attempts[id];
    var s := R.StepOf(a.steps, c.step);
    assert R.Output(r.tables, c) == R.Attached(c.attachments, a.emitted, id, s, true) + [StepFinished(id, s.value)];
    hide Reliable, Ready, R.EmitAll, R.AttemptId, R.WithoutStep, R.Called, R.Output, Lawful, R.Attached, With, Stamped, Tracks, WellNamed, R.StepOf;
    CalledLog(r, env, c);
    ReadyStamped(r.session, env);
    EndStep(log, env, a, id, c.step, c.attachments);
    var last := R.Called(r, env, c).session.log;
    TracksStepEnd(a, id, log, last, c.step, a.emitted + R.Objects(c.attachments));
    TablesStep(r.tables, log, last, id, a.(steps := R.WithoutStep(a.steps, c.step), emitted := a.emitted + R.Objects(c.attachments)));
  }

  lemma {:induction false} WithoutMembers(order: seq<string>, id: string)
    requires forall i, j | 0 <= i < j < |order| :: order[i] != order[j]
    ensures forall x :: x in R.Without(order, id) <==> x in order && x != id
    ensures forall i, j | 0 <= i < j < |R.Without(order, id)| :: R.Without(order, id)[i] != R.Without(order, id)[j]
  {
    if order != [] {
      var before, last := order[..|order| - 1], order[|order| - 1];
      assert order == before + [last];
      WithoutMembers(before, id);
      var w := R.Without(before, id);
      forall i | 0 <= i < |w| ensures w[i] != last { assert w[i] in before; }
    }
  }

  lemma TablesEnd(t: R.Tables, log: seq<Event>, log': seq<Event>, id: string)
    requires TracksAll(t, log) && id in t.attempts && WellNamed(log')
    requires Started(log') == Started(log) && Finished(log') == Finished(log) + {id}
    requires forall x | x != id :: StepsStarted(log', x) == StepsStarted(log, x) && StepsFinished(log', x) == StepsFinished(log, x)
    ensures TracksAll(t.(attempts := t.attempts - {id}, order := R.Without(t.order, id)), log')
  {
    hide Tracks, WellNamed;
    TracksOthers(t, log, log', id);
    WithoutMembers(t.order, id);
  }

  /** Closing an open attempt: its steps first, then anything that changes no attempt, then its end. */
  lemma CloseAttempt(log: seq<Event>, env: S.Environment, a: R.OpenAttempt, id: string, list: seq<R.Attachment>, p: Payload)
    requires Reliable(env) && Good(log, env) && Tracks(a, id, log) && id in Started(log) && id !in Finished(log)
    requires p.AttemptFinished? && p.attemptId == id && WellNamed(log)
    ensures var last := With(log, env, R.ClosedSteps(id, a.steps) + R.Attached(list, a.emitted, id, None, false) + [p]);
            && Good(last, env) && WellNamed(last)
            && Started(last) == Started(log) && Finished(last) == Finished(log) + {id}
            && forall x | x != id :: StepsStarted(last, x) == StepsStarted(log, x) && StepsFinished(last, x) == StepsFinished(log, x)
  {
    hide Reliable, R.Attached, R.ClosedSteps, With, Good, WellNamed;
    var close, attach := R.ClosedSteps(id, a.steps), R.Attached(list, a.emitted, id, None, false);
    CloseSteps(log, env, id, a.steps);
    var one := With(log, env, close);
    AttachAll(one, env, id, None, list, a.emitted, false);
    var two := With(one, env, attach);
    WithJoin(log, env, close, attach);
    WithJoin(log, env, close + attach, [p]);
    SameChain(log, one, two, id, Ids(a.steps), {});
    AllClosed(a, id, log, two);
    TakeAttemptEnd(two, env, p);
    WithOne(two, env, p);
  }

  lemma AllClosed(a: R.OpenAttempt, id: string, log: seq<Event>, log': seq<Event>)
    requires Tracks(a, id, log) && SameBut(log, log', id, Ids(a.steps) + {})
    ensures StepsStarted(log', id) <= StepsFinished(log', id)
  {
    hide WellNamed;
  }

  lemma TestEnds(r: R.Run, env: S.Environment, c: R.Callback)
    requires Reliable(env) && Conforms(r, env) && c.TestEnd? && R.AttemptId(c.test, c.retry) in r.tables.attempts
    ensures Lawful(R.Called(r, env, c).session.log) && TracksAll(R.Updated(r.tables, c), R.Called(r, env, c).session.log)
  {
    var log, id := r.session.log, R.AttemptId(c.test, c.retry);
    var a := r.tables.attempts[id];
    var p := AttemptFinished(id, c.status, c.expected);
    assert R.Output(r.tables, c) == R.ClosedSteps(id, a.steps) + R.Attached(c.attachments, a.emitted, id, None, false) + [p];
    hide Reliable, Ready, R.EmitAll, R.AttemptId, R.Called, R.Output, Lawful, R.Attached, R.ClosedSteps, With, Stamped, Tracks, WellNamed;
    CalledLog(r, env, c);
    ReadyStamped(r.session, env);
    CloseAttempt(log, env, a, id, c.attachments, p);
    TablesEnd(r.tables, log, R.Called(r, env, c).session.log, id);
  }

  lemma Quiet(r: R.Run, env: S.Environment, c: R.Callback)
    requires Reliable(env) && Conforms(r, env) && R.Output(r.tables, c) == [] && R.Updated(r.tables, c).(failures := r.tables.failures) == r.tables
    ensures Lawful(R.Called(r, env, c).session.log) && TracksAll(R.Updated(r.tables, c), R.Called(r, env, c).session.log)
  {
    hide Reliable, Ready, R.EmitAll, R.Called, Lawful, Tracks, R.Updated, R.Output;
    CalledLog(r, env, c);
    WithOne(r.session.log, env, ScopeFailed);
  }

  lemma TablesSame(t: R.Tables, log: seq<Event>, log': seq<Event>)
    requires TracksAll(t, log) && SameBut(log, log', "", {})
    ensures TracksAll(t, log')
  {
    hide Tracks, WellNamed;
    forall x | x in t.attempts ensures Tracks(t.attempts[x], x, log') { TracksSame(t.attempts[x], x, log, log'); }
  }

  lemma FileFails(r: R.Run, env: S.Environment)
    requires Reliable(env) && Conforms(r, env)
    ensures var c := R.FileError;
            Lawful(R.Called(r, env, c).session.log) && TracksAll(R.Updated(r.tables, c), R.Called(r, env, c).session.log)
  {
    var c, log := R.FileError, r.session.log;
    var e := Stamp(env, |log|, ScopeFailed);
    assert R.Output(r.tables, c) == [ScopeFailed] && R.Updated(r.tables, c) == r.tables;
    hide Reliable, Ready, R.EmitAll, R.Called, Lawful, TracksAll, R.Updated, R.Output, SameBut;
    CalledLog(r, env, c);
    WithOne(log, env, ScopeFailed);
    ReadyStamped(r.session, env);
    Take(log, env, ScopeFailed);
    SnocSame(log, e, "");
    TablesSame(r.tables, log, log + [e]);
  }

  /** Every callback that keeps the discipline keeps the conformance. */
  lemma CallbackConforms(r: R.Run, env: S.Environment, c: R.Callback)
    requires Reliable(env) && Conforms(r, env) && Allowed(r, c)
    ensures Conforms(R.Called(r, env, c), env)
  {
    CalledLog(r, env, c);
    CalledTables(r, env, c);
    hide Reliable, Ready, Lawful, TracksAll, Allowed, R.Called;
    match c
    case TestBegin(test, retry, _) => if R.AttemptId(test, retry) in r.tables.attempts { Quiet(r, env, c); } else { TestBegins(r, env, c); }
    case StepBegin(test, retry, _, _) => if R.AttemptId(test, retry) in r.tables.attempts { StepBegins(r, env, c); } else { Quiet(r, env, c); }
    case StepEnd(test, retry, step, _) =>
      var id := R.AttemptId(test, retry);
      if id in r.tables.attempts && R.StepOf(r.tables.attempts[id].steps, step).Some? { StepEnds(r, env, c); } else { Quiet(r, env, c); }
    case TestEnd(test, retry, _, _, _) => if R.AttemptId(test, retry) in r.tables.attempts { TestEnds(r, env, c); } else { Quiet(r, env, c); }
    case FileError => FileFails(r, env);
    case _ => Quiet(r, env, c);
  }

  lemma CalledTables(r: R.Run, env: S.Environment, c: R.Callback)
    ensures R.Called(r, env, c).tables == R.Updated(r.tables, c)
  {
  }

  // ---------------------------------------------------------------- the end of the run

  lemma FirstLawful(e: Event)
    requires e.payload.SessionStarted? && e.sequence == 1
    ensures Lawful([e])
  {
    assert [e][..0] == [];
    assert Admissible([], e);
  }

  lemma NothingOpen(e: Event)
    requires e.payload.SessionStarted?
    ensures TracksAll(R.Tables(map[], [], []), [e])
  {
    assert Started([e]) == {} && Finished([e]) == {};
  }

  lemma SessionOpens(env: S.Environment, runner: string)
    requires Reliable(env)
    ensures R.Begun(env, runner).session.log == [Stamp(env, 0, SessionStarted(Some(runner)))]
    ensures Ready(R.Begun(env, runner).session, env)
  {
    assert env.results(0).Written?;
    assert [] + [Stamp(env, 0, SessionStarted(Some(runner)))] == [Stamp(env, 0, SessionStarted(Some(runner)))];
  }

  /** The run has begun: the session is started and nothing is open. */
  lemma BegunConforms(env: S.Environment, runner: string)
    requires Reliable(env)
    ensures Conforms(R.Begun(env, runner), env)
  {
    hide Reliable, Ready, Lawful, TracksAll;
    SessionOpens(env, runner);
    FirstLawful(Stamp(env, 0, SessionStarted(Some(runner))));
    NothingOpen(Stamp(env, 0, SessionStarted(Some(runner))));
  }

  lemma {:induction false} RunConforms(r: R.Run, env: S.Environment, cs: seq<R.Callback>)
    requires Reliable(env) && Conforms(r, env) && Disciplined(r, env, cs)
    ensures Conforms(R.After(r, env, cs), env)
  {
    if cs != [] {
      hide Reliable, Conforms, Allowed, R.Called;
      var before := cs[..|cs| - 1];
      forall i | 0 <= i < |before| ensures Allowed(R.After(r, env, before[..i]), before[i]) { assert before[..i] == cs[..i]; }
      RunConforms(r, env, before);
      CallbackConforms(R.After(r, env, before), env, cs[|cs| - 1]);
    }
  }

  /** Closing what was left open, attempt by attempt. */
  lemma {:induction false} CloseLeft(log: seq<Event>, env: S.Environment, t: R.Tables, order: seq<string>)
    requires Reliable(env) && Good(log, env) && WellNamed(log) && forall i, j | 0 <= i < j < |order| :: order[i] != order[j]
    requires forall id | id in order :: id in t.attempts && Tracks(t.attempts[id], id, log) && id in Started(log) && id !in Finished(log)
    ensures var last := With(log, env, R.Leftover(t, order));
            && Good(last, env) && WellNamed(last) && Started(last) == Started(log)
            && (forall x :: x in Finished(last) <==> x in Finished(log) || x in order)
            && forall x | x !in order :: StepsStarted(last, x) == StepsStarted(log, x) && StepsFinished(last, x) == StepsFinished(log, x)
  {
    hide Reliable, Good, With, Tracks, R.ClosedSteps, WellNamed;
    if order == [] {
      WithOne(log, env, ScopeFailed);
    } else {
      var before, id := order[..|order| - 1], order[|order| - 1];
      assert order == before + [id];
      CloseLeft(log, env, t, before);
      var now, a, p := With(log, env, R.Leftover(t, before)), t.attempts[id], AttemptFinished(id, Inconclusive, None);
      TracksSame(a, id, log, now);
      CloseAttempt(now, env, a, id, [], p);
      assert R.ClosedSteps(id, a.steps) + R.Attached([], a.emitted, id, None, false) + [p] == R.ClosedSteps(id, a.steps) + [p];
      WithJoin(log, env, R.Leftover(t, before), R.ClosedSteps(id, a.steps) + [p]);
    }
  }

  lemma {:induction false} LeftoverOrdinary(t: R.Tables, order: seq<string>)
    ensures forall p | p in R.Leftover(t, order) :: Ordinary(p)
  {
    if order != [] {
      LeftoverOrdinary(t, order[..|order| - 1]);
      var id := order[|order| - 1];
      if id in t.attempts { ClosedOrdinary(id, t.attempts[id].steps); }
    }
  }

  /** The session.finished of a session whose attempts have all finished. */
  lemma TakeFinish(log: seq<Event>, env: S.Environment, p: Payload)
    requires Reliable(env) && Good(log, env) && p.SessionFinished? && Started(log) <= Finished(log)
    ensures Lawful(log + [Stamp(env, |log|, p)])
  {
    var e := Stamp(env, |log|, p);
    StampedOwn(log, env);
    forall x | x in log ensures x.eventId != e.eventId {
      var i :| 0 <= i < |log| && log[i] == x;
    }
    forall x | x in log && x.payload.AttemptStarted? ensures x.payload.attemptId in Finished(log) {
      assert x.payload.attemptId in Started(log);
    }
    assert Admissible(log, e);
    LawfulSnoc(log, e);
  }

  lemma StampedPlain(log: seq<Event>, env: S.Environment, k: nat)
    requires Reliable(env) && Stamped(log, env) && k >= |log|
    ensures forall e | e in log :: !e.payload.RunFinished? && e.eventId != env.ids(k)
  {
    forall e | e in log ensures !e.payload.RunFinished? && e.eventId != env.ids(k) {
      var i :| 0 <= i < |log| && log[i] == e;
    }
  }

  lemma RunFinishAdmissible(all: seq<Event>, e: Event)
    requires e.payload.RunFinished? && Of(all, e.sessionId) == all && all != [] && e.sequence == |all| + 1
    requires forall x | x in all :: x.eventId != e.eventId && x.runId == e.runId && !x.payload.RunFinished?
    ensures Admissible(all, e)
  {
  }

  lemma FinishedOwn(log: seq<Event>, env: S.Environment, f: Event)
    requires Stamped(log, env) && f.sessionId == env.sessionId
    ensures Of(log + [f], env.sessionId) == log + [f]
  {
    StampedOwn(log, env);
    OfSnoc(log, f, env.sessionId);
  }

  lemma TakeRunFinish(log: seq<Event>, env: S.Environment, f: Event, p: Payload)
    requires Reliable(env) && Stamped(log, env) && f == Stamp(env, |log|, p) && p.SessionFinished? && Lawful(log + [f])
    ensures Lawful(log + [f] + [Stamp(env, |log| + 1, RunFinished)])
  {
    hide Stamped, Lawful, Of, SessionClosed;
    var all, e := log + [f], Stamp(env, |log| + 1, RunFinished);
    StampedOwn(log, env);
    StampedPlain(log, env, |log| + 1);
    assert f.eventId != e.eventId;
    hide Reliable;
    FinishedOwn(log, env, f);
    RunFinishAdmissible(all, e);
    LawfulSnoc(all, e);
  }

  lemma FinishWrites(s: S.Session, env: S.Environment, p: Payload)
    requires Reliable(env) && Ready(s, env) && p.SessionFinished? && S.WellFormed(p)
    ensures var r := S.Finish(s, env, p);
            && r.ok && r.session.lifecycle.SessionEnded? && !r.session.outcomeLost
            && r.session.log == s.log + [Stamp(env, |s.log|, p)]
            && r.session.attempted == |r.session.log| && r.session.sequence == |r.session.log|
  {
    assert env.results(s.attempted).Written?;
  }

  lemma RunFinishWrites(s: S.Session, env: S.Environment)
    requires Reliable(env) && s.lifecycle.SessionEnded? && !s.outcomeLost && s.attempted == |s.log| && s.sequence == |s.log|
    ensures S.FinishRun(s, env).session.log == s.log + [Stamp(env, |s.log|, RunFinished)]
    ensures !S.FinishRun(s, env).session.lifecycle.Active?
  {
    assert env.results(s.attempted).Written?;
  }

  lemma CloseWrites(s: S.Session, env: S.Environment)
    requires !s.lifecycle.Active?
    ensures S.Close(s, env).log == s.log
  {
  }

  /** What the end of the run writes, whatever came before. */
  lemma EndWrites(r: R.Run, env: S.Environment, result: Option<SessionStatus>, raw: string, owned: bool)
    requires Reliable(env) && Ready(r.session, env)
    ensures var left := With(r.session.log, env, R.Leftover(r.tables, r.tables.order));
            var p := R.Outcome(r.tables, result, raw);
            && p.SessionFinished? && Stamped(left, env)
            && R.Ended(r, env, result, raw, owned).log ==
               left + [Stamp(env, |left|, p)] + (if owned then [Stamp(env, |left| + 1, RunFinished)] else [])
  {
    hide Reliable, Ready, R.EmitAll, R.Leftover, S.Finish, S.FinishRun, S.Close, Stamp;
    LeftoverOrdinary(r.tables, r.tables.order);
    EmitAllAppends(r.session, env, R.Leftover(r.tables, r.tables.order));
    var s, p := R.EmitAll(r.session, env, R.Leftover(r.tables, r.tables.order)), R.Outcome(r.tables, result, raw);
    ReadyStamped(s, env);
    FinishWrites(s, env, p);
    var f := S.Finish(s, env, p).session;
    if owned {
      RunFinishWrites(f, env);
      CloseWrites(S.FinishRun(f, env).session, env);
    } else {
      CloseWrites(f, env);
    }
  }

  /** The end of a conforming run leaves a lawful log whose one session has finished. */
  lemma EndConforms(r: R.Run, env: S.Environment, result: Option<SessionStatus>, raw: string, owned: bool)
    requires Reliable(env) && Conforms(r, env)
    ensures Lawful(R.Ended(r, env, result, raw, owned).log)
  {
    hide Reliable, R.Leftover, R.Ended, Lawful, Stamp, With;
    var log, t := r.session.log, r.tables;
    CloseLeft(log, env, t, t.order);
    EndWrites(r, env, result, raw, owned);
    hide Ready, Tracks;
    var left, p := With(log, env, R.Leftover(t, t.order)), R.Outcome(t, result, raw);
    assert Started(left) <= Finished(left);
    TakeFinish(left, env, p);
    if owned { TakeRunFinish(left, env, Stamp(env, |left|, p), p); }
    assert left + [Stamp(env, |left|, p)] + [] == left + [Stamp(env, |left|, p)];
  }
}
