/**
The reporter's stream is valid and complete exactly when the callbacks keep the discipline.

An attempt that begins again after it ended, or a test that changes its history identity, is an
error at once. A step object that begins again while open loses the id it was open under; that
step is never finished, and the end of its attempt is an error.
*/
module Discipline {
  import opened Protocol
  import opened Validator
  import opened Lifecycle
  import opened Soundness
  import opened SessionBlocks
  import opened RunFiles
  import opened Conformance
  import S = ReportSessions
  import R = Reporter

  // ---------------------------------------------------------------- what a list of payloads finishes

  function FinishedIn(ps: seq<Payload>, id: string): set<string> {
    set p | p in ps && p.StepFinished? && p.attemptId == id :: p.stepId
  }

  lemma WithSteps(log: seq<Event>, env: S.Environment, ps: seq<Payload>, id: string)
    ensures StepsFinished(With(log, env, ps), id) <= StepsFinished(log, id) + FinishedIn(ps, id)
    ensures StepsStarted(log, id) <= StepsStarted(With(log, env, ps), id)
  {
    var es := Stamps(env, |log|, ps);
    forall e | e in es && e.payload.StepFinished? && e.payload.attemptId == id ensures e.payload.stepId in FinishedIn(ps, id) {
      var i :| 0 <= i < |es| && es[i] == e;
      assert ps[i] in ps;
    }
    assert forall e :: e in With(log, env, ps) <==> e in log || e in es;
  }

  lemma {:induction false} ClosedFinishes(id: string, steps: seq<R.OpenStep>, x: string)
    ensures FinishedIn(R.ClosedSteps(id, steps), x) <= if x == id then Ids(steps) else {}
  {
    if steps != [] {
      ClosedFinishes(id, steps[..|steps| - 1], x);
      IdsSnoc(steps);
      FinishedJoin(R.ClosedSteps(id, steps[..|steps| - 1]), [StepFinished(id, steps[|steps| - 1].id)], x);
    }
  }

  lemma FinishedJoin(a: seq<Payload>, b: seq<Payload>, id: string)
    ensures FinishedIn(a + b, id) == FinishedIn(a, id) + FinishedIn(b, id)
  {
    assert forall p :: p in a + b <==> p in a || p in b;
  }

  lemma {:induction false} AttachedFinishes(list: seq<R.Attachment>, emitted: set<nat>, id: string, step: Option<string>, remember: bool, x: string)
    ensures FinishedIn(R.Attached(list, emitted, id, step, remember), x) == {}
    decreases |list|
  {
    if list != [] {
      var more := if remember then emitted + {list[0].item} else emitted;
      AttachedFinishes(list[1..], emitted, id, step, remember, x);
      AttachedFinishes(list[1..], more, id, step, remember, x);
      if list[0].item !in emitted {
        var one := if list[0].stored then [AttachmentAdded(id, step, list[0].sha256, list[0].sizeBytes)] else [];
        FinishedJoin(one, R.Attached(list[1..], more, id, step, remember), x);
      }
    }
  }

  lemma {:induction false} LeftoverFinishes(t: R.Tables, order: seq<string>, x: string)
    ensures FinishedIn(R.Leftover(t, order), x) <= if x in t.attempts then Ids(t.attempts[x].steps) else {}
  {
    if order != [] {
      var before, id := order[..|order| - 1], order[|order| - 1];
      LeftoverFinishes(t, before, x);
      if id in t.attempts {
        var close, p := R.ClosedSteps(id, t.attempts[id].steps), AttemptFinished(id, Inconclusive, None);
        ClosedFinishes(id, t.attempts[id].steps, x);
        FinishedJoin(close, [p], x);
        FinishedJoin(R.Leftover(t, before), close + [p], x);
      }
    }
  }

  // ---------------------------------------------------------------- orphans

  /** A step of an open attempt that the log has started and that nothing will ever finish. */
  ghost predicate Orphan(t: R.Tables, log: seq<Event>, id: string, step: string) {
    && id in t.attempts && id in t.order
    && step in StepsStarted(log, id) && step !in StepsFinished(log, id)
    && step !in Ids(t.attempts[id].steps)
    && (exists k: nat | k <= t.attempts[id].count :: step == R.StepId(id, k))
  }

  lemma LawfulPrefix(log: seq<Event>, more: seq<Event>)
    requires Lawful(log + more)
    ensures Lawful(log)
  {
    ContinuesJoin([], log, more);
  }

  /** An attempt cannot end lawfully while a step of it is never finished. */
  lemma OrphanEnds(log: seq<Event>, env: S.Environment, ps: seq<Payload>, id: string, step: string, p: Payload)
    requires step in StepsStarted(log, id) && step !in StepsFinished(log, id) && step !in FinishedIn(ps, id)
    requires p in ps && p.AttemptFinished? && p.attemptId == id
    ensures !Lawful(With(log, env, ps))
  {
    hide Lawful, StepsStarted, StepsFinished, FinishedIn;
    var all := With(log, env, ps);
    WithSteps(log, env, ps, id);
    if Lawful(all) {
      var i :| 0 <= i < |ps| && ps[i] == p;
      var k := |log| + i;
      assert all[k] == Stamp(env, k, p);
      LawfulAt(all, k);
      EarlierSteps(log, all, k, id, step);
    }
  }

  lemma EarlierSteps(log: seq<Event>, all: seq<Event>, k: nat, id: string, step: string)
    requires |log| <= k <= |all| && all[..|log|] == log && step in StepsStarted(log, id) && step !in StepsFinished(all, id)
    ensures step in StepsStarted(all[..k], id) && step !in StepsFinished(all[..k], id)
  {
    assert forall e | e in log :: e in all[..k] by {
      forall e | e in log ensures e in all[..k] {
        var j :| 0 <= j < |log| && log[j] == e;
        assert all[..k][j] == all[..|log|][j] == e;
      }
    }
    assert forall e | e in all[..k] :: e in all;
  }

  lemma {:induction false} WithStepIds(steps: seq<R.OpenStep>, step: nat, id: string)
    ensures Ids(R.WithStep(steps, step, id)) <= Ids(steps) + {id}
    ensures id in Ids(R.WithStep(steps, step, id))
  {
    if steps != [] {
      var before, last := steps[..|steps| - 1], steps[|steps| - 1];
      IdsSnoc(steps);
      WithStepIds(before, step, id);
      var w := R.WithStep(steps, step, id);
      IdsSnoc(w);
      assert w[..|w| - 1] == if last.step == step then before else if R.StepOf(steps, step).None? then steps else R.WithStep(before, step, id);
    } else {
      assert R.OpenStep(step, id) in R.WithStep(steps, step, id);
    }
  }

  lemma {:induction false} WithoutStepIds(steps: seq<R.OpenStep>, step: nat)
    ensures Ids(R.WithoutStep(steps, step)) <= Ids(steps)
  {
    if steps != [] {
      var before, last := steps[..|steps| - 1], steps[|steps| - 1];
      IdsSnoc(steps);
      WithoutStepIds(before, step);
      if last.step != step {
        var w := R.WithoutStep(steps, step);
        IdsSnoc(w);
        assert w[..|w| - 1] == R.WithoutStep(before, step);
      }
    }
  }

  lemma {:induction false} StillInOrder(order: seq<string>, id: string, gone: string)
    requires id in order && id != gone
    ensures id in R.Without(order, gone)
  {
    var before, last := order[..|order| - 1], order[|order| - 1];
    assert order == before + [last];
    if id in before { StillInOrder(before, id, gone); }
  }

  /** The attempt a callback is about. */
  function About(c: R.Callback): string {
    if c.TestBegin? || c.StepBegin? || c.StepEnd? || c.TestEnd? then R.AttemptId(c.test, c.retry) else ""
  }

  lemma OutputFinishes(t: R.Tables, c: R.Callback, id: string)
    requires id in t.attempts
    ensures FinishedIn(R.Output(t, c), id) <= Ids(t.attempts[id].steps)
  {
    match c
    case StepEnd(test, retry, step, attachments) =>
      var x := R.AttemptId(test, retry);
      if x in t.attempts && R.StepOf(t.attempts[x].steps, step).Some? {
        var s := R.StepOf(t.attempts[x].steps, step);
        var attach := R.Attached(attachments, t.attempts[x].emitted, x, s, true);
        AttachedFinishes(attachments, t.attempts[x].emitted, x, s, true, id);
        FinishedJoin(attach, [StepFinished(x, s.value)], id);
        StepOfKnown(t.attempts[x].steps, step);
      }
    case TestEnd(test, retry, status, expected, attachments) =>
      var x := R.AttemptId(test, retry);
      if x in t.attempts {
        var close, attach := R.ClosedSteps(x, t.attempts[x].steps), R.Attached(attachments, t.attempts[x].emitted, x, None, false);
        ClosedFinishes(x, t.attempts[x].steps, id);
        AttachedFinishes(attachments, t.attempts[x].emitted, x, None, false, id);
        FinishedJoin(close, attach, id);
        FinishedJoin(close + attach, [AttemptFinished(x, status, expected)], id);
      }
    case _ =>
  }

  lemma {:induction false} StepOfKnown(steps: seq<R.OpenStep>, step: nat)
    ensures R.StepOf(steps, step).Some? ==> R.StepOf(steps, step).value in Ids(steps)
  {
    if steps != [] {
      IdsSnoc(steps);
      StepOfKnown(steps[..|steps| - 1], step);
    }
  }

  /** An orphan stays one until its attempt ends. */
  lemma OrphanStays(t: R.Tables, log: seq<Event>, env: S.Environment, c: R.Callback, id: string, step: string)
    requires Orphan(t, log, id, step) && !(c.TestEnd? && About(c) == id)
    ensures Orphan(R.Updated(t, c), With(log, env, R.Output(t, c)), id, step)
  {
    hide R.StepId, R.AttemptId, R.WithStep, R.WithoutStep, R.StepOf, With;
    OutputFinishes(t, c, id);
    WithSteps(log, env, R.Output(t, c), id);
    hide R.Output;
    match c
    case StepBegin(test, retry, s, _) => if About(c) == id { OrphanBesideStep(t, id, step, s); }
    case StepEnd(test, retry, s, _) => if About(c) == id { WithoutStepIds(t.attempts[id].steps, s); }
    case TestEnd(test, retry, _, _, _) => StillInOrder(t.order, id, About(c));
    case _ =>
  }

  lemma OrphanBesideStep(t: R.Tables, id: string, step: string, s: nat)
    requires id in t.attempts && step !in Ids(t.attempts[id].steps)
    requires exists k: nat | k <= t.attempts[id].count :: step == R.StepId(id, k)
    ensures var a := t.attempts[id]; step !in Ids(R.WithStep(a.steps, s, R.StepId(id, a.count + 1)))
  {
    hide R.StepId;
    var a := t.attempts[id];
    var k: nat :| k <= a.count && step == R.StepId(id, k);
    if R.StepId(id, k) == R.StepId(id, a.count + 1) { StepIdInjective(id, k, a.count + 1); }
    WithStepIds(a.steps, s, R.StepId(id, a.count + 1));
  }

  // ---------------------------------------------------------------- breaking the discipline

  /** Something has gone wrong that the end of the run will show. */
  ghost predicate Doomed(r: R.Run, env: S.Environment) {
    Ready(r.session, env) && (!Lawful(r.session.log) || exists id, step :: Orphan(r.tables, r.session.log, id, step))
  }

  lemma DoomedStays(r: R.Run, env: S.Environment, c: R.Callback)
    requires Reliable(env) && Doomed(r, env)
    ensures Doomed(R.Called(r, env, c), env)
  {
    CalledLog(r, env, c);
    CalledTables(r, env, c);
    hide Reliable, Ready, R.Called, R.Updated, R.Output, Orphan;
    var log := r.session.log;
    if !Lawful(log) {
      if Lawful(With(log, env, R.Output(r.tables, c))) { LawfulPrefix(log, Stamps(env, |log|, R.Output(r.tables, c))); }
    } else {
      var id, step :| Orphan(r.tables, log, id, step);
      hide With, Lawful;
      if c.TestEnd? && About(c) == id { OrphanTestEnds(r, env, c, id, step); } else { OrphanStays(r.tables, log, env, c, id, step); }
    }
  }

  lemma OrphanTestEnds(r: R.Run, env: S.Environment, c: R.Callback, id: string, step: string)
    requires Orphan(r.tables, r.session.log, id, step) && c.TestEnd? && About(c) == id
    ensures !Lawful(With(r.session.log, env, R.Output(r.tables, c)))
  {
    OutputFinishes(r.tables, c, id);
    OrphanEnds(r.session.log, env, R.Output(r.tables, c), id, step, AttemptFinished(id, c.status, c.expected));
  }

  lemma {:induction false} DoomedRun(r: R.Run, env: S.Environment, cs: seq<R.Callback>)
    requires Reliable(env) && Doomed(r, env)
    ensures Doomed(R.After(r, env, cs), env)
  {
    if cs != [] {
      hide Reliable, Doomed, R.Called;
      DoomedRun(r, env, cs[..|cs| - 1]);
      DoomedStays(R.After(r, env, cs[..|cs| - 1]), env, cs[|cs| - 1]);
    }
  }

  lemma {:induction false} LeftoverEnds(t: R.Tables, order: seq<string>, id: string)
    requires id in order && id in t.attempts
    ensures AttemptFinished(id, Inconclusive, None) in R.Leftover(t, order)
  {
    var before, last := order[..|order| - 1], order[|order| - 1];
    assert order == before + [last];
    if last != id { LeftoverEnds(t, before, id); }
  }

  lemma DoomedEnds(r: R.Run, env: S.Environment, result: Option<SessionStatus>, raw: string, owned: bool)
    requires Reliable(env) && Doomed(r, env)
    ensures !Lawful(R.Ended(r, env, result, raw, owned).log)
  {
    EndWrites(r, env, result, raw, owned);
    hide Reliable, Ready, R.Ended, R.Leftover, Stamp, R.Outcome;
    var log, t := r.session.log, r.tables;
    var ps := R.Leftover(t, t.order);
    var left := With(log, env, ps);
    if Lawful(R.Ended(r, env, result, raw, owned).log) {
      var p := R.Outcome(t, result, raw);
      var tail := [Stamp(env, |left|, p)] + (if owned then [Stamp(env, |left| + 1, RunFinished)] else []);
      assert R.Ended(r, env, result, raw, owned).log == left + tail;
      LawfulPrefix(left, tail);
      LawfulPrefix(log, Stamps(env, |log|, ps));
      hide With;
      OrphanLeft(r, env);
    }
  }

  lemma OrphanLeft(r: R.Run, env: S.Environment)
    requires exists id, step :: Orphan(r.tables, r.session.log, id, step)
    ensures !Lawful(With(r.session.log, env, R.Leftover(r.tables, r.tables.order)))
  {
    var id, step :| Orphan(r.tables, r.session.log, id, step);
    LeftoverFinishes(r.tables, r.tables.order, id);
    LeftoverEnds(r.tables, r.tables.order, id);
    OrphanEnds(r.session.log, env, R.Leftover(r.tables, r.tables.order), id, step, AttemptFinished(id, Inconclusive, None));
  }

  // ---------------------------------------------------------------- each way of breaking it

  lemma BadBegin(r: R.Run, env: S.Environment, c: R.Callback)
    requires Reliable(env) && Conforms(r, env) && c.TestBegin? && !Allowed(r, c)
    ensures !Lawful(R.Called(r, env, c).session.log)
  {
    var log, id := r.session.log, R.AttemptId(c.test, c.retry);
    var p := AttemptStarted(id, c.retry + 1, c.test, c.identity);
    assert R.Output(r.tables, c) == [p];
    CalledLog(r, env, c);
    hide R.Called, Ready, R.AttemptId, R.Output, RunnerOf;
    WithOne(log, env, p);
    assert Stamped(log, env) by { ReadyStamped(r.session, env); }
    Take(log, env, p);
  }

  lemma {:induction false} Reopened(steps: seq<R.OpenStep>, step: nat, id: string)
    requires DistinctSteps(steps) && R.StepOf(steps, step).Some? && id !in Ids(steps)
    ensures R.StepOf(steps, step).value !in Ids(R.WithStep(steps, step, id))
  {
    var before, last := steps[..|steps| - 1], steps[|steps| - 1];
    IdsSnoc(steps);
    var w := R.WithStep(steps, step, id);
    IdsSnoc(w);
    if last.step == step {
      assert w[..|w| - 1] == before;
      assert last.id !in Ids(before);
    } else {
      assert w[..|w| - 1] == R.WithStep(before, step, id);
      Reopened(before, step, id);
      StepOfKnown(before, step);
    }
  }

  lemma LostStep(a: R.OpenAttempt, id: string, log: seq<Event>, log': seq<Event>, step: nat)
    requires Tracks(a, id, log) && R.StepOf(a.steps, step).Some?
    requires StepsStarted(log, id) <= StepsStarted(log', id) && StepsFinished(log', id) <= StepsFinished(log, id)
    ensures var lost := R.StepOf(a.steps, step).value;
            && lost in StepsStarted(log', id) && lost !in StepsFinished(log', id)
            && lost !in Ids(R.WithStep(a.steps, step, R.StepId(id, a.count + 1)))
            && exists k: nat | k <= a.count + 1 :: lost == R.StepId(id, k)
  {
    var lost := R.StepOf(a.steps, step).value;
    OpenStepKnown(a, id, log, step);
    NextStepIsNew(a, id, log);
    NotOpen(a, id, log);
    Reopened(a.steps, step, R.StepId(id, a.count + 1));
    hide R.StepId, R.WithStep;
    var k: nat :| k <= a.count && lost == R.StepId(id, k);
    assert k <= a.count + 1;
  }

  lemma UpdatedStep(t: R.Tables, c: R.Callback, id: string)
    requires c.StepBegin? && About(c) == id && id in t.attempts
    ensures var a := t.attempts[id];
            R.Updated(t, c) == t.(attempts := t.attempts[id := a.(steps := R.WithStep(a.steps, c.step, R.StepId(id, a.count + 1)), count := a.count + 1)])
  {
    hide R.WithStep, R.StepId;
  }

  lemma StepLog(r: R.Run, env: S.Environment, c: R.Callback, id: string)
    requires Reliable(env) && Ready(r.session, env) && c.StepBegin?
    ensures var log' := R.Called(r, env, c).session.log;
            StepsStarted(r.session.log, id) <= StepsStarted(log', id) && StepsFinished(log', id) <= StepsFinished(r.session.log, id)
  {
    CalledLog(r, env, c);
    BeginFinishesNothing(r.tables, c, id);
    hide R.Called, R.Output, With;
    WithSteps(r.session.log, env, R.Output(r.tables, c), id);
  }

  lemma BadStep(r: R.Run, env: S.Environment, c: R.Callback, id: string)
    requires Reliable(env) && Conforms(r, env) && c.StepBegin? && About(c) == id && id in r.tables.attempts
    requires R.StepOf(r.tables.attempts[id].steps, c.step).Some?
    ensures Orphan(R.Updated(r.tables, c), R.Called(r, env, c).session.log, id, R.StepOf(r.tables.attempts[id].steps, c.step).value)
  {
    hide R.Called, Ready, R.StepId, R.WithStep, Lawful, Reliable, Tracks, WellNamed, About, R.StepOf;
    StepLog(r, env, c, id);
    UpdatedStep(r.tables, c, id);
    hide R.Updated;
    LostStep(r.tables.attempts[id], id, r.session.log, R.Called(r, env, c).session.log, c.step);
  }

  lemma BeginFinishesNothing(t: R.Tables, c: R.Callback, id: string)
    requires c.StepBegin?
    ensures FinishedIn(R.Output(t, c), id) == {}
  {
  }

  lemma NotOpen(a: R.OpenAttempt, id: string, log: seq<Event>)
    requires Tracks(a, id, log) && R.StepId(id, a.count + 1) !in StepsStarted(log, id)
    ensures R.StepId(id, a.count + 1) !in Ids(a.steps)
  {
  }

  lemma BrokenIsDoomed(r: R.Run, env: S.Environment, c: R.Callback)
    requires Reliable(env) && Conforms(r, env) && !Allowed(r, c)
    ensures Doomed(R.Called(r, env, c), env)
  {
    CalledLog(r, env, c);
    CalledTables(r, env, c);
    if c.TestBegin? { BadBegin(r, env, c); } else { BadStep(r, env, c, About(c)); }
    hide Reliable, Ready, R.Called, R.Updated, Orphan, Lawful, Conforms;
  }

  // ---------------------------------------------------------------- the theorem

  /** The first callback that breaks the discipline, if any does. */
  lemma {:induction false} FirstBroken(r: R.Run, env: S.Environment, cs: seq<R.Callback>) returns (n: nat)
    requires !Disciplined(r, env, cs)
    ensures n < |cs| && Disciplined(r, env, cs[..n]) && !Allowed(R.After(r, env, cs[..n]), cs[n])
    decreases |cs|
  {
    hide Allowed, R.Called;
    var before := cs[..|cs| - 1];
    if Disciplined(r, env, before) {
      n := |before|;
      forall i | 0 <= i < |before| ensures Allowed(R.After(r, env, cs[..i]), cs[i]) { assert before[..i] == cs[..i]; }
    } else {
      n := FirstBroken(r, env, before);
      assert before[..n] == cs[..n];
    }
  }

  lemma {:induction false} AfterJoin(r: R.Run, env: S.Environment, a: seq<R.Callback>, b: seq<R.Callback>)
    ensures R.After(r, env, a + b) == R.After(R.After(r, env, a), env, b)
  {
    hide R.Called;
    if b == [] {
      assert a + b == a;
    } else {
      AfterJoin(r, env, a, b[..|b| - 1]);
      assert (a + b)[..|a + b| - 1] == a + b[..|b| - 1];
    }
  }

  lemma AfterBreak(r: R.Run, env: S.Environment, cs: seq<R.Callback>, n: nat)
    requires n < |cs|
    ensures R.After(r, env, cs) == R.After(R.Called(R.After(r, env, cs[..n]), env, cs[n]), env, cs[n + 1..])
  {
    hide R.Called;
    assert cs[..n + 1][..n] == cs[..n];
    assert cs == cs[..n + 1] + cs[n + 1..];
    AfterJoin(r, env, cs[..n + 1], cs[n + 1..]);
  }

  lemma BrokenEnds(r: R.Run, env: S.Environment, cs: seq<R.Callback>, n: nat, result: Option<SessionStatus>, raw: string, owned: bool)
    requires Reliable(env) && Conforms(r, env) && n < |cs| && Disciplined(r, env, cs[..n])
    requires !Allowed(R.After(r, env, cs[..n]), cs[n])
    ensures !Lawful(R.Ended(R.After(r, env, cs), env, result, raw, owned).log)
  {
    hide Reliable, Conforms, Doomed, R.Ended, R.Called, Allowed, Lawful, Disciplined, R.After;
    RunConforms(r, env, cs[..n]);
    BrokenIsDoomed(R.After(r, env, cs[..n]), env, cs[n]);
    DoomedRun(R.Called(R.After(r, env, cs[..n]), env, cs[n]), env, cs[n + 1..]);
    AfterBreak(r, env, cs, n);
    DoomedEnds(R.After(r, env, cs), env, result, raw, owned);
  }

  /** Whatever the callbacks: the log written is lawful exactly when they kept the discipline. */
  lemma LawfulExactly(env: S.Environment, runner: string, cs: seq<R.Callback>, result: Option<SessionStatus>, raw: string, owned: bool)
    requires Reliable(env)
    ensures var r := R.Begun(env, runner);
            Lawful(R.Ended(R.After(r, env, cs), env, result, raw, owned).log) <==> Disciplined(r, env, cs)
  {
    hide Reliable, Conforms, R.Ended, R.After, Allowed, Lawful, R.Begun, Disciplined;
    var r := R.Begun(env, runner);
    BegunConforms(env, runner);
    if Disciplined(r, env, cs) {
      RunConforms(r, env, cs);
      EndConforms(R.After(r, env, cs), env, result, raw, owned);
    } else {
      var n := FirstBroken(r, env, cs);
      BrokenEnds(r, env, cs, n, result, raw, owned);
    }
  }

  // ---------------------------------------------------------------- what the validator says

  /** The one file the session wrote. */
  function SessionDirectory(log: seq<Event>, name: string): seq<File> {
    [File(name, Written(log))]
  }

  lemma OneFile(log: seq<Event>, name: string)
    requires forall i, j | 0 <= i < j < |log| :: log[i] != log[j]
    ensures Logged(SessionDirectory(log, name)) == log && Blocks(SessionDirectory(log, name)) == [log]
    ensures forall i | 0 <= i < |SessionDirectory(log, name)| :: Readable(SessionDirectory(log, name)[i].lines)
  {
    hide New, Written;
    var files := SessionDirectory(log, name);
    NewWritten([], log);
    EmptyRun([]);
    assert files[..0] == [];
    LoggedSnoc(files);
    BlocksSnoc(files);
    assert [] + log == log;
    assert Readable(Written(log)) by { WrittenReadable(log); }
  }

  lemma WrittenReadable(log: seq<Event>)
    ensures Readable(Written(log))
  {
  }

  /** The shape of what the reporter writes: one session, finished, and run.finished only at the end. */
  ghost predicate Whole(log: seq<Event>, env: S.Environment) {
    && SessionFile(log)
    && (forall i, j | 0 <= i < j < |log| :: log[i] != log[j])
    && SessionClosed(log, env.sessionId) && (forall e | e in log :: e.sessionId == env.sessionId)
  }

  lemma WrittenWhole(left: seq<Event>, env: S.Environment, p: Payload, owned: bool)
    requires Reliable(env) && Stamped(left, env) && p.SessionFinished?
    ensures Whole(left + [Stamp(env, |left|, p)] + (if owned then [Stamp(env, |left| + 1, RunFinished)] else []), env)
  {
    var log := left + [Stamp(env, |left|, p)] + (if owned then [Stamp(env, |left| + 1, RunFinished)] else []);
    forall i | 0 <= i < |log| ensures log[i].eventId == env.ids(i) && log[i].sessionId == env.sessionId {}
    assert log[|left|].payload.SessionFinished? && log[|left|] in log;
    forall e | e in log ensures e.sessionId == env.sessionId {
      var i :| 0 <= i < |log| && log[i] == e;
    }
  }

  lemma LawfulIsAccepted(log: seq<Event>, env: S.Environment, name: string)
    requires Whole(log, env)
    ensures var v := FeedAll(FRESH, SessionDirectory(log, name));
            Valid(v.core) && Complete(v.core) <==> Lawful(log)
  {
    hide FeedAll, Complete, LawfulRun, Blocks, Logged, SessionFile, SessionDirectory, Readable, Inv;
    var files := SessionDirectory(log, name);
    OneFile(log, name);
    LawfulRunByBlocks(files);
    FedExact(files);
    assert |files| == 1 by { DirectoryLength(log, name); }
    if Lawful(log) {
      FinishedSessionsClose(files);
      assert Closed(log);
      CompleteMeansFinished(FeedAll(FRESH, files).core);
    }
  }

  lemma DirectoryLength(log: seq<Event>, name: string)
    ensures |SessionDirectory(log, name)| == 1
  {
  }

  lemma CompleteMeansFinished(c: Core)
    requires Complete(c)
    ensures SessionsFinished(c)
  {
  }

  /**
   * Producer conformance. For every sequence of callbacks, with no write dropped, the directory
   * the reporter leaves is valid and complete exactly when the callbacks kept the discipline.
   */
  lemma ProducerConforms(
    env: S.Environment, runner: string, cs: seq<R.Callback>, result: Option<SessionStatus>, raw: string, owned: bool, name: string)
    requires Reliable(env)
    ensures var r := R.Begun(env, runner);
            var v := FeedAll(FRESH, SessionDirectory(R.Ended(R.After(r, env, cs), env, result, raw, owned).log, name));
            Valid(v.core) && Complete(v.core) <==> Disciplined(r, env, cs)
  {
    hide R.Ended, R.After, Lawful, R.Begun, Disciplined, FeedAll, Complete, Valid, SessionDirectory, Stamped, R.Outcome, With, Whole, Reliable;
    var r := R.Begun(env, runner);
    LawfulExactly(env, runner, cs, result, raw, owned);
    var now := R.After(r, env, cs);
    AlwaysReady(env, runner, cs);
    EndWrites(now, env, result, raw, owned);
    WrittenWhole(With(now.session.log, env, R.Leftover(now.tables, now.tables.order)), env, R.Outcome(now.tables, result, raw), owned);
    LawfulIsAccepted(R.Ended(now, env, result, raw, owned).log, env, name);
  }

  lemma {:induction false} AlwaysReady(env: S.Environment, runner: string, cs: seq<R.Callback>)
    requires Reliable(env)
    ensures Ready(R.After(R.Begun(env, runner), env, cs).session, env)
  {
    if cs == [] {
      BegunConforms(env, runner);
    } else {
      hide Reliable, Ready, R.Called, R.Begun;
      AlwaysReady(env, runner, cs[..|cs| - 1]);
      CalledLog(R.After(R.Begun(env, runner), env, cs[..|cs| - 1]), env, cs[|cs| - 1]);
    }
  }

  // ---------------------------------------------------------------- one way to break it

  /** One test, one attempt, one step object reported as beginning twice. */
  function TwiceBegun(identity: Identity): seq<R.Callback> {
    [R.TestBegin("t", 0, identity), R.StepBegin("t", 0, 1, None), R.StepBegin("t", 0, 1, None)]
  }

  lemma OpenAfterTwo(env: S.Environment, runner: string, identity: Identity)
    ensures var t := R.After(R.Begun(env, runner), env, TwiceBegun(identity)[..2]).tables;
            R.AttemptId("t", 0) in t.attempts && R.StepOf(t.attempts[R.AttemptId("t", 0)].steps, 1).Some?
  {
    hide R.EmitAll, R.Output, S.Emit, R.AttemptId, R.StepId;
    var cs, r := TwiceBegun(identity), R.Begun(env, runner);
    AfterOne(r, env, [], cs[0]);
    var one := R.Called(r, env, cs[0]);
    assert [] + [cs[0]] == [cs[0]];
    AfterOne(r, env, [cs[0]], cs[1]);
    assert [cs[0]] + [cs[1]] == cs[..2];
    hide R.After;
    assert one.tables.attempts[R.AttemptId("t", 0)] == R.OpenAttempt([], 0, {});
  }

  lemma AfterOne(r: R.Run, env: S.Environment, cs: seq<R.Callback>, c: R.Callback)
    ensures R.After(r, env, cs + [c]) == R.Called(R.After(r, env, cs), env, c)
    ensures R.After(r, env, []) == r
  {
    hide R.Called;
    assert (cs + [c])[..|cs|] == cs;
  }

  /** Such a run is refused, although no attempt is repeated and no test changes its identity. */
  lemma TwiceBegunIsRefused(
    env: S.Environment, runner: string, identity: Identity, result: Option<SessionStatus>, raw: string, owned: bool, name: string)
    requires Reliable(env)
    ensures var s := R.Ended(R.After(R.Begun(env, runner), env, TwiceBegun(identity)), env, result, raw, owned);
            var v := FeedAll(FRESH, SessionDirectory(s.log, name));
            !(Valid(v.core) && Complete(v.core))
  {
    hide R.Ended, R.After, R.Begun, FeedAll, Complete, Valid, SessionDirectory, Reliable, R.AttemptId, R.StepOf;
    var cs := TwiceBegun(identity);
    OpenAfterTwo(env, runner, identity);
    assert !Allowed(R.After(R.Begun(env, runner), env, cs[..2]), cs[2]);
    assert !Disciplined(R.Begun(env, runner), env, cs);
    ProducerConforms(env, runner, cs, result, raw, owned, name);
  }
}
