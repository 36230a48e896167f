/**
The reporter object: its tables updated callback by callback, its events emitted one by one through
the session it owns.
*/
module ReporterObject {
  import opened Protocol
  import S = ReportSessions
  import R = Reporter
  import opened ReportSessionObject

  lemma EmitOne(s: S.Session, env: S.Environment, ps: seq<Payload>, p: Payload)
    ensures R.EmitAll(s, env, ps + [p]) == S.Emit(R.EmitAll(s, env, ps), env, p).session
    ensures R.EmitAll(s, env, []) == s
  {
    hide S.Emit;
    assert (ps + [p])[..|ps|] == ps;
  }

  lemma {:induction false} EmitJoin(s: S.Session, env: S.Environment, a: seq<Payload>, b: seq<Payload>)
    ensures R.EmitAll(s, env, a + b) == R.EmitAll(R.EmitAll(s, env, a), env, b)
  {
    hide S.Emit;
    if b == [] {
      assert a + b == a;
    } else {
      EmitJoin(s, env, a, b[..|b| - 1]);
      assert (a + b)[..|a + b| - 1] == a + b[..|b| - 1];
    }
  }

  class QeReportReporter {
    const session: ReportSession
    var attempts: map<string, R.OpenAttempt>
    var order: seq<string>
    var failures: seq<string>

    ghost function Run(): R.Run
      reads this, session
    {
      R.Run(session.State(), R.Tables(attempts, order, failures))
    }

    /** The beginning of the run opens the session. */
    constructor (env: S.Environment, runner: string)
      ensures session.env == env && fresh(session)
      ensures Run() == R.Begun(env, runner)
    {
      var begun := new ReportSession(env);
      var _ := begun.Emit(SessionStarted(Some(runner)));
      session := begun;
      attempts, order, failures := map[], [], [];
    }

    method OnTestBegin(test: string, retry: nat, identity: Identity)
      modifies this, session
      ensures Run() == R.Called(old(Run()), session.env, R.TestBegin(test, retry, identity))
    {
      hide S.Emit, R.AttemptId;
      var id := R.AttemptId(test, retry);
      ghost var s := session.State();
      if id in attempts {
        return;
      }
      attempts := attempts[id := R.OpenAttempt([], 0, {})];
      order := order + [id];
      var p := AttemptStarted(id, retry + 1, test, identity);
      var _ := session.Emit(p);
      EmitOne(s, session.env, [], p);
      assert [] + [p] == [p];
    }

    method OnStepBegin(test: string, retry: nat, step: nat, parent: Option<nat>)
      modifies this, session
      ensures Run() == R.Called(old(Run()), session.env, R.StepBegin(test, retry, step, parent))
    {
      hide S.Emit, R.AttemptId, R.StepId, R.WithStep, R.StepOf;
      var id := R.AttemptId(test, retry);
      ghost var s := session.State();
      if id !in attempts {
        return;
      }
      var a := attempts[id];
      var above := if parent.Some? then R.StepOf(a.steps, parent.value) else None;
      var stepId := R.StepId(id, a.count + 1);
      attempts := attempts[id := a.(steps := R.WithStep(a.steps, step, stepId), count := a.count + 1)];
      var p := StepStarted(id, stepId, above);
      var _ := session.Emit(p);
      EmitOne(s, session.env, [], p);
      assert [] + [p] == [p];
    }

    /** Emits every attachment not emitted before; at step scope they are remembered. */
    method Attach(id: string, step: Option<string>, list: seq<R.Attachment>, known: set<nat>, remember: bool) returns (emitted: set<nat>)
      modifies session
      ensures session.State() == R.EmitAll(old(session.State()), session.env, R.Attached(list, known, id, step, remember))
      ensures emitted == if remember then known + R.Objects(list) else known
    {
      hide S.Emit;
      emitted := known;
      ghost var s := session.State();
      for i := 0 to |list|
        invariant emitted == if remember then known + R.Objects(list[..i]) else known
        invariant R.EmitAll(s, session.env, R.Attached(list, known, id, step, remember)) ==
                  R.EmitAll(session.State(), session.env, R.Attached(list[i..], emitted, id, step, remember))
      {
        var a := list[i];
        assert list[i..][1..] == list[i + 1..];
        assert R.Objects(list[..i + 1]) == R.Objects(list[..i]) + {a.item} by { assert list[..i + 1] == list[..i] + [a]; }
        if a.item !in emitted {
          ghost var now := session.State();
          var more := if remember then emitted + {a.item} else emitted;
          if a.stored {
            var p := AttachmentAdded(id, step, a.sha256, a.sizeBytes);
            EmitJoin(now, session.env, [p], R.Attached(list[i + 1..], more, id, step, remember));
            EmitOne(now, session.env, [], p);
            assert [] + [p] == [p];
            var _ := session.Emit(p);
          } else {
            assert [] + R.Attached(list[i + 1..], more, id, step, remember) == R.Attached(list[i + 1..], more, id, step, remember);
          }
          emitted := more;
        }
      }
      assert list[..|list|] == list && list[|list|..] == [];
    }

    method OnStepEnd(test: string, retry: nat, step: nat, attachments: seq<R.Attachment>)
      modifies this, session
      ensures Run() == R.Called(old(Run()), session.env, R.StepEnd(test, retry, step, attachments))
    {
      hide S.Emit, R.AttemptId, R.WithoutStep, R.StepOf, R.Attached;
      var id := R.AttemptId(test, retry);
      ghost var s := session.State();
      if id !in attempts {
        return;
      }
      var a := attempts[id];
      var open := R.StepOf(a.steps, step);
      if open.None? {
        return;
      }
      var emitted := Attach(id, open, attachments, a.emitted, true);
      attempts := attempts[id := a.(steps := R.WithoutStep(a.steps, step), emitted := emitted)];
      var p := StepFinished(id, open.value);
      EmitOne(s, session.env, R.Attached(attachments, a.emitted, id, open, true), p);
      var _ := session.Emit(p);
    }

    method CloseOpenSteps(id: string, steps: seq<R.OpenStep>)
      modifies session
      ensures session.State() == R.EmitAll(old(session.State()), session.env, R.ClosedSteps(id, steps))
    {
      hide S.Emit, R.EmitAll;
      ghost var s := session.State();
      EmitOne(s, session.env, [], ScopeFailed);
      for i := 0 to |steps|
        invariant session.State() == R.EmitAll(s, session.env, R.ClosedSteps(id, steps[..i]))
      {
        assert steps[..i + 1][..i] == steps[..i];
        EmitOne(s, session.env, R.ClosedSteps(id, steps[..i]), StepFinished(id, steps[i].id));
        var _ := session.Emit(StepFinished(id, steps[i].id));
      }
      assert steps[..|steps|] == steps;
    }

    method OnTestEnd(test: string, retry: nat, status: Status, expected: Option<Status>, attachments: seq<R.Attachment>)
      modifies this, session
      ensures Run() == R.Called(old(Run()), session.env, R.TestEnd(test, retry, status, expected, attachments))
    {
      hide S.Emit, R.AttemptId, R.Attached, R.ClosedSteps, R.Without;
      var id := R.AttemptId(test, retry);
      ghost var s := session.State();
      if id !in attempts {
        return;
      }
      var a := attempts[id];
      attempts := attempts - {id};
      order := R.Without(order, id);
      CloseOpenSteps(id, a.steps);
      var _ := Attach(id, None, attachments, a.emitted, false);
      EmitJoin(s, session.env, R.ClosedSteps(id, a.steps), R.Attached(attachments, a.emitted, id, None, false));
      var p := AttemptFinished(id, status, expected);
      EmitOne(s, session.env, R.ClosedSteps(id, a.steps) + R.Attached(attachments, a.emitted, id, None, false), p);
      var _ := session.Emit(p);
    }

    /** An error in a test file fails that scope; one of the invocation is kept for its outcome. */
    method OnError(c: R.Callback)
      requires c.FileError? || c.InvocationError? || c.OtherError?
      modifies this, session
      ensures Run() == R.Called(old(Run()), session.env, c)
    {
      hide S.Emit;
      ghost var s := session.State();
      EmitOne(s, session.env, [], ScopeFailed);
      assert [] + [ScopeFailed] == [ScopeFailed];
      if c.FileError? {
        var _ := session.Emit(ScopeFailed);
      } else if c.InvocationError? && |failures| < R.MAX_FAILURES {
        failures := failures + [c.failure];
      }
    }

    /** The end of the run: what is open is closed, the outcome offered, the run closed if owned. */
    method OnEnd(result: Option<SessionStatus>, raw: string, owned: bool)
      modifies this, session
      ensures session.State() == R.Ended(old(Run()), session.env, result, raw, owned)
    {
      hide S.Emit, S.Finish, S.FinishRun, S.Close, R.EmitAll, R.ClosedSteps;
      ghost var s, t := session.State(), R.Tables(attempts, order, failures);
      EmitOne(s, session.env, [], ScopeFailed);
      for i := 0 to |order|
        invariant attempts == t.attempts && order == t.order && failures == t.failures
        invariant session.State() == R.EmitAll(s, session.env, R.Leftover(t, order[..i]))
      {
        assert order[..i + 1][..i] == order[..i];
        var id := order[i];
        if id in attempts {
          CloseOpenSteps(id, attempts[id].steps);
          var p := AttemptFinished(id, Inconclusive, None);
          var _ := session.Emit(p);
          EmitJoin(s, session.env, R.Leftover(t, order[..i]), R.ClosedSteps(id, attempts[id].steps) + [p]);
          EmitOne(R.EmitAll(s, session.env, R.Leftover(t, order[..i])), session.env, R.ClosedSteps(id, attempts[id].steps), p);
        } else {
          assert R.Leftover(t, order[..i + 1]) == R.Leftover(t, order[..i]);
        }
      }
      assert order[..|order|] == order;
      attempts, order := map[], [];
      var finished := session.Finish(R.Outcome(R.Tables(attempts, order, failures), result, raw));
      if finished && owned {
        var _ := session.FinishRun();
      }
      session.Close();
    }
  }
}
