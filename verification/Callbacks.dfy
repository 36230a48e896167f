/**
The discipline as a condition on the callbacks alone, which a caller can check without the reporter:
an attempt does not begin again after its end, the attempts of a test begin under one identity, and a
step object does not begin again while it is open.
*/
module Callbacks {
  import opened Protocol
  import opened Validator
  import opened Lifecycle
  import opened Conformance
  import opened Discipline
  import S = ReportSessions
  import R = Reporter

  predicate Of(c: R.Callback, test: string, retry: nat) {
    (c.TestBegin? || c.StepBegin? || c.StepEnd? || c.TestEnd?) && c.test == test && c.retry == retry
  }

  /** The attempt has begun, and has not ended since. */
  predicate Open(cs: seq<R.Callback>, test: string, retry: nat) {
    cs != []
    && (var c := cs[|cs| - 1];
        if c.TestBegin? && Of(c, test, retry) then true
        else if c.TestEnd? && Of(c, test, retry) then false
        else Open(cs[..|cs| - 1], test, retry))
  }

  /** The step object has begun in the open attempt, and neither it nor the attempt has ended since. */
  predicate StepIsOpen(cs: seq<R.Callback>, test: string, retry: nat, step: nat) {
    cs != []
    && (var before, c := cs[..|cs| - 1], cs[|cs| - 1];
        if !Of(c, test, retry) then StepIsOpen(before, test, retry, step)
        else
          match c
          case StepBegin(_, _, s, _) => StepIsOpen(before, test, retry, step) || (s == step && Open(before, test, retry))
          case StepEnd(_, _, s, _) => StepIsOpen(before, test, retry, step) && s != step
          case TestEnd(_, _, _, _, _) => false
          case _ => StepIsOpen(before, test, retry, step))
  }

  /** The callback that begins an attempt; one for an attempt already open begins nothing. */
  predicate Begins(cs: seq<R.Callback>, i: nat) {
    i < |cs| && cs[i].TestBegin? && !Open(cs[..i], cs[i].test, cs[i].retry)
  }

  predicate Permitted(before: seq<R.Callback>, c: R.Callback) {
    match c
    case TestBegin(test, retry, identity) =>
      Open(before, test, retry)
      || forall i | 0 <= i < |before| && Begins(before, i) && before[i].test == test ::
           before[i].retry != retry && before[i].identity == identity
    case StepBegin(test, retry, step, _) => Open(before, test, retry) ==> !StepIsOpen(before, test, retry, step)
    case _ => true
  }

  predicate WellBehaved(cs: seq<R.Callback>) {
    forall i | 0 <= i < |cs| :: Permitted(cs[..i], cs[i])
  }

  // ---------------------------------------------------------------- the step table follows the callbacks

  ghost predicate OneEach(steps: seq<R.OpenStep>) {
    forall i, j | 0 <= i < j < |steps| :: steps[i].step != steps[j].step
  }

  predicate Has(steps: seq<R.OpenStep>, step: nat) {
    R.StepOf(steps, step).Some?
  }

  /** The step objects of a table. */
  function StepSet(steps: seq<R.OpenStep>): set<nat> {
    set o | o in steps :: o.step
  }

  lemma StepSetSnoc(steps: seq<R.OpenStep>)
    requires steps != []
    ensures StepSet(steps) == StepSet(steps[..|steps| - 1]) + {steps[|steps| - 1].step}
  {
    assert steps == steps[..|steps| - 1] + [steps[|steps| - 1]];
  }

  lemma {:induction false} HasMeans(steps: seq<R.OpenStep>, step: nat)
    ensures Has(steps, step) <==> step in StepSet(steps)
  {
    if steps != [] {
      HasMeans(steps[..|steps| - 1], step);
      StepSetSnoc(steps);
    }
  }

  lemma OneMore(steps: seq<R.OpenStep>, o: R.OpenStep)
    ensures OneEach(steps + [o]) <==> OneEach(steps) && o.step !in StepSet(steps)
    ensures StepSet(steps + [o]) == StepSet(steps) + {o.step}
  {
    var more := steps + [o];
    assert more[..|steps|] == steps;
    StepSetSnoc(more);
    if OneEach(more) {
      forall i, j | 0 <= i < j < |steps| ensures steps[i].step != steps[j].step { assert more[i] == steps[i] && more[j] == steps[j]; }
      forall x | x in steps ensures x.step != o.step {
        var i :| 0 <= i < |steps| && steps[i] == x;
        assert more[i] == x && more[|steps|] == o;
      }
    }
    if OneEach(steps) && o.step !in StepSet(steps) {
      forall i | 0 <= i < |steps| ensures steps[i].step != o.step { assert steps[i] in steps; }
    }
  }

  lemma {:induction false} StepAdded(steps: seq<R.OpenStep>, step: nat, id: string)
    requires OneEach(steps)
    ensures OneEach(R.WithStep(steps, step, id)) && StepSet(R.WithStep(steps, step, id)) == StepSet(steps) + {step}
  {
    if steps != [] {
      var before, last := steps[..|steps| - 1], steps[|steps| - 1];
      assert steps == before + [last];
      HasMeans(steps, step);
      OneMore(before, last);
      OneMore(before, R.OpenStep(step, id));
      OneMore(steps, R.OpenStep(step, id));
      if last.step != step && Has(steps, step) {
        StepAdded(before, step, id);
        OneMore(R.WithStep(before, step, id), last);
      }
    } else {
      assert R.WithStep(steps, step, id) == [R.OpenStep(step, id)];
    }
  }

  lemma {:induction false} StepRemoved(steps: seq<R.OpenStep>, step: nat)
    requires OneEach(steps)
    ensures OneEach(R.WithoutStep(steps, step)) && StepSet(R.WithoutStep(steps, step)) == StepSet(steps) - {step}
  {
    if steps != [] {
      var before, last := steps[..|steps| - 1], steps[|steps| - 1];
      assert steps == before + [last];
      OneMore(before, last);
      if last.step != step {
        StepRemoved(before, step);
        OneMore(R.WithoutStep(before, step), last);
      }
    }
  }

  /** The tables hold exactly the open attempts, and each exactly its open steps. */
  ghost predicate Follows(t: R.Tables, cs: seq<R.Callback>) {
    && (forall test: string, retry: nat :: R.AttemptId(test, retry) in t.attempts <==> Open(cs, test, retry))
    && (forall id | id in t.attempts :: OneEach(t.attempts[id].steps))
    && (forall test: string, retry: nat, step: nat | R.AttemptId(test, retry) in t.attempts ::
          Has(t.attempts[R.AttemptId(test, retry)].steps, step) <==> StepIsOpen(cs, test, retry, step))
    && (forall test: string, retry: nat, step: nat | !Open(cs, test, retry) :: !StepIsOpen(cs, test, retry, step))
  }

  lemma OtherAttempt(test: string, retry: nat, u: string, n: nat)
    ensures R.AttemptId(test, retry) == R.AttemptId(u, n) <==> test == u && retry == n
  {
    if R.AttemptId(test, retry) == R.AttemptId(u, n) { AttemptIdInjective(test, retry, u, n); }
  }

  /** What a callback makes of the steps of an open attempt that stays open. */
  lemma StepsMove(t: R.Tables, c: R.Callback, test: string, retry: nat)
    requires R.AttemptId(test, retry) in t.attempts && R.AttemptId(test, retry) in R.Updated(t, c).attempts
    ensures var id := R.AttemptId(test, retry);
            var was, now := t.attempts[id].steps, R.Updated(t, c).attempts[id].steps;
            now == if c.StepBegin? && Of(c, test, retry) then R.WithStep(was, c.step, R.StepId(id, t.attempts[id].count + 1))
                   else if c.StepEnd? && Of(c, test, retry) && Has(was, c.step) then R.WithoutStep(was, c.step)
                   else was
  {
    if c.StepBegin? || c.StepEnd? || c.TestBegin? || c.TestEnd? { OtherAttempt(test, retry, c.test, c.retry); }
    hide R.AttemptId, R.StepId, R.WithStep, R.WithoutStep, R.Without, R.StepOf;
  }

  lemma StepTable(t: R.Tables, c: R.Callback, test: string, retry: nat, step: nat)
    requires R.AttemptId(test, retry) in t.attempts && OneEach(t.attempts[R.AttemptId(test, retry)].steps)
    requires R.AttemptId(test, retry) in R.Updated(t, c).attempts
    ensures var was, now := t.attempts[R.AttemptId(test, retry)].steps, R.Updated(t, c).attempts[R.AttemptId(test, retry)].steps;
            && OneEach(now)
            && (Has(now, step) <==>
                  if c.StepBegin? && Of(c, test, retry) then Has(was, step) || c.step == step
                  else if c.StepEnd? && Of(c, test, retry) then Has(was, step) && c.step != step
                  else Has(was, step))
  {
    hide R.AttemptId, R.StepId, R.WithStep, R.WithoutStep, R.Updated, OneEach, Has, StepSet;
    var id := R.AttemptId(test, retry);
    var was, now := t.attempts[id].steps, R.Updated(t, c).attempts[id].steps;
    StepsMove(t, c, test, retry);
    HasMeans(was, step);
    HasMeans(now, step);
    if c.StepBegin? && Of(c, test, retry) { StepAdded(was, c.step, R.StepId(id, t.attempts[id].count + 1)); }
    if c.StepEnd? && Of(c, test, retry) {
      HasMeans(was, c.step);
      if Has(was, c.step) { StepRemoved(was, c.step); }
    }
  }

  lemma AttemptTable(t: R.Tables, c: R.Callback, test: string, retry: nat)
    ensures R.AttemptId(test, retry) in R.Updated(t, c).attempts <==>
              if c.TestBegin? && Of(c, test, retry) then true
              else if c.TestEnd? && Of(c, test, retry) then false
              else R.AttemptId(test, retry) in t.attempts
    ensures c.TestBegin? && Of(c, test, retry) && R.AttemptId(test, retry) !in t.attempts ==>
              R.Updated(t, c).attempts[R.AttemptId(test, retry)].steps == []
  {
    if c.StepBegin? || c.StepEnd? || c.TestBegin? || c.TestEnd? { OtherAttempt(test, retry, c.test, c.retry); }
    hide R.AttemptId, R.StepId, R.WithStep, R.WithoutStep, R.Without, R.StepOf;
  }

  lemma OpenNext(cs: seq<R.Callback>, c: R.Callback, test: string, retry: nat)
    ensures Open(cs + [c], test, retry) <==>
              if c.TestBegin? && Of(c, test, retry) then true
              else if c.TestEnd? && Of(c, test, retry) then false
              else Open(cs, test, retry)
  {
    assert (cs + [c])[..|cs|] == cs;
  }

  lemma StepOpenNext(cs: seq<R.Callback>, c: R.Callback, test: string, retry: nat, step: nat)
    ensures StepIsOpen(cs + [c], test, retry, step) <==>
              if c.StepBegin? && Of(c, test, retry) then StepIsOpen(cs, test, retry, step) || (c.step == step && Open(cs, test, retry))
              else if c.StepEnd? && Of(c, test, retry) then StepIsOpen(cs, test, retry, step) && c.step != step
              else if c.TestEnd? && Of(c, test, retry) then false
              else StepIsOpen(cs, test, retry, step)
  {
    assert (cs + [c])[..|cs|] == cs;
  }

  lemma FollowsOne(t: R.Tables, cs: seq<R.Callback>, c: R.Callback, test: string, retry: nat, step: nat)
    requires Follows(t, cs)
    ensures R.AttemptId(test, retry) in R.Updated(t, c).attempts <==> Open(cs + [c], test, retry)
    ensures R.AttemptId(test, retry) in R.Updated(t, c).attempts ==>
              && OneEach(R.Updated(t, c).attempts[R.AttemptId(test, retry)].steps)
              && (Has(R.Updated(t, c).attempts[R.AttemptId(test, retry)].steps, step) <==> StepIsOpen(cs + [c], test, retry, step))
    ensures !Open(cs + [c], test, retry) ==> !StepIsOpen(cs + [c], test, retry, step)
  {
    hide R.AttemptId, R.Updated, OneEach, Has, Open, StepIsOpen;
    OpenNext(cs, c, test, retry);
    StepOpenNext(cs, c, test, retry, step);
    AttemptTable(t, c, test, retry);
    var id := R.AttemptId(test, retry);
    if id in t.attempts && id in R.Updated(t, c).attempts {
      StepTable(t, c, test, retry, step);
    } else if id in R.Updated(t, c).attempts {
      NoSteps(step);
    }
  }

  lemma NoSteps(step: nat)
    ensures OneEach([]) && !Has([], step)
  {
  }

  /** Every open attempt is some test's. */
  ghost predicate NamedAttempts(t: R.Tables) {
    forall id | id in t.attempts :: exists test: string, retry: nat :: id == R.AttemptId(test, retry)
  }

  lemma NamedStill(t: R.Tables, c: R.Callback)
    requires NamedAttempts(t)
    ensures NamedAttempts(R.Updated(t, c))
  {
    hide R.AttemptId, R.StepId, R.WithStep, R.WithoutStep, R.Without, R.StepOf;
  }

  lemma FollowsNext(t: R.Tables, cs: seq<R.Callback>, c: R.Callback)
    requires Follows(t, cs) && NamedAttempts(R.Updated(t, c))
    ensures Follows(R.Updated(t, c), cs + [c])
  {
    hide R.AttemptId, R.Updated, OneEach, Has, Open, StepIsOpen;
    var t', cs' := R.Updated(t, c), cs + [c];
    forall test: string, retry: nat ensures R.AttemptId(test, retry) in t'.attempts <==> Open(cs', test, retry) {
      FollowsOne(t, cs, c, test, retry, 0);
    }
    forall test: string, retry: nat, step: nat | R.AttemptId(test, retry) in t'.attempts
      ensures Has(t'.attempts[R.AttemptId(test, retry)].steps, step) <==> StepIsOpen(cs', test, retry, step)
    {
      FollowsOne(t, cs, c, test, retry, step);
    }
    forall test: string, retry: nat, step: nat | !Open(cs', test, retry) ensures !StepIsOpen(cs', test, retry, step) {
      FollowsOne(t, cs, c, test, retry, step);
    }
    forall id | id in t'.attempts ensures OneEach(t'.attempts[id].steps) {
      var test: string, retry: nat :| id == R.AttemptId(test, retry);
      FollowsOne(t, cs, c, test, retry, 0);
    }
  }

  lemma {:induction false} TablesFollow(r: R.Run, env: S.Environment, cs: seq<R.Callback>)
    requires r.tables == R.Tables(map[], [], [])
    ensures Follows(R.After(r, env, cs).tables, cs) && NamedAttempts(R.After(r, env, cs).tables)
  {
    if cs != [] {
      hide R.Called, R.Updated, Follows, NamedAttempts;
      var before, c := cs[..|cs| - 1], cs[|cs| - 1];
      TablesFollow(r, env, before);
      var now := R.After(r, env, before);
      assert cs == before + [c];
      CalledTables(now, env, c);
      NamedStill(now.tables, c);
      FollowsNext(now.tables, before, c);
    }
  }

  // ---------------------------------------------------------------- the starts in the log follow the callbacks

  function StartOf(c: R.Callback): Payload
    requires c.TestBegin?
  {
    AttemptStarted(R.AttemptId(c.test, c.retry), c.retry + 1, c.test, c.identity)
  }

  /** The log starts exactly the attempts the callbacks begin. */
  ghost predicate StartsFollow(log: seq<Event>, cs: seq<R.Callback>) {
    && (forall e | e in log && e.payload.AttemptStarted? :: exists i: nat :: Begins(cs, i) && e.payload == StartOf(cs[i]))
    && (forall i: nat | Begins(cs, i) :: exists e | e in log :: e.payload == StartOf(cs[i]))
  }

  lemma BeginsNext(cs: seq<R.Callback>, c: R.Callback, i: nat)
    ensures i < |cs| ==> (Begins(cs + [c], i) <==> Begins(cs, i)) && (cs + [c])[i] == cs[i]
    ensures Begins(cs + [c], |cs|) <==> c.TestBegin? && !Open(cs, c.test, c.retry)
    ensures i > |cs| ==> !Begins(cs + [c], i)
  {
    assert (cs + [c])[..|cs|] == cs;
    if i < |cs| { assert (cs + [c])[..i] == cs[..i]; }
  }

  lemma OutputStarts(t: R.Tables, c: R.Callback, p: Payload)
    requires p.AttemptStarted?
    ensures p in R.Output(t, c) <==> c.TestBegin? && R.AttemptId(c.test, c.retry) !in t.attempts && p == StartOf(c)
  {
    match c
    case StepEnd(test, retry, step, attachments) =>
      var id := R.AttemptId(test, retry);
      if id in t.attempts { AttachedStarts(attachments, t.attempts[id].emitted, id, R.StepOf(t.attempts[id].steps, step), true, p); }
    case TestEnd(test, retry, _, _, attachments) =>
      var id := R.AttemptId(test, retry);
      if id in t.attempts {
        AttachedStarts(attachments, t.attempts[id].emitted, id, None, false, p);
        ClosedStarts(id, t.attempts[id].steps, p);
      }
    case _ =>
  }

  lemma {:induction false} AttachedStarts(list: seq<R.Attachment>, emitted: set<nat>, id: string, step: Option<string>, remember: bool, p: Payload)
    requires p.AttemptStarted?
    ensures p !in R.Attached(list, emitted, id, step, remember)
    decreases |list|
  {
    if list != [] {
      AttachedStarts(list[1..], emitted, id, step, remember, p);
      AttachedStarts(list[1..], if remember then emitted + {list[0].item} else emitted, id, step, remember, p);
    }
  }

  lemma {:induction false} ClosedStarts(id: string, steps: seq<R.OpenStep>, p: Payload)
    requires p.AttemptStarted?
    ensures p !in R.ClosedSteps(id, steps)
  {
    if steps != [] { ClosedStarts(id, steps[..|steps| - 1], p); }
  }

  lemma WithPayloads(log: seq<Event>, env: S.Environment, ps: seq<Payload>)
    ensures forall e | e in With(log, env, ps) :: e in log || e.payload in ps
    ensures forall e | e in log :: e in With(log, env, ps)
    ensures forall p | p in ps :: exists e | e in With(log, env, ps) :: e.payload == p
  {
    var all := With(log, env, ps);
    forall p | p in ps ensures exists e | e in all :: e.payload == p {
      var i :| 0 <= i < |ps| && ps[i] == p;
      assert all[|log| + i].payload == p && all[|log| + i] in all;
    }
  }

  lemma StartsNext(t: R.Tables, log: seq<Event>, env: S.Environment, cs: seq<R.Callback>, c: R.Callback)
    requires StartsFollow(log, cs) && Follows(t, cs)
    ensures StartsFollow(With(log, env, R.Output(t, c)), cs + [c])
  {
    hide R.AttemptId, R.Output, With, Open, OneEach, Has, StepIsOpen;
    var all := With(log, env, R.Output(t, c));
    WithPayloads(log, env, R.Output(t, c));
    BeginsNext(cs, c, |cs|);
    forall e | e in all && e.payload.AttemptStarted? ensures exists i: nat :: Begins(cs + [c], i) && e.payload == StartOf((cs + [c])[i]) {
      if e in log {
        var i: nat :| Begins(cs, i) && e.payload == StartOf(cs[i]);
        BeginsWithin(cs, i);
        BeginsNext(cs, c, i);
        assert Begins(cs + [c], i) && e.payload == StartOf((cs + [c])[i]);
      } else {
        OutputStarts(t, c, e.payload);
        assert Begins(cs + [c], |cs|) && e.payload == StartOf((cs + [c])[|cs|]);
      }
    }
    forall i: nat | Begins(cs + [c], i) ensures exists e | e in all :: e.payload == StartOf((cs + [c])[i]) {
      BeginsWithin(cs + [c], i);
      BeginsNext(cs, c, i);
      if i < |cs| {
        var e :| e in log && e.payload == StartOf(cs[i]);
      } else {
        OutputStarts(t, c, StartOf(c));
      }
    }
  }

  lemma BeginsWithin(cs: seq<R.Callback>, i: nat)
    requires Begins(cs, i)
    ensures i < |cs| && cs[i].TestBegin?
  {
  }

  lemma NothingBegins(e: Event)
    requires !e.payload.AttemptStarted?
    ensures StartsFollow([e], [])
  {
  }

  lemma {:induction false} LogFollows(env: S.Environment, runner: string, cs: seq<R.Callback>)
    requires Reliable(env)
    ensures StartsFollow(R.After(R.Begun(env, runner), env, cs).session.log, cs)
  {
    hide Reliable, Ready, R.Called, R.Begun, StartsFollow, Follows, NamedAttempts, R.Output, With;
    var r := R.Begun(env, runner);
    if cs == [] {
      SessionOpens(env, runner);
      NothingBegins(Stamp(env, 0, SessionStarted(Some(runner))));
    } else {
      var before, c := cs[..|cs| - 1], cs[|cs| - 1];
      assert cs == before + [c];
      LogFollows(env, runner, before);
      AlwaysReady(env, runner, before);
      var now := R.After(r, env, before);
      CalledLog(now, env, c);
      BegunTables(env, runner);
      TablesFollow(r, env, before);
      StartsNext(now.tables, now.session.log, env, before, c);
    }
  }

  lemma BegunTables(env: S.Environment, runner: string)
    ensures R.Begun(env, runner).tables == R.Tables(map[], [], [])
  {
  }

  // ---------------------------------------------------------------- the two disciplines are one

  lemma BeginPermitted(r: R.Run, cs: seq<R.Callback>, c: R.Callback)
    requires Follows(r.tables, cs) && StartsFollow(r.session.log, cs) && c.TestBegin?
    ensures Allowed(r, c) <==> Permitted(cs, c)
  {
    hide R.AttemptId, Open, OneEach, Has, StepIsOpen;
    var log, id := r.session.log, R.AttemptId(c.test, c.retry);
    if id !in r.tables.attempts {
      if Allowed(r, c) {
        forall i: nat | i < |cs| && Begins(cs, i) && cs[i].test == c.test ensures cs[i].retry != c.retry && cs[i].identity == c.identity {
          BeginsWithin(cs, i);
          var e :| e in log && e.payload == StartOf(cs[i]);
          assert cs[i].retry == c.retry ==> id in Started(log);
        }
      }
      if Permitted(cs, c) {
        forall e | e in log && e.payload.AttemptStarted?
          ensures e.payload.attemptId != id
          ensures e.payload.execution == c.test ==> e.payload.identity == c.identity
        {
          var i: nat :| Begins(cs, i) && e.payload == StartOf(cs[i]);
          BeginsWithin(cs, i);
          OtherAttempt(cs[i].test, cs[i].retry, c.test, c.retry);
        }
      }
    }
  }

  lemma AllowedIsPermitted(r: R.Run, cs: seq<R.Callback>, c: R.Callback)
    requires Follows(r.tables, cs) && StartsFollow(r.session.log, cs)
    ensures Allowed(r, c) <==> Permitted(cs, c)
  {
    if c.TestBegin? {
      BeginPermitted(r, cs, c);
    } else {
      hide R.AttemptId, R.StepOf, Open, OneEach, StepIsOpen, StartsFollow;
      assert c.StepBegin? && R.AttemptId(c.test, c.retry) in r.tables.attempts ==>
          (Has(r.tables.attempts[R.AttemptId(c.test, c.retry)].steps, c.step) <==> StepIsOpen(cs, c.test, c.retry, c.step));
    }
  }

  /** What the reporter owes to its own tables and log is what the callbacks owe to one another. */
  lemma DisciplineOfCallbacks(env: S.Environment, runner: string, cs: seq<R.Callback>)
    requires Reliable(env)
    ensures Disciplined(R.Begun(env, runner), env, cs) <==> WellBehaved(cs)
  {
    hide Reliable, R.Begun, R.After, Allowed, Permitted, Follows, StartsFollow, NamedAttempts;
    var r := R.Begun(env, runner);
    BegunTables(env, runner);
    forall i | 0 <= i < |cs| ensures Allowed(R.After(r, env, cs[..i]), cs[i]) <==> Permitted(cs[..i], cs[i]) {
      TablesFollow(r, env, cs[..i]);
      LogFollows(env, runner, cs[..i]);
      AllowedIsPermitted(R.After(r, env, cs[..i]), cs[..i], cs[i]);
    }
  }

  /**
   * Producer conformance, in terms of the callbacks alone. For every sequence of callbacks, with no
   * write dropped, the directory the reporter leaves is valid and complete if and only if no attempt
   * begins again after its end, the attempts of a test begin under one identity, and no step object
   * begins again while it is open.
   */
  lemma ReporterConforms(
    env: S.Environment, runner: string, cs: seq<R.Callback>, result: Option<SessionStatus>, raw: string, owned: bool, name: string)
    requires Reliable(env)
    ensures var s := R.Ended(R.After(R.Begun(env, runner), env, cs), env, result, raw, owned);
            var v := FeedAll(FRESH, SessionDirectory(s.log, name));
            Valid(v.core) && Complete(v.core) <==> WellBehaved(cs)
  {
    hide R.Ended, R.After, R.Begun, FeedAll, Complete, Valid, SessionDirectory, Reliable, Disciplined, WellBehaved;
    DisciplineOfCallbacks(env, runner, cs);
    ProducerConforms(env, runner, cs, result, raw, owned, name);
  }
}
