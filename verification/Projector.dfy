/**
The projector as it runs: one pass over the ordered events that fills the session and attempt maps,
with an index of each attempt's steps by id, then one pass that groups the attempts by execution.
*/
module Projector {
  import opened Protocol
  import opened Validator
  import opened Sorting
  import opened Projection

  /** For each id, the position of the step last started under it. */
  type StepIndex = map<string, nat>

  ghost predicate Indexes(index: StepIndex, steps: seq<StepFacts>) {
    && (forall id | id in index :: index[id] < |steps| && steps[index[id]].stepId == id)
    && (forall i | 0 <= i < |steps| :: steps[i].stepId in index && i <= index[steps[i].stepId])
  }

  /** Setting the end of the indexed step ends the step last started under the id. */
  lemma {:induction false} EndsLast(steps: seq<StepFacts>, id: string, k: nat, e: Event)
    requires k < |steps| && steps[k].stepId == id
    requires forall i | k < i < |steps| :: steps[i].stepId != id
    ensures FinishStep(steps, id, e) == steps[k := steps[k].(finished := Some(e))]
  {
    var before, last := steps[..|steps| - 1], steps[|steps| - 1];
    if k < |steps| - 1 {
      EndsLast(before, id, k, e);
      assert steps[k := steps[k].(finished := Some(e))] == before[k := before[k].(finished := Some(e))] + [last];
    }
  }

  lemma {:induction false} EndsNone(steps: seq<StepFacts>, id: string, e: Event)
    requires forall i | 0 <= i < |steps| :: steps[i].stepId != id
    ensures FinishStep(steps, id, e) == steps
  {
    if steps != [] { EndsNone(steps[..|steps| - 1], id, e); }
  }

  lemma EndsIndexed(steps: seq<StepFacts>, index: StepIndex, id: string, e: Event)
    requires Indexes(index, steps)
    ensures FinishStep(steps, id, e) ==
              if id in index then steps[index[id] := steps[index[id]].(finished := Some(e))] else steps
    ensures Indexes(index, FinishStep(steps, id, e))
  {
    if id in index { EndsLast(steps, id, index[id], e); } else { EndsNone(steps, id, e); }
  }

  ghost predicate AllIndexed(indexes: map<string, StepIndex>, attempts: map<string, Attempt>) {
    indexes.Keys == attempts.Keys && forall a | a in attempts :: Indexes(indexes[a], attempts[a].steps)
  }

  lemma NoSteps()
    ensures Indexes(map[], [])
  {
  }

  lemma IndexStarts(steps: seq<StepFacts>, index: StepIndex, step: StepFacts)
    requires Indexes(index, steps)
    ensures Indexes(index[step.stepId := |steps|], steps + [step])
  {
  }

  lemma IndexedAt(indexes: map<string, StepIndex>, attempts: map<string, Attempt>, a: string)
    requires AllIndexed(indexes, attempts) && a in attempts
    ensures a in indexes && Indexes(indexes[a], attempts[a].steps)
  {
  }

  lemma IndexedStill(indexes: map<string, StepIndex>, attempts: map<string, Attempt>, a: string, attempt: Attempt, index: StepIndex)
    requires AllIndexed(indexes, attempts) && Indexes(index, attempt.steps)
    ensures AllIndexed(indexes[a := index], attempts[a := attempt])
    ensures a in attempts && index == indexes[a] ==> indexes[a := index] == indexes
  {
    hide Indexes;
  }

  /** One event into the attempts, by the step index instead of a search. */
  method TakeAttempt(attempts: map<string, Attempt>, indexes: map<string, StepIndex>, e: Event)
    returns (attempts': map<string, Attempt>, indexes': map<string, StepIndex>)
    requires AllIndexed(indexes, attempts)
    ensures attempts' == GatherAttempt(attempts, e) && AllIndexed(indexes', attempts')
  {
    hide Indexes, AllIndexed, FinishStep;
    attempts', indexes' := attempts, indexes;
    match e.payload
    case AttemptStarted(a, n, x, identity) =>
      var begun := Attempt(e, a, n, x, identity, None, None, None, [], []);
      NoSteps();
      IndexedStill(indexes, attempts, a, begun, map[]);
      attempts', indexes' := attempts[a := begun], indexes[a := map[]];
    case AttemptFinished(a, status, expected) =>
      if a in attempts {
        var ended := attempts[a].(finished := Some(e), status := Some(status), expected := expected);
        IndexedAt(indexes, attempts, a);
        IndexedStill(indexes, attempts, a, ended, indexes[a]);
        attempts' := attempts[a := ended];
      }
    case StepStarted(a, s, _) =>
      if a in attempts {
        attempts', indexes' := BeginStep(attempts, indexes, a, s, e);
      }
    case StepFinished(a, s) =>
      if a in attempts {
        attempts' := EndStep(attempts, indexes, a, s, e);
      }
    case AttachmentAdded(a, _, _, _) =>
      if a in attempts {
        var attached := attempts[a].(attachments := attempts[a].attachments + [e]);
        IndexedAt(indexes, attempts, a);
        IndexedStill(indexes, attempts, a, attached, indexes[a]);
        attempts' := attempts[a := attached];
      }
    case _ =>
  }

  method BeginStep(attempts: map<string, Attempt>, indexes: map<string, StepIndex>, a: string, s: string, e: Event)
    returns (attempts': map<string, Attempt>, indexes': map<string, StepIndex>)
    requires AllIndexed(indexes, attempts) && a in attempts
    ensures AllIndexed(indexes', attempts')
    ensures attempts' == attempts[a := attempts[a].(steps := attempts[a].steps + [StepFacts(e, s, None)])]
  {
    hide Indexes, AllIndexed;
    IndexedAt(indexes, attempts, a);
    var steps := attempts[a].steps;
    IndexStarts(steps, indexes[a], StepFacts(e, s, None));
    attempts' := attempts[a := attempts[a].(steps := steps + [StepFacts(e, s, None)])];
    var index: StepIndex := indexes[a][s := |steps|];
    IndexedStill(indexes, attempts, a, attempts'[a], index);
    indexes' := indexes[a := index];
  }

  method EndStep(attempts: map<string, Attempt>, indexes: map<string, StepIndex>, a: string, s: string, e: Event)
    returns (attempts': map<string, Attempt>)
    requires AllIndexed(indexes, attempts) && a in attempts
    ensures AllIndexed(indexes, attempts')
    ensures attempts' == attempts[a := attempts[a].(steps := FinishStep(attempts[a].steps, s, e))]
  {
    hide AllIndexed, FinishStep;
    IndexedAt(indexes, attempts, a);
    var steps := attempts[a].steps;
    EndsIndexed(steps, indexes[a], s, e);
    IndexedStill(indexes, attempts, a, attempts[a].(steps := FinishStep(steps, s, e)), indexes[a]);
    attempts' := attempts;
    if s in indexes[a] {
      var k := indexes[a][s];
      attempts' := attempts[a := attempts[a].(steps := steps[k := steps[k].(finished := Some(e))])];
    } else {
      assert attempts[a := attempts[a].(steps := FinishStep(steps, s, e))] == attempts;
    }
  }

  /** One event into the sessions. */
  method TakeSession(sessions: map<string, SessionFacts>, e: Event) returns (sessions': map<string, SessionFacts>)
    ensures sessions' == GatherSession(sessions, e)
  {
    sessions' := sessions;
    match e.payload
    case SessionStarted(runner) =>
      sessions' := sessions[e.sessionId := SessionFacts(e, runner, None, None, [])];
    case SessionFinished(outcome, _, _) =>
      if e.sessionId in sessions {
        sessions' := sessions[e.sessionId := sessions[e.sessionId].(finished := Some(e), status := outcome)];
      }
    case AttemptStarted(_, _, x, _) =>
      if e.sessionId in sessions && x !in sessions[e.sessionId].executions {
        sessions' := sessions[e.sessionId := sessions[e.sessionId].(executions := sessions[e.sessionId].executions + [x])];
      }
    case _ =>
  }

  /** The pass over the events. */
  method GatherFacts(es: seq<Event>) returns (g: Gathered)
    ensures g == Gather(es)
  {
    hide GatherAttempt, GatherSession;
    g := NOTHING;
    var indexes: map<string, StepIndex> := map[];
    for k := 0 to |es|
      invariant g == Gather(es[..k]) && AllIndexed(indexes, g.attempts)
    {
      var e := es[k];
      assert es[..k + 1][..k] == es[..k];
      var sessions := TakeSession(g.sessions, e);
      var attempts;
      attempts, indexes := TakeAttempt(g.attempts, indexes, e);
      var order, failures, attachments := g.order, g.scopeFailures, g.attachments;
      if e.payload.AttemptStarted? && e.payload.attemptId !in order { order := order + [e.payload.attemptId]; }
      if e.payload.ScopeFailed? { failures := failures + [e]; }
      if e.payload.AttachmentAdded? { attachments := attachments + [e]; }
      g := Gathered(sessions, attempts, order, failures, attachments);
    }
    assert es[..|es|] == es;
  }

  // ---------------------------------------------------------------- grouping

  ghost predicate Groups(groups: map<string, seq<Attempt>>, attempts: map<string, Attempt>, order: seq<string>) {
    && (forall x :: x in groups <==> x in ExecutionIds(attempts, order))
    && (forall x | x in groups :: groups[x] == AttemptsIn(attempts, order, x))
  }

  lemma {:induction false} NotGrouped(attempts: map<string, Attempt>, order: seq<string>, x: string)
    ensures AttemptsIn(attempts, order, x) == [] <==> x !in ExecutionIds(attempts, order)
  {
    if order != [] { NotGrouped(attempts, order[..|order| - 1], x); }
  }

  lemma NoGroups(attempts: map<string, Attempt>)
    ensures Groups(map[], attempts, [])
  {
  }

  lemma GroupGrows(groups: map<string, seq<Attempt>>, attempts: map<string, Attempt>, order: seq<string>, id: string)
    requires Groups(groups, attempts, order) && id in attempts
    ensures var x := attempts[id].execution;
            Groups(groups[x := (if x in groups then groups[x] else []) + [attempts[id]]], attempts, order + [id])
  {
    assert (order + [id])[..|order|] == order;
    NotGrouped(attempts, order, attempts[id].execution);
  }

  /** The attempts of each execution, in the order they were met, and the executions in order. */
  method GroupAttempts(attempts: map<string, Attempt>, order: seq<string>) returns (groups: map<string, seq<Attempt>>, ids: seq<string>)
    requires forall id | id in order :: id in attempts
    ensures Groups(groups, attempts, order)
    ensures Strict(ids, LexLe) && forall x :: x in ids <==> x in groups
    ensures ids == SortedSet(ExecutionIds(attempts, order))
  {
    hide ExecutionIds, AttemptsIn;
    groups := map[];
    var met: seq<string> := [];
    NoGroups(attempts);
    for k := 0 to |order|
      invariant Groups(groups, attempts, order[..k])
      invariant forall x :: x in met <==> x in groups
    {
      var x := attempts[order[k]].execution;
      GroupGrows(groups, attempts, order[..k], order[k]);
      assert order[..k + 1] == order[..k] + [order[k]];
      if x !in groups { met := met + [x]; }
      groups := groups[x := (if x in groups then groups[x] else []) + [attempts[order[k]]]];
    }
    assert order[..|order|] == order;
    ids := SortedSet(met);
    SortedSetShape(met);
    SortedSetUnique(met, ExecutionIds(attempts, order));
  }

  /** One execution from its attempts in number order: the first check that fails decides. */
  method CheckGroup(sessions: map<string, SessionFacts>, x: string, list: seq<Attempt>) returns (r: Result<TestExecution>)
    requires list != []
    ensures r == Execution(sessions, x, list)
  {
    hide IsFlaky;
    for i := 1 to |list|
      invariant forall j | 0 < j < i :: list[j - 1].number != list[j].number
    {
      if list[i - 1].number == list[i].number { return Ambiguous(DuplicateNumber(x)); }
    }
    for i := 0 to |list|
      invariant forall j | 0 <= j < i :: list[j].identity == list[0].identity
    {
      if list[i].identity != list[0].identity { return Ambiguous(IdentityChanged(x)); }
    }
    var runners: set<Option<string>> := {};
    for i := 0 to |list|
      invariant runners == set j | 0 <= j < i :: RunnerIn(sessions, list[j].started.sessionId)
    {
      runners := runners + {RunnerIn(sessions, list[i].started.sessionId)};
    }
    var first := RunnerIn(sessions, list[0].started.sessionId);
    assert first in runners;
    if runners != {first} {
      return Ambiguous(RunnerChanged(x));
    }
    assert forall j | 0 <= j < |list| :: RunnerIn(sessions, list[j].started.sessionId) in runners;
    r := Ok(TestExecution(x, first, list[0].identity, list, forall a | a in list :: a.finished.Some?, list[|list| - 1].status, IsFlaky(list)));
  }

  lemma GroupAt(groups: map<string, seq<Attempt>>, attempts: map<string, Attempt>, order: seq<string>, x: string)
    requires Groups(groups, attempts, order) && x in groups
    ensures groups[x] == AttemptsIn(attempts, order, x) && groups[x] != []
  {
    hide AttemptsIn, ExecutionIds;
    NotGrouped(attempts, order, x);
  }

  /** What one more execution adds, or the contradiction it brings. */
  lemma ExecutionsNext(g: Gathered, ids: seq<string>, k: nat, executions: seq<TestExecution>, list: seq<Attempt>)
    requires k < |ids| && Executions(g, ids[..k]) == Ok(executions)
    requires list == Sort(AttemptsIn(g.attempts, g.order, ids[k]), NumberLe) && list != []
    ensures var next := Execution(g.sessions, ids[k], list);
            Executions(g, ids[..k + 1]) == if next.Ambiguous? then Ambiguous(next.detail) else Ok(executions + [next.value])
  {
    hide Execution, Sort, AttemptsIn;
    assert ids[..k + 1][..k] == ids[..k];
  }

  /** The executions of a run in order of their ids, or the first contradiction among them. */
  method GroupExecutions(g: Gathered) returns (r: Result<seq<TestExecution>>)
    requires forall id | id in g.order :: id in g.attempts
    ensures r == Executions(g, SortedSet(ExecutionIds(g.attempts, g.order)))
  {
    var groups, ids := GroupAttempts(g.attempts, g.order);
    r := Ok([]);
    assert Executions(g, ids[..0]) == r;
    hide ExecutionIds, AttemptsIn, Execution, Sort, SortedSet, Executions, Strict, NumberLe, LexLe, Groups;
    for k := 0 to |ids|
      invariant r.Ok? && Executions(g, ids[..k]) == r
    {
      var x := ids[k];
      assert x in ids;
      GroupAt(groups, g.attempts, g.order, x);
      SortKeeps(groups[x], NumberLe);
      var list := Sort(groups[x], NumberLe);
      ExecutionsNext(g, ids, k, r.value, list);
      var next := CheckGroup(g.sessions, x, list);
      if next.Ambiguous? {
        StaysAmbiguous(g, ids, k + 1);
        return Ambiguous(next.detail);
      }
      r := Ok(r.value + [next.value]);
    }
    assert ids[..|ids|] == ids;
  }

  lemma {:induction false} StaysAmbiguous(g: Gathered, ids: seq<string>, k: nat)
    requires k <= |ids| && Executions(g, ids[..k]).Ambiguous?
    ensures Executions(g, ids) == Executions(g, ids[..k])
    decreases |ids|
  {
    if k == |ids| {
      assert ids[..k] == ids;
    } else {
      assert ids[..|ids| - 1][..k] == ids[..k];
      StaysAmbiguous(g, ids[..|ids| - 1], k);
    }
  }

  lemma {:induction false} OrderKnown(es: seq<Event>)
    ensures forall id | id in Gather(es).order :: id in Gather(es).attempts
  {
    if es != [] { OrderKnown(es[..|es| - 1]); }
  }

  /** The whole projection; nothing for a run without a known event, which is an error upstream. */
  method Project(projectId: string, locator: string, events: seq<Event>, summary: Summary) returns (r: Result<Option<ProjectedRun>>)
    ensures r == ProjectRun(projectId, locator, events, summary)
  {
    hide Gather, Executions, Ordered, Known, SortedSet, ExecutionIds, SessionViews;
    var es := Ordered(Known(events));
    if es == [] { return Ok(None); }
    var g := GatherFacts(es);
    OrderKnown(es);
    var executions := GroupExecutions(g);
    if executions.Ambiguous? { return Ambiguous(executions.detail); }
    r := Ok(Some(ProjectedRun(projectId, es[0].runId, locator, summary.complete, summary.closed, summary.verdict,
                              summary.counts.ignored, summary.duplicates, SessionViews(g.sessions), executions.value,
                              g.scopeFailures, g.attachments)));
  }
}
