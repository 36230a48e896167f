/**
The steps, attachments and sessions of a projection, and when they are the ones of the log.

The projector drops whatever it reads of an attempt before the attempt's start, and a step's end
before the step's start.
*/
module ProjectionDetail {
  import opened Protocol
  import opened Validator
  import opened Lifecycle
  import opened Soundness
  import opened SessionLocality
  import opened Sorting
  import opened P = Projection
  import opened ProjectionMeaning

  predicate StartsStep(e: Event, a: string) {
    e.payload.StepStarted? && e.payload.attemptId == a
  }

  predicate EndsStep(e: Event, a: string, s: string) {
    e.payload.StepFinished? && e.payload.attemptId == a && e.payload.stepId == s
  }

  predicate AttachedTo(e: Event, a: string) {
    e.payload.AttachmentAdded? && e.payload.attemptId == a
  }

  /** A step of an attempt starts once and ends once. */
  ghost predicate StepsOnce(es: seq<Event>) {
    forall x, y | x in es && y in es && x != y ::
      && (x.payload.StepStarted? && y.payload.StepStarted? && x.payload.attemptId == y.payload.attemptId ==> x.payload.stepId != y.payload.stepId)
      && (x.payload.StepFinished? && y.payload.StepFinished? && x.payload.attemptId == y.payload.attemptId ==> x.payload.stepId != y.payload.stepId)
  }

  // ---------------------------------------------------------------- what one attempt has read

  ghost predicate StepsRead(a: Attempt, es: seq<Event>) {
    && (forall i | 0 <= i < |a.steps| ::
          a.steps[i].started in es && StartsStep(a.steps[i].started, a.attemptId) && PositionLe(a.started, a.steps[i].started)
          && a.steps[i].stepId == a.steps[i].started.payload.stepId)
    && (forall e | e in es && StartsStep(e, a.attemptId) && PositionLe(a.started, e) ::
          exists i :: 0 <= i < |a.steps| && a.steps[i].started == e)
    && (forall i, j | 0 <= i < j < |a.steps| ::
          a.steps[i].started != a.steps[j].started && PositionLe(a.steps[i].started, a.steps[j].started))
  }

  ghost predicate StepEndsRead(a: Attempt, es: seq<Event>) {
    forall i, f | 0 <= i < |a.steps| ::
      a.steps[i].finished == Some(f) <==> f in es && EndsStep(f, a.attemptId, a.steps[i].stepId) && PositionLe(a.steps[i].started, f)
  }

  ghost predicate AttachmentsRead(a: Attempt, es: seq<Event>) {
    && (forall e :: e in a.attachments <==> e in es && AttachedTo(e, a.attemptId) && PositionLe(a.started, e))
    && Strict(a.attachments, PositionLe)
  }

  ghost predicate Details(a: Attempt, es: seq<Event>) {
    StepsRead(a, es) && StepEndsRead(a, es) && AttachmentsRead(a, es)
  }

  /** The last event stands after all before it. */
  ghost predicate Last(es: seq<Event>, e: Event) {
    forall x | x in es :: PositionLe(x, e) && !PositionLe(e, x)
  }

  lemma DistinctStepIds(a: Attempt, es: seq<Event>)
    requires StepsOnce(es) && StepsRead(a, es)
    ensures forall i, j | 0 <= i < j < |a.steps| :: a.steps[i].stepId != a.steps[j].stepId
  {
    hide PositionLe;
  }

  /** With step ids of their own, an end goes to the one step it names. */
  lemma {:induction false} EndGoesTo(steps: seq<StepFacts>, id: string, e: Event)
    requires forall i, j | 0 <= i < j < |steps| :: steps[i].stepId != steps[j].stepId
    ensures |FinishStep(steps, id, e)| == |steps|
    ensures forall i | 0 <= i < |steps| ::
              FinishStep(steps, id, e)[i] == if steps[i].stepId == id then steps[i].(finished := Some(e)) else steps[i]
  {
    if steps != [] && steps[|steps| - 1].stepId != id { EndGoesTo(steps[..|steps| - 1], id, e); }
  }

  lemma StepBeginsRead(a: Attempt, es: seq<Event>, e: Event)
    requires Details(a, es) && Last(es, e) && StartsStep(e, a.attemptId) && a.started in es
    ensures Details(a.(steps := a.steps + [StepFacts(e, e.payload.stepId, None)]), es + [e])
  {
    var b, all := a.(steps := a.steps + [StepFacts(e, e.payload.stepId, None)]), es + [e];
    hide PositionLe, Strict;
    forall x | x in all && StartsStep(x, a.attemptId) && PositionLe(a.started, x) ensures exists i :: 0 <= i < |b.steps| && b.steps[i].started == x {
      if x in es {
        var i :| 0 <= i < |a.steps| && a.steps[i].started == x;
        assert b.steps[i].started == x;
      } else {
        assert b.steps[|a.steps|].started == x;
      }
    }
    forall i, f | 0 <= i < |b.steps|
      ensures b.steps[i].finished == Some(f) <==> f in all && EndsStep(f, b.attemptId, b.steps[i].stepId) && PositionLe(b.steps[i].started, f)
    {
      if i < |a.steps| { assert b.steps[i] == a.steps[i]; }
    }
  }

  lemma SameStepsRead(a: Attempt, b: Attempt, es: seq<Event>, e: Event)
    requires StepsRead(a, es) && !StartsStep(e, a.attemptId)
    requires b.started == a.started && b.attemptId == a.attemptId && |b.steps| == |a.steps|
    requires forall i | 0 <= i < |a.steps| :: b.steps[i].started == a.steps[i].started && b.steps[i].stepId == a.steps[i].stepId
    ensures StepsRead(b, es + [e])
  {
    hide PositionLe;
    forall x | x in es + [e] && StartsStep(x, a.attemptId) && PositionLe(a.started, x) ensures exists i :: 0 <= i < |b.steps| && b.steps[i].started == x {
      var i :| 0 <= i < |a.steps| && a.steps[i].started == x;
      assert b.steps[i].started == x;
    }
  }

  lemma NextEndRead(a: Attempt, b: Attempt, es: seq<Event>, e: Event)
    requires StepEndsRead(a, es) && e.payload.StepFinished? && e.payload.attemptId == a.attemptId && b.attemptId == a.attemptId
    requires forall i | 0 <= i < |a.steps| :: PositionLe(a.steps[i].started, e)
    requires forall f | f in es :: !EndsStep(f, a.attemptId, e.payload.stepId)
    requires |b.steps| == |a.steps|
    requires forall i | 0 <= i < |a.steps| ::
               b.steps[i] == if a.steps[i].stepId == e.payload.stepId then a.steps[i].(finished := Some(e)) else a.steps[i]
    ensures StepEndsRead(b, es + [e])
  {
    hide PositionLe;
  }

  lemma EndIsNew(es: seq<Event>, e: Event)
    requires StepsOnce(es + [e]) && e.payload.StepFinished? && e !in es
    ensures StepsOnce(es) && forall f | f in es :: !EndsStep(f, e.payload.attemptId, e.payload.stepId)
  {
    forall x, y | x in es && y in es && x != y ensures x in es + [e] && y in es + [e] {}
    assert e in es + [e];
    forall f | f in es ensures !EndsStep(f, e.payload.attemptId, e.payload.stepId) { assert f in es + [e]; }
  }

  lemma LastIsNew(es: seq<Event>, e: Event)
    requires Last(es, e)
    ensures e !in es
  {
    hide PositionLe;
  }

  lemma StepFinishesRead(a: Attempt, es: seq<Event>, e: Event)
    requires Details(a, es) && Last(es, e) && StepsOnce(es + [e]) && e.payload.StepFinished? && e.payload.attemptId == a.attemptId
    ensures Details(a.(steps := FinishStep(a.steps, e.payload.stepId, e)), es + [e])
  {
    hide PositionLe, Strict, FinishStep, StepsOnce, StepEndsRead;
    var b := a.(steps := FinishStep(a.steps, e.payload.stepId, e));
    LastIsNew(es, e);
    EndIsNew(es, e);
    DistinctStepIds(a, es);
    EndGoesTo(a.steps, e.payload.stepId, e);
    SameStepsRead(a, b, es, e);
    NextEndRead(a, b, es, e);
  }

  lemma AttachmentRead(a: Attempt, es: seq<Event>, e: Event)
    requires Details(a, es) && Last(es, e) && AttachedTo(e, a.attemptId) && a.started in es
    ensures Details(a.(attachments := a.attachments + [e]), es + [e])
  {
    var b, all := a.(attachments := a.attachments + [e]), es + [e];
    hide PositionLe;
    Otherwise(a, es, e);
    assert forall i | 0 <= i < |a.attachments| :: a.attachments[i] in a.attachments;
  }

  /** Any other event changes nothing of the steps. */
  lemma Otherwise(a: Attempt, es: seq<Event>, e: Event)
    requires Details(a, es)
    requires !StartsStep(e, a.attemptId) && !(e.payload.StepFinished? && e.payload.attemptId == a.attemptId)
    ensures StepsRead(a, es + [e]) && StepEndsRead(a, es + [e])
    ensures !AttachedTo(e, a.attemptId) ==> AttachmentsRead(a, es + [e])
  {
    hide PositionLe, Strict;
    assert forall x :: x in es + [e] <==> x in es || x == e;
    forall i, f | 0 <= i < |a.steps|
      ensures a.steps[i].finished == Some(f) <==> f in es + [e] && EndsStep(f, a.attemptId, a.steps[i].stepId) && PositionLe(a.steps[i].started, f)
    {
    }
  }

  /** An attempt that starts has read nothing else. */
  lemma FreshDetails(a: Attempt, es: seq<Event>)
    requires Last(es, a.started) && a.steps == [] && a.attachments == [] && a.started.payload.AttemptStarted?
    ensures Details(a, es + [a.started])
  {
    hide PositionLe;
  }

  lemma DetailStep(a: Attempt, es: seq<Event>, e: Event)
    requires Details(a, es) && Last(es, e) && StepsOnce(es + [e]) && a.started in es
    requires !(e.payload.AttemptStarted? && e.payload.attemptId == a.attemptId)
    ensures Details(GatherAttempt(map[a.attemptId := a], e)[a.attemptId], es + [e])
    ensures var b := GatherAttempt(map[a.attemptId := a], e)[a.attemptId]; b.started == a.started && b.attemptId == a.attemptId
  {
    hide PositionLe, StepsRead, StepEndsRead, AttachmentsRead, FinishStep, StepsOnce, Last;
    if StartsStep(e, a.attemptId) {
      StepBeginsRead(a, es, e);
    } else if e.payload.StepFinished? && e.payload.attemptId == a.attemptId {
      StepFinishesRead(a, es, e);
    } else if AttachedTo(e, a.attemptId) {
      AttachmentRead(a, es, e);
    } else {
      Otherwise(a, es, e);
      OutsideSteps(a, GatherAttempt(map[a.attemptId := a], e)[a.attemptId], es + [e]);
    }
  }

  lemma OutsideSteps(a: Attempt, b: Attempt, es: seq<Event>)
    requires Details(a, es) && b.steps == a.steps && b.attachments == a.attachments && b.started == a.started && b.attemptId == a.attemptId
    ensures Details(b, es)
  {
  }

  /** One attempt gathers as if it were alone. */
  lemma GatherOne(attempts: map<string, Attempt>, e: Event, id: string)
    requires id in attempts && attempts[id].attemptId == id && !(e.payload.AttemptStarted? && e.payload.attemptId == id)
    ensures id in GatherAttempt(attempts, e) && GatherAttempt(attempts, e)[id] == GatherAttempt(map[id := attempts[id]], e)[id]
  {
    hide FinishStep;
  }

  ghost predicate AllDetails(attempts: map<string, Attempt>, es: seq<Event>) {
    forall id | id in attempts :: attempts[id].attemptId == id && attempts[id].started in es && Details(attempts[id], es)
  }

  lemma AllDetailsStep(attempts: map<string, Attempt>, es: seq<Event>, e: Event)
    requires AllDetails(attempts, es) && Last(es, e) && StepsOnce(es + [e])
    requires e.payload.AttemptStarted? ==> e.payload.attemptId !in attempts
    ensures AllDetails(GatherAttempt(attempts, e), es + [e])
  {
    hide PositionLe, Details, StepsOnce, FinishStep, Last;
    var next := GatherAttempt(attempts, e);
    forall id | id in next ensures next[id].attemptId == id && next[id].started in es + [e] && Details(next[id], es + [e]) {
      if id in attempts {
        GatherOne(attempts, e, id);
        DetailStep(attempts[id], es, e);
      } else {
        StartsNew(attempts, e, id);
        FreshDetails(next[id], es);
      }
    }
  }

  lemma StartsNew(attempts: map<string, Attempt>, e: Event, id: string)
    requires id in GatherAttempt(attempts, e) && id !in attempts
    ensures e.payload.AttemptStarted? && e.payload.attemptId == id
    ensures GatherAttempt(attempts, e)[id] == Attempt(e, id, e.payload.number, e.payload.execution, e.payload.identity, None, None, None, [], [])
  {
    hide FinishStep;
  }

  lemma LastOf(es: seq<Event>)
    requires Strict(es, PositionLe) && es != []
    ensures Strict(es[..|es| - 1], PositionLe) && Last(es[..|es| - 1], es[|es| - 1])
  {
    hide PositionLe;
  }

  lemma OncePrefix(es: seq<Event>)
    requires StepsOnce(es) && es != []
    ensures StepsOnce(es[..|es| - 1])
  {
    assert forall x | x in es[..|es| - 1] :: x in es;
  }

  lemma StartNotYet(es: seq<Event>)
    requires StartOnce(es) && es != [] && es[|es| - 1].payload.AttemptStarted?
    ensures es[|es| - 1].payload.attemptId !in Started(es[..|es| - 1])
  {
  }

  lemma {:induction false} GatheredDetails(es: seq<Event>)
    requires Strict(es, PositionLe) && StartOnce(es) && StepsOnce(es)
    ensures AllDetails(Gather(es).attempts, es)
  {
    if es != [] {
      hide PositionLe, Strict, StartOnce, StepsOnce, AllDetails, GatherAttempt, GatherSession, Last;
      var before, e := es[..|es| - 1], es[|es| - 1];
      assert es == before + [e];
      LastOf(es);
      StartOncePrefix(es);
      OncePrefix(es);
      GatheredDetails(before);
      if e.payload.AttemptStarted? { StartNotYet(es); }
      GatheredKeys(before);
      AllDetailsStep(Gather(before).attempts, before, e);
    }
  }

  // ---------------------------------------------------------------- reading a lawful log

  lemma StepsApart(log: seq<Event>, i: nat, j: nat)
    requires Lawful(log) && i < j < |log|
    ensures log[i].payload.StepStarted? && log[j].payload.StepStarted? && log[i].payload.attemptId == log[j].payload.attemptId ==>
              log[i].payload.stepId != log[j].payload.stepId
    ensures log[i].payload.StepFinished? && log[j].payload.StepFinished? && log[i].payload.attemptId == log[j].payload.attemptId ==>
              log[i].payload.stepId != log[j].payload.stepId
  {
    LawfulAt(log, j);
    assert log[i] in log[..j];
  }

  lemma LogStepsOnce(log: seq<Event>)
    requires Lawful(log)
    ensures StepsOnce(log)
  {
    hide Lawful;
    forall x, y | x in log && y in log && x != y
      ensures x.payload.StepStarted? && y.payload.StepStarted? && x.payload.attemptId == y.payload.attemptId ==> x.payload.stepId != y.payload.stepId
      ensures x.payload.StepFinished? && y.payload.StepFinished? && x.payload.attemptId == y.payload.attemptId ==> x.payload.stepId != y.payload.stepId
    {
      var i :| 0 <= i < |log| && log[i] == x;
      var j :| 0 <= j < |log| && log[j] == y;
      if i < j { StepsApart(log, i, j); } else { StepsApart(log, j, i); }
    }
  }

  lemma SameDetails(a: Attempt, es: seq<Event>, log: seq<Event>)
    requires Details(a, es) && forall e :: e in es <==> e in log && !e.payload.Unknown?
    ensures Details(a, log)
  {
    hide PositionLe, Strict;
    forall i, f | 0 <= i < |a.steps|
      ensures a.steps[i].finished == Some(f) <==> f in log && EndsStep(f, a.attemptId, a.steps[i].stepId) && PositionLe(a.steps[i].started, f)
    {
    }
  }

  /** What the projection gathers of an attempt, in terms of the log. */
  lemma ReadDetails(es: seq<Event>, log: seq<Event>, a: Attempt)
    requires Lawful(log) && ReadingOf(es, log)
    requires a.attemptId in Gather(es).attempts && Gather(es).attempts[a.attemptId] == a
    ensures Details(a, log)
  {
    hide PositionLe, Strict, Lawful, Gather, StepsOnce, StartOnce, StepsRead, StepEndsRead, AttachmentsRead;
    ReadingStartsOnce(es, log);
    LogStepsOnce(log);
    ReadingSteps(es, log);
    GatheredDetails(es);
    SameDetails(a, es, log);
  }

  lemma ReadingSteps(es: seq<Event>, log: seq<Event>)
    requires StepsOnce(log) && ReadingOf(es, log)
    ensures StepsOnce(es)
  {
  }

  // ---------------------------------------------------------------- when nothing is dropped

  /** Whatever is said of an attempt stands after its start, and the end of a step after the step's start. */
  ghost predicate AllReadInOrder(log: seq<Event>) {
    && (forall x, y | x in log && y in log && x.payload.AttemptStarted? && AboutAttempt(y.payload) && y.payload.attemptId == x.payload.attemptId ::
          PositionLe(x, y))
    && (forall x, y | x in log && y in log && x.payload.StepStarted? && EndsStep(y, x.payload.attemptId, x.payload.stepId) :: PositionLe(x, y))
  }

  /** The steps, their ends and the attachments of the attempt are those of the log, all of them. */
  ghost predicate Whole(a: Attempt, log: seq<Event>) {
    && (forall i | 0 <= i < |a.steps| ::
          a.steps[i].started in log && StartsStep(a.steps[i].started, a.attemptId) && a.steps[i].stepId == a.steps[i].started.payload.stepId)
    && (forall e | e in log && StartsStep(e, a.attemptId) :: exists i :: 0 <= i < |a.steps| && a.steps[i].started == e)
    && (forall i, j | 0 <= i < j < |a.steps| :: a.steps[i].started != a.steps[j].started)
    && (forall i, f | 0 <= i < |a.steps| :: a.steps[i].finished == Some(f) <==> f in log && EndsStep(f, a.attemptId, a.steps[i].stepId))
    && (forall e :: e in a.attachments <==> e in log && AttachedTo(e, a.attemptId))
  }

  lemma ReadInOrderIsWhole(a: Attempt, log: seq<Event>)
    requires Details(a, log) && AllReadInOrder(log) && a.started in log && a.started.payload.AttemptStarted? && a.started.payload.attemptId == a.attemptId
    ensures Whole(a, log)
  {
    hide PositionLe, Strict;
    forall i, f | 0 <= i < |a.steps|
      ensures a.steps[i].finished == Some(f) <==> f in log && EndsStep(f, a.attemptId, a.steps[i].stepId)
    {
      assert a.steps[i].finished == Some(f) <==> f in log && EndsStep(f, a.attemptId, a.steps[i].stepId) && PositionLe(a.steps[i].started, f);
    }
  }

  lemma WholeStarts(a: Attempt, log: seq<Event>, y: Event)
    requires Details(a, log) && Whole(a, log) && y in log && (StartsStep(y, a.attemptId) || AttachedTo(y, a.attemptId))
    ensures PositionLe(a.started, y)
  {
    hide PositionLe, Strict;
    if StartsStep(y, a.attemptId) { var i :| 0 <= i < |a.steps| && a.steps[i].started == y; }
  }

  lemma WholeEnds(a: Attempt, log: seq<Event>, x: Event, y: Event)
    requires Details(a, log) && Whole(a, log) && x in log && y in log && StartsStep(x, a.attemptId) && EndsStep(y, a.attemptId, x.payload.stepId)
    ensures PositionLe(a.started, x) && PositionLe(x, y)
  {
    hide PositionLe, Strict;
    var i :| 0 <= i < |a.steps| && a.steps[i].started == x;
    assert a.steps[i].finished == Some(y);
  }

  /** A step that ends has started. */
  lemma EndedStarted(log: seq<Event>, y: Event)
    requires Lawful(log) && y in log && y.payload.StepFinished?
    ensures exists x | x in log :: StartsStep(x, y.payload.attemptId) && x.payload.stepId == y.payload.stepId
  {
    var i :| 0 <= i < |log| && log[i] == y;
    LawfulAt(log, i);
    assert y.payload.stepId in StepsStarted(log[..i], y.payload.attemptId);
  }

  lemma PositionTransitive(x: Event, y: Event, z: Event)
    requires PositionLe(x, y) && PositionLe(y, z)
    ensures PositionLe(x, z)
  {
    PositionTotal();
  }

  /** What is said of an attempt the projection has whole stands after its start. */
  lemma WholeIsOrdered(a: Attempt, log: seq<Event>, y: Event)
    requires Lawful(log) && Details(a, log) && Whole(a, log) && y in log && AboutAttempt(y.payload) && y.payload.attemptId == a.attemptId
    requires y.payload.AttemptFinished? ==> PositionLe(a.started, y)
    ensures PositionLe(a.started, y)
    ensures y.payload.StepFinished? ==>
              forall x | x in log && StartsStep(x, a.attemptId) && x.payload.stepId == y.payload.stepId :: PositionLe(x, y)
  {
    hide PositionLe, Lawful, Details, Whole;
    if y.payload.StepFinished? {
      EndedStarted(log, y);
      forall x | x in log && StartsStep(x, a.attemptId) && x.payload.stepId == y.payload.stepId ensures PositionLe(a.started, y) && PositionLe(x, y) {
        WholeEnds(a, log, x, y);
        PositionTransitive(a.started, x, y);
      }
    } else if !y.payload.AttemptFinished? {
      WholeStarts(a, log, y);
    }
  }

  /** An execution that states what the log states, its steps and attachments included. */
  ghost predicate RepresentsAll(log: seq<Event>, t: TestExecution) {
    Represents(log, t) && forall a | a in t.attempts :: Whole(a, log)
  }

  lemma ListedDetails(es: seq<Event>, log: seq<Event>, t: TestExecution)
    requires Lawful(log) && ReadingOf(es, log) && t.attempts == Listed(Gather(es), t.executionId)
    ensures forall a | a in t.attempts ::
              && Details(a, log) && a.started in log && a.started.payload.AttemptStarted? && a.started.payload.attemptId == a.attemptId
    ensures forall x | x in log && x.payload.AttemptStarted? && x.payload.execution == t.executionId :: exists a | a in t.attempts :: a.started == x
  {
    hide PositionLe, Lawful, Gather, Listed, ReadingOf, Details;
    var g := Gather(es);
    ReadingTabled(es, log);
    ListedShape(g, log, t.executionId);
    forall a | a in t.attempts
      ensures Details(a, log) && a.started in log && a.started.payload.AttemptStarted? && a.started.payload.attemptId == a.attemptId
    {
      ReadDetails(es, log, a);
    }
    forall x | x in log && x.payload.AttemptStarted? && x.payload.execution == t.executionId ensures exists a | a in t.attempts :: a.started == x {
      assert x.payload.attemptId in Started(log);
      OneStart(log, x, g.attempts[x.payload.attemptId].started);
      assert g.attempts[x.payload.attemptId] in t.attempts;
    }
  }

  lemma OrderedReadsFirst(log: seq<Event>)
    requires AllReadInOrder(log)
    ensures StartsReadFirst(log)
  {
    hide PositionLe;
  }

  lemma StartExecutes(log: seq<Event>, ts: seq<TestExecution>, x: Event)
    requires AllProjected(log, ts) && x in log && x.payload.AttemptStarted?
    ensures exists t | t in ts :: t.executionId == x.payload.execution
  {
    hide LexLe;
    assert x.payload.execution in Lifecycle.Executions(log);
  }

  lemma RepresentedIsOrdered(es: seq<Event>, log: seq<Event>, ts: seq<TestExecution>)
    requires Lawful(log) && ReadingOf(es, log) && AllProjected(log, ts)
    requires forall t | t in ts :: t.attempts == Listed(Gather(es), t.executionId) && RepresentsAll(log, t)
    requires StartsReadFirst(log)
    ensures AllReadInOrder(log)
  {
    hide PositionLe, Lawful, Gather, Listed, ReadingOf, Represents, Details, Whole, AllProjected;
    forall x, y | x in log && y in log && x.payload.AttemptStarted? && AboutAttempt(y.payload) && y.payload.attemptId == x.payload.attemptId
      ensures PositionLe(x, y)
      ensures y.payload.StepFinished? ==>
                forall z | z in log && StartsStep(z, y.payload.attemptId) && z.payload.stepId == y.payload.stepId :: PositionLe(z, y)
    {
      StartExecutes(log, ts, x);
      var t :| t in ts && t.executionId == x.payload.execution;
      ListedDetails(es, log, t);
      var a :| a in t.attempts && a.started == x;
      WholeIsOrdered(a, log, y);
    }
    forall z, y | z in log && y in log && z.payload.StepStarted? && EndsStep(y, z.payload.attemptId, z.payload.stepId) ensures PositionLe(z, y) {
      SaidAfterStart(log, y);
      var x :| x in log && x.payload.AttemptStarted? && x.payload.attemptId == y.payload.attemptId;
    }
  }

  lemma SaidAfterStart(log: seq<Event>, y: Event)
    requires Lawful(log) && y in log && AboutAttempt(y.payload)
    ensures exists x | x in log :: x.payload.AttemptStarted? && x.payload.attemptId == y.payload.attemptId
  {
    var i :| 0 <= i < |log| && log[i] == y;
    InsideTheirAttempt(log, i);
    var x :| x in log[..i] && x.payload.AttemptStarted? && x.payload.attemptId == y.payload.attemptId;
    assert x in log;
  }

  /**
   * The projection is whole, exactly: what it says of every execution, the steps and their ends and
   * the attachments of each attempt included, is what the log says, if and only if whatever is said
   * of an attempt is read after the attempt's start and each step's end after the step's start.
   */
  lemma ProjectionWhole(project: string, locator: string, log: seq<Event>, summary: Summary)
    requires Lawful(log) && Known(log) != []
    ensures var r := ProjectRun(project, locator, log, summary);
            && r.Ok? && r.value.Some?
            && ((forall t | t in r.value.value.executions :: RepresentsAll(log, t)) <==> AllReadInOrder(log))
  {
    hide Lawful, Gather, Listed, ReadingOf, Represents, ProjectRun, Known, Ordered, Execution, AllProjected, PositionLe, Whole, Details,
         AllReadInOrder, StartsReadFirst;
    ProjectedIds(project, locator, log, summary);
    ProjectionFaithful(project, locator, log, summary);
    var es := Ordered(Known(log));
    var ts := ProjectRun(project, locator, log, summary).value.value.executions;
    ReadLog(log);
    if AllReadInOrder(log) {
      OrderedReadsFirst(log);
      forall t | t in ts ensures RepresentsAll(log, t) {
        ListedDetails(es, log, t);
        forall a | a in t.attempts ensures Whole(a, log) { ReadInOrderIsWhole(a, log); }
      }
    }
    if forall t | t in ts :: RepresentsAll(log, t) {
      forall t | t in ts ensures Represents(log, t) {}
      RepresentedIsOrdered(es, log, ts);
    }
  }

  /** In a run whose attempts stay in their session nothing is dropped. */
  lemma StayingIsInOrder(log: seq<Event>)
    requires Lawful(log) && StaysInSession(log)
    ensures AllReadInOrder(log)
  {
    hide Lawful, StaysInSession;
    forall x, y | x in log && y in log && x.payload.AttemptStarted? && AboutAttempt(y.payload) && y.payload.attemptId == x.payload.attemptId
      ensures PositionLe(x, y)
    {
      StaysMeans(log, y, x);
      var l :| 0 <= l < |log| && log[l] == y;
      InsideTheirAttempt(log, l);
      var z :| z in log[..l] && z.payload.AttemptStarted? && z.payload.attemptId == x.payload.attemptId;
      OneStart(log, x, z);
      EarlierIsLower(log, x, l);
    }
    forall x, y | x in log && y in log && x.payload.StepStarted? && EndsStep(y, x.payload.attemptId, x.payload.stepId) ensures PositionLe(x, y) {
      StepInSession(log, x, y);
    }
  }

  lemma StepInSession(log: seq<Event>, x: Event, y: Event)
    requires Lawful(log) && StaysInSession(log) && x in log && y in log
    requires x.payload.StepStarted? && EndsStep(y, x.payload.attemptId, x.payload.stepId)
    ensures PositionLe(x, y)
  {
    SaidAfterStart(log, y);
    var s :| s in log && s.payload.AttemptStarted? && s.payload.attemptId == y.payload.attemptId;
    StaysMeans(log, x, s);
    StaysMeans(log, y, s);
    var l :| 0 <= l < |log| && log[l] == y;
    LawfulAt(log, l);
    hide StaysInSession, Lawful;
    var z :| z in log[..l] && z.payload.StepStarted? && z.payload.attemptId == y.payload.attemptId && z.payload.stepId == y.payload.stepId;
    LogStepsOnce(log);
    assert z in log && z == x;
    EarlierIsLower(log, x, l);
  }

  // ---------------------------------------------------------------- sessions and loose facts

  /** What the projection says of a session is what the log says. */
  ghost predicate SessionWhole(s: SessionFacts, id: string, es: seq<Event>) {
    && s.started in es && s.started.sessionId == id && s.started.payload.SessionStarted? && s.runner == s.started.payload.runner
    && (forall f :: s.finished == Some(f) <==> f in es && f.sessionId == id && f.payload.SessionFinished?)
    && (s.finished.Some? ==> s.finished.value.payload.SessionFinished? && s.status == s.finished.value.payload.outcome)
    && (forall x :: x in s.executions <==> exists e | e in es :: e.sessionId == id && e.payload.AttemptStarted? && e.payload.execution == x)
  }

  ghost predicate SessionsWhole(sessions: map<string, SessionFacts>, es: seq<Event>) {
    && (forall id | id in sessions :: SessionWhole(sessions[id], id, es))
    && (forall e | e in es && e.payload.SessionStarted? :: e.sessionId in sessions)
  }

  /** A session starts before anything else of it is read, once, and ends once. */
  ghost predicate SessionNext(es: seq<Event>, e: Event) {
    && (e.payload.SessionStarted? ==> forall x | x in es :: x.sessionId != e.sessionId)
    && (e.payload.SessionFinished? ==> forall x | x in es && x.sessionId == e.sessionId :: !x.payload.SessionFinished?)
    && (!e.payload.SessionStarted? ==> exists x | x in es :: x.sessionId == e.sessionId && x.payload.SessionStarted?)
  }

  lemma SessionStep(sessions: map<string, SessionFacts>, es: seq<Event>, e: Event)
    requires SessionsWhole(sessions, es) && SessionNext(es, e)
    ensures SessionsWhole(GatherSession(sessions, e), es + [e])
  {
    var next, all := GatherSession(sessions, e), es + [e];
    assert forall x :: x in all <==> x in es || x == e;
    forall id | id in next ensures SessionWhole(next[id], id, all) {
      if id in sessions {
        OldSession(sessions, es, e, id);
      } else {
        assert e.payload.SessionStarted? && e.sessionId == id;
        assert forall x | x in es :: x.sessionId != id;
      }
    }
  }

  lemma OldSession(sessions: map<string, SessionFacts>, es: seq<Event>, e: Event, id: string)
    requires id in sessions && SessionWhole(sessions[id], id, es) && SessionNext(es, e)
    ensures id in GatherSession(sessions, e) && SessionWhole(GatherSession(sessions, e)[id], id, es + [e])
  {
    var s, next, all := sessions[id], GatherSession(sessions, e)[id], es + [e];
    assert forall x :: x in all <==> x in es || x == e;
    forall f ensures next.finished == Some(f) <==> f in all && f.sessionId == id && f.payload.SessionFinished? {
      assert s.finished == Some(f) <==> f in es && f.sessionId == id && f.payload.SessionFinished?;
    }
    forall x ensures x in next.executions <==> exists y | y in all :: y.sessionId == id && y.payload.AttemptStarted? && y.payload.execution == x {
      assert x in s.executions <==> exists y | y in es :: y.sessionId == id && y.payload.AttemptStarted? && y.payload.execution == x;
      if y :| y in es && y.sessionId == id && y.payload.AttemptStarted? && y.payload.execution == x { assert y in all; }
    }
  }

  ghost predicate SessionsInOrder(es: seq<Event>) {
    forall i | 0 <= i < |es| :: SessionNext(es[..i], es[i])
  }

  lemma GatherNext(es: seq<Event>)
    requires es != []
    ensures var e, g := es[|es| - 1], Gather(es[..|es| - 1]);
            && Gather(es).sessions == GatherSession(g.sessions, e)
            && Gather(es).scopeFailures == (if e.payload.ScopeFailed? then g.scopeFailures + [e] else g.scopeFailures)
            && Gather(es).attachments == (if e.payload.AttachmentAdded? then g.attachments + [e] else g.attachments)
  {
    hide GatherAttempt, GatherSession;
  }

  lemma GatherNothing()
    ensures Gather([]) == NOTHING && SessionsWhole(map[], [])
  {
  }

  lemma OrderPrefix(es: seq<Event>)
    requires SessionsInOrder(es) && es != []
    ensures SessionsInOrder(es[..|es| - 1]) && SessionNext(es[..|es| - 1], es[|es| - 1])
  {
    hide SessionNext;
    var n := |es| - 1;
    forall i | 0 <= i < n ensures SessionNext(es[..n][..i], es[..n][i]) { assert es[..n][..i] == es[..i]; }
  }

  lemma {:induction false} GatheredSessions(es: seq<Event>)
    requires SessionsInOrder(es)
    ensures SessionsWhole(Gather(es).sessions, es)
  {
    GatherNothing();
    hide SessionNext, SessionsWhole, SessionsInOrder, Gather, GatherSession;
    if es != [] {
      OrderPrefix(es);
      GatheredSessions(es[..|es| - 1]);
      GatherNext(es);
      assert es == es[..|es| - 1] + [es[|es| - 1]];
      SessionStep(Gather(es[..|es| - 1]).sessions, es[..|es| - 1], es[|es| - 1]);
    }
  }

  /** In a lawful log a session's start has the lowest sequence, and nothing but run.finished follows its end. */
  lemma SessionBounds(log: seq<Event>, x: Event, y: Event)
    requires Lawful(log) && x in log && y in log && x.sessionId == y.sessionId && x != y
    ensures x.payload.SessionStarted? ==> x.sequence < y.sequence && !y.payload.SessionStarted?
    ensures !(x.payload.SessionFinished? && y.payload.SessionFinished?)
  {
    var own := Of(log, x.sessionId);
    SessionsAreNumbered(log, x.sessionId);
    OfMembers(log, x.sessionId);
    hide Lawful, Of;
    var i :| 0 <= i < |own| && own[i] == x;
    var j :| 0 <= j < |own| && own[j] == y;
  }

  lemma SessionHasStart(log: seq<Event>, e: Event)
    requires Lawful(log) && e in log
    ensures exists x | x in log :: x.sessionId == e.sessionId && x.payload.SessionStarted?
  {
    var own := Of(log, e.sessionId);
    SessionsAreNumbered(log, e.sessionId);
    OfMembers(log, e.sessionId);
    hide Lawful, Of;
    assert e in own && own[0] in own;
  }

  lemma ReadsSessionsInOrder(es: seq<Event>, log: seq<Event>)
    requires Lawful(log) && ReadingOf(es, log)
    ensures SessionsInOrder(es)
  {
    hide Lawful;
    forall i | 0 <= i < |es| ensures SessionNext(es[..i], es[i]) {
      var e := es[i];
      assert e in es;
      forall x | x in es[..i] && x.sessionId == e.sessionId
        ensures !e.payload.SessionStarted? && !(x.payload.SessionFinished? && e.payload.SessionFinished?)
      {
        var k :| 0 <= k < i && es[k] == x;
        assert PositionLe(es[k], es[i]) && !PositionLe(es[i], es[k]);
        assert x in es;
        SessionBounds(log, x, e);
        SessionBounds(log, e, x);
      }
      if !e.payload.SessionStarted? {
        SessionHasStart(log, e);
        var s :| s in log && s.sessionId == e.sessionId && s.payload.SessionStarted?;
        SessionBounds(log, s, e);
        assert s in es;
        var k :| 0 <= k < |es| && es[k] == s;
        ReadInOrder(es, k, i);
        assert s in es[..i];
      }
    }
  }

  lemma StrictNext(list: seq<Event>, es: seq<Event>, e: Event)
    requires Strict(list, PositionLe) && Last(es, e) && forall x | x in list :: x in es
    ensures Strict(list + [e], PositionLe)
  {
    hide PositionLe;
    assert forall i | 0 <= i < |list| :: list[i] in list;
  }

  /** The run's scope failures and attachments, in reading order. */
  lemma {:induction false} GatheredLoose(es: seq<Event>)
    requires Strict(es, PositionLe)
    ensures var g := Gather(es);
            && (forall e :: e in g.scopeFailures <==> e in es && e.payload.ScopeFailed?)
            && (forall e :: e in g.attachments <==> e in es && e.payload.AttachmentAdded?)
            && Strict(g.scopeFailures, PositionLe) && Strict(g.attachments, PositionLe)
  {
    GatherNothing();
    if es != [] {
      var before, e := es[..|es| - 1], es[|es| - 1];
      assert es == before + [e];
      LastOf(es);
      hide PositionLe, Strict, Gather, Last;
      GatheredLoose(before);
      GatherNext(es);
      StrictNext(Gather(before).scopeFailures, before, e);
      StrictNext(Gather(before).attachments, before, e);
    }
  }

  lemma ProjectedGathers(project: string, locator: string, log: seq<Event>, summary: Summary, run: ProjectedRun)
    requires ProjectRun(project, locator, log, summary) == P.Ok(Some(run))
    ensures var g := Gather(Ordered(Known(log)));
            run.sessions == SessionViews(g.sessions) && run.scopeFailures == g.scopeFailures && run.attachments == g.attachments
  {
    hide Ordered, Known, Gather, P.Executions, SessionViews, ExecutionIds, SortedSet;
  }

  lemma ViewWhole(sessions: map<string, SessionFacts>, es: seq<Event>, log: seq<Event>)
    requires SessionsWhole(sessions, es) && forall e :: e in es <==> e in log && !e.payload.Unknown?
    ensures SessionsWhole(SessionViews(sessions), log)
  {
    hide SortedSet;
    var views := SessionViews(sessions);
    forall id | id in views ensures SessionWhole(views[id], id, log) {
      assert SessionWhole(sessions[id], id, es);
      SortedSetShape(sessions[id].executions);
    }
  }

  /**
   * The rest of the projection needs no order of the log: of every valid run it says the sessions,
   * their runners, ends, outcomes and executions, the scope failures and the attachments as the log
   * does, all of them, the last two in reading order.
   */
  lemma SessionsFaithful(project: string, locator: string, log: seq<Event>, summary: Summary)
    requires Lawful(log) && Known(log) != []
    ensures var r := ProjectRun(project, locator, log, summary);
            && r.Ok? && r.value.Some?
            && SessionsWhole(r.value.value.sessions, log)
            && (forall e :: e in r.value.value.scopeFailures <==> e in log && e.payload.ScopeFailed?)
            && (forall e :: e in r.value.value.attachments <==> e in log && e.payload.AttachmentAdded?)
            && Strict(r.value.value.scopeFailures, PositionLe) && Strict(r.value.value.attachments, PositionLe)
  {
    hide Lawful, Gather, Listed, ProjectRun, Known, Ordered, AllProjected, PositionLe, Strict, SessionsWhole, SessionViews, SessionsInOrder;
    ProjectedIds(project, locator, log, summary);
    var es, run := Ordered(Known(log)), ProjectRun(project, locator, log, summary).value.value;
    ProjectedGathers(project, locator, log, summary, run);
    ReadLog(log);
    ReadsSessionsInOrder(es, log);
    GatheredSessions(es);
    ViewWhole(Gather(es).sessions, es, log);
    GatheredLoose(es);
  }
}
