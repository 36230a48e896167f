/**
What a projection says about the run: no valid run is ambiguous, and every projected fact is the
fact the events state.
*/
module ProjectionMeaning {
  import opened Protocol
  import opened Validator
  import opened Lifecycle
  import opened Soundness
  import opened SessionLocality
  import opened Meaning
  import opened Sorting
  import opened P = Projection

  predicate Ends(e: Event, a: string) {
    e.payload.AttemptFinished? && e.payload.attemptId == a
  }

  /** Attempts and sessions start once, and attempts end once. */
  ghost predicate StartOnce(es: seq<Event>) {
    forall i, j | 0 <= i < j < |es| ::
      && (es[i].payload.AttemptStarted? && es[j].payload.AttemptStarted? ==> es[i].payload.attemptId != es[j].payload.attemptId)
      && (es[i].payload.AttemptFinished? && es[j].payload.AttemptFinished? ==> es[i].payload.attemptId != es[j].payload.attemptId)
      && (es[i].payload.SessionStarted? && es[j].payload.SessionStarted? ==> es[i].sessionId != es[j].sessionId)
  }

  lemma StartOncePrefix(es: seq<Event>)
    requires StartOnce(es) && es != []
    ensures StartOnce(es[..|es| - 1])
  {
  }

  // ---------------------------------------------------------------- attempts

  ghost predicate AttemptRead(a: Attempt, es: seq<Event>, i: nat)
    requires i < |es| && es[i].payload.AttemptStarted?
  {
    var p := es[i].payload;
    && a.started == es[i] && a.attemptId == p.attemptId && a.number == p.number
    && a.execution == p.execution && a.identity == p.identity
    && (forall j | i < j < |es| && Ends(es[j], p.attemptId) ::
          a.finished == Some(es[j]) && a.status == Some(es[j].payload.status) && a.expected == es[j].payload.expected)
    && ((forall j | i < j < |es| :: !Ends(es[j], p.attemptId)) ==> a.finished.None? && a.status.None? && a.expected.None?)
  }

  lemma AttemptStepped(a: Attempt, b: Attempt, es: seq<Event>, i: nat)
    requires StartOnce(es) && i < |es| - 1 && es[i].payload.AttemptStarted?
    requires AttemptRead(a, es[..|es| - 1], i)
    requires var e := es[|es| - 1];
             if Ends(e, es[i].payload.attemptId)
             then b == a.(finished := Some(e), status := Some(e.payload.status), expected := e.payload.expected)
             else b == a.(steps := b.steps, attachments := b.attachments)
    ensures AttemptRead(b, es, i)
  {
    var before, id := es[..|es| - 1], es[i].payload.attemptId;
    forall j | i < j < |es| && Ends(es[j], id)
      ensures b.finished == Some(es[j]) && b.status == Some(es[j].payload.status) && b.expected == es[j].payload.expected
    {
      if j < |before| { assert before[j] == es[j]; }
    }
    if forall j | i < j < |es| :: !Ends(es[j], id) {
      assert forall j | i < j < |before| :: !Ends(before[j], id) by {
        forall j | i < j < |before| ensures !Ends(before[j], id) { assert before[j] == es[j]; }
      }
    }
  }

  lemma {:induction false} GatheredAttempt(es: seq<Event>, i: nat)
    requires StartOnce(es) && i < |es| && es[i].payload.AttemptStarted?
    ensures es[i].payload.attemptId in Gather(es).attempts
    ensures AttemptRead(Gather(es).attempts[es[i].payload.attemptId], es, i)
  {
    var before, e, id := es[..|es| - 1], es[|es| - 1], es[i].payload.attemptId;
    if i < |before| {
      StartOncePrefix(es);
      assert before[i] == es[i];
      GatheredAttempt(before, i);
      hide AttemptRead;
      AttemptStepped(Gather(before).attempts[id], Gather(es).attempts[id], es, i);
    }
  }

  lemma {:induction false} GatheredKeys(es: seq<Event>)
    ensures Gather(es).attempts.Keys == Started(es)
    ensures forall id :: id in Gather(es).order <==> id in Started(es)
    ensures forall i, j | 0 <= i < j < |Gather(es).order| :: Gather(es).order[i] != Gather(es).order[j]
  {
    if es != [] {
      var before, e := es[..|es| - 1], es[|es| - 1];
      assert es == before + [e];
      GatheredKeys(before);
      StartedSnoc(before, e);
      assert GatherAttempt(Gather(before).attempts, e).Keys ==
             Gather(before).attempts.Keys + (if e.payload.AttemptStarted? then {e.payload.attemptId} else {});
    }
  }

  lemma {:induction false} GatheredRunner(es: seq<Event>, i: nat)
    requires StartOnce(es) && i < |es| && es[i].payload.SessionStarted?
    ensures es[i].sessionId in Gather(es).sessions
    ensures Gather(es).sessions[es[i].sessionId].runner == es[i].payload.runner
  {
    var before := es[..|es| - 1];
    if i < |before| {
      StartOncePrefix(es);
      assert before[i] == es[i];
      GatheredRunner(before, i);
    }
  }

  // ---------------------------------------------------------------- reading a lawful log

  ghost predicate ReadingOf(es: seq<Event>, log: seq<Event>) {
    Strict(es, PositionLe) && forall e :: e in es <==> e in log && !e.payload.Unknown?
  }

  lemma ReadLog(log: seq<Event>)
    requires Lawful(log)
    ensures ReadingOf(Ordered(Known(log)), log)
  {
    hide Ordered, Known, Lawful;
    LawfulPositioned(log);
    KnownPositioned(log);
    KnownMembers(log);
    OrderedShape(Known(log));
  }

  lemma ReadingStartsOnce(es: seq<Event>, log: seq<Event>)
    requires Lawful(log) && ReadingOf(es, log)
    ensures StartOnce(es)
  {
    hide PositionLe;
    forall i, j | 0 <= i < j < |es|
      ensures es[i].payload.AttemptStarted? && es[j].payload.AttemptStarted? ==> es[i].payload.attemptId != es[j].payload.attemptId
      ensures es[i].payload.AttemptFinished? && es[j].payload.AttemptFinished? ==> es[i].payload.attemptId != es[j].payload.attemptId
      ensures es[i].payload.SessionStarted? && es[j].payload.SessionStarted? ==> es[i].sessionId != es[j].sessionId
    {
      assert es[i] in log && es[j] in log && es[i] != es[j];
      ApartInLog(log, es[i], es[j]);
    }
  }

  lemma ApartInLog(log: seq<Event>, a: Event, b: Event)
    requires Lawful(log) && a in log && b in log && a != b
    ensures a.payload.AttemptStarted? && b.payload.AttemptStarted? ==> a.payload.attemptId != b.payload.attemptId
    ensures a.payload.AttemptFinished? && b.payload.AttemptFinished? ==> a.payload.attemptId != b.payload.attemptId
    ensures a.payload.SessionStarted? && b.payload.SessionStarted? ==> a.sessionId != b.sessionId
  {
    var i :| 0 <= i < |log| && log[i] == a;
    var j :| 0 <= j < |log| && log[j] == b;
    if i < j { IdentifiersAreUnique(log, i, j); } else { IdentifiersAreUnique(log, j, i); }
    if a.payload.SessionStarted? && b.payload.SessionStarted? && a.sessionId == b.sessionId {
      OneSessionStart(log, a, b);
    }
  }

  lemma OneSessionStart(log: seq<Event>, a: Event, b: Event)
    requires Lawful(log) && a in log && b in log && a.sessionId == b.sessionId
    requires a.payload.SessionStarted? && b.payload.SessionStarted?
    ensures a == b
  {
    var own := Of(log, a.sessionId);
    SessionsAreNumbered(log, a.sessionId);
    OfMembers(log, a.sessionId);
    assert a in own && b in own;
  }

  lemma ReadingRunner(es: seq<Event>, log: seq<Event>, x: Event)
    requires Lawful(log) && ReadingOf(es, log) && x in log
    ensures RunnerIn(Gather(es).sessions, x.sessionId) == RunnerOf(log, x.sessionId)
  {
    hide PositionLe, Lawful, Gather;
    var own := Of(log, x.sessionId);
    SessionsAreNumbered(log, x.sessionId);
    OfMembers(log, x.sessionId);
    assert x in own && own[0] in own && own[0] in log;
    assert own[0] in es;
    var i :| 0 <= i < |es| && es[i] == own[0];
    ReadingStartsOnce(es, log);
    GatheredRunner(es, i);
  }

  /** Every attempt's start stands before its end in the reading order. */
  ghost predicate StartsReadFirst(log: seq<Event>) {
    forall x, y | x in log && y in log && x.payload.AttemptStarted? && Ends(y, x.payload.attemptId) :: PositionLe(x, y)
  }

  /** So it is in a run whose attempts stay in their session. */
  lemma StayingReadsFirst(log: seq<Event>)
    requires Lawful(log) && StaysInSession(log)
    ensures StartsReadFirst(log)
  {
    forall x, y | x in log && y in log && x.payload.AttemptStarted? && Ends(y, x.payload.attemptId) ensures PositionLe(x, y) {
      StaysMeans(log, y, x);
      var l :| 0 <= l < |log| && log[l] == y;
      InsideTheirAttempt(log, l);
      var z :| z in log[..l] && z.payload.AttemptStarted? && z.payload.attemptId == x.payload.attemptId;
      OneStart(log, x, z);
      EarlierIsLower(log, x, l);
    }
  }

  lemma EarlierIsLower(log: seq<Event>, x: Event, l: nat)
    requires Lawful(log) && l < |log| && x in log[..l] && x.sessionId == log[l].sessionId
    ensures x.sequence < log[l].sequence
  {
    LawfulAt(log, l);
    var own := Of(log[..l], x.sessionId);
    SessionsAreNumbered(log[..l], x.sessionId);
    OfMembers(log[..l], x.sessionId);
    assert x in own;
  }

  // ---------------------------------------------------------------- grouping

  ghost predicate Named(attempts: map<string, Attempt>) {
    forall id | id in attempts :: attempts[id].attemptId == id
  }

  lemma {:induction false} AttemptsInShape(attempts: map<string, Attempt>, order: seq<string>, x: string)
    requires Named(attempts) && forall i, j | 0 <= i < j < |order| :: order[i] != order[j]
    ensures forall a :: a in AttemptsIn(attempts, order, x) <==>
                        a.attemptId in order && a.attemptId in attempts && attempts[a.attemptId] == a && a.execution == x
    ensures forall i, j | 0 <= i < j < |AttemptsIn(attempts, order, x)| ::
              AttemptsIn(attempts, order, x)[i] != AttemptsIn(attempts, order, x)[j]
  {
    if order != [] {
      var before, id := order[..|order| - 1], order[|order| - 1];
      assert order == before + [id];
      AttemptsInShape(attempts, before, x);
      var list := AttemptsIn(attempts, before, x);
      assert id !in before;
      forall i | 0 <= i < |list| ensures list[i].attemptId != id { assert list[i] in list; }
    }
  }

  /** The sorted list of an execution's attempts, when no two share a number. */
  lemma SortedAttempts(attempts: map<string, Attempt>, order: seq<string>, x: string)
    requires Named(attempts) && forall i, j | 0 <= i < j < |order| :: order[i] != order[j]
    requires forall id | id in attempts :: id in order
    requires forall a, b | a in attempts && b in attempts && a != b && attempts[a].execution == x && attempts[b].execution == x ::
               attempts[a].number != attempts[b].number
    ensures var list := Sort(AttemptsIn(attempts, order, x), NumberLe);
            && (forall i, j | 0 <= i < j < |list| :: list[i].number < list[j].number)
            && (forall a :: a in list <==> a.attemptId in attempts && attempts[a.attemptId] == a && a.execution == x)
  {
    hide Sort, AttemptsIn;
    var met := AttemptsIn(attempts, order, x);
    AttemptsInShape(attempts, order, x);
    NumberTotal();
    SortSorts(met, NumberLe);
    SortKeeps(met, NumberLe);
    var list := Sort(met, NumberLe);
    MultisetDistinct(met, list);
    forall i, j | 0 <= i < j < |list| ensures list[i].number < list[j].number {
      assert NumberLe(list[i], list[j]);
      assert list[i] in list && list[j] in list && list[i] != list[j];
    }
  }

  lemma NumberTotal()
    ensures Total(NumberLe)
  {
  }

  lemma {:induction false} ExecutionIdMembers(attempts: map<string, Attempt>, order: seq<string>, x: string)
    ensures x in ExecutionIds(attempts, order) <==> exists id | id in order :: id in attempts && attempts[id].execution == x
  {
    if order != [] {
      ExecutionIdMembers(attempts, order[..|order| - 1], x);
      assert order == order[..|order| - 1] + [order[|order| - 1]];
    }
  }

  // ---------------------------------------------------------------- the executions of a lawful run

  /** The attempt table of a reading, in terms of the log. */
  ghost predicate Tabled(g: Gathered, log: seq<Event>) {
    && Named(g.attempts)
    && g.attempts.Keys == Started(log)
    && (forall id :: id in g.order <==> id in Started(log))
    && (forall i, j | 0 <= i < j < |g.order| :: g.order[i] != g.order[j])
    && (forall id | id in g.attempts ::
          var a := g.attempts[id];
          a.started in log && a.started.payload == AttemptStarted(id, a.number, a.execution, a.identity))
  }

  lemma ReadingTabled(es: seq<Event>, log: seq<Event>)
    requires Lawful(log) && ReadingOf(es, log)
    ensures Tabled(Gather(es), log)
  {
    hide PositionLe, Lawful, Gather;
    GatheredKeys(es);
    ReadingStartsOnce(es, log);
    assert Started(es) == Started(log);
    var g := Gather(es);
    forall id | id in g.attempts
      ensures var a := g.attempts[id];
              a.started in log && a.attemptId == id && a.started.payload == AttemptStarted(id, a.number, a.execution, a.identity)
    {
      var x :| x in es && x.payload.AttemptStarted? && x.payload.attemptId == id;
      var i :| 0 <= i < |es| && es[i] == x;
      GatheredAttempt(es, i);
    }
  }

  lemma OneTest(log: seq<Event>, x: Event, y: Event)
    requires Lawful(log) && x in log && y in log && x.payload.AttemptStarted? && y.payload.AttemptStarted?
    requires x.payload.execution == y.payload.execution
    ensures x != y ==> x.payload.number != y.payload.number
    ensures x.payload.identity == y.payload.identity
    ensures RunnerOf(log, x.sessionId) == RunnerOf(log, y.sessionId)
  {
    var i :| 0 <= i < |log| && log[i] == x;
    var j :| 0 <= j < |log| && log[j] == y;
    if i < j { ExecutionsAreOneTest(log, i, j); }
    if j < i { ExecutionsAreOneTest(log, j, i); }
  }

  /** The attempts of one execution as the projector lists them. */
  function Listed(g: Gathered, x: string): seq<Attempt> {
    Sort(AttemptsIn(g.attempts, g.order, x), NumberLe)
  }

  lemma ListedShape(g: Gathered, log: seq<Event>, x: string)
    requires Lawful(log) && Tabled(g, log)
    ensures forall i, j | 0 <= i < j < |Listed(g, x)| :: Listed(g, x)[i].number < Listed(g, x)[j].number
    ensures forall a :: a in Listed(g, x) <==> a.attemptId in g.attempts && g.attempts[a.attemptId] == a && a.execution == x
  {
    hide Lawful, Sort, AttemptsIn;
    forall a, b | a in g.attempts && b in g.attempts && a != b && g.attempts[a].execution == x && g.attempts[b].execution == x
      ensures g.attempts[a].number != g.attempts[b].number
    {
      OneTest(log, g.attempts[a].started, g.attempts[b].started);
    }
    SortedAttempts(g.attempts, g.order, x);
  }

  /** No execution of a valid run contradicts itself. */
  lemma ExecutionClear(es: seq<Event>, log: seq<Event>, x: string)
    requires Lawful(log) && ReadingOf(es, log) && Listed(Gather(es), x) != []
    ensures Execution(Gather(es).sessions, x, Listed(Gather(es), x)).Ok?
    ensures forall a | a in Listed(Gather(es), x) ::
              Execution(Gather(es).sessions, x, Listed(Gather(es), x)).value.runnerName == RunnerOf(log, a.started.sessionId)
  {
    hide Lawful, Gather, Listed, IsFlaky, ReadingOf, RunnerIn, RunnerOf;
    var g, list := Gather(es), Listed(Gather(es), x);
    ReadingTabled(es, log);
    ListedShape(g, log, x);
    assert list[0] in list;
    forall i | 0 <= i < |list|
      ensures list[i].identity == list[0].identity
      ensures RunnerIn(g.sessions, list[i].started.sessionId) == RunnerIn(g.sessions, list[0].started.sessionId)
      ensures RunnerIn(g.sessions, list[0].started.sessionId) == RunnerOf(log, list[i].started.sessionId)
    {
      assert list[i] in list;
      OneTest(log, list[i].started, list[0].started);
      ReadingRunner(es, log, list[i].started);
      ReadingRunner(es, log, list[0].started);
    }
  }

  lemma {:induction false} ExecutionsClear(es: seq<Event>, log: seq<Event>, ids: seq<string>)
    requires Lawful(log) && ReadingOf(es, log)
    requires forall x | x in ids :: Listed(Gather(es), x) != []
    ensures var r := P.Executions(Gather(es), ids);
            && r.Ok? && |r.value| == |ids|
            && forall k | 0 <= k < |ids| :: Execution(Gather(es).sessions, ids[k], Listed(Gather(es), ids[k])) == Ok(r.value[k])
  {
    hide Lawful, Gather, ReadingOf, Execution;
    if ids != [] {
      var before, x := ids[..|ids| - 1], ids[|ids| - 1];
      assert ids == before + [x];
      ExecutionsClear(es, log, before);
      ExecutionClear(es, log, x);
    }
  }

  lemma IdsListed(g: Gathered, log: seq<Event>, x: string)
    requires Lawful(log) && Tabled(g, log)
    ensures x in SortedSet(ExecutionIds(g.attempts, g.order)) <==> x in Lifecycle.Executions(log)
    ensures x in Lifecycle.Executions(log) <==> Listed(g, x) != []
  {
    hide Lawful, Listed, SortedSet;
    SortedSetShape(ExecutionIds(g.attempts, g.order));
    ExecutionIdMembers(g.attempts, g.order, x);
    ListedShape(g, log, x);
    if id :| id in g.order && id in g.attempts && g.attempts[id].execution == x {
      assert g.attempts[id] in Listed(g, x);
    }
    if Listed(g, x) != [] { assert Listed(g, x)[0] in Listed(g, x); }
    if e :| e in log && e.payload.AttemptStarted? && e.payload.execution == x {
      assert e.payload.attemptId in Started(log);
      OneStart(log, e, g.attempts[e.payload.attemptId].started);
    }
  }

  /** The executions are those of the reading, one for each id, ids ascending. */
  ghost predicate ListedBy(es: seq<Event>, executions: seq<TestExecution>) {
    var g := Gather(es);
    var ids := SortedSet(ExecutionIds(g.attempts, g.order));
    && |executions| == |ids|
    && forall k | 0 <= k < |ids| ::
         Listed(g, ids[k]) != [] && Execution(g.sessions, ids[k], Listed(g, ids[k])) == Ok(executions[k])
  }

  /** A valid run always has a projection: the projector's own checks never fire on one. */
  lemma NeverAmbiguous(project: string, locator: string, log: seq<Event>, summary: Summary)
    requires Lawful(log)
    ensures ProjectRun(project, locator, log, summary).Ok?
    ensures ProjectRun(project, locator, log, summary).value.None? <==> Known(log) == []
    ensures var r := ProjectRun(project, locator, log, summary).value;
            r.Some? ==> ListedBy(Ordered(Known(log)), r.value.executions)
  {
    hide Lawful, Gather, Listed, SortedSet, Known, ReadingOf, P.Executions, ExecutionIds, SessionViews, Sort;
    var es := Ordered(Known(log));
    ReadLog(log);
    ReadingTabled(es, log);
    SortKeeps(Known(log), PositionLe);
    var g := Gather(es);
    var ids := SortedSet(ExecutionIds(g.attempts, g.order));
    forall x | x in ids ensures Listed(g, x) != [] { IdsListed(g, log, x); }
    ExecutionsClear(es, log, ids);
  }

  // ---------------------------------------------------------------- facts of one execution

  /** Strict reading order is the order of positions. */
  lemma ReadInOrder(es: seq<Event>, i: nat, j: nat)
    requires Strict(es, PositionLe) && i < |es| && j < |es| && i != j
    ensures i < j <==> PositionLe(es[i], es[j])
  {
  }

  /**
   * The projected end of an attempt is the end the log gives it exactly when the start stands
   * before it in the reading order; an end read before its start is dropped.
   */
  lemma EndRead(es: seq<Event>, log: seq<Event>, a: Attempt)
    requires Lawful(log) && ReadingOf(es, log)
    requires a.attemptId in Gather(es).attempts && Gather(es).attempts[a.attemptId] == a
    ensures forall f :: a.finished == Some(f) <==> f in log && Ends(f, a.attemptId) && PositionLe(a.started, f)
    ensures a.finished.Some? ==>
              a.finished.value.payload.AttemptFinished? && a.status == Some(a.finished.value.payload.status)
              && a.expected == a.finished.value.payload.expected
    ensures a.finished.None? ==> a.status.None?
  {
    hide PositionLe, Lawful, Gather;
    ReadingTabled(es, log);
    ReadingStartsOnce(es, log);
    assert a.started in es;
    var i :| 0 <= i < |es| && es[i] == a.started;
    GatheredAttempt(es, i);
    forall f | f in log && Ends(f, a.attemptId) && PositionLe(a.started, f) ensures a.finished == Some(f) {
      assert f in es;
      var j :| 0 <= j < |es| && es[j] == f;
      ReadInOrder(es, i, j);
    }
    if a.finished.Some? {
      var j :| i < j < |es| && Ends(es[j], a.attemptId);
      assert a.finished == Some(es[j]);
      assert es[j] in log;
      ReadInOrder(es, i, j);
    }
  }

  /** The end of an attempt, if the log has one. */
  predicate EndsAs(log: seq<Event>, a: string, status: Status) {
    exists f | f in log :: Ends(f, a) && f.payload.status == status && (f.payload.expected == None || f.payload.expected == Some(Passed))
  }

  /** The flakiness rule over the events alone. */
  ghost predicate FlakyIn(log: seq<Event>, x: string) {
    exists s, o | s in log && o in log ::
      && FinalStart(log, s) && s.payload.execution == x && EndsAs(log, s.payload.attemptId, Passed)
      && o.payload.AttemptStarted? && o.payload.execution == x && o != s && EndsAs(log, o.payload.attemptId, Failed)
  }

  /**
   * The listed attempts are the attempts the log starts under the execution, numbers ascending,
   * each with the end the log gives it.
   */
  ghost predicate Faces(log: seq<Event>, x: string, list: seq<Attempt>) {
    && (forall i, j | 0 <= i < j < |list| :: list[i].number < list[j].number)
    && (forall a | a in list :: a.started in log && a.started.payload == AttemptStarted(a.attemptId, a.number, x, a.identity))
    && (forall e | e in log && e.payload.AttemptStarted? && e.payload.execution == x :: exists a | a in list :: a.started == e)
    && (forall a, f | a in list :: a.finished == Some(f) <==> f in log && Ends(f, a.attemptId))
    && (forall a | a in list && a.finished.Some? ::
          a.finished.value.payload.AttemptFinished? && a.status == Some(a.finished.value.payload.status)
          && a.expected == a.finished.value.payload.expected)
    && (forall a | a in list && a.finished.None? :: a.status.None?)
  }

  /** The facts of a projected execution are the facts of the log. */
  ghost predicate Represents(log: seq<Event>, t: TestExecution) {
    && t.attempts != []
    && Faces(log, t.executionId, t.attempts)
    && (forall a | a in t.attempts :: t.runnerName == RunnerOf(log, a.started.sessionId) && t.identity == a.identity)
    && (t.complete <==> forall a | a in t.attempts :: a.attemptId in Finished(log))
    && t.finalStatus == t.attempts[|t.attempts| - 1].status
    && (t.flaky <==> FlakyIn(log, t.executionId))
  }

  lemma {:induction false} FinalIsLast(list: seq<Attempt>)
    requires list != [] && forall i, j | 0 <= i < j < |list| :: list[i].number < list[j].number
    ensures FinalOf(list) == list[|list| - 1]
  {
    if |list| > 1 { FinalIsLast(list[..|list| - 1]); }
  }

  lemma EndsAsRead(log: seq<Event>, x: string, list: seq<Attempt>, a: Attempt, status: Status)
    requires Faces(log, x, list) && a in list
    ensures a.finished.Some? && a.status == Some(status) && Expected(a, Passed) <==> EndsAs(log, a.attemptId, status)
  {
    if f :| f in log && Ends(f, a.attemptId) && f.payload.status == status && (f.payload.expected == None || f.payload.expected == Some(Passed)) {
      assert a.finished == Some(f);
    }
    if a.finished.Some? {
      var f := a.finished.value;
      assert a.finished == Some(f);
    }
  }

  lemma LastIsFinal(log: seq<Event>, x: string, list: seq<Attempt>)
    requires Faces(log, x, list) && list != []
    ensures FinalStart(log, list[|list| - 1].started)
  {
    var last := list[|list| - 1];
    assert last in list;
    forall y | y in log && y.payload.AttemptStarted? && y.payload.execution == x ensures y.payload.number <= last.number {
      var a :| a in list && a.started == y;
      var i :| 0 <= i < |list| && list[i] == a;
    }
  }

  lemma FlakyMeans(log: seq<Event>, x: string, list: seq<Attempt>)
    requires Lawful(log) && Faces(log, x, list) && list != []
    ensures IsFlaky(list) <==> FlakyIn(log, x)
  {
    FinalIsLast(list);
    hide Faces, IsFlaky, FlakyIn;
    if IsFlaky(list) { FlakyForward(log, x, list); }
    if FlakyIn(log, x) { FlakyBackward(log, x, list); }
  }

  lemma FacesStart(log: seq<Event>, x: string, list: seq<Attempt>, a: Attempt)
    requires Faces(log, x, list) && a in list
    ensures a.started in log && a.started.payload.AttemptStarted? && a.started.payload.attemptId == a.attemptId
    ensures a.started.payload.execution == x && a.started.payload.number == a.number
    ensures a.number <= list[|list| - 1].number && (a.number == list[|list| - 1].number ==> a == list[|list| - 1])
  {
    var i :| 0 <= i < |list| && list[i] == a;
  }

  lemma FlakyForward(log: seq<Event>, x: string, list: seq<Attempt>)
    requires Faces(log, x, list) && list != [] && FinalOf(list) == list[|list| - 1]
    requires IsFlaky(list)
    ensures FlakyIn(log, x)
  {
    hide Faces, FinalStart, EndsAs;
    var last := list[|list| - 1];
    LastIsFinal(log, x, list);
    assert last in list;
    EndsAsRead(log, x, list, last, Passed);
    var a :| a in list && a != last && a.finished.Some? && a.status == Some(Failed) && Expected(a, Passed);
    EndsAsRead(log, x, list, a, Failed);
    FacesStart(log, x, list, a);
    FacesStart(log, x, list, last);
    assert FinalStart(log, last.started) && EndsAs(log, a.started.payload.attemptId, Failed);
  }

  lemma FlakyBackward(log: seq<Event>, x: string, list: seq<Attempt>)
    requires Lawful(log) && Faces(log, x, list) && list != [] && FinalOf(list) == list[|list| - 1]
    requires FlakyIn(log, x)
    ensures IsFlaky(list)
  {
    hide Lawful, EndsAs;
    var last := list[|list| - 1];
    LastIsFinal(log, x, list);
    assert last in list;
    var s, o :| s in log && o in log
      && FinalStart(log, s) && s.payload.execution == x && EndsAs(log, s.payload.attemptId, Passed)
      && o.payload.AttemptStarted? && o.payload.execution == x && o != s && EndsAs(log, o.payload.attemptId, Failed);
    assert s.payload.number == last.number;
    OneTest(log, s, last.started);
    EndsAsRead(log, x, list, last, Passed);
    var a :| a in list && a.started == o;
    EndsAsRead(log, x, list, a, Failed);
    var i :| 0 <= i < |list| && list[i] == a;
    assert |list| >= 2;
  }

  lemma ListedFaces(es: seq<Event>, log: seq<Event>, x: string)
    requires Lawful(log) && StartsReadFirst(log) && ReadingOf(es, log)
    ensures Faces(log, x, Listed(Gather(es), x))
  {
    hide Lawful, Gather, Listed, ReadingOf, PositionLe;
    var g, list := Gather(es), Listed(Gather(es), x);
    ReadingTabled(es, log);
    ListedShape(g, log, x);
    forall e | e in log && e.payload.AttemptStarted? && e.payload.execution == x
      ensures exists a | a in list :: a.started == e
    {
      assert e.payload.attemptId in Started(log);
      var a := g.attempts[e.payload.attemptId];
      OneStart(log, e, a.started);
      assert a in list;
    }
    forall a | a in list
      ensures forall f :: a.finished == Some(f) <==> f in log && Ends(f, a.attemptId)
      ensures a.finished.Some? ==> a.finished.value.payload.AttemptFinished?
      ensures a.finished.Some? ==> a.status == Some(a.finished.value.payload.status) && a.expected == a.finished.value.payload.expected
      ensures a.finished.None? ==> a.status.None?
    {
      EndRead(es, log, a);
    }
  }

  lemma FinishedRead(log: seq<Event>, x: string, list: seq<Attempt>)
    requires Faces(log, x, list)
    ensures (forall a | a in list :: a.finished.Some?) <==> forall a | a in list :: a.attemptId in Finished(log)
  {
    forall a | a in list ensures a.finished.Some? <==> a.attemptId in Finished(log) {
      if a.finished.Some? { assert a.finished == Some(a.finished.value); }
      if f :| f in log && f.payload.AttemptFinished? && f.payload.attemptId == a.attemptId { assert Ends(f, a.attemptId); }
    }
  }

  lemma IdentityRead(sessions: map<string, SessionFacts>, x: string, list: seq<Attempt>, t: TestExecution)
    requires list != [] && Execution(sessions, x, list) == Ok(t)
    ensures t.executionId == x && t.attempts == list && forall a | a in list :: t.identity == a.identity
    ensures t.complete == (forall a | a in list :: a.finished.Some?)
    ensures t.finalStatus == list[|list| - 1].status && t.flaky == IsFlaky(list)
  {
    hide IsFlaky, RunnerIn;
  }

  lemma ExecutionRepresents(es: seq<Event>, log: seq<Event>, x: string, t: TestExecution)
    requires Lawful(log) && StartsReadFirst(log) && ReadingOf(es, log) && Listed(Gather(es), x) != []
    requires Execution(Gather(es).sessions, x, Listed(Gather(es), x)) == Ok(t)
    ensures t.executionId == x && Represents(log, t)
  {
    hide Lawful, Gather, Listed, StartsReadFirst, ReadingOf, IsFlaky, FlakyIn, Execution, Faces;
    var list := Listed(Gather(es), x);
    ListedFaces(es, log, x);
    FlakyMeans(log, x, list);
    ExecutionClear(es, log, x);
    FinishedRead(log, x, list);
    IdentityRead(Gather(es).sessions, x, list, t);
  }

  /** An execution that states what the log states has read the start of its attempts first. */
  lemma RepresentsReadsFirst(es: seq<Event>, log: seq<Event>, t: TestExecution, x: Event, y: Event)
    requires Lawful(log) && ReadingOf(es, log) && Represents(log, t) && t.attempts == Listed(Gather(es), t.executionId)
    requires x in log && y in log && x.payload.AttemptStarted? && x.payload.execution == t.executionId && Ends(y, x.payload.attemptId)
    ensures PositionLe(x, y)
  {
    hide PositionLe, Lawful, Gather, Listed, ReadingOf, IsFlaky, FlakyIn;
    ReadingTabled(es, log);
    ListedShape(Gather(es), log, t.executionId);
    var a :| a in t.attempts && a.started == x;
    assert a.attemptId == x.payload.attemptId;
    EndRead(es, log, a);
    assert a.finished == Some(y);
  }

  /** Every execution of a run is projected, once, and in order of its id. */
  ghost predicate AllProjected(log: seq<Event>, ts: seq<TestExecution>) {
    && (forall x :: x in Lifecycle.Executions(log) <==> exists t | t in ts :: t.executionId == x)
    && (forall i, j | 0 <= i < j < |ts| :: ts[i].executionId != ts[j].executionId && LexLe(ts[i].executionId, ts[j].executionId))
  }

  lemma ProjectedIds(project: string, locator: string, log: seq<Event>, summary: Summary)
    requires Lawful(log) && Known(log) != []
    ensures var r := ProjectRun(project, locator, log, summary);
            && r.Ok? && r.value.Some?
            && AllProjected(log, r.value.value.executions)
            && forall t | t in r.value.value.executions ::
                 && Listed(Gather(Ordered(Known(log))), t.executionId) != []
                 && t.attempts == Listed(Gather(Ordered(Known(log))), t.executionId)
                 && Execution(Gather(Ordered(Known(log))).sessions, t.executionId, t.attempts) == Ok(t)
  {
    hide Lawful, Gather, Listed, ReadingOf, ProjectRun, SortedSet, Known, Ordered, ExecutionIds, Execution, LexLe;
    NeverAmbiguous(project, locator, log, summary);
    var es := Ordered(Known(log));
    var ts := ProjectRun(project, locator, log, summary).value.value.executions;
    ReadLog(log);
    ReadingTabled(es, log);
    var g := Gather(es);
    var ids := SortedSet(ExecutionIds(g.attempts, g.order));
    SortedSetShape(ExecutionIds(g.attempts, g.order));
    forall k | 0 <= k < |ids| ensures ts[k].executionId == ids[k] && ts[k].attempts == Listed(g, ids[k]) {
      IdentityRead(g.sessions, ids[k], Listed(g, ids[k]), ts[k]);
    }
    forall x ensures x in Lifecycle.Executions(log) <==> exists t | t in ts :: t.executionId == x {
      IdsListed(g, log, x);
      if x in Lifecycle.Executions(log) {
        var k :| 0 <= k < |ids| && ids[k] == x;
        assert ts[k] in ts;
      }
    }
  }

  /**
   * The projection of a valid run always has every execution once, in order of its id. What it says
   * of them is what the events say, of all of them, exactly when every attempt's start stands
   * before its end in the reading order.
   */
  lemma ProjectionFaithful(project: string, locator: string, log: seq<Event>, summary: Summary)
    requires Lawful(log) && Known(log) != []
    ensures var r := ProjectRun(project, locator, log, summary);
            && r.Ok? && r.value.Some?
            && AllProjected(log, r.value.value.executions)
            && ((forall t | t in r.value.value.executions :: Represents(log, t)) <==> StartsReadFirst(log))
  {
    hide Lawful, Gather, Listed, ReadingOf, Represents, ProjectRun, Known, Ordered, Execution, LexLe, PositionLe;
    ProjectedIds(project, locator, log, summary);
    var es := Ordered(Known(log));
    var ts := ProjectRun(project, locator, log, summary).value.value.executions;
    ReadLog(log);
    if StartsReadFirst(log) {
      forall t | t in ts ensures Represents(log, t) { ExecutionRepresents(es, log, t.executionId, t); }
    }
    if forall t | t in ts :: Represents(log, t) {
      forall x, y | x in log && y in log && x.payload.AttemptStarted? && Ends(y, x.payload.attemptId) ensures PositionLe(x, y) {
        assert x.payload.execution in Lifecycle.Executions(log);
        var t :| t in ts && t.executionId == x.payload.execution;
        RepresentsReadsFirst(es, log, t, x, y);
      }
    }
  }
}
