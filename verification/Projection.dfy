/**
The projector: the accepted events of a valid run read into sessions, executions and attempts.
*/
module Projection {
  import opened Protocol
  import opened Validator
  import opened Lifecycle
  import opened Soundness
  import opened Meaning
  import opened Sorting
  import Archive

  // ---------------------------------------------------------------- reading order

  /** By session id, then by sequence. */
  predicate PositionLe(a: Event, b: Event) {
    if a.sessionId != b.sessionId then LexLe(a.sessionId, b.sessionId) else a.sequence <= b.sequence
  }

  function Ordered(events: seq<Event>): seq<Event> {
    Sort(events, PositionLe)
  }

  /** The events of a known type; the others are archived and never projected. */
  function Known(events: seq<Event>): seq<Event> {
    if events == [] then []
    else Known(events[..|events| - 1]) + (if events[|events| - 1].payload.Unknown? then [] else [events[|events| - 1]])
  }

  lemma PositionTotal()
    ensures Total(PositionLe)
  {
    forall a, b ensures PositionLe(a, b) || PositionLe(b, a) { LexTotal(a.sessionId, b.sessionId); }
    forall a, b, c | PositionLe(a, b) && PositionLe(b, c) ensures PositionLe(a, c) {
      LexTotal(a.sessionId, b.sessionId);
      if LexLe(a.sessionId, b.sessionId) && LexLe(b.sessionId, c.sessionId) {
        LexTransitive(a.sessionId, b.sessionId, c.sessionId);
      }
    }
  }

  /** Session and sequence tell the events apart. */
  ghost predicate Positioned(events: seq<Event>) {
    forall i, j | 0 <= i < j < |events| :: events[i].sessionId != events[j].sessionId || events[i].sequence != events[j].sequence
  }

  lemma OrderedShape(events: seq<Event>)
    requires Positioned(events)
    ensures Strict(Ordered(events), PositionLe)
    ensures multiset(Ordered(events)) == multiset(events) && |Ordered(events)| == |events|
    ensures forall e :: e in Ordered(events) <==> e in events
  {
    hide Sort;
    PositionTotal();
    SortSorts(events, PositionLe);
    SortKeeps(events, PositionLe);
    var r := Ordered(events);
    MultisetDistinct(events, r);
    forall i, j | 0 <= i < j < |r| ensures PositionLe(r[i], r[j]) && !PositionLe(r[j], r[i]) {
      assert r[i] in events && r[j] in events && r[i] != r[j];
      LexTotal(r[i].sessionId, r[j].sessionId);
    }
  }

  lemma LawfulPositioned(log: seq<Event>)
    requires Lawful(log)
    ensures Positioned(log)
  {
    forall i, j | 0 <= i < j < |log| && log[i].sessionId == log[j].sessionId ensures log[i].sequence != log[j].sequence {
      LawfulAt(log, j);
      var before, s := log[..j], log[j].sessionId;
      SessionsAreNumbered(before, s);
      OfMembers(before, s);
      assert log[i] in Of(before, s);
    }
  }

  lemma {:induction false} KnownMembers(events: seq<Event>)
    ensures forall e :: e in Known(events) <==> e in events && !e.payload.Unknown?
  {
    if events != [] {
      KnownMembers(events[..|events| - 1]);
      assert events == events[..|events| - 1] + [events[|events| - 1]];
    }
  }

  lemma {:induction false} KnownPositioned(events: seq<Event>)
    requires Positioned(events)
    ensures Positioned(Known(events))
  {
    if events != [] {
      var before, last := events[..|events| - 1], events[|events| - 1];
      KnownPositioned(before);
      KnownMembers(before);
      var known := Known(before);
      forall i | 0 <= i < |known| ensures known[i].sessionId != last.sessionId || known[i].sequence != last.sequence {
        assert known[i] in before;
        var k :| 0 <= k < |before| && before[k] == known[i];
        assert events[k] == known[i] && events[|before|] == last;
      }
    }
  }

  /** The reading order of a run depends only on which events it has. */
  lemma SameEventsSameOrder(a: seq<Event>, b: seq<Event>)
    requires Lawful(a) && Lawful(b) && SameEvents(a, b)
    ensures Ordered(Known(a)) == Ordered(Known(b))
  {
    hide Sort, Lawful, Known;
    LawfulPositioned(a);
    LawfulPositioned(b);
    KnownPositioned(a);
    KnownPositioned(b);
    KnownMembers(a);
    KnownMembers(b);
    OrderedShape(Known(a));
    OrderedShape(Known(b));
    StrictUnique(Ordered(Known(a)), Ordered(Known(b)), PositionLe);
  }

  // ---------------------------------------------------------------- gathering facts

  datatype StepFacts = StepFacts(started: Event, stepId: string, finished: Option<Event>)

  datatype Attempt = Attempt(
    started: Event, attemptId: string, number: int, execution: string, identity: Identity,
    finished: Option<Event>, status: Option<Status>, expected: Option<Status>,
    steps: seq<StepFacts>, attachments: seq<Event>)

  datatype SessionFacts = SessionFacts(
    started: Event, runner: Option<string>, finished: Option<Event>, status: Option<SessionStatus>, executions: seq<string>)

  /** Facts by session and by attempt; `order` is the order in which the attempts were first met. */
  datatype Gathered = Gathered(
    sessions: map<string, SessionFacts>, attempts: map<string, Attempt>, order: seq<string>,
    scopeFailures: seq<Event>, attachments: seq<Event>)

  const NOTHING := Gathered(map[], map[], [], [], [])

  /** Ends the step last started under the id; a step never started is ignored. */
  function FinishStep(steps: seq<StepFacts>, id: string, e: Event): seq<StepFacts> {
    if steps == [] then []
    else
      var last := steps[|steps| - 1];
      if last.stepId == id then steps[..|steps| - 1] + [last.(finished := Some(e))]
      else FinishStep(steps[..|steps| - 1], id, e) + [last]
  }

  function GatherSession(sessions: map<string, SessionFacts>, e: Event): map<string, SessionFacts> {
    match e.payload
    case SessionStarted(runner) => sessions[e.sessionId := SessionFacts(e, runner, None, None, [])]
    case SessionFinished(outcome, _, _) =>
      if e.sessionId !in sessions then sessions
      else sessions[e.sessionId := sessions[e.sessionId].(finished := Some(e), status := outcome)]
    case AttemptStarted(_, _, x, _) =>
      if e.sessionId !in sessions || x in sessions[e.sessionId].executions then sessions
      else sessions[e.sessionId := sessions[e.sessionId].(executions := sessions[e.sessionId].executions + [x])]
    case _ => sessions
  }

  function GatherAttempt(attempts: map<string, Attempt>, e: Event): map<string, Attempt> {
    match e.payload
    case AttemptStarted(a, n, x, identity) => attempts[a := Attempt(e, a, n, x, identity, None, None, None, [], [])]
    case AttemptFinished(a, status, expected) =>
      if a !in attempts then attempts
      else attempts[a := attempts[a].(finished := Some(e), status := Some(status), expected := expected)]
    case StepStarted(a, s, _) =>
      if a !in attempts then attempts
      else attempts[a := attempts[a].(steps := attempts[a].steps + [StepFacts(e, s, None)])]
    case StepFinished(a, s) =>
      if a !in attempts then attempts
      else attempts[a := attempts[a].(steps := FinishStep(attempts[a].steps, s, e))]
    case AttachmentAdded(a, _, _, _) =>
      if a !in attempts then attempts
      else attempts[a := attempts[a].(attachments := attempts[a].attachments + [e])]
    case _ => attempts
  }

  function GatherEvent(g: Gathered, e: Event): Gathered {
    Gathered(GatherSession(g.sessions, e), GatherAttempt(g.attempts, e),
             if e.payload.AttemptStarted? && e.payload.attemptId !in g.order then g.order + [e.payload.attemptId] else g.order,
             if e.payload.ScopeFailed? then g.scopeFailures + [e] else g.scopeFailures,
             if e.payload.AttachmentAdded? then g.attachments + [e] else g.attachments)
  }

  function Gather(es: seq<Event>): Gathered {
    if es == [] then NOTHING else GatherEvent(Gather(es[..|es| - 1]), es[|es| - 1])
  }

  // ---------------------------------------------------------------- executions

  datatype TestExecution = TestExecution(
    executionId: string, runnerName: Option<string>, identity: Identity, attempts: seq<Attempt>,
    complete: bool, finalStatus: Option<Status>, flaky: bool)

  datatype Ambiguity = DuplicateNumber(executionId: string) | IdentityChanged(executionId: string) | RunnerChanged(executionId: string)

  datatype Result<+T> = Ok(value: T) | Ambiguous(detail: Ambiguity)

  predicate NumberLe(a: Attempt, b: Attempt) {
    a.number <= b.number
  }

  /** The attempts of one execution, as they were met. */
  function AttemptsIn(attempts: map<string, Attempt>, order: seq<string>, x: string): seq<Attempt> {
    if order == [] then []
    else
      var id := order[|order| - 1];
      AttemptsIn(attempts, order[..|order| - 1], x)
      + (if id in attempts && attempts[id].execution == x then [attempts[id]] else [])
  }

  function RunnerIn(sessions: map<string, SessionFacts>, s: string): Option<string> {
    if s in sessions then sessions[s].runner else None
  }

  predicate Expected(a: Attempt, status: Status) {
    a.expected == Some(status) || (a.expected == None && status == Passed)
  }

  /** The attempt with the highest number, the first of equals. */
  function FinalOf(list: seq<Attempt>): Attempt
    requires list != []
  {
    if |list| == 1 then list[0]
    else
      var before := FinalOf(list[..|list| - 1]);
      if list[|list| - 1].number > before.number then list[|list| - 1] else before
  }

  predicate IsFlaky(list: seq<Attempt>) {
    && |list| >= 2
    && (var final := FinalOf(list);
        && final.finished.Some? && final.status == Some(Passed) && Expected(final, Passed)
        && exists a | a in list :: a != final && a.finished.Some? && a.status == Some(Failed) && Expected(a, Passed))
  }

  function Execution(sessions: map<string, SessionFacts>, x: string, list: seq<Attempt>): Result<TestExecution>
    requires list != []
  {
    if exists i | 0 < i < |list| :: list[i - 1].number == list[i].number then Ambiguous(DuplicateNumber(x))
    else if exists i | 0 <= i < |list| :: list[i].identity != list[0].identity then Ambiguous(IdentityChanged(x))
    else if exists i | 0 <= i < |list| ::
              RunnerIn(sessions, list[i].started.sessionId) != RunnerIn(sessions, list[0].started.sessionId) then
      Ambiguous(RunnerChanged(x))
    else
      Ok(TestExecution(x, RunnerIn(sessions, list[0].started.sessionId), list[0].identity, list,
                       forall a | a in list :: a.finished.Some?, list[|list| - 1].status, IsFlaky(list)))
  }

  function ExecutionIds(attempts: map<string, Attempt>, order: seq<string>): seq<string> {
    if order == [] then []
    else
      var id := order[|order| - 1];
      ExecutionIds(attempts, order[..|order| - 1]) + (if id in attempts then [attempts[id].execution] else [])
  }

  /** Every execution by id, or the first contradiction. */
  function Executions(g: Gathered, ids: seq<string>): Result<seq<TestExecution>> {
    if ids == [] then Ok([])
    else
      var before := Executions(g, ids[..|ids| - 1]);
      if before.Ambiguous? then before
      else
        var x := ids[|ids| - 1];
        var list := Sort(AttemptsIn(g.attempts, g.order, x), NumberLe);
        if list == [] then before
        else
          var next := Execution(g.sessions, x, list);
          if next.Ambiguous? then Ambiguous(next.detail) else Ok(before.value + [next.value])
  }

  datatype ProjectedRun = ProjectedRun(
    projectId: string, runId: string, locator: string, complete: bool, closed: bool, verdict: Verdict,
    ignored: nat, duplicates: nat, sessions: map<string, SessionFacts>, executions: seq<TestExecution>,
    scopeFailures: seq<Event>, attachments: seq<Event>)

  function SessionViews(sessions: map<string, SessionFacts>): map<string, SessionFacts> {
    map s | s in sessions :: sessions[s].(executions := SortedSet(sessions[s].executions))
  }

  /** The projection of a validated run, from the events it accepted and its summary. */
  function ProjectRun(projectId: string, locator: string, events: seq<Event>, summary: Summary): Result<Option<ProjectedRun>> {
    var es := Ordered(Known(events));
    if es == [] then Ok(None)
    else
      var g := Gather(es);
      var executions := Executions(g, SortedSet(ExecutionIds(g.attempts, g.order)));
      if executions.Ambiguous? then Ambiguous(executions.detail)
      else Ok(Some(ProjectedRun(projectId, es[0].runId, locator, summary.complete, summary.closed, summary.verdict,
                                summary.counts.ignored, summary.duplicates, SessionViews(g.sessions), executions.value,
                                g.scopeFailures, g.attachments)))
  }

  /** The same projection but for where it was read from and how often lines were repeated. */
  predicate SameProjection(a: ProjectedRun, b: ProjectedRun) {
    a == b.(locator := a.locator, duplicates := a.duplicates)
  }

  ghost predicate SameResult(a: Result<Option<ProjectedRun>>, b: Result<Option<ProjectedRun>>) {
    if a.Ok? && b.Ok? && a.value.Some? && b.value.Some? then SameProjection(a.value.value, b.value.value) else a == b
  }

  /** Two readings of the same events project alike, whatever order they were accepted in. */
  lemma SameEventsSameProjection(project: string, la: string, lb: string, a: seq<Event>, b: seq<Event>, sa: Summary, sb: Summary)
    requires Lawful(a) && Lawful(b) && SameEvents(a, b)
    requires sa == sb.(files := sa.files, duplicates := sa.duplicates)
    ensures SameResult(ProjectRun(project, la, a, sa), ProjectRun(project, lb, b, sb))
  {
    hide Ordered, Known, Lawful, Gather, Executions, SortedSet, ExecutionIds, SessionViews;
    SameEventsSameOrder(a, b);
  }

  /** Fingerprint determines projection: one fingerprint, one projection but for locator and repetitions. */
  lemma FingerprintDeterminesProjection(
    project: string, la: string, lb: string, fs: seq<File>, gs: seq<File>, digest: Event -> string, hash: string -> string, width: nat)
    requires FeedAll(FRESH, fs).core.errors == [] && FeedAll(FRESH, gs).core.errors == []
    requires Archive.GoodDigest(digest, width, Logged(fs), Logged(gs))
    requires var a, b := FeedAll(FRESH, fs).source, FeedAll(FRESH, gs).source;
             hash(Archive.Preimage(a, digest)) == hash(Archive.Preimage(b, digest)) ==> Archive.Preimage(a, digest) == Archive.Preimage(b, digest)
    requires Archive.Fingerprint(FeedAll(FRESH, fs).source, digest, hash) == Archive.Fingerprint(FeedAll(FRESH, gs).source, digest, hash)
    ensures SameResult(ProjectRun(project, la, Logged(fs), Summarize(FeedAll(FRESH, fs))),
                       ProjectRun(project, lb, Logged(gs), Summarize(FeedAll(FRESH, gs))))
  {
    hide FeedAll, Archive.Preimage, Archive.Fingerprint, Logged, Archive.Originals, Summarize, Archive.GoodDigest, ProjectRun;
    Archive.FedSource(fs);
    Archive.FedSource(gs);
    FedExact(fs);
    FedExact(gs);
    Archive.FingerprintExact(FeedAll(FRESH, fs).source, FeedAll(FRESH, gs).source, digest, hash, width);
    Archive.FingerprintDeterminesRun(fs, gs, digest, hash, width);
    SameEventsSameProjection(project, la, lb, Logged(fs), Logged(gs), Summarize(FeedAll(FRESH, fs)), Summarize(FeedAll(FRESH, gs)));
  }
}
