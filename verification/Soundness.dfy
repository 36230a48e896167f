/**
What a valid report says about the events behind it.
*/
module Soundness {
  import opened Protocol
  import opened Validator
  import opened Lifecycle

  // ---------------------------------------------------------------- streams of events

  /** Each event follows lawfully on `log` and the ones before it. */
  predicate Continues(log: seq<Event>, es: seq<Event>) {
    es == [] || (Continues(log, es[..|es| - 1]) && Admissible(log + es[..|es| - 1], es[|es| - 1]))
  }

  predicate Lawful(log: seq<Event>) {
    Continues([], log)
  }

  function FileAfter(f: FileState, es: seq<Event>): FileState {
    if es == [] then f
    else
      var g := FileAfter(f, es[..|es| - 1]);
      Entered(g, es[|es| - 1]).(closedHere := g.closedHere || es[|es| - 1].payload.RunFinished?)
  }

  /** The stream stays in the session of its file and ends with a run it closes. */
  predicate FitsFile(f: FileState, es: seq<Event>) {
    es == [] ||
    (var g := FileAfter(f, es[..|es| - 1]);
     FitsFile(f, es[..|es| - 1]) && !Mixed(g, es[|es| - 1]) && !g.closedHere)
  }

  lemma StepExact(x: At, log: seq<Event>, e: Event)
    requires Inv(x.core, log) && x.core.errors == []
    ensures Step(x, e).core.errors == [] <==> Admissible(log, e) && !Mixed(x.file, e) && !x.file.closedHere
    ensures Step(x, e).core.errors == [] ==> Inv(Step(x, e).core, log + [e])
    ensures Step(x, e).core.errors == [] ==>
              Step(x, e).file == Entered(x.file, e).(closedHere := x.file.closedHere || e.payload.RunFinished?)
  {
    FaultsExact(x.core, x.file, log, e);
    if Step(x, e).core.errors == [] {
      InvKept(x.core, x.file, log, e);
      CleanUpdate(x.core, x.file, e);
      assert Step(x, e).core == Updated(x.core, x.file, e);
    }
  }

  lemma ErrorsStay(x: At, e: Event)
    ensures Step(x, e).core.errors == [] ==> x.core.errors == []
  {
  }

  /** A stream draws no error exactly when it is lawful and keeps to its file. */
  lemma {:induction false} RunExact(x: At, log: seq<Event>, es: seq<Event>)
    requires Inv(x.core, log) && x.core.errors == []
    ensures Run(x, es).core.errors == [] <==> Continues(log, es) && FitsFile(x.file, es)
    ensures Run(x, es).core.errors == [] ==> Inv(Run(x, es).core, log + es) && Run(x, es).file == FileAfter(x.file, es)
  {
    hide Step, Inv, Admissible;
    if es == [] {
      assert log + es == log;
    } else {
      var before, e := es[..|es| - 1], es[|es| - 1];
      assert log + before + [e] == log + es;
      RunExact(x, log, before);
      ErrorsStay(Run(x, before), e);
      if Run(x, before).core.errors == [] {
        StepExact(Run(x, before), log + before, e);
      }
    }
  }

  // ---------------------------------------------------------------- what a lawful log looks like

  lemma {:induction false} LawfulAt(log: seq<Event>, i: nat)
    requires Lawful(log) && i < |log|
    ensures Lawful(log[..i]) && Admissible(log[..i], log[i])
    decreases |log|
  {
    var before := log[..|log| - 1];
    assert [] + before == before;
    if i < |before| {
      LawfulAt(before, i);
      assert before[..i] == log[..i];
    }
  }

  ghost predicate WellNumbered(es: seq<Event>) {
    && (forall i | 0 <= i < |es| :: es[i].sequence == i + 1 && (es[i].payload.SessionStarted? <==> i == 0))
    && (forall i, j | 0 <= i < j < |es| :: es[i].payload.SessionFinished? ==> es[j].payload.RunFinished?)
  }

  lemma NumberedSnoc(es: seq<Event>, e: Event)
    requires WellNumbered(es) && e.sequence == |es| + 1 && (e.payload.SessionStarted? <==> es == [])
    requires (exists x | x in es :: x.payload.SessionFinished?) ==> e.payload.RunFinished?
    ensures WellNumbered(es + [e])
  {
    forall i, j | 0 <= i < j < |es + [e]| && (es + [e])[i].payload.SessionFinished?
      ensures (es + [e])[j].payload.RunFinished?
    {
      assert (es + [e])[i] == es[i] && es[i] in es;
    }
  }

  /**
   * The events of a session are numbered 1, 2, 3, ... from its only session.started, and nothing
   * but run.finished follows its session.finished.
   */
  lemma {:induction false} SessionsAreNumbered(log: seq<Event>, s: string)
    requires Lawful(log)
    ensures WellNumbered(Of(log, s))
  {
    if log != [] {
      var before, e := log[..|log| - 1], log[|log| - 1];
      LawfulAt(log, |log| - 1);
      SessionsAreNumbered(before, s);
      if e.sessionId == s {
        OfMembers(before, s);
        NumberedSnoc(Of(before, s), e);
      }
    }
  }

  /** Event ids are not reused, and every event names one run. */
  lemma IdentifiersAreUnique(log: seq<Event>, i: nat, j: nat)
    requires Lawful(log) && i < j < |log|
    ensures log[i].eventId != log[j].eventId && log[i].runId == log[j].runId
    ensures !(log[i].payload.RunFinished? && log[j].payload.RunFinished?)
    ensures log[i].payload.AttemptStarted? && log[j].payload.AttemptStarted? ==>
              log[i].payload.attemptId != log[j].payload.attemptId
    ensures log[i].payload.AttemptFinished? && log[j].payload.AttemptFinished? ==>
              log[i].payload.attemptId != log[j].payload.attemptId
  {
    LawfulAt(log, j);
    assert log[i] in log[..j];
  }

  /** A finished attempt has no step left open. */
  lemma {:induction false} FinishedAttemptsAreDone(log: seq<Event>, a: string)
    requires Lawful(log) && a in Finished(log)
    ensures StepsStarted(log, a) <= StepsFinished(log, a)
  {
    var before, e := log[..|log| - 1], log[|log| - 1];
    assert log == before + [e];
    LawfulAt(log, |log| - 1);
    StartedSnoc(before, e);
    StepsSnoc(before, e, a);
    if a in Finished(before) {
      FinishedAttemptsAreDone(before, a);
    }
  }

  /** Steps, attachments and the end of an attempt fall between its start and its end. */
  lemma InsideTheirAttempt(log: seq<Event>, i: nat)
    requires Lawful(log) && i < |log|
    requires var p := log[i].payload; p.StepStarted? || p.StepFinished? || p.AttachmentAdded? || p.AttemptFinished?
    ensures log[i].payload.attemptId in Started(log[..i]) && log[i].payload.attemptId !in Finished(log[..i])
  {
    LawfulAt(log, i);
    if log[i].payload.StepFinished? && log[i].payload.attemptId in Finished(log[..i]) {
      FinishedAttemptsAreDone(log[..i], log[i].payload.attemptId);
    }
  }

  lemma {:induction false} RunnerStays(log: seq<Event>, more: seq<Event>, s: string)
    requires Of(log, s) != []
    ensures RunnerOf(log + more, s) == RunnerOf(log, s)
    ensures Of(log + more, s) != []
  {
    if more == [] {
      assert log + more == log;
    } else {
      var before, e := more[..|more| - 1], more[|more| - 1];
      RunnerStays(log, before, s);
      assert log + more == log + before + [e];
      RunnerSnoc(log + before, e, s);
      OfSnoc(log + before, e, s);
    }
  }

  /** The attempts of one execution have distinct numbers, one history identity and one runner. */
  lemma ExecutionsAreOneTest(log: seq<Event>, i: nat, j: nat)
    requires Lawful(log) && i < j < |log|
    requires log[i].payload.AttemptStarted? && log[j].payload.AttemptStarted?
    requires log[i].payload.execution == log[j].payload.execution
    ensures log[i].payload.number != log[j].payload.number
    ensures log[i].payload.identity == log[j].payload.identity
    ensures RunnerOf(log, log[i].sessionId) == RunnerOf(log, log[j].sessionId)
    ensures log[i].payload.identity.historicalId.Some? ==> RunnerOf(log, log[i].sessionId).Some?
  {
    LawfulAt(log, j);
    assert log[i] in log[..j];
    assert log == log[..j] + log[j..];
    OfMembers(log[..j], log[i].sessionId);
    assert log[i] in Of(log[..j], log[i].sessionId);
    RunnerStays(log[..j], log[j..], log[i].sessionId);
    RunnerStays(log[..j], log[j..], log[j].sessionId);
  }

  /** When a session has finished, so has every attempt it started. */
  lemma {:induction false} ClosedSessionsAreDone(log: seq<Event>, x: Event)
    requires Lawful(log) && x in log && x.payload.AttemptStarted? && SessionClosed(log, x.sessionId)
    ensures x.payload.attemptId in Finished(log)
  {
    var before, e := log[..|log| - 1], log[|log| - 1];
    assert log == before + [e];
    LawfulAt(log, |log| - 1);
    StartedSnoc(before, e);
    ClosedSnoc(before, e, x.sessionId);
    if x in before && SessionClosed(before, x.sessionId) {
      ClosedSessionsAreDone(before, x);
    }
  }

  /** In a lawful run, completeness is a matter of sessions alone. */
  lemma CompleteWhenSessionsFinish(c: Core, log: seq<Event>)
    requires Inv(c, log) && Lawful(log)
    ensures Complete(c) <==> SessionsFinished(c)
  {
    if SessionsFinished(c) {
      forall a | a in c.attempts ensures AttemptDone(c.attempts[a]) {
        var x :| x in log && x.payload.AttemptStarted? && x.payload.attemptId == a;
        OfMembers(log, x.sessionId);
        assert x in Of(log, x.sessionId);
        ClosedSessionsAreDone(log, x);
        FinishedAttemptsAreDone(log, a);
      }
    }
  }

  // ---------------------------------------------------------------- lines and files

  /** The events the lines add to a log: each decoded event that is not in it yet, once. */
  function New(log: seq<Event>, lines: seq<Line>): seq<Event> {
    if lines == [] then []
    else
      var before := New(log, lines[..|lines| - 1]);
      var line := lines[|lines| - 1];
      if line.Decoded? && line.event !in log && line.event !in before then before + [line.event] else before
  }

  predicate Readable(lines: seq<Line>) {
    forall line | line in lines :: !line.Rejected?
  }

  lemma RunSnoc(x: At, es: seq<Event>, e: Event)
    ensures Run(x, es + [e]) == Step(Run(x, es), e)
  {
    assert (es + [e])[..|es|] == es;
  }

  lemma ReadLineCases(y: At, line: Line)
    ensures y.file.abandoned || line.Blank? || Repeated(y.core, line) ==> ReadLine(y, line) == y
    ensures !y.file.abandoned && line.Decoded? && !Repeated(y.core, line) ==> ReadLine(y, line) == Step(y, line.event)
    ensures !y.file.abandoned && line.Rejected? ==> ReadLine(y, line).core.errors != []
    ensures ReadLine(y, line).core.errors == [] ==> y.core.errors == []
  {
  }

  lemma RepeatedInLog(c: Core, log: seq<Event>, line: Line)
    requires Inv(c, log) && line.Decoded?
    ensures Repeated(c, line) <==> line.event in log
  {
  }

  lemma NotAbandoned(f: FileState, es: seq<Event>)
    ensures FileAfter(f, es).abandoned == f.abandoned
  {
  }

  /**
   * Reading lines is running the new events among them: blank lines and repetitions leave no
   * trace, and a line that cannot be decoded is an error.
   */
  lemma {:induction false} ReadExact(x: At, log: seq<Event>, lines: seq<Line>)
    requires Inv(x.core, log) && x.core.errors == [] && !x.file.abandoned
    ensures Read(x, lines).core.errors == [] <==> Readable(lines) && Run(x, New(log, lines)).core.errors == []
    ensures Read(x, lines).core.errors == [] ==> Read(x, lines) == Run(x, New(log, lines))
  {
    hide Step, Inv, Admissible;
    if lines != [] {
      var before, line := lines[..|lines| - 1], lines[|lines| - 1];
      assert forall l :: l in lines <==> l in before || l == line;
      ReadExact(x, log, before);
      var y, es := Read(x, before), New(log, before);
      ReadLineCases(y, line);
      if line.Decoded? { RunSnoc(x, es, line.event); ErrorsStay(Run(x, es), line.event); }
      if Run(x, es).core.errors == [] && Readable(before) {
        RunExact(x, log, es);
        NotAbandoned(x.file, es);
        if line.Decoded? { RepeatedInLog(y.core, log + es, line); }
      }
    }
  }

  /** The log of a run directory: every distinct decoded event, where it first stands. */
  function Logged(files: seq<File>): seq<Event> {
    if files == [] then []
    else
      var before := Logged(files[..|files| - 1]);
      before + New(before, files[|files| - 1].lines)
  }

  /** What the last file adds to the log. */
  function Block(files: seq<File>): seq<Event>
    requires files != []
  {
    New(Logged(files[..|files| - 1]), files[|files| - 1].lines)
  }

  /** Each file is readable, follows lawfully on the ones before it and is the file of one session. */
  predicate LawfulRun(files: seq<File>) {
    files == [] ||
    (&& LawfulRun(files[..|files| - 1])
     && Readable(files[|files| - 1].lines)
     && Continues(Logged(files[..|files| - 1]), Block(files))
     && FitsFile(SESSION_FILE, Block(files)))
  }

  lemma {:induction false} ReadKeepsErrors(x: At, lines: seq<Line>)
    ensures Read(x, lines).core.errors == [] ==> x.core.errors == []
  {
    if lines != [] {
      ReadKeepsErrors(x, lines[..|lines| - 1]);
      ReadLineCases(Read(x, lines[..|lines| - 1]), lines[|lines| - 1]);
    }
  }

  lemma {:induction false} ContinuesJoin(log: seq<Event>, a: seq<Event>, b: seq<Event>)
    ensures Continues(log, a + b) <==> Continues(log, a) && Continues(log + a, b)
  {
    if b == [] {
      assert a + b == a;
    } else {
      var before := b[..|b| - 1];
      ContinuesJoin(log, a, before);
      assert (a + b)[..|a + b| - 1] == a + before;
      assert log + (a + before) == log + a + before;
    }
  }

  lemma EmptyInv()
    ensures Inv(EMPTY, [])
  {
    forall s ensures s in EMPTY.sessions <==> Of([], s) != [] {}
  }

  /**
   * The validator decides the specification: a run directory is fed without error exactly when
   * it is lawful, and then the validator's state is tied to the log.
   */
  lemma {:induction false} FedExact(files: seq<File>)
    ensures FeedAll(FRESH, files).core.errors == [] <==> LawfulRun(files)
    ensures LawfulRun(files) ==> Lawful(Logged(files)) && Inv(FeedAll(FRESH, files).core, Logged(files))
  {
    if files == [] {
      EmptyInv();
    } else {
      var before, last := files[..|files| - 1], files[|files| - 1];
      var x := At(FeedAll(FRESH, before).core, SESSION_FILE);
      ReadKeepsErrors(x, last.lines);
      FedExact(before);
      if LawfulRun(before) {
        ReadExact(x, Logged(before), last.lines);
        RunExact(x, Logged(before), Block(files));
        ContinuesJoin([], Logged(before), Block(files));
        assert [] + Logged(before) == Logged(before);
      }
    }
  }

  /** A valid report is complete exactly when every session finished, and complete when closed. */
  lemma ValidReports(files: seq<File>)
    requires Valid(FeedAll(FRESH, files).core)
    ensures Lawful(Logged(files)) && Inv(FeedAll(FRESH, files).core, Logged(files))
    ensures Complete(FeedAll(FRESH, files).core) <==> SessionsFinished(FeedAll(FRESH, files).core)
    ensures FeedAll(FRESH, files).core.closed ==> Complete(FeedAll(FRESH, files).core)
  {
    FedExact(files);
    CompleteWhenSessionsFinish(FeedAll(FRESH, files).core, Logged(files));
  }
}
