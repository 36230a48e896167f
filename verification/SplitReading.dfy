/**
Why the projection needs every start read before its end: the same split run, its first session named
to sort after the one that ends the attempt. It is valid and complete, the attempt has ended, and the
projection says that it never did.
*/
module SplitReading {
  import opened Protocol
  import opened Validator
  import opened Lifecycle
  import opened Soundness
  import opened SplitSession
  import opened P = Projection
  import opened ProjectionMeaning

  /** The start stands after the end. */
  lemma EndStandsFirst()
    ensures !PositionLe(A2("Z"), B2)
  {
  }

  lemma SplitLogMembers()
    ensures A2("Z") in SplitLog("Z") && B2 in SplitLog("Z") && !B2.payload.Unknown?
    ensures forall e | e in SplitLog("Z") && e.payload.AttemptStarted? :: e == A2("Z")
    ensures forall e | e in SplitLog("Z") && Ends(e, "t") :: e == B2
  {
  }

  lemma SplitEvents()
    ensures Lawful(Logged(Split("Z"))) && Known(Logged(Split("Z"))) != []
    ensures A2("Z") in Logged(Split("Z")) && B2 in Logged(Split("Z"))
    ensures forall e | e in Logged(Split("Z")) && e.payload.AttemptStarted? :: e == A2("Z")
    ensures forall e | e in Logged(Split("Z")) && Ends(e, "t") :: e == B2
  {
    SplitLogMembers();
    hide Lawful, Known, Logged, Of, Split, SplitLog, A1, A2, A3;
    SplitLogged("Z");
    LastOne("Z");
    KnownMembers(SplitLog("Z"));
  }

  /** The projected attempt has no end, although the log has one. */
  lemma EndDropped()
    ensures var log := Logged(Split("Z"));
            && "t" in Finished(log)
            && Gather(Ordered(Known(log))).attempts.Keys == {"t"}
            && Gather(Ordered(Known(log))).attempts["t"].finished.None?
            && Gather(Ordered(Known(log))).attempts["t"].status.None?
  {
    hide Lawful, Known, Logged, Gather, Ordered, ReadingOf, Split, A1, A3;
    var log := Logged(Split("Z"));
    SplitEvents();
    EndStandsFirst();
    ReadLog(log);
    var es := Ordered(Known(log));
    ReadingTabled(es, log);
    assert Started(log) == {"t"};
    EndRead(es, log, Gather(es).attempts["t"]);
  }

  /**
   * The input that shows it: the run is valid and complete and attempt "t" has finished, yet the
   * projection, and so the history and the index, call its execution unfinished and without status.
   */
  lemma SplitEndIsDropped(project: string, locator: string)
    ensures Valid(FeedAll(FRESH, Split("Z")).core) && Complete(FeedAll(FRESH, Split("Z")).core)
    ensures var log := Logged(Split("Z"));
            var r := ProjectRun(project, locator, log, Summarize(FeedAll(FRESH, Split("Z"))));
            && "t" in Finished(log) && !StartsReadFirst(log)
            && r.Ok? && r.value.Some?
            && exists t | t in r.value.value.executions :: t.executionId == "x" && !t.complete && t.finalStatus.None?
  {
    hide Lawful, Known, Logged, Gather, Ordered, FeedAll, Complete, Summarize, Listed, ProjectRun, Split, A1, A3, Execution, LawfulRun, Inv;
    SplitValid();
    var log := Logged(Split("Z"));
    SplitEvents();
    EndDropped();
    EndStandsFirst();
    var summary := Summarize(FeedAll(FRESH, Split("Z")));
    ProjectedIds(project, locator, log, summary);
    var g, ts := Gather(Ordered(Known(log))), ProjectRun(project, locator, log, summary).value.value.executions;
    assert "x" in Lifecycle.Executions(log);
    var t :| t in ts && t.executionId == "x";
    ReadLog(log);
    ReadingTabled(Ordered(Known(log)), log);
    ListedShape(g, log, "x");
    IdentityRead(g.sessions, "x", t.attempts, t);
    assert t.attempts[|t.attempts| - 1] in t.attempts;
  }

  lemma SplitValid()
    ensures Valid(FeedAll(FRESH, Split("Z")).core) && Complete(FeedAll(FRESH, Split("Z")).core)
  {
    SplitSessionFailsReplay("Z", e => "", s => "");
  }
}
