/**
Why replay needs one file per session: a run the validator accepts and replay refuses.

One session starts an attempt, session B ends it, and the first session's own end comes in a second
file of its own. When the first session's name sorts after "B", the projector reads the end before
the start and drops it.
*/
module SplitSession {
  import opened Protocol
  import opened Validator
  import opened Lifecycle
  import opened Soundness
  import opened SessionBlocks
  import opened SessionLocality
  import opened Meaning
  import opened RunFiles
  import opened Replay

  function Made(id: string, session: string, sequence: int, payload: Payload): Event {
    Event(id, "run", session, sequence, "", payload, "")
  }

  function A1(s: string): Event { Made("1", s, 1, SessionStarted(None)) }

  function A2(s: string): Event { Made("2", s, 2, AttemptStarted("t", 1, "x", Identity(None, ""))) }

  function A3(s: string): Event { Made("6", s, 3, SessionFinished(None, None, [])) }

  const B1 := Made("3", "B", 1, SessionStarted(None))
  const B2 := Made("4", "B", 2, AttemptFinished("t", Passed, None))
  const B3 := Made("5", "B", 3, SessionFinished(None, None, []))

  function SplitBlocks(s: string): seq<seq<Event>> {
    [[A1(s), A2(s)], [B1, B2, B3], [A3(s)]]
  }

  function Split(s: string): seq<File> {
    WrittenFiles(["a", "b", "a-again"], SplitBlocks(s))
  }

  function SplitLog(s: string): seq<Event> {
    [A1(s), A2(s), B1, B2, B3, A3(s)]
  }

  lemma LawfulSnoc(log: seq<Event>, e: Event)
    requires Lawful(log) && Admissible(log, e)
    ensures Lawful(log + [e])
  {
    assert (log + [e])[..|log|] == log && [] + log == log;
  }

  /** A log whose first session and B hold the given events. */
  ghost predicate Holds(s: string, log: seq<Event>, a: seq<Event>, b: seq<Event>) {
    Lawful(log) && Of(log, s) == a && Of(log, "B") == b
  }

  lemma Extend(s: string, log: seq<Event>, a: seq<Event>, b: seq<Event>, e: Event)
    requires Holds(s, log, a, b) && Admissible(log, e)
    ensures Holds(s, log + [e], if e.sessionId == s then a + [e] else a, if e.sessionId == "B" then b + [e] else b)
  {
    hide Admissible, Of;
    LawfulSnoc(log, e);
    OfSnoc(log, e, s);
    OfSnoc(log, e, "B");
  }

  lemma FirstOne(s: string)
    requires s != "B"
    ensures Holds(s, [A1(s)], [A1(s)], [])
  {
    OpensLog(A1(s), s);
    OpensLog(A1(s), "B");
  }

  /** A log of one session start. */
  lemma OpensLog(e: Event, s: string)
    requires e.payload.SessionStarted? && e.sequence == 1
    ensures Lawful([e]) && Of([e], s) == if e.sessionId == s then [e] else []
  {
    OfSnoc([], e, s);
    assert [] + [e] == [e];
    EmptyCompatible([]);
    StartsAnywhere(e);
    hide Of, Admissible;
    LawfulSnoc([], e);
  }

  lemma StartsAnywhere(e: Event)
    requires e.payload.SessionStarted? && e.sequence == 1
    ensures Admissible([], e)
  {
  }

  lemma FirstTwo(s: string)
    requires s != "B"
    ensures Holds(s, [A1(s), A2(s)], [A1(s), A2(s)], [])
  {
    hide Lawful, Of;
    FirstOne(s);
    Extend(s, [A1(s)], [A1(s)], [], A2(s));
    assert [A1(s)] + [A2(s)] == [A1(s), A2(s)];
  }

  lemma NextTwo(s: string)
    requires s != "B"
    ensures Holds(s, [A1(s), A2(s), B1, B2], [A1(s), A2(s)], [B1, B2])
  {
    hide Lawful, Of;
    var p, q := [A1(s), A2(s)], [A1(s), A2(s), B1];
    FirstTwo(s);
    Extend(s, p, [A1(s), A2(s)], [], B1);
    assert p + [B1] == q && [] + [B1] == [B1];
    assert A2(s) in q && "t" in Started(q);
    assert Finished(q) == {} && StepsStarted(q, "t") == {};
    Extend(s, q, [A1(s), A2(s)], [B1], B2);
    assert q + [B2] == [A1(s), A2(s), B1, B2] && [B1] + [B2] == [B1, B2];
  }

  lemma NextOne(s: string)
    requires s != "B"
    ensures Holds(s, [A1(s), A2(s), B1, B2, B3], [A1(s), A2(s)], [B1, B2, B3])
  {
    hide Lawful, Of;
    var p := [A1(s), A2(s), B1, B2];
    NextTwo(s);
    assert Admissible(p, B3);
    Extend(s, p, [A1(s), A2(s)], [B1, B2], B3);
    assert p + [B3] == [A1(s), A2(s), B1, B2, B3] && [B1, B2] + [B3] == [B1, B2, B3];
  }

  lemma LastOne(s: string)
    requires s != "B"
    ensures Holds(s, SplitLog(s), [A1(s), A2(s), A3(s)], [B1, B2, B3])
  {
    hide Lawful, Of;
    var q := [A1(s), A2(s), B1, B2, B3];
    NextOne(s);
    assert B2 in q && "t" in Finished(q);
    assert Admissible(q, A3(s));
    Extend(s, q, [A1(s), A2(s)], [B1, B2, B3], A3(s));
    assert q + [A3(s)] == SplitLog(s) && [A1(s), A2(s)] + [A3(s)] == [A1(s), A2(s), A3(s)];
  }

  lemma SplitDistinct(s: string)
    requires s != "B"
    ensures Distinct(SplitLog(s))
  {
  }

  lemma SplitFlat(s: string)
    ensures Flat(SplitBlocks(s)) == SplitLog(s)
  {
    var bs := SplitBlocks(s);
    assert bs[..2][..1][..0] == [] && bs[..2][..1] == bs[..1];
    assert Flat(bs[..1]) == bs[0] && Flat(bs[..2]) == bs[0] + bs[1];
  }

  lemma SplitThree(s: string)
    ensures |SplitBlocks(s)| == 3
  {
  }

  lemma OneSession(es: seq<Event>, s: string)
    requires forall e | e in es :: e.sessionId == s && !e.payload.RunFinished?
    ensures SessionFile(es)
  {
  }

  lemma SplitSessionFiles(s: string)
    ensures forall i | 0 <= i < |SplitBlocks(s)| :: SessionFile(SplitBlocks(s)[i])
  {
    hide SessionFile;
    OneSession([A1(s), A2(s)], s);
    OneSession([B1, B2, B3], "B");
    OneSession([A3(s)], s);
  }

  lemma SplitLogged(s: string)
    requires s != "B"
    ensures Logged(Split(s)) == SplitLog(s)
    ensures Blocks(Split(s)) == SplitBlocks(s)
    ensures LawfulRun(Split(s)) <==> Lawful(SplitLog(s))
  {
    SplitDistinct(s);
    SplitFlat(s);
    SplitSessionFiles(s);
    hide Lawful, Logged, LawfulRun, Blocks, Flat, SplitLog, SessionFile, Distinct, SplitBlocks;
    assert |SplitBlocks(s)| == 3 by { SplitThree(s); }
    WrittenRun(["a", "b", "a-again"], SplitBlocks(s));
  }

  lemma SplitAccepted(s: string)
    requires s != "B"
    ensures LawfulRun(Split(s)) && Closed(Logged(Split(s)))
  {
    SplitClosed(s);
    hide Lawful, Logged, LawfulRun, Blocks, Of, SplitLog, Closed;
    SplitLogged(s);
    LastOne(s);
  }

  lemma SplitClosed(s: string)
    ensures Closed(SplitLog(s))
  {
    assert B3 in SplitLog(s) && A3(s) in SplitLog(s);
  }

  lemma StrayEnd(s: string)
    ensures B2 in SplitLog(s) && AboutAttempt(B2.payload) && "t" !in Started([B1, B2, B3])
  {
  }

  lemma SplitStrays(s: string)
    requires s != "B"
    ensures !StaysInSession(Logged(Split(s)))
  {
    StrayEnd(s);
    hide Lawful, Of, Logged, Split, SplitLog, Blocks, LawfulRun;
    SplitLogged(s);
    LastOne(s);
    assert Of(SplitLog(s), "B") == [B1, B2, B3];
  }

  /** A valid complete run that can be archived and never replayed. */
  lemma SplitSessionFailsReplay(s: string, digest: Event -> string, hash: string -> string)
    requires s != "B"
    ensures Valid(FeedAll(FRESH, Split(s)).core) && Complete(FeedAll(FRESH, Split(s)).core)
    ensures !Faithful(Archived(FeedAll(FRESH, Split(s)), digest, hash), digest, hash)
  {
    hide FeedAll, LawfulRun, Closed, Logged, Complete, Faithful, Archived, StaysInSession, Inv;
    SplitAccepted(s);
    SplitStrays(s);
    FedExact(Split(s));
    FinishedSessionsClose(Split(s));
    CompleteSessions(FeedAll(FRESH, Split(s)).core);
    ReplayExact(Split(s), digest, hash);
  }

  lemma CompleteSessions(c: Core)
    requires Complete(c)
    ensures SessionsFinished(c)
  {
  }
}
