/**
Why one file per session is not enough for every feed order: a file that repeats another session's
start is harmless when it is fed second and refused when it is fed first, for a repetition met first
becomes the original.
*/
module RepeatedStart {
  import opened Protocol
  import opened Validator
  import opened Lifecycle
  import opened Soundness
  import opened SessionBlocks
  import opened RunFiles
  import opened SplitSession

  const S1 := Made("1", "A", 1, SessionStarted(None))
  const S2 := Made("2", "A", 2, SessionFinished(None, None, []))
  const T1 := Made("3", "B", 1, SessionStarted(None))
  const T2 := Made("4", "B", 2, SessionFinished(None, None, []))

  const OWN := File("a", Written([S1, S2]))
  const REPEATING := File("b", Written([S1, T1, T2]))

  const LOG := [S1, S2, T1, T2]

  lemma FirstSession()
    ensures Holds("A", [S1, S2], [S1, S2], [])
  {
    OpensLog(S1, "A");
    OpensLog(S1, "B");
    hide Lawful, Of;
    Extend("A", [S1], [S1], [], S2);
    assert [S1] + [S2] == [S1, S2];
  }

  lemma SecondStart()
    ensures Holds("A", [S1, S2, T1], [S1, S2], [T1])
  {
    hide Lawful, Of;
    FirstSession();
    Extend("A", [S1, S2], [S1, S2], [], T1);
    assert [S1, S2] + [T1] == [S1, S2, T1] && [] + [T1] == [T1];
  }

  lemma LogLawful()
    ensures Lawful(LOG) && Closed(LOG)
  {
    hide Lawful, Of;
    SecondStart();
    Extend("A", [S1, S2, T1], [S1, S2], [T1], T2);
    assert [S1, S2, T1] + [T2] == LOG;
    assert S2 in LOG && T2 in LOG;
  }

  /** Fed second, the repetition adds nothing. */
  lemma SecondAdds()
    ensures New([S1, S2], REPEATING.lines) == [T1, T2]
  {
    var l := REPEATING.lines;
    assert l[..3] == l && l[..2][..1] == l[..1] && l[..1][..0] == [];
    assert New([S1, S2], l[..1]) == [];
    assert New([S1, S2], l[..2]) == [T1];
  }

  lemma OwnFirst()
    ensures Logged([OWN, REPEATING]) == LOG && Blocks([OWN, REPEATING]) == [[S1, S2], [T1, T2]]
  {
    SecondAdds();
    NewWritten([], [S1, S2]);
    EmptyRun([]);
    hide New, Logged, Blocks, REPEATING;
    var one, both := [OWN], [OWN, REPEATING];
    assert one[..0] == [] && both[..1] == one;
    LoggedSnoc(one);
    BlocksSnoc(one);
    assert Block(one) == [S1, S2];
    assert Logged(one) == [S1, S2];
    assert Block(both) == [T1, T2];
    LoggedSnoc(both);
    BlocksSnoc(both);
  }

  lemma RepeatingFirst()
    ensures |Blocks([REPEATING, OWN])| == 2 && Blocks([REPEATING, OWN])[0] == [S1, T1, T2]
  {
    NewWritten([], [S1, T1, T2]);
    EmptyRun([]);
    hide New, Logged, Blocks, OWN;
    var one, both := [REPEATING], [REPEATING, OWN];
    assert one[..0] == [] && both[..1] == one;
    BlocksSnoc(one);
    BlocksSnoc(both);
  }

  lemma FilesReadable()
    ensures Readable(OWN.lines) && Readable(REPEATING.lines)
  {
  }

  lemma OneSessionEach()
    ensures SessionFile([S1, S2]) && SessionFile([T1, T2]) && !SessionFile([S1, T1, T2])
  {
    assert S1 in [S1, T1, T2] && T1 in [S1, T1, T2];
  }

  lemma Accepted()
    ensures LawfulRun([OWN, REPEATING]) && Closed(Logged([OWN, REPEATING]))
  {
    LogLawful();
    OwnFirst();
    OneSessionEach();
    FilesReadable();
    hide Lawful, Logged, Blocks, LawfulRun, Closed, Readable, SessionFile, OWN, REPEATING, LOG;
    LawfulRunByBlocks([OWN, REPEATING]);
  }

  lemma Refused()
    ensures !LawfulRun([REPEATING, OWN])
  {
    RepeatingFirst();
    OneSessionEach();
    hide Lawful, Logged, Blocks, LawfulRun, Readable, SessionFile, OWN, REPEATING;
    LawfulRunByBlocks([REPEATING, OWN]);
  }

  lemma EachInOneFile()
    ensures OneFilePerSession([OWN, REPEATING]) && multiset([OWN, REPEATING]) == multiset([REPEATING, OWN])
  {
    OwnFirst();
    hide Blocks, Logged;
  }

  /**
   * The input that shows it: one file per session, valid and complete in one order, an error in the
   * other.
   */
  lemma RepetitionFedFirstIsRefused()
    ensures multiset([OWN, REPEATING]) == multiset([REPEATING, OWN]) && OneFilePerSession([OWN, REPEATING])
    ensures Valid(FeedAll(FRESH, [OWN, REPEATING]).core) && Complete(FeedAll(FRESH, [OWN, REPEATING]).core)
    ensures FeedAll(FRESH, [REPEATING, OWN]).core.errors != []
  {
    EachInOneFile();
    hide FeedAll, Logged, Lawful, LawfulRun, Complete, Closed, Blocks, Inv, OWN, REPEATING, OneFilePerSession;
    var files, others := [OWN, REPEATING], [REPEATING, OWN];
    Accepted();
    Refused();
    FedExact(files);
    FedExact(others);
    FinishedSessionsClose(files);
    CompleteSessions(FeedAll(FRESH, files).core);
  }
}
