/**
The order in which the files of a run directory are fed.

A line repeated in another file counts for the file that is fed first, so the order shows exactly in
which file is the first to meet an event.
*/
module FeedOrder {
  import opened Protocol
  import opened Validator
  import opened Lifecycle
  import opened Soundness
  import opened SessionBlocks
  import opened SessionLocality
  import opened Meaning
  import opened RunFiles
  import opened Interleaving
  import Sorting
  import Archive
  import Replay

  // ---------------------------------------------------------------- the same files, rearranged

  lemma SameFiles(files: seq<File>, others: seq<File>)
    requires multiset(files) == multiset(others)
    ensures |files| == |others| && forall f :: f in files <==> f in others
  {
    assert |multiset(files)| == |files| && |multiset(others)| == |others|;
    forall f ensures f in files <==> f in others { assert f in multiset(files) <==> f in multiset(others); }
  }

  lemma SameFilesSameEvents(files: seq<File>, others: seq<File>)
    requires multiset(files) == multiset(others)
    ensures SameEvents(Logged(files), Logged(others))
  {
    hide Logged;
    SameFiles(files, others);
    forall e ensures e in Logged(files) <==> e in Logged(others) {
      LoggedMembers(files, e);
      LoggedMembers(others, e);
      if i, l :| 0 <= i < |files| && l in files[i].lines && l.Decoded? && l.event == e {
        assert files[i] in others;
        var k :| 0 <= k < |others| && others[k] == files[i];
        assert l in others[k].lines;
      }
      if i, l :| 0 <= i < |others| && l in others[i].lines && l.Decoded? && l.event == e {
        assert others[i] in files;
        var k :| 0 <= k < |files| && files[k] == others[i];
        assert l in files[k].lines;
      }
    }
  }

  lemma {:induction false} KeptJoin(a: seq<File>, b: seq<File>)
    ensures |Archive.AllKept(a + b)| == |Archive.AllKept(a)| + |Archive.AllKept(b)|
  {
    hide Archive.Kept;
    if b == [] {
      assert a + b == a;
    } else {
      KeptJoin(a, b[..|b| - 1]);
      assert (a + b)[..|a + b| - 1] == a + b[..|b| - 1];
    }
  }

  lemma {:induction false} SameFilesSameLines(files: seq<File>, others: seq<File>)
    requires multiset(files) == multiset(others)
    ensures |Archive.AllKept(files)| == |Archive.AllKept(others)|
    decreases |files|
  {
    hide Archive.Kept;
    SameFiles(files, others);
    if files != [] {
      var before, f := files[..|files| - 1], files[|files| - 1];
      assert files == before + [f];
      assert f in files;
      var i :| 0 <= i < |others| && others[i] == f;
      var a, b := others[..i], others[i + 1..];
      assert others == a + [f] + b;
      assert multiset(files) == multiset(before) + multiset{f} && multiset(others) == multiset(a + b) + multiset{f};
      Sorting.Cancel(multiset(before), multiset(a + b), f);
      SameFilesSameLines(before, a + b);
      KeptJoin(before, [f]);
      KeptJoin(a + [f], b);
      KeptJoin(a, [f]);
      KeptJoin(a, b);
    }
  }

  lemma {:induction false} FilesCounted(files: seq<File>)
    ensures FeedAll(FRESH, files).files == |files|
  {
    hide Read, CountRepeats, Source;
    if files != [] { FilesCounted(files[..|files| - 1]); }
  }

  lemma {:induction false} NewDistinct(log: seq<Event>, lines: seq<Line>)
    requires Distinct(log)
    ensures Distinct(log + New(log, lines))
  {
    if lines != [] {
      var before := lines[..|lines| - 1];
      NewDistinct(log, before);
      assert log + New(log, lines) == log + New(log, before)
             || log + New(log, lines) == log + New(log, before) + [lines[|lines| - 1].event];
    } else {
      assert log + New(log, lines) == log;
    }
  }

  lemma {:induction false} LoggedDistinct(files: seq<File>)
    ensures Distinct(Logged(files))
  {
    if files != [] {
      LoggedDistinct(files[..|files| - 1]);
      NewDistinct(Logged(files[..|files| - 1]), files[|files| - 1].lines);
    }
  }

  /** Rearranged files that are read without error give the same summary, in every field. */
  lemma SameFilesSameSummary(files: seq<File>, others: seq<File>)
    requires multiset(files) == multiset(others)
    requires FeedAll(FRESH, files).core.errors == [] && FeedAll(FRESH, others).core.errors == []
    ensures FeedAll(FRESH, others).core == FeedAll(FRESH, files).core
    ensures Summarize(FeedAll(FRESH, others)) == Summarize(FeedAll(FRESH, files))
  {
    hide FeedAll, Logged, Archive.AllKept, Archive.Texts, Archive.Originals, Complete, DerivedVerdict, LawfulRun, Lawful, Inv, Distinct;
    SameFiles(files, others);
    SameFilesSameEvents(files, others);
    SameFilesSameLines(files, others);
    SameEventsSameReport(files, others);
    FilesCounted(files);
    FilesCounted(others);
    Archive.FedSource(files);
    Archive.FedSource(others);
    LoggedDistinct(files);
    LoggedDistinct(others);
    TallySame(Logged(files), Logged(others));
  }

  // ---------------------------------------------------------------- exactly when the order does not show

  /** With one file per session, the attempts of a complete lawful run stay in their session. */
  lemma OneFileStays(files: seq<File>)
    requires LawfulRun(files) && Closed(Logged(files)) && OneFilePerSession(files)
    ensures StaysInSession(Logged(files))
  {
    hide Logged, Closed, LawfulRun, StaysInSession, Blocks, New, OneFilePerSession, Separate, SessionFile;
    var log := Logged(files);
    CoherentFiles(files);
    BlocksFlatten(files);
    forall s ensures Lawful(Of(log, s)) {
      Replay.OfFlat(Blocks(files), s);
      EmptyCompatible([]);
    }
    AloneStays(log);
  }

  /** Each file is the first to meet events of one session only, its run.finished last. */
  ghost predicate MeetsOneSession(files: seq<File>) {
    forall i | 0 <= i < |Blocks(files)| :: SessionFile(Blocks(files)[i])
  }

  /**
   * Feed-order independence, exactly: when one order of a directory with one file per session gives
   * a valid complete report, another order does if and only if in that order every file first meets
   * events of one session only, and each session's events are met in sequence. The summary is then
   * the same in every field.
   */
  lemma FeedOrderExact(files: seq<File>, others: seq<File>)
    requires Valid(FeedAll(FRESH, files).core) && Complete(FeedAll(FRESH, files).core) && OneFilePerSession(files)
    requires multiset(files) == multiset(others)
    ensures FeedAll(FRESH, others).core.errors == [] <==> MeetsOneSession(others) && InSequence(Logged(others))
    ensures FeedAll(FRESH, others).core.errors == [] ==> Summarize(FeedAll(FRESH, others)) == Summarize(FeedAll(FRESH, files))
  {
    hide FeedAll, Logged, Complete, LawfulRun, Closed, StaysInSession, InSequence, OneFilePerSession, Readable, SessionFile, Blocks, Lawful,
         Distinct, Summarize;
    FedExact(files);
    FedExact(others);
    FinishedSessionsClose(files);
    OneFileStays(files);
    SameFiles(files, others);
    SameFilesSameEvents(files, others);
    LoggedDistinct(others);
    InterleavingExact(Logged(files), Logged(others));
    LawfulRunByBlocks(files);
    LawfulRunByBlocks(others);
    forall i | 0 <= i < |others| ensures Readable(others[i].lines) {
      assert others[i] in files;
    }
    if FeedAll(FRESH, others).core.errors == [] { SameFilesSameSummary(files, others); }
  }

  // ---------------------------------------------------------------- when no file repeats another

  lemma TwoPlaces(s: seq<File>, f: File)
    requires multiset(s)[f] >= 2
    ensures exists i, j :: 0 <= i < j < |s| && s[i] == f && s[j] == f
  {
    var j :| 0 <= j < |s| && s[j] == f;
    var a, b := s[..j], s[j + 1..];
    assert s == a + [f] + b;
    if f in a {
      var i :| 0 <= i < |a| && a[i] == f;
      assert s[i] == f;
    } else {
      assert multiset(a)[f] == 0;
      assert multiset(b)[f] >= 1;
      assert f in b;
      var i :| 0 <= i < |b| && b[i] == f;
      assert s[j + 1 + i] == f;
    }
  }

  lemma TwicePlaced(s: seq<File>, i: nat, j: nat)
    requires i < j < |s| && s[i] == s[j]
    ensures multiset(s)[s[i]] >= 2
  {
    assert s == s[..i] + [s[i]] + s[i + 1..j] + [s[j]] + s[j + 1..];
  }

  lemma TwiceIsEmpty(files: seq<File>, f: File)
    requires SeparateLines(files) && multiset(files)[f] >= 2
    ensures forall l | l in f.lines :: !l.Decoded?
  {
    TwoPlaces(files, f);
    var x, y :| 0 <= x < y < |files| && files[x] == f && files[y] == f;
    forall l | l in f.lines ensures !l.Decoded? {
      assert l in files[x].lines && l in files[y].lines;
    }
  }

  lemma TwoFilesApart(files: seq<File>, f: File, g: File, l: Line, m: Line)
    requires SeparateLines(files) && f in files && g in files && f != g && l in f.lines && m in g.lines && l.Decoded? && m.Decoded?
    ensures l.event.sessionId != m.event.sessionId
  {
    var x :| 0 <= x < |files| && files[x] == f;
    var y :| 0 <= y < |files| && files[y] == g;
    assert x < y ==> l in files[x].lines && m in files[y].lines;
    assert y < x ==> m in files[y].lines && l in files[x].lines;
  }

  lemma SeparateStill(files: seq<File>, others: seq<File>)
    requires SeparateLines(files) && multiset(files) == multiset(others)
    ensures SeparateLines(others)
  {
    SameFiles(files, others);
    forall i, j, l, m | 0 <= i < j < |others| && l in others[i].lines && m in others[j].lines && l.Decoded? && m.Decoded?
      ensures l.event.sessionId != m.event.sessionId
    {
      if others[i] == others[j] {
        TwicePlaced(others, i, j);
        TwiceIsEmpty(files, others[i]);
      } else {
        assert others[i] in files && others[j] in files;
        TwoFilesApart(files, others[i], others[j], l, m);
      }
    }
  }

  /**
   * When all lines of a session, repetitions included, sit in one file, every order of the files of
   * a valid complete run gives the same report.
   */
  lemma AnyFeedOrder(files: seq<File>, others: seq<File>)
    requires SeparateLines(files) && multiset(files) == multiset(others)
    requires Valid(FeedAll(FRESH, files).core) && Complete(FeedAll(FRESH, files).core)
    ensures FeedAll(FRESH, others).core == FeedAll(FRESH, files).core
    ensures Summarize(FeedAll(FRESH, others)) == Summarize(FeedAll(FRESH, files))
  {
    hide Complete, FeedAll, Logged, New, Blocks, LawfulRun, Closed, OneFilePerSession, SeparateLines, Summarize, Readable;
    FedExact(files);
    FinishedSessionsClose(files);
    SeparateBlocks(files);
    SeparateStill(files, others);
    SeparateBlocks(others);
    SameFiles(files, others);
    SameFilesSameEvents(files, others);
    LawfulRunByBlocks(files);
    forall i | 0 <= i < |others| ensures Readable(others[i].lines) && Blocks(others)[i] in Blocks(files) {
      assert others[i] in files;
      var k :| 0 <= k < |files| && files[k] == others[i];
      assert Blocks(others)[i] == Blocks(files)[k];
    }
    Rearranged(files, others);
    SameFilesSameSummary(files, others);
  }
}
