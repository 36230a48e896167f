/**
Run directories as blocks of new events, one block for each file.
*/
module RunFiles {
  import opened Protocol
  import opened Validator
  import opened Lifecycle
  import opened Soundness
  import opened SessionBlocks
  import opened Meaning

  /** What each file adds to the log. */
  function Blocks(files: seq<File>): (bs: seq<seq<Event>>)
    ensures |bs| == |files|
  {
    seq(|files|, i requires 0 <= i < |files| => New(Logged(files[..i]), files[i].lines))
  }

  lemma BlocksSnoc(files: seq<File>)
    requires files != []
    ensures Blocks(files) == Blocks(files[..|files| - 1]) + [Block(files)]
  {
    hide New, Logged;
    var before := files[..|files| - 1];
    forall i | 0 <= i < |before| ensures Blocks(before)[i] == Blocks(files)[i] { assert before[..i] == files[..i]; }
  }

  lemma LoggedSnoc(files: seq<File>)
    requires files != []
    ensures Logged(files) == Logged(files[..|files| - 1]) + Block(files)
  {
  }

  lemma {:induction false} BlocksFlatten(files: seq<File>)
    ensures Flat(Blocks(files)) == Logged(files)
  {
    if files != [] {
      BlocksFlatten(files[..|files| - 1]);
      BlocksSnoc(files);
      LoggedSnoc(files);
      hide New, Logged, Blocks;
    }
  }

  // ---------------------------------------------------------------- session files

  /** One session, and nothing after a run.finished. */
  ghost predicate SessionFile(es: seq<Event>) {
    && (forall a, b | a in es && b in es :: a.sessionId == b.sessionId)
    && (forall i | 0 <= i < |es| - 1 :: !es[i].payload.RunFinished?)
  }

  lemma {:induction false} FileAfterMeans(es: seq<Event>)
    requires FitsFile(SESSION_FILE, es)
    ensures FileAfter(SESSION_FILE, es).single
    ensures FileAfter(SESSION_FILE, es).session == if es == [] then None else Some(es[0].sessionId)
    ensures FileAfter(SESSION_FILE, es).closedHere <==> exists e | e in es :: e.payload.RunFinished?
  {
    if es != [] {
      FileAfterMeans(es[..|es| - 1]);
      assert es == es[..|es| - 1] + [es[|es| - 1]];
    }
  }

  lemma SessionFilePrefix(es: seq<Event>, e: Event)
    requires SessionFile(es + [e])
    ensures SessionFile(es)
  {
    assert forall x | x in es :: x in es + [e];
    assert forall i | 0 <= i < |es| - 1 :: es[i] == (es + [e])[i];
  }

  /** One more event of the session, after no run.finished. */
  lemma SessionFileNext(es: seq<Event>, e: Event)
    ensures SessionFile(es + [e]) <==>
              SessionFile(es) && (es != [] ==> e.sessionId == es[0].sessionId) && forall x | x in es :: !x.payload.RunFinished?
  {
    var more := es + [e];
    if SessionFile(more) {
      SessionFilePrefix(es, e);
      if es != [] { assert es[0] in more && e in more; }
      forall x | x in es ensures !x.payload.RunFinished? {
        var i :| 0 <= i < |es| && es[i] == x;
        assert more[i] == x;
      }
    } else if es != [] {
      assert es[0] in es;
    }
  }

  lemma {:induction false} FitsFileExact(es: seq<Event>)
    ensures FitsFile(SESSION_FILE, es) <==> SessionFile(es)
  {
    if es != [] {
      var before, e := es[..|es| - 1], es[|es| - 1];
      FitsFileExact(before);
      assert es == before + [e];
      SessionFileNext(before, e);
      hide SessionFile;
      if FitsFile(SESSION_FILE, before) { FileAfterMeans(before); }
    }
  }

  /** A run directory is lawful when its log is and every file is readable and holds one session. */
  lemma {:induction false} LawfulRunByBlocks(files: seq<File>)
    ensures LawfulRun(files) <==>
            && Lawful(Logged(files))
            && (forall i | 0 <= i < |files| :: Readable(files[i].lines))
            && (forall i | 0 <= i < |Blocks(files)| :: SessionFile(Blocks(files)[i]))
  {
    hide Readable, SessionFile, Continues, FitsFile, Logged, New, Blocks;
    if files == [] {
      EmptyRun(files);
    } else {
      var before := files[..|files| - 1];
      LawfulRunByBlocks(before);
      BlocksSnoc(files);
      LoggedSnoc(files);
      FitsFileExact(Block(files));
      assert [] + Logged(before) == Logged(before);
      ContinuesJoin([], Logged(before), Block(files));
      assert forall i | 0 <= i < |before| :: before[i] == files[i] && Blocks(before)[i] == Blocks(files)[i];
      assert Blocks(files)[|before|] == Block(files);
    }
  }

  lemma EmptyRun(files: seq<File>)
    requires files == []
    ensures LawfulRun(files) && Lawful(Logged(files)) && Logged(files) == [] && Blocks(files) == []
  {
  }

  /** Every session's new lines sit in one file. */
  ghost predicate OneFilePerSession(files: seq<File>) {
    forall i, j, a, b | 0 <= i < j < |Blocks(files)| && a in Blocks(files)[i] && b in Blocks(files)[j] ::
      a.sessionId != b.sessionId
  }

  lemma FinishedSessionsClose(files: seq<File>)
    requires LawfulRun(files)
    ensures Complete(FeedAll(FRESH, files).core) <==> Closed(Logged(files))
  {
    FedExact(files);
    ClosedExact(FeedAll(FRESH, files).core, Logged(files));
  }

  lemma ClosedExact(c: Core, log: seq<Event>)
    requires Inv(c, log) && Lawful(log)
    ensures Complete(c) <==> Closed(log)
  {
    hide Complete, Lawful, AttemptInv, StepInv, ExecutionInv, SeenInv;
    CompleteWhenSessionsFinish(c, log);
    forall e | e in log ensures e.sessionId in c.sessions {
      OfMembers(log, e.sessionId);
      assert e in Of(log, e.sessionId);
    }
    forall s | s in c.sessions ensures exists e :: e in log && e.sessionId == s {
      OfMembers(log, s);
      assert Of(log, s)[0] in Of(log, s);
    }
  }

  lemma BlocksClose(blocks: seq<seq<Event>>)
    requires Separate(blocks) && Closed(Flat(blocks))
    ensures AllClosed(blocks)
  {
    forall i, e | 0 <= i < |blocks| && e in blocks[i] ensures SessionClosed(blocks[i], e.sessionId) {
      FlatMembers(blocks, e);
      var x :| x in Flat(blocks) && x.sessionId == e.sessionId && x.payload.SessionFinished?;
      FlatMembers(blocks, x);
      var k :| 0 <= k < |blocks| && x in blocks[k];
      assert k == i;
    }
  }

  /** With one file per session, a complete lawful run is a coherent family of session files. */
  lemma CoherentFiles(files: seq<File>)
    requires LawfulRun(files) && Closed(Logged(files)) && OneFilePerSession(files)
    ensures Separate(Blocks(files)) && AllClosed(Blocks(files)) && Coherent(Blocks(files))
  {
    LawfulRunByBlocks(files);
    BlocksFlatten(files);
    hide Coherent, Logged, New, Blocks, LawfulRun, Continues, Closed;
    assert Separate(Blocks(files));
    BlocksClose(Blocks(files));
    BlocksExact(Blocks(files));
  }

  lemma SameBlocksLawful(bs: seq<seq<Event>>, cs: seq<seq<Event>>)
    requires Separate(bs) && AllClosed(bs) && Coherent(bs)
    requires forall i | 0 <= i < |bs| :: SessionFile(bs[i])
    requires forall i, j, a, b | 0 <= i < j < |cs| && a in cs[i] && b in cs[j] :: a.sessionId != b.sessionId
    requires forall i | 0 <= i < |cs| :: cs[i] == [] || cs[i] in bs
    ensures Lawful(Flat(cs)) && forall i | 0 <= i < |cs| :: SessionFile(cs[i])
  {
    hide Coherent, Closed, Continues;
    forall i | 0 <= i < |cs| ensures SessionFile(cs[i]) && Closed(cs[i]) {
      EmptyClosed();
    }
    assert Separate(cs);
    CoherentAnyOrder(bs, cs);
    BlocksExact(cs);
  }

  /**
   * A directory whose files add the same session blocks, in any order and with any number of
   * empty files between them, is read without error and ends in the same state.
   */
  lemma Rearranged(files: seq<File>, others: seq<File>)
    requires LawfulRun(files) && Closed(Logged(files)) && OneFilePerSession(files)
    requires OneFilePerSession(others) && forall i | 0 <= i < |others| :: Readable(others[i].lines)
    requires forall i | 0 <= i < |others| :: Blocks(others)[i] == [] || Blocks(others)[i] in Blocks(files)
    requires SameEvents(Logged(files), Logged(others))
    ensures FeedAll(FRESH, others).core == FeedAll(FRESH, files).core
  {
    hide Coherent, Closed, Logged, New, Blocks, LawfulRun, Continues, FeedAll, SessionFile, Readable, AllClosed, Separate;
    CoherentFiles(files);
    LawfulRunByBlocks(files);
    SameBlocksLawful(Blocks(files), Blocks(others));
    BlocksFlatten(others);
    LawfulRunByBlocks(others);
    FedExact(files);
    FedExact(others);
    SameEventsSameReport(files, others);
  }

  // ---------------------------------------------------------------- which file meets an event

  /** All decoded lines of a session, repetitions included, sit in one file. */
  ghost predicate SeparateLines(files: seq<File>) {
    forall i, j, l, m | 0 <= i < j < |files| && l in files[i].lines && m in files[j].lines && l.Decoded? && m.Decoded? ::
      l.event.sessionId != m.event.sessionId
  }

  lemma {:induction false} NewMembers(log: seq<Event>, lines: seq<Line>, e: Event)
    ensures e in New(log, lines) <==> e !in log && exists l | l in lines :: l.Decoded? && l.event == e
  {
    if lines != [] {
      var before, line := lines[..|lines| - 1], lines[|lines| - 1];
      NewMembers(log, before, e);
      assert forall l :: l in lines <==> l in before || l == line;
      if line.Decoded? { NewMembers(log, before, line.event); }
    }
  }

  lemma {:induction false} NewAlone(log: seq<Event>, lines: seq<Line>)
    requires forall l | l in lines && l.Decoded? :: l.event !in log
    ensures New(log, lines) == New([], lines)
  {
    if lines != [] {
      assert lines[|lines| - 1] in lines;
      NewAlone(log, lines[..|lines| - 1]);
    }
  }

  lemma {:induction false} LoggedMembers(files: seq<File>, e: Event)
    ensures e in Logged(files) <==> exists i, l | 0 <= i < |files| && l in files[i].lines :: l.Decoded? && l.event == e
  {
    if files != [] {
      var before, last := files[..|files| - 1], files[|files| - 1];
      LoggedMembers(before, e);
      NewMembers(Logged(before), last.lines, e);
      if i, l :| 0 <= i < |files| && l in files[i].lines && l.Decoded? && l.event == e {
        if i < |before| { assert l in before[i].lines; }
      }
      if i, l :| 0 <= i < |before| && l in before[i].lines && l.Decoded? && l.event == e {
        assert l in files[i].lines;
      }
    }
  }

  lemma SeparateBlocks(files: seq<File>)
    requires SeparateLines(files)
    ensures forall i | 0 <= i < |files| :: Blocks(files)[i] == New([], files[i].lines)
    ensures OneFilePerSession(files)
  {
    hide Logged, New;
    forall i | 0 <= i < |files| ensures Blocks(files)[i] == New([], files[i].lines) {
      forall l | l in files[i].lines && l.Decoded? ensures l.event !in Logged(files[..i]) {
        LoggedMembers(files[..i], l.event);
      }
      NewAlone(Logged(files[..i]), files[i].lines);
    }
    hide Blocks;
    forall i, j, a, b | 0 <= i < j < |Blocks(files)| && a in Blocks(files)[i] && b in Blocks(files)[j]
      ensures a.sessionId != b.sessionId
    {
      NewMembers([], files[i].lines, a);
      NewMembers([], files[j].lines, b);
    }
  }

  // ---------------------------------------------------------------- events written out

  /** The lines of a file that holds exactly these events. */
  function Written(es: seq<Event>): (lines: seq<Line>)
    ensures |lines| == |es|
  {
    seq(|es|, i requires 0 <= i < |es| => Decoded(es[i], ""))
  }

  lemma {:induction false} NewWritten(log: seq<Event>, es: seq<Event>)
    requires forall e | e in es :: e !in log
    requires forall i, j | 0 <= i < j < |es| :: es[i] != es[j]
    ensures New(log, Written(es)) == es
  {
    if es != [] {
      var before := es[..|es| - 1];
      assert Written(es)[..|before|] == Written(before);
      NewWritten(log, before);
      assert es[|es| - 1] in es;
    }
  }

  function WrittenFiles(names: seq<string>, blocks: seq<seq<Event>>): (files: seq<File>)
    requires |names| == |blocks|
    ensures |files| == |blocks|
  {
    seq(|names|, i requires 0 <= i < |names| => File(names[i], Written(blocks[i])))
  }

  lemma {:induction false} WrittenBlocks(names: seq<string>, blocks: seq<seq<Event>>)
    requires |names| == |blocks| && Distinct(Flat(blocks))
    ensures Logged(WrittenFiles(names, blocks)) == Flat(blocks) && Blocks(WrittenFiles(names, blocks)) == blocks
  {
    var files := WrittenFiles(names, blocks);
    if blocks == [] {
      EmptyRun(files);
    } else {
      var n := |blocks| - 1;
      var before, es := Flat(blocks[..n]), blocks[n];
      assert Flat(blocks) == before + es;
      assert files[..n] == WrittenFiles(names[..n], blocks[..n]);
      DistinctParts(before, es);
      WrittenBlocks(names[..n], blocks[..n]);
      NewWritten(before, es);
      LoggedSnoc(files);
      BlocksSnoc(files);
    }
  }

  lemma DistinctParts(a: seq<Event>, b: seq<Event>)
    requires Distinct(a + b)
    ensures Distinct(a) && Distinct(b) && forall e | e in b :: e !in a
  {
    var c := a + b;
    forall i, j | 0 <= i < j < |a| ensures a[i] != a[j] { assert c[i] == a[i] && c[j] == a[j]; }
    forall i, j | 0 <= i < j < |b| ensures b[i] != b[j] { assert c[|a| + i] == b[i] && c[|a| + j] == b[j]; }
    forall e | e in b ensures e !in a {
      var j :| 0 <= j < |b| && b[j] == e;
      forall i | 0 <= i < |a| ensures a[i] != e { assert c[i] == a[i] && c[|a| + j] == e; }
    }
  }

  /** Blocks written out one to a file are a lawful run when they are session files and lawful together. */
  lemma WrittenRun(names: seq<string>, blocks: seq<seq<Event>>)
    requires |names| == |blocks| && Distinct(Flat(blocks))
    ensures Logged(WrittenFiles(names, blocks)) == Flat(blocks) && Blocks(WrittenFiles(names, blocks)) == blocks
    ensures LawfulRun(WrittenFiles(names, blocks)) <==>
              Lawful(Flat(blocks)) && forall i | 0 <= i < |blocks| :: SessionFile(blocks[i])
  {
    hide Lawful, SessionFile, Logged, Blocks, Flat, LawfulRun;
    var files := WrittenFiles(names, blocks);
    WrittenBlocks(names, blocks);
    LawfulRunByBlocks(files);
    forall i | 0 <= i < |files| ensures Readable(files[i].lines) {}
  }
}
