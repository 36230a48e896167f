/**
Replay: the stored lines of a run are regrouped by session and fed to a fresh validator.
*/
module Replay {
  import opened Protocol
  import opened Validator
  import opened Lifecycle
  import opened Soundness
  import opened SessionBlocks
  import opened SessionLocality
  import opened RunFiles
  import opened Meaning
  import opened Archive
  import RunValidation
  import Sorting

  // ---------------------------------------------------------------- regrouping

  function SessionOf(l: SourceLine): string {
    l.event.sessionId
  }

  /** The sessions of the lines, each where it first appears. */
  function Sessions(lines: seq<SourceLine>): seq<string> {
    Sorting.Distinct(Sorting.Map(lines, SessionOf))
  }

  /** The texts of one session, in storage order. */
  function Group(lines: seq<SourceLine>, s: string): seq<Line> {
    if lines == [] then []
    else
      var last := lines[|lines| - 1];
      Group(lines[..|lines| - 1], s) + (if last.event.sessionId == s then [Decoded(last.event, last.raw)] else [])
  }

  function GroupFiles(lines: seq<SourceLine>, sessions: seq<string>): (files: seq<File>)
    ensures |files| == |sessions|
  {
    seq(|sessions|, i requires 0 <= i < |sessions| => File(sessions[i], Group(lines, sessions[i])))
  }

  /** One file per session. */
  function Regrouped(lines: seq<SourceLine>): (files: seq<File>)
    ensures |files| == |Sessions(lines)|
  {
    GroupFiles(lines, Sessions(lines))
  }

  lemma SessionsDistinct(lines: seq<SourceLine>)
    ensures forall i, j | 0 <= i < j < |Sessions(lines)| :: Sessions(lines)[i] != Sessions(lines)[j]
    ensures forall s :: s in Sessions(lines) <==> exists l | l in lines :: l.event.sessionId == s
  {
    hide Sorting.Map, Sorting.Distinct;
    Sorting.DistinctMembers(Sorting.Map(lines, SessionOf));
    forall s ensures s in Sessions(lines) <==> exists l | l in lines :: l.event.sessionId == s {
      MapMembers(lines, SessionOf, s);
    }
  }

  lemma {:induction false} GroupMembers(lines: seq<SourceLine>, s: string)
    ensures forall t | t in Group(lines, s) :: t.Decoded? && t.event.sessionId == s
    ensures forall e :: (exists t | t in Group(lines, s) :: t.event == e) <==>
                        e.sessionId == s && exists l | l in lines :: l.event == e
  {
    if lines != [] {
      var before, last := lines[..|lines| - 1], lines[|lines| - 1];
      GroupMembers(before, s);
      assert lines == before + [last];
      forall e ensures (exists t | t in Group(lines, s) :: t.event == e) <==>
                       e.sessionId == s && exists l | l in lines :: l.event == e
      {
        GroupMember(lines, s, e);
      }
    }
  }

  lemma GroupMember(lines: seq<SourceLine>, s: string, e: Event)
    requires lines != []
    requires (exists t | t in Group(lines[..|lines| - 1], s) :: t.Decoded? && t.event == e) <==>
             e.sessionId == s && exists l | l in lines[..|lines| - 1] :: l.event == e
    requires forall t | t in Group(lines[..|lines| - 1], s) :: t.Decoded?
    ensures (exists t | t in Group(lines, s) :: t.Decoded? && t.event == e) <==>
            e.sessionId == s && exists l | l in lines :: l.event == e
  {
    var before, last := lines[..|lines| - 1], lines[|lines| - 1];
    var g, h := Group(before, s), Group(lines, s);
    assert forall l :: l in lines <==> l in before || l == last;
    assert forall t :: t in h <==> t in g || (last.event.sessionId == s && t == Decoded(last.event, last.raw));
    if last.event.sessionId == s && last.event == e { assert Decoded(last.event, last.raw) in h; }
  }

  // ---------------------------------------------------------------- one session of an ordered source

  predicate SequenceLe(a: Event, b: Event) {
    a.sequence <= b.sequence
  }

  ghost predicate Ascending(lines: seq<Line>) {
    && (forall i | 0 <= i < |lines| :: lines[i].Decoded?)
    && (forall i, j | 0 <= i < j < |lines| :: lines[i].event.sequence <= lines[j].event.sequence)
  }

  lemma {:induction false} GroupAscending(lines: seq<SourceLine>, s: string)
    requires forall i, j | 0 <= i < j < |lines| :: KeyLe(lines[i].event, lines[j].event)
    ensures Ascending(Group(lines, s))
  {
    if lines != [] {
      var before, last := lines[..|lines| - 1], lines[|lines| - 1];
      GroupAscending(before, s);
      GroupMembers(before, s);
      if last.event.sessionId == s {
        var g := Group(before, s);
        forall i | 0 <= i < |g| ensures g[i].event.sequence <= last.event.sequence {
          assert g[i] in g;
          var l :| l in before && l.event == g[i].event;
          var k :| 0 <= k < |before| && before[k] == l;
          assert KeyLe(lines[k].event, lines[|lines| - 1].event);
        }
      }
    }
  }

  ghost predicate SequenceTells(lines: seq<Line>) {
    forall t, u | t in lines && u in lines && t.Decoded? && u.Decoded? && t.event.sequence == u.event.sequence ::
      t.event == u.event
  }

  lemma StrictSnoc(es: seq<Event>, e: Event)
    requires Sorting.Strict(es, SequenceLe) && forall x | x in es :: x.sequence < e.sequence
    ensures Sorting.Strict(es + [e], SequenceLe)
  {
  }

  lemma NewBelow(before: seq<Line>, last: Line, x: Event)
    requires Ascending(before + [last]) && SequenceTells(before + [last]) && last.Decoded?
    requires last.event !in New([], before) && x in New([], before)
    ensures x.sequence < last.event.sequence
  {
    NewMembers([], before, x);
    var l :| l in before && l.Decoded? && l.event == x;
    var k :| 0 <= k < |before| && before[k] == l;
    var lines := before + [last];
    assert lines[k] == l && lines[|before|] == last && l in lines && last in lines;
  }

  lemma NewLast(before: seq<Line>, last: Line)
    requires last.Decoded?
    ensures New([], before + [last]) == if last.event in New([], before) then New([], before) else New([], before) + [last.event]
  {
    assert (before + [last])[..|before|] == before;
  }

  lemma PrefixAscends(before: seq<Line>, last: Line)
    requires Ascending(before + [last]) && SequenceTells(before + [last])
    ensures Ascending(before) && SequenceTells(before) && last.Decoded?
  {
    var lines := before + [last];
    assert lines[|before|] == last;
    assert forall i | 0 <= i < |before| :: before[i] == lines[i];
  }

  /** Reading ascending lines gives strictly ascending events. */
  lemma {:induction false} NewAscends(lines: seq<Line>)
    requires Ascending(lines) && SequenceTells(lines)
    ensures Sorting.Strict(New([], lines), SequenceLe)
  {
    if lines != [] {
      var before, last := lines[..|lines| - 1], lines[|lines| - 1];
      assert lines == before + [last];
      PrefixAscends(before, last);
      NewAscends(before);
      NewLast(before, last);
      hide Sorting.Strict, New, Ascending, SequenceTells;
      var es := New([], before);
      if last.event !in es {
        forall x | x in es ensures x.sequence < last.event.sequence { NewBelow(before, last, x); }
        StrictSnoc(es, last.event);
      }
    }
  }

  lemma NumberedStrict(es: seq<Event>)
    requires WellNumbered(es)
    ensures Sorting.Strict(es, SequenceLe)
    ensures forall a, b | a in es && b in es && a.sequence == b.sequence :: a == b
  {
  }

  /** Lines that hold exactly the events of a log, in storage order. */
  ghost predicate StoredForm(lines: seq<SourceLine>, log: seq<Event>) {
    && (forall i, j | 0 <= i < j < |lines| :: KeyLe(lines[i].event, lines[j].event))
    && (forall e :: e in log <==> exists l | l in lines :: l.event == e)
  }

  /** Each group reads back as its session, in sequence order. */
  lemma GroupReads(lines: seq<SourceLine>, log: seq<Event>, s: string)
    requires Lawful(log) && StoredForm(lines, log)
    ensures New([], Group(lines, s)) == Of(log, s)
  {
    hide Group, Lawful, Of, New;
    var group, own := Group(lines, s), Of(log, s);
    GroupAscending(lines, s);
    GroupMembers(lines, s);
    SessionsAreNumbered(log, s);
    NumberedStrict(own);
    OfMembers(log, s);
    forall e ensures e in own <==> e in New([], group) {
      NewMembers([], group, e);
    }
    assert forall t | t in group :: t.event in own;
    assert SequenceTells(group);
    NewAscends(group);
    Sorting.StrictUnique(New([], group), own, SequenceLe);
  }

  lemma RegroupedSeparate(lines: seq<SourceLine>)
    ensures SeparateLines(Regrouped(lines)) && forall f | f in Regrouped(lines) :: Readable(f.lines)
  {
    hide Sessions, Group;
    SessionsDistinct(lines);
    var files := Regrouped(lines);
    forall i | 0 <= i < |files| ensures forall t | t in files[i].lines :: t.Decoded? && t.event.sessionId == Sessions(lines)[i] {
      GroupMembers(lines, Sessions(lines)[i]);
    }
  }

  lemma RegroupedBlocks(lines: seq<SourceLine>, log: seq<Event>)
    requires Lawful(log) && StoredForm(lines, log)
    ensures |Blocks(Regrouped(lines))| == |Sessions(lines)|
    ensures forall i | 0 <= i < |Sessions(lines)| :: Blocks(Regrouped(lines))[i] == Of(log, Sessions(lines)[i])
  {
    hide Sessions, Group, Lawful, New, Blocks, SeparateLines, StoredForm, Readable;
    var files := Regrouped(lines);
    RegroupedSeparate(lines);
    SeparateBlocks(files);
    forall i | 0 <= i < |files| ensures Blocks(files)[i] == Of(log, Sessions(lines)[i]) {
      GroupReads(lines, log, Sessions(lines)[i]);
    }
  }

  // ---------------------------------------------------------------- fidelity

  lemma StoredOrdered(files: seq<File>)
    requires FeedAll(FRESH, files).core.errors == []
    ensures StoredForm(OrderLines(FeedAll(FRESH, files).source), Logged(files))
  {
    hide FeedAll, OrderLines, KeyLe, Logged;
    var source := FeedAll(FRESH, files).source;
    FedSource(files);
    OrderedShape(source);
    forall l ensures l in OrderLines(source) <==> l in source {
      assert l in multiset(source) <==> l in source;
      assert l in multiset(OrderLines(source)) <==> l in OrderLines(source);
    }
    forall e ensures e in Logged(files) <==> exists l | l in source :: l.event == e {
      TextsLogged(files, e);
    }
  }

  lemma {:induction false} AllKeptMembers(files: seq<File>, t: Line)
    ensures t in AllKept(files) <==> t.Decoded? && exists i | 0 <= i < |files| :: t in files[i].lines
  {
    if files != [] {
      hide Kept;
      var before, last := files[..|files| - 1], files[|files| - 1];
      AllKeptMembers(before, t);
      KeptMembers(last.lines, t);
      assert AllKept(files) == AllKept(before) + Kept(last.lines);
      hide AllKept;
      if i :| 0 <= i < |files| && t in files[i].lines {
        if i < |before| { assert before[i] == files[i]; }
      }
      if i :| 0 <= i < |before| && t in before[i].lines { assert files[i] == before[i]; }
    }
  }

  lemma {:induction false} KeptMembers(lines: seq<Line>, t: Line)
    ensures t in Kept(lines) <==> t.Decoded? && t in lines
  {
    if lines != [] {
      KeptMembers(lines[..|lines| - 1], t);
      assert lines == lines[..|lines| - 1] + [lines[|lines| - 1]];
    }
  }

  lemma TextsLogged(files: seq<File>, e: Event)
    requires FeedAll(FRESH, files).core.errors == []
    ensures e in Logged(files) <==> exists l | l in FeedAll(FRESH, files).source :: l.event == e
  {
    hide FeedAll, Logged, AllKept;
    var source := FeedAll(FRESH, files).source;
    FedSource(files);
    LoggedMembers(files, e);
    var texts := Texts(source);
    if i, t :| 0 <= i < |files| && t in files[i].lines && t.Decoded? && t.event == e {
      AllKeptMembers(files, t);
      var k :| 0 <= k < |texts| && texts[k] == t;
      assert source[k] in source;
    }
    if l :| l in source && l.event == e {
      var k :| 0 <= k < |source| && source[k] == l;
      assert texts[k] in texts;
      AllKeptMembers(files, texts[k]);
    }
  }

  ghost predicate RunEndsSessions(log: seq<Event>) {
    forall s :: SessionFile(Of(log, s))
  }

  lemma OfClosed(log: seq<Event>, s: string)
    requires Closed(log)
    ensures Closed(Of(log, s))
  {
    OfMembers(log, s);
    forall e | e in Of(log, s) ensures SessionClosed(Of(log, s), e.sessionId) {
      assert SessionClosed(log, e.sessionId);
      var x :| x in log && x.sessionId == e.sessionId && x.payload.SessionFinished?;
      assert x in Of(log, s);
    }
  }

  lemma EmptySessionFile(log: seq<Event>, s: string)
    requires forall e | e in log :: e.sessionId != s
    ensures SessionFile(Of(log, s))
  {
    OfForeign(log, s);
  }

  lemma DividedShape(log: seq<Event>, sessions: seq<string>, blocks: seq<seq<Event>>)
    requires Closed(log) && |blocks| == |sessions|
    requires forall i | 0 <= i < |sessions| :: blocks[i] == Of(log, sessions[i])
    requires forall i, j | 0 <= i < j < |sessions| :: sessions[i] != sessions[j]
    ensures Separate(blocks) && AllClosed(blocks)
  {
    hide Closed;
    forall i | 0 <= i < |blocks| ensures Closed(blocks[i]) && forall e | e in blocks[i] :: e.sessionId == sessions[i] {
      OfClosed(log, sessions[i]);
      OfMembers(log, sessions[i]);
    }
  }

  /** The files of the regrouped run are lawful exactly when its sessions can stand alone. */
  lemma RegroupedExact(lines: seq<SourceLine>, log: seq<Event>)
    requires Lawful(log) && Closed(log) && StoredForm(lines, log)
    ensures LawfulRun(Regrouped(lines)) <==> StaysInSession(log) && RunEndsSessions(log)
    ensures SameEvents(Logged(Regrouped(lines)), log)
  {
    hide Closed, Lawful, LawfulRun, Coherent, StaysInSession, Sessions, Group, Blocks, Logged, Readable, SessionFile, Separate, AllClosed, New, Of, SeparateLines;
    var files, sessions := Regrouped(lines), Sessions(lines);
    SessionsDistinct(lines);
    RegroupedSeparate(lines);
    RegroupedBlocks(lines, log);
    LawfulRunByBlocks(files);
    BlocksFlatten(files);
    DividedShape(log, sessions, Blocks(files));
    BlocksExact(Blocks(files));
    forall e | e in log ensures e.sessionId in sessions {
      var l :| l in lines && l.event == e;
    }
    DividesExactly(log, sessions, Blocks(files));
    forall s | s !in sessions ensures SessionFile(Of(log, s)) { EmptySessionFile(log, s); }
    forall e ensures e in Logged(files) <==> e in log {
      FlatMembers(Blocks(files), e);
      OfMembers(log, e.sessionId);
      if e in log {
        var i :| 0 <= i < |sessions| && sessions[i] == e.sessionId;
        assert e in Blocks(files)[i];
      }
      if i :| 0 <= i < |sessions| && e in Blocks(files)[i] { OfMembers(log, sessions[i]); }
    }
  }

  // ---------------------------------------------------------------- counting the lines again

  function GroupedCount(lines: seq<SourceLine>, sessions: seq<string>): nat {
    if sessions == [] then 0
    else GroupedCount(lines, sessions[..|sessions| - 1]) + |Group(lines, sessions[|sessions| - 1])|
  }

  lemma {:induction false} GroupedSnoc(lines: seq<SourceLine>, sessions: seq<string>)
    requires lines != [] && forall i, j | 0 <= i < j < |sessions| :: sessions[i] != sessions[j]
    ensures GroupedCount(lines, sessions) ==
            GroupedCount(lines[..|lines| - 1], sessions) + (if lines[|lines| - 1].event.sessionId in sessions then 1 else 0)
  {
    if sessions != [] {
      var s := sessions[|sessions| - 1];
      assert sessions == sessions[..|sessions| - 1] + [s];
      GroupedSnoc(lines, sessions[..|sessions| - 1]);
    }
  }

  /** Every line goes into exactly one group. */
  lemma {:induction false} GroupedAll(lines: seq<SourceLine>, sessions: seq<string>)
    requires forall i, j | 0 <= i < j < |sessions| :: sessions[i] != sessions[j]
    requires forall l | l in lines :: l.event.sessionId in sessions
    ensures GroupedCount(lines, sessions) == |lines|
  {
    if lines == [] {
      GroupedNone(sessions);
    } else {
      assert lines[|lines| - 1] in lines;
      GroupedSnoc(lines, sessions);
      GroupedAll(lines[..|lines| - 1], sessions);
    }
  }

  lemma {:induction false} GroupedNone(sessions: seq<string>)
    ensures GroupedCount([], sessions) == 0
  {
    if sessions != [] { GroupedNone(sessions[..|sessions| - 1]); }
  }

  lemma {:induction false} KeptDecoded(lines: seq<Line>)
    requires forall t | t in lines :: t.Decoded?
    ensures Kept(lines) == lines
  {
    if lines != [] {
      assert lines[|lines| - 1] in lines;
      KeptDecoded(lines[..|lines| - 1]);
    }
  }

  lemma {:induction false} GroupFilesKept(lines: seq<SourceLine>, sessions: seq<string>)
    ensures |AllKept(GroupFiles(lines, sessions))| == GroupedCount(lines, sessions)
  {
    if sessions != [] {
      var before, s := sessions[..|sessions| - 1], sessions[|sessions| - 1];
      GroupFilesKept(lines, before);
      GroupMembers(lines, s);
      KeptDecoded(Group(lines, s));
      assert GroupFiles(lines, sessions)[..|before|] == GroupFiles(lines, before);
    }
  }

  lemma RegroupedKept(lines: seq<SourceLine>)
    ensures |AllKept(Regrouped(lines))| == |lines|
  {
    hide Sessions, AllKept, Group;
    SessionsDistinct(lines);
    GroupFilesKept(lines, Sessions(lines));
    GroupedAll(lines, Sessions(lines));
  }

  // ---------------------------------------------------------------- the archived run

  datatype Stored = Stored(lines: seq<SourceLine>, lineCount: nat, summary: Summary, fingerprint: string)

  function Archived(v: Validation, digest: Event -> string, hash: string -> string): Stored {
    Stored(OrderLines(v.source), |v.source|, Summarize(v), Fingerprint(v.source, digest, hash))
  }

  function Replayed(lines: seq<SourceLine>): Validation {
    FeedAll(FRESH, Regrouped(lines))
  }

  /** Everything the comparison looks at: all of the summary but the number of files. */
  predicate SameFacts(a: Summary, b: Summary) {
    a == b.(files := a.files)
  }

  /** No difference is found between the stored run and its replay. */
  predicate Faithful(stored: Stored, digest: Event -> string, hash: string -> string) {
    var v := Replayed(stored.lines);
    && Valid(v.core)
    && SameFacts(stored.summary, Summarize(v))
    && |stored.lines| == stored.lineCount
    && Fingerprint(v.source, digest, hash) == stored.fingerprint
  }

  lemma ReplayedDuplicates(files: seq<File>, lines: seq<SourceLine>)
    requires FeedAll(FRESH, files).core.errors == [] && Replayed(lines).core.errors == []
    requires |lines| == |FeedAll(FRESH, files).source|
    requires SameEvents(Logged(Regrouped(lines)), Logged(files))
    ensures Replayed(lines).duplicates == FeedAll(FRESH, files).duplicates
  {
    hide FeedAll, Logged, AllKept, Regrouped, Lawful, Originals, Texts;
    FedSource(files);
    FedSource(Regrouped(lines));
    TextsLength(FeedAll(FRESH, files).source);
    RegroupedKept(lines);
    FedExact(files);
    FedExact(Regrouped(lines));
    LawfulIsDistinct(Logged(files));
    LawfulIsDistinct(Logged(Regrouped(lines)));
    TallySame(Logged(Regrouped(lines)), Logged(files));
  }

  lemma TextsLength(source: seq<SourceLine>)
    ensures |Texts(source)| == |source|
  {
  }

  /** A replay without error ends where ingestion ended. */
  lemma ReplayAgrees(files: seq<File>, digest: Event -> string, hash: string -> string)
    requires var v := FeedAll(FRESH, files); Valid(v.core) && Replayed(OrderLines(v.source)).core.errors == []
    requires SameEvents(Logged(Regrouped(OrderLines(FeedAll(FRESH, files).source))), Logged(files))
    ensures Replayed(OrderLines(FeedAll(FRESH, files).source)).core == FeedAll(FRESH, files).core
    ensures Faithful(Archived(FeedAll(FRESH, files), digest, hash), digest, hash)
  {
    hide FeedAll, Logged, OrderLines, Regrouped, Preimage, Valid, Complete, DerivedVerdict, Originals;
    var v := FeedAll(FRESH, files);
    var lines := OrderLines(v.source);
    ValidClean(v.core);
    OrderedShape(v.source);
    ReplayedDuplicates(files, lines);
    SameEventsSameReport(Regrouped(lines), files);
    FedSource(files);
    FedSource(Regrouped(lines));
    SameEventsSamePreimage(Replayed(lines).source, v.source, digest);
  }

  lemma ValidClean(c: Core)
    requires Valid(c)
    ensures c.errors == []
  {
  }

  /**
   * Replay fidelity. A valid complete run replays without any difference exactly when every event
   * about an attempt comes from the session that started it and a run.finished is the last event
   * of its session.
   */
  lemma ReplayExact(files: seq<File>, digest: Event -> string, hash: string -> string)
    requires Valid(FeedAll(FRESH, files).core) && Complete(FeedAll(FRESH, files).core)
    ensures Faithful(Archived(FeedAll(FRESH, files), digest, hash), digest, hash) <==>
            StaysInSession(Logged(files)) && RunEndsSessions(Logged(files))
  {
    hide FeedAll, Logged, OrderLines, Regrouped, Fingerprint, Summarize, Valid, Complete, Closed, Lawful, LawfulRun, StaysInSession, RunEndsSessions, StoredForm;
    var v := FeedAll(FRESH, files);
    var lines := OrderLines(v.source);
    ValidClean(v.core);
    FedExact(files);
    FinishedSessionsClose(files);
    StoredOrdered(files);
    RegroupedExact(lines, Logged(files));
    FedExact(Regrouped(lines));
    if LawfulRun(Regrouped(lines)) {
      ReplayAgrees(files, digest, hash);
    } else if Valid(Replayed(lines).core) {
      ValidClean(Replayed(lines).core);
    }
  }

  // ---------------------------------------------------------------- one file per session

  lemma {:induction false} OfFlat(blocks: seq<seq<Event>>, s: string)
    requires Separate(blocks)
    ensures Of(Flat(blocks), s) == [] || Of(Flat(blocks), s) in blocks
  {
    if blocks != [] {
      var before, last := blocks[..|blocks| - 1], blocks[|blocks| - 1];
      SeparatePrefix(blocks);
      OfFlat(before, s);
      OfJoin(Flat(before), last, s);
      if e :| e in last && e.sessionId == s {
        forall x | x in last ensures x.sessionId == s { assert last == blocks[|blocks| - 1]; }
        OfOwn(last, s);
        OfForeign(Flat(before), s);
        assert [] + last == last;
      } else {
        OfForeign(last, s);
        assert Of(Flat(before), s) + [] == Of(Flat(before), s);
      }
    }
  }

  /** A valid complete run with one file per session always replays without a difference. */
  lemma SessionFilesReplay(files: seq<File>, digest: Event -> string, hash: string -> string)
    requires Valid(FeedAll(FRESH, files).core) && Complete(FeedAll(FRESH, files).core) && OneFilePerSession(files)
    ensures Faithful(Archived(FeedAll(FRESH, files), digest, hash), digest, hash)
    ensures Replayed(OrderLines(FeedAll(FRESH, files).source)).core == FeedAll(FRESH, files).core
  {
    hide FeedAll, Logged, OrderLines, Regrouped, Fingerprint, Summarize, Complete, Closed, LawfulRun, StaysInSession, StoredForm, Faithful, Blocks, New, OneFilePerSession, Separate;
    var log := Logged(files);
    FedExact(files);
    FinishedSessionsClose(files);
    CoherentFiles(files);
    BlocksFlatten(files);
    LawfulRunByBlocks(files);
    forall s ensures Lawful(Of(log, s)) && SessionFile(Of(log, s)) {
      OfFlat(Blocks(files), s);
      EmptyCompatible([]);
    }
    AloneStays(log);
    ReplayExact(files, digest, hash);
    StoredOrdered(files);
    RegroupedExact(OrderLines(FeedAll(FRESH, files).source), log);
    FedExact(Regrouped(OrderLines(FeedAll(FRESH, files).source)));
    ReplayAgrees(files, digest, hash);
  }

  // ---------------------------------------------------------------- the replay itself

  lemma ValidDistinct(files: seq<File>)
    requires Valid(FeedAll(FRESH, files).core)
    ensures RunValidation.DistinctNumbers(FeedAll(FRESH, files).core.attempts)
  {
    hide FeedAll, Logged, LawfulRun, StepInv, ExecutionInv, SeenInv, SessionInv, Lawful;
    FedExact(files);
    DistinctNumbersOf(FeedAll(FRESH, files).core.attempts, Logged(files));
  }

  lemma DistinctNumbersOf(attempts: map<string, AttemptState>, log: seq<Event>)
    requires AttemptInv(attempts, log) && Lawful(log)
    ensures RunValidation.DistinctNumbers(attempts)
  {
    forall a, b | a in attempts && b in attempts && a != b && attempts[a].execution == attempts[b].execution
      ensures attempts[a].number != attempts[b].number
    {
      hide Lawful;
      var x :| x in log && x.payload.AttemptStarted? && x.payload.attemptId == a;
      var y :| y in log && y.payload.AttemptStarted? && y.payload.attemptId == b;
      assert x.payload.execution == attempts[a].execution && y.payload.execution == attempts[b].execution;
      hide AttemptInv;
      var i :| 0 <= i < |log| && log[i] == x;
      var j :| 0 <= j < |log| && log[j] == y;
      if i < j { ExecutionsAreOneTest(log, i, j); } else { ExecutionsAreOneTest(log, j, i); }
    }
  }

  lemma SessionsSnoc(lines: seq<SourceLine>, i: nat)
    requires i < |lines|
    ensures var s, before := lines[i].event.sessionId, Sessions(lines[..i]);
            Sessions(lines[..i + 1]) == if s in before then before else before + [s]
  {
    assert lines[..i + 1][..i] == lines[..i];
    var m := Sorting.Map(lines[..i + 1], SessionOf);
    assert m[..|m| - 1] == Sorting.Map(lines[..i], SessionOf);
  }

  lemma GroupSnoc(lines: seq<SourceLine>, i: nat, s: string)
    requires i < |lines|
    ensures Group(lines[..i + 1], s) ==
            Group(lines[..i], s) + (if lines[i].event.sessionId == s then [Decoded(lines[i].event, lines[i].raw)] else [])
  {
    assert lines[..i + 1][..i] == lines[..i];
  }

  lemma {:induction false} GroupForeign(lines: seq<SourceLine>, s: string)
    requires forall l | l in lines :: l.event.sessionId != s
    ensures Group(lines, s) == []
  {
    if lines != [] {
      assert lines[|lines| - 1] in lines;
      GroupForeign(lines[..|lines| - 1], s);
    }
  }

  lemma GroupUnknown(lines: seq<SourceLine>, s: string)
    requires s !in Sessions(lines)
    ensures Group(lines, s) == []
  {
    hide Sessions;
    SessionsDistinct(lines);
    GroupForeign(lines, s);
  }

  /** The lines of each session, sessions in order of first appearance. */
  method BySession(lines: seq<SourceLine>) returns (order: seq<string>, groups: map<string, seq<Line>>)
    ensures order == Sessions(lines)
    ensures forall s :: s in groups <==> s in order
    ensures forall s | s in groups :: groups[s] == Group(lines, s)
  {
    hide Sessions, Group;
    order, groups := [], map[];
    assert Sessions([]) == [] by { EmptySessions(); }
    for i := 0 to |lines|
      invariant order == Sessions(lines[..i])
      invariant forall s :: s in groups <==> s in order
      invariant forall s | s in groups :: groups[s] == Group(lines[..i], s)
    {
      var session, text := lines[i].event.sessionId, Decoded(lines[i].event, lines[i].raw);
      SessionsSnoc(lines, i);
      forall s { GroupSnoc(lines, i, s); }
      if session in groups {
        groups := groups[session := groups[session] + [text]];
      } else {
        GroupUnknown(lines[..i], session);
        order := order + [session];
        groups := groups[session := [text]];
      }
    }
    assert lines[..|lines|] == lines;
  }

  lemma EmptySessions()
    ensures Sessions([]) == []
  {
  }

  datatype Difference = ReplayInvalid | FactsDiffer | LineCountDiffers | ContentDiffers

  /** Replays the stored lines through a fresh validator and lists what differs. */
  method ReplayStored(stored: Stored, digest: Event -> string, hash: string -> string) returns (differences: seq<Difference>)
    ensures differences == [] <==> Faithful(stored, digest, hash)
  {
    hide Sessions, Group, Fingerprint, Summarize, Valid, Feed, RunValidation.DistinctNumbers;
    var run := new RunValidation.RunValidator();
    var order, groups := BySession(stored.lines);
    ghost var files := Regrouped(stored.lines);
    for i := 0 to |order|
      invariant run.State() == FeedAll(FRESH, files[..i])
    {
      assert files[..i + 1][..i] == files[..i];
      run.Feed(groups[order[i]], order[i], true);
    }
    assert files[..|files|] == files;
    var valid, summary := run.Finish(false);
    if valid { ValidDistinct(files); }
    differences := [];
    if !valid {
      differences := differences + [ReplayInvalid];
    }
    if !SameFacts(stored.summary, summary) {
      differences := differences + [FactsDiffer];
    }
    if |stored.lines| != stored.lineCount {
      differences := differences + [LineCountDiffers];
    }
    if Fingerprint(run.source, digest, hash) != stored.fingerprint {
      differences := differences + [ContentDiffers];
    }
  }
}
