/**
Test history: the occurrences of a run, the in-memory history over a project's runs, the durable
index rows, and the keyset pages read from them.
*/
module History {
  import opened Protocol
  import opened Validator
  import opened Sorting
  import opened Projection

  // ---------------------------------------------------------------- occurrences

  datatype Occurrence = Occurrence(
    projectId: string, runnerName: string, historicalId: string, runId: string, executionId: string,
    sessionIds: seq<string>, stability: string, occurredAt: string, attemptCount: nat, complete: bool,
    finalStatus: Option<Status>, expected: Option<Status>, flaky: bool, runVerdict: Verdict, runComplete: bool,
    sessionStatus: Option<SessionStatus>)

  function AttemptSession(a: Attempt): string {
    a.started.sessionId
  }

  function OccurrenceOf(run: ProjectedRun, t: TestExecution): Occurrence
    requires t.identity.historicalId.Some? && t.runnerName.Some? && t.attempts != []
  {
    var final := t.attempts[|t.attempts| - 1];
    Occurrence(run.projectId, t.runnerName.value, t.identity.historicalId.value, run.runId, t.executionId,
               SortedSet(Map(t.attempts, AttemptSession)), t.identity.stability, t.attempts[0].started.occurredAt,
               |t.attempts|, t.complete, t.finalStatus, final.expected, t.flaky, run.verdict, run.complete,
               if final.started.sessionId in run.sessions then run.sessions[final.started.sessionId].status else None)
  }

  /** An execution is history when it carries a historical id under a declared runner. */
  predicate Historical(t: TestExecution) {
    t.identity.historicalId.Some? && t.runnerName.Some? && t.attempts != []
  }

  /** The history occurrences among some executions of a run, in their order. */
  function OccurrencesAmong(run: ProjectedRun, executions: seq<TestExecution>): seq<Occurrence> {
    if executions == [] then []
    else
      var t := executions[|executions| - 1];
      OccurrencesAmong(run, executions[..|executions| - 1]) + (if Historical(t) then [OccurrenceOf(run, t)] else [])
  }

  function Occurrences(run: ProjectedRun): seq<Occurrence> {
    OccurrencesAmong(run, run.executions)
  }

  lemma {:induction false} OccurrenceMembers(run: ProjectedRun, executions: seq<TestExecution>, o: Occurrence)
    ensures o in OccurrencesAmong(run, executions) <==> exists t | t in executions :: Historical(t) && OccurrenceOf(run, t) == o
  {
    if executions != [] {
      OccurrenceMembers(run, executions[..|executions| - 1], o);
      assert executions == executions[..|executions| - 1] + [executions[|executions| - 1]];
    }
  }

  /** Executions of a run have different ids; the projector gives one execution per id. */
  ghost predicate DistinctExecutions(executions: seq<TestExecution>) {
    forall i, j | 0 <= i < j < |executions| :: executions[i].executionId != executions[j].executionId
  }

  ghost predicate Keyed(os: seq<Occurrence>) {
    forall i, j | 0 <= i < j < |os| :: os[i].runId != os[j].runId || os[i].executionId != os[j].executionId
  }

  lemma OccurrenceNamed(run: ProjectedRun, t: TestExecution)
    requires Historical(t)
    ensures var o := OccurrenceOf(run, t); o.runId == run.runId && o.projectId == run.projectId && o.executionId == t.executionId
  {
  }

  lemma KeyedJoin(a: seq<Occurrence>, b: seq<Occurrence>)
    requires Keyed(a) && Keyed(b)
    requires forall x, y | x in a && y in b :: x.runId != y.runId || x.executionId != y.executionId
    ensures Keyed(a + b)
  {
  }

  lemma OtherExecution(run: ProjectedRun, executions: seq<TestExecution>, o: Occurrence)
    requires DistinctExecutions(executions) && executions != []
    requires o in OccurrencesAmong(run, executions[..|executions| - 1])
    ensures o.executionId != executions[|executions| - 1].executionId
  {
    hide OccurrenceOf;
    var before := executions[..|executions| - 1];
    OccurrenceMembers(run, before, o);
    var u :| u in before && Historical(u) && OccurrenceOf(run, u) == o;
    OccurrenceNamed(run, u);
    var k :| 0 <= k < |before| && before[k] == u;
    assert executions[k] == u;
  }

  lemma {:induction false} OccurrencesKeyed(run: ProjectedRun, executions: seq<TestExecution>)
    requires DistinctExecutions(executions)
    ensures Keyed(OccurrencesAmong(run, executions))
    ensures forall o | o in OccurrencesAmong(run, executions) :: o.runId == run.runId && o.projectId == run.projectId
  {
    if executions != [] {
      hide OccurrenceOf, Keyed;
      var before, t := executions[..|executions| - 1], executions[|executions| - 1];
      OccurrencesKeyed(run, before);
      var os := OccurrencesAmong(run, before);
      if Historical(t) {
        OccurrenceNamed(run, t);
        var one := [OccurrenceOf(run, t)];
        assert Keyed(one) by { OneKeyed(OccurrenceOf(run, t)); }
        forall o | o in os ensures o.executionId != t.executionId { OtherExecution(run, executions, o); }
        KeyedJoin(os, one);
      } else {
        assert OccurrencesAmong(run, executions) == os;
      }
    }
  }

  lemma OneKeyed(o: Occurrence)
    ensures Keyed([o])
  {
  }

  // ---------------------------------------------------------------- index rows and their order

  datatype Position = Position(epochMs: int, leap: int)

  datatype Row = Row(occurrence: Occurrence, position: Position)

  function RowOf(o: Occurrence, at: string -> Position): Row {
    Row(o, at(o.occurredAt))
  }

  /** Instant, then place inside a leap second, then run id, then execution id. */
  predicate RowLe(a: Row, b: Row) {
    if a.position.epochMs != b.position.epochMs then a.position.epochMs < b.position.epochMs
    else if a.position.leap != b.position.leap then a.position.leap < b.position.leap
    else if a.occurrence.runId != b.occurrence.runId then LexLe(a.occurrence.runId, b.occurrence.runId)
    else LexLe(a.occurrence.executionId, b.occurrence.executionId)
  }

  lemma RowTransitive(a: Row, b: Row, c: Row)
    requires RowLe(a, b) && RowLe(b, c)
    ensures RowLe(a, c)
  {
    LexTotal(a.occurrence.runId, b.occurrence.runId);
    LexTotal(b.occurrence.runId, c.occurrence.runId);
    if LexLe(a.occurrence.runId, b.occurrence.runId) && LexLe(b.occurrence.runId, c.occurrence.runId) {
      LexTransitive(a.occurrence.runId, b.occurrence.runId, c.occurrence.runId);
    }
    if LexLe(a.occurrence.executionId, b.occurrence.executionId) && LexLe(b.occurrence.executionId, c.occurrence.executionId) {
      LexTransitive(a.occurrence.executionId, b.occurrence.executionId, c.occurrence.executionId);
    }
  }

  lemma RowTotal()
    ensures Total(RowLe)
  {
    forall a: Row, b: Row ensures RowLe(a, b) || RowLe(b, a) {
      LexTotal(a.occurrence.runId, b.occurrence.runId);
      LexTotal(a.occurrence.executionId, b.occurrence.executionId);
    }
    forall a, b, c | RowLe(a, b) && RowLe(b, c) ensures RowLe(a, c) { RowTransitive(a, b, c); }
  }

  lemma RowTies(a: Row, b: Row)
    requires RowLe(a, b) && RowLe(b, a)
    ensures a.position == b.position && a.occurrence.runId == b.occurrence.runId && a.occurrence.executionId == b.occurrence.executionId
  {
    LexTotal(a.occurrence.runId, b.occurrence.runId);
    LexTotal(a.occurrence.executionId, b.occurrence.executionId);
  }

  ghost predicate KeyedRows(rows: seq<Row>) {
    forall a, b | a in rows && b in rows && a.occurrence.runId == b.occurrence.runId && a.occurrence.executionId == b.occurrence.executionId ::
      a == b
  }

  ghost predicate Unrepeated<T>(s: seq<T>) {
    forall i, j | 0 <= i < j < |s| :: s[i] != s[j]
  }

  /** Rows with a key of their own have one order. */
  lemma SortedRows(rows: seq<Row>)
    requires Unrepeated(rows) && KeyedRows(rows)
    ensures Strict(Sort(rows, RowLe), RowLe)
    ensures multiset(Sort(rows, RowLe)) == multiset(rows) && |Sort(rows, RowLe)| == |rows|
    ensures forall r :: r in Sort(rows, RowLe) <==> r in rows
  {
    hide Sort, RowLe;
    RowTotal();
    SortSorts(rows, RowLe);
    SortKeeps(rows, RowLe);
    var sorted := Sort(rows, RowLe);
    MultisetDistinct(rows, sorted);
    forall i, j | 0 <= i < j < |sorted| ensures RowLe(sorted[i], sorted[j]) && !RowLe(sorted[j], sorted[i]) {
      assert sorted[i] in rows && sorted[j] in rows;
      if RowLe(sorted[j], sorted[i]) { RowTies(sorted[i], sorted[j]); }
    }
  }

  // ---------------------------------------------------------------- pages

  datatype Key = Key(projectId: string, runnerName: string, historicalId: string)

  predicate Under(r: Row, key: Key) {
    r.occurrence.projectId == key.projectId && r.occurrence.runnerName == key.runnerName && r.occurrence.historicalId == key.historicalId
  }

  /** A row strictly beyond the cursor. */
  predicate Beyond(r: Row, after: Option<Row>) {
    after.Some? ==> RowLe(after.value, r) && !RowLe(r, after.value)
  }

  function Select(table: seq<Row>, key: Key, after: Option<Row>): seq<Row> {
    if table == [] then []
    else
      var last := table[|table| - 1];
      Select(table[..|table| - 1], key, after) + (if Under(last, key) && Beyond(last, after) then [last] else [])
  }

  datatype Page = Page(rows: seq<Row>, next: Option<Row>)

  /** One page of a snapshot: the first `limit` rows beyond the cursor, and where to continue. */
  function HistoryPage(table: seq<Row>, key: Key, after: Option<Row>, limit: nat): Page
    requires limit > 0
  {
    var rows := Sort(Select(table, key, after), RowLe);
    if |rows| > limit then Page(rows[..limit], Some(rows[limit - 1])) else Page(rows, None)
  }

  lemma {:induction false} SelectMembers(table: seq<Row>, key: Key, after: Option<Row>)
    ensures forall r :: r in Select(table, key, after) <==> r in table && Under(r, key) && Beyond(r, after)
  {
    if table != [] {
      SelectMembers(table[..|table| - 1], key, after);
      assert table == table[..|table| - 1] + [table[|table| - 1]];
    }
  }

  lemma {:induction false} SelectUnrepeated(table: seq<Row>, key: Key, after: Option<Row>)
    requires Unrepeated(table)
    ensures Unrepeated(Select(table, key, after))
  {
    if table != [] {
      var before, last := table[..|table| - 1], table[|table| - 1];
      SelectUnrepeated(before, key, after);
      SelectMembers(before, key, after);
      var s := Select(before, key, after);
      forall i | 0 <= i < |s| ensures s[i] != last { assert s[i] in before; }
    }
  }

  ghost predicate Table(table: seq<Row>) {
    Unrepeated(table) && KeyedRows(table)
  }

  lemma SelectTable(table: seq<Row>, key: Key, after: Option<Row>)
    requires Table(table)
    ensures Unrepeated(Select(table, key, after)) && KeyedRows(Select(table, key, after))
  {
    SelectMembers(table, key, after);
    SelectUnrepeated(table, key, after);
  }

  /** The whole answer in order. */
  function Whole(table: seq<Row>, key: Key): seq<Row> {
    Sort(Select(table, key, None), RowLe)
  }

  lemma StrictSuffix(s: seq<Row>, i: nat)
    requires Strict(s, RowLe) && i < |s|
    ensures Strict(s[i + 1..], RowLe)
    ensures forall r :: r in s[i + 1..] <==> r in s && RowLe(s[i], r) && !RowLe(r, s[i])
  {
    hide RowLe;
    var rest := s[i + 1..];
    forall r | r in rest ensures r in s && RowLe(s[i], r) && !RowLe(r, s[i]) {
      var k :| 0 <= k < |rest| && rest[k] == r;
      assert s[i + 1 + k] == r;
    }
    forall r | r in s && RowLe(s[i], r) && !RowLe(r, s[i]) ensures r in rest {
      var k :| 0 <= k < |s| && s[k] == r;
      assert k > i;
      assert rest[k - i - 1] == r;
    }
  }

  /** What lies beyond a row of the answer is the rest of the answer. */
  lemma BeyondIsSuffix(table: seq<Row>, key: Key, i: nat)
    requires Table(table) && i < |Whole(table, key)|
    ensures Sort(Select(table, key, Some(Whole(table, key)[i])), RowLe) == Whole(table, key)[i + 1..]
  {
    hide Sort, Select, RowLe, Under;
    var whole := Whole(table, key);
    var cursor := Some(whole[i]);
    SelectTable(table, key, None);
    SelectTable(table, key, cursor);
    SelectMembers(table, key, None);
    SelectMembers(table, key, cursor);
    SortedRows(Select(table, key, None));
    SortedRows(Select(table, key, cursor));
    StrictSuffix(whole, i);
    StrictUnique(Sort(Select(table, key, cursor), RowLe), whole[i + 1..], RowLe);
  }

  /**
   * Walking the pages of a snapshot by cursor gives the whole answer, each row once and in order,
   * whatever the page size.
   */
  method WalkHistory(table: seq<Row>, key: Key, limit: nat) returns (rows: seq<Row>)
    requires limit > 0 && Table(table)
    ensures rows == Whole(table, key)
  {
    hide Table, Select, Sort;
    ghost var whole := Whole(table, key);
    rows := [];
    var after: Option<Row> := None;
    var done := false;
    while !done
      invariant |rows| <= |whole| && rows == whole[..|rows|]
      invariant done ==> rows == whole
      invariant !done ==> Sort(Select(table, key, after), RowLe) == whole[|rows|..]
      invariant !done && after.Some? ==> |rows| < |whole|
      decreases |whole| - |rows|, if done then 0 else 1
    {
      var page := HistoryPage(table, key, after, limit);
      ghost var rest := whole[|rows|..];
      assert rest[..|page.rows|] == page.rows;
      rows := rows + page.rows;
      if page.next.None? {
        done := true;
      } else {
        BeyondIsSuffix(table, key, |rows| - 1);
        after := page.next;
      }
    }
  }

  // ---------------------------------------------------------------- the in-memory model

  /** The runs of a project, each under its own id, in some order of enumeration. */
  ghost predicate Project(runs: seq<ProjectedRun>, projectId: string) {
    && (forall run | run in runs :: run.projectId == projectId && DistinctExecutions(run.executions))
    && (forall i, j | 0 <= i < j < |runs| :: runs[i].runId != runs[j].runId)
  }

  function AllOccurrences(runs: seq<ProjectedRun>): seq<Occurrence> {
    if runs == [] then [] else AllOccurrences(runs[..|runs| - 1]) + Occurrences(runs[|runs| - 1])
  }

  predicate Of(o: Occurrence, key: Key) {
    o.projectId == key.projectId && o.runnerName == key.runnerName && o.historicalId == key.historicalId
  }

  function OfKey(os: seq<Occurrence>, key: Key): seq<Occurrence> {
    if os == [] then [] else OfKey(os[..|os| - 1], key) + (if Of(os[|os| - 1], key) then [os[|os| - 1]] else [])
  }

  function HistoryLe(at: string -> Position): (Occurrence, Occurrence) -> bool {
    (a: Occurrence, b: Occurrence) => RowLe(RowOf(a, at), RowOf(b, at))
  }

  /** The history the read model assembles: the occurrences under a key, sorted. */
  function TestHistory(runs: seq<ProjectedRun>, key: Key, at: string -> Position): seq<Occurrence> {
    Sort(OfKey(AllOccurrences(runs), key), HistoryLe(at))
  }

  function Rowed(at: string -> Position): Occurrence -> Row {
    (o: Occurrence) => RowOf(o, at)
  }

  function OccurrenceIn(r: Row): Occurrence {
    r.occurrence
  }

  /** The index of the same runs: one row for each occurrence. */
  function IndexTable(runs: seq<ProjectedRun>, at: string -> Position): seq<Row> {
    Map(AllOccurrences(runs), Rowed(at))
  }

  lemma {:induction false} AllOccurrencesMembers(runs: seq<ProjectedRun>, o: Occurrence)
    ensures o in AllOccurrences(runs) <==> exists run | run in runs :: o in Occurrences(run)
  {
    if runs != [] {
      AllOccurrencesMembers(runs[..|runs| - 1], o);
      assert runs == runs[..|runs| - 1] + [runs[|runs| - 1]];
    }
  }

  lemma OtherRun(runs: seq<ProjectedRun>, projectId: string, o: Occurrence)
    requires Project(runs, projectId) && runs != [] && o in AllOccurrences(runs[..|runs| - 1])
    ensures o.runId != runs[|runs| - 1].runId
  {
    hide AllOccurrences, OccurrencesAmong;
    var before := runs[..|runs| - 1];
    AllOccurrencesMembers(before, o);
    var run :| run in before && o in Occurrences(run);
    var k :| 0 <= k < |before| && before[k] == run;
    assert runs[k] == run && run in runs;
    OccurrencesKeyed(run, run.executions);
  }

  lemma {:induction false} AllOccurrencesKeyed(runs: seq<ProjectedRun>, projectId: string)
    requires Project(runs, projectId)
    ensures Keyed(AllOccurrences(runs))
  {
    if runs != [] {
      hide Keyed, OccurrencesAmong;
      var before, last := runs[..|runs| - 1], runs[|runs| - 1];
      assert forall run | run in before :: run in runs;
      AllOccurrencesKeyed(before, projectId);
      assert last in runs;
      OccurrencesKeyed(last, last.executions);
      forall o | o in AllOccurrences(before) ensures o.runId != last.runId { OtherRun(runs, projectId, o); }
      KeyedJoin(AllOccurrences(before), Occurrences(last));
    } else {
      assert AllOccurrences(runs) == [];
    }
  }

  lemma {:induction false} OfKeyMembers(os: seq<Occurrence>, key: Key)
    ensures forall o :: o in OfKey(os, key) <==> o in os && Of(o, key)
  {
    if os != [] {
      OfKeyMembers(os[..|os| - 1], key);
      assert os == os[..|os| - 1] + [os[|os| - 1]];
    }
  }

  lemma {:induction false} OfKeyKeyed(os: seq<Occurrence>, key: Key)
    requires Keyed(os)
    ensures Keyed(OfKey(os, key))
  {
    if os != [] {
      var before, last := os[..|os| - 1], os[|os| - 1];
      OfKeyKeyed(before, key);
      OfKeyMembers(before, key);
      var some := OfKey(before, key);
      forall i | 0 <= i < |some| ensures some[i].runId != last.runId || some[i].executionId != last.executionId {
        assert some[i] in before;
      }
    }
  }

  lemma HistoryTotal(at: string -> Position)
    ensures Total(HistoryLe(at))
  {
    hide RowLe;
    RowTotal();
  }

  /** Occurrences with keys of their own have one history order. */
  lemma SortedHistory(os: seq<Occurrence>, at: string -> Position)
    requires Keyed(os)
    ensures Strict(Sort(os, HistoryLe(at)), HistoryLe(at))
    ensures multiset(Sort(os, HistoryLe(at))) == multiset(os)
    ensures forall o :: o in Sort(os, HistoryLe(at)) <==> o in os
  {
    hide Sort, RowLe;
    HistoryTotal(at);
    SortSorts(os, HistoryLe(at));
    SortKeeps(os, HistoryLe(at));
    var sorted := Sort(os, HistoryLe(at));
    MultisetDistinct(os, sorted);
    forall i, j | 0 <= i < j < |sorted| ensures HistoryLe(at)(sorted[i], sorted[j]) && !HistoryLe(at)(sorted[j], sorted[i]) {
      assert sorted[i] in os && sorted[j] in os && sorted[i] != sorted[j];
      if RowLe(RowOf(sorted[j], at), RowOf(sorted[i], at)) { RowTies(RowOf(sorted[i], at), RowOf(sorted[j], at)); }
    }
  }

  lemma KeyedTells(os: seq<Occurrence>, a: Occurrence, b: Occurrence)
    requires Keyed(os) && a in os && b in os && a.runId == b.runId && a.executionId == b.executionId
    ensures a == b
  {
  }

  lemma RowMembers(os: seq<Occurrence>, at: string -> Position)
    ensures forall r :: r in Map(os, Rowed(at)) <==> r.occurrence in os && r == RowOf(r.occurrence, at)
  {
    MapAt(os, Rowed(at));
    forall r: Row | r.occurrence in os && r == RowOf(r.occurrence, at) ensures r in Map(os, Rowed(at)) {
      var i :| 0 <= i < |os| && os[i] == r.occurrence;
      assert Map(os, Rowed(at))[i] == r;
    }
    forall r | r in Map(os, Rowed(at)) ensures r.occurrence in os && r == RowOf(r.occurrence, at) {
      var i :| 0 <= i < |os| && Map(os, Rowed(at))[i] == r;
    }
  }

  lemma IndexIsTable(runs: seq<ProjectedRun>, projectId: string, at: string -> Position)
    requires Project(runs, projectId)
    ensures Table(IndexTable(runs, at))
  {
    hide AllOccurrences, Map;
    var os := AllOccurrences(runs);
    AllOccurrencesKeyed(runs, projectId);
    MapAt(os, Rowed(at));
    RowMembers(os, at);
    forall a, b | a in IndexTable(runs, at) && b in IndexTable(runs, at)
      && a.occurrence.runId == b.occurrence.runId && a.occurrence.executionId == b.occurrence.executionId
      ensures a == b
    {
      KeyedTells(os, a.occurrence, b.occurrence);
    }
  }

  lemma StrictImage(rows: seq<Row>, at: string -> Position)
    requires Strict(rows, RowLe) && forall r | r in rows :: r == RowOf(r.occurrence, at)
    ensures Strict(Map(rows, OccurrenceIn), HistoryLe(at))
  {
    hide RowLe, Map;
    MapAt(rows, OccurrenceIn);
    var os := Map(rows, OccurrenceIn);
    forall i | 0 <= i < |rows| ensures RowOf(os[i], at) == rows[i] { assert rows[i] in rows; }
  }

  /**
   * The index refines the in-memory model: the rows of the index under a key, in index order, are
   * exactly the history the read model gives, however the two enumerate the runs.
   */
  lemma IndexRefines(runs: seq<ProjectedRun>, indexed: seq<ProjectedRun>, key: Key, at: string -> Position)
    requires Project(runs, key.projectId) && Project(indexed, key.projectId)
    requires forall run :: run in runs <==> run in indexed
    ensures Table(IndexTable(indexed, at))
    ensures Map(Whole(IndexTable(indexed, at), key), OccurrenceIn) == TestHistory(runs, key, at)
  {
    hide Sort, Select, RowLe, Map, AllOccurrences, OfKey, HistoryLe;
    var table := IndexTable(indexed, at);
    var whole, some := Whole(table, key), OfKey(AllOccurrences(runs), key);
    IndexIsTable(indexed, key.projectId, at);
    SelectTable(table, key, None);
    SelectMembers(table, key, None);
    SortedRows(Select(table, key, None));
    RowMembers(AllOccurrences(indexed), at);
    StrictImage(whole, at);
    AllOccurrencesKeyed(runs, key.projectId);
    OfKeyKeyed(AllOccurrences(runs), key);
    OfKeyMembers(AllOccurrences(runs), key);
    SortedHistory(some, at);
    forall o ensures o in Map(whole, OccurrenceIn) <==> o in some {
      AllOccurrencesMembers(runs, o);
      AllOccurrencesMembers(indexed, o);
      ImageMembers(whole, o);
      if o in some {
        assert RowOf(o, at) in table && Under(RowOf(o, at), key);
      }
    }
    StrictUnique(Map(whole, OccurrenceIn), TestHistory(runs, key, at), HistoryLe(at));
  }

  lemma ImageMembers(rows: seq<Row>, o: Occurrence)
    ensures o in Map(rows, OccurrenceIn) <==> exists r | r in rows :: r.occurrence == o
  {
    MapAt(rows, OccurrenceIn);
    if r :| r in rows && r.occurrence == o {
      var i :| 0 <= i < |rows| && rows[i] == r;
      assert Map(rows, OccurrenceIn)[i] == o;
    }
  }

  // ---------------------------------------------------------------- flakiness counts

  function FlakyCount(os: seq<Occurrence>): nat {
    if os == [] then 0 else FlakyCount(os[..|os| - 1]) + (if os[|os| - 1].flaky then 1 else 0)
  }

  lemma {:induction false} FlakyWithout(os: seq<Occurrence>, i: nat)
    requires i < |os|
    ensures FlakyCount(os) == FlakyCount(os[..i] + os[i + 1..]) + (if os[i].flaky then 1 else 0)
  {
    var before, rest := os[..|os| - 1], os[..i] + os[i + 1..];
    if i == |before| {
      assert rest == before;
    } else {
      FlakyWithout(before, i);
      assert rest[..|rest| - 1] == before[..i] + before[i + 1..];
    }
  }

  lemma {:induction false} FlakySame(a: seq<Occurrence>, b: seq<Occurrence>)
    requires multiset(a) == multiset(b)
    ensures FlakyCount(a) == FlakyCount(b)
  {
    if a == [] {
      assert |multiset(b)| == 0;
    } else {
      hide FlakyCount;
      var k := |a| - 1;
      assert a[k] in multiset(b);
      var i :| 0 <= i < |b| && b[i] == a[k];
      FlakyWithout(a, k);
      FlakyWithout(b, i);
      SplitAt(a, k);
      SplitAt(b, i);
      Cancel(multiset(a[..k] + a[k + 1..]), multiset(b[..i] + b[i + 1..]), a[k]);
      FlakySame(a[..k] + a[k + 1..], b[..i] + b[i + 1..]);
    }
  }

  /** Counts over the rows of the index under a key, in whatever order they are met. */
  method FlakinessSummary(table: seq<Row>, key: Key) returns (total: nat, flaky: nat)
    ensures total == |Select(table, key, None)|
    ensures flaky == FlakyCount(Map(Select(table, key, None), OccurrenceIn))
  {
    hide FlakyCount, Map;
    total, flaky := 0, 0;
    CountedNone();
    for i := 0 to |table|
      invariant total == |Select(table[..i], key, None)|
      invariant flaky == FlakyCount(Map(Select(table[..i], key, None), OccurrenceIn))
    {
      SelectNext(table, key, i);
      hide Select;
      if Under(table[i], key) {
        CountedNext(Select(table[..i], key, None), table[i]);
        total := total + 1;
        if table[i].occurrence.flaky {
          flaky := flaky + 1;
        }
      }
    }
    assert table[..|table|] == table;
  }

  lemma CountedNone()
    ensures FlakyCount(Map([], OccurrenceIn)) == 0
  {
  }

  lemma SelectNext(table: seq<Row>, key: Key, i: nat)
    requires i < |table|
    ensures Select(table[..i + 1], key, None) ==
            if Under(table[i], key) then Select(table[..i], key, None) + [table[i]] else Select(table[..i], key, None)
  {
    assert table[..i + 1][..i] == table[..i];
  }

  lemma CountedNext(rows: seq<Row>, r: Row)
    ensures FlakyCount(Map(rows + [r], OccurrenceIn)) == FlakyCount(Map(rows, OccurrenceIn)) + (if r.occurrence.flaky then 1 else 0)
  {
    var m := Map(rows + [r], OccurrenceIn);
    assert (rows + [r])[..|rows|] == rows;
    assert m[..|m| - 1] == Map(rows, OccurrenceIn);
  }

  /** The flakiness counts of the index are those of the in-memory history. */
  lemma FlakinessAgrees(runs: seq<ProjectedRun>, indexed: seq<ProjectedRun>, key: Key, at: string -> Position)
    requires Project(runs, key.projectId) && Project(indexed, key.projectId)
    requires forall run :: run in runs <==> run in indexed
    ensures var rows, history := Select(IndexTable(indexed, at), key, None), TestHistory(runs, key, at);
            |rows| == |history| && FlakyCount(Map(rows, OccurrenceIn)) == FlakyCount(history)
  {
    hide Sort, Select, RowLe, Map, TestHistory, IndexTable, FlakyCount;
    var table := IndexTable(indexed, at);
    IndexRefines(runs, indexed, key, at);
    SelectTable(table, key, None);
    SortedRows(Select(table, key, None));
    MapKeeps(Select(table, key, None), Whole(table, key), OccurrenceIn);
    MapAt(Select(table, key, None), OccurrenceIn);
    MapAt(Whole(table, key), OccurrenceIn);
    FlakySame(Map(Select(table, key, None), OccurrenceIn), Map(Whole(table, key), OccurrenceIn));
  }
}
