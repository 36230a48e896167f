/**
What a history query answers: the rows of the occurrence table, walked in index order, are the
history of the directories offered, and stand in UTC calendar order.
*/
module HistoryAnswers {
  import opened Protocol
  import opened RunStore
  import opened StoreSafety
  import opened Offers
  import opened StoredHistory
  import opened IndexWriter
  import opened HistoryOrder
  import opened HistoryText
  import opened History
  import Sorting
  import Projection

  function KeySet(keys: seq<RunKey>): set<RunKey> {
    set k | k in keys
  }

  lemma KeySetNext(keys: seq<RunKey>, k: RunKey)
    ensures KeySet(keys + [k]) == KeySet(keys) + {k} && KeySet([]) == {}
  {
  }

  lemma {:induction false} RowsTogether(table: seq<Stored>, t: Tables, keys: seq<RunKey>)
    requires forall i, j | 0 <= i < j < |keys| :: keys[i] != keys[j]
    requires forall k | k in keys :: RowsOf(table, k) == if k in t.index then t.index[k].index.rows else []
    ensures multiset(RowsAmong(table, KeySet(keys))) == multiset(StoredRows(t, keys))
  {
    hide RowsAmong, RowsOf;
    if keys == [] {
      RowsAmongNone(table);
      KeySetNext([], RunKey("", ""));
    } else {
      var n := |keys| - 1;
      var before, k := keys[..n], keys[n];
      assert keys == before + [k];
      RowsTogether(table, t, before);
      assert k in keys && k !in KeySet(before);
      KeySetNext(before, k);
      RowsAmongMore(table, KeySet(before), k);
      assert StoredRows(t, keys) == StoredRows(t, before) + RowsOf(table, k);
      hide StoredRows, KeySet;
    }
  }

  /** The occurrence table, read for a project, has the rows of the project's runs and no others. */
  lemma TableHasRows(listing: map<RunKey, IndexRow>, table: seq<Stored>, t: Tables, project: string, keys: seq<RunKey>)
    requires Mirrors(listing, table, t.index) && TableInv(t) && Enumerates(keys, t, project)
    ensures multiset(ProjectRows(table, project)) == multiset(StoredRows(t, keys))
  {
    hide RowsOf, RowsAmong, ProjectRows, StoredRows;
    var among := KeySet(keys);
    forall k: RunKey | k.project == project && k !in among ensures RowsOf(table, k) == [] {
      assert k !in t.runs;
    }
    ProjectAmong(table, project, among);
    RowsTogether(table, t, keys);
  }

  /** A table of rows is a table in any order, and gives one answer. */
  lemma SameRowsSameAnswer(a: seq<Row>, b: seq<Row>, key: Key)
    requires multiset(a) == multiset(b) && Table(b)
    ensures Table(a) && History.Whole(a, key) == History.Whole(b, key)
  {
    hide Sorting.Sort, Select, RowLe, Under;
    Sorting.SameBag(a, b);
    Sorting.MultisetDistinct(b, a);
    SelectTable(a, key, None);
    SelectTable(b, key, None);
    SelectMembers(a, key, None);
    SelectMembers(b, key, None);
    SortedRows(Select(a, key, None));
    SortedRows(Select(b, key, None));
    Sorting.StrictUnique(History.Whole(a, key), History.Whole(b, key), RowLe);
  }

  /** No occurrence of the answer names a moment before that of one it follows. */
  ghost predicate InCalendarOrder(os: seq<Occurrence>) {
    forall i, j | 0 <= i < j < |os| && Accepted(os[i].occurredAt) && Accepted(os[j].occurredAt) ::
      !MomentBefore(MomentOf(os[j].occurredAt), MomentOf(os[i].occurredAt))
  }

  lemma RowsByInstant(a: Occurrence, b: Occurrence)
    requires RowLe(RowOf(a, Instant), RowOf(b, Instant))
    ensures !InstantBefore(Instant(b.occurredAt), Instant(a.occurredAt))
  {
    hide Instant;
  }

  lemma HistoryInCalendarOrder(runs: seq<Projection.ProjectedRun>, key: Key)
    ensures InCalendarOrder(TestHistory(runs, key, Instant))
  {
    hide Accepted, Instant, MomentOf, MomentBefore, InstantBefore, RowLe, Sorting.Sort;
    HistoryTotal(Instant);
    Sorting.SortSorts(OfKey(AllOccurrences(runs), key), HistoryLe(Instant));
    var os := TestHistory(runs, key, Instant);
    forall i, j | 0 <= i < j < |os| && Accepted(os[i].occurredAt) && Accepted(os[j].occurredAt)
      ensures !MomentBefore(MomentOf(os[j].occurredAt), MomentOf(os[i].occurredAt))
    {
      assert HistoryLe(Instant)(os[i], os[j]);
      RowsByInstant(os[i], os[j]);
      TextIsCalendar(os[j].occurredAt, os[i].occurredAt);
    }
  }

  /**
   * In every store reached from the empty one, when every run of a project is current and the two
   * query tables hold the store's index, the occurrence rows of the project, walked in index order,
   * are exactly the history the read model gives of the directories that were offered, in the order
   * of the UTC calendar.
   */
  lemma AnswersAreCalendar(w: World, acts: seq<Act>, s: Store, key: Key, keys: seq<RunKey>, runs: seq<Projection.ProjectedRun>,
                           others: seq<Projection.ProjectedRun>, listing: map<RunKey, IndexRow>, table: seq<Stored>)
    requires After(EMPTY_STORE, acts, WorldRules(w, Instant)) == Some(s) && OnlyDirectories(w, acts, Instant)
    requires Enumerates(keys, s.tables, key.projectId) && |runs| == |keys|
    requires forall k | k in keys :: k in s.tables.runs && Current(s.tables, k)
    requires forall i | 0 <= i < |keys| :: ReadFrom(w, acts, Instant, s.tables, keys[i], runs[i])
    requires multiset(others) == multiset(runs)
    requires Mirrors(listing, table, s.tables.index)
    ensures Table(ProjectRows(table, key.projectId))
    ensures Sorting.Map(History.Whole(ProjectRows(table, key.projectId), key), OccurrenceIn) == TestHistory(others, key, Instant)
    ensures InCalendarOrder(Sorting.Map(History.Whole(ProjectRows(table, key.projectId), key), OccurrenceIn))
  {
    hide After, OnlyDirectories, ReadFrom, Current, Table, History.Whole, TestHistory, Mirrors, Enumerates, InCalendarOrder, WorldRules, ProjectRows,
         StoredRows, TableInv, Steady;
    HistoryOfOffered(w, acts, Instant, key, keys, runs, others);
    EmptyIsSafe(WorldRules(w, Instant));
    AlwaysSteady(EMPTY_STORE, acts, WorldRules(w, Instant));
    SteadyInOrder(s, WorldRules(w, Instant));
    TableHasRows(listing, table, s.tables, key.projectId, keys);
    SameRowsSameAnswer(ProjectRows(table, key.projectId), StoredRows(s.tables, keys), key);
    HistoryInCalendarOrder(others, key);
  }

  lemma SteadyInOrder(s: Store, rules: Rules)
    requires Steady(s, rules)
    ensures TableInv(s.tables)
  {
  }
}
