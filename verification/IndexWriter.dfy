/**
Replacing one run's derived rows: its occurrences deleted, its listing written over, and the new
occurrences inserted a statement at a time.
*/
module IndexWriter {
  import opened History
  import opened QueryIndex
  import opened RunStore

  const OCCURRENCES_PER_STATEMENT: nat := 500

  datatype Stored = Stored(key: RunKey, row: Row)

  /** The rows a table holds for one run, in the order they were inserted. */
  function RowsOf(table: seq<Stored>, key: RunKey): seq<Row> {
    if table == [] then []
    else
      RowsOf(table[..|table| - 1], key) + (if table[|table| - 1].key == key then [table[|table| - 1].row] else [])
  }

  function Without(table: seq<Stored>, key: RunKey): seq<Stored> {
    if table == [] then []
    else
      Without(table[..|table| - 1], key) + (if table[|table| - 1].key == key then [] else [table[|table| - 1]])
  }

  function Filed(key: RunKey, rows: seq<Row>): seq<Stored> {
    seq(|rows|, i requires 0 <= i < |rows| => Stored(key, rows[i]))
  }

  lemma {:induction false} RowsJoin(a: seq<Stored>, b: seq<Stored>, key: RunKey)
    ensures RowsOf(a + b, key) == RowsOf(a, key) + RowsOf(b, key)
  {
    if b == [] {
      assert a + b == a;
    } else {
      RowsJoin(a, b[..|b| - 1], key);
      assert (a + b)[..|a + b| - 1] == a + b[..|b| - 1];
    }
  }

  lemma {:induction false} WithoutRows(table: seq<Stored>, key: RunKey, other: RunKey)
    ensures RowsOf(Without(table, key), other) == if other == key then [] else RowsOf(table, other)
  {
    if table != [] {
      var before := table[..|table| - 1];
      WithoutRows(before, key, other);
      RowsJoin(Without(before, key), if table[|table| - 1].key == key then [] else [table[|table| - 1]], other);
    }
  }

  lemma {:induction false} FiledRows(key: RunKey, rows: seq<Row>, other: RunKey)
    ensures RowsOf(Filed(key, rows), other) == if other == key then rows else []
  {
    if rows != [] {
      FiledRows(key, rows[..|rows| - 1], other);
      assert Filed(key, rows)[..|rows| - 1] == Filed(key, rows[..|rows| - 1]);
    }
  }

  /** The listing row of a run: its index without the occurrence rows, which have a table of their own. */
  function Listed(r: IndexRow): IndexRow {
    r.(index := r.index.(rows := []))
  }

  /** The store's index with one run's row replaced under the current version. */
  function IndexWith(index: map<RunKey, IndexRow>, k: RunKey, fingerprint: string, derived: Index): map<RunKey, IndexRow> {
    index[k := IndexRow(CURRENT_VERSION, fingerprint, derived)]
  }

  class QueryTables {
    var listing: map<RunKey, IndexRow>
    var occurrences: seq<Stored>

    constructor ()
      ensures listing == map[] && occurrences == []
    {
      listing, occurrences := map[], [];
    }

    /**
     * The rows are written under the identity the caller holds; a derivation for another run is
     * refused before anything changes. Afterwards the run has exactly the derived rows and every
     * other run what it had: tables that held the store's index hold it with that run's row replaced.
     */
    method Replace(key: RunKey, derived: Index, fingerprint: string) returns (ok: bool)
      modifies this
      ensures ok == (derived.projectId == key.project && derived.runId == key.run)
      ensures !ok ==> listing == old(listing) && occurrences == old(occurrences)
      ensures ok ==> listing == old(listing)[key := Listed(IndexRow(CURRENT_VERSION, fingerprint, derived))]
      ensures ok ==> RowsOf(occurrences, key) == derived.rows
      ensures ok ==> forall other | other != key :: RowsOf(occurrences, other) == old(RowsOf(occurrences, other))
      ensures ok ==> forall index | Mirrors(old(listing), old(occurrences), index) ::
                Mirrors(listing, occurrences, IndexWith(index, key, fingerprint, derived))
    {
      if derived.projectId != key.project || derived.runId != key.run { return false; }
      ghost var table := occurrences;
      occurrences := Without(occurrences, key);
      ghost var kept := occurrences;
      listing := listing[key := Listed(IndexRow(CURRENT_VERSION, fingerprint, derived))];
      var rows, start := derived.rows, 0;
      while start < |rows|
        invariant 0 <= start
        invariant var done := if start < |rows| then start else |rows|;
                  occurrences == kept + Filed(key, rows[..done])
        invariant listing == old(listing)[key := Listed(IndexRow(CURRENT_VERSION, fingerprint, derived))]
      {
        var end := if start + OCCURRENCES_PER_STATEMENT < |rows| then start + OCCURRENCES_PER_STATEMENT else |rows|;
        var chunk := rows[start..end];
        assert Filed(key, rows[..end]) == Filed(key, rows[..start]) + Filed(key, chunk);
        occurrences := occurrences + Filed(key, chunk);
        start := start + OCCURRENCES_PER_STATEMENT;
      }
      assert rows[..|rows|] == rows;
      Finished(table, key, rows);
      forall index | Mirrors(old(listing), table, index)
        ensures Mirrors(listing, occurrences, IndexWith(index, key, fingerprint, derived))
      {
        ReplaceMirrors(old(listing), table, occurrences, index, key, derived, fingerprint);
      }
      ok := true;
    }
  }

  lemma Finished(table: seq<Stored>, key: RunKey, rows: seq<Row>)
    ensures RowsOf(Without(table, key) + Filed(key, rows), key) == rows
    ensures forall other | other != key :: RowsOf(Without(table, key) + Filed(key, rows), other) == RowsOf(table, other)
  {
    forall other ensures RowsOf(Without(table, key) + Filed(key, rows), other) == if other == key then rows else RowsOf(table, other) {
      RowsJoin(Without(table, key), Filed(key, rows), other);
      WithoutRows(table, key, other);
      FiledRows(key, rows, other);
    }
  }

  // ---------------------------------------------------------------- the store's index

  /** The two tables hold the index of the store. */
  ghost predicate Mirrors(listing: map<RunKey, IndexRow>, occurrences: seq<Stored>, index: map<RunKey, IndexRow>) {
    && listing.Keys == index.Keys
    && (forall k | k in index :: listing[k] == Listed(index[k]) && RowsOf(occurrences, k) == index[k].index.rows)
    && (forall k | k !in index :: RowsOf(occurrences, k) == [])
  }

  /** Tables that hold an index hold it with one row replaced. */
  lemma ReplaceMirrors(listing: map<RunKey, IndexRow>, occurrences: seq<Stored>, after: seq<Stored>, index: map<RunKey, IndexRow>,
                       key: RunKey, derived: Index, fingerprint: string)
    requires Mirrors(listing, occurrences, index)
    requires RowsOf(after, key) == derived.rows && forall other | other != key :: RowsOf(after, other) == RowsOf(occurrences, other)
    ensures Mirrors(listing[key := Listed(IndexRow(CURRENT_VERSION, fingerprint, derived))], after,
                    IndexWith(index, key, fingerprint, derived))
  {
    hide RowsOf;
  }

  function WithoutAll(table: seq<Stored>, keys: set<RunKey>): seq<Stored> {
    if table == [] then []
    else WithoutAll(table[..|table| - 1], keys) + (if table[|table| - 1].key in keys then [] else [table[|table| - 1]])
  }

  lemma {:induction false} WithoutAllRows(table: seq<Stored>, keys: set<RunKey>, k: RunKey)
    ensures RowsOf(WithoutAll(table, keys), k) == if k in keys then [] else RowsOf(table, k)
  {
    if table != [] {
      var before, last := table[..|table| - 1], table[|table| - 1];
      WithoutAllRows(before, keys, k);
      RowsJoin(WithoutAll(before, keys), if last.key in keys then [] else [last], k);
    }
  }

  /** Rows of deleted runs go with them. */
  lemma DeleteMirrors(listing: map<RunKey, IndexRow>, occurrences: seq<Stored>, index: map<RunKey, IndexRow>, keys: set<RunKey>)
    requires Mirrors(listing, occurrences, index)
    ensures Mirrors(listing - keys, WithoutAll(occurrences, keys), index - keys)
  {
    hide RowsOf, WithoutAll;
    forall k ensures RowsOf(WithoutAll(occurrences, keys), k) == if k in keys then [] else RowsOf(occurrences, k) {
      WithoutAllRows(occurrences, keys, k);
    }
  }

  /** One run's row is replaced under the current version. */
  ghost predicate OneReplaced(index: map<RunKey, IndexRow>, next: map<RunKey, IndexRow>) {
    exists k, fingerprint, derived :: next == IndexWith(index, k, fingerprint, derived)
  }

  lemma ReplacesOne(index: map<RunKey, IndexRow>, k: RunKey, fingerprint: string, derived: Index)
    ensures OneReplaced(index, index[k := IndexRow(CURRENT_VERSION, fingerprint, derived)])
  {
    assert index[k := IndexRow(CURRENT_VERSION, fingerprint, derived)] == IndexWith(index, k, fingerprint, derived);
  }

  lemma RepairWrites(t: Tables, k: RunKey, rules: Rules)
    requires k in t.runs && Repaired(t, k, rules).Some?
    ensures Repaired(t, k, rules).value.index == t.index || OneReplaced(t.index, Repaired(t, k, rules).value.index)
  {
    if !Current(t, k) { ReplacesOne(t.index, k, t.runs[k].fingerprint, rules.derive(k, t.runs[k].source).value); }
  }

  lemma ArchiveWrites(t: Tables, o: Offer, rules: Rules)
    ensures ArchivedIn(t, o, rules).Some? ==> OneReplaced(t.index, ArchivedIn(t, o, rules).value.index) || ArchivedIn(t, o, rules).value.index == t.index
    ensures CompletedIn(t, o, rules).Some? ==> OneReplaced(t.index, CompletedIn(t, o, rules).value.index) || CompletedIn(t, o, rules).value.index == t.index
  {
    hide OneReplaced, Repaired, SizesAgree, RunStore.Recorded;
    if o.key !in t.runs {
      ReplacesOne(t.index, o.key, o.fingerprint, o.index);
    } else {
      var missing := o.needs.Keys - Related(t, o.key);
      var related := t.(catalog := RunStore.Recorded(t.catalog, o.needs, missing), relations := t.relations[o.key := Related(t, o.key) + missing]);
      if Joining(t, o, rules).Some? { RepairWrites(WithRetention(related, o.key, o.expiresAt), o.key, rules); }
      if Completed(t, o, rules).Some? { RepairWrites(WithRetention(t, o.key, o.expiresAt), o.key, rules); }
    }
  }

  /**
   * Every step of the store leaves the index alone, replaces one run's row as `Replace` does, or
   * deletes the rows of runs it deletes: the two tables can mirror the index through every run.
   */
  lemma IndexWrites(s: Store, a: Act, rules: Rules)
    requires Enabled(s, a, rules)
    ensures var index, next := s.tables.index, NextTables(s, a, rules).index;
            || next == index || OneReplaced(index, next)
            || (a.DeleteExpired? && exists keys :: next == index - keys && keys <= a.batch)
  {
    hide Honest, Picks, Referenced, OneReplaced, ArchivedIn, CompletedIn;
    match a
    case Archive(pid) => ArchiveWrites(s.tables, s.processes[pid].offer, rules);
    case Complete(pid) => ArchiveWrites(s.tables, s.processes[pid].offer, rules);
    case Replace(pid) =>
      var p := s.processes[pid];
      ReplacesOne(s.tables.index, p.todo[0].key, p.todo[0].fingerprint, p.ready.value);
    case DeleteExpired(pid, batch) =>
      var doomed := set k | k in batch && Expired(s.tables, k, s.processes[pid].asOf);
      assert NextTables(s, a, rules).index == s.tables.index - doomed && doomed <= batch;
    case _ =>
  }

  // ---------------------------------------------------------------- the rows of a project

  /** The rows of the runs among some keys, as the table has them. */
  function RowsAmong(table: seq<Stored>, keys: set<RunKey>): seq<Row> {
    if table == [] then []
    else
      RowsAmong(table[..|table| - 1], keys) + (if table[|table| - 1].key in keys then [table[|table| - 1].row] else [])
  }

  lemma {:induction false} RowsAmongMore(table: seq<Stored>, keys: set<RunKey>, k: RunKey)
    requires k !in keys
    ensures multiset(RowsAmong(table, keys + {k})) == multiset(RowsAmong(table, keys)) + multiset(RowsOf(table, k))
  {
    if table != [] { RowsAmongMore(table[..|table| - 1], keys, k); }
  }

  lemma {:induction false} RowsAmongNone(table: seq<Stored>)
    ensures RowsAmong(table, {}) == []
  {
    if table != [] { RowsAmongNone(table[..|table| - 1]); }
  }

  /** The rows of a project: a table of every project's rows, read for one. */
  function ProjectRows(table: seq<Stored>, project: string): seq<Row> {
    if table == [] then []
    else
      ProjectRows(table[..|table| - 1], project) + (if table[|table| - 1].key.project == project then [table[|table| - 1].row] else [])
  }

  /** With the project's indexed runs among the keys, those are the rows among them. */
  lemma {:induction false} ProjectAmong(table: seq<Stored>, project: string, keys: set<RunKey>)
    requires forall k | k in keys :: k.project == project
    requires forall k: RunKey | k.project == project && k !in keys :: RowsOf(table, k) == []
    ensures ProjectRows(table, project) == RowsAmong(table, keys)
  {
    if table != [] {
      var before, last := table[..|table| - 1], table[|table| - 1];
      forall k: RunKey | k.project == project && k !in keys ensures RowsOf(before, k) == [] && last.key != k {
        assert RowsOf(table, k) == RowsOf(before, k) + (if last.key == k then [last.row] else []);
      }
      ProjectAmong(before, project, keys);
    }
  }
}
