/**
Identity, idempotence and expiry over every step of the store.
*/
module StoreIdentity {
  import opened Protocol
  import opened RunStore
  import opened StoreSafety

  /** An archived run keeps its source, its relations only grow, and a recorded expiry never moves. */
  ghost predicate Keeps(t: Tables, t': Tables) {
    && (forall k | k in t.runs && k in t'.runs :: t'.runs[k] == t.runs[k])
    && (forall k | k in t.runs && k in t'.runs :: Related(t, k) <= Related(t', k))
    && (forall k | k in t.retention && k in t'.runs :: k in t'.retention && t'.retention[k] == t.retention[k])
  }

  lemma RepairedKeeps(t: Tables, k: RunKey, rules: Rules)
    requires k in t.runs && Repaired(t, k, rules).Some?
    ensures Repaired(t, k, rules).value == t.(index := Repaired(t, k, rules).value.index)
  {
  }

  lemma ArchivedKeeps(t: Tables, o: Offer, rules: Rules)
    requires TableInv(t) && ArchivedIn(t, o, rules).Some?
    ensures Keeps(t, ArchivedIn(t, o, rules).value)
    ensures t.runs.Keys <= ArchivedIn(t, o, rules).value.runs.Keys
  {
    hide RunStore.Recorded, SizesAgree;
    if o.key in t.runs {
      var missing := o.needs.Keys - Related(t, o.key);
      var related := t.(catalog := RunStore.Recorded(t.catalog, o.needs, missing),
                        relations := t.relations[o.key := Related(t, o.key) + missing]);
      RepairedKeeps(WithRetention(related, o.key, o.expiresAt), o.key, rules);
      hide Repaired;
    }
  }

  lemma CompletedKeeps(t: Tables, o: Offer, rules: Rules)
    requires TableInv(t) && CompletedIn(t, o, rules).Some?
    ensures Keeps(t, CompletedIn(t, o, rules).value)
    ensures t.runs.Keys <= CompletedIn(t, o, rules).value.runs.Keys
  {
    RepairedKeeps(WithRetention(t, o.key, o.expiresAt), o.key, rules);
    hide Repaired;
  }

  /**
   * A run's source never changes while it is archived, its expiry never moves, and it is deleted
   * only by a sweep whose instant is at or after the expiry recorded for it.
   */
  lemma IdentityStep(s: Store, a: Act, rules: Rules)
    requires TableInv(s.tables) && Enabled(s, a, rules)
    ensures Keeps(s.tables, NextTables(s, a, rules))
    ensures forall k | k in s.tables.runs && k !in NextTables(s, a, rules).runs ::
              && a.DeleteExpired? && k in a.batch
              && k in s.tables.retention && s.tables.retention[k] <= s.processes[a.pid].asOf
  {
    hide Referenced, Picks, Honest, ArchivedIn, CompletedIn;
    match a
    case Archive(pid) =>
      var o := s.processes[pid].offer;
      if ArchivedIn(s.tables, o, rules).Some? { ArchivedKeeps(s.tables, o, rules); }
    case Complete(pid) =>
      var o := s.processes[pid].offer;
      if CompletedIn(s.tables, o, rules).Some? { CompletedKeeps(s.tables, o, rules); }
    case _ =>
  }

  /** A run stays as it was archived until some sweep deletes it. */
  ghost predicate Archives(s: Store, acts: seq<Act>, rules: Rules, k: RunKey) {
    forall i | 0 <= i <= |acts| :: After(s, acts[..i], rules).Some? && k in After(s, acts[..i], rules).value.tables.runs
  }

  lemma KeptTables(s: Store, a: Act, rules: Rules, k: RunKey)
    requires TableInv(s.tables) && Enabled(s, a, rules) && k in s.tables.runs && k in Next(s, a, rules).tables.runs
    ensures Next(s, a, rules).tables.runs[k] == s.tables.runs[k]
    ensures k in s.tables.retention ==>
              k in Next(s, a, rules).tables.retention && Next(s, a, rules).tables.retention[k] == s.tables.retention[k]
  {
    hide Enabled, NextTables, NextObjects, NextProcess;
    IdentityStep(s, a, rules);
  }

  lemma AfterLast(s: Store, acts: seq<Act>, rules: Rules)
    requires After(s, acts, rules).Some? && acts != []
    ensures var before := After(s, acts[..|acts| - 1], rules);
            && before.Some? && Enabled(before.value, acts[|acts| - 1], rules)
            && After(s, acts, rules) == Some(Next(before.value, acts[|acts| - 1], rules))
  {
    hide Enabled, Next;
  }

  lemma ArchivesPrefix(s: Store, acts: seq<Act>, rules: Rules, k: RunKey)
    requires Archives(s, acts, rules, k) && acts != []
    ensures Archives(s, acts[..|acts| - 1], rules, k)
  {
    var before := acts[..|acts| - 1];
    forall i | 0 <= i <= |before|
      ensures After(s, before[..i], rules).Some? && k in After(s, before[..i], rules).value.tables.runs
    {
      assert before[..i] == acts[..i];
    }
  }

  lemma ArchivesEnds(s: Store, acts: seq<Act>, rules: Rules, k: RunKey)
    requires Archives(s, acts, rules, k)
    ensures After(s, acts, rules).Some? && k in After(s, acts, rules).value.tables.runs && k in s.tables.runs
  {
    assert acts[..|acts|] == acts && acts[..0] == [];
  }

  lemma {:induction false} SourceStays(s: Store, acts: seq<Act>, rules: Rules, k: RunKey)
    requires Steady(s, rules) && Archives(s, acts, rules, k)
    ensures After(s, acts, rules).Some? && k in s.tables.runs && k in After(s, acts, rules).value.tables.runs
    ensures After(s, acts, rules).value.tables.runs[k] == s.tables.runs[k]
    ensures k in s.tables.retention ==>
              && k in After(s, acts, rules).value.tables.retention
              && After(s, acts, rules).value.tables.retention[k] == s.tables.retention[k]
  {
    hide Steady, Enabled, Next, Archives;
    ArchivesEnds(s, acts, rules, k);
    if acts != [] {
      var before, a := acts[..|acts| - 1], acts[|acts| - 1];
      AfterLast(s, acts, rules);
      hide After;
      ArchivesPrefix(s, acts, rules, k);
      SourceStays(s, before, rules, k);
      AlwaysSteady(s, before, rules);
      SteadyTables(After(s, before, rules).value, rules);
      KeptTables(After(s, before, rules).value, a, rules, k);
    }
  }

  lemma SteadyTables(s: Store, rules: Rules)
    requires Steady(s, rules)
    ensures TableInv(s.tables) && LockInv(s) && OfferInv(s.processes, rules)
  {
  }

  lemma NoConflictNow(s: Store, a: Act, rules: Rules, o: Offer)
    requires Enabled(s, a, rules) && (a.Look? || a.Archive?) && s.processes[a.pid].offer == o
    requires o.key in s.tables.runs && s.tables.runs[o.key].fingerprint == o.fingerprint
    ensures NextProcess(s, a, rules) != Some(Leaving(o, Conflict))
  {
    hide ArchivedIn, Honest, Picks, Referenced;
  }

  /**
   * Retrying after a lost answer: as long as the run archived with this content has not been
   * deleted, no later offer of the same content is refused as a conflict.
   */
  lemma NoSelfConflict(s: Store, acts: seq<Act>, a: Act, rules: Rules, o: Offer)
    requires Steady(s, rules) && Archives(s, acts, rules, o.key)
    requires o.key in s.tables.runs && s.tables.runs[o.key].fingerprint == o.fingerprint
    requires After(s, acts, rules).Some?
    requires var now := After(s, acts, rules).value;
             Enabled(now, a, rules) && (a.Look? || a.Archive?) && now.processes[a.pid].offer == o
    ensures NextProcess(After(s, acts, rules).value, a, rules) != Some(Leaving(o, Conflict))
  {
    hide Steady, Archives, After, NextProcess, NextTables, NextObjects;
    SourceStays(s, acts, rules, o.key);
    NoConflictNow(After(s, acts, rules).value, a, rules, o);
  }
}
