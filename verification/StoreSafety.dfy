/**
What every step of the store keeps.
*/
module StoreSafety {
  import opened Protocol
  import opened RunStore

  // ---------------------------------------------------------------- the invariant

  predicate SharedKind(p: Process) {
    p.Looking? || p.Completing? || p.Publishing? || p.Leaving? || p.Rebuilding?
  }

  /** Shared and exclusive holders never coexist, and each holder is of its kind. */
  ghost predicate LockInv(s: Store) {
    && (s.exclusive.Some? ==> s.shared == {} && s.exclusive.value in s.processes && s.processes[s.exclusive.value].Sweeping?)
    && (forall pid | pid in s.shared :: pid in s.processes && SharedKind(s.processes[pid]))
  }

  ghost predicate TableInv(t: Tables) {
    && t.relations.Keys == t.runs.Keys
    && t.retention.Keys <= t.runs.Keys
    && t.index.Keys <= t.runs.Keys
    && (forall k | k in t.runs :: t.runs[k].sequence < t.next)
  }

  /** Every run-to-blob relation has a catalog row of the declared size and an object with that hash. */
  ghost predicate NoDangling(t: Tables, objects: map<nat, nat>) {
    forall k, h | k in t.runs && k in t.relations && h in t.relations[k] ::
      && h in t.runs[k].needs
      && h in t.catalog && t.catalog[h] == t.runs[k].needs[h]
      && h in objects && objects[h] == t.catalog[h]
  }

  ghost predicate StillThere(p: Process, objects: map<nat, nat>) {
    p.Publishing? ==> forall h | h in p.published :: h in p.offer.needs && h in objects && objects[h] == p.offer.needs[h]
  }

  /** What an ingestion holding its lease has published is still there. */
  ghost predicate PublishedSurvive(s: Store) {
    forall pid | pid in s.shared && pid in s.processes :: StillThere(s.processes[pid], s.objects)
  }

  ghost predicate Unknown(p: Process, holds: bool, catalog: map<nat, nat>) {
    p.Sweeping? && p.condemned != {} ==> holds && forall h | h in p.condemned :: h !in catalog
  }

  /** A sweep condemns only what the catalog does not know, and nothing once its lease is gone. */
  ghost predicate Condemned(s: Store) {
    forall pid | pid in s.processes :: Unknown(s.processes[pid], s.exclusive == Some(pid), s.tables.catalog)
  }

  predicate HasOffer(p: Process) {
    p.Arriving? || p.Looking? || p.Completing? || p.Publishing? || p.Leaving?
  }

  ghost predicate OfferInv(processes: map<nat, Process>, rules: Rules) {
    forall pid | pid in processes && HasOffer(processes[pid]) :: Honest(processes[pid].offer, rules)
  }

  ghost predicate NeedsInv(runs: map<RunKey, Run>, rules: Rules) {
    forall k | k in runs :: runs[k].needs == rules.needs(runs[k].fingerprint)
  }

  /** Everything the tables owe the objects and themselves. */
  ghost predicate Sound(t: Tables, objects: map<nat, nat>, rules: Rules) {
    TableInv(t) && NeedsInv(t.runs, rules) && NoDangling(t, objects)
  }

  /** Nothing dangles: neither what the tables relate nor what an ingestion has published. */
  ghost predicate Whole(s: Store, rules: Rules) {
    LockInv(s) && OfferInv(s.processes, rules) && Sound(s.tables, s.objects, rules) && PublishedSurvive(s)
  }

  ghost predicate SafeInv(s: Store, rules: Rules) {
    Whole(s, rules) && Condemned(s)
  }

  /** An object some ingestion holding its lease has published. */
  ghost predicate PublishedNow(s: Store, h: nat) {
    exists pid | pid in s.shared && pid in s.processes :: s.processes[pid].Publishing? && h in s.processes[pid].published
  }

  /** The removal of an object that something relates or has published. */
  ghost predicate Harms(s: Store, a: Act) {
    a.RemoveObject? && (Referenced(s.tables, a.hash) || PublishedNow(s, a.hash))
  }

  /** A sweep that loses its connection has no objects left to remove. */
  predicate Careful(s: Store, a: Act) {
    a.LoseLease? ==> a.pid !in s.processes || !s.processes[a.pid].Sweeping? || s.processes[a.pid].condemned == {}
  }

  // ---------------------------------------------------------------- locks and offers

  lemma LockKept(s: Store, a: Act, rules: Rules)
    requires LockInv(s) && Enabled(s, a, rules)
    ensures LockInv(Next(s, a, rules))
  {
    hide NextTables, NextObjects, CompletedIn, ArchivedIn, ArchiveOutcome, Referenced, Picks, Honest, Clash;
  }

  lemma OffersStay(s: Store, a: Act, rules: Rules)
    requires Enabled(s, a, rules)
    ensures var p := NextProcess(s, a, rules);
            p.Some? && HasOffer(p.value) ==>
              if a.Arrive? then Honest(p.value.offer, rules)
              else a.pid in s.processes && HasOffer(s.processes[a.pid]) && s.processes[a.pid].offer == p.value.offer
  {
    hide CompletedIn, ArchivedIn, ArchiveOutcome, Referenced, Picks, Honest, Clash;
  }

  // ---------------------------------------------------------------- transactions keep the tables

  ghost predicate AllPublished(needs: map<nat, nat>, objects: map<nat, nat>) {
    forall h | h in needs :: h in objects && objects[h] == needs[h]
  }

  lemma InsertKeeps(t: Tables, o: Offer, rules: Rules, objects: map<nat, nat>)
    requires Sound(t, objects, rules) && Honest(o, rules) && AllPublished(o.needs, objects)
    requires o.key !in t.runs && Inserting(t, o).Some?
    ensures Sound(Inserting(t, o).value, objects, rules)
  {
    var t' := Inserting(t, o).value;
    forall k, h | k in t'.runs && k in t'.relations && h in t'.relations[k]
      ensures h in t'.runs[k].needs
      ensures h in t'.catalog && t'.catalog[h] == t'.runs[k].needs[h]
      ensures h in objects && objects[h] == t'.catalog[h]
    {
      if k != o.key { assert k in t.runs && h in t.relations[k]; }
    }
  }

  /** Retention and index are derived state: writing them touches no relation. */
  lemma DerivedKeeps(t: Tables, t': Tables, objects: map<nat, nat>, rules: Rules)
    requires Sound(t, objects, rules)
    requires t' == t.(retention := t'.retention, index := t'.index)
    requires t'.retention.Keys <= t.runs.Keys && t'.index.Keys <= t.runs.Keys
    ensures Sound(t', objects, rules)
  {
    assert forall k, h | k in t'.runs && k in t'.relations && h in t'.relations[k] :: k in t.runs && h in t.relations[k];
  }

  lemma CompleteKeeps(t: Tables, o: Offer, rules: Rules, objects: map<nat, nat>)
    requires Sound(t, objects, rules) && o.key in t.runs && Completed(t, o, rules).Some?
    ensures Sound(Completed(t, o, rules).value, objects, rules)
  {
    hide NoDangling, NeedsInv, Current;
    DerivedKeeps(t, Completed(t, o, rules).value, objects, rules);
  }

  function Relate(t: Tables, o: Offer): Tables {
    var missing := o.needs.Keys - Related(t, o.key);
    t.(catalog := RunStore.Recorded(t.catalog, o.needs, missing),
       relations := t.relations[o.key := Related(t, o.key) + missing])
  }

  lemma RelateKeeps(t: Tables, o: Offer, rules: Rules, objects: map<nat, nat>)
    requires Sound(t, objects, rules) && Honest(o, rules) && AllPublished(o.needs, objects)
    requires o.key in t.runs && t.runs[o.key].fingerprint == o.fingerprint
    requires SizesAgree(t.catalog, o.needs, o.needs.Keys - Related(t, o.key))
    ensures Sound(Relate(t, o), objects, rules)
  {
    var t' := Relate(t, o);
    assert t.runs[o.key].needs == o.needs;
    forall k, h | k in t'.runs && k in t'.relations && h in t'.relations[k]
      ensures h in t'.runs[k].needs
      ensures h in t'.catalog && t'.catalog[h] == t'.runs[k].needs[h]
      ensures h in objects && objects[h] == t'.catalog[h]
    {
      if k != o.key || h in Related(t, k) { assert k in t.runs && h in t.relations[k]; }
    }
  }

  lemma JoinKeeps(t: Tables, o: Offer, rules: Rules, objects: map<nat, nat>)
    requires Sound(t, objects, rules) && Honest(o, rules) && AllPublished(o.needs, objects)
    requires o.key in t.runs && t.runs[o.key].fingerprint == o.fingerprint && Joining(t, o, rules).Some?
    ensures Sound(Joining(t, o, rules).value, objects, rules)
  {
    hide NoDangling, NeedsInv, Current, SizesAgree, RunStore.Recorded, Honest, AllPublished;
    RelateKeeps(t, o, rules, objects);
    DerivedKeeps(Relate(t, o), Joining(t, o, rules).value, objects, rules);
  }

  lemma DeleteKeeps(t: Tables, batch: set<RunKey>, asOf: int, objects: map<nat, nat>, rules: Rules)
    requires Sound(t, objects, rules)
    ensures Sound(Deleted(t, batch, asOf), objects, rules)
  {
    var t' := Deleted(t, batch, asOf);
    assert forall k, h | k in t'.runs && k in t'.relations && h in t'.relations[k] :: k in t.runs && h in t.relations[k];
  }

  lemma DropKeeps(t: Tables, h: nat, objects: map<nat, nat>, rules: Rules)
    requires Sound(t, objects, rules) && !Referenced(t, h)
    ensures Sound(t.(catalog := t.catalog - {h}), objects, rules)
  {
    var t' := t.(catalog := t.catalog - {h});
    forall k, g | k in t'.runs && k in t'.relations && g in t'.relations[k] ensures g in t'.catalog && g in t.relations[k] {
      assert g == h ==> Referenced(t, h);
    }
  }

  lemma TablesKept(s: Store, a: Act, rules: Rules)
    requires Whole(s, rules) && Enabled(s, a, rules)
    ensures Sound(NextTables(s, a, rules), s.objects, rules)
  {
    hide NoDangling, NeedsInv, Current, SizesAgree, RunStore.Recorded, Honest, Referenced, Picks, Inserting, Joining, Completed, Deleted, TableInv, LockInv;
    match a
    case Complete(pid) =>
      var o := s.processes[pid].offer;
      if CompletedIn(s.tables, o, rules).Some? { CompleteKeeps(s.tables, o, rules, s.objects); }
    case Archive(pid) =>
      var o := s.processes[pid].offer;
      assert AllPublished(o.needs, s.objects);
      if ArchivedIn(s.tables, o, rules).Some? {
        if o.key in s.tables.runs { JoinKeeps(s.tables, o, rules, s.objects); } else { InsertKeeps(s.tables, o, rules, s.objects); }
      }
    case DeleteExpired(pid, batch) => DeleteKeeps(s.tables, batch, s.processes[pid].asOf, s.objects, rules);
    case DropRow(pid, h) => DropKeeps(s.tables, h, s.objects, rules);
    case Replace(pid) => ReplaceKeeps(s.tables, s.processes[pid], s.objects, rules);
    case _ =>
  }

  lemma ReplaceKeeps(t: Tables, p: Process, objects: map<nat, nat>, rules: Rules)
    requires Sound(t, objects, rules) && p.Rebuilding? && p.todo != [] && p.ready.Some?
    ensures Sound(Replaced(t, p), objects, rules)
  {
    hide NoDangling, NeedsInv;
    DerivedKeeps(t, Replaced(t, p), objects, rules);
  }

  // ---------------------------------------------------------------- objects

  lemma ObjectsKept(s: Store, a: Act, rules: Rules)
    requires Whole(s, rules) && Enabled(s, a, rules) && !Harms(s, a)
    ensures Sound(NextTables(s, a, rules), NextObjects(s, a, rules), rules)
  {
    hide NeedsInv, TableInv, Honest, Picks, LockInv, NextTables, PublishedNow;
    TablesKept(s, a, rules);
    var t, objects := NextTables(s, a, rules), NextObjects(s, a, rules);
    SameTables(s, a, rules);
    forall k, h | k in t.runs && k in t.relations && h in t.relations[k] ensures h in objects && objects[h] == t.catalog[h] {
      assert h in t.catalog && h in s.objects;
    }
  }

  lemma SameTables(s: Store, a: Act, rules: Rules)
    requires Enabled(s, a, rules)
    ensures a.RemoveObject? || a.Publish? ==> NextTables(s, a, rules) == s.tables
  {
  }

  lemma ReferencedHasRow(t: Tables, objects: map<nat, nat>, rules: Rules, h: nat)
    requires Sound(t, objects, rules)
    ensures Referenced(t, h) ==> h in t.catalog
  {
  }

  /** While a sweep has condemned anything it holds the lock alone, so its removals harm nothing. */
  lemma CondemnedHarmless(s: Store, a: Act, rules: Rules)
    requires SafeInv(s, rules) && Enabled(s, a, rules)
    ensures !Harms(s, a)
  {
    hide NeedsInv, OfferInv, PublishedSurvive, Honest, Picks;
    if a.RemoveObject? {
      assert Unknown(s.processes[a.pid], s.exclusive == Some(a.pid), s.tables.catalog);
      ReferencedHasRow(s.tables, s.objects, rules, a.hash);
    }
  }

  lemma OneMoves(s: Store, a: Act, rules: Rules, q: nat)
    requires Enabled(s, a, rules) && q != a.pid
    ensures q in Next(s, a, rules).processes <==> q in s.processes
    ensures q in s.processes ==> Next(s, a, rules).processes[q] == s.processes[q]
    ensures q in Next(s, a, rules).shared <==> q in s.shared
  {
    hide NextProcess, NextTables, NextObjects, Enabled;
  }

  /** Publishing goes one object at a time, under the same offer. */
  lemma PublishingMoves(s: Store, a: Act, rules: Rules)
    requires Enabled(s, a, rules) && NextProcess(s, a, rules).Some? && NextProcess(s, a, rules).value.Publishing? && !a.Arrive?
    ensures var p := NextProcess(s, a, rules).value;
            || p.published == {}
            || (a.LoseLease? && p == s.processes[a.pid])
            || (a.Publish? && !Clash(s.objects, p.offer, a.hash) && s.processes[a.pid] == Publishing(p.offer, s.processes[a.pid].published)
                && p.published == s.processes[a.pid].published + {a.hash} && a.hash in p.offer.needs)
  {
    hide NextTables, NextObjects, CompletedIn, ArchivedIn, ArchiveOutcome, Referenced, Picks, Honest, Clash;
  }

  /** No object that is published goes, and no object changes its bytes. */
  lemma ObjectsMove(s: Store, a: Act, rules: Rules, q: nat)
    requires Enabled(s, a, rules) && !Harms(s, a) && q in s.shared && q in s.processes && StillThere(s.processes[q], s.objects)
    ensures StillThere(s.processes[q], NextObjects(s, a, rules))
  {
    hide Referenced, Picks, Honest;
  }

  lemma PublishedOne(s: Store, a: Act, rules: Rules)
    requires PublishedSurvive(s) && LockInv(s) && Enabled(s, a, rules) && !a.Arrive?
    requires a.pid in Next(s, a, rules).shared && NextProcess(s, a, rules).Some?
    ensures StillThere(NextProcess(s, a, rules).value, NextObjects(s, a, rules))
  {
    hide Referenced, Picks, Honest, NextTables, CompletedIn, ArchivedIn, ArchiveOutcome;
    if NextProcess(s, a, rules).value.Publishing? { PublishingMoves(s, a, rules); }
  }

  lemma PublishedKept(s: Store, a: Act, rules: Rules)
    requires Whole(s, rules) && Enabled(s, a, rules) && !Harms(s, a)
    ensures PublishedSurvive(Next(s, a, rules))
  {
    var s' := Next(s, a, rules);
    forall q | q in s'.shared && q in s'.processes ensures StillThere(s'.processes[q], s'.objects) {
      if q != a.pid {
        OneMoves(s, a, rules, q);
        ObjectsMove(s, a, rules, q);
      } else if !a.Arrive? {
        PublishedOne(s, a, rules);
      }
      hide NextTables, NextProcess, NextObjects, Sound, OfferInv, Referenced, Picks, Honest, StillThere, Harms;
    }
  }

  /** What a sweep condemns, and the lock it condemns it under. */
  lemma SweepingMoves(s: Store, a: Act, rules: Rules)
    requires Enabled(s, a, rules) && NextProcess(s, a, rules).Some? && NextProcess(s, a, rules).value.Sweeping?
    ensures a.TakeExclusive? ==> NextProcess(s, a, rules).value.condemned == {}
    ensures a.DropRow? || a.Condemn? ==>
              && s.exclusive == Some(a.pid) && a.pid in s.processes && s.processes[a.pid].Sweeping?
              && NextProcess(s, a, rules).value.condemned == s.processes[a.pid].condemned + {a.hash}
              && a.hash !in NextTables(s, a, rules).catalog
              && forall g | g in NextTables(s, a, rules).catalog :: g in s.tables.catalog
    ensures a.DeleteExpired? || a.RemoveObject? || a.LoseLease? ==>
              && a.pid in s.processes && s.processes[a.pid].Sweeping?
              && NextProcess(s, a, rules).value.condemned <= s.processes[a.pid].condemned
              && NextTables(s, a, rules).catalog == s.tables.catalog
    ensures a.TakeExclusive? || a.DropRow? || a.Condemn? || a.DeleteExpired? || a.RemoveObject? || a.LoseLease?
  {
    hide Referenced, Picks, Honest, NextObjects, CompletedIn, ArchivedIn, ArchiveOutcome;
  }

  lemma SweepMoves(s: Store, a: Act, rules: Rules)
    requires LockInv(s) && Condemned(s) && Enabled(s, a, rules) && Careful(s, a) && NextProcess(s, a, rules).Some?
    ensures Unknown(NextProcess(s, a, rules).value, Next(s, a, rules).exclusive == Some(a.pid), NextTables(s, a, rules).catalog)
  {
    hide NextTables, NextProcess, NextObjects, Enabled, LockInv;
    var p := NextProcess(s, a, rules).value;
    if p.Sweeping? {
      SweepingMoves(s, a, rules);
      if !a.TakeExclusive? {
        var was := s.processes[a.pid];
        assert Unknown(was, s.exclusive == Some(a.pid), s.tables.catalog);
        forall g | g in p.condemned ensures g !in NextTables(s, a, rules).catalog && s.exclusive == Some(a.pid) && !a.LoseLease? {
          if a.DropRow? || a.Condemn? {
            assert g == a.hash || g in was.condemned;
          } else {
            assert g in was.condemned;
          }
        }
      }
    }
  }

  /** The catalog grows only under the shared lock. */
  lemma CatalogMoves(s: Store, a: Act, rules: Rules)
    requires LockInv(s) && Enabled(s, a, rules) && s.exclusive.Some?
    ensures NextTables(s, a, rules).catalog.Keys <= s.tables.catalog.Keys
    ensures a.pid != s.exclusive.value ==> Next(s, a, rules).exclusive == s.exclusive
  {
    hide Referenced, Picks, Honest, NextObjects, NextProcess, CompletedIn, ArchivedIn, ArchiveOutcome;
  }

  lemma CondemnedKept(s: Store, a: Act, rules: Rules)
    requires SafeInv(s, rules) && Enabled(s, a, rules) && Careful(s, a)
    ensures Condemned(Next(s, a, rules))
  {
    var s' := Next(s, a, rules);
    forall q | q in s'.processes ensures Unknown(s'.processes[q], s'.exclusive == Some(q), s'.tables.catalog) {
      if q == a.pid {
        SweepMoves(s, a, rules);
      } else {
        OneMoves(s, a, rules, q);
        assert Unknown(s.processes[q], s.exclusive == Some(q), s.tables.catalog);
        if s.exclusive == Some(q) { CatalogMoves(s, a, rules); }
      }
      hide NextTables, NextProcess, NextObjects, Sound, OfferInv, Referenced, Picks, Honest, LockInv, Careful, Enabled;
    }
  }

  // ---------------------------------------------------------------- every run of the system

  lemma OffersKept(s: Store, a: Act, rules: Rules)
    requires OfferInv(s.processes, rules) && Enabled(s, a, rules)
    ensures OfferInv(Next(s, a, rules).processes, rules)
  {
    forall q | q in Next(s, a, rules).processes && HasOffer(Next(s, a, rules).processes[q])
      ensures Honest(Next(s, a, rules).processes[q].offer, rules)
    {
      if q == a.pid { OffersStay(s, a, rules); } else { OneMoves(s, a, rules, q); }
      hide Sound, NextTables, NextObjects, NextProcess, Enabled, Honest;
    }
  }

  lemma WholeKept(s: Store, a: Act, rules: Rules)
    requires Whole(s, rules) && Enabled(s, a, rules) && !Harms(s, a)
    ensures Whole(Next(s, a, rules), rules)
  {
    LockKept(s, a, rules);
    ObjectsKept(s, a, rules);
    PublishedKept(s, a, rules);
    OffersKept(s, a, rules);
    hide Sound, NextTables, NextObjects, NextProcess, Enabled, OfferInv, LockInv, PublishedSurvive;
  }

  lemma HarmBreaks(s: Store, a: Act, rules: Rules)
    requires Whole(s, rules) && Enabled(s, a, rules) && Harms(s, a)
    ensures !Whole(Next(s, a, rules), rules)
  {
    hide NeedsInv, OfferInv, Honest, Picks;
    var s' := Next(s, a, rules);
    assert a.hash !in s'.objects && s'.tables == s.tables && s'.shared == s.shared;
    if Referenced(s.tables, a.hash) {
      var k :| k in s.tables.relations && a.hash in s.tables.relations[k];
      assert k in s'.tables.runs && k in s'.tables.relations && a.hash in s'.tables.relations[k];
    } else {
      var pid :| pid in s.shared && pid in s.processes && s.processes[pid].Publishing? && a.hash in s.processes[pid].published;
      assert pid != a.pid && s'.processes[pid] == s.processes[pid];
      assert !StillThere(s'.processes[pid], s'.objects);
    }
  }

  /**
   * No dangling bytes, exactly: whatever step is taken, crashes and lost leases included, nothing
   * dangles afterwards if and only if the step is not the removal of an object that a run refers
   * to or an ingestion under its lease has published.
   */
  lemma WholeExactly(s: Store, a: Act, rules: Rules)
    requires Whole(s, rules) && Enabled(s, a, rules)
    ensures Whole(Next(s, a, rules), rules) <==> !Harms(s, a)
  {
    hide Whole, Enabled, Harms, NextTables, NextObjects, NextProcess;
    if Harms(s, a) { HarmBreaks(s, a, rules); } else { WholeKept(s, a, rules); }
  }

  /** Every careful step keeps the store safe. */
  lemma SafeStep(s: Store, a: Act, rules: Rules)
    requires SafeInv(s, rules) && Enabled(s, a, rules) && Careful(s, a)
    ensures SafeInv(Next(s, a, rules), rules)
  {
    CondemnedHarmless(s, a, rules);
    CondemnedKept(s, a, rules);
    hide Whole, Condemned, Enabled, Harms, NextTables, NextObjects, NextProcess;
    WholeKept(s, a, rules);
  }

  /** The state after a sequence of steps, if each is enabled where it is taken. */
  ghost function After(s: Store, acts: seq<Act>, rules: Rules): Option<Store> {
    if acts == [] then Some(s)
    else
      var before := After(s, acts[..|acts| - 1], rules);
      if before.Some? && Enabled(before.value, acts[|acts| - 1], rules)
      then Some(Next(before.value, acts[|acts| - 1], rules)) else None
  }

  /** Nothing dangles at any point of the run. */
  ghost predicate WholeThroughout(s: Store, acts: seq<Act>, rules: Rules) {
    forall i | 0 <= i <= |acts| :: After(s, acts[..i], rules).Some? ==> Whole(After(s, acts[..i], rules).value, rules)
  }

  /** No removal of the run harms anything at the moment it happens. */
  ghost predicate Harmless(s: Store, acts: seq<Act>, rules: Rules) {
    forall i | 0 <= i < |acts| :: After(s, acts[..i], rules).Some? ==> !Harms(After(s, acts[..i], rules).value, acts[i])
  }

  lemma RunBefore(s: Store, acts: seq<Act>, rules: Rules)
    requires After(s, acts, rules).Some? && acts != []
    ensures var before, a := acts[..|acts| - 1], acts[|acts| - 1];
            && After(s, before, rules).Some? && Enabled(After(s, before, rules).value, a, rules)
            && After(s, acts, rules) == Some(Next(After(s, before, rules).value, a, rules))
            && (WholeThroughout(s, acts, rules) <==> WholeThroughout(s, before, rules) && Whole(After(s, acts, rules).value, rules))
            && (Harmless(s, acts, rules) <==> Harmless(s, before, rules) && !Harms(After(s, before, rules).value, a))
  {
    hide Whole, Harms, Enabled, Next;
    var before := acts[..|acts| - 1];
    assert forall i | 0 <= i <= |before| :: before[..i] == acts[..i];
    assert acts[..|acts|] == acts;
  }

  /**
   * No dangling bytes, in every interleaving, with a crash or a lost connection between any two
   * steps: nothing dangles at any point of a run if and only if no removal in it takes an object
   * that is related or published at that moment.
   */
  lemma {:induction false} AlwaysWholeExactly(s: Store, acts: seq<Act>, rules: Rules)
    requires Whole(s, rules) && After(s, acts, rules).Some?
    ensures WholeThroughout(s, acts, rules) <==> Harmless(s, acts, rules)
    ensures Harmless(s, acts, rules) ==> Whole(After(s, acts, rules).value, rules)
  {
    if acts != [] {
      hide Whole, Harms, Enabled, Next, WholeThroughout, Harmless;
      RunBefore(s, acts, rules);
      hide After;
      var before := acts[..|acts| - 1];
      AlwaysWholeExactly(s, before, rules);
      if Harmless(s, before, rules) { WholeExactly(After(s, before, rules).value, acts[|acts| - 1], rules); }
    }
  }

  /** No connection is lost by a sweep with objects still to remove. */
  ghost predicate AllCareful(s: Store, acts: seq<Act>, rules: Rules) {
    forall i | 0 <= i < |acts| :: After(s, acts[..i], rules).Some? ==> Careful(After(s, acts[..i], rules).value, acts[i])
  }

  lemma CarefulBefore(s: Store, acts: seq<Act>, rules: Rules)
    requires AllCareful(s, acts, rules) && acts != []
    ensures AllCareful(s, acts[..|acts| - 1], rules)
    ensures After(s, acts[..|acts| - 1], rules).Some? ==> Careful(After(s, acts[..|acts| - 1], rules).value, acts[|acts| - 1])
  {
    hide Careful;
    var before := acts[..|acts| - 1];
    assert forall i | 0 <= i < |before| :: before[..i] == acts[..i];
  }

  /**
   * Where the protocol guarantees it: while no sweep loses its connection with objects left to
   * remove, every removal is harmless, whatever else crashes, and so nothing ever dangles.
   */
  lemma {:induction false} AlwaysSafe(s: Store, acts: seq<Act>, rules: Rules)
    requires SafeInv(s, rules) && After(s, acts, rules).Some? && AllCareful(s, acts, rules)
    ensures SafeInv(After(s, acts, rules).value, rules)
    ensures Harmless(s, acts, rules) && WholeThroughout(s, acts, rules)
  {
    if acts != [] {
      hide SafeInv, Whole, Enabled, Next, Harms, Harmless, WholeThroughout, AllCareful;
      var before, a := acts[..|acts| - 1], acts[|acts| - 1];
      RunBefore(s, acts, rules);
      hide After;
      CarefulBefore(s, acts, rules);
      AlwaysSafe(s, before, rules);
      CondemnedHarmless(After(s, before, rules).value, a, rules);
      SafeStep(After(s, before, rules).value, a, rules);
      SafeIsWhole(After(s, acts, rules).value, rules);
    }
  }

  lemma SafeIsWhole(s: Store, rules: Rules)
    requires SafeInv(s, rules)
    ensures Whole(s, rules)
  {
  }

  // ---------------------------------------------------------------- what no loss can touch

  /** Locks, offers and tables are in order whatever happens to the objects. */
  ghost predicate Steady(s: Store, rules: Rules) {
    LockInv(s) && OfferInv(s.processes, rules) && TableInv(s.tables)
  }

  lemma InsertInOrder(t: Tables, o: Offer)
    requires TableInv(t) && Inserting(t, o).Some?
    ensures TableInv(Inserting(t, o).value)
  {
    hide SizesAgree, RunStore.Recorded;
  }

  lemma RepairedInOrder(t: Tables, k: RunKey, rules: Rules)
    requires TableInv(t) && k in t.runs && Repaired(t, k, rules).Some?
    ensures TableInv(Repaired(t, k, rules).value)
  {
    hide Current;
  }

  lemma RepairInOrder(t: Tables, o: Offer, rules: Rules)
    requires TableInv(t) && o.key in t.runs
    ensures Completed(t, o, rules).Some? ==> TableInv(Completed(t, o, rules).value)
    ensures Joining(t, o, rules).Some? ==> TableInv(Joining(t, o, rules).value)
  {
    hide SizesAgree, RunStore.Recorded, Repaired, TableInv, WithRetention;
    if Completed(t, o, rules).Some? {
      RetainInOrder(t, o);
      RepairedInOrder(WithRetention(t, o.key, o.expiresAt), o.key, rules);
    }
    if Joining(t, o, rules).Some? {
      RelateInOrder(t, o);
      RepairedInOrder(WithRetention(Relate(t, o), o.key, o.expiresAt), o.key, rules);
    }
  }

  lemma RetainInOrder(t: Tables, o: Offer)
    requires TableInv(t) && o.key in t.runs
    ensures TableInv(WithRetention(t, o.key, o.expiresAt)) && WithRetention(t, o.key, o.expiresAt).runs == t.runs
  {
  }

  lemma RelateInOrder(t: Tables, o: Offer)
    requires TableInv(t) && o.key in t.runs
    ensures TableInv(WithRetention(Relate(t, o), o.key, o.expiresAt)) && WithRetention(Relate(t, o), o.key, o.expiresAt).runs == t.runs
  {
    hide RunStore.Recorded;
  }

  lemma TablesInOrder(s: Store, a: Act, rules: Rules)
    requires TableInv(s.tables) && Enabled(s, a, rules)
    ensures TableInv(NextTables(s, a, rules))
  {
    hide Referenced, Picks, Honest, Inserting, Joining, Completed;
    if a.Archive? || a.Complete? {
      var o := s.processes[a.pid].offer;
      if o.key in s.tables.runs { RepairInOrder(s.tables, o, rules); }
      if ArchivedIn(s.tables, o, rules).Some? && o.key !in s.tables.runs { InsertInOrder(s.tables, o); }
    }
  }

  lemma SteadyStep(s: Store, a: Act, rules: Rules)
    requires Steady(s, rules) && Enabled(s, a, rules)
    ensures Steady(Next(s, a, rules), rules)
  {
    LockKept(s, a, rules);
    OffersKept(s, a, rules);
    TablesInOrder(s, a, rules);
    hide LockInv, OfferInv, TableInv, Enabled, NextTables, NextObjects, NextProcess;
  }

  lemma {:induction false} AlwaysSteady(s: Store, acts: seq<Act>, rules: Rules)
    requires Steady(s, rules) && After(s, acts, rules).Some?
    ensures Steady(After(s, acts, rules).value, rules)
  {
    if acts != [] {
      hide Steady, Enabled, Next;
      AlwaysSteady(s, acts[..|acts| - 1], rules);
      SteadyStep(After(s, acts[..|acts| - 1], rules).value, acts[|acts| - 1], rules);
    }
  }

  /** The store at its beginning. */
  const EMPTY_STORE := Store(Tables(map[], map[], map[], map[], map[], 0), map[], map[], {}, None)

  lemma EmptyIsSafe(rules: Rules)
    ensures SafeInv(EMPTY_STORE, rules) && Steady(EMPTY_STORE, rules)
  {
  }
}
