/**
An ingestion that meets other content under its identity changes nothing, at any of its steps and in
every run of the store.
*/
module StoreConflict {
  import opened Protocol
  import opened RunStore
  import opened StoreSafety
  import opened StoreIdentity
  import StoreFreshness

  /** An ingestion about to complete a run under its lease has recognised the run's content. */
  ghost predicate Recognises(p: Process, runs: map<RunKey, Run>) {
    p.Completing? ==> p.offer.key in runs && runs[p.offer.key].fingerprint == p.offer.fingerprint
  }

  ghost predicate Recognised(s: Store) {
    forall pid | pid in s.processes && pid in s.shared :: Recognises(s.processes[pid], s.tables.runs)
  }

  /** Only the first look at the catalog leads to completing, and only over the same content. */
  lemma BecomesCompleting(s: Store, a: Act, rules: Rules)
    requires Enabled(s, a, rules) && NextProcess(s, a, rules).Some? && NextProcess(s, a, rules).value.Completing?
    ensures a.Look? || (a.LoseLease? && NextProcess(s, a, rules).value == s.processes[a.pid])
    ensures a.Look? ==> Recognises(NextProcess(s, a, rules).value, s.tables.runs) && NextTables(s, a, rules) == s.tables
  {
    hide Honest, Picks, Referenced, NextTables, CompletedIn, ArchivedIn, ArchiveOutcome;
    if a.Look? { assert NextTables(s, a, rules) == s.tables by { LookWritesNothing(s, a, rules); } }
  }

  lemma LookWritesNothing(s: Store, a: Act, rules: Rules)
    requires Enabled(s, a, rules) && a.Look?
    ensures NextTables(s, a, rules) == s.tables
  {
  }

  lemma RecognisedStep(s: Store, a: Act, rules: Rules)
    requires Steady(s, rules) && Recognised(s) && Enabled(s, a, rules)
    ensures Recognised(Next(s, a, rules))
  {
    hide Steady, Enabled, NextTables, NextProcess, NextObjects, Recognises;
    var s' := Next(s, a, rules);
    forall pid | pid in s'.processes && pid in s'.shared ensures Recognises(s'.processes[pid], s'.tables.runs) {
      if pid == a.pid { ActorRecognises(s, a, rules); } else { OthersRecognise(s, a, rules, pid); }
    }
  }

  lemma ActorRecognises(s: Store, a: Act, rules: Rules)
    requires Steady(s, rules) && Recognised(s) && Enabled(s, a, rules)
    requires NextProcess(s, a, rules).Some? && a.pid in Next(s, a, rules).shared
    ensures Recognises(NextProcess(s, a, rules).value, NextTables(s, a, rules).runs)
  {
    hide Steady, Enabled, NextTables, NextProcess, NextObjects;
    if NextProcess(s, a, rules).value.Completing? { BecomesCompleting(s, a, rules); }
  }

  lemma OthersRecognise(s: Store, a: Act, rules: Rules, pid: nat)
    requires Steady(s, rules) && Recognised(s) && Enabled(s, a, rules) && pid != a.pid
    requires pid in Next(s, a, rules).processes && pid in Next(s, a, rules).shared
    ensures Recognises(Next(s, a, rules).processes[pid], Next(s, a, rules).tables.runs)
  {
    hide Steady, Enabled, NextTables, NextProcess, NextObjects;
    assert pid in s.shared && pid in s.processes && Recognises(s.processes[pid], s.tables.runs);
    SteadyTables(s, rules);
    IdentityStep(s, a, rules);
    StoreFreshness.NoneGoes(s, a, rules);
  }

  lemma {:induction false} AlwaysRecognised(s: Store, acts: seq<Act>, rules: Rules)
    requires Steady(s, rules) && Recognised(s) && After(s, acts, rules).Some?
    ensures Recognised(After(s, acts, rules).value)
  {
    hide Steady, Enabled, Next, Recognised;
    if acts != [] {
      var before := acts[..|acts| - 1];
      AfterLast(s, acts, rules);
      hide After;
      AlwaysRecognised(s, before, rules);
      AlwaysSteady(s, before, rules);
      RecognisedStep(After(s, before, rules).value, acts[|acts| - 1], rules);
    }
  }

  /** The step of an ingestion whose identity holds other content. */
  ghost predicate MeetsOther(s: Store, a: Act) {
    && a.pid in s.processes && HasOffer(s.processes[a.pid])
    && (var o := s.processes[a.pid].offer; o.key in s.tables.runs && s.tables.runs[o.key].fingerprint != o.fingerprint)
  }

  lemma OtherChangesNothingNow(s: Store, a: Act, rules: Rules)
    requires Recognised(s) && Enabled(s, a, rules) && MeetsOther(s, a)
    ensures NextTables(s, a, rules) == s.tables
    ensures a.Archive? || a.Look? ==> NextProcess(s, a, rules) == Some(Leaving(s.processes[a.pid].offer, Conflict))
  {
    hide Honest, Picks, Referenced, CompletedIn, Inserting, Joining;
    assert a.Complete? ==> Recognises(s.processes[a.pid], s.tables.runs);
  }

  /**
   * In every reachable state, whatever step an ingestion takes while its identity holds other
   * content, no table changes; and if the step decides the outcome, the outcome is a conflict.
   */
  lemma OtherContentChangesNothing(s: Store, acts: seq<Act>, a: Act, rules: Rules)
    requires Steady(s, rules) && Recognised(s) && After(s, acts, rules).Some?
    requires var now := After(s, acts, rules).value; Enabled(now, a, rules) && MeetsOther(now, a)
    ensures var now := After(s, acts, rules).value;
            && NextTables(now, a, rules) == now.tables
            && (a.Archive? || a.Look? ==> NextProcess(now, a, rules) == Some(Leaving(now.processes[a.pid].offer, Conflict)))
  {
    hide Steady, Enabled, NextTables, NextProcess, After, Recognised, MeetsOther;
    AlwaysRecognised(s, acts, rules);
    OtherChangesNothingNow(After(s, acts, rules).value, a, rules);
  }

  /** What is proved of every run holds from the empty store on. */
  lemma EmptyIsRecognised()
    ensures Recognised(EMPTY_STORE)
  {
  }

  /** Every store reached from the empty one is in order, fresh and free of unrecognised work. */
  lemma FromTheBeginning(acts: seq<Act>, rules: Rules)
    requires After(EMPTY_STORE, acts, rules).Some?
    ensures var s := After(EMPTY_STORE, acts, rules).value;
            Steady(s, rules) && StoreFreshness.FreshStore(s, rules) && Recognised(s)
    ensures WholeThroughout(EMPTY_STORE, acts, rules) <==> Harmless(EMPTY_STORE, acts, rules)
    ensures AllCareful(EMPTY_STORE, acts, rules) ==> Harmless(EMPTY_STORE, acts, rules)
  {
    EmptyIsSafe(rules);
    EmptyIsRecognised();
    StoreFreshness.EmptyIsFresh(rules);
    hide Steady, Whole, SafeInv, StoreFreshness.FreshStore, Recognised, After, Harmless, WholeThroughout, AllCareful;
    AlwaysSteady(EMPTY_STORE, acts, rules);
    StoreFreshness.AlwaysFresh(EMPTY_STORE, acts, rules);
    AlwaysRecognised(EMPTY_STORE, acts, rules);
    SafeIsWhole(EMPTY_STORE, rules);
    AlwaysWholeExactly(EMPTY_STORE, acts, rules);
    if AllCareful(EMPTY_STORE, acts, rules) { AlwaysSafe(EMPTY_STORE, acts, rules); }
  }
}
