/**
Index freshness: whatever wrote it, an index row that carries the current version and its run's
fingerprint is what the stored source derives; and a rebuild walk that ends without problems
leaves every run current.
*/
module StoreFreshness {
  import opened Protocol
  import opened RunStore
  import opened StoreSafety
  import opened StoreIdentity

  /** Rows that claim to be current are what their source derives. */
  ghost predicate FreshInv(t: Tables, rules: Rules) {
    forall k | k in t.index && k in t.runs && Current(t, k) && rules.derive(k, t.runs[k].source).Some? ::
      t.index[k].index == rules.derive(k, t.runs[k].source).value
  }

  /** What a rebuild under its lease is about to write. */
  ghost predicate ReadyFor(p: Process, t: Tables, rules: Rules) {
    p.Rebuilding? ==>
      && (forall q | q in p.todo :: q.key in t.runs && q.fingerprint == t.runs[q.key].fingerprint)
      && (p.ready.Some? ==> p.todo != [] && rules.derive(p.todo[0].key, t.runs[p.todo[0].key].source) == p.ready)
  }

  ghost predicate ReadyInv(s: Store, rules: Rules) {
    forall pid | pid in s.shared && pid in s.processes :: ReadyFor(s.processes[pid], s.tables, rules)
  }

  ghost predicate InTodo(todo: seq<Picked>, k: RunKey) {
    exists q | q in todo :: q.key == k
  }

  /** How far a walk without problems has brought its project. */
  ghost predicate Walked(p: Process, t: Tables) {
    && (p.Walking? && p.clean ==>
          forall k | k in t.runs && k.project == p.project && t.runs[k].sequence <= p.after :: Current(t, k))
    && (p.Rebuilding? && p.clean ==>
          forall k | k in t.runs && k.project == p.project && (t.runs[k].sequence <= p.last || !p.more) ::
            Current(t, k) || (t.runs[k].sequence > p.after && InTodo(p.todo, k)))
    && (p.Rebuilt? && p.clean ==> forall k | k in t.runs && k.project == p.project :: Current(t, k))
  }

  ghost predicate WalkInv(s: Store) {
    forall pid | pid in s.processes :: Walked(s.processes[pid], s.tables)
  }

  ghost predicate FreshStore(s: Store, rules: Rules) {
    FreshInv(s.tables, rules) && ReadyInv(s, rules) && WalkInv(s)
  }

  // ---------------------------------------------------------------- transactions

  /** Runs stay as they are, current ones stay current, and new ones are current at once. */
  ghost predicate Progress(t: Tables, t': Tables) {
    && (forall k | k in t.runs && k in t'.runs :: t'.runs[k] == t.runs[k])
    && (forall k | k in t'.runs && (k !in t.runs || Current(t, k)) :: Current(t', k))
  }

  lemma RepairFresh(t: Tables, k: RunKey, rules: Rules)
    requires k in t.runs && FreshInv(t, rules) && Repaired(t, k, rules).Some?
    ensures FreshInv(Repaired(t, k, rules).value, rules) && Progress(t, Repaired(t, k, rules).value)
  {
  }

  lemma OutsideIndex(t: Tables, t': Tables, rules: Rules)
    requires FreshInv(t, rules) && t'.runs == t.runs && t'.index == t.index
    ensures FreshInv(t', rules) && Progress(t, t')
  {
  }

  lemma ProgressChain(t: Tables, m: Tables, t': Tables)
    requires Progress(t, m) && Progress(m, t') && t.runs.Keys <= m.runs.Keys
    ensures Progress(t, t')
  {
  }

  lemma CompleteFresh(t: Tables, o: Offer, rules: Rules)
    requires FreshInv(t, rules) && CompletedIn(t, o, rules).Some?
    ensures FreshInv(CompletedIn(t, o, rules).value, rules) && Progress(t, CompletedIn(t, o, rules).value)
  {
    hide FreshInv, Progress, Current, Repaired;
    var m := WithRetention(t, o.key, o.expiresAt);
    OutsideIndex(t, m, rules);
    RepairFresh(m, o.key, rules);
    ProgressChain(t, m, CompletedIn(t, o, rules).value);
  }

  lemma JoinFresh(t: Tables, o: Offer, rules: Rules)
    requires o.key in t.runs && FreshInv(t, rules) && Joining(t, o, rules).Some?
    ensures FreshInv(Joining(t, o, rules).value, rules) && Progress(t, Joining(t, o, rules).value)
  {
    hide FreshInv, Progress, Current, Repaired, SizesAgree, RunStore.Recorded;
    var m := WithRetention(Relate(t, o), o.key, o.expiresAt);
    OutsideIndex(t, m, rules);
    RepairFresh(m, o.key, rules);
    ProgressChain(t, m, Joining(t, o, rules).value);
  }

  lemma InsertFresh(t: Tables, o: Offer, rules: Rules)
    requires o.key !in t.runs && FreshInv(t, rules) && Honest(o, rules) && Inserting(t, o).Some?
    ensures FreshInv(Inserting(t, o).value, rules) && Progress(t, Inserting(t, o).value)
  {
    hide SizesAgree, RunStore.Recorded;
  }

  lemma ReplaceFresh(t: Tables, p: Process, rules: Rules)
    requires FreshInv(t, rules) && ReadyFor(p, t, rules) && p.Rebuilding? && p.todo != [] && p.ready.Some?
    ensures FreshInv(Replaced(t, p), rules) && Progress(t, Replaced(t, p))
    ensures p.todo[0].key in t.runs && Current(Replaced(t, p), p.todo[0].key)
  {
    assert p.todo[0] in p.todo;
  }

  lemma TablesFresh(s: Store, a: Act, rules: Rules)
    requires FreshInv(s.tables, rules) && ReadyInv(s, rules) && OfferInv(s.processes, rules) && Enabled(s, a, rules)
    ensures FreshInv(NextTables(s, a, rules), rules) && Progress(s.tables, NextTables(s, a, rules))
  {
    hide FreshInv, Progress, Honest, Referenced, Picks, Inserting, Joining, CompletedIn, Current, ReadyFor;
    var t := s.tables;
    match a
    case Complete(pid) =>
      OutsideIndex(t, t, rules);
      if CompletedIn(t, s.processes[pid].offer, rules).Some? { CompleteFresh(t, s.processes[pid].offer, rules); }
    case Archive(pid) =>
      var o := s.processes[pid].offer;
      OutsideIndex(t, t, rules);
      if ArchivedIn(t, o, rules).Some? {
        if o.key in t.runs { JoinFresh(t, o, rules); } else { InsertFresh(t, o, rules); }
      }
    case DeleteExpired(pid, batch) => DeleteFresh(t, batch, s.processes[pid].asOf, rules);
    case DropRow(_, h) => OutsideIndex(t, t.(catalog := t.catalog - {h}), rules);
    case Replace(pid) => ReplaceFresh(t, s.processes[pid], rules);
    case _ => OutsideIndex(t, t, rules);
  }

  lemma DeleteFresh(t: Tables, batch: set<RunKey>, asOf: int, rules: Rules)
    requires FreshInv(t, rules)
    ensures FreshInv(Deleted(t, batch, asOf), rules) && Progress(t, Deleted(t, batch, asOf))
  {
  }

  // ---------------------------------------------------------------- rebuilds

  /** While a lease is held, no run goes. */
  lemma NoneGoes(s: Store, a: Act, rules: Rules)
    requires LockInv(s) && TableInv(s.tables) && Enabled(s, a, rules) && s.shared != {}
    ensures s.tables.runs.Keys <= NextTables(s, a, rules).runs.Keys
  {
    hide NextTables, Referenced, Picks, Honest;
    IdentityStep(s, a, rules);
  }

  lemma ReadyElsewhere(p: Process, t: Tables, t': Tables, rules: Rules)
    requires ReadyFor(p, t, rules) && Progress(t, t') && t.runs.Keys <= t'.runs.Keys
    ensures ReadyFor(p, t', rules)
  {
  }

  lemma ReadyMoves(s: Store, a: Act, rules: Rules)
    requires ReadyInv(s, rules) && LockInv(s) && Enabled(s, a, rules)
    requires a.pid in Next(s, a, rules).shared && NextProcess(s, a, rules).Some?
    ensures ReadyFor(NextProcess(s, a, rules).value, s.tables, rules)
  {
    hide Referenced, Honest, CompletedIn, ArchivedIn, ArchiveOutcome, NextTables, NextObjects;
    if a.pid in s.shared && s.processes[a.pid].Rebuilding? {
      var p := s.processes[a.pid];
      assert ReadyFor(p, s.tables, rules);
      assert forall q | p.todo != [] && q in p.todo[1..] :: q in p.todo;
      if p.todo != [] { assert p.todo[0] in p.todo; }
    }
  }

  lemma ReadyKept(s: Store, a: Act, rules: Rules)
    requires ReadyInv(s, rules) && LockInv(s) && TableInv(s.tables) && Enabled(s, a, rules)
    requires Progress(s.tables, NextTables(s, a, rules))
    ensures ReadyInv(Next(s, a, rules), rules)
  {
    var s' := Next(s, a, rules);
    LockKept(s, a, rules);
    forall q | q in s'.shared && q in s'.processes ensures ReadyFor(s'.processes[q], s'.tables, rules) {
      if q != a.pid {
        OneMoves(s, a, rules, q);
        NoneGoes(s, a, rules);
        ReadyElsewhere(s.processes[q], s.tables, s'.tables, rules);
      } else {
        ReadyMoves(s, a, rules);
        if s.shared != {} {
          NoneGoes(s, a, rules);
        } else {
          JoinsAlone(s, a, rules);
        }
        ReadyElsewhere(s'.processes[q], s.tables, s'.tables, rules);
      }
      hide NextTables, NextProcess, NextObjects, ReadyFor, Progress, Referenced, Picks, Honest;
    }
  }

  lemma JoinsAlone(s: Store, a: Act, rules: Rules)
    requires Enabled(s, a, rules) && s.shared == {} && a.pid in Next(s, a, rules).shared
    ensures NextTables(s, a, rules) == s.tables
  {
    hide NextProcess, NextObjects, Referenced, Picks, Honest;
  }

  lemma WalkedElsewhere(p: Process, t: Tables, t': Tables)
    requires Walked(p, t) && Progress(t, t')
    ensures Walked(p, t')
  {
    hide Current, InTodo;
  }

  lemma TodoTail(todo: seq<Picked>, k: RunKey)
    requires todo != [] && InTodo(todo, k) && todo[0].key != k
    ensures InTodo(todo[1..], k)
  {
    var q :| q in todo && q.key == k;
    assert todo == [todo[0]] + todo[1..];
    assert q in todo[1..];
  }

  lemma WalkedDerive(p: Process, t: Tables, rules: Rules)
    requires Walked(p, t) && p.Rebuilding? && p.todo != []
    ensures Walked(DerivedNext(t, p, rules), t)
  {
    hide Current, InTodo;
    var k0 := p.todo[0].key;
    if k0 !in t.runs {
      forall k | k in t.runs && InTodo(p.todo, k) ensures InTodo(p.todo[1..], k) { TodoTail(p.todo, k); }
    }
  }

  lemma WalkedReplace(p: Process, t: Tables)
    requires Walked(p, t) && p.Rebuilding? && p.todo != [] && p.ready.Some? && p.todo[0].key in t.runs && Current(t, p.todo[0].key)
    ensures Walked(p.(todo := p.todo[1..], ready := None), t)
  {
    hide Current, InTodo;
    forall k | k in t.runs && InTodo(p.todo, k) && k != p.todo[0].key ensures InTodo(p.todo[1..], k) { TodoTail(p.todo, k); }
  }

  lemma WalkedStart(p: Process, t: Tables, todo: seq<Picked>, last: int, more: bool)
    requires Walked(p, t) && p.Walking? && Picks(t, p.project, p.after, todo, last, more)
    ensures Walked(Rebuilding(p.project, p.after, p.clean, todo, last, more, None), t)
  {
    hide Current;
  }

  lemma WalkedEnd(p: Process, t: Tables)
    requires Walked(p, t) && p.Rebuilding? && p.todo == []
    ensures Walked(if p.more then Walking(p.project, p.last, p.clean) else Rebuilt(p.project, p.clean), t)
  {
    hide Current;
    assert forall k :: !InTodo(p.todo, k);
  }

  lemma WalkedMoves(s: Store, a: Act, rules: Rules)
    requires FreshStore(s, rules) && OfferInv(s.processes, rules) && Enabled(s, a, rules) && NextProcess(s, a, rules).Some?
    requires Progress(s.tables, NextTables(s, a, rules))
    ensures Walked(NextProcess(s, a, rules).value, NextTables(s, a, rules))
  {
    hide FreshInv, Progress, Walked, Honest, Referenced, Picks, Current, ReadyFor, CompletedIn, ArchivedIn, ArchiveOutcome, Deleted, Replaced;
    var t := s.tables;
    match a
    case StartPass(pid, todo, last, more) => WalkedStart(s.processes[pid], t, todo, last, more);
    case Derive(pid) => WalkedDerive(s.processes[pid], t, rules);
    case Replace(pid) =>
      ReplaceFresh(t, s.processes[pid], rules);
      WalkedElsewhere(s.processes[pid], t, Replaced(t, s.processes[pid]));
      ReplacedRuns(t, s.processes[pid]);
      WalkedReplace(s.processes[pid], Replaced(t, s.processes[pid]));
    case EndPass(pid) => WalkedEnd(s.processes[pid], t);
    case _ => WalkedQuiet(s, a, rules);
  }

  lemma ReplacedRuns(t: Tables, p: Process)
    requires p.Rebuilding? && p.todo != [] && p.ready.Some?
    ensures Replaced(t, p).runs == t.runs
  {
  }

  /** Steps of other kinds neither start nor advance a walk. */
  lemma WalkedQuiet(s: Store, a: Act, rules: Rules)
    requires WalkInv(s) && Enabled(s, a, rules) && NextProcess(s, a, rules).Some?
    requires !a.StartPass? && !a.Derive? && !a.Replace? && !a.EndPass?
    requires Progress(s.tables, NextTables(s, a, rules))
    ensures Walked(NextProcess(s, a, rules).value, NextTables(s, a, rules))
  {
    hide Progress, Honest, Referenced, Picks, Current, CompletedIn, ArchivedIn, ArchiveOutcome, Deleted, InTodo, NextTables;
    if a.pid in s.processes {
      assert Walked(s.processes[a.pid], s.tables);
      WalkedElsewhere(s.processes[a.pid], s.tables, NextTables(s, a, rules));
    }
  }

  lemma WalkKept(s: Store, a: Act, rules: Rules)
    requires FreshStore(s, rules) && OfferInv(s.processes, rules) && Enabled(s, a, rules)
    requires Progress(s.tables, NextTables(s, a, rules))
    ensures WalkInv(Next(s, a, rules))
  {
    var s' := Next(s, a, rules);
    forall q | q in s'.processes ensures Walked(s'.processes[q], s'.tables) {
      if q != a.pid {
        OneMoves(s, a, rules, q);
        WalkedElsewhere(s.processes[q], s.tables, s'.tables);
      } else {
        WalkedMoves(s, a, rules);
      }
      hide NextTables, NextProcess, NextObjects, Walked, Progress, Enabled, FreshInv, ReadyInv, OfferInv;
    }
  }

  /** Every step keeps the index fresh and the walks honest. */
  lemma FreshStep(s: Store, a: Act, rules: Rules)
    requires Steady(s, rules) && FreshStore(s, rules) && Enabled(s, a, rules)
    ensures FreshStore(Next(s, a, rules), rules)
  {
    TablesFresh(s, a, rules);
    ReadyKept(s, a, rules);
    WalkKept(s, a, rules);
    hide Steady, FreshInv, ReadyInv, WalkInv, Progress, NextTables, NextProcess, NextObjects, Enabled;
  }

  /**
   * Index freshness over every run of the system: in every reachable state, rows that carry the
   * current version and the run's fingerprint are what its stored source derives, and when a
   * rebuild walk has ended without a problem every run of its project is current.
   */
  lemma {:induction false} AlwaysFresh(s: Store, acts: seq<Act>, rules: Rules)
    requires Steady(s, rules) && FreshStore(s, rules) && After(s, acts, rules).Some?
    ensures FreshStore(After(s, acts, rules).value, rules)
  {
    if acts != [] {
      hide Steady, Enabled, Next, FreshStore;
      var before, a := acts[..|acts| - 1], acts[|acts| - 1];
      AfterLast(s, acts, rules);
      hide After;
      AlwaysFresh(s, before, rules);
      AlwaysSteady(s, before, rules);
      FreshStep(After(s, before, rules).value, a, rules);
    }
  }

  /** How many passes of a walker have ended. */
  function Passes(acts: seq<Act>, pid: nat): nat {
    if acts == [] then 0 else Passes(acts[..|acts| - 1], pid) + (if acts[|acts| - 1] == EndPass(pid) then 1 else 0)
  }

  /** Where a walker stands after `n` passes: each moved its cursor up, and none past the runs there are. */
  ghost predicate WalksBounded(s: Store, pid: nat, n: nat) {
    pid in s.processes ==>
      var p := s.processes[pid];
      match p
      case Walking(_, after, _) => -1 <= after < s.tables.next && n <= after + 1
      case Rebuilding(_, after, _, _, last, more, _) =>
        -1 <= after < s.tables.next && n <= after + 1 && (more ==> after < last < s.tables.next)
      case Rebuilt(_, _) => n <= s.tables.next + 1
      case _ => false
  }

  lemma NextGrows(s: Store, a: Act, rules: Rules)
    requires Enabled(s, a, rules)
    ensures NextTables(s, a, rules).next >= s.tables.next
  {
    hide Referenced, Picks, Honest, SizesAgree, RunStore.Recorded, Current;
  }

  lemma WalkerMoves(s: Store, a: Act, rules: Rules, n: nat)
    requires TableInv(s.tables) && Enabled(s, a, rules) && !a.Arrive? && WalksBounded(s, a.pid, n)
    ensures WalksBounded(Next(s, a, rules), a.pid, n + if a.EndPass? then 1 else 0)
  {
    hide Referenced, Honest, CompletedIn, ArchivedIn, NextTables, NextObjects;
    NextGrows(s, a, rules);
  }

  lemma WalkerStays(s: Store, a: Act, rules: Rules, pid: nat, n: nat)
    requires Enabled(s, a, rules) && a.pid != pid && WalksBounded(s, pid, n)
    ensures WalksBounded(Next(s, a, rules), pid, n)
  {
    hide Referenced, Honest, Picks, NextTables, NextObjects, NextProcess;
    NextGrows(s, a, rules);
  }

  /**
   * A rebuild walk ends, whatever is inserted meanwhile: it has ended no more passes than one for
   * each ingestion sequence given so far, and one for a walk over none.
   */
  lemma {:induction false} WalkEnds(s: Store, acts: seq<Act>, rules: Rules, pid: nat)
    requires Steady(s, rules) && After(s, acts, rules).Some?
    requires pid in s.processes && s.processes[pid].Walking? && s.processes[pid].after == -1
    requires forall a | a in acts :: a.Arrive? ==> a.pid != pid
    ensures WalksBounded(After(s, acts, rules).value, pid, Passes(acts, pid))
    ensures pid in After(s, acts, rules).value.processes ==> Passes(acts, pid) <= After(s, acts, rules).value.tables.next + 1
  {
    if acts != [] {
      hide Steady, Enabled, Next, WalksBounded;
      var before, a := acts[..|acts| - 1], acts[|acts| - 1];
      AfterLast(s, acts, rules);
      WalkEnds(s, before, rules, pid);
      AlwaysSteady(s, before, rules);
      var now := After(s, before, rules).value;
      SteadyTables(now, rules);
      if a.pid == pid { WalkerMoves(now, a, rules, Passes(before, pid)); } else { WalkerStays(now, a, rules, pid, Passes(before, pid)); }
      BoundedMeans(After(s, acts, rules).value, pid, Passes(acts, pid));
    }
  }

  lemma BoundedMeans(s: Store, pid: nat, n: nat)
    requires WalksBounded(s, pid, n)
    ensures pid in s.processes ==> n <= s.tables.next + 1
  {
  }

  // ---------------------------------------------------------------- the beginning

  /** The empty store is in order: what is proved of every run holds from the beginning. */
  lemma EmptyIsFresh(rules: Rules)
    ensures Steady(EMPTY_STORE, rules) && FreshStore(EMPTY_STORE, rules)
  {
  }
}
