/**
From the directories offered to the history a query answers: whatever ingestions, rebuilds, sweeps,
crashes and lost connections lie between, what the current index rows of a project give is the
history the in-memory read model gives of the offered directories.
*/
module StoredHistory {
  import opened Protocol
  import opened Validator
  import opened Soundness
  import opened QueryIndex
  import opened RunStore
  import opened StoreSafety
  import opened StoreIdentity
  import opened StoreFreshness
  import opened Offers
  import opened Sorting
  import opened P = Projection
  import ProjectionMeaning
  import Archive
  import Replay
  import Meaning
  import Lifecycle
  import History

  // ---------------------------------------------------------------- where rows come from

  /** The offer arrived at some step of the run. */
  ghost predicate Arrived(acts: seq<Act>, o: Offer) {
    exists a | a in acts :: a.Arrive? && a.arriving == Arriving(o)
  }

  lemma ArrivedBefore(acts: seq<Act>, o: Offer)
    requires acts != []
    ensures Arrived(acts[..|acts| - 1], o) ==> Arrived(acts, o)
    ensures acts[|acts| - 1].Arrive? && acts[|acts| - 1].arriving == Arriving(o) ==> Arrived(acts, o)
  {
    assert acts[|acts| - 1] in acts;
  }

  /** The archived run came in this offer; so did its index, when its source cannot be replayed. */
  ghost predicate Origin(t: Tables, k: RunKey, o: Offer, rules: Rules)
    requires k in t.runs
  {
    && o.key == k && o.source == t.runs[k].source && o.fingerprint == t.runs[k].fingerprint && Honest(o, rules)
    && (Current(t, k) && rules.derive(k, o.source).None? ==> t.index[k].index == o.index)
  }

  ghost predicate HasOrigin(t: Tables, k: RunKey, acts: seq<Act>, rules: Rules)
    requires k in t.runs
  {
    exists o :: Arrived(acts, o) && Origin(t, k, o, rules)
  }

  ghost predicate AllArrived(s: Store, acts: seq<Act>, rules: Rules) {
    && (forall pid | pid in s.processes && HasOffer(s.processes[pid]) :: Arrived(acts, s.processes[pid].offer))
    && (forall k | k in s.tables.runs :: HasOrigin(s.tables, k, acts, rules))
  }

  /** What a step writes for a run that stays: the run itself never, its index only when derived. */
  ghost predicate OnlyDerived(t: Tables, t': Tables, k: RunKey, rules: Rules)
    requires k in t.runs && k in t'.runs
  {
    && t'.runs[k] == t.runs[k]
    && (Current(t', k) && rules.derive(k, t.runs[k].source).None? ==> Current(t, k) && t'.index[k] == t.index[k])
  }

  lemma RepairDerives(t: Tables, k: RunKey, rules: Rules, q: RunKey)
    requires k in t.runs && q in t.runs && Repaired(t, k, rules).Some?
    ensures Repaired(t, k, rules).value.runs == t.runs && OnlyDerived(t, Repaired(t, k, rules).value, q, rules)
  {
  }

  lemma CompletingDerives(t: Tables, o: Offer, rules: Rules, k: RunKey)
    requires CompletedIn(t, o, rules).Some? && k in t.runs
    ensures CompletedIn(t, o, rules).value.runs == t.runs && OnlyDerived(t, CompletedIn(t, o, rules).value, k, rules)
  {
    RepairDerives(WithRetention(t, o.key, o.expiresAt), o.key, rules, k);
    hide Repaired;
  }

  lemma JoiningDerives(t: Tables, o: Offer, rules: Rules, k: RunKey)
    requires o.key in t.runs && Joining(t, o, rules).Some? && k in t.runs
    ensures Joining(t, o, rules).value.runs == t.runs && OnlyDerived(t, Joining(t, o, rules).value, k, rules)
  {
    RepairDerives(WithRetention(Relate(t, o), o.key, o.expiresAt), o.key, rules, k);
    hide Repaired, SizesAgree, RunStore.Recorded;
  }

  lemma InsertingDerives(t: Tables, o: Offer, rules: Rules, k: RunKey)
    requires o.key !in t.runs && Inserting(t, o).Some? && k in t.runs
    ensures OnlyDerived(t, Inserting(t, o).value, k, rules)
  {
    hide SizesAgree, RunStore.Recorded;
  }

  lemma SameDerives(t: Tables, t': Tables, rules: Rules, k: RunKey)
    requires k in t.runs && k in t'.runs
    ensures t'.runs == t.runs && t'.index == t.index ==> OnlyDerived(t, t', k, rules)
  {
  }

  lemma DeletingDerives(t: Tables, batch: set<RunKey>, asOf: int, rules: Rules, k: RunKey)
    requires k in t.runs && k in Deleted(t, batch, asOf).runs
    ensures OnlyDerived(t, Deleted(t, batch, asOf), k, rules)
  {
  }

  lemma TablesDerive(s: Store, a: Act, rules: Rules, k: RunKey)
    requires Steady(s, rules) && ReadyInv(s, rules) && Enabled(s, a, rules)
    requires k in s.tables.runs && k in NextTables(s, a, rules).runs
    ensures OnlyDerived(s.tables, NextTables(s, a, rules), k, rules)
  {
    hide Honest, Referenced, Picks, Inserting, Joining, CompletedIn, Steady, ReadyInv, NextProcess, NextObjects, Replaced, Deleted,
         OnlyDerived, Current;
    var t := s.tables;
    SameDerives(t, NextTables(s, a, rules), rules, k);
    match a
    case Complete(pid) =>
      var o := s.processes[pid].offer;
      if CompletedIn(t, o, rules).Some? { CompletingDerives(t, o, rules, k); }
    case Archive(pid) =>
      var o := s.processes[pid].offer;
      if ArchivedIn(t, o, rules).Some? {
        if o.key in t.runs { JoiningDerives(t, o, rules, k); } else { InsertingDerives(t, o, rules, k); }
      }
    case DeleteExpired(pid, batch) => DeletingDerives(t, batch, s.processes[pid].asOf, rules, k);
    case Replace(pid) =>
      ReadyDerives(s, pid, rules);
      ReplacedDerives(t, s.processes[pid], rules, k);
    case _ =>
  }

  lemma ReplacedDerives(t: Tables, p: Process, rules: Rules, k: RunKey)
    requires p.Rebuilding? && p.todo != [] && p.ready.Some? && p.todo[0].key in t.runs && k in t.runs
    requires rules.derive(p.todo[0].key, t.runs[p.todo[0].key].source) == p.ready
    ensures OnlyDerived(t, Replaced(t, p), k, rules)
  {
  }

  lemma ReadyDerives(s: Store, pid: nat, rules: Rules)
    requires ReadyInv(s, rules) && pid in s.shared && pid in s.processes
    ensures var p := s.processes[pid];
            p.Rebuilding? && p.ready.Some? ==>
              p.todo != [] && p.todo[0].key in s.tables.runs && rules.derive(p.todo[0].key, s.tables.runs[p.todo[0].key].source) == p.ready
  {
    assert ReadyFor(s.processes[pid], s.tables, rules);
    if s.processes[pid].Rebuilding? && s.processes[pid].ready.Some? { assert s.processes[pid].todo[0] in s.processes[pid].todo; }
  }

  lemma InsertingHasOrigin(t: Tables, o: Offer, rules: Rules, k: RunKey)
    requires o.key !in t.runs && Inserting(t, o).Some? && Honest(o, rules) && k !in t.runs && k in Inserting(t, o).value.runs
    ensures Origin(Inserting(t, o).value, k, o, rules)
  {
    hide SizesAgree, RunStore.Recorded, Honest;
  }

  lemma RepairKeepsRuns(t: Tables, o: Offer, rules: Rules)
    ensures CompletedIn(t, o, rules).Some? ==> CompletedIn(t, o, rules).value.runs == t.runs
    ensures o.key in t.runs && Joining(t, o, rules).Some? ==> Joining(t, o, rules).value.runs == t.runs
  {
    hide SizesAgree, RunStore.Recorded;
  }

  /** A run that was not there was inserted by an offer on its way. */
  lemma InsertedFrom(s: Store, a: Act, rules: Rules, k: RunKey)
    requires Steady(s, rules) && Enabled(s, a, rules) && k !in s.tables.runs && k in NextTables(s, a, rules).runs
    ensures a.pid in s.processes && HasOffer(s.processes[a.pid]) && Origin(NextTables(s, a, rules), k, s.processes[a.pid].offer, rules)
  {
    hide Referenced, Picks, Honest, Inserting, Joining, CompletedIn, LockInv, TableInv, Origin;
    var t := s.tables;
    if a.Archive? || a.Complete? {
      var o := s.processes[a.pid].offer;
      assert HasOffer(s.processes[a.pid]) && Honest(o, rules);
      RepairKeepsRuns(t, o, rules);
      if a.Archive? && o.key !in t.runs && Inserting(t, o).Some? { InsertingHasOrigin(t, o, rules, k); }
    }
  }

  lemma OriginStays(t: Tables, t': Tables, k: RunKey, acts: seq<Act>, more: seq<Act>, rules: Rules)
    requires k in t.runs && k in t'.runs && OnlyDerived(t, t', k, rules) && HasOrigin(t, k, acts, rules)
    requires forall o | Arrived(acts, o) :: Arrived(more, o)
    ensures HasOrigin(t', k, more, rules)
  {
    hide Arrived, Honest;
    var o :| Arrived(acts, o) && Origin(t, k, o, rules);
    assert Origin(t', k, o, rules);
  }

  lemma ArrivedStep(s: Store, acts: seq<Act>, rules: Rules)
    requires acts != [] && Steady(s, rules) && ReadyInv(s, rules) && AllArrived(s, acts[..|acts| - 1], rules)
    requires Enabled(s, acts[|acts| - 1], rules)
    ensures AllArrived(Next(s, acts[|acts| - 1], rules), acts, rules)
  {
    hide Arrived, Enabled, NextTables, NextProcess, NextObjects, Steady, ReadyInv, HasOrigin;
    var before, a := acts[..|acts| - 1], acts[|acts| - 1];
    var s' := Next(s, a, rules);
    forall o | Arrived(before, o) ensures Arrived(acts, o) { ArrivedBefore(acts, o); }
    forall pid | pid in s'.processes && HasOffer(s'.processes[pid]) ensures Arrived(acts, s'.processes[pid].offer) {
      if pid == a.pid { OffersArrive(s, acts, rules); } else { OneMoves(s, a, rules, pid); }
    }
    forall k | k in s'.tables.runs ensures HasOrigin(s'.tables, k, acts, rules) {
      if k in s.tables.runs {
        TablesDerive(s, a, rules, k);
        OriginStays(s.tables, s'.tables, k, before, acts, rules);
      } else {
        InsertedFrom(s, a, rules, k);
        OriginNow(s'.tables, k, s.processes[a.pid].offer, acts, rules);
      }
    }
  }

  lemma OriginNow(t: Tables, k: RunKey, o: Offer, acts: seq<Act>, rules: Rules)
    requires k in t.runs && Arrived(acts, o) && Origin(t, k, o, rules)
    ensures HasOrigin(t, k, acts, rules)
  {
    hide Arrived, Origin;
  }

  lemma OffersArrive(s: Store, acts: seq<Act>, rules: Rules)
    requires acts != [] && AllArrived(s, acts[..|acts| - 1], rules) && Enabled(s, acts[|acts| - 1], rules)
    ensures var p := NextProcess(s, acts[|acts| - 1], rules);
            p.Some? && HasOffer(p.value) ==> Arrived(acts, p.value.offer)
  {
    var before, a := acts[..|acts| - 1], acts[|acts| - 1];
    OffersStay(s, a, rules);
    var p := NextProcess(s, a, rules);
    if p.Some? && HasOffer(p.value) {
      if a.Arrive? { ArrivesAsIs(s, a, rules); }
      ArrivedBefore(acts, p.value.offer);
    }
  }

  lemma ArrivesAsIs(s: Store, a: Act, rules: Rules)
    requires Enabled(s, a, rules) && a.Arrive? && HasOffer(NextProcess(s, a, rules).value)
    ensures a.arriving == Arriving(NextProcess(s, a, rules).value.offer)
  {
    hide Honest, Picks, Referenced;
  }

  /** From the empty store on, every archived run came in an offer that arrived. */
  lemma {:induction false} AlwaysArrived(acts: seq<Act>, rules: Rules)
    requires After(EMPTY_STORE, acts, rules).Some?
    ensures AllArrived(After(EMPTY_STORE, acts, rules).value, acts, rules)
  {
    if acts != [] {
      hide Steady, Enabled, Next, FreshInv, WalkInv, ReadyInv, AllArrived;
      var before := acts[..|acts| - 1];
      AfterLast(EMPTY_STORE, acts, rules);
      hide After;
      AlwaysArrived(before, rules);
      EmptyIsFresh(rules);
      AlwaysSteady(EMPTY_STORE, before, rules);
      AlwaysFresh(EMPTY_STORE, before, rules);
      ArrivedStep(After(EMPTY_STORE, before, rules).value, acts, rules);
    }
  }

  /**
   * Every current row is the row of the directory its run came from, whether that directory's
   * stored form can be replayed or not, and whoever wrote the row.
   */
  lemma CurrentIsOffered(acts: seq<Act>, rules: Rules, k: RunKey)
    requires After(EMPTY_STORE, acts, rules).Some?
    requires var t := After(EMPTY_STORE, acts, rules).value.tables; k in t.runs && Current(t, k)
    ensures var t := After(EMPTY_STORE, acts, rules).value.tables;
            exists o :: Arrived(acts, o) && o.key == k && o.source == t.runs[k].source && t.index[k].index == o.index
  {
    hide Steady, FreshStore, AllArrived, After, Current, Arrived;
    AlwaysArrived(acts, rules);
    EmptyIsFresh(rules);
    AlwaysFresh(EMPTY_STORE, acts, rules);
    FreshIsOffered(After(EMPTY_STORE, acts, rules).value, acts, rules, k);
  }

  lemma FreshIsOffered(s: Store, acts: seq<Act>, rules: Rules, k: RunKey)
    requires FreshStore(s, rules) && AllArrived(s, acts, rules) && k in s.tables.runs && Current(s.tables, k)
    ensures exists o :: Arrived(acts, o) && o.key == k && o.source == s.tables.runs[k].source && s.tables.index[k].index == o.index
  {
    hide ReadyInv, WalkInv, Arrived;
    var t := s.tables;
    assert HasOrigin(t, k, acts, rules);
    var o :| Arrived(acts, o) && Origin(t, k, o, rules);
    assert t.index[k].index == o.index;
  }

  // ---------------------------------------------------------------- the history of what was offered

  /** A directory an ingestion was asked to persist. */
  datatype Directory = Directory(project: string, locator: string, files: seq<File>, expiresAt: int)

  function Projected(d: Directory): P.Result<Option<ProjectedRun>> {
    ProjectRun(d.project, d.locator, Logged(d.files), Summarize(FeedAll(FRESH, d.files)))
  }

  ghost predicate Offerable(w: World, d: Directory, at: string -> History.Position) {
    d.files in w.directories && Acceptable(d.files) && OfferedIndex(d.project, d.locator, d.files, at).Some?
  }

  function OfferFor(w: World, d: Directory, at: string -> History.Position): Offer
    requires OfferedIndex(d.project, d.locator, d.files, at).Some?
  {
    OfferOf(w, d.project, d.locator, d.files, d.expiresAt, at)
  }

  /** Every ingestion is of some directory. */
  ghost predicate OnlyDirectories(w: World, acts: seq<Act>, at: string -> History.Position) {
    forall o | Arrived(acts, o) :: exists d :: Offerable(w, d, at) && o == OfferFor(w, d, at)
  }

  /** The directory arrived and its source is the one archived under the key. */
  ghost predicate Came(w: World, acts: seq<Act>, at: string -> History.Position, t: Tables, k: RunKey, d: Directory) {
    && Offerable(w, d, at) && Arrived(acts, OfferFor(w, d, at))
    && k in t.runs && OfferFor(w, d, at).key == k && OfferFor(w, d, at).source == t.runs[k].source
  }

  /** The run as the read model has it, from a directory that came under the key. */
  ghost predicate ReadFrom(w: World, acts: seq<Act>, at: string -> History.Position, t: Tables, k: RunKey, run: ProjectedRun) {
    exists d :: Came(w, acts, at, t, k, d) && Projected(d) == P.Ok(Some(run))
  }

  lemma SameLinesSameEvents(a: seq<SourceLine>, b: seq<SourceLine>)
    requires multiset(a) == multiset(b)
    ensures Meaning.SameEvents(Archive.Originals(a), Archive.Originals(b))
  {
    forall e ensures e in Archive.Originals(a) <==> e in Archive.Originals(b) {
      OriginalMembers(a, e);
      OriginalMembers(b, e);
      forall l ensures l in a <==> l in b { assert l in multiset(a) <==> l in multiset(b); }
    }
  }

  lemma {:induction false} OriginalMembers(source: seq<SourceLine>, e: Event)
    ensures e in Archive.Originals(source) <==> exists l | l in source :: !l.disposition.Duplicate? && l.event == e
  {
    if source != [] {
      OriginalMembers(source[..|source| - 1], e);
      assert source == source[..|source| - 1] + [source[|source| - 1]];
    }
  }

  lemma SameOrderSameLines(a: seq<SourceLine>, b: seq<SourceLine>)
    requires Archive.OrderLines(a) == Archive.OrderLines(b)
    ensures multiset(a) == multiset(b) && |a| == |b|
  {
    hide Archive.OrderLines, Archive.Rearranges, Archive.StorageOrder;
    Archive.OrderedShape(a);
    Archive.OrderedShape(b);
  }

  /** Directories archived as one source hold the same events, repeated as often. */
  lemma SameSourceSameRun(a: seq<File>, b: seq<File>)
    requires FeedAll(FRESH, a).core.errors == [] && FeedAll(FRESH, b).core.errors == []
    requires multiset(FeedAll(FRESH, a).source) == multiset(FeedAll(FRESH, b).source)
    requires |FeedAll(FRESH, a).source| == |FeedAll(FRESH, b).source|
    ensures Lawful(Logged(a)) && Lawful(Logged(b)) && Meaning.SameEvents(Logged(a), Logged(b))
    ensures FeedAll(FRESH, a).core == FeedAll(FRESH, b).core && FeedAll(FRESH, a).duplicates == FeedAll(FRESH, b).duplicates
  {
    hide FeedAll, Logged, Archive.Originals, Archive.Texts, Archive.AllKept, Lawful, LawfulRun, Lifecycle.Inv, Meaning.SameEvents, Meaning.Distinct;
    var va, vb := FeedAll(FRESH, a), FeedAll(FRESH, b);
    SameLinesSameEvents(va.source, vb.source);
    Archive.FedSource(a);
    Archive.FedSource(b);
    Replay.TextsLength(va.source);
    Replay.TextsLength(vb.source);
    FedExact(a);
    FedExact(b);
    Meaning.SameEventsSameReport(a, b);
    Meaning.LawfulIsDistinct(Logged(a));
    Meaning.LawfulIsDistinct(Logged(b));
    Meaning.TallySame(Logged(a), Logged(b));
  }

  /** Directories archived as one source project alike. */
  lemma SameSourceSameProjection(a: Directory, b: Directory)
    requires Acceptable(a.files) && Acceptable(b.files) && a.project == b.project && a.locator == b.locator
    requires Archive.OrderLines(FeedAll(FRESH, a.files).source) == Archive.OrderLines(FeedAll(FRESH, b.files).source)
    ensures Projected(a) == Projected(b)
  {
    hide FeedAll, Logged, Archive.OrderLines, ProjectRun, DerivedVerdict, Validator.Complete, Archive.SizeConflict, Lawful,
         Meaning.SameEvents, SameResult;
    var va, vb := FeedAll(FRESH, a.files), FeedAll(FRESH, b.files);
    SameOrderSameLines(va.source, vb.source);
    SameSourceSameRun(a.files, b.files);
    SameEventsSameProjection(a.project, a.locator, b.locator, Logged(a.files), Logged(b.files), Summarize(va), Summarize(vb));
    Identical(Projected(a), Projected(b), a.project, a.locator, Logged(a.files), Logged(b.files), Summarize(va), Summarize(vb));
  }

  /** What came under a key is one run, however often it was offered. */
  lemma ReadFromOne(w: World, acts: seq<Act>, at: string -> History.Position, t: Tables, k: RunKey, d: Directory, run: ProjectedRun)
    requires Came(w, acts, at, t, k, d) && ReadFrom(w, acts, at, t, k, run)
    ensures Projected(d) == P.Ok(Some(run))
  {
    hide Offerable, Arrived, Projected, OfferedIndex, Print, Archive.Sizes, Archive.OrderLines, Logged;
    var b :| Came(w, acts, at, t, k, b) && Projected(b) == P.Ok(Some(run));
    SameKeySameDirectory(w, acts, at, t, k, d, b);
  }

  lemma SameKeySameDirectory(w: World, acts: seq<Act>, at: string -> History.Position, t: Tables, k: RunKey, a: Directory, b: Directory)
    requires Came(w, acts, at, t, k, a) && Came(w, acts, at, t, k, b)
    ensures Projected(a) == Projected(b)
  {
    hide Arrived, Projected, OfferedIndex, Print, Archive.Sizes, Archive.OrderLines, Logged, Acceptable, FeedAll;
    SameSourceSameProjection(a, b);
  }

  /** The index an offer carries has the rows of the run the directory projects to. */
  lemma OfferedRows(w: World, d: Directory, at: string -> History.Position, run: ProjectedRun)
    requires Offerable(w, d, at) && Projected(d) == P.Ok(Some(run))
    ensures OfferFor(w, d, at).index == DeriveIndex(run, at) && OfferFor(w, d, at).key == RunKey(d.project, run.runId)
    ensures run.projectId == d.project && History.DistinctExecutions(run.executions)
  {
    hide Archive.Sizes, Archive.OrderLines, Print, Validator.Complete, Archive.SizeConflict, Known, Ordered, Summarize, FeedAll, Logged,
         Lawful, LawfulRun, P.Executions, Gather, SessionViews, ExecutionIds, Sorting.SortedSet, History.Occurrences, ProjectionMeaning.ListedBy;
    FedExact(d.files);
    ProjectedIn(d.project, d.locator, Logged(d.files), Summarize(FeedAll(FRESH, d.files)), run);
  }

  lemma ProjectedIn(project: string, locator: string, log: seq<Event>, summary: Summary, run: ProjectedRun)
    requires Lawful(log) && ProjectRun(project, locator, log, summary) == P.Ok(Some(run))
    ensures run.projectId == project && History.DistinctExecutions(run.executions)
  {
    hide Known, Ordered, Lawful, P.Executions, Gather, SessionViews, ExecutionIds, Sorting.SortedSet, ProjectionMeaning.Listed, Execution, LexLe;
    assert Known(log) != [] by { ProjectionMeaning.NeverAmbiguous(project, locator, log, summary); }
    ProjectionMeaning.ProjectedIds(project, locator, log, summary);
  }

  lemma CameBy(w: World, acts: seq<Act>, at: string -> History.Position, t: Tables, k: RunKey, o: Offer)
    requires OnlyDirectories(w, acts, at) && Arrived(acts, o)
    requires k in t.runs && o.key == k && o.source == t.runs[k].source
    ensures exists d :: Came(w, acts, at, t, k, d) && o == OfferFor(w, d, at)
  {
    hide Arrived, OfferedIndex, Acceptable, OfferOf;
    var d :| Offerable(w, d, at) && o == OfferFor(w, d, at);
    assert Came(w, acts, at, t, k, d);
  }

  lemma CameProjects(w: World, acts: seq<Act>, at: string -> History.Position, t: Tables, k: RunKey, rules: Rules)
    requires OnlyDirectories(w, acts, at) && k in t.runs && HasOrigin(t, k, acts, rules)
    ensures exists run :: ReadFrom(w, acts, at, t, k, run)
  {
    hide Arrived, Honest, Current, Projected, OfferedIndex, OfferOf, Acceptable, OnlyDirectories;
    var o :| Arrived(acts, o) && Origin(t, k, o, rules);
    CameBy(w, acts, at, t, k, o);
    var d :| Came(w, acts, at, t, k, d) && o == OfferFor(w, d, at);
    OfferableProjects(w, d, at);
    var run :| Projected(d) == P.Ok(Some(run));
    assert ReadFrom(w, acts, at, t, k, run);
  }

  /** Every archived run came from some directory, and projects. */
  lemma EachCame(w: World, acts: seq<Act>, at: string -> History.Position, s: Store, k: RunKey)
    requires After(EMPTY_STORE, acts, WorldRules(w, at)) == Some(s) && OnlyDirectories(w, acts, at) && k in s.tables.runs
    ensures exists run :: ReadFrom(w, acts, at, s.tables, k, run)
  {
    hide After, OnlyDirectories, HasOrigin, Came, Projected;
    AlwaysArrived(acts, WorldRules(w, at));
    CameProjects(w, acts, at, s.tables, k, WorldRules(w, at));
  }

  lemma OfferableProjects(w: World, d: Directory, at: string -> History.Position)
    requires Offerable(w, d, at)
    ensures exists run :: Projected(d) == P.Ok(Some(run))
  {
    hide Acceptable, ProjectRun, FeedAll, Logged, Summarize;
    assert Projected(d) == P.Ok(Some(Projected(d).value.value));
  }

  /** The keys of a project's runs, each once. */
  ghost predicate Enumerates(keys: seq<RunKey>, t: Tables, project: string) {
    && (forall k :: k in keys <==> k in t.runs && k.project == project)
    && (forall i, j | 0 <= i < j < |keys| :: keys[i] != keys[j])
  }

  /** The occurrence rows the index holds for some runs. */
  function StoredRows(t: Tables, keys: seq<RunKey>): seq<History.Row> {
    if keys == [] then []
    else
      var k := keys[|keys| - 1];
      StoredRows(t, keys[..|keys| - 1]) + (if k in t.index then t.index[k].index.rows else [])
  }

  /** A current row is the row of the run the read model has. */
  lemma RowIsRead(w: World, acts: seq<Act>, at: string -> History.Position, k: RunKey, run: ProjectedRun)
    requires After(EMPTY_STORE, acts, WorldRules(w, at)).Some? && OnlyDirectories(w, acts, at)
    requires var t := After(EMPTY_STORE, acts, WorldRules(w, at)).value.tables;
             k in t.runs && Current(t, k) && ReadFrom(w, acts, at, t, k, run)
    ensures var t := After(EMPTY_STORE, acts, WorldRules(w, at)).value.tables;
            t.index[k].index == DeriveIndex(run, at)
    ensures k == RunKey(k.project, run.runId) && run.projectId == k.project && History.DistinctExecutions(run.executions)
  {
    var rules := WorldRules(w, at);
    CurrentIsOffered(acts, rules, k);
    var t := After(EMPTY_STORE, acts, rules).value.tables;
    hide After, Arrived, OfferedIndex, Acceptable, Projected, OfferOf, DeriveIndex, History.DistinctExecutions;
    var o :| Arrived(acts, o) && o.key == k && o.source == t.runs[k].source && t.index[k].index == o.index;
    CameBy(w, acts, at, t, k, o);
    var d :| Came(w, acts, at, t, k, d) && o == OfferFor(w, d, at);
    ReadFromOne(w, acts, at, t, k, d, run);
    OfferedRows(w, d, at, run);
  }

  lemma {:induction false} RowsAreTable(t: Tables, keys: seq<RunKey>, runs: seq<ProjectedRun>, at: string -> History.Position)
    requires |keys| == |runs| && forall i | 0 <= i < |keys| :: keys[i] in t.index && t.index[keys[i]].index == DeriveIndex(runs[i], at)
    ensures StoredRows(t, keys) == History.IndexTable(runs, at)
  {
    if keys != [] {
      var n := |keys| - 1;
      RowsAreTable(t, keys[..n], runs[..n], at);
      assert t.index[keys[n]].index == DeriveIndex(runs[n], at);
      hide History.Occurrences;
      MapJoin(History.AllOccurrences(runs[..n]), History.Occurrences(runs[n]), History.Rowed(at));
      hide Map;
    }
  }

  /**
   * The end of the chain. In every store reached from the empty one, when every run of a project
   * is current, the stored rows under a history key, in index order, are exactly the history the
   * read model gives of the directories those runs came from, in whatever order it reads them; so
   * a walk over the pages of those rows returns it.
   */
  lemma HistoryOfOffered(w: World, acts: seq<Act>, at: string -> History.Position, key: History.Key, keys: seq<RunKey>,
                         runs: seq<ProjectedRun>, others: seq<ProjectedRun>)
    requires After(EMPTY_STORE, acts, WorldRules(w, at)).Some? && OnlyDirectories(w, acts, at)
    requires var t := After(EMPTY_STORE, acts, WorldRules(w, at)).value.tables;
             && Enumerates(keys, t, key.projectId) && |runs| == |keys|
             && (forall k | k in keys :: k in t.runs && Current(t, k))
             && (forall i | 0 <= i < |keys| :: ReadFrom(w, acts, at, t, keys[i], runs[i]))
    requires multiset(others) == multiset(runs)
    ensures var rows := StoredRows(After(EMPTY_STORE, acts, WorldRules(w, at)).value.tables, keys);
            && History.Table(rows)
            && Map(History.Whole(rows, key), History.OccurrenceIn) == History.TestHistory(others, key, at)
  {
    hide After, OnlyDirectories, ReadFrom, Current, DeriveIndex, WorldRules, History.DistinctExecutions, History.Table, History.Whole, History.TestHistory;
    var t := After(EMPTY_STORE, acts, WorldRules(w, at)).value.tables;
    forall i | 0 <= i < |keys|
      ensures keys[i] in t.index && t.index[keys[i]].index == DeriveIndex(runs[i], at)
      ensures keys[i] == RunKey(keys[i].project, runs[i].runId) && runs[i].projectId == keys[i].project && History.DistinctExecutions(runs[i].executions)
    {
      assert keys[i] in keys;
      RowIsRead(w, acts, at, keys[i], runs[i]);
      CurrentHasRow(t, keys[i]);
    }
    RowsAreTable(t, keys, runs, at);
    forall i | 0 <= i < |keys| ensures keys[i].project == key.projectId { assert keys[i] in keys; }
    ReadProject(keys, runs, others, key.projectId);
    History.IndexRefines(others, runs, key, at);
  }

  lemma CurrentHasRow(t: Tables, k: RunKey)
    requires k in t.runs && Current(t, k)
    ensures k in t.index
  {
  }

  lemma ReadProject(keys: seq<RunKey>, runs: seq<ProjectedRun>, others: seq<ProjectedRun>, project: string)
    requires |keys| == |runs| && multiset(others) == multiset(runs)
    requires forall i, j | 0 <= i < j < |keys| :: keys[i] != keys[j]
    requires forall i | 0 <= i < |keys| ::
               keys[i] == RunKey(project, runs[i].runId) && runs[i].projectId == project && History.DistinctExecutions(runs[i].executions)
    ensures History.Project(runs, project) && History.Project(others, project)
    ensures forall run :: run in others <==> run in runs
  {
    hide History.DistinctExecutions;
    forall i, j | 0 <= i < j < |runs| ensures runs[i].runId != runs[j].runId { assert keys[i] != keys[j]; }
    forall run ensures run in others <==> run in runs { assert run in multiset(others) <==> run in multiset(runs); }
    MultisetDistinct(runs, others);
    forall i, j | 0 <= i < j < |others| ensures others[i].runId != others[j].runId {
      assert others[i] in runs && others[j] in runs && others[i] != others[j];
      var k :| 0 <= k < |runs| && runs[k] == others[i];
      var l :| 0 <= l < |runs| && runs[l] == others[j];
      assert k != l;
    }
  }
}
