/**
The durable store as a step system: any number of ingestions, rebuilds and maintenance passes over
the catalog tables, the content-addressed objects and the shared/exclusive maintenance lock, with
processes that crash and connections that drop between any two steps.

Each transaction is one step. An object on the medium is its hash and the length of its bytes.
*/
module RunStore {
  import opened Protocol
  import opened Validator
  import opened QueryIndex

  datatype RunKey = RunKey(project: string, run: string)

  datatype Source = Source(locator: string, lines: seq<SourceLine>)

  /** An archived run; `needs` are the hashes and sizes its attachment events declare. */
  datatype Run = Run(source: Source, fingerprint: string, needs: map<nat, nat>, sequence: nat)

  datatype IndexRow = IndexRow(version: nat, fingerprint: string, index: Index)

  datatype Tables = Tables(
    runs: map<RunKey, Run>, relations: map<RunKey, set<nat>>, retention: map<RunKey, int>,
    index: map<RunKey, IndexRow>, catalog: map<nat, nat>, next: nat)

  /** A validated complete run directory on its way into the archive. */
  datatype Offer = Offer(
    key: RunKey, source: Source, fingerprint: string, needs: map<nat, nat>, index: Index, expiresAt: int)

  datatype Outcome = Inserted | AlreadyPresent | Conflict | GaveUp

  datatype Picked = Picked(key: RunKey, fingerprint: string)

  datatype Process =
    | Arriving(offer: Offer)
    | Looking(offer: Offer)
    | Completing(offer: Offer)
    | Publishing(offer: Offer, published: set<nat>)
    | Leaving(offer: Offer, outcome: Outcome)
    | Sweeper(asOf: int)
    | Sweeping(asOf: int, condemned: set<nat>)
    | Walking(project: string, after: int, clean: bool)
    | Rebuilding(project: string, after: int, clean: bool, todo: seq<Picked>, last: int, more: bool, ready: Option<Index>)
    | Rebuilt(project: string, clean: bool)
    | Ended

  datatype Store = Store(
    tables: Tables, objects: map<nat, nat>, processes: map<nat, Process>, shared: set<nat>, exclusive: Option<nat>)

  /**
   * What content means to the store: the index a stored source derives, or nothing when it cannot
   * be replayed, and the attachments a fingerprint stands for.
   */
  datatype Rules = Rules(derive: (RunKey, Source) -> Option<Index>, needs: string -> map<nat, nat>)

  // ---------------------------------------------------------------- transactions

  predicate Current(t: Tables, k: RunKey)
    requires k in t.runs
  {
    k in t.index && t.index[k].version == CURRENT_VERSION && t.index[k].fingerprint == t.runs[k].fingerprint
  }

  function Related(t: Tables, k: RunKey): set<nat> {
    if k in t.relations then t.relations[k] else {}
  }

  predicate Referenced(t: Tables, h: nat) {
    exists k | k in t.relations :: h in t.relations[k]
  }

  /** A hash already recorded with another size is a consistency error. */
  predicate SizesAgree(catalog: map<nat, nat>, needs: map<nat, nat>, hashes: set<nat>) {
    forall h | h in hashes && h in needs && h in catalog :: catalog[h] == needs[h]
  }

  function Recorded(catalog: map<nat, nat>, needs: map<nat, nat>, hashes: set<nat>): map<nat, nat> {
    catalog + map h | h in hashes && h in needs && h !in catalog :: needs[h]
  }

  function WithRetention(t: Tables, k: RunKey, expiresAt: int): Tables {
    if k in t.retention then t else t.(retention := t.retention[k := expiresAt])
  }

  /** The repair of a missing or stale index; nothing when the stored source cannot be replayed. */
  function Repaired(t: Tables, k: RunKey, rules: Rules): Option<Tables>
    requires k in t.runs
  {
    if Current(t, k) then Some(t)
    else
      var derived := rules.derive(k, t.runs[k].source);
      if derived.None? then None
      else Some(t.(index := t.index[k := IndexRow(CURRENT_VERSION, t.runs[k].fingerprint, derived.value)]))
  }

  /** A run whose bytes are all related gains what derived state it lacks, in one transaction. */
  function Completed(t: Tables, o: Offer, rules: Rules): Option<Tables>
    requires o.key in t.runs
  {
    Repaired(WithRetention(t, o.key, o.expiresAt), o.key, rules)
  }

  function Inserting(t: Tables, o: Offer): Option<Tables> {
    if !SizesAgree(t.catalog, o.needs, o.needs.Keys) then None
    else
      Some(Tables(t.runs[o.key := Run(o.source, o.fingerprint, o.needs, t.next)],
                  t.relations[o.key := o.needs.Keys],
                  t.retention[o.key := o.expiresAt],
                  t.index[o.key := IndexRow(CURRENT_VERSION, o.fingerprint, o.index)],
                  Recorded(t.catalog, o.needs, o.needs.Keys),
                  t.next + 1))
  }

  /** The same content again: missing relations, then retention, then index. */
  function Joining(t: Tables, o: Offer, rules: Rules): Option<Tables>
    requires o.key in t.runs
  {
    var missing := o.needs.Keys - Related(t, o.key);
    if !SizesAgree(t.catalog, o.needs, missing) then None
    else
      var related := t.(catalog := Recorded(t.catalog, o.needs, missing),
                        relations := t.relations[o.key := Related(t, o.key) + missing]);
      Repaired(WithRetention(related, o.key, o.expiresAt), o.key, rules)
  }

  predicate Expired(t: Tables, k: RunKey, asOf: int) {
    k in t.retention && t.retention[k] <= asOf
  }

  /** One batch; the expiry is checked again, and everything of a deleted run goes with it. */
  function Deleted(t: Tables, batch: set<RunKey>, asOf: int): Tables {
    var doomed := set k | k in batch && Expired(t, k, asOf);
    t.(runs := t.runs - doomed, relations := t.relations - doomed, retention := t.retention - doomed, index := t.index - doomed)
  }

  // ---------------------------------------------------------------- steps

  datatype Act =
    | Arrive(pid: nat, arriving: Process)
    | TakeShared(pid: nat)
    | TakeExclusive(pid: nat)
    | Look(pid: nat)
    | Complete(pid: nat)
    | Publish(pid: nat, hash: nat)
    | GiveUp(pid: nat)
    | Archive(pid: nat)
    | Release(pid: nat)
    | DeleteExpired(pid: nat, batch: set<RunKey>)
    | DropRow(pid: nat, hash: nat)
    | Condemn(pid: nat, hash: nat)
    | RemoveObject(pid: nat, hash: nat)
    | EndSweep(pid: nat)
    | StartPass(pid: nat, todo: seq<Picked>, last: int, more: bool)
    | Derive(pid: nat)
    | Replace(pid: nat)
    | Trouble(pid: nat)
    | EndPass(pid: nat)
    | Crash(pid: nat)
    | LoseLease(pid: nat)

  /**
   * An offer carries the attachments its content declares, and the index its stored form derives
   * if it derives at all.
   */
  ghost predicate Honest(o: Offer, rules: Rules) {
    && o.needs == rules.needs(o.fingerprint)
    && (rules.derive(o.key, o.source).Some? ==> rules.derive(o.key, o.source).value == o.index)
  }

  /** A page of a rebuild walk: the runs of the project above the cursor, up to `last`. */
  ghost predicate Picks(t: Tables, project: string, after: int, todo: seq<Picked>, last: int, more: bool) {
    && after <= last
    && (forall p | p in todo :: p.key in t.runs && p.key.project == project && p.fingerprint == t.runs[p.key].fingerprint)
    && (forall k | k in t.runs && k.project == project && after < t.runs[k].sequence <= last ::
          exists p | p in todo :: p.key == k)
    && (if more then exists k | k in t.runs :: k.project == project && after < t.runs[k].sequence == last
        else forall k | k in t.runs && k.project == project :: t.runs[k].sequence <= last)
  }

  ghost predicate Enabled(s: Store, a: Act, rules: Rules) {
    match a
    case Arrive(pid, p) =>
      && pid !in s.processes
      && (p.Sweeper? || (p.Walking? && p.clean && p.after == -1) || (p.Arriving? && Honest(p.offer, rules)))
    case TakeShared(pid) => pid in s.processes && s.processes[pid].Arriving? && s.exclusive.None?
    case TakeExclusive(pid) => pid in s.processes && s.processes[pid].Sweeper? && s.exclusive.None? && s.shared == {}
    case Look(pid) => pid in s.processes && s.processes[pid].Looking? && pid in s.shared
    case Complete(pid) => pid in s.processes && s.processes[pid].Completing? && pid in s.shared
    case Publish(pid, h) =>
      && pid in s.processes && s.processes[pid].Publishing?
      && h in s.processes[pid].offer.needs && h !in s.processes[pid].published
    case GiveUp(pid) =>
      pid in s.processes && (s.processes[pid].Looking? || s.processes[pid].Completing? || s.processes[pid].Publishing?)
    case Archive(pid) =>
      pid in s.processes && s.processes[pid].Publishing? && pid in s.shared
      && s.processes[pid].published == s.processes[pid].offer.needs.Keys
    case Release(pid) => pid in s.processes && s.processes[pid].Leaving?
    case DeleteExpired(pid, _) => pid in s.processes && s.processes[pid].Sweeping? && s.exclusive == Some(pid)
    case DropRow(pid, h) =>
      pid in s.processes && s.processes[pid].Sweeping? && s.exclusive == Some(pid)
      && h in s.tables.catalog && !Referenced(s.tables, h)
    case Condemn(pid, h) =>
      pid in s.processes && s.processes[pid].Sweeping? && s.exclusive == Some(pid) && h in s.objects && h !in s.tables.catalog
    case RemoveObject(pid, h) => pid in s.processes && s.processes[pid].Sweeping? && h in s.processes[pid].condemned
    case EndSweep(pid) => pid in s.processes && s.processes[pid].Sweeping?
    case StartPass(pid, todo, last, more) =>
      && pid in s.processes && s.processes[pid].Walking? && s.exclusive.None?
      && Picks(s.tables, s.processes[pid].project, s.processes[pid].after, todo, last, more)
    case Derive(pid) =>
      && pid in s.processes && s.processes[pid].Rebuilding? && pid in s.shared
      && s.processes[pid].todo != [] && s.processes[pid].ready.None?
    case Replace(pid) =>
      && pid in s.processes && s.processes[pid].Rebuilding? && pid in s.shared
      && s.processes[pid].todo != [] && s.processes[pid].ready.Some?
    case Trouble(pid) => pid in s.processes && s.processes[pid].Rebuilding? && s.processes[pid].todo != []
    case EndPass(pid) => pid in s.processes && s.processes[pid].Rebuilding? && s.processes[pid].todo == []
    case Crash(pid) => pid in s.processes
    case LoseLease(pid) => pid in s.shared || s.exclusive == Some(pid)
  }

  /** What the first look at the catalog decides. */
  function Looked(t: Tables, o: Offer): Process {
    if o.key !in t.runs then Publishing(o, {})
    else if t.runs[o.key].fingerprint != o.fingerprint then Leaving(o, Conflict)
    else if o.needs.Keys <= Related(t, o.key) then Completing(o)
    else Publishing(o, {})
  }

  /** The transaction that completes a known run; nothing when it rolls back. */
  function CompletedIn(t: Tables, o: Offer, rules: Rules): Option<Tables> {
    if o.key in t.runs then Completed(t, o, rules) else None
  }

  /** The transaction behind every archive; nothing when it rolls back. */
  function ArchivedIn(t: Tables, o: Offer, rules: Rules): Option<Tables> {
    if o.key !in t.runs then Inserting(t, o)
    else if t.runs[o.key].fingerprint != o.fingerprint then None
    else Joining(t, o, rules)
  }

  function ArchiveOutcome(t: Tables, o: Offer, rules: Rules): Outcome {
    if o.key in t.runs && t.runs[o.key].fingerprint != o.fingerprint then Conflict
    else if ArchivedIn(t, o, rules).None? then GaveUp
    else if o.key in t.runs then AlreadyPresent
    else Inserted
  }

  function Or<T>(a: Option<T>, b: T): T {
    if a.Some? then a.value else b
  }

  /** A rebuild replaces the index of the run it has derived, unless the run is gone. */
  function Replaced(t: Tables, p: Process): Tables
    requires p.Rebuilding? && p.todo != [] && p.ready.Some?
  {
    var k := p.todo[0].key;
    if k !in t.runs then t
    else t.(index := t.index[k := IndexRow(CURRENT_VERSION, p.todo[0].fingerprint, p.ready.value)])
  }

  function DerivedNext(t: Tables, p: Process, rules: Rules): Process
    requires p.Rebuilding? && p.todo != []
  {
    var k := p.todo[0].key;
    if k !in t.runs then p.(todo := p.todo[1..])
    else
      var derived := rules.derive(k, t.runs[k].source);
      if derived.None? then p.(todo := p.todo[1..], clean := false) else p.(ready := derived)
  }

  predicate Clash(objects: map<nat, nat>, o: Offer, h: nat) {
    h in o.needs && h in objects && objects[h] != o.needs[h]
  }

  ghost function NextTables(s: Store, a: Act, rules: Rules): Tables
    requires Enabled(s, a, rules)
  {
    match a
    case Complete(pid) => Or(CompletedIn(s.tables, s.processes[pid].offer, rules), s.tables)
    case Archive(pid) => Or(ArchivedIn(s.tables, s.processes[pid].offer, rules), s.tables)
    case DeleteExpired(pid, batch) => Deleted(s.tables, batch, s.processes[pid].asOf)
    case DropRow(pid, h) => s.tables.(catalog := s.tables.catalog - {h})
    case Replace(pid) => Replaced(s.tables, s.processes[pid])
    case _ => s.tables
  }

  ghost function NextObjects(s: Store, a: Act, rules: Rules): map<nat, nat>
    requires Enabled(s, a, rules)
  {
    match a
    case Publish(pid, h) =>
      var o := s.processes[pid].offer;
      if Clash(s.objects, o, h) then s.objects else s.objects[h := o.needs[h]]
    case RemoveObject(pid, h) => s.objects - {h}
    case _ => s.objects
  }

  ghost function NextProcess(s: Store, a: Act, rules: Rules): Option<Process>
    requires Enabled(s, a, rules)
  {
    var now := if a.pid in s.processes then s.processes[a.pid] else Ended;
    match a
    case Arrive(_, p) => Some(p)
    case TakeShared(_) => Some(Looking(now.offer))
    case TakeExclusive(_) => Some(Sweeping(now.asOf, {}))
    case Look(_) => Some(Looked(s.tables, now.offer))
    case Complete(_) =>
      if now.offer.key !in s.tables.runs then Some(Publishing(now.offer, {}))
      else Some(Leaving(now.offer, if CompletedIn(s.tables, now.offer, rules).Some? then AlreadyPresent else GaveUp))
    case Publish(_, h) =>
      if Clash(s.objects, now.offer, h) then Some(Leaving(now.offer, GaveUp))
      else Some(Publishing(now.offer, now.published + {h}))
    case GiveUp(_) => Some(Leaving(now.offer, GaveUp))
    case Archive(_) => Some(Leaving(now.offer, ArchiveOutcome(s.tables, now.offer, rules)))
    case Release(_) => Some(Ended)
    case DeleteExpired(_, _) => Some(now)
    case DropRow(_, h) => Some(now.(condemned := now.condemned + {h}))
    case Condemn(_, h) => Some(now.(condemned := now.condemned + {h}))
    case RemoveObject(_, h) => Some(now.(condemned := now.condemned - {h}))
    case EndSweep(_) => Some(Ended)
    case StartPass(_, todo, last, more) => Some(Rebuilding(now.project, now.after, now.clean, todo, last, more, None))
    case Derive(_) => Some(DerivedNext(s.tables, now, rules))
    case Replace(_) => Some(now.(todo := now.todo[1..], ready := None))
    case Trouble(_) => Some(now.(todo := now.todo[1..], ready := None, clean := false))
    case EndPass(_) => Some(if now.more then Walking(now.project, now.last, now.clean) else Rebuilt(now.project, now.clean))
    case Crash(_) => None
    case LoseLease(_) => if a.pid in s.processes then Some(now) else None
  }

  /** The lease is given back with the connection, or goes with it. */
  predicate Unlocks(a: Act) {
    a.Release? || a.EndSweep? || a.EndPass? || a.Crash? || a.LoseLease?
  }

  ghost function Next(s: Store, a: Act, rules: Rules): Store
    requires Enabled(s, a, rules)
  {
    var p := NextProcess(s, a, rules);
    Store(NextTables(s, a, rules), NextObjects(s, a, rules),
          if p.Some? then s.processes[a.pid := p.value] else s.processes - {a.pid},
          if a.TakeShared? || a.StartPass? then s.shared + {a.pid} else if Unlocks(a) then s.shared - {a.pid} else s.shared,
          if a.TakeExclusive? then Some(a.pid) else if Unlocks(a) && s.exclusive == Some(a.pid) then None else s.exclusive)
  }
}
