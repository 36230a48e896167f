/**
The maintenance lock over pooled connections: acquisition with or without a timeout, the protected
work, and a release that must be proven, with a query that fails before or after it took effect and
a session the server may end at any moment.

PostgreSQL's session-level advisory locks count: a session may take one it already holds, and a
rolled back transaction does not give it up.
*/
module Leases {
  import opened Protocol

  datatype Mode = Shared | Exclusive

  /** The leases a server session holds, counted. */
  datatype Held = Held(shared: nat, exclusive: nat)

  const NOTHING := Held(0, 0)

  datatype Stage =
    | Beginning
    | Setting
    | Taking(timed: bool)
    | Committing
    | RollingBack
    | Working
    | Releasing

  /** One borrower: its connection, what it wants the lock for, and the query it is at. */
  datatype Borrower = Borrower(conn: nat, mode: Mode, stage: Stage)

  /** `sessions` is the server's side; a connection without a session is dead. */
  datatype Pool = Pool(idle: set<nat>, borrowers: map<nat, Borrower>, sessions: map<nat, Held>)

  /** What a query came to: answered, failed with no effect, or failed after it took effect. */
  datatype Answer = Answered | NoEffect | Unanswered

  datatype Act =
    | Connect(pid: nat, conn: nat, mode: Mode, timed: bool)
    | Query(pid: nat, answer: Answer)
    | Work(pid: nat)
    | Crash(pid: nat)
    | EndSession(conn: nat)

  /** A session may take the lock if no other session holds it in a mode that conflicts. */
  predicate Grantable(sessions: map<nat, Held>, conn: nat, mode: Mode) {
    forall c | c in sessions && c != conn ::
      sessions[c].exclusive == 0 && (mode == Exclusive ==> sessions[c].shared == 0)
  }

  predicate Known(p: Pool, conn: nat) {
    conn in p.sessions || conn in p.idle || exists b | b in p.borrowers :: p.borrowers[b].conn == conn
  }

  predicate Enabled(p: Pool, a: Act) {
    match a
    case Connect(pid, conn, _, _) => pid !in p.borrowers && (conn in p.idle || !Known(p, conn))
    case Query(pid, answer) =>
      && pid in p.borrowers && !p.borrowers[pid].stage.Working?
      && (answer != NoEffect ==> p.borrowers[pid].conn in p.sessions)
      && (answer != NoEffect && p.borrowers[pid].stage.Taking? ==> Grantable(p.sessions, p.borrowers[pid].conn, p.borrowers[pid].mode))
    case Work(pid) => pid in p.borrowers && p.borrowers[pid].stage.Working?
    case Crash(pid) => pid in p.borrowers
    case EndSession(conn) => conn in p.sessions
  }

  function Took(h: Held, mode: Mode): Held {
    if mode == Shared then h.(shared := h.shared + 1) else h.(exclusive := h.exclusive + 1)
  }

  predicate Holds(h: Held, mode: Mode) {
    if mode == Shared then h.shared > 0 else h.exclusive > 0
  }

  function Gave(h: Held, mode: Mode): Held
    requires Holds(h, mode)
  {
    if mode == Shared then h.(shared := h.shared - 1) else h.(exclusive := h.exclusive - 1)
  }

  /** What the server's side of a query does, when it is reached. */
  function Effect(h: Held, b: Borrower): Held {
    if b.stage.Taking? then Took(h, b.mode)
    else if b.stage.Releasing? && Holds(h, b.mode) then Gave(h, b.mode)
    else h
  }

  /** Where a borrower goes; `None` when it is done with its connection. */
  function Onwards(b: Borrower, answer: Answer): Option<Stage> {
    match b.stage
    case Beginning => if answer == Answered then Some(Setting) else None
    case Setting => Some(if answer == Answered then Taking(true) else RollingBack)
    case Taking(timed) =>
      if answer == Answered then Some(if timed then Committing else Working) else if timed then Some(RollingBack) else None
    case Committing => Some(if answer == Answered then Working else RollingBack)
    case RollingBack => None
    case Working => Some(Releasing)
    case Releasing => None
  }

  /** The connection goes back only when the release is proven: answered, and the lock was held. */
  predicate GivenBack(p: Pool, b: Borrower, answer: Answer) {
    b.stage.Releasing? && answer == Answered && b.conn in p.sessions && Holds(p.sessions[b.conn], b.mode)
  }

  function Queried(p: Pool, pid: nat, answer: Answer): Pool
    requires pid in p.borrowers
  {
    var b := p.borrowers[pid];
    var onwards := Onwards(b, answer);
    Pool(if GivenBack(p, b, answer) then p.idle + {b.conn} else p.idle,
         if onwards.Some? then p.borrowers[pid := b.(stage := onwards.value)] else p.borrowers - {pid},
         if answer != NoEffect && b.conn in p.sessions then p.sessions[b.conn := Effect(p.sessions[b.conn], b)] else p.sessions)
  }

  /**
   * A discarded connection leaves the pool at once; the server ends its session when it notices.
   * An idle connection whose session ended is still in the pool until someone borrows it.
   */
  function Next(p: Pool, a: Act): Pool
    requires Enabled(p, a)
  {
    match a
    case Connect(pid, conn, mode, timed) =>
      Pool(p.idle - {conn}, p.borrowers[pid := Borrower(conn, mode, if timed then Beginning else Taking(false))],
           if conn in p.idle then p.sessions else p.sessions[conn := NOTHING])
    case Query(pid, answer) => Queried(p, pid, answer)
    case Work(pid) => p.(borrowers := p.borrowers[pid := p.borrowers[pid].(stage := Releasing)])
    case Crash(pid) => p.(borrowers := p.borrowers - {pid})
    case EndSession(conn) => p.(sessions := p.sessions - {conn})
  }

  /** The leases a live connection may hold at each stage. */
  predicate HoldsFor(h: Held, b: Borrower) {
    match b.stage
    case Beginning => h == NOTHING
    case Setting => h == NOTHING
    case Taking(_) => h == NOTHING
    case RollingBack => h == NOTHING || h == Took(NOTHING, b.mode)
    case _ => h == Took(NOTHING, b.mode)
  }

  /** An exclusive lease is the only lease. */
  predicate Excluded(sessions: map<nat, Held>) {
    forall c, d | c in sessions && d in sessions && c != d && sessions[c].exclusive > 0 :: sessions[d] == NOTHING
  }

  /** A connection in the pool holds no lease. */
  ghost predicate IdleClean(p: Pool) {
    forall c | c in p.idle && c in p.sessions :: p.sessions[c] == NOTHING
  }

  ghost predicate BorrowersHold(p: Pool) {
    forall b | b in p.borrowers && p.borrowers[b].conn in p.sessions :: HoldsFor(p.sessions[p.borrowers[b].conn], p.borrowers[b])
  }

  /** A connection is in the pool or with one borrower. */
  ghost predicate Apart(p: Pool) {
    && (forall b | b in p.borrowers :: p.borrowers[b].conn !in p.idle)
    && (forall b, c | b in p.borrowers && c in p.borrowers && b != c :: p.borrowers[b].conn != p.borrowers[c].conn)
  }

  ghost predicate Inv(p: Pool) {
    Excluded(p.sessions) && IdleClean(p) && BorrowersHold(p) && Apart(p)
  }

  lemma GrantExcludes(sessions: map<nat, Held>, conn: nat, mode: Mode)
    requires Excluded(sessions) && conn in sessions && Grantable(sessions, conn, mode)
    ensures Excluded(sessions[conn := Took(sessions[conn], mode)])
  {
  }

  lemma GiveExcludes(sessions: map<nat, Held>, conn: nat, h: Held)
    requires Excluded(sessions) && conn in sessions
    requires h.shared <= sessions[conn].shared && h.exclusive <= sessions[conn].exclusive
    ensures Excluded(sessions[conn := h])
  {
  }

  /** What a query leaves the connection with is what its borrower may hold next. */
  lemma EffectFits(h: Held, b: Borrower, answer: Answer)
    requires HoldsFor(h, b) && !b.stage.Working?
    ensures var h' := if answer == NoEffect then h else Effect(h, b);
            && (Onwards(b, answer).Some? ==> HoldsFor(h', b.(stage := Onwards(b, answer).value)))
            && (b.stage.Releasing? && answer == Answered ==> h' == NOTHING)
            && (!b.stage.Taking? ==> h'.shared <= h.shared && h'.exclusive <= h.exclusive)
  {
  }

  lemma QueryExcludes(p: Pool, pid: nat, answer: Answer)
    requires Inv(p) && Enabled(p, Query(pid, answer))
    ensures Excluded(Queried(p, pid, answer).sessions)
  {
    var b := p.borrowers[pid];
    hide Excluded, Grantable, Onwards;
    if answer != NoEffect {
      EffectFits(p.sessions[b.conn], b, answer);
      if b.stage.Taking? {
        GrantExcludes(p.sessions, b.conn, b.mode);
      } else {
        GiveExcludes(p.sessions, b.conn, Effect(p.sessions[b.conn], b));
      }
    }
  }

  lemma QueryApart(p: Pool, pid: nat, answer: Answer)
    requires Apart(p) && pid in p.borrowers && !p.borrowers[pid].stage.Working?
    ensures Apart(Queried(p, pid, answer))
  {
    hide Effect, Holds;
    assert GivenBack(p, p.borrowers[pid], answer) ==> Onwards(p.borrowers[pid], answer).None?;
    hide GivenBack, Onwards;
  }

  lemma QueryClean(p: Pool, pid: nat, answer: Answer)
    requires Inv(p) && Enabled(p, Query(pid, answer))
    ensures IdleClean(Queried(p, pid, answer))
  {
    var b := p.borrowers[pid];
    hide Excluded, Grantable, Onwards, Effect, HoldsFor, Holds;
    if b.conn in p.sessions { EffectFits(p.sessions[b.conn], b, answer); }
  }

  lemma QueryHolds(p: Pool, pid: nat, answer: Answer)
    requires Inv(p) && Enabled(p, Query(pid, answer))
    ensures BorrowersHold(Queried(p, pid, answer))
  {
    var b := p.borrowers[pid];
    hide Excluded, Grantable, Onwards, Effect, HoldsFor, Holds, IdleClean, GivenBack;
    if b.conn in p.sessions { EffectFits(p.sessions[b.conn], b, answer); }
  }

  lemma ConnectKeeps(p: Pool, a: Act)
    requires Inv(p) && a.Connect? && Enabled(p, a)
    ensures Inv(Next(p, a))
  {
  }

  /** The leases stay in order whatever query fails, at whatever point, and whatever session ends. */
  lemma LeaseStep(p: Pool, a: Act)
    requires Inv(p) && Enabled(p, a)
    ensures Inv(Next(p, a))
  {
    match a
    case Query(pid, answer) =>
      QueryExcludes(p, pid, answer);
      QueryApart(p, pid, answer);
      QueryClean(p, pid, answer);
      QueryHolds(p, pid, answer);
    case Connect(_, _, _, _) => ConnectKeeps(p, a);
    case _ =>
  }

  /** The state after a sequence of steps, if each is enabled where it is taken. */
  function After(p: Pool, acts: seq<Act>): Option<Pool> {
    if acts == [] then Some(p)
    else
      var before := After(p, acts[..|acts| - 1]);
      if before.Some? && Enabled(before.value, acts[|acts| - 1]) then Some(Next(before.value, acts[|acts| - 1])) else None
  }

  const EMPTY := Pool({}, map[], map[])

  lemma {:induction false} AlwaysInOrder(acts: seq<Act>)
    requires After(EMPTY, acts).Some?
    ensures Inv(After(EMPTY, acts).value)
  {
    if acts != [] {
      AlwaysInOrder(acts[..|acts| - 1]);
      hide Inv, Enabled, Next;
      LeaseStep(After(EMPTY, acts[..|acts| - 1]).value, acts[|acts| - 1]);
    }
  }

  /** At work with a session that is still there. */
  predicate AtWork(p: Pool, pid: nat) {
    pid in p.borrowers && p.borrowers[pid].stage.Working? && p.borrowers[pid].conn in p.sessions
  }

  /**
   * In every history of the pool: no idle connection carries a lease, whoever is at work holds
   * exactly the lease it asked for, and nobody is at work beside an exclusive holder.
   */
  lemma NoCoexistence(acts: seq<Act>)
    requires After(EMPTY, acts).Some?
    ensures var p := After(EMPTY, acts).value;
            && (forall c | c in p.idle && c in p.sessions :: p.sessions[c] == NOTHING)
            && (forall pid | AtWork(p, pid) :: p.sessions[p.borrowers[pid].conn] == Took(NOTHING, p.borrowers[pid].mode))
            && (forall a, b | AtWork(p, a) && AtWork(p, b) && p.borrowers[a].mode == Exclusive :: a == b)
  {
    AlwaysInOrder(acts);
    var p := After(EMPTY, acts).value;
    hide After;
    forall a, b | AtWork(p, a) && AtWork(p, b) && p.borrowers[a].mode == Exclusive ensures a == b {
      assert HoldsFor(p.sessions[p.borrowers[a].conn], p.borrowers[a]);
      assert HoldsFor(p.sessions[p.borrowers[b].conn], p.borrowers[b]);
    }
  }

  // ---------------------------------------------------------------- the lock the store relies on

  predicate Holder(p: Pool, pid: nat, mode: Mode) {
    pid in p.borrowers && p.borrowers[pid].conn in p.sessions && Holds(p.sessions[p.borrowers[pid].conn], mode)
  }

  lemma GrantedAlone(p: Pool, pid: nat, mode: Mode)
    requires Inv(p) && pid in p.borrowers && p.borrowers[pid].mode == mode && p.borrowers[pid].stage.Taking?
    requires p.borrowers[pid].conn in p.sessions && Grantable(p.sessions, p.borrowers[pid].conn, mode)
    ensures forall q :: !Holder(p, q, Exclusive)
    ensures mode == Exclusive ==> forall q :: !Holder(p, q, Shared)
  {
    hide Excluded, IdleClean;
    assert HoldsFor(p.sessions[p.borrowers[pid].conn], p.borrowers[pid]);
  }

  lemma OthersHold(p: Pool, pid: nat, answer: Answer, q: nat, mode: Mode)
    requires Inv(p) && Enabled(p, Query(pid, answer)) && q != pid
    ensures Holder(Next(p, Query(pid, answer)), q, mode) <==> Holder(p, q, mode)
  {
    hide Excluded, IdleClean, BorrowersHold, Grantable, Onwards, Effect, Holds, GivenBack;
  }

  lemma TakesByAsking(p: Pool, pid: nat, answer: Answer, mode: Mode)
    requires Inv(p) && Enabled(p, Query(pid, answer))
    requires Holder(Next(p, Query(pid, answer)), pid, mode) && !Holder(p, pid, mode)
    ensures p.borrowers[pid].stage.Taking? && p.borrowers[pid].mode == mode && answer != NoEffect
  {
    hide Excluded, IdleClean, BorrowersHold, Grantable, Onwards, GivenBack, Apart;
  }

  /**
   * The pool behaves as the shared/exclusive lock the archive is built on: a lease is gained only
   * by asking, while nobody holds the exclusive one, and the exclusive one only while nobody holds
   * any; it is lost only by its holder's own query, its crash, or the end of its session.
   */
  lemma LockRefines(p: Pool, a: Act, q: nat, mode: Mode)
    requires Inv(p) && Enabled(p, a)
    ensures !Holder(p, q, mode) && Holder(Next(p, a), q, mode) ==>
              && a.Query? && a.pid == q && p.borrowers[q].mode == mode
              && (forall r :: !Holder(p, r, Exclusive))
              && (mode == Exclusive ==> forall r :: !Holder(p, r, Shared))
    ensures Holder(p, q, mode) && !Holder(Next(p, a), q, mode) ==>
              a == Crash(q) || (a.Query? && a.pid == q) || a == EndSession(p.borrowers[q].conn)
  {
    match a
    case Query(pid, answer) =>
      hide Inv, Next, Holder;
      if q != pid {
        OthersHold(p, pid, answer, q, mode);
      } else if Holder(Next(p, a), q, mode) && !Holder(p, q, mode) {
        TakesByAsking(p, pid, answer, mode);
        GrantedAlone(p, pid, mode);
      }
    case _ =>
      hide Excluded, BorrowersHold, Grantable;
  }
}
