/**
The producer's session: one log of events with its own numbering, and an outcome that is written as
supplied or not at all.

Whether a write succeeds is up to the environment: `results` says, for every write ever attempted,
whether the event fits and the sink takes it.
*/
module ReportSessions {
  import opened Protocol

  datatype Written = Written | TooLarge | SinkFailure

  datatype Environment = Environment(
    runId: string, sessionId: string, ids: nat -> string, clock: nat -> string, results: nat -> Written)

  datatype Lifecycle = Active | SessionEnded | RunEnded | Closed

  datatype Session = Session(
    log: seq<Event>, attempted: nat, sequence: nat, written: nat, dropped: nat, lifecycle: Lifecycle, outcomeLost: bool)

  const NEW := Session([], 0, 0, 0, 0, Active, false)

  datatype Reply = Reply(session: Session, ok: bool)

  // ---------------------------------------------------------------- one write

  function EventOf(s: Session, env: Environment, p: Payload): Event {
    Event(env.ids(s.attempted), env.runId, env.sessionId, s.sequence + 1, env.clock(s.attempted), p, "")
  }

  function Wrote(s: Session, env: Environment, p: Payload): Session {
    var now := s.(attempted := s.attempted + 1);
    if env.results(s.attempted).Written? then
      now.(log := s.log + [EventOf(s, env, p)], sequence := s.sequence + 1, written := s.written + 1)
    else now.(dropped := s.dropped + 1)
  }

  function Dropped(s: Session): Session {
    s.(dropped := s.dropped + 1)
  }

  predicate Accepts(s: Session) {
    !s.outcomeLost && s.lifecycle.Active?
  }

  // ---------------------------------------------------------------- calls

  /** Raw status and failures need a status, and a passed session carries no failures. */
  predicate WellFormed(outcome: Payload)
    requires outcome.SessionFinished?
  {
    && (outcome.outcome.None? ==> outcome.rawStatus.None? && outcome.failures == [])
    && (outcome.outcome == Some(SessionPassed) ==> outcome.failures == [])
  }

  function Weight(p: Payload): nat {
    if !p.SessionFinished? then 0 else (if p.failures != [] then 1 else 0) + (if p.rawStatus.Some? then 1 else 0)
  }

  /** Without its failures first, then without its raw status; the status itself is never given up. */
  function Reduced(p: Payload): (q: Payload)
    requires p.SessionFinished? && Weight(p) > 0
    ensures q.SessionFinished? && q.outcome == p.outcome && Weight(q) < Weight(p)
  {
    if p.failures != [] then SessionFinished(p.outcome, p.rawStatus, []) else SessionFinished(p.outcome, None, [])
  }

  /** Tries the outcome, then smaller forms of it; a form that cannot be written loses the session. */
  function FinishWith(s: Session, env: Environment, candidate: Payload): Reply
    requires candidate.SessionFinished?
    decreases Weight(candidate)
  {
    var now := Wrote(s, env, candidate);
    match env.results(s.attempted)
    case Written => Reply(now.(lifecycle := SessionEnded), true)
    case SinkFailure => Reply(now.(outcomeLost := true), false)
    case TooLarge =>
      if Weight(candidate) > 0 then FinishWith(now, env, Reduced(candidate))
      else Reply(now.(outcomeLost := true), false)
  }

  function Finish(s: Session, env: Environment, outcome: Payload): Reply
    requires outcome.SessionFinished?
  {
    if !WellFormed(outcome) || !Accepts(s) then Reply(Dropped(s), false)
    else if outcome.outcome.None? then
      var now := Wrote(s, env, outcome);
      if env.results(s.attempted).Written? then Reply(now.(lifecycle := SessionEnded), true) else Reply(now, false)
    else FinishWith(s, env, outcome)
  }

  const EMPTY_OUTCOME := SessionFinished(None, None, [])

  function FinishRun(s: Session, env: Environment): Reply {
    if s.outcomeLost then Reply(Dropped(s), false)
    else
      var first := if s.lifecycle.Active? then Finish(s, env, EMPTY_OUTCOME) else Reply(s, true);
      if !first.ok then first
      else if !first.session.lifecycle.SessionEnded? then Reply(Dropped(first.session), false)
      else
        var now := Wrote(first.session, env, RunFinished);
        if env.results(first.session.attempted).Written? then Reply(now.(lifecycle := RunEnded), true) else Reply(now, false)
  }

  function Emit(s: Session, env: Environment, p: Payload): Reply {
    if p.RunFinished? then FinishRun(s, env)
    else if p.SessionFinished? then Finish(s, env, p)
    else if !Accepts(s) then Reply(Dropped(s), false)
    else Reply(Wrote(s, env, p), env.results(s.attempted).Written?)
  }

  function Close(s: Session, env: Environment): Session {
    if s.lifecycle.Closed? then s
    else
      var now := if s.lifecycle.Active? && !s.outcomeLost then Finish(s, env, EMPTY_OUTCOME).session else s;
      now.(lifecycle := Closed)
  }

  /** The check before an attachment is stored; storing happens outside the session. */
  function Check(s: Session): Session {
    if Accepts(s) then s else Dropped(s)
  }

  // ---------------------------------------------------------------- every sequence of calls

  /**
   * The atomic calls. A caller with several threads interleaves them in any order: storing an
   * attachment is a check now and an emit later, with any other calls between.
   */
  datatype Call = CallEmit(payload: Payload) | CallFinish(outcome: Payload) | CallFinishRun | CallClose | CallCheck

  function Called(s: Session, env: Environment, c: Call): Session {
    match c
    case CallEmit(p) => Emit(s, env, p).session
    case CallFinish(p) => if p.SessionFinished? then Finish(s, env, p).session else s
    case CallFinishRun => FinishRun(s, env).session
    case CallClose => Close(s, env)
    case CallCheck => Check(s)
  }

  function After(s: Session, env: Environment, calls: seq<Call>): Session {
    if calls == [] then s else Called(After(s, env, calls[..|calls| - 1]), env, calls[|calls| - 1])
  }

  predicate Terminal(e: Event) {
    e.payload.SessionFinished? || e.payload.RunFinished?
  }

  /** How many terminal events end the log: none, a session.finished, or that and a run.finished. */
  function Endings(log: seq<Event>): nat {
    if log == [] then 0
    else if log[|log| - 1].payload.RunFinished? then 2
    else if log[|log| - 1].payload.SessionFinished? then 1
    else 0
  }

  ghost predicate Ended(log: seq<Event>, n: nat) {
    && n <= |log|
    && (forall i | 0 <= i < |log| - n :: !Terminal(log[i]))
    && (n > 0 ==> log[|log| - n].payload.SessionFinished?)
    && (n == 2 ==> log[|log| - 1].payload.RunFinished?)
  }

  ghost predicate Numbered(log: seq<Event>) {
    forall i | 0 <= i < |log| :: log[i].sequence == i + 1
  }

  /** The log is numbered and ends as far as the lifecycle says. */
  ghost predicate Inv(s: Session) {
    && s.sequence == |s.log| && s.written == |s.log|
    && Numbered(s.log) && Ended(s.log, Endings(s.log))
    && (s.lifecycle.Active? || s.outcomeLost ==> Endings(s.log) == 0)
    && (s.lifecycle.SessionEnded? ==> Endings(s.log) == 1)
    && (s.lifecycle.RunEnded? ==> Endings(s.log) == 2)
  }

  /** Nothing but one run.finished follows a session.finished. */
  lemma OrderlyMeans(s: Session, i: nat, j: nat)
    requires Inv(s) && i < j < |s.log|
    ensures s.log[i].payload.SessionFinished? ==> s.log[j].payload.RunFinished? && j == i + 1 == |s.log| - 1
    ensures !s.log[i].payload.RunFinished?
  {
  }

  lemma OpenLog(log: seq<Event>)
    requires Ended(log, 0)
    ensures forall e | e in log :: !Terminal(e)
  {
  }

  /** The log only grows. */
  ghost predicate Extends(s: Session, t: Session) {
    |s.log| <= |t.log| && t.log[..|s.log|] == s.log
  }

  lemma Appended(log: seq<Event>, e: Event)
    requires Numbered(log) && Ended(log, Endings(log)) && e.sequence == |log| + 1
    requires if e.payload.RunFinished? then Endings(log) == 1 else Endings(log) == 0
    ensures Numbered(log + [e]) && Ended(log + [e], Endings(log + [e]))
    ensures Endings(log + [e]) == if Terminal(e) then Endings(log) + 1 else 0
  {
  }

  lemma WroteKeeps(s: Session, env: Environment, p: Payload)
    requires Inv(s) && s.lifecycle.Active? && !s.outcomeLost && !p.RunFinished?
    ensures var t := Wrote(s, env, p);
            && Extends(s, t) && !t.outcomeLost && t.lifecycle.Active?
            && (p.SessionFinished? && env.results(s.attempted).Written? ==>
                  Inv(t.(lifecycle := SessionEnded)) && t.log == s.log + [EventOf(s, env, p)])
            && (!(p.SessionFinished? && env.results(s.attempted).Written?) ==> Inv(t))
            && (!env.results(s.attempted).Written? ==> t.log == s.log)
  {
    Appended(s.log, EventOf(s, env, p));
  }

  lemma {:induction false} FinishWithKeeps(s: Session, env: Environment, candidate: Payload)
    requires Inv(s) && s.lifecycle.Active? && !s.outcomeLost && candidate.SessionFinished? && candidate.outcome.Some?
    ensures var r := FinishWith(s, env, candidate);
            && Inv(r.session) && Extends(s, r.session)
            && (r.ok ==> r.session.lifecycle.SessionEnded?
                         && |r.session.log| == |s.log| + 1 && r.session.log[|s.log|].payload.SessionFinished?
                         && r.session.log[|s.log|].payload.outcome == candidate.outcome)
            && (!r.ok ==> r.session.outcomeLost && r.session.log == s.log && r.session.lifecycle.Active?)
    decreases Weight(candidate)
  {
    WroteKeeps(s, env, candidate);
    var now := Wrote(s, env, candidate);
    if env.results(s.attempted).TooLarge? && Weight(candidate) > 0 {
      FinishWithKeeps(now, env, Reduced(candidate));
    }
  }

  lemma FinishKeeps(s: Session, env: Environment, outcome: Payload)
    requires Inv(s) && outcome.SessionFinished?
    ensures var r := Finish(s, env, outcome);
            && Inv(r.session) && Extends(s, r.session)
            && (r.ok ==> r.session.lifecycle.SessionEnded? && !r.session.outcomeLost)
            && (s.outcomeLost ==> r.session.outcomeLost && r.session.log == s.log)
            && (!r.ok ==> r.session.log == s.log && r.session.lifecycle == s.lifecycle)
  {
    hide Wrote, FinishWith;
    if WellFormed(outcome) && Accepts(s) {
      if outcome.outcome.None? { WroteKeeps(s, env, outcome); } else { FinishWithKeeps(s, env, outcome); }
    }
  }

  lemma RunWritten(s: Session, env: Environment)
    requires Inv(s) && s.lifecycle.SessionEnded? && !s.outcomeLost
    ensures var t := Wrote(s, env, RunFinished);
            && Extends(s, t) && !t.outcomeLost
            && (if env.results(s.attempted).Written? then Inv(t.(lifecycle := RunEnded)) else Inv(t) && t.log == s.log)
  {
    Appended(s.log, EventOf(s, env, RunFinished));
  }

  lemma FinishRunKeeps(s: Session, env: Environment)
    requires Inv(s)
    ensures var r := FinishRun(s, env); Inv(r.session) && Extends(s, r.session)
    ensures s.outcomeLost ==> FinishRun(s, env).session.outcomeLost && FinishRun(s, env).session.log == s.log
  {
    hide Wrote, Finish;
    if !s.outcomeLost {
      if s.lifecycle.Active? { FinishKeeps(s, env, EMPTY_OUTCOME); }
      var first := if s.lifecycle.Active? then Finish(s, env, EMPTY_OUTCOME) else Reply(s, true);
      if first.ok && first.session.lifecycle.SessionEnded? { RunWritten(first.session, env); }
    }
  }

  lemma CalledKeeps(s: Session, env: Environment, c: Call)
    requires Inv(s)
    ensures Inv(Called(s, env, c)) && Extends(s, Called(s, env, c))
    ensures s.outcomeLost ==> Called(s, env, c).outcomeLost && Called(s, env, c).log == s.log
    ensures !s.lifecycle.Active? ==> forall e | e in Called(s, env, c).log && e.payload.SessionFinished? :: e in s.log
  {
    hide Wrote, Finish, FinishRun;
    match c
    case CallEmit(p) =>
      if p.RunFinished? { FinishRunKeeps(s, env); FinishRunAdds(s, env); }
      else if p.SessionFinished? { FinishKeeps(s, env, p); FinishAdds(s, env, p); }
      else if Accepts(s) { WroteKeeps(s, env, p); }
    case CallFinish(p) => if p.SessionFinished? { FinishKeeps(s, env, p); FinishAdds(s, env, p); }
    case CallFinishRun => FinishRunKeeps(s, env); FinishRunAdds(s, env);
    case CallClose => if s.lifecycle.Active? && !s.outcomeLost { FinishKeeps(s, env, EMPTY_OUTCOME); }
    case CallCheck =>
  }

  lemma FinishAdds(s: Session, env: Environment, p: Payload)
    requires p.SessionFinished?
    ensures !s.lifecycle.Active? ==> Finish(s, env, p).session.log == s.log
  {
  }

  lemma FinishRunAdds(s: Session, env: Environment)
    ensures !s.lifecycle.Active? ==>
              forall e | e in FinishRun(s, env).session.log && e.payload.SessionFinished? :: e in s.log
  {
    if !s.lifecycle.Active? { assert FinishRun(s, env).session.log == s.log || FinishRun(s, env).session.log == s.log + [EventOf(s, env, RunFinished)]; }
  }

  /**
   * Whatever calls are made, in whatever order and with whatever failures: the written sequence
   * numbers are 1..n, nothing but one run.finished follows session.finished, and the log only grows.
   */
  lemma {:induction false} AlwaysOrderly(s: Session, env: Environment, calls: seq<Call>)
    requires Inv(s)
    ensures Inv(After(s, env, calls)) && Extends(s, After(s, env, calls))
    ensures s.outcomeLost ==> After(s, env, calls).outcomeLost && After(s, env, calls).log == s.log
    ensures !s.lifecycle.Active? ==> forall e | e in After(s, env, calls).log && e.payload.SessionFinished? :: e in s.log
  {
    if calls != [] {
      hide Called, Inv;
      var before := After(s, env, calls[..|calls| - 1]);
      AlwaysOrderly(s, env, calls[..|calls| - 1]);
      CalledKeeps(before, env, calls[|calls| - 1]);
      if !s.lifecycle.Active? { StaysInactive(s, env, calls[..|calls| - 1]); }
    }
  }

  lemma {:induction false} StaysInactive(s: Session, env: Environment, calls: seq<Call>)
    requires !s.lifecycle.Active?
    ensures !After(s, env, calls).lifecycle.Active?
  {
    if calls != [] { StaysInactive(s, env, calls[..|calls| - 1]); }
  }

  lemma {:induction false} AfterJoin(s: Session, env: Environment, a: seq<Call>, b: seq<Call>)
    ensures After(s, env, a + b) == After(After(s, env, a), env, b)
  {
    if b == [] {
      assert a + b == a;
    } else {
      AfterJoin(s, env, a, b[..|b| - 1]);
      assert (a + b)[..|a + b| - 1] == a + b[..|b| - 1];
    }
  }

  /**
   * Outcome preservation. Once a well-formed outcome with a status is offered to a session that
   * still accepts events, every session.finished ever written carries that status; and if the
   * offer itself wrote none, none is ever written.
   */
  lemma OutcomePreserved(env: Environment, before: seq<Call>, outcome: Payload, after: seq<Call>)
    requires outcome.SessionFinished? && WellFormed(outcome) && outcome.outcome.Some?
    requires Accepts(After(NEW, env, before))
    ensures var offered := Finish(After(NEW, env, before), env, outcome);
            var last := After(NEW, env, before + [CallFinish(outcome)] + after);
            && (forall e | e in last.log && e.payload.SessionFinished? :: e.payload.outcome == outcome.outcome)
            && (!offered.ok ==> forall e | e in last.log :: !e.payload.SessionFinished?)
  {
    hide Inv, Wrote;
    NewIsOrderly();
    AlwaysOrderly(NEW, env, before);
    var s := After(NEW, env, before);
    var offered := Finish(s, env, outcome);
    FinishWithKeeps(s, env, outcome);
    ActiveIsOpen(s);
    assert (before + [CallFinish(outcome)])[..|before|] == before;
    assert After(NEW, env, before + [CallFinish(outcome)]) == offered.session;
    AfterJoin(NEW, env, before + [CallFinish(outcome)], after);
    AlwaysOrderly(offered.session, env, after);
    forall e | e in offered.session.log && e.payload.SessionFinished? ensures offered.ok && e.payload.outcome == outcome.outcome {
      if offered.ok { assert offered.session.log == s.log + [offered.session.log[|s.log|]]; }
    }
  }

  lemma NewIsOrderly()
    ensures Inv(NEW)
  {
  }

  lemma ActiveIsOpen(s: Session)
    requires Inv(s) && s.lifecycle.Active?
    ensures forall e | e in s.log :: !e.payload.SessionFinished?
  {
    OpenLog(s.log);
  }
}
