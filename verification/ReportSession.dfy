/**
The session object: counters and lifecycle updated call by call, proved against the calls of
`ReportSessions`.
*/
module ReportSessionObject {
  import opened Protocol
  import S = ReportSessions

  class ReportSession {
    const env: S.Environment
    var log: seq<Event>
    var attempted: nat
    var sequence: nat
    var written: nat
    var dropped: nat
    var lifecycle: S.Lifecycle
    var outcomeLost: bool

    ghost function State(): S.Session
      reads this
    {
      S.Session(log, attempted, sequence, written, dropped, lifecycle, outcomeLost)
    }

    constructor (env: S.Environment)
      ensures this.env == env && State() == S.NEW
    {
      this.env := env;
      log, attempted, sequence, written, dropped, lifecycle, outcomeLost := [], 0, 0, 0, 0, S.Active, false;
    }

    /** Hands one event to the sink when it fits. */
    method Write(p: Payload) returns (result: S.Written)
      modifies this
      ensures State() == S.Wrote(old(State()), env, p)
      ensures result == env.results(old(attempted))
    {
      var event := Event(env.ids(attempted), env.runId, env.sessionId, sequence + 1, env.clock(attempted), p, "");
      result := env.results(attempted);
      attempted := attempted + 1;
      if result.TooLarge? {
        dropped := dropped + 1;
        return;
      }
      if result.SinkFailure? {
        dropped := dropped + 1;
        return;
      }
      log := log + [event];
      sequence := sequence + 1;
      written := written + 1;
    }

    method AcceptsSessionEvents() returns (ok: bool)
      modifies this`dropped
      ensures ok == S.Accepts(old(State()))
      ensures State() == if ok then old(State()) else S.Dropped(old(State()))
    {
      if outcomeLost {
        dropped := dropped + 1;
        return false;
      }
      if lifecycle.Active? {
        return true;
      }
      dropped := dropped + 1;
      return false;
    }

    /** A supplied status is written as it is, or nothing is. */
    method Finish(outcome: Payload) returns (ok: bool)
      requires outcome.SessionFinished?
      modifies this
      ensures S.Reply(State(), ok) == S.Finish(old(State()), env, outcome)
    {
      if !S.WellFormed(outcome) {
        dropped := dropped + 1;
        return false;
      }
      var accepted := AcceptsSessionEvents();
      if !accepted {
        return false;
      }
      if outcome.outcome.None? {
        var plain := Write(outcome);
        if plain.Written? {
          lifecycle := S.SessionEnded;
        }
        return plain.Written?;
      }
      ok := FinishWith(outcome);
    }

    /** The reduction loop: failures go first, then the raw status. */
    method FinishWith(outcome: Payload) returns (ok: bool)
      requires outcome.SessionFinished?
      modifies this
      ensures S.Reply(State(), ok) == S.FinishWith(old(State()), env, outcome)
    {
      var candidate := outcome;
      while true
        invariant candidate.SessionFinished?
        invariant S.FinishWith(State(), env, candidate) == S.FinishWith(old(State()), env, outcome)
        decreases S.Weight(candidate)
      {
        ghost var before := State();
        var attempt := Write(candidate);
        if attempt.Written? {
          lifecycle := S.SessionEnded;
          return true;
        }
        if attempt.SinkFailure? {
          outcomeLost := true;
          return false;
        }
        if candidate.failures != [] {
          candidate := SessionFinished(candidate.outcome, candidate.rawStatus, []);
        } else if candidate.rawStatus.Some? {
          candidate := SessionFinished(candidate.outcome, None, []);
        } else {
          outcomeLost := true;
          return false;
        }
      }
    }

    method FinishRun() returns (ok: bool)
      modifies this
      ensures S.Reply(State(), ok) == S.FinishRun(old(State()), env)
    {
      if outcomeLost {
        dropped := dropped + 1;
        return false;
      }
      if lifecycle.Active? {
        var finished := Finish(S.EMPTY_OUTCOME);
        if !finished {
          return false;
        }
      }
      if !lifecycle.SessionEnded? {
        dropped := dropped + 1;
        return false;
      }
      var result := Write(RunFinished);
      if result.Written? {
        lifecycle := S.RunEnded;
      }
      return result.Written?;
    }

    method Emit(p: Payload) returns (ok: bool)
      modifies this
      ensures S.Reply(State(), ok) == S.Emit(old(State()), env, p)
    {
      if p.RunFinished? {
        ok := FinishRun();
        return;
      }
      if p.SessionFinished? {
        ok := Finish(p);
        return;
      }
      var accepted := AcceptsSessionEvents();
      if !accepted {
        return false;
      }
      var result := Write(p);
      return result.Written?;
    }

    method Close()
      modifies this
      ensures State() == S.Close(old(State()), env)
    {
      if lifecycle.Closed? {
        return;
      }
      if lifecycle.Active? && !outcomeLost {
        var _ := Finish(S.EMPTY_OUTCOME);
      }
      lifecycle := S.Closed;
    }
  }
}
