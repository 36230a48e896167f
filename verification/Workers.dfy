/**
Bounded concurrency over a list of items: workers that share the next index, the failure flag and
the results, in every order in which the items' work may settle.
*/
module Workers {
  import opened Protocol

  /** A worker is about to look for an item, has one in flight, or has returned. */
  datatype Worker = Ready | Busy(index: nat) | Returned

  /** `settled` has an item's result, or nothing when its work failed. */
  datatype Pool<R> = Pool(next: nat, failed: bool, workers: seq<Worker>, settled: map<nat, Option<R>>, log: seq<Event>)

  /** What an observer of the items sees, in order. */
  datatype Event = Starts(index: nat) | Settles(index: nat, ok: bool)

  datatype Act<R> = Turn(worker: nat) | Settle(worker: nat, result: Option<R>)

  function Min(a: nat, b: nat): nat { if a < b then a else b }

  function Initial<R>(count: nat, limit: nat): Pool<R> {
    Pool(0, false, seq(Min(limit, count), _ => Ready), map[], [])
  }

  predicate Enabled<R>(p: Pool<R>, a: Act<R>) {
    a.worker < |p.workers| && (if a.Turn? then p.workers[a.worker].Ready? else p.workers[a.worker].Busy?)
  }

  function Next<R>(p: Pool<R>, a: Act<R>, count: nat): Pool<R>
    requires Enabled(p, a)
  {
    match a
    case Turn(w) =>
      if p.next < count && !p.failed then
        p.(next := p.next + 1, workers := p.workers[w := Busy(p.next)], log := p.log + [Starts(p.next)])
      else p.(workers := p.workers[w := Returned])
    case Settle(w, result) =>
      var i := p.workers[w].index;
      Pool(p.next, p.failed || result.None?, p.workers[w := Ready], p.settled[i := result], p.log + [Settles(i, result.Some?)])
  }

  function After<R>(p: Pool<R>, acts: seq<Act<R>>, count: nat): Option<Pool<R>> {
    if acts == [] then Some(p)
    else
      var before := After(p, acts[..|acts| - 1], count);
      if before.Some? && Enabled(before.value, acts[|acts| - 1]) then Some(Next(before.value, acts[|acts| - 1], count)) else None
  }

  // ---------------------------------------------------------------- what the log promises

  /** The items in flight after a log. */
  function InFlight(log: seq<Event>): set<nat> {
    if log == [] then {}
    else
      var before := InFlight(log[..|log| - 1]);
      match log[|log| - 1]
      case Starts(i) => before + {i}
      case Settles(i, _) => before - {i}
  }

  predicate HasFailure(log: seq<Event>) {
    exists e | e in log :: e.Settles? && !e.ok
  }

  /** The items start in order, each once, none after a failure. */
  function Started(log: seq<Event>): seq<nat> {
    if log == [] then []
    else Started(log[..|log| - 1]) + (if log[|log| - 1].Starts? then [log[|log| - 1].index] else [])
  }

  predicate Orderly(log: seq<Event>, count: nat, limit: nat) {
    && (forall k | 0 <= k <= |log| :: |InFlight(log[..k])| <= Min(limit, count))
    && (forall k | 0 <= k < |log| && log[k].Starts? :: !HasFailure(log[..k]) && log[k].index < count)
    && (forall k | 0 <= k < |Started(log)| :: Started(log)[k] == k)
    && (forall k | 0 <= k < |log| && log[k].Settles? :: log[k].index in InFlight(log[..k]))
  }

  function BusyOf(workers: seq<Worker>): set<nat> {
    set w | w in workers && w.Busy? :: w.index
  }

  ghost predicate Distinct(workers: seq<Worker>) {
    forall v, w | 0 <= v < w < |workers| && workers[v].Busy? && workers[w].Busy? :: workers[v].index != workers[w].index
  }

  ghost predicate AnyFailed<R>(settled: map<nat, Option<R>>) {
    exists i | i in settled :: settled[i].None?
  }

  /** What has started has settled or is in flight, and not both. */
  ghost predicate Accounts<R>(settled: map<nat, Option<R>>, busy: set<nat>, next: nat) {
    && (forall i: nat :: i < next <==> i in settled || i in busy)
    && (forall i | i in settled :: i !in busy)
  }

  ghost predicate Inv<R>(p: Pool<R>, count: nat, limit: nat) {
    && |p.workers| == Min(limit, count)
    && Distinct(p.workers)
    && p.next <= count
    && BusyOf(p.workers) == InFlight(p.log)
    && |Started(p.log)| == p.next
    && p.failed == HasFailure(p.log)
    && p.failed == AnyFailed(p.settled)
    && Accounts(p.settled, BusyOf(p.workers), p.next)
    && (!p.failed && p.next < count ==> forall w | 0 <= w < |p.workers| :: !p.workers[w].Returned?)
    && Orderly(p.log, count, limit)
  }

  lemma {:induction false} BusyBounded(workers: seq<Worker>)
    ensures |BusyOf(workers)| <= |workers|
  {
    if workers != [] {
      var rest, w := workers[..|workers| - 1], workers[|workers| - 1];
      BusyBounded(rest);
      assert workers == rest + [w];
      assert BusyOf(workers) == BusyOf(rest) + (if w.Busy? then {w.index} else {});
    }
  }

  lemma BusyStarts(workers: seq<Worker>, w: nat, i: nat)
    requires w < |workers| && workers[w].Ready? && Distinct(workers) && i !in BusyOf(workers)
    ensures Distinct(workers[w := Busy(i)]) && BusyOf(workers[w := Busy(i)]) == BusyOf(workers) + {i}
  {
    var after := workers[w := Busy(i)];
    assert after[w] in after;
    forall j | j in BusyOf(workers) ensures j in BusyOf(after) {
      var v :| 0 <= v < |workers| && workers[v].Busy? && workers[v].index == j;
      assert after[v] in after;
    }
    assert forall v | 0 <= v < |workers| && workers[v].Busy? :: workers[v] in workers && workers[v].index in BusyOf(workers);
  }

  lemma BusyEnds(workers: seq<Worker>, w: nat, rest: Worker)
    requires w < |workers| && Distinct(workers) && !rest.Busy?
    ensures Distinct(workers[w := rest])
    ensures BusyOf(workers[w := rest]) == BusyOf(workers) - (if workers[w].Busy? then {workers[w].index} else {})
  {
    var after := workers[w := rest];
    forall j | j in BusyOf(workers) && !(workers[w].Busy? && workers[w].index == j) ensures j in BusyOf(after) {
      var v :| 0 <= v < |workers| && workers[v].Busy? && workers[v].index == j;
      assert after[v] in after;
    }
    forall j | j in BusyOf(after) ensures j in BusyOf(workers) && !(workers[w].Busy? && workers[w].index == j) {
      var v :| 0 <= v < |after| && after[v].Busy? && after[v].index == j;
      assert workers[v] in workers;
    }
  }

  lemma LogAppends(log: seq<Event>, e: Event)
    ensures Started(log + [e]) == Started(log) + (if e.Starts? then [e.index] else [])
    ensures InFlight(log + [e]) == if e.Starts? then InFlight(log) + {e.index} else InFlight(log) - {e.index}
    ensures HasFailure(log + [e]) == (HasFailure(log) || (e.Settles? && !e.ok))
  {
    assert (log + [e])[..|log|] == log;
  }

  lemma LogGrows(log: seq<Event>, e: Event, count: nat, limit: nat)
    requires Orderly(log, count, limit)
    requires |InFlight(log + [e])| <= Min(limit, count)
    requires e.Starts? ==> !HasFailure(log) && e.index == |Started(log)| < count
    requires e.Settles? ==> e.index in InFlight(log)
    ensures Orderly(log + [e], count, limit)
  {
    LogAppends(log, e);
    hide InFlight, HasFailure, Started, Min;
    var log' := log + [e];
    assert log'[..|log|] == log && log'[..|log'|] == log';
    forall k | 0 <= k <= |log'| ensures |InFlight(log'[..k])| <= Min(limit, count) {
      if k <= |log| { assert log'[..k] == log[..k]; } else { assert log'[..k] == log'; }
    }
    forall k | 0 <= k < |log'| && log'[k].Starts? ensures !HasFailure(log'[..k]) && log'[k].index < count {
      assert log'[..k] == if k < |log| then log[..k] else log;
    }
    forall k | 0 <= k < |log'| && log'[k].Settles? ensures log'[k].index in InFlight(log'[..k]) {
      assert log'[..k] == if k < |log| then log[..k] else log;
    }
  }

  lemma StartKeeps<R>(p: Pool<R>, w: nat, count: nat, limit: nat)
    requires Inv(p, count, limit) && w < |p.workers| && p.workers[w].Ready? && p.next < count && !p.failed
    ensures Inv(Next(p, Turn(w), count), count, limit)
  {
    hide InFlight, HasFailure, Started, Orderly, Distinct, BusyOf;
    var p' := Next(p, Turn(w), count);
    BusyStarts(p.workers, w, p.next);
    BusyBounded(p'.workers);
    LogAppends(p.log, Starts(p.next));
    LogGrows(p.log, Starts(p.next), count, limit);
  }

  lemma AccountSettles<R>(settled: map<nat, Option<R>>, busy: set<nat>, next: nat, i: nat, result: Option<R>)
    requires Accounts(settled, busy, next) && i in busy
    ensures Accounts(settled[i := result], busy - {i}, next)
    ensures AnyFailed(settled[i := result]) == (AnyFailed(settled) || result.None?)
  {
    var settled' := settled[i := result];
    assert settled'[i] == result;
    if AnyFailed(settled) {
      var j :| j in settled && settled[j].None?;
      assert settled'[j].None?;
    }
  }

  lemma SettleKeeps<R>(p: Pool<R>, w: nat, result: Option<R>, count: nat, limit: nat)
    requires Inv(p, count, limit) && w < |p.workers| && p.workers[w].Busy?
    ensures Inv(Next(p, Settle(w, result), count), count, limit)
  {
    var i := p.workers[w].index;
    assert p.workers[w] in p.workers && i in BusyOf(p.workers);
    hide InFlight, HasFailure, Started, Orderly, Distinct, BusyOf;
    AccountSettles(p.settled, BusyOf(p.workers), p.next, i, result);
    hide Accounts, AnyFailed;
    var p' := Next(p, Settle(w, result), count);
    BusyEnds(p.workers, w, Ready);
    BusyBounded(p'.workers);
    LogAppends(p.log, Settles(i, result.Some?));
    LogGrows(p.log, Settles(i, result.Some?), count, limit);
  }

  lemma ReturnKeeps<R>(p: Pool<R>, w: nat, count: nat, limit: nat)
    requires Inv(p, count, limit) && w < |p.workers| && p.workers[w].Ready? && !(p.next < count && !p.failed)
    ensures Inv(Next(p, Turn(w), count), count, limit)
  {
    hide InFlight, HasFailure, Started, Orderly, Distinct, BusyOf;
    BusyEnds(p.workers, w, Returned);
  }

  lemma {:induction false} AlwaysInv<R>(acts: seq<Act<R>>, count: nat, limit: nat)
    requires After(Initial(count, limit), acts, count).Some?
    ensures Inv(After(Initial(count, limit), acts, count).value, count, limit)
  {
    if acts != [] {
      var a := acts[|acts| - 1];
      AlwaysInv(acts[..|acts| - 1], count, limit);
      var p := After<R>(Initial(count, limit), acts[..|acts| - 1], count).value;
      hide Inv, Next, Initial;
      match a
      case Settle(w, result) => SettleKeeps(p, w, result, count, limit);
      case Turn(w) =>
        if p.next < count && !p.failed { StartKeeps(p, w, count, limit); } else { ReturnKeeps(p, w, count, limit); }
    }
  }

  // ---------------------------------------------------------------- main results

  /**
   * In every schedule at most `limit` items are in flight at any moment, the items start in order
   * and so each at most once, and none starts once one has failed.
   */
  lemma Disciplined<R>(acts: seq<Act<R>>, count: nat, limit: nat)
    requires After(Initial(count, limit), acts, count).Some?
    ensures Orderly(After(Initial(count, limit), acts, count).value.log, count, limit)
  {
    hide After, Initial;
    AlwaysInv(acts, count, limit);
  }

  /**
   * When the last worker has returned everything started has settled; without a failure that is
   * every item, each with a result; with one, the whole call rejects.
   */
  lemma Finished<R>(acts: seq<Act<R>>, count: nat, limit: nat)
    requires After(Initial(count, limit), acts, count).Some? && limit > 0
    requires forall w | w in After(Initial(count, limit), acts, count).value.workers :: w.Returned?
    ensures var p := After(Initial(count, limit), acts, count).value;
            && (forall i: nat :: i in p.settled <==> i < p.next)
            && (!p.failed ==> p.next == count && forall i: nat | i < count :: i in p.settled && p.settled[i].Some?)
            && (p.failed ==> exists i: nat | i < p.next :: p.settled[i].None?)
  {
    AlwaysInv(acts, count, limit);
    var p := After<R>(Initial(count, limit), acts, count).value;
    hide After, Initial, Orderly, Distinct, InFlight, Started, HasFailure;
    assert BusyOf(p.workers) == {};
    hide BusyOf;
    assert |p.workers| > 0 ==> p.workers[0] in p.workers;
  }

  function Weight(workers: seq<Worker>): nat {
    if workers == [] then 0
    else Weight(workers[..|workers| - 1]) + WeightOf(workers[|workers| - 1])
  }

  function WeightOf(w: Worker): nat {
    match w case Ready => 1 case Busy(_) => 2 case Returned => 0
  }

  lemma {:induction false} WeightChanges(workers: seq<Worker>, w: nat, x: Worker)
    requires w < |workers|
    ensures Weight(workers[w := x]) == Weight(workers) - WeightOf(workers[w]) + WeightOf(x)
  {
    var last := |workers| - 1;
    if w == last {
      assert workers[w := x][..last] == workers[..last];
    } else {
      WeightChanges(workers[..last], w, x);
      assert workers[w := x][..last] == workers[..last][w := x];
    }
  }

  lemma {:induction false} WeightInitially(n: nat)
    ensures Weight(seq(n, _ => Ready)) == n
  {
    if n > 0 {
      WeightInitially(n - 1);
      assert seq(n, _ => Ready)[..n - 1] == seq(n - 1, _ => Ready);
    }
  }

  /** No schedule is longer than two steps an item and one a worker: the workers all return. */
  lemma {:induction false} Ends<R>(acts: seq<Act<R>>, count: nat, limit: nat)
    requires After(Initial(count, limit), acts, count).Some?
    ensures var p := After(Initial(count, limit), acts, count).value;
            p.next <= count && |acts| + 2 * (count - p.next) + Weight(p.workers) == 2 * count + Min(limit, count)
  {
    if acts == [] {
      WeightInitially(Min(limit, count));
    } else {
      Ends(acts[..|acts| - 1], count, limit);
      hide Initial;
      var p, a := After<R>(Initial(count, limit), acts[..|acts| - 1], count).value, acts[|acts| - 1];
      WeightChanges(p.workers, a.worker, Next(p, a, count).workers[a.worker]);
    }
  }

  /** Until the last worker has returned some step is possible. */
  lemma NeverStuck<R>(p: Pool<R>, result: Option<R>)
    requires exists w | w in p.workers :: !w.Returned?
    ensures exists a: Act<R> :: Enabled(p, a) && (a.Settle? ==> a.result == result)
  {
    var w :| 0 <= w < |p.workers| && !p.workers[w].Returned?;
    assert Enabled(p, if p.workers[w].Ready? then Turn(w) else Settle(w, result));
  }

  /**
   * A schedule that can go no further, and every schedule comes to that, has settled everything it
   * started: every item with a result, or a failure that rejects the call.
   */
  lemma Completes<R(!new)>(acts: seq<Act<R>>, count: nat, limit: nat)
    requires After(Initial(count, limit), acts, count).Some? && limit > 0
    requires forall a: Act<R> :: !Enabled(After(Initial(count, limit), acts, count).value, a)
    ensures |acts| <= 2 * count + Min(limit, count)
    ensures var p := After(Initial(count, limit), acts, count).value;
            && (forall i: nat :: i in p.settled <==> i < p.next)
            && (!p.failed ==> p.next == count && forall i: nat | i < count :: i in p.settled && p.settled[i].Some?)
            && (p.failed ==> exists i: nat | i < p.next :: p.settled[i].None?)
  {
    hide After, Initial, Enabled, Min;
    var p := After<R>(Initial(count, limit), acts, count).value;
    Ends(acts, count, limit);
    if exists w | w in p.workers :: !w.Returned? { NeverStuck(p, None); }
    Finished(acts, count, limit);
  }
}
