/**
Uploading a run over a network that loses answers: the client's attempt loop, and what it comes to
against an archive that recognises the same content.
*/
module Delivery {
  import opened Protocol
  import opened RunStore
  import opened StoreSafety
  import opened StoreIdentity
  import opened StoreConflict

  /** What one attempt came to, as the client sees it. */
  datatype Reply =
    | Unreachable(retriable: bool)
    | DirectoryChanged
    | Aborted
    | Answered(status: nat, readable: bool)

  datatype Reading = Done | Rejected(code: nat) | Again | Stopped(reply: Reply)

  /** The last attempt made, and what it was. */
  datatype Upload = Delivered(attempts: nat) | Refused(attempts: nat, status: nat) | Ended(attempts: nat, why: Reply) | Undelivered(attempts: nat)

  const RETRIABLE_STATUSES: set<nat> := {408, 425, 429, 500, 502, 503, 504}

  const CONFLICT: nat := 409

  /** A success that cannot be read may have archived the run, and is asked again. */
  function Read(reply: Reply): Reading {
    match reply
    case Unreachable(retriable) => if retriable then Again else Stopped(reply)
    case DirectoryChanged => Stopped(reply)
    case Aborted => Stopped(reply)
    case Answered(status, readable) =>
      if status == 200 || status == 201 then (if readable then Done else Again)
      else if status in RETRIABLE_STATUSES then Again
      else Reading.Rejected(status)
  }

  function Concluded(reply: Reply, attempt: nat): Upload
    requires Read(reply) != Again
  {
    match Read(reply)
    case Done => Delivered(attempt)
    case Rejected(code) => Refused(attempt, code)
    case Stopped(why) => Upload.Ended(attempt, why)
  }

  /** The first reply that settles the upload settles it; without one it is undelivered. */
  ghost predicate Settles(replies: seq<Reply>, upload: Upload) {
    var n := upload.attempts;
    && n <= |replies|
    && (forall k | 0 <= k < n - 1 :: Read(replies[k]) == Again)
    && (if upload.Undelivered? then n == |replies| && (n > 0 ==> Read(replies[n - 1]) == Again)
        else n > 0 && Read(replies[n - 1]) != Again && upload == Concluded(replies[n - 1], n))
  }

  /** `replies[k]` is what attempt `k + 1` would come to; there are as many as attempts allowed. */
  method Deliver(replies: seq<Reply>) returns (upload: Upload)
    ensures Settles(replies, upload)
    ensures forall other :: Settles(replies, other) ==> other == upload
  {
    for k := 0 to |replies|
      invariant forall i | 0 <= i < k :: Read(replies[i]) == Again
    {
      match Read(replies[k])
      case Done => return Delivered(k + 1);
      case Rejected(code) => return Refused(k + 1, code);
      case Stopped(why) => return Upload.Ended(k + 1, why);
      case Again =>
    }
    upload := Undelivered(|replies|);
  }

  // ---------------------------------------------------------------- against the archive

  /** The state of the store before the step at `k`. */
  ghost function Before(s: Store, acts: seq<Act>, k: nat, rules: Rules): Option<Store>
    requires k <= |acts|
  {
    After(s, acts[..k], rules)
  }

  /** The step at `k` is where an ingestion of the offer learns its outcome. */
  ghost predicate Learns(s: Store, acts: seq<Act>, k: nat, rules: Rules, o: Offer, outcome: Outcome) {
    && k < |acts| && (acts[k].Look? || acts[k].Archive? || acts[k].Complete?)
    && Before(s, acts, k, rules).Some? && Enabled(Before(s, acts, k, rules).value, acts[k], rules)
    && Before(s, acts, k, rules).value.processes[acts[k].pid].offer == o
    && NextProcess(Before(s, acts, k, rules).value, acts[k], rules) == Some(Leaving(o, outcome))
  }

  /** The run is archived before every step from `i` to `j`. */
  ghost predicate HeldThrough(s: Store, acts: seq<Act>, i: nat, j: nat, rules: Rules, key: RunKey)
    requires j <= |acts|
  {
    forall m | i <= m <= j :: Before(s, acts, m, rules).Some? && key in Before(s, acts, m, rules).value.tables.runs
  }

  /**
   * Attempts, each with the step at which the service learnt its outcome if it got that far; an
   * attempt given up by the client may still be at work when the next one starts. The service says
   * 409 of a conflict and of nothing else; any other answer may be lost, cut short or replaced on
   * the way.
   */
  ghost predicate Attempts(s: Store, acts: seq<Act>, rules: Rules, o: Offer, learnt: seq<Option<nat>>, replies: seq<Reply>) {
    && |learnt| == |replies|
    && (forall i | 0 <= i < |replies| && replies[i].Answered? && replies[i].status == CONFLICT ::
          learnt[i].Some? && Learns(s, acts, learnt[i].value, rules, o, Conflict))
  }

  lemma AfterStep(s: Store, acts: seq<Act>, k: nat, rules: Rules)
    requires k < |acts| && Before(s, acts, k + 1, rules).Some?
    ensures Before(s, acts, k, rules).Some? && Enabled(Before(s, acts, k, rules).value, acts[k], rules)
    ensures Before(s, acts, k + 1, rules).value == Next(Before(s, acts, k, rules).value, acts[k], rules)
  {
    hide Enabled, Next;
    assert acts[..k + 1][..k] == acts[..k];
    AfterLast(s, acts[..k + 1], rules);
  }

  /** While it is archived a run keeps its fingerprint. */
  lemma {:induction false} FingerprintStays(s: Store, acts: seq<Act>, i: nat, j: nat, rules: Rules, key: RunKey)
    requires Steady(s, rules) && i <= j <= |acts|
    requires HeldThrough(s, acts, i, j, rules, key)
    ensures Before(s, acts, j, rules).value.tables.runs[key] == Before(s, acts, i, rules).value.tables.runs[key]
    decreases j
  {
    hide Steady, Next, Enabled, After;
    if i < j {
      FingerprintStays(s, acts, i, j - 1, rules, key);
      AfterStep(s, acts, j - 1, rules);
      AlwaysSteady(s, acts[..j - 1], rules);
      SteadyTables(After(s, acts[..j - 1], rules).value, rules);
      KeptTables(Before(s, acts, j - 1, rules).value, acts[j - 1], rules, key);
    }
  }

  predicate Success(outcome: Outcome) {
    outcome == Inserted || outcome == AlreadyPresent
  }

  /** Whichever transaction succeeds, the run is then archived with the content of the offer. */
  lemma SuccessHolds(s: Store, a: Act, rules: Rules, o: Offer, outcome: Outcome)
    requires Steady(s, rules) && Recognised(s) && Success(outcome)
    requires Enabled(s, a, rules) && (a.Look? || a.Archive? || a.Complete?) && s.processes[a.pid].offer == o
    requires NextProcess(s, a, rules) == Some(Leaving(o, outcome))
    ensures o.key in Next(s, a, rules).tables.runs && Next(s, a, rules).tables.runs[o.key].fingerprint == o.fingerprint
  {
    hide Honest, Picks, Referenced, RunStore.Recorded, SizesAgree, Current;
    if a.Complete? {
      assert Recognises(s.processes[a.pid], s.tables.runs);
    }
  }

  /** An offer is refused as a conflict only over other content. */
  lemma ConflictIsOther(s: Store, acts: seq<Act>, k: nat, rules: Rules, o: Offer)
    requires Learns(s, acts, k, rules, o, Conflict)
    ensures var runs := Before(s, acts, k, rules).value.tables.runs;
            o.key in runs && runs[o.key].fingerprint != o.fingerprint
  {
    hide Honest, Picks, Referenced, Before, After, Completed, Inserting, Joining;
  }

  lemma SameStepSameOutcome(s: Store, acts: seq<Act>, k: nat, rules: Rules, o: Offer, a: Outcome, b: Outcome)
    requires Learns(s, acts, k, rules, o, a) && Learns(s, acts, k, rules, o, b)
    ensures a == b
  {
    hide NextProcess, Enabled, Before;
  }

  lemma LearntBefore(s: Store, acts: seq<Act>, k: nat, rules: Rules, o: Offer, outcome: Outcome)
    requires Learns(s, acts, k, rules, o, outcome)
    ensures k < |acts| && Before(s, acts, k, rules).Some? && Enabled(Before(s, acts, k, rules).value, acts[k], rules)
    ensures NextProcess(Before(s, acts, k, rules).value, acts[k], rules) == Some(Leaving(o, outcome))
    ensures Before(s, acts, k, rules).value.processes[acts[k].pid].offer == o
  {
    hide NextProcess, Enabled, Before;
  }

  /** Between a success and a conflict of one offer its run was deleted, whoever made the attempts. */
  lemma ConflictAfterSuccess(s: Store, acts: seq<Act>, k: nat, m: nat, rules: Rules, o: Offer, outcome: Outcome)
    requires Steady(s, rules) && Recognised(s) && k < m
    requires Learns(s, acts, k, rules, o, outcome) && Success(outcome)
    requires Learns(s, acts, m, rules, o, Conflict)
    ensures !HeldThrough(s, acts, k + 1, m, rules, o.key)
  {
    LearntBefore(s, acts, k, rules, o, outcome);
    LearntBefore(s, acts, m, rules, o, Conflict);
    hide Next, NextProcess, Steady, Enabled, Learns, Recognised, After;
    ConflictIsOther(s, acts, m, rules, o);
    AlwaysSteady(s, acts[..k], rules);
    AlwaysRecognised(s, acts[..k], rules);
    SuccessHolds(Before(s, acts, k, rules).value, acts[k], rules, o, outcome);
    if HeldThrough(s, acts, k + 1, m, rules, o.key) {
      FingerprintStays(s, acts, k + 1, m, rules, o.key);
      AfterStep(s, acts, k, rules);
      assert false;
    }
  }

  lemma LastIsConflict(s: Store, acts: seq<Act>, rules: Rules, o: Offer, learnt: seq<Option<nat>>, replies: seq<Reply>, upload: Upload)
    requires Attempts(s, acts, rules, o, learnt, replies) && Settles(replies, upload) && upload.Refused? && upload.status == CONFLICT
    ensures 0 < upload.attempts <= |learnt| && learnt[upload.attempts - 1].Some?
    ensures Learns(s, acts, learnt[upload.attempts - 1].value, rules, o, Conflict)
  {
    hide Learns;
    var last := upload.attempts - 1;
    assert replies[last].Answered? && replies[last].status == CONFLICT;
  }

  /**
   * A client that retries after a lost answer never meets a conflict of its own making: if an
   * upload ends with 409 although the same offer had succeeded before, at step `k` and in whatever
   * transaction, then the run was deleted in between.
   */
  lemma NeverOwnConflict(s: Store, acts: seq<Act>, rules: Rules, o: Offer, learnt: seq<Option<nat>>, replies: seq<Reply>,
                         upload: Upload, k: nat, outcome: Outcome)
    requires Steady(s, rules) && Recognised(s) && Attempts(s, acts, rules, o, learnt, replies)
    requires Settles(replies, upload) && upload.Refused? && upload.status == CONFLICT
    requires Success(outcome) && Learns(s, acts, k, rules, o, outcome)
    ensures 0 < upload.attempts <= |learnt|
    ensures var last := learnt[upload.attempts - 1];
            && last.Some? && last.value < |acts| && last.value != k
            && (k < last.value ==> !HeldThrough(s, acts, k + 1, last.value, rules, o.key))
  {
    LastIsConflict(s, acts, rules, o, learnt, replies, upload);
    var m := learnt[upload.attempts - 1].value;
    hide Learns, Steady, Attempts, Settles, Recognised;
    if m == k { SameStepSameOutcome(s, acts, k, rules, o, outcome, Conflict); }
    LearntBefore(s, acts, m, rules, o, Conflict);
    if k < m { ConflictAfterSuccess(s, acts, k, m, rules, o, outcome); }
  }
}
