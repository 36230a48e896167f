/**
Interleavings: the events of a lawful run whose attempts stay in their session may come in any order
that keeps each session's own.
*/
module Interleaving {
  import opened Protocol
  import opened Lifecycle
  import opened Soundness
  import opened SessionBlocks
  import opened SessionLocality
  import opened Meaning
  import Sorting
  import Replay

  /** The events of each session stand in the order of their sequence numbers. */
  ghost predicate InSequence(log: seq<Event>) {
    forall i, j | 0 <= i < j < |log| && log[i].sessionId == log[j].sessionId :: log[i].sequence < log[j].sequence
  }

  /** A part of a lawful log, as another order of its events has it. */
  ghost predicate PartOf(before: seq<Event>, log: seq<Event>) {
    forall x | x in before :: x in log
  }

  lemma OtherInLog(log: seq<Event>, x: Event, e: Event)
    requires Lawful(log) && x in log && e in log && x != e
    ensures x.eventId != e.eventId && x.runId == e.runId && !(x.payload.RunFinished? && e.payload.RunFinished?)
    ensures x.payload.AttemptStarted? && e.payload.AttemptStarted? ==> x.payload.attemptId != e.payload.attemptId
    ensures x.payload.AttemptFinished? && e.payload.AttemptFinished? ==> x.payload.attemptId != e.payload.attemptId
    ensures x.payload.AttemptStarted? && e.payload.AttemptStarted? && x.payload.execution == e.payload.execution ==>
              && x.payload.number != e.payload.number && x.payload.identity == e.payload.identity
              && RunnerOf(log, x.sessionId) == RunnerOf(log, e.sessionId)
  {
    var i :| 0 <= i < |log| && log[i] == x;
    var j :| 0 <= j < |log| && log[j] == e;
    var a, b := if i < j then i else j, if i < j then j else i;
    IdentifiersAreUnique(log, a, b);
    if x.payload.AttemptStarted? && e.payload.AttemptStarted? && x.payload.execution == e.payload.execution {
      ExecutionsAreOneTest(log, a, b);
    }
  }

  /** What the part says about an attempt of a session it says in that session. */
  lemma SaidAtHome(log: seq<Event>, before: seq<Event>, s: string, a: string)
    requires Lawful(log) && StaysInSession(log) && PartOf(before, log) && a in Started(Of(before, s))
    ensures a in Started(before)
    ensures a in Finished(before) ==> a in Finished(Of(before, s))
    ensures StepsStarted(before, a) == StepsStarted(Of(before, s), a)
    ensures StepsFinished(before, a) == StepsFinished(Of(before, s), a)
  {
    OfMembers(before, s);
    var x :| x in Of(before, s) && x.payload.AttemptStarted? && x.payload.attemptId == a;
    forall e | e in before && AboutAttempt(e.payload) && e.payload.attemptId == a ensures e in Of(before, s) {
      StaysMeans(log, e, x);
    }
  }

  lemma PayloadTogether(log: seq<Event>, before: seq<Event>, e: Event)
    requires Lawful(log) && StaysInSession(log) && PartOf(before, log) && e in log && e !in before
    requires PayloadAdmissible(Of(before, e.sessionId), e)
    requires e.payload.AttemptStarted? ==>
               Of(before, e.sessionId) != []
               && forall x | x in before :: RunnerOf(before, x.sessionId) == RunnerOf(log, x.sessionId)
    ensures PayloadAdmissible(before, e)
  {
    var own := Of(before, e.sessionId);
    OfMembers(before, e.sessionId);
    assert Finished(own) <= Finished(before);
    match e.payload
    case RunFinished =>
      forall x | x in before ensures !x.payload.RunFinished? { OtherInLog(log, x, e); }
    case AttemptStarted(a, _, _, identity) => StartTogether(log, before, e);
    case AttemptFinished(a, _, _) => SaidAtHome(log, before, e.sessionId, a);
    case StepStarted(a, _, _) => SaidAtHome(log, before, e.sessionId, a);
    case StepFinished(a, _) => SaidAtHome(log, before, e.sessionId, a);
    case AttachmentAdded(a, _, _, _) => SaidAtHome(log, before, e.sessionId, a);
    case _ =>
  }

  lemma StartTogether(log: seq<Event>, before: seq<Event>, e: Event)
    requires Lawful(log) && PartOf(before, log) && e in log && e !in before && e.payload.AttemptStarted?
    requires PayloadAdmissible(Of(before, e.sessionId), e) && Of(before, e.sessionId) != []
    requires forall x | x in before :: RunnerOf(before, x.sessionId) == RunnerOf(log, x.sessionId)
    ensures PayloadAdmissible(before, e)
  {
    var own := Of(before, e.sessionId);
    OfMembers(before, e.sessionId);
    OfOwn(own, e.sessionId);
    assert own[0] in own;
    assert RunnerOf(own, e.sessionId) == RunnerOf(before, e.sessionId) == RunnerOf(log, e.sessionId);
    forall x | x in before && x.payload.AttemptStarted?
      ensures x.payload.attemptId != e.payload.attemptId
      ensures x.payload.execution == e.payload.execution ==>
                && x.payload.number != e.payload.number && x.payload.identity == e.payload.identity
                && RunnerOf(before, x.sessionId) == RunnerOf(before, e.sessionId)
    {
      OtherInLog(log, x, e);
    }
  }

  /** In an order that keeps each session's own, a prefix holds a prefix of each session. */
  lemma {:induction false} OfPrefix(log: seq<Event>, i: nat, s: string)
    requires i <= |log|
    ensures Of(log[..i], s) <= Of(log, s)
    ensures i < |log| && log[i].sessionId == s ==> |Of(log[..i], s)| < |Of(log, s)| && Of(log, s)[|Of(log[..i], s)|] == log[i]
    decreases |log|
  {
    if i == |log| {
      assert log[..i] == log;
    } else {
      var before := log[..|log| - 1];
      assert before[..i] == log[..i];
      OfPrefix(before, i, s);
    }
  }

  lemma RunnersPrefix(log: seq<Event>, other: seq<Event>, i: nat)
    requires i <= |other| && forall s :: Of(other, s) == Of(log, s)
    ensures forall x | x in other[..i] :: RunnerOf(other[..i], x.sessionId) == RunnerOf(log, x.sessionId)
  {
    forall x | x in other[..i] ensures RunnerOf(other[..i], x.sessionId) == RunnerOf(log, x.sessionId) {
      OfPrefix(other, i, x.sessionId);
      OfMembers(other[..i], x.sessionId);
      assert x in Of(other[..i], x.sessionId);
    }
  }

  lemma NotYet(log: seq<Event>, i: nat)
    requires Distinct(log) && i < |log|
    ensures log[i] !in log[..i]
  {
  }

  lemma NumberedAt(es: seq<Event>, s: string, k: nat)
    requires WellNumbered(es) && k < |es|
    ensures es[k].sequence == k + 1 && (es[k].payload.SessionStarted? <==> k == 0)
    ensures SessionClosed(es[..k], s) ==> es[k].payload.RunFinished?
  {
    if x :| x in es[..k] && x.sessionId == s && x.payload.SessionFinished? {
      var i :| 0 <= i < k && es[i] == x;
    }
  }

  /** What the event's own session asks of it, it asks in any order. */
  lemma OwnSession(log: seq<Event>, s: string, k: nat)
    requires Lawful(log) && StaysInSession(log) && k < |Of(log, s)|
    ensures var own, e := Of(log, s)[..k], Of(log, s)[k];
            && PayloadAdmissible(own, e) && e.sequence == k + 1
            && (e.payload.SessionStarted? <==> k == 0)
            && (SessionClosed(own, s) ==> e.payload.RunFinished?)
  {
    hide Lawful, PayloadAdmissible, StaysInSession, Of, WellNumbered, SessionClosed, Admissible;
    SessionsAreNumbered(log, s);
    SessionsStandAlone(log, s);
    NumberedAt(Of(log, s), s, k);
    LawfulAt(Of(log, s), k);
    AdmissiblePayload(Of(log, s)[..k], Of(log, s)[k]);
  }

  /** Nothing that came before shares the event's id or names another run. */
  lemma IdsTogether(log: seq<Event>, other: seq<Event>, i: nat)
    requires Lawful(log) && Distinct(other) && SameEvents(log, other) && i < |other|
    ensures PartOf(other[..i], log) && other[i] in log && other[i] !in other[..i]
    ensures forall x | x in other[..i] :: x.eventId != other[i].eventId && x.runId == other[i].runId
  {
    hide Lawful;
    NotYet(other, i);
    assert other[i] in other;
    forall x | x in other[..i] ensures x in log && x.eventId != other[i].eventId && x.runId == other[i].runId {
      assert x in other;
      OtherInLog(log, x, other[i]);
    }
  }

  lemma ClosedAtHome(log: seq<Event>, s: string)
    ensures SessionClosed(log, s) <==> SessionClosed(Of(log, s), s)
  {
    OfMembers(log, s);
  }

  /** The part of the event's session that has come before it, as the log has it. */
  lemma OwnBefore(log: seq<Event>, other: seq<Event>, i: nat)
    requires i < |other| && Of(other, other[i].sessionId) == Of(log, other[i].sessionId)
    ensures var s, own := other[i].sessionId, Of(other[..i], other[i].sessionId);
            |own| < |Of(log, s)| && own == Of(log, s)[..|own|] && Of(log, s)[|own|] == other[i]
  {
    hide Of;
    OfPrefix(other, i, other[i].sessionId);
  }

  lemma OwnRules(log: seq<Event>, other: seq<Event>, i: nat)
    requires Lawful(log) && StaysInSession(log) && i < |other| && Of(other, other[i].sessionId) == Of(log, other[i].sessionId)
    ensures var s, own, e := other[i].sessionId, Of(other[..i], other[i].sessionId), other[i];
            && PayloadAdmissible(own, e) && e.sequence == |own| + 1
            && (e.payload.SessionStarted? <==> own == [])
            && (SessionClosed(other[..i], s) ==> e.payload.RunFinished?)
  {
    hide Lawful, StaysInSession, Of, PayloadAdmissible, SessionClosed;
    OwnBefore(log, other, i);
    OwnSession(log, other[i].sessionId, |Of(other[..i], other[i].sessionId)|);
    ClosedAtHome(other[..i], other[i].sessionId);
  }

  lemma AdmissibleTogether(log: seq<Event>, other: seq<Event>, i: nat)
    requires Lawful(log) && StaysInSession(log) && Distinct(other) && SameEvents(log, other) && i < |other|
    requires forall s :: Of(other, s) == Of(log, s)
    ensures Admissible(other[..i], other[i])
  {
    hide Lawful, StaysInSession, Of, PayloadAdmissible, Distinct, SameEvents, SessionClosed, PartOf, RunnerOf;
    OwnRules(log, other, i);
    RunnersPrefix(log, other, i);
    IdsTogether(log, other, i);
    PayloadTogether(log, other[..i], other[i]);
  }

  /** Events in an order that keeps each session's own are lawful. */
  lemma {:induction false} MergeContinues(log: seq<Event>, other: seq<Event>, i: nat)
    requires Lawful(log) && StaysInSession(log) && Distinct(other) && SameEvents(log, other) && i <= |other|
    requires forall s :: Of(other, s) == Of(log, s)
    ensures Lawful(other[..i])
  {
    hide Admissible, StaysInSession;
    if i > 0 {
      MergeContinues(log, other, i - 1);
      AdmissibleTogether(log, other, i - 1);
      assert other[..i][..i - 1] == other[..i - 1] && [] + other[..i - 1] == other[..i - 1];
    }
  }

  lemma {:induction false} OfInSequence(log: seq<Event>, s: string)
    requires InSequence(log)
    ensures Sorting.Strict(Of(log, s), Replay.SequenceLe)
  {
    if log != [] {
      var before, e := log[..|log| - 1], log[|log| - 1];
      OfInSequence(before, s);
      OfMembers(before, s);
      var own := Of(before, s);
      if e.sessionId == s {
        forall i | 0 <= i < |own| ensures own[i].sequence < e.sequence {
          assert own[i] in own;
          var k :| 0 <= k < |before| && before[k] == own[i];
          assert log[k] == own[i];
        }
      }
    }
  }

  lemma SequenceKeepsSessions(log: seq<Event>, other: seq<Event>, s: string)
    requires Lawful(log) && SameEvents(log, other) && InSequence(other)
    ensures Of(other, s) == Of(log, s)
  {
    OfInSequence(other, s);
    SessionsAreNumbered(log, s);
    Replay.NumberedStrict(Of(log, s));
    OfMembers(log, s);
    OfMembers(other, s);
    Sorting.StrictUnique(Of(other, s), Of(log, s), Replay.SequenceLe);
  }

  lemma LawfulInSequence(log: seq<Event>)
    requires Lawful(log)
    ensures InSequence(log)
  {
    forall i, j | 0 <= i < j < |log| && log[i].sessionId == log[j].sessionId ensures log[i].sequence < log[j].sequence {
      LawfulAt(log, j);
      var s := log[j].sessionId;
      var own := Of(log[..j], s);
      SessionsAreNumbered(log[..j], s);
      OfMembers(log[..j], s);
      assert log[i] in log[..j];
      assert log[i] in own;
    }
  }

  /**
   * Another order of a lawful run's events is lawful exactly when it has each session's events in
   * sequence, provided the run's attempts stay in their session.
   */
  lemma InterleavingExact(log: seq<Event>, other: seq<Event>)
    requires Lawful(log) && StaysInSession(log) && Distinct(other) && SameEvents(log, other)
    ensures Lawful(other) <==> InSequence(other)
  {
    hide Lawful, StaysInSession, InSequence;
    if Lawful(other) { LawfulInSequence(other); }
    if InSequence(other) {
      forall s ensures Of(other, s) == Of(log, s) { SequenceKeepsSessions(log, other, s); }
      MergeContinues(log, other, |other|);
      assert other[..|other|] == other;
    }
  }
}
