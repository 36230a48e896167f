/**
When can the events of each session stand alone?

The validator does not tie the later events of an attempt to the session that started it. A
lawful log splits into lawful sessions exactly when every event about an attempt comes from the
session that started the attempt.
*/
module SessionLocality {
  import opened Protocol
  import opened Lifecycle
  import opened Soundness
  import opened SessionBlocks

  predicate AboutAttempt(p: Payload) {
    p.AttemptFinished? || p.StepStarted? || p.StepFinished? || p.AttachmentAdded?
  }

  /** Every event about an attempt comes from the session that started the attempt. */
  ghost predicate StaysInSession(log: seq<Event>) {
    forall e | e in log && AboutAttempt(e.payload) :: e.payload.attemptId in Started(Of(log, e.sessionId))
  }

  lemma OneStart(log: seq<Event>, x: Event, y: Event)
    requires Lawful(log) && x in log && y in log && x.payload.AttemptStarted? && y.payload.AttemptStarted?
    requires x.payload.attemptId == y.payload.attemptId
    ensures x == y
  {
    var i :| 0 <= i < |log| && log[i] == x;
    var j :| 0 <= j < |log| && log[j] == y;
    if i < j { IdentifiersAreUnique(log, i, j); }
    if j < i { IdentifiersAreUnique(log, j, i); }
  }

  lemma StaysMeans(log: seq<Event>, e: Event, x: Event)
    requires Lawful(log) && StaysInSession(log) && e in log && AboutAttempt(e.payload)
    requires x in log && x.payload.AttemptStarted? && x.payload.attemptId == e.payload.attemptId
    ensures x.sessionId == e.sessionId
  {
    OfMembers(log, e.sessionId);
    var y :| y in Of(log, e.sessionId) && y.payload.AttemptStarted? && y.payload.attemptId == e.payload.attemptId;
    OneStart(log, x, y);
  }

  lemma StaysPrefix(log: seq<Event>)
    requires Lawful(log) && StaysInSession(log) && log != []
    ensures StaysInSession(log[..|log| - 1])
  {
    var before := log[..|log| - 1];
    LawfulAt(log, |log| - 1);
    forall e | e in before && AboutAttempt(e.payload) ensures e.payload.attemptId in Started(Of(before, e.sessionId)) {
      var i :| 0 <= i < |before| && before[i] == e;
      InsideTheirAttempt(before, i);
      var x :| x in before[..i] && x.payload.AttemptStarted? && x.payload.attemptId == e.payload.attemptId;
      assert x in before && x in log && e in log;
      StaysMeans(log, e, x);
      OfMembers(before, e.sessionId);
    }
  }

  lemma StartedInside(log: seq<Event>, s: string, a: string)
    requires a in Started(Of(log, s))
    ensures exists x | x in log :: x.sessionId == s && x.payload.AttemptStarted? && x.payload.attemptId == a
  {
    OfMembers(log, s);
    var x :| x in Of(log, s) && x.payload.AttemptStarted? && x.payload.attemptId == a;
  }

  /** What is said about an attempt of a session is said in that session. */
  lemma OwnReferences(log: seq<Event>, s: string, a: string)
    requires Lawful(log) && StaysInSession(log) && a in Started(Of(log, s))
    ensures a in Finished(log) <==> a in Finished(Of(log, s))
    ensures StepsStarted(log, a) == StepsStarted(Of(log, s), a)
    ensures StepsFinished(log, a) == StepsFinished(Of(log, s), a)
  {
    OfMembers(log, s);
    StartedInside(log, s, a);
    var x :| x in log && x.sessionId == s && x.payload.AttemptStarted? && x.payload.attemptId == a;
    forall e | e in log && AboutAttempt(e.payload) && e.payload.attemptId == a ensures e in Of(log, s) {
      StaysMeans(log, e, x);
    }
  }

  lemma LocalStart(before: seq<Event>, e: Event)
    requires Lawful(before + [e]) && StaysInSession(before + [e]) && AboutAttempt(e.payload)
    ensures e.payload.attemptId in Started(Of(before, e.sessionId))
  {
    var log := before + [e];
    InsideTheirAttempt(log, |before|);
    assert log[..|before|] == before;
    var x :| x in before && x.payload.AttemptStarted? && x.payload.attemptId == e.payload.attemptId;
    assert x in log && e in log;
    StaysMeans(log, e, x);
    OfMembers(before, e.sessionId);
  }

  lemma LocalSessionFinish(before: seq<Event>, e: Event)
    requires Lawful(before) && StaysInSession(before) && e.payload.SessionFinished? && PayloadAdmissible(before, e)
    ensures PayloadAdmissible(Of(before, e.sessionId), e)
  {
    var own := Of(before, e.sessionId);
    OfMembers(before, e.sessionId);
    forall x | x in own && x.payload.AttemptStarted? ensures x.payload.attemptId in Finished(own) {
      assert x.payload.attemptId in Started(own);
      OwnReferences(before, e.sessionId, x.payload.attemptId);
    }
  }

  lemma LocalAttemptBegin(before: seq<Event>, e: Event)
    requires e.payload.AttemptStarted? && PayloadAdmissible(before, e)
    ensures PayloadAdmissible(Of(before, e.sessionId), e)
  {
    var own := Of(before, e.sessionId);
    OfMembers(before, e.sessionId);
    OfOwn(own, e.sessionId);
    assert Started(own) <= Started(before);
  }

  lemma LocalPayloadAlone(before: seq<Event>, e: Event)
    requires Lawful(before) && StaysInSession(before) && PayloadAdmissible(before, e)
    requires AboutAttempt(e.payload) ==> e.payload.attemptId in Started(Of(before, e.sessionId))
    ensures PayloadAdmissible(Of(before, e.sessionId), e)
  {
    hide Lawful, StaysInSession;
    OfMembers(before, e.sessionId);
    if AboutAttempt(e.payload) {
      OwnReferences(before, e.sessionId, e.payload.attemptId);
    } else if e.payload.SessionFinished? {
      LocalSessionFinish(before, e);
    } else if e.payload.AttemptStarted? {
      LocalAttemptBegin(before, e);
    }
  }

  lemma AdmissibleAlone(before: seq<Event>, e: Event)
    requires Admissible(before, e) && PayloadAdmissible(Of(before, e.sessionId), e)
    ensures Admissible(Of(before, e.sessionId), e)
  {
    hide PayloadAdmissible;
    OfMembers(before, e.sessionId);
    OfOwn(Of(before, e.sessionId), e.sessionId);
  }

  /** In such a log every session is lawful by itself. */
  lemma {:induction false} SessionsStandAlone(log: seq<Event>, s: string)
    requires Lawful(log) && StaysInSession(log)
    ensures Lawful(Of(log, s))
  {
    hide StaysInSession, Admissible, PayloadAdmissible;
    if log != [] {
      var before, e := log[..|log| - 1], log[|log| - 1];
      assert log == before + [e];
      assert log[..|before|] == before;
      LawfulAt(log, |log| - 1);
      StaysPrefix(log);
      SessionsStandAlone(before, s);
      if e.sessionId == s {
        var own := Of(before, s);
        if AboutAttempt(e.payload) { LocalStart(before, e); }
        AdmissiblePayload(before, e);
        LocalPayloadAlone(before, e);
        AdmissibleAlone(before, e);
        assert (own + [e])[..|own|] == own && [] + own == own;
      } else {
        assert Of(log, s) == Of(before, s);
      }
    }
  }

  lemma AdmissiblePayload(log: seq<Event>, e: Event)
    requires Admissible(log, e)
    ensures PayloadAdmissible(log, e)
  {
  }

  /** And only in such a log. */
  lemma AloneStays(log: seq<Event>)
    requires forall s :: Lawful(Of(log, s))
    ensures StaysInSession(log)
  {
    forall e | e in log && AboutAttempt(e.payload) ensures e.payload.attemptId in Started(Of(log, e.sessionId)) {
      var own := Of(log, e.sessionId);
      OfMembers(log, e.sessionId);
      assert e in own;
      var i :| 0 <= i < |own| && own[i] == e;
      InsideTheirAttempt(own, i);
      assert Started(own[..i]) <= Started(own);
    }
  }

  lemma PairOf(log: seq<Event>, p: Event, e: Event)
    requires Lawful(log) && p in log && e in log && p.sessionId != e.sessionId
    ensures Pair(p, RunnerOf(log, p.sessionId), e, RunnerOf(log, e.sessionId))
  {
    var i :| 0 <= i < |log| && log[i] == p;
    var j :| 0 <= j < |log| && log[j] == e;
    PairAt(log, i, j);
  }

  lemma PairAt(log: seq<Event>, i: nat, j: nat)
    requires Lawful(log) && i < |log| && j < |log| && i != j
    ensures Pair(log[i], RunnerOf(log, log[i].sessionId), log[j], RunnerOf(log, log[j].sessionId))
  {
    var a, b := if i < j then i else j, if i < j then j else i;
    IdentifiersAreUnique(log, a, b);
    if log[a].payload.AttemptStarted? && log[b].payload.AttemptStarted? && log[a].payload.execution == log[b].payload.execution {
      ExecutionsAreOneTest(log, a, b);
    }
  }

  /** The sessions of one lawful log never clash. */
  lemma SessionsCompatible(log: seq<Event>, s: string, t: string)
    requires Lawful(log) && s != t
    ensures Compatible(Of(log, s), Of(log, t))
  {
    hide Pair;
    OfMembers(log, s);
    OfMembers(log, t);
    OfOwn(Of(log, s), s);
    OfOwn(Of(log, t), t);
    forall p, e | p in Of(log, s) && e in Of(log, t)
      ensures Pair(p, RunnerOf(Of(log, s), p.sessionId), e, RunnerOf(Of(log, t), e.sessionId))
    {
      PairOf(log, p, e);
    }
  }

  /** A lawful log with finished sessions divides into coherent sessions exactly when attempts stay home. */
  lemma DividesExactly(log: seq<Event>, sessions: seq<string>, blocks: seq<seq<Event>>)
    requires Lawful(log) && |blocks| == |sessions|
    requires forall i | 0 <= i < |sessions| :: blocks[i] == Of(log, sessions[i])
    requires forall i, j | 0 <= i < j < |sessions| :: sessions[i] != sessions[j]
    requires forall e | e in log :: e.sessionId in sessions
    ensures Coherent(blocks) <==> StaysInSession(log)
  {
    hide Compatible, StaysInSession, Lawful;
    forall i, j | 0 <= i < j < |blocks| ensures Compatible(blocks[i], blocks[j]) {
      SessionsCompatible(log, sessions[i], sessions[j]);
    }
    if StaysInSession(log) {
      forall i | 0 <= i < |blocks| ensures Lawful(blocks[i]) { SessionsStandAlone(log, sessions[i]); }
    }
    if Coherent(blocks) {
      forall s ensures Lawful(Of(log, s)) {
        if s in sessions {
          var i :| 0 <= i < |sessions| && sessions[i] == s;
          assert Lawful(blocks[i]);
        } else {
          OfForeign(log, s);
          EmptyCompatible([]);
        }
      }
      AloneStays(log);
    }
  }
}
