/**
Runs made of one block of events per session.

A block of a finished session can be judged alone: next to other finished sessions it is lawful
exactly when it is lawful by itself and compatible with each of them. Compatibility is symmetric,
so the order of the blocks does not matter.
*/
module SessionBlocks {
  import opened Protocol
  import opened Lifecycle
  import opened Soundness

  // ---------------------------------------------------------------- parts of a log

  lemma {:induction false} OfJoin(a: seq<Event>, b: seq<Event>, s: string)
    ensures Of(a + b, s) == Of(a, s) + Of(b, s)
  {
    if b == [] {
      assert a + b == a;
    } else {
      var before, e := b[..|b| - 1], b[|b| - 1];
      OfJoin(a, before, s);
      assert a + b == a + before + [e];
      OfSnoc(a + before, e, s);
    }
  }

  lemma {:induction false} OfOwn(es: seq<Event>, s: string)
    requires forall e | e in es :: e.sessionId == s
    ensures Of(es, s) == es
  {
    if es != [] {
      OfOwn(es[..|es| - 1], s);
      assert es[|es| - 1] in es;
    }
  }

  lemma OfForeign(es: seq<Event>, s: string)
    requires forall e | e in es :: e.sessionId != s
    ensures Of(es, s) == []
  {
    OfMembers(es, s);
    if Of(es, s) != [] { assert Of(es, s)[0] in Of(es, s); }
  }

  lemma SetsJoin(a: seq<Event>, b: seq<Event>, attempt: string)
    ensures Started(a + b) == Started(a) + Started(b) && Finished(a + b) == Finished(a) + Finished(b)
    ensures StepsStarted(a + b, attempt) == StepsStarted(a, attempt) + StepsStarted(b, attempt)
    ensures StepsFinished(a + b, attempt) == StepsFinished(a, attempt) + StepsFinished(b, attempt)
  {
    assert forall e :: e in a + b <==> e in a || e in b;
  }

  /** Everything a lawful log says about an attempt comes after its start. */
  lemma ReferencesAreStarted(log: seq<Event>, a: string)
    requires Lawful(log) && a !in Started(log)
    ensures a !in Finished(log) && StepsStarted(log, a) == {} && StepsFinished(log, a) == {}
  {
    forall e | e in log && (e.payload.AttemptFinished? || e.payload.StepStarted? || e.payload.StepFinished?)
      ensures e.payload.attemptId != a
    {
      var i :| 0 <= i < |log| && log[i] == e;
      InsideTheirAttempt(log, i);
      assert Started(log[..i]) <= Started(log);
    }
  }

  // ---------------------------------------------------------------- compatibility

  ghost predicate Pair(p: Event, runnerP: Option<string>, e: Event, runnerE: Option<string>) {
    && p.eventId != e.eventId
    && p.runId == e.runId
    && !(p.payload.RunFinished? && e.payload.RunFinished?)
    && (p.payload.AttemptStarted? && e.payload.AttemptStarted? ==>
          && p.payload.attemptId != e.payload.attemptId
          && (p.payload.execution == e.payload.execution ==>
                && p.payload.number != e.payload.number
                && p.payload.identity == e.payload.identity
                && runnerP == runnerE))
  }

  /** No event of the one log forbids an event of the other. */
  ghost predicate Compatible(a: seq<Event>, b: seq<Event>) {
    forall p, e | p in a && e in b :: Pair(p, RunnerOf(a, p.sessionId), e, RunnerOf(b, e.sessionId))
  }

  lemma CompatibleSymmetric(a: seq<Event>, b: seq<Event>)
    requires Compatible(a, b)
    ensures Compatible(b, a)
  {
  }

  lemma CompatibleStarts(a: seq<Event>, b: seq<Event>)
    requires Compatible(a, b)
    ensures Started(a) !! Started(b)
  {
    forall p, e | p in a && e in b && p.payload.AttemptStarted? && e.payload.AttemptStarted?
      ensures p.payload.attemptId != e.payload.attemptId
    {
      assert Pair(p, RunnerOf(a, p.sessionId), e, RunnerOf(b, e.sessionId));
    }
  }

  /** Every session of the log has finished. */
  ghost predicate Closed(log: seq<Event>) {
    forall e | e in log :: SessionClosed(log, e.sessionId)
  }

  ghost predicate Settled(log: seq<Event>) {
    Lawful(log) && Closed(log)
  }

  lemma SettledAttempts(log: seq<Event>, a: string)
    requires Settled(log) && a in Started(log)
    ensures a in Finished(log) && StepsStarted(log, a) <= StepsFinished(log, a)
  {
    var x :| x in log && x.payload.AttemptStarted? && x.payload.attemptId == a;
    ClosedSessionsAreDone(log, x);
    FinishedAttemptsAreDone(log, a);
  }

  ghost predicate Own(es: seq<Event>, s: string) {
    forall e | e in es :: e.sessionId == s
  }

  ghost predicate Foreign(log: seq<Event>, s: string) {
    forall e | e in log :: e.sessionId != s
  }

  ghost predicate CrossOk(log: seq<Event>, e: Event, runner: Option<string>) {
    forall p | p in log :: Pair(p, RunnerOf(log, p.sessionId), e, runner)
  }

  /** The payload rules about attempts look only at the session's own block. */
  lemma LocalAttempts(log: seq<Event>, es: seq<Event>, e: Event)
    requires Settled(log) && Lawful(es) && Compatible(log, es)
    requires e.payload.AttemptFinished? || e.payload.StepStarted? || e.payload.StepFinished? || e.payload.AttachmentAdded?
    ensures PayloadAdmissible(log + es, e) <==> PayloadAdmissible(es, e)
  {
    var a := e.payload.attemptId;
    SetsJoin(log, es, a);
    CompatibleStarts(log, es);
    if a in Started(log) {
      SettledAttempts(log, a);
      ReferencesAreStarted(es, a);
    } else {
      ReferencesAreStarted(log, a);
    }
  }

  lemma LocalSessionEnd(log: seq<Event>, es: seq<Event>, e: Event)
    requires Settled(log) && Lawful(es) && Compatible(log, es) && e.payload.SessionFinished?
    requires Foreign(log, e.sessionId)
    ensures PayloadAdmissible(log + es, e) <==> PayloadAdmissible(es, e)
  {
    SetsJoin(log, es, "");
    CompatibleStarts(log, es);
    forall x | x in es && x.payload.AttemptStarted? ensures x.payload.attemptId !in Finished(log) {
      assert x.payload.attemptId in Started(es);
      ReferencesAreStarted(log, x.payload.attemptId);
    }
    assert forall x :: x in log + es <==> x in log || x in es;
  }

  lemma LocalAttemptStart(log: seq<Event>, es: seq<Event>, e: Event)
    requires e.payload.AttemptStarted? && Own(es, e.sessionId) && Foreign(log, e.sessionId)
    ensures Consistent(log + es, e) <==>
            && Consistent(es, e)
            && (forall p | p in log && p.payload.AttemptStarted? && p.payload.execution == e.payload.execution ::
                  && p.payload.number != e.payload.number && p.payload.identity == e.payload.identity
                  && RunnerOf(log, p.sessionId) == RunnerOf(es, e.sessionId))
  {
    OfJoin(log, es, e.sessionId);
    OfForeign(log, e.sessionId);
    forall p | p in log ensures RunnerOf(log + es, p.sessionId) == RunnerOf(log, p.sessionId) {
      OfJoin(log, es, p.sessionId);
      OfForeign(es, p.sessionId);
    }
    assert forall x :: x in log + es <==> x in log || x in es;
  }

  lemma LocalPayload(log: seq<Event>, es: seq<Event>, e: Event)
    requires Settled(log) && Lawful(es) && Compatible(log, es)
    requires Own(es, e.sessionId) && Foreign(log, e.sessionId)
    requires forall p | p in log :: p.eventId != e.eventId && p.runId == e.runId
    ensures PayloadAdmissible(log + es, e) <==> PayloadAdmissible(es, e) && CrossOk(log, e, RunnerOf(es, e.sessionId))
  {
    hide Lawful, Consistent, RunnerOf;
    match e.payload
    case SessionFinished(_, _, _) => LocalSessionEnd(log, es, e);
    case RunFinished =>
      assert forall x :: x in log + es <==> x in log || x in es;
    case AttemptStarted(a, _, _, _) =>
      LocalAttemptStart(log, es, e);
      SetsJoin(log, es, a);
      RunnerAlone(log, es, e.sessionId);
    case AttemptFinished(_, _, _) => LocalAttempts(log, es, e);
    case StepStarted(_, _, _) => LocalAttempts(log, es, e);
    case StepFinished(_, _) => LocalAttempts(log, es, e);
    case AttachmentAdded(_, _, _, _) => LocalAttempts(log, es, e);
    case _ =>
  }

  lemma RunnerAlone(log: seq<Event>, es: seq<Event>, s: string)
    requires Foreign(log, s)
    ensures Of(log + es, s) == Of(es, s)
    ensures RunnerOf(log + es, s) == RunnerOf(es, s)
    ensures SessionClosed(log + es, s) <==> SessionClosed(es, s)
  {
    OfJoin(log, es, s);
    OfForeign(log, s);
    assert forall x :: x in log + es <==> x in log || x in es;
    if SessionClosed(es, s) {
      var x :| x in es && x.sessionId == s && x.payload.SessionFinished?;
      assert x in log + es;
    }
  }

  /** Attempt locality: beside finished sessions, a session is judged on its own events. */
  lemma LocalAdmissible(log: seq<Event>, es: seq<Event>, e: Event)
    requires Settled(log) && Lawful(es) && Compatible(log, es)
    requires Own(es, e.sessionId) && Foreign(log, e.sessionId)
    ensures Admissible(log + es, e) <==> Admissible(es, e) && CrossOk(log, e, RunnerOf(es, e.sessionId))
  {
    hide PayloadAdmissible, RunnerOf, SessionClosed, Lawful, Settled, Compatible;
    RunnerAlone(log, es, e.sessionId);
    assert forall x :: x in log + es <==> x in log || x in es;
    if forall p | p in log :: p.eventId != e.eventId && p.runId == e.runId {
      LocalPayload(log, es, e);
    }
  }

  // ---------------------------------------------------------------- one more session

  lemma CompatibleSnoc(log: seq<Event>, es: seq<Event>, e: Event)
    requires Own(es + [e], e.sessionId) && (e.payload.AttemptStarted? ==> es != [])
    ensures Compatible(log, es + [e]) <==> Compatible(log, es) && CrossOk(log, e, RunnerOf(es, e.sessionId))
  {
    var all := es + [e];
    assert forall x :: x in all <==> x in es || x == e;
    assert e in all;
    OfOwn(es, e.sessionId);
    if es != [] { RunnerSnoc(es, e, e.sessionId); }
    forall p, x | p in log && x in es
      ensures Pair(p, RunnerOf(log, p.sessionId), x, RunnerOf(all, x.sessionId)) <==>
              Pair(p, RunnerOf(log, p.sessionId), x, RunnerOf(es, x.sessionId))
    {
      assert x in all;
    }
    forall p | p in log
      ensures Pair(p, RunnerOf(log, p.sessionId), e, RunnerOf(all, e.sessionId)) <==>
              Pair(p, RunnerOf(log, p.sessionId), e, RunnerOf(es, e.sessionId))
    {
    }
  }

  /** Beside finished sessions, a session is lawful exactly when it is so alone and clashes with none. */
  lemma {:induction false} SessionAlone(log: seq<Event>, es: seq<Event>, s: string)
    requires Settled(log) && Own(es, s) && Foreign(log, s)
    ensures Continues(log, es) <==> Lawful(es) && Compatible(log, es)
  {
    hide Pair, RunnerOf, Closed;
    if es != [] {
      var before, e := es[..|es| - 1], es[|es| - 1];
      assert es == before + [e] && e in es;
      assert [] + before == before;
      SessionAlone(log, before, s);
      LawfulNeedsStart(before, e);
      if Lawful(before) && Compatible(log, before) {
        hide Compatible, Admissible;
        LocalAdmissible(log, before, e);
        if Admissible(before, e) { CompatibleSnoc(log, before, e); }
      } else if Lawful(es) && Compatible(log, es) {
        CompatiblePrefix(log, before, e);
      }
    }
  }

  lemma LawfulNeedsStart(es: seq<Event>, e: Event)
    ensures Admissible(es, e) && !e.payload.SessionStarted? ==> es != []
  {
  }

  lemma CompatiblePrefix(log: seq<Event>, es: seq<Event>, e: Event)
    requires Own(es + [e], e.sessionId) && Compatible(log, es + [e])
    ensures Compatible(log, es)
  {
    OfOwn(es, e.sessionId);
    if es != [] { RunnerSnoc(es, e, e.sessionId); }
    forall p, x | p in log && x in es
      ensures Pair(p, RunnerOf(log, p.sessionId), x, RunnerOf(es, x.sessionId))
    {
      assert x in es + [e];
    }
  }

  // ---------------------------------------------------------------- any number of sessions

  function Flat(blocks: seq<seq<Event>>): seq<Event> {
    if blocks == [] then [] else Flat(blocks[..|blocks| - 1]) + blocks[|blocks| - 1]
  }

  /** Each block holds one session and no session stands in two blocks. */
  ghost predicate Separate(blocks: seq<seq<Event>>) {
    && (forall i, a, b | 0 <= i < |blocks| && a in blocks[i] && b in blocks[i] :: a.sessionId == b.sessionId)
    && (forall i, j, a, b | 0 <= i < j < |blocks| && a in blocks[i] && b in blocks[j] :: a.sessionId != b.sessionId)
  }

  ghost predicate AllClosed(blocks: seq<seq<Event>>) {
    forall i | 0 <= i < |blocks| :: Closed(blocks[i])
  }

  ghost predicate Coherent(blocks: seq<seq<Event>>) {
    && (forall i | 0 <= i < |blocks| :: Lawful(blocks[i]))
    && (forall i, j | 0 <= i < j < |blocks| :: Compatible(blocks[i], blocks[j]))
  }

  lemma {:induction false} FlatMembers(blocks: seq<seq<Event>>, e: Event)
    ensures e in Flat(blocks) <==> exists i | 0 <= i < |blocks| :: e in blocks[i]
  {
    if blocks != [] {
      FlatMembers(blocks[..|blocks| - 1], e);
      if i :| 0 <= i < |blocks| && e in blocks[i] {
        if i < |blocks| - 1 { assert e in blocks[..|blocks| - 1][i]; }
      }
    }
  }

  lemma SeparatePrefix(blocks: seq<seq<Event>>)
    requires blocks != [] && Separate(blocks)
    ensures Separate(blocks[..|blocks| - 1])
    ensures forall p, e | p in Flat(blocks[..|blocks| - 1]) && e in blocks[|blocks| - 1] :: p.sessionId != e.sessionId
  {
    var before := blocks[..|blocks| - 1];
    forall p, e | p in Flat(before) && e in blocks[|blocks| - 1] ensures p.sessionId != e.sessionId {
      FlatMembers(before, p);
      var i :| 0 <= i < |before| && p in before[i];
      assert p in blocks[i];
    }
  }

  lemma CompatibleJoin(a: seq<Event>, b: seq<Event>, es: seq<Event>)
    requires forall p, q | p in a && q in b :: p.sessionId != q.sessionId
    ensures Compatible(a + b, es) <==> Compatible(a, es) && Compatible(b, es)
  {
    hide Pair;
    forall p | p in a ensures RunnerOf(a + b, p.sessionId) == RunnerOf(a, p.sessionId) {
      OfJoin(a, b, p.sessionId);
      OfForeign(b, p.sessionId);
    }
    forall p | p in b ensures RunnerOf(a + b, p.sessionId) == RunnerOf(b, p.sessionId) {
      RunnerAlone(a, b, p.sessionId);
    }
    hide RunnerOf;
    assert forall p :: p in a + b <==> p in a || p in b;
  }

  lemma {:induction false} CompatibleFlat(blocks: seq<seq<Event>>, es: seq<Event>)
    requires Separate(blocks)
    ensures Compatible(Flat(blocks), es) <==> forall i | 0 <= i < |blocks| :: Compatible(blocks[i], es)
  {
    hide Compatible;
    if blocks == [] {
      EmptyCompatible(es);
    } else {
      SeparatePrefix(blocks);
      CompatibleFlat(blocks[..|blocks| - 1], es);
      CompatibleJoin(Flat(blocks[..|blocks| - 1]), blocks[|blocks| - 1], es);
    }
  }

  lemma EmptyCompatible(es: seq<Event>)
    ensures Compatible([], es) && Compatible(es, []) && Lawful([])
  {
  }

  lemma ClosedJoin(a: seq<Event>, b: seq<Event>)
    requires Closed(a) && Closed(b)
    ensures Closed(a + b)
  {
    forall e | e in a + b ensures SessionClosed(a + b, e.sessionId) {
      var part := if e in a then a else b;
      assert SessionClosed(part, e.sessionId);
      var x :| x in part && x.sessionId == e.sessionId && x.payload.SessionFinished?;
      assert x in a + b;
    }
  }

  lemma CoherentSnoc(blocks: seq<seq<Event>>)
    requires blocks != []
    ensures Coherent(blocks) <==>
            && Coherent(blocks[..|blocks| - 1])
            && Lawful(blocks[|blocks| - 1])
            && (forall i | 0 <= i < |blocks| - 1 :: Compatible(blocks[i], blocks[|blocks| - 1]))
  {
    hide Compatible, Lawful;
  }

  lemma LastBlock(log: seq<Event>, last: seq<Event>)
    requires Settled(log)
    requires forall a, b | a in last && b in last :: a.sessionId == b.sessionId
    requires forall p, e | p in log && e in last :: p.sessionId != e.sessionId
    ensures Continues(log, last) <==> Lawful(last) && Compatible(log, last)
  {
    if last == [] {
      EmptyCompatible(log);
    } else {
      assert last[0] in last;
      SessionAlone(log, last, last[0].sessionId);
    }
  }

  /** Finished sessions side by side: lawful exactly when each is and no two clash. */
  lemma {:induction false} BlocksExact(blocks: seq<seq<Event>>)
    requires Separate(blocks) && AllClosed(blocks)
    ensures Lawful(Flat(blocks)) <==> Coherent(blocks)
    ensures Closed(Flat(blocks))
  {
    hide Closed, Compatible, Coherent;
    if blocks == [] {
      EmptyClosed();
      EmptyCompatible([]);
      EmptyCoherent();
    } else {
      var before, last := blocks[..|blocks| - 1], blocks[|blocks| - 1];
      SeparatePrefix(blocks);
      BlocksExact(before);
      ClosedJoin(Flat(before), last);
      assert [] + Flat(before) == Flat(before);
      ContinuesJoin([], Flat(before), last);
      CoherentSnoc(blocks);
      CompatibleFlat(before, last);
      assert forall i | 0 <= i < |before| :: before[i] == blocks[i];
      if Lawful(Flat(before)) { LastBlock(Flat(before), last); }
    }
  }

  lemma EmptyCoherent()
    ensures Coherent([])
  {
  }

  lemma EmptyClosed()
    ensures Closed([])
  {
  }

  /** Coherence does not depend on the order of the blocks, nor on empty ones. */
  lemma CoherentAnyOrder(blocks: seq<seq<Event>>, others: seq<seq<Event>>)
    requires Separate(blocks) && Coherent(blocks) && Separate(others)
    requires forall i | 0 <= i < |others| :: others[i] == [] || others[i] in blocks
    ensures Coherent(others)
  {
    hide Compatible;
    forall i | 0 <= i < |others| ensures Lawful(others[i]) {
      EmptyCompatible([]);
    }
    forall i, j | 0 <= i < j < |others| ensures Compatible(others[i], others[j]) {
      if others[i] == [] || others[j] == [] {
        EmptyCompatible(others[i]);
        EmptyCompatible(others[j]);
      } else {
        var k :| 0 <= k < |blocks| && blocks[k] == others[i];
        var l :| 0 <= l < |blocks| && blocks[l] == others[j];
        assert others[i][0] in others[i] && others[j][0] in others[j];
        if l < k { CompatibleSymmetric(blocks[l], blocks[k]); }
      }
    }
  }
}
