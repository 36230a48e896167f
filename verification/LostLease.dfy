/**
Why a sweep must not lose its connection with objects left to remove: the lease goes with the
connection, an ingestion takes it and relates the condemned object, and the removal, which needs no
connection, still happens.
*/
module LostLease {
  import opened Protocol
  import opened RunStore
  import opened StoreSafety

  const LOST := 7

  /** A store that holds one object no catalog row knows. */
  const EXPOSED := Store(Tables(map[], map[], map[], map[], map[], 0), map[LOST := 1], map[], {}, None)

  /** A sweep condemns the object and loses its connection. */
  const SWEPT := [Arrive(1, Sweeper(0)), TakeExclusive(1), Condemn(1, LOST), LoseLease(1)]

  /** An ingestion that needs the object then runs to its end, and the removal follows. */
  function Ingested(o: Offer): seq<Act> {
    [Arrive(2, Arriving(o)), TakeShared(2), Look(2), Publish(2, LOST), Archive(2), RemoveObject(1, LOST)]
  }

  lemma Follow(s: Store, acts: seq<Act>, now: Store, a: Act, rules: Rules)
    requires After(s, acts, rules) == Some(now) && Enabled(now, a, rules)
    ensures After(s, acts + [a], rules) == Some(Next(now, a, rules))
  {
    hide Enabled, Next;
    assert (acts + [a])[..|acts|] == acts;
  }

  lemma Swept(rules: Rules)
    ensures After(EXPOSED, SWEPT, rules) ==
            Some(EXPOSED.(processes := map[1 := Sweeping(0, {LOST})]))
  {
    var s1 := EXPOSED.(processes := map[1 := Sweeper(0)]);
    var s2 := EXPOSED.(processes := map[1 := Sweeping(0, {})], exclusive := Some(1));
    var s3 := EXPOSED.(processes := map[1 := Sweeping(0, {LOST})], exclusive := Some(1));
    assert Next(EXPOSED, SWEPT[0], rules) == s1;
    assert Next(s1, SWEPT[1], rules) == s2;
    assert s2.processes[1].condemned + {LOST} == {LOST};
    assert s2.processes[1 := Sweeping(0, {LOST})] == s3.processes;
    assert Next(s2, SWEPT[2], rules) == s3;
    assert Next(s3, SWEPT[3], rules) == EXPOSED.(processes := map[1 := Sweeping(0, {LOST})]);
    hide Next, Enabled;
    Follow(EXPOSED, [], EXPOSED, SWEPT[0], rules);
    assert [] + [SWEPT[0]] == SWEPT[..1];
    Follow(EXPOSED, SWEPT[..1], s1, SWEPT[1], rules);
    assert SWEPT[..1] + [SWEPT[1]] == SWEPT[..2];
    Follow(EXPOSED, SWEPT[..2], s2, SWEPT[2], rules);
    assert SWEPT[..2] + [SWEPT[2]] == SWEPT[..3];
    Follow(EXPOSED, SWEPT[..3], s3, SWEPT[3], rules);
    assert SWEPT[..3] + [SWEPT[3]] == SWEPT;
  }

  /** The store after the loss, with the ingestion at a point of its way. */
  function Beside(p: Process, shared: set<nat>): Store {
    EXPOSED.(processes := map[1 := Sweeping(0, {LOST}), 2 := p], shared := shared)
  }

  function Published(o: Offer): Store {
    Beside(Publishing(o, {LOST}), {2})
  }

  lemma Enters(o: Offer, rules: Rules)
    requires Honest(o, rules)
    ensures var s := EXPOSED.(processes := map[1 := Sweeping(0, {LOST})]);
            Enabled(s, Arrive(2, Arriving(o)), rules) && Next(s, Arrive(2, Arriving(o)), rules) == Beside(Arriving(o), {})
    ensures Enabled(Beside(Arriving(o), {}), TakeShared(2), rules)
    ensures Next(Beside(Arriving(o), {}), TakeShared(2), rules) == Beside(Looking(o), {2})
  {
    hide Honest;
    var s := EXPOSED.(processes := map[1 := Sweeping(0, {LOST})]);
    assert s.processes[2 := Arriving(o)] == Beside(Arriving(o), {}).processes;
    assert Beside(Arriving(o), {}).processes[2 := Looking(o)] == Beside(Looking(o), {2}).processes;
    assert Beside(Arriving(o), {}).shared + {2} == {2};
  }

  lemma Looks(o: Offer, rules: Rules)
    ensures Enabled(Beside(Looking(o), {2}), Look(2), rules)
    ensures Next(Beside(Looking(o), {2}), Look(2), rules) == Beside(Publishing(o, {}), {2})
  {
    assert Beside(Looking(o), {2}).processes[2 := Publishing(o, {})] == Beside(Publishing(o, {}), {2}).processes;
  }

  lemma Publishes(o: Offer, rules: Rules)
    requires o.needs == map[LOST := 1]
    ensures Enabled(Beside(Publishing(o, {}), {2}), Publish(2, LOST), rules)
    ensures Next(Beside(Publishing(o, {}), {2}), Publish(2, LOST), rules) == Published(o)
  {
    var s := Beside(Publishing(o, {}), {2});
    assert s.objects[LOST := 1] == s.objects && s.processes[2].published + {LOST} == {LOST};
    assert s.processes[2 := Publishing(o, {LOST})] == Published(o).processes;
  }

  lemma Ingesting(o: Offer, rules: Rules)
    requires Honest(o, rules) && o.needs == map[LOST := 1]
    ensures After(EXPOSED.(processes := map[1 := Sweeping(0, {LOST})]), Ingested(o)[..4], rules) == Some(Published(o))
  {
    hide Next, Enabled, Honest, Published, Beside;
    var acts := Ingested(o);
    var s := EXPOSED.(processes := map[1 := Sweeping(0, {LOST})]);
    Enters(o, rules);
    Looks(o, rules);
    Publishes(o, rules);
    Follow(s, [], s, acts[0], rules);
    assert [] + [acts[0]] == acts[..1];
    Follow(s, acts[..1], Beside(Arriving(o), {}), acts[1], rules);
    assert acts[..1] + [acts[1]] == acts[..2];
    Follow(s, acts[..2], Beside(Looking(o), {2}), acts[2], rules);
    assert acts[..2] + [acts[2]] == acts[..3];
    Follow(s, acts[..3], Beside(Publishing(o, {}), {2}), acts[3], rules);
    assert acts[..3] + [acts[3]] == acts[..4];
  }

  /** The last two steps: the run is committed, then its object goes. */
  lemma Removing(o: Offer, rules: Rules)
    requires Honest(o, rules) && o.needs == map[LOST := 1]
    ensures Enabled(Published(o), Archive(2), rules)
    ensures var s := Next(Published(o), Archive(2), rules);
            && Enabled(s, RemoveObject(1, LOST), rules)
            && o.key in s.tables.relations && LOST in s.tables.relations[o.key] && o.key in s.tables.runs
            && LOST !in Next(s, RemoveObject(1, LOST), rules).objects
            && Next(s, RemoveObject(1, LOST), rules).tables == s.tables
  {
    assert o.needs.Keys == {LOST};
  }

  lemma {:induction false} AfterJoin(s: Store, acts: seq<Act>, more: seq<Act>, rules: Rules)
    requires After(s, acts, rules).Some?
    ensures After(s, acts + more, rules) == After(After(s, acts, rules).value, more, rules)
  {
    hide Enabled, Next;
    if more == [] {
      assert acts + more == acts;
    } else {
      AfterJoin(s, acts, more[..|more| - 1], rules);
      assert (acts + more)[..|acts + more| - 1] == acts + more[..|more| - 1];
    }
  }

  lemma ExposedIsSafe(rules: Rules)
    ensures SafeInv(EXPOSED, rules)
  {
  }

  lemma RaceRuns(o: Offer, rules: Rules)
    requires Honest(o, rules) && o.needs == map[LOST := 1]
    requires Enabled(Published(o), Archive(2), rules)
    requires Enabled(Next(Published(o), Archive(2), rules), RemoveObject(1, LOST), rules)
    ensures After(EXPOSED, SWEPT + Ingested(o), rules) ==
            Some(Next(Next(Published(o), Archive(2), rules), RemoveObject(1, LOST), rules))
  {
    hide Next, Enabled, Honest, Published;
    var acts := Ingested(o);
    Swept(rules);
    Ingesting(o, rules);
    var s := EXPOSED.(processes := map[1 := Sweeping(0, {LOST})]);
    Follow(s, acts[..4], Published(o), acts[4], rules);
    assert acts[..4] + [acts[4]] == acts[..5];
    Follow(s, acts[..5], Next(Published(o), acts[4], rules), acts[5], rules);
    assert acts[..5] + [acts[5]] == acts;
    AfterJoin(EXPOSED, SWEPT, acts, rules);
  }

  /**
   * From a safe store, every step enabled, a sweep that loses its connection with an object
   * condemned can leave an archived run pointing at bytes that are gone.
   */
  lemma LostLeaseDangles(o: Offer, rules: Rules)
    requires Honest(o, rules) && o.needs == map[LOST := 1]
    ensures SafeInv(EXPOSED, rules)
    ensures After(EXPOSED, SWEPT + Ingested(o), rules).Some?
    ensures var s := After(EXPOSED, SWEPT + Ingested(o), rules).value; !NoDangling(s.tables, s.objects)
  {
    hide Next, Enabled, Honest, Published, SafeInv, After;
    ExposedIsSafe(rules);
    Removing(o, rules);
    RaceRuns(o, rules);
  }
}
