/**
What ingestion offers the store: a validated complete run directory, under the fingerprint of its
content, with the objects its attachments declare and the index its projection derives.
*/
module Offers {
  import opened Protocol
  import opened Validator
  import opened Soundness
  import opened QueryIndex
  import opened RunStore
  import Archive
  import Replay
  import SessionLocality
  import RunFiles
  import History
  import Projection
  import ProjectionMeaning

  /** The directories ever offered, and the digests by which their content is known. */
  datatype World = World(directories: set<seq<File>>, digest: Event -> string, hash: string -> string, width: nat)

  function Print(w: World, files: seq<File>): string {
    Archive.Fingerprint(FeedAll(FRESH, files).source, w.digest, w.hash)
  }

  /** What may be archived: valid, complete, with a known event, and one size for each object. */
  ghost predicate Acceptable(files: seq<File>) {
    && Valid(FeedAll(FRESH, files).core) && Validator.Complete(FeedAll(FRESH, files).core)
    && !Archive.SizeConflict(Logged(files))
  }

  /** No two texts digested for the acceptable directories collide. */
  ghost predicate NoCollisions(w: World) {
    forall a, b | a in w.directories && b in w.directories && Acceptable(a) && Acceptable(b) :: Apart(w, a, b)
  }

  ghost predicate Apart(w: World, a: seq<File>, b: seq<File>) {
    && Archive.GoodDigest(w.digest, w.width, Logged(a), Logged(b))
    && (Print(w, a) == Print(w, b) ==>
          Archive.Preimage(FeedAll(FRESH, a).source, w.digest) == Archive.Preimage(FeedAll(FRESH, b).source, w.digest))
  }

  /** One fingerprint, one set of objects: two acceptable directories with one fingerprint declare the same. */
  lemma OneFingerprintOneNeeds(w: World, a: seq<File>, b: seq<File>)
    requires Valid(FeedAll(FRESH, a).core) && Valid(FeedAll(FRESH, b).core) && Apart(w, a, b) && Print(w, a) == Print(w, b)
    ensures Archive.SizeConflict(Logged(a)) <==> Archive.SizeConflict(Logged(b))
    ensures !Archive.SizeConflict(Logged(a)) ==> Archive.Sizes(Logged(a)) == Archive.Sizes(Logged(b))
  {
    hide FeedAll, Logged, Archive.Preimage, Archive.Originals, Archive.GoodDigest, Archive.SizeConflict, Archive.Sizes;
    Archive.FedSource(a);
    Archive.FedSource(b);
    Archive.FingerprintExact(FeedAll(FRESH, a).source, FeedAll(FRESH, b).source, w.digest, w.hash, w.width);
    if !Archive.SizeConflict(Logged(a)) { Archive.SameEventsSameSizes(Logged(a), Logged(b)); }
    if !Archive.SizeConflict(Logged(b)) { Archive.SameEventsSameSizes(Logged(b), Logged(a)); }
  }

  /** The objects a fingerprint stands for: those of a directory that has it. */
  ghost function NeedsOf(w: World, fingerprint: string): map<nat, nat> {
    if d :| d in w.directories && Acceptable(d) && Print(w, d) == fingerprint then Archive.Sizes(Logged(d)) else map[]
  }

  lemma NeedsAreDeclared(w: World, files: seq<File>)
    requires NoCollisions(w) && files in w.directories && Acceptable(files)
    ensures NeedsOf(w, Print(w, files)) == Archive.Sizes(Logged(files))
  {
    hide FeedAll, Logged, Archive.Sizes, Archive.SizeConflict, Apart, Print;
    forall d | d in w.directories && Acceptable(d) && Print(w, d) == Print(w, files)
      ensures Archive.Sizes(Logged(d)) == Archive.Sizes(Logged(files))
    {
      assert Apart(w, d, files);
      OneFingerprintOneNeeds(w, d, files);
    }
  }

  ghost function WorldRules(w: World, at: string -> History.Position): Rules {
    Rules((k: RunKey, source: Source) => StoredIndex(k.project, source.locator, source.lines, at),
          fingerprint => NeedsOf(w, fingerprint))
  }

  /** The offer an ingestion makes of a directory. */
  function OfferOf(w: World, project: string, locator: string, files: seq<File>, expiresAt: int, at: string -> History.Position): Offer
    requires OfferedIndex(project, locator, files, at).Some?
  {
    var index := OfferedIndex(project, locator, files, at).value;
    Offer(RunKey(project, index.runId), Source(locator, Archive.OrderLines(FeedAll(FRESH, files).source)), Print(w, files),
          Archive.Sizes(Logged(files)), index, expiresAt)
  }

  /** The offer names the run all its events name. */
  lemma OfferedUnderItsRun(w: World, project: string, locator: string, files: seq<File>, expiresAt: int, at: string -> History.Position)
    requires OfferedIndex(project, locator, files, at).Some? && Acceptable(files)
    ensures forall e | e in Logged(files) :: OfferOf(w, project, locator, files, expiresAt, at).key.run == e.runId
  {
    var log := Logged(files);
    var es := Projection.Ordered(Projection.Known(log));
    FedExact(files);
    ProjectedFirst(project, locator, log, Summarize(FeedAll(FRESH, files)), at);
    ProjectionMeaning.ReadLog(log);
    hide FeedAll, Logged, Summarize, Projection.Ordered, Projection.Known, Archive.Sizes, Archive.OrderLines, IndexOf, Print, Lawful, Projection.ProjectRun;
    assert es[0] in es;
    forall e | e in log ensures e.runId == es[0].runId {
      var i :| 0 <= i < |log| && log[i] == e;
      var j :| 0 <= j < |log| && log[j] == es[0];
      if i < j { IdentifiersAreUnique(log, i, j); }
      if j < i { IdentifiersAreUnique(log, j, i); }
    }
  }

  lemma ProjectedFirst(project: string, locator: string, log: seq<Event>, summary: Summary, at: string -> History.Position)
    requires IndexOf(Projection.ProjectRun(project, locator, log, summary), at).Some?
    ensures var es := Projection.Ordered(Projection.Known(log));
            es != [] && IndexOf(Projection.ProjectRun(project, locator, log, summary), at).value.runId == es[0].runId
  {
    hide Projection.Ordered, Projection.Known, Projection.Executions, Projection.Gather, Projection.SessionViews, Projection.ExecutionIds, History.Occurrences;
  }

  /**
   * Every acceptable directory makes an honest offer: its objects are the ones its fingerprint
   * stands for, and either its stored form cannot be replayed, or replaying it derives exactly the
   * index the directory offered.
   */
  lemma OffersAreHonest(w: World, project: string, locator: string, files: seq<File>, expiresAt: int, at: string -> History.Position)
    requires NoCollisions(w) && files in w.directories && Acceptable(files)
    requires OfferedIndex(project, locator, files, at).Some?
    ensures Honest(OfferOf(w, project, locator, files, expiresAt, at), WorldRules(w, at))
  {
    NeedsAreDeclared(w, files);
    hide FeedAll, Logged, Archive.OrderLines, SessionLocality.StaysInSession, Replay.RunEndsSessions, OfferedIndex, NoCollisions,
         Replay.Regrouped, Archive.Fingerprint, Valid, Validator.Complete, IndexOf, Summarize, NeedsOf, Archive.Sizes, Archive.SizeConflict;
    if SessionLocality.StaysInSession(Logged(files)) && Replay.RunEndsSessions(Logged(files)) {
      OfferedIsStored(project, locator, files, at);
    } else {
      UnreplayableIsRefused(files);
    }
  }

  lemma UnreplayableIsRefused(files: seq<File>)
    requires Valid(FeedAll(FRESH, files).core) && Validator.Complete(FeedAll(FRESH, files).core)
    requires !(SessionLocality.StaysInSession(Logged(files)) && Replay.RunEndsSessions(Logged(files)))
    ensures !Valid(Replay.Replayed(Archive.OrderLines(FeedAll(FRESH, files).source)).core)
  {
    hide FeedAll, Logged, Archive.OrderLines, SessionLocality.StaysInSession, Replay.RunEndsSessions, Replay.Regrouped,
         Validator.Complete, LawfulRun, Replay.StoredForm;
    var lines := Archive.OrderLines(FeedAll(FRESH, files).source);
    FedExact(files);
    RunFiles.FinishedSessionsClose(files);
    Replay.StoredOrdered(files);
    Replay.RegroupedExact(lines, Logged(files));
    FedExact(Replay.Regrouped(lines));
  }
}
