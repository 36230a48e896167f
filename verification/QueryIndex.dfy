/**
The query index of a run, derived from its projection: at ingestion from the directory offered,
later from the stored source replayed.
*/
module QueryIndex {
  import opened Protocol
  import opened Validator
  import opened Soundness
  import opened SessionLocality
  import opened Sorting
  import opened Projection
  import ProjectionMeaning
  import opened History
  import Archive
  import Replay
  import RunFiles

  const CURRENT_VERSION := 1

  /** The listing facts of a run and the rows of its history occurrences. */
  datatype Index = Index(
    projectId: string, runId: string, verdict: Verdict, complete: bool, closed: bool, ignored: nat, duplicates: nat,
    sessions: nat, executions: nat, scopeFailures: nat, attachments: nat, rows: seq<Row>)

  function DeriveIndex(run: ProjectedRun, at: string -> Position): Index {
    Index(run.projectId, run.runId, run.verdict, run.complete, run.closed, run.ignored, run.duplicates, |run.sessions|,
          |run.executions|, |run.scopeFailures|, |run.attachments|, Map(Occurrences(run), Rowed(at)))
  }

  function IndexOf(projected: Result<Option<ProjectedRun>>, at: string -> Position): Option<Index> {
    if projected.Ok? && projected.value.Some? then Some(DeriveIndex(projected.value.value, at)) else None
  }

  /** The index of the directory an ingestion offers. */
  function OfferedIndex(project: string, locator: string, files: seq<File>, at: string -> Position): Option<Index> {
    IndexOf(ProjectRun(project, locator, Logged(files), Summarize(FeedAll(FRESH, files))), at)
  }

  /** The index of a stored source: replayed, and refused when the replay is not valid. */
  function StoredIndex(project: string, locator: string, lines: seq<SourceLine>, at: string -> Position): Option<Index> {
    var v := Replay.Replayed(lines);
    if Valid(v.core) then IndexOf(ProjectRun(project, locator, Logged(Replay.Regrouped(lines)), Summarize(v)), at) else None
  }

  lemma ReplayProjects(project: string, locator: string, files: seq<File>)
    requires var v := FeedAll(FRESH, files);
             && Valid(v.core) && Complete(v.core)
             && StaysInSession(Logged(files)) && Replay.RunEndsSessions(Logged(files))
    ensures var lines := Archive.OrderLines(FeedAll(FRESH, files).source);
            && Valid(Replay.Replayed(lines).core)
            && ProjectRun(project, locator, Logged(Replay.Regrouped(lines)), Summarize(Replay.Replayed(lines)))
               == ProjectRun(project, locator, Logged(files), Summarize(FeedAll(FRESH, files)))
  {
    hide FeedAll, Logged, Archive.OrderLines, Replay.Regrouped, Summarize, Complete, StaysInSession, Replay.RunEndsSessions, ProjectRun, Archive.Fingerprint, Valid, RunFiles.Blocks;
    var v := FeedAll(FRESH, files);
    var lines := Archive.OrderLines(v.source);
    Replay.ReplayExact(files, e => "", s => "");
    Replay.ValidClean(v.core);
    Replay.ValidClean(Replay.Replayed(lines).core);
    FedExact(files);
    FedExact(Replay.Regrouped(lines));
    RunFiles.FinishedSessionsClose(files);
    Replay.StoredOrdered(files);
    Replay.RegroupedExact(lines, Logged(files));
    SameEventsSameProjection(project, locator, locator, Logged(Replay.Regrouped(lines)), Logged(files),
                             Summarize(Replay.Replayed(lines)), Summarize(v));
    Identical(ProjectRun(project, locator, Logged(Replay.Regrouped(lines)), Summarize(Replay.Replayed(lines))),
              ProjectRun(project, locator, Logged(files), Summarize(v)),
              project, locator, Logged(Replay.Regrouped(lines)), Logged(files), Summarize(Replay.Replayed(lines)), Summarize(v));
  }

  /** Projections that agree but for locator and repetitions agree when those two do. */
  lemma Identical(a: Result<Option<ProjectedRun>>, b: Result<Option<ProjectedRun>>,
                  project: string, locator: string, ea: seq<Event>, eb: seq<Event>, sa: Summary, sb: Summary)
    requires a == ProjectRun(project, locator, ea, sa) && b == ProjectRun(project, locator, eb, sb)
    requires SameResult(a, b) && sa.duplicates == sb.duplicates
    ensures a == b
  {
    hide Ordered, Known, Gather, Executions, SortedSet, ExecutionIds, SessionViews;
  }

  /**
   * The index written from the offered directory at insertion is the index its stored source
   * derives, whenever the run can be replayed at all.
   */
  lemma OfferedIsStored(project: string, locator: string, files: seq<File>, at: string -> Position)
    requires var v := FeedAll(FRESH, files);
             && Valid(v.core) && Complete(v.core)
             && StaysInSession(Logged(files)) && Replay.RunEndsSessions(Logged(files))
    ensures StoredIndex(project, locator, Archive.OrderLines(FeedAll(FRESH, files).source), at)
            == OfferedIndex(project, locator, files, at)
  {
    hide FeedAll, Logged, Archive.OrderLines, Replay.Regrouped, Summarize, Complete, StaysInSession, Replay.RunEndsSessions, ProjectRun, Valid, IndexOf;
    ReplayProjects(project, locator, files);
  }

  /** And the index is there: a run with a known event always has one. */
  lemma OfferedExists(project: string, locator: string, files: seq<File>, at: string -> Position)
    requires FeedAll(FRESH, files).core.errors == [] && Known(Logged(files)) != []
    ensures OfferedIndex(project, locator, files, at).Some?
  {
    hide FeedAll, Logged, Summarize, Known, ProjectRun;
    FedExact(files);
    ProjectionMeaning.NeverAmbiguous(project, locator, Logged(files), Summarize(FeedAll(FRESH, files)));
  }
}
