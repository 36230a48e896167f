# qe-report, verified

A Dafny model of qe-report's event protocol from producer to garbage collector, with proofs that
its parts do what they promise each other.

qe-report collects the results of test runs as files of events. Producers (an SDK session, a
Playwright reporter) write them; a validator decides whether a run directory is valid and complete
and what its verdict is; an archive stores accepted runs with a content fingerprint and can replay
them; a projector and a query index answer questions about them; retention deletes expired runs and
the attachment bytes nothing refers to any more, while ingestion goes on.

`dafny verify dfyconfig.toml` checks the whole project.

## How it is built

The validator is specified twice. `Validator.dfy` is its state machine as a function of state and
event; `Lifecycle.dfy` is the protocol as a predicate over logs (`Lawful`), which never mentions the
validator's tables. `Soundness.FedExact` proves that the machine accepts exactly the lawful runs,
and `RunValidation.RunValidator.Feed` that the imperative loop is the machine. Everything later is
stated over lawful logs:

* `Meaning`, `SessionBlocks`, `SessionLocality`, `Interleaving`, `RunFiles`, `FeedOrder`,
  `RepeatedStart`: what a set of events means regardless of order, when sessions can be judged apart,
  and when the order of files shows.
* `Archive`, `Replay`, `SplitSession`: storage order, fingerprint, replay.
* `Projection`, `ProjectionMeaning`, `ProjectionDetail`, `SplitReading`, `Projector`, `History`, `QueryIndex`,
  `IndexWriter`, `HistoryAnswers`: the read side, its index and what a query answers.
* `RunStore`, `StoreSafety`, `StoreIdentity`, `StoreFreshness`, `StoreConflict`, `LostLease`, `Offers`,
  `StoredHistory`, `Delivery`: the durable store as a step system of ingestions, rebuilds and sweeps with crashes, and a client that retries.
* `Leases`, `Workers`, `BlobFiles`, `Retention`: the lock, the bounded workers, the object files and
  the maintenance pass beneath it.
* `ReportSessions`, `ReportSession`, `Reporter`, `Conformance`, `Discipline`, `Callbacks`, `ReporterObject`: the
  producers, as functions of the calls made and as the objects that run.
* `Canonical`, `CanonicalMeaning`, `Base32`, `HistoryOrder`, `HistoryText`: the kernels.

Code that updates fields or runs loops is a class or a method whose `ensures` ties it to the
functions the theorems are about. Protocols between processes are step systems; a theorem about
them holds of every sequence of enabled steps.

## Hypotheses

* A line is blank, rejected or an event; equal events are lines with equal canonical text.
* SHA-256 and the event digest are parameters; results that need it ask that no two of the texts at
  hand collide. A blob hash is a number, ordered as its fixed-width text is.
* Strings are ordered lexicographically by character.
* Each database transaction is one step. Between two steps any process may crash, and any lease may
  be lost with its connection.
* Replay needs each session's new lines in one file, or the weaker exact conditions of
  `Replay.ReplayExact`.
* Feed order needs more: a line repeated in another session's file counts for the file fed first, so
  with one file per session the order may still show. `FeedOrder.FeedOrderExact` says exactly when it
  does not, and `FeedOrder.AnyFeedOrder` that it never does when repetitions too stay in their file.
* The projection of an attempt needs its start read before whatever is said of it, which is so
  whenever attempts stay in their session.
* Producer conformance assumes no write is dropped (no oversized event, no failing sink), which
  `ReportSessions` does not assume.

## What the code does not promise

* A run whose session is split over two files can be valid, complete and archived, and fail replay
  (`SplitSession.SplitSessionFailsReplay`). The validator checks one session per file, not one file
  per session (`ts/packages/validator/src/validator.ts:558-568`), and does not tie an attempt's
  later events to the session that started it. `Replay.ReplayExact` gives the exact condition.
* A valid run can end an attempt from a session whose id sorts before the starting one. The projector
  reads by session id and sequence (`ts/packages/read-model/src/projector.ts:76-175`), drops the end
  it reads before the start, and history and index then call the attempt unfinished
  (`SplitReading.SplitEndIsDropped`). Steps and attachments read before the start are dropped alike.
  `ProjectionMeaning.ProjectionFaithful` and `ProjectionDetail.ProjectionWhole` give the exact conditions.
* A directory with one file per session can be valid in one feed order and refused in another, when a
  file repeats a line of another session (`RepeatedStart.RepetitionFedFirstIsRefused`).
* A sweep that loses its database connection after it has dropped a blob's row, and goes on to
  remove the object, can remove bytes a new ingestion has just related to a run
  (`LostLease.LostLeaseDangles`). A process that dies is harmless, and so is a lost connection whose
  sweep removes nothing a run needs: `StoreSafety.AlwaysWholeExactly` says of every run, lost
  connections included, exactly when something dangles. Identity, freshness and conflict results
  hold of all runs without exception.
* A Playwright step object that begins again while it is open loses its first step id, and the
  attempt's end is then refused (`Discipline.TwiceBegunIsRefused`). `Discipline.ProducerConforms`
  is an if-and-only-if that includes this condition.
* The final attempt among attempts that share the highest number depends on the order they were
  met; such runs are invalid, and `RunValidation.FinalsDecide` shows nothing else depends on it.

## Model

| member | source | states |
|---|---|---|
| `Lifecycle.FaultsExact` | ts/packages/validator/src/validator.ts:576-806 | the lifecycle errors an event draws from the validator's tables are exactly the protocol rules it breaks, stated over the log of events alone: none is missed and none is invented |
| `Lifecycle.InvKept` | ts/packages/validator/src/validator.ts:576-806 | the session, attempt, step, execution and seen tables stay tied to the log after every event without faults |
| `Soundness.RunExact` | ts/packages/validator/src/validator.ts:458-808 | a stream of new events draws no error if and only if it is lawful event by event and keeps to one session per file |
| `Soundness.ReadExact` | ts/packages/validator/src/validator.ts:476-549 | blank lines and identical repetitions leave no trace in the state, and a line that cannot be decoded is always an error |
| `Soundness.FedExact` | ts/packages/validator/src/validator.ts:458-808 | a whole run directory is fed without error if and only if it is lawful, and then the validator's state is the one its log determines |
| `Soundness.SessionsAreNumbered` | ts/packages/validator/src/validator.ts:582-640 | in a lawful run each session's events are numbered 1..n from its only `session.started`, and nothing but `run.finished` follows its `session.finished` |
| `Soundness.IdentifiersAreUnique` | ts/packages/validator/src/validator.ts:528-557 | event ids are not reused and every event names one run |
| `Soundness.InsideTheirAttempt` | ts/packages/validator/src/validator.ts:697-806 | every step, attachment and end of an attempt falls after the start of that attempt and before its end |
| `Soundness.FinishedAttemptsAreDone` | ts/packages/validator/src/validator.ts:697-730 | a finished attempt has no step left open |
| `Soundness.ExecutionsAreOneTest` | ts/packages/validator/src/validator.ts:818-863 | the attempts of one execution have distinct numbers, one history identity and one runner |
| `Soundness.ClosedSessionsAreDone` | ts/packages/validator/src/validator.ts:646-660 | when a session has finished so has every attempt it started |
| `Soundness.CompleteWhenSessionsFinish` | ts/packages/validator/src/validator.ts:974-979 | a lawful run is complete exactly when every session has finished, although the code also looks at attempts and steps |
| `Soundness.ValidReports` | ts/packages/validator/src/validator.ts:879-894 | a valid report is complete exactly when every session finished, and closed implies complete |
| `Meaning.SameState` | ts/packages/validator/src/validator.ts:402-456 | two lawful readings of the same set of events, in any two orders, end in the same state |
| `Meaning.SameEventsSameReport` | ts/packages/validator/src/validator.ts:974-1030 | two directories fed without error with the same events give one summary but for file and duplicate counts |
| `Meaning.VerdictIsDerived` | protocol/README.md:202-216 | the verdict computed by the validator is the documented four-rule derivation over the set of accepted events, using each execution's highest-numbered attempt |
| `RunValidation.RunValidator.Feed` | ts/packages/validator/src/validator.ts:458-808 | the line-by-line loop over mutable tables computes the specification's state, diagnostics and retained lines; every rule above therefore holds of the loop |
| `RunValidation.RunValidator.TakeLine` | ts/packages/validator/src/validator.ts:476-549 | one line: blank, rejected, duplicate, reused id or new event, with exactly the state change the specification gives |
| `RunValidation.RunValidator.TakeEvent` | ts/packages/validator/src/validator.ts:550-642 | one new event: run id, file session, abandoned file, session tables, sequence; the skipped cases change only what the code changes before skipping |
| `RunValidation.RunValidator.TakePayload` | ts/packages/validator/src/validator.ts:643-806 | the payload switch adds exactly the specified faults and table updates |
| `RunValidation.RunValidator.BeginAttempt` | ts/packages/validator/src/validator.ts:672-696 | `attempt.started`: duplicate attempt, then the execution rules, then the new table entry |
| `RunValidation.RunValidator.EndAttempt` | ts/packages/validator/src/validator.ts:697-730 | `attempt.finished`: one error for each open step, and the attempt finished whether or not there was one |
| `RunValidation.RunValidator.StepEvent` | ts/packages/validator/src/validator.ts:731-771 | `step.started` and `step.finished` against the attempt's step table |
| `RunValidation.RunValidator.Attach` | ts/packages/validator/src/validator.ts:776-806 | `attachment.added` against the attempt and its steps |
| `RunValidation.RunValidator.EndSession` | ts/packages/validator/src/validator.ts:646-660 | `session.finished`: one error for each open attempt of the session |
| `RunValidation.RunValidator.CheckExecution` | ts/packages/validator/src/validator.ts:818-863 | attempt number, history identity and runner of an execution against the first attempt met |
| `RunValidation.RunValidator.Finish` | ts/packages/validator/src/validator.ts:879-1030 | the run-level pass: validity, with incompleteness an error on request, completeness, closure and verdict are those of the specification |
| `RunValidation.RunValidator.FinalAttempts` | ts/packages/validator/src/validator.ts:990-997 | the loop that keeps the highest-numbered attempt of each execution finds a final attempt of every execution and nothing else |
| `RunValidation.FinalsDecide` | ts/packages/validator/src/validator.ts:985-1008 | with distinct attempt numbers any choice of final attempts gives the same verdict |
| `SessionBlocks.LocalAdmissible` | ts/packages/validator/src/validator.ts:576-806 | attempt locality: beside finished sessions an event is admissible exactly when it is so among its own session's events and clashes with none of the others |
| `SessionBlocks.BlocksExact` | ts/packages/validator/src/validator.ts:576-863 | finished sessions side by side are lawful if and only if each is lawful alone and no two clash |
| `SessionBlocks.CoherentAnyOrder` | protocol/README.md:392-423 | whether sessions fit together does not depend on their order |
| `SessionLocality.DividesExactly` | ts/packages/validator/src/validator.ts:697-806 | a lawful log with finished sessions divides into coherent sessions if and only if every event about an attempt comes from the session that started it |
| `Interleaving.InterleavingExact` | ts/packages/validator/src/validator.ts:576-806 | another order of a lawful run's events, its attempts staying in their session, is lawful if and only if it has each session's events in sequence |
| `FeedOrder.FeedOrderExact` | ts/packages/validator/src/validator.ts:1075-1120 | feed order, exactly: for a directory with one file per session that is valid and complete in one order, another order is read without error if and only if in it every file is the first to meet events of one session only, `run.finished` last, and each session's events are met in sequence; the whole summary, file and duplicate counts included, is then the same |
| `FeedOrder.AnyFeedOrder` | ts/packages/validator/src/validator.ts:1075-1120 | when all lines of a session, repetitions included, sit in one file, every order of a valid complete directory gives the same state and the same whole summary |
| `RepeatedStart.RepetitionFedFirstIsRefused` | ts/packages/validator/src/validator.ts:509-568 | a concrete directory with one file per session that is valid and complete in one order and an error in the other |
| `RunFiles.Rearranged` | ts/packages/validator/src/validator.ts:1075-1120 | a directory whose files add the same session blocks, in any order and with empty files between, is read without error into the same state |
| `Archive.SourceExact` | ts/packages/validator/src/validator.ts:510-549 | a feed without error retains every decoded line, new ones as originals and repeated ones as duplicates |
| `Archive.FedSource` | ts/packages/validator/src/validator.ts:510-549 | conservation: originals and duplicates add up to the lines read, and the originals are exactly the log |
| `Archive.OrderedShape` | ts/packages/postgres/src/archive.ts:42-53 | storage order is a rearrangement by session, sequence and event id that loses no line and keeps lines of one key in the order they were read |
| `Archive.FingerprintExact` | ts/packages/postgres/src/archive.ts:62-72 | two sources have one content fingerprint if and only if they hold the same events; so permuting, reordering properties or repeating lines never changes it |
| `Archive.FingerprintDeterminesRun` | ts/packages/postgres/src/archive.ts:62-72 | two runs fed without error with equal fingerprints have the same state and summary but for file and duplicate counts |
| `Archive.RequiredBlobs` | ts/packages/postgres/src/archive.ts:79-95 | the loop over attachment events returns each declared hash once with its size, ascending, and nothing when one hash is declared with two sizes |
| `Replay.RegroupedExact` | ts/packages/postgres/src/store.ts:957-972 | the regrouped files are lawful if and only if every session can stand alone |
| `Replay.GroupReads` | ts/packages/postgres/src/store.ts:957-972 | each regrouped file reads back as its session in sequence order |
| `Replay.ReplayAgrees` | ts/packages/postgres/src/store.ts:973-1000 | a replay without error ends in the state ingestion ended in, duplicates included |
| `Replay.ReplayExact` | ts/packages/postgres/src/store.ts:934-1000 | replay fidelity as an if-and-only-if: a valid complete run replays with no difference exactly when attempts stay in their session and `run.finished` ends its session |
| `Replay.SessionFilesReplay` | ts/packages/postgres/src/store.ts:934-1000 | every valid complete run with one file per session replays with no difference, into the same state |
| `Replay.BySession` | ts/packages/postgres/src/store.ts:957-966 | the map-filling loop groups the lines by session in order of first appearance |
| `Replay.ReplayStored` | ts/packages/postgres/src/store.ts:957-1000 | the loop that re-feeds and compares reports no difference exactly when the stored run is faithful |
| `SplitSession.SplitSessionFailsReplay` | ts/packages/validator/src/validator.ts:558-568 | a concrete session split over two files passes validation, is complete, and fails replay |
| `Projection.SameEventsSameProjection` | ts/packages/read-model/src/projector.ts:76-170 | the projection depends only on which events there are |
| `Projection.FingerprintDeterminesProjection` | ts/packages/read-model/src/projector.ts:76-170 | equal fingerprints give one projection but for locator and duplicate count |
| `ProjectionMeaning.NeverAmbiguous` | ts/packages/read-model/src/projector.ts:276-342 | the projector's three defensive checks never fire on a run the validator accepts |
| `ProjectionMeaning.EndRead` | ts/packages/read-model/src/projector.ts:115-119 | an attempt's end in the projection is the end the log gives it if and only if the attempt's start stands before that end by session id and sequence; an end read before its start is dropped |
| `ProjectionMeaning.StayingReadsFirst` | ts/packages/read-model/src/projector.ts:173-175 | when attempts stay in their session every start is read before its end |
| `ProjectionMeaning.ProjectionFaithful` | ts/packages/read-model/src/projector.ts:276-352 | every execution of a valid run is projected once, in id order; what the projection says of completeness, final status and flakiness is what the events say, for all executions, if and only if every start is read before its end |
| `ProjectionDetail.ReadDetails` | ts/packages/read-model/src/projector.ts:120-141 | what the projection gathers of an attempt: the steps and attachments the log has after the attempt's start in reading order, and of each step the end that stands after the step's start |
| `ProjectionDetail.ProjectionWhole` | ts/packages/read-model/src/projector.ts:76-352 | what the projection says of all executions, every attempt's steps, step ends and attachments included, is what the log says if and only if everything said of an attempt is read after its start and every step's end after the step's start |
| `ProjectionDetail.StayingIsInOrder` | ts/packages/read-model/src/projector.ts:173-175 | in a run whose attempts stay in their session nothing is dropped |
| `ProjectionDetail.SessionsFaithful` | ts/packages/read-model/src/projector.ts:90-170 | of every valid run the sessions, their runners, ends, outcomes and executions, the scope failures and the attachments are those of the log, whatever the order |
| `SplitReading.SplitEndIsDropped` | ts/packages/read-model/src/projector.ts:76-170 | a concrete valid complete run whose finished attempt the projection calls unfinished |
| `Projector.EndStep` | ts/packages/read-model/src/projector.ts:129-133 | setting the end through the step index ends the step last started under that id and keeps the index right |
| `Projector.GatherFacts` | ts/packages/read-model/src/projector.ts:81-145 | the pass over the events fills the maps and lists of the specification |
| `Projector.GroupAttempts` | ts/packages/read-model/src/projector.ts:280-287 | grouping gives each execution its attempts in the order met, and the executions in strict id order |
| `Projector.CheckGroup` | ts/packages/read-model/src/projector.ts:288-339 | the three checks in the code's order of precedence and the execution they let through |
| `Projector.Project` | ts/packages/read-model/src/projector.ts:76-170 | the imperative projector computes the projection of the specification, so the meaning results hold of it |
| `History.BeyondIsSuffix` | ts/packages/postgres/src/queries.ts:304-360 | the rows beyond a cursor row are exactly the rest of the ordered answer |
| `History.WalkHistory` | ts/packages/postgres/src/queries.ts:304-360 | walking by cursor with any page size yields the whole ordered answer, each row once |
| `History.IndexRefines` | ts/packages/read-model/src/read-model.ts:119-187 | the rows of the index under a key, in index order, are the list the in-memory read model gives, however either enumerates the runs |
| `History.FlakinessSummary` | ts/packages/postgres/src/queries.ts:372-394 | the counting loop gives the number of occurrences and of flaky ones under the key |
| `History.FlakinessAgrees` | ts/packages/read-model/src/read-model.ts:175-187 | the index's flakiness counts are those of the in-memory history |
| `History.OccurrencesKeyed` | ts/packages/read-model/src/read-model.ts:270-297 | run id and execution id tell the occurrences of a run apart |
| `QueryIndex.OfferedIsStored` | ts/packages/postgres/src/store.ts:271-274 | the index derived from the offered directory equals the index derived by replaying the stored source |
| `QueryIndex.OfferedExists` | ts/packages/postgres/src/query-index.ts:58-91 | a run with a known event always derives an index |
| `IndexWriter.QueryTables.Replace` | ts/packages/postgres/src/index-writer.ts:14-107 | after the delete, upsert and chunked insert the run has exactly the derived rows in order and every other run what it had, so tables that held the store's index hold it with that run's row replaced; a derivation for another run changes nothing |
| `IndexWriter.IndexWrites` | ts/packages/postgres/src/index-writer.ts:14-107 | every step of the store leaves the index alone, replaces one run's row as `replaceQueryIndex` does, or deletes rows of the runs it deletes |
| `IndexWriter.DeleteMirrors` | ts/packages/postgres/src/retention.ts:560-583 | deleting the rows of deleted runs from both tables keeps them the store's index |
| `StoreSafety.WholeExactly` | ts/packages/postgres/src/retention.ts:406-482 | no dangling bytes, step by step and exactly: after any enabled step, crashes and lost connections included, every relation has its catalog row of the declared size and its object and published objects are still there, if and only if the step is not the removal of an object that a run relates or an ingestion under its lease has published |
| `StoreSafety.AlwaysWholeExactly` | ts/packages/postgres/src/store.ts:561-739 | the same over every run of the system: nothing dangles at any point if and only if no removal takes an object related or published at that moment |
| `StoreSafety.AlwaysSafe` | ts/packages/postgres/src/retention.ts:205-396 | while no sweep loses its connection with objects left to remove, every removal is harmless in every interleaving with crashes between any two steps, so nothing dangles |
| `LostLease.LostLeaseDangles` | ts/packages/postgres/src/retention.ts:406-482 | a concrete run of enabled steps in which a sweep whose connection is lost leaves an archived run without its bytes |
| `StoreIdentity.IdentityStep` | ts/packages/postgres/src/store.ts:664-786 | no step changes an archived source, shrinks its relations or moves an expiry, and a run is deleted only at or after its recorded expiry |
| `StoreConflict.OtherContentChangesNothing` | ts/packages/postgres/src/store.ts:561-739 | in every reachable state no step of an ingestion whose identity holds other content changes a table, the completing transaction included although it does not compare fingerprints again; the deciding steps answer conflict |
| `StoreIdentity.SourceStays` | ts/packages/postgres/src/store.ts:561-618 | over any run of the system an archived source and its expiry are unchanged while the run is archived |
| `StoreIdentity.NoSelfConflict` | ts/packages/postgres/src/store.ts:561-618 | while a run with this content is archived no offer of the same content is answered as a conflict |
| `StoreFreshness.FreshStep` | ts/packages/postgres/src/store.ts:751-770 | every step keeps current index rows equal to what the stored source derives, and rebuild walks truthful about what they passed |
| `StoreFreshness.AlwaysFresh` | ts/packages/postgres/src/queries.ts:402-456 | in every reachable state current rows are what the stored source derives when it can be replayed, and a rebuild walk that ended with no problem found every run of its project current |
| `StoreFreshness.WalkEnds` | ts/packages/postgres/src/queries.ts:402-456 | a rebuild walk by `lastIngestionSequence` ends whatever is inserted meanwhile: its passes never outnumber the sequences given so far by more than one |
| `Offers.OneFingerprintOneNeeds` | ts/packages/postgres/src/archive.ts:62-95 | two valid directories with one content fingerprint declare the same objects with the same sizes |
| `Offers.OffersAreHonest` | ts/packages/postgres/src/store.ts:271-295 | the offer made of an acceptable directory, under the fingerprint of its content, needs exactly the objects that fingerprint stands for, and carries the index replay derives or has a stored form replay refuses |
| `Offers.OfferedUnderItsRun` | ts/packages/postgres/src/archive.ts:101-112 | an offer names the run every one of its events names |
| `Offers.UnreplayableIsRefused` | ts/packages/postgres/src/store.ts:957-985 | the stored form of a valid complete run whose attempts leave their session, or whose `run.finished` does not end its session, is refused by replay |
| `StoreConflict.FromTheBeginning` | ts/packages/postgres/src/store.ts:561-739 | from the empty store on, every reachable state keeps locks, tables, fresh rows and recognised work in order |
| `StoredHistory.CurrentIsOffered` | ts/packages/postgres/src/store.ts:715-770 | in every state reached from the empty store a current row is the index of the directory its run came from, replayable or not, whoever wrote it |
| `StoredHistory.EachCame` | ts/packages/postgres/src/store.ts:561-739 | every archived run came in an offer that arrived, and projects |
| `StoredHistory.HistoryOfOffered` | ts/packages/postgres/src/queries.ts:304-394 | in every reachable state in which a project's runs are all current, the stored rows under a history key, in index order, are the history the read model gives of the directories that were offered |
| `HistoryAnswers.TableHasRows` | ts/packages/postgres/src/queries.ts:304-360 | the occurrence table read for one project has the rows of that project's runs and no others |
| `HistoryAnswers.AnswersAreCalendar` | ts/packages/postgres/src/queries.ts:304-360 | with history positions read from the timestamps' text, and the two query tables holding the store's index, the rows of a project walked in index order are the read model's history of the offered directories, in UTC calendar order |
| `Delivery.Deliver` | ts/packages/http-client/src/client.ts:126-189 | the attempt loop ends with the first reply that is not to be retried, or undelivered after the last attempt; there is one such result |
| `Delivery.ConflictAfterSuccess` | ts/packages/postgres/src/store.ts:561-618 | between a success of an offer, in whichever transaction, and a later conflict of the same offer its run was deleted |
| `Delivery.NeverOwnConflict` | ts/packages/http-client/src/client.ts:126-189 | against the concurrent archive: an upload that ends with 409 after the same offer had succeeded, in an earlier attempt or one still at work, means the run was deleted in between |
| `Retention.Maintenance.Reclaim` | ts/packages/postgres/src/retention.ts:406-482 | one blob: its row goes first and only if unreferenced, then its object; a problem is counted and leaves what it could not remove |
| `Retention.Maintenance.Examine` | ts/packages/postgres/src/retention.ts:286-293 | an object is examined only when it is the first or fits, and the budget is charged with it |
| `Retention.Maintenance.SweepCatalog` | ts/packages/postgres/src/retention.ts:277-303 | without truncation or problems only referenced rows are left |
| `Retention.Maintenance.Enumerate` | ts/packages/postgres/src/retention.ts:308-353 | the enumeration loop ends, removes only old uncatalogued objects, and misses none unless a budget stopped it |
| `Retention.Maintenance.SweepObjects` | ts/packages/postgres/src/retention.ts:305-353 | without truncation or problems only catalogued or young objects are left, and truncation means the count or the bytes ran out |
| `Retention.Maintenance.Pass` | ts/packages/postgres/src/retention.ts:205-396 | nothing referenced goes, nor an uncatalogued object younger than the cutoff; the sizes examined total at most the larger of the budget and the first object; a pass without truncation or problems is complete; truncation is reported only when too many rows were listed, the count of uncatalogued objects ran out with an old orphan left, or an object did not fit |
| `ReportSessions.AlwaysOrderly` | ts/packages/sdk/src/session.ts:140-364 | over every sequence of calls and every pattern of size and sink failures written sequence numbers are 1..n and the log only grows |
| `ReportSessions.OrderlyMeans` | ts/packages/sdk/src/session.ts:274-330 | nothing but one `run.finished` follows a `session.finished` |
| `ReportSessions.OutcomePreserved` | ts/packages/sdk/src/session.ts:214-272 | once a well-formed outcome with a status is offered to an accepting session, every `session.finished` ever written carries that status, and none is written if the offer wrote none |
| `ReportSessions.CalledKeeps` | java/sdk/src/main/java/io/github/yannisyoussef/qe/report/sdk/ReportSession.java:110-121 | each atomic section, with a check and a later write by different threads interleaved, keeps the session orderly |
| `ReportSessionObject.ReportSession.Emit` | ts/packages/sdk/src/session.ts:140-146 | an event is written with the next sequence number or counted as dropped |
| `ReportSessionObject.ReportSession.Write` | ts/packages/sdk/src/session.ts:332-364 | the write attempt: an oversized event or a failing sink uses no sequence number |
| `ReportSessionObject.ReportSession.Finish` | ts/packages/sdk/src/session.ts:214-272 | the object computes the specification's `finish` |
| `ReportSessionObject.ReportSession.FinishWith` | ts/packages/sdk/src/session.ts:227-270 | the reduction loop terminates and equals the specification: failures are given up first, then the raw status, never the status |
| `ReportSessionObject.ReportSession.FinishRun` | ts/packages/sdk/src/session.ts:274-296 | `run.finished` is written at most once and only where the specification writes it |
| `ReportSessionObject.ReportSession.Close` | ts/packages/sdk/src/session.ts:298-307 | closing finishes an active session |
| `Conformance.AttemptIdInjective` | ts/packages/playwright/src/reporter.ts:647-649 | test id and retry can be read back from the attempt id: no two attempts share one |
| `Conformance.CallbackConforms` | ts/packages/playwright/src/reporter.ts:218-378 | every disciplined callback writes only what the validator accepts and keeps the open-attempt and open-step maps equal to what the log has open |
| `Conformance.EndConforms` | ts/packages/playwright/src/reporter.ts:459-487 | the end of a conforming run leaves a lawful log with its session finished, whatever was left open |
| `Discipline.LawfulExactly` | ts/packages/playwright/src/reporter.ts:218-487 | whatever the callbacks, the log written is lawful if and only if they kept the discipline |
| `Discipline.ProducerConforms` | ts/packages/playwright/src/reporter.ts:218-487 | the directory is valid and complete if and only if no callback breaks the discipline against the reporter's open attempts, open steps and log |
| `Callbacks.DisciplineOfCallbacks` | ts/packages/playwright/src/reporter.ts:218-378 | that discipline is a condition on the callback list alone: the reporter's maps and the log hold exactly the attempts and steps the callbacks have begun and not ended |
| `Callbacks.ReporterConforms` | ts/packages/playwright/src/reporter.ts:218-487 | producer conformance: for every callback sequence with no write dropped the directory is valid and complete if and only if no attempt begins again after its end, the attempts of a test begin under one identity, and no step object begins again while it is open |
| `Discipline.TwiceBegunIsRefused` | ts/packages/playwright/src/reporter.ts:265-288 | a concrete sequence in which a step object begins twice is refused although it meets every other condition |
| `ReporterObject.QeReportReporter.OnTestBegin` | ts/packages/playwright/src/reporter.ts:218-263 | an attempt opens, or nothing happens when it is open already |
| `ReporterObject.QeReportReporter.OnStepBegin` | ts/packages/playwright/src/reporter.ts:265-288 | a step of an open attempt opens under a fresh id and the parent that is open |
| `ReporterObject.QeReportReporter.OnStepEnd` | ts/packages/playwright/src/reporter.ts:290-325 | attachments not emitted before, then the step's end; stray ends are ignored |
| `ReporterObject.QeReportReporter.CloseOpenSteps` | ts/packages/playwright/src/reporter.ts:610-628 | each open step is ended once, in the order the steps began |
| `ReporterObject.QeReportReporter.OnTestEnd` | ts/packages/playwright/src/reporter.ts:327-378 | steps closed, attachments emitted, attempt finished and forgotten |
| `ReporterObject.QeReportReporter.OnError` | ts/packages/playwright/src/reporter.ts:380-431 | a file-scope error fails that scope; at most 32 others are kept for the outcome |
| `ReporterObject.QeReportReporter.OnEnd` | ts/packages/playwright/src/reporter.ts:459-487 | open attempts closed, outcome offered, run closed when owned: exactly the specification's end |
| `Canonical.Serialize` | ts/packages/validator/src/validator.ts:234-279 | the explicit-stack serializer writes the recursive canonical text at any depth, and terminates |
| `CanonicalMeaning.ValueUnique` | ts/packages/validator/src/validator.ts:234-279 | the text is self-delimiting: a value and what follows it can be told apart in one way only |
| `CanonicalMeaning.TextExact` | ts/packages/validator/src/validator.ts:234-279 | two JSON values have one canonical text if and only if they are equal up to property order at every level |
| `Base32.OneSpelling` | ts/packages/postgres/src/api-keys.ts:273-309 | a byte string has one spelling and a spelling is of one byte string (section 6 of RFC 4648, zero padding bits as in section 3.5) |
| `Base32.Encode` | ts/packages/postgres/src/api-keys.ts:273-287 | the shift-register loop writes the spelling of the bytes |
| `Base32.Decode` | ts/packages/postgres/src/api-keys.ts:290-309 | the decoder accepts exactly the spellings of byte strings of the asked length and returns the bytes |
| `Base32.RoundTrip` | ts/packages/postgres/src/api-keys.ts:273-309 | decoding an encoding gives the bytes back |
| `Base32.Respell` | ts/packages/postgres/src/api-keys.ts:273-309 | a text the decoder accepts is the encoding of its result |
| `HistoryOrder.DaysAgree` | ts/packages/read-model/src/history-order.ts:37-70 | the Gregorian day count orders dates as the calendar does |
| `HistoryOrder.UtcKeeps` | ts/packages/read-model/src/history-order.ts:37-70 | applying the offset keeps the minute and yields a valid UTC date |
| `HistoryOrder.HistoryIsCalendar` | ts/packages/read-model/src/history-order.ts:77-84 | one timestamp is placed before another if and only if its UTC moment, to the millisecond, comes first; they share a place if and only if they name one moment at whatever offsets (section 5.6 of RFC 3339) |
| `HistoryOrder.LeapSecondsStand` | ts/packages/read-model/src/history-order.ts:50-70 | a leap second is accepted only as the last second of a UTC day and stands after all of 23:59:59 and before 00:00:00 (section 5.7 of RFC 3339) |
| `HistoryOrder.EpochIsZero` | ts/packages/read-model/src/history-order.ts:54-57 | 1970-01-01T00:00:00Z is instant zero, as `Date.parse` counts |
| `HistoryText.ParseExact` | ts/packages/read-model/src/history-order.ts:23-50 | the parser reads exactly the texts that write well-shaped fields (section 5.6 of RFC 3339): each text has one reading, and fields one text but for a zero zone written as Z |
| `HistoryText.TextIsCalendar` | ts/packages/read-model/src/history-order.ts:37-84 | two accepted timestamp texts stand in history order as the UTC moments they name, and share a place exactly when they name one moment |
| `BlobFiles.PublicationStep` | ts/packages/blob-fs/src/file-blob-store.ts:138-229 | no step of any concurrent put, crash or removal replaces an object or files bytes under another hash; only a link adds one, with verified bytes |
| `BlobFiles.AlwaysPublished` | ts/packages/blob-fs/src/file-blob-store.ts:138-229 | in every run each object's bytes hash to its name |
| `BlobFiles.LoserSucceeds` | ts/packages/blob-fs/src/file-blob-store.ts:465-524 | once a put has verified its bytes, whatever any number of other puts, crashes and sweeps do in between, it is never refused, winner or loser of the link race, and its own last step succeeds |
| `BlobFiles.ListObjects` | ts/packages/blob-fs/src/file-blob-store.ts:284-342 | the nested loops with cursor skips return a page of the canonical objects beyond the cursor, with `next` the last of a full page |
| `BlobFiles.ListingExact` | ts/packages/blob-fs/src/file-blob-store.ts:284-342 | the listing is every regular file under its own hash's path beyond the cursor, once, in hash order |
| `BlobFiles.WalkExact` | ts/packages/blob-fs/src/file-blob-store.ts:284-342 | following `next` lists each object at most once in increasing order while the medium changes, and misses none that stayed until it was listed |
| `Leases.LeaseStep` | ts/packages/postgres/src/locks.ts:65-135 | whatever query fails, before or after taking effect, the lease bookkeeping holds |
| `Leases.NoCoexistence` | ts/packages/postgres/src/locks.ts:65-135 | in every history no idle connection carries a lease, whoever is at work holds exactly its own, and nobody works beside an exclusive holder |
| `Leases.LockRefines` | ts/packages/postgres/src/locks.ts:41-135 | the pool behaves as the shared/exclusive lock the store model uses |
| `Workers.Disciplined` | ts/packages/postgres/src/materialise.ts:45-68 | in every schedule at most `limit` items are in flight, items start in order and so once, and none starts after a failure |
| `Workers.Finished` | ts/packages/postgres/src/materialise.ts:45-68 | when the workers have returned everything started has settled; without a failure that is every item, each with a result |
| `Workers.Ends` | ts/packages/postgres/src/materialise.ts:45-68 | every schedule has at most two steps an item and one a worker |
| `Workers.Completes` | ts/packages/postgres/src/materialise.ts:45-68 | a schedule that can go no further has settled everything: every item with a result, or a failure |

## Left out

- JSON parsing, the schema and the field codecs: lines arrive decoded.
- Attachment bytes checked by `finish` at ingestion: taken as passed; replay configures no attachments directory.
- SQL, migrations and connection settings: tables are maps or sequences, and a transaction is one step.
- Statement chunking of stored source lines: as easy as the occurrence rows in `IndexWriter`.
- Recomputing fingerprints stored under an older fingerprint version.
- Redaction, ANSI stripping and truncation to size budgets in the producers: payload text is opaque; status is never touched by them.
- StoreSafety.AlwaysSafe: excludes a connection lost by a sweep that has condemned objects still to remove, because the property can fail there; `StoreSafety.AlwaysWholeExactly` excludes nothing.
- RunValidation.RunValidator.Finish: attachment bytes are not checked.
- BlobFiles.LoserSucceeds: covers the winner too, but needs that nobody removes the object in between and that no other content has its SHA-256.
- BlobFiles.ListObjects: the problems it reports for malformed, misfiled or irregular entries are not returned, only skipped as the code skips them.
- BlobFiles.PublicationStep: modes, fsync, link rechecks and symbolic links are not modelled; an inode is its writer and its bytes.
- Retention.Maintenance.Pass: the deletion of expired runs and the temporary-file phase are not in this object; deletion is a step of `RunStore`. The preview form is left out.
- Canonical.Serialize: characters are single code points; UTF-16 surrogate escapes are not modelled, and a number is the text it is written as.
- HistoryOrder.HistoryIsCalendar: replaces `Date.parse` by explicit day arithmetic.
- HistoryText.Instant: gives position zero to a text the original refuses with an error; no accepted event carries one.
- Leases.NoCoexistence: speaks of borrowers whose server session is still alive; a borrower cannot see that its session ended until its next query.
- Delivery.Deliver: waits, jitter and `Retry-After` are not modelled; an abort is one of the replies.
- Projector.Project: views of steps, failures and labels are carried as the events themselves.
- `listRuns`, the completeness gate before queries and `verifyIndexedRun`: thin reads over what is proved of the index.
- `ReadModel.assemble` conflicts between two directories of one run, and its blob table.
- Java codec, JUnit adapter, HTTP routing, CLI, API-key storage and cursor encoding.
- Diagnostic messages and positions: an error is its lifecycle detail.
