/**
The decoded form of one line of protocol source.

Decoding, the JSON schema and the size limit are one function from a line to `Blank`,
`Rejected` or `Decoded`. An `Event` value stands for everything its canonical text says:
the envelope and payload fields that the validator and the projector read are fields of
their own, and `rest` is the canonical text of everything else (protocol version, names,
labels, failures, unknown properties). Two lines therefore have one canonical text exactly
when they decode to equal events.
*/
module Protocol {

  datatype Option<+T> = None | Some(value: T)

  datatype Status = Passed | Failed | Skipped | Inconclusive

  datatype SessionStatus = SessionPassed | SessionFailed | SessionInconclusive

  datatype Identity = Identity(historicalId: Option<string>, stability: string)

  datatype Payload =
    | SessionStarted(runner: Option<string>)
    | SessionFinished(outcome: Option<SessionStatus>, rawStatus: Option<string>, failures: seq<string>)
    | RunFinished
    | AttemptStarted(attemptId: string, number: int, execution: string, identity: Identity)
    | AttemptFinished(attemptId: string, status: Status, expected: Option<Status>)
    | StepStarted(attemptId: string, stepId: string, parent: Option<string>)
    | StepFinished(attemptId: string, stepId: string)
    | AttachmentAdded(attemptId: string, onStep: Option<string>, sha256: nat, sizeBytes: nat)
    | ScopeFailed
    | Unknown(eventType: string)   // an event type of a later minor, marked ignorable

  datatype Event = Event(
    eventId: string,
    runId: string,
    sessionId: string,
    sequence: int,
    occurredAt: string,
    payload: Payload,
    rest: string)

  datatype Rejection = TooLarge | MalformedJson | SchemaInvalid | UnsupportedVersion | UnsupportedType

  datatype Line =
    | Blank
    | Rejected(reason: Rejection)
    | Decoded(event: Event, raw: string)

  datatype File = File(name: string, lines: seq<Line>)

  /** Failed where passing was expected, or passed where failure was. */
  predicate Unexpected(status: Status, expected: Option<Status>) {
    var wanted := if expected.Some? then expected.value else Passed;
    (status.Failed? && !wanted.Failed?) || (status.Passed? && wanted.Failed?)
  }
}
