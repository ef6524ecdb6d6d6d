/**
 * How the validator judges the end of an RTR session: the result of the
 * client's run loop under the overall deadline is classified as usable or
 * fatal, and a usable session that delivered no ROAs is fatal too.
 */
module Session {
  import opened Wrappers
  import opened Payload

  /** The categories of an I/O error (`std::io::ErrorKind`). */
  datatype IoErrorKind =
    | NotFound | PermissionDenied | ConnectionRefused | ConnectionReset
    | ConnectionAborted | NotConnected | BrokenPipe | InvalidInput
    | InvalidData | Interrupted | UnexpectedEof | IoTimedOut | Other

  /**
   * An I/O error returned by the client's run loop: its kind, and whether its
   * text contains "corrupt".
   */
  datatype IoError = IoError(kind: IoErrorKind, mentionsCorrupt: bool)

  /** What the run loop under the deadline produced. */
  datatype RunResult =
    | RunOk                  // the run loop returned success
    | RunErr(error: IoError) // the run loop returned an error
    | Elapsed                // the deadline passed first

  /** How the session ended. */
  datatype SessionOutcome =
    | Completed             // the library ended the session normally
    | SignaledDone          // the collector's stop request ended it
    | TimedOut              // the overall deadline ended it
    | Failed(error: IoError)

  /** The errors that end the program before a verdict. */
  datatype Fatal =
    | FetchFailed(cause: IoError) // the session failed
    | NoRoasReceived              // the session was usable but delivered no ROAs

  /** True when `e` is read as the collector's stop request. */
  predicate IsStopSignal(e: IoError) {
    e.kind == Other || e.mentionsCorrupt
  }

  /** Classifies the result of the run loop. */
  function Classify(r: RunResult): (o: SessionOutcome)
    ensures r.RunOk? <==> o.Completed?
    ensures r.Elapsed? <==> o.TimedOut?
    ensures o.SignaledDone? <==> r.RunErr? && (r.error.kind == Other || r.error.mentionsCorrupt)
    ensures o.Failed? ==> r == RunErr(o.error)
  {
    match r
    case RunOk => Completed
    case RunErr(e) => if IsStopSignal(e) then SignaledDone else Failed(e)
    case Elapsed => TimedOut
  }

  /** The outcomes whose collected ROAs are handed to the matching step. */
  predicate Usable(o: SessionOutcome) {
    !o.Failed?
  }

  /**
   * Success and timeout are usable; an error is usable exactly when it is of
   * kind `Other` or mentions "corrupt"; every other error is fatal and is
   * reported unchanged.
   */
  lemma ClassifyUsable(r: RunResult)
    ensures Usable(Classify(r)) <==> !r.RunErr? || r.error.kind == Other || r.error.mentionsCorrupt
    ensures !Usable(Classify(r)) ==> Classify(r) == Failed(r.error)
  {
  }

  /**
   * The ROAs the program goes on to match against, or the fatal error it
   * stops with: a failed session, or a usable one that collected nothing.
   */
  function Collected(r: RunResult, roas: seq<RouteOrigin>): (c: Result<seq<RouteOrigin>, Fatal>)
    ensures c.Ok? <==> Usable(Classify(r)) && |roas| > 0
    ensures c.Ok? ==> c.value == roas
    ensures c.Err? && Usable(Classify(r)) ==> c.error == NoRoasReceived
    ensures c.Err? && !Usable(Classify(r)) ==> c.error == FetchFailed(r.error)
  {
    match Classify(r)
    case Failed(e) => Err(FetchFailed(e))
    case _ => if |roas| == 0 then Err(NoRoasReceived) else Ok(roas)
  }
}
