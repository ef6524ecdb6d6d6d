/**
 * The validator's flow once the RTR session is over: classify how the session
 * ended, refuse an empty ROA set, then match the query prefix and decide.
 */
module Validator {
  import opened Wrappers
  import opened Payload
  import opened Collector
  import opened Session
  import opened Matching

  /**
   * The verdict the program reports, or the fatal error it exits with, given
   * how the run loop ended and the ROAs the collector holds at that point.
   */
  function Validate(run: RunResult, roas: seq<RouteOrigin>, q: IpNet, asn: Option<U32>): (r: Result<Verdict, Fatal>)
    ensures r.Ok? <==> Usable(Classify(run)) && |roas| > 0
    ensures r.Ok? ==> r.value == Decide(Matches(roas, q), asn)
    ensures r.Err? && !Usable(Classify(run)) ==> r.error == FetchFailed(run.error)
    ensures r.Err? && Usable(Classify(run)) ==> r.error == NoRoasReceived
  {
    match Collected(run, roas)
    case Err(f) => Err(f)
    case Ok(collected) => Ok(Evaluate(collected, q, asn))
  }

  /** With no ROAs collected, every way the session can end gives an error and never NOT FOUND. */
  lemma NoRoasNeverNotFound(run: RunResult, q: IpNet, asn: Option<U32>)
    ensures Validate(run, [], q, asn).Err?
    ensures Usable(Classify(run)) ==> Validate(run, [], q, asn) == Err(NoRoasReceived)
  {
  }

  /**
   * When the collector's stop request ends a run and the client reports it as
   * an error the classification recognises, the program reaches a verdict:
   * the stop request never surfaces as a failure.
   */
  lemma {:induction false} StopRequestReachesVerdict(batches: seq<Batch>, e: IoError, q: IpNet, asn: Option<U32>)
    requires Feed(Fresh, batches).0
    requires IsStopSignal(e)
    ensures Validate(RunErr(e), Feed(Fresh, batches).1.roas, q, asn).Ok?
  {
    FeedGrows(Fresh, batches);
  }

  /** 10.0.0.0 as a number. */
  const Ten: nat := 10 * 0x100_0000

  /** A ROA for 10.0.0.0 with prefix length `len`. */
  function Roa(asn: U32, len: U8, maxLen: Option<U8>): RouteOrigin {
    RouteOrigin(MaxLenPrefix(V4, Ten, len, maxLen), asn)
  }

  /** A ROA for 10.0.0.0/16 does not answer a query for 10.0.0.0/17. */
  lemma ExactPrefixOnly()
    ensures Evaluate([Roa(64500, 16, None)], IpNet(V4, Ten, 17), None) == Verdict.NotFound
  {
  }

  /** A query for 10.0.0.1/24, whose host bits are set, is not answered by a ROA for 10.0.0.0/24. */
  lemma QueryAddressAsWritten()
    ensures Evaluate([Roa(64500, 24, None)], IpNet(V4, Ten + 1, 24), None) == Verdict.NotFound
  {
  }

  /** A /24 ROA without a max length is reported with max length 24. */
  lemma MaxLenDefaultsToPrefixLength()
    ensures Evaluate([Roa(64500, 24, None)], IpNet(V4, Ten, 24), None) == Found([Entry(64500, 24)])
  {
  }

  /** Two ROAs for 10.0.0.0/24: AS64500 is valid, AS64502 is not and both authorized ASes are listed. */
  lemma AsnNarrowing()
    ensures Evaluate([Roa(64500, 24, Some(24)), Roa(64501, 24, Some(24))], IpNet(V4, Ten, 24), Some(64500)).Valid?
    ensures Evaluate([Roa(64500, 24, Some(24)), Roa(64501, 24, Some(24))], IpNet(V4, Ten, 24), Some(64502))
      == Invalid(64502, [Entry(64500, 24), Entry(64501, 24)], [64500, 64501])
  {
  }
}
