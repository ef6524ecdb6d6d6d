/**
 * The ROA collector: the update sink the RTR client drives. It keeps every
 * announced route origin, counts the batches it has seen, and asks the client
 * to stop, by returning `PayloadError.Corrupt`, when an empty batch arrives
 * after at least one ROA has been collected.
 */
module Collector {
  import opened Wrappers
  import opened Payload

  /** The error a sink may return to the client. The collector only ever returns `Corrupt`. */
  datatype PayloadError = Corrupt

  /** An update batch: the changes of one protocol message, in order. */
  type Batch = seq<Change>

  /** True when `c` announces a route origin. */
  predicate IsAnnouncedOrigin(c: Change) {
    c.0 == Announce && c.1.Origin?
  }

  /** The route origins announced in `u`, in batch order. */
  function AnnouncedOrigins(u: Batch): (r: seq<RouteOrigin>)
    ensures |r| <= |u|
  {
    if u == [] then []
    else AnnouncedOrigins(u[..|u| - 1]) + (if IsAnnouncedOrigin(u[|u| - 1]) then [u[|u| - 1].1.origin] else [])
  }

  /** Announcements distribute over the concatenation of batches. */
  lemma {:induction false} AnnouncedOriginsAppend(a: Batch, b: Batch)
    ensures AnnouncedOrigins(a + b) == AnnouncedOrigins(a) + AnnouncedOrigins(b)
    decreases |b|
  {
    if b == [] {
      assert a + b == a;
    } else {
      var b' := b[..|b| - 1];
      assert (a + b)[..|a + b| - 1] == a + b';
      AnnouncedOriginsAppend(a, b');
    }
  }

  /**
   * A route origin is collected from `u` exactly when some change of `u`
   * announces it: withdrawals and other payload kinds contribute nothing.
   */
  lemma {:induction false} AnnouncedOriginsMember(u: Batch, o: RouteOrigin)
    ensures o in AnnouncedOrigins(u) <==> exists i :: 0 <= i < |u| && u[i] == (Announce, Origin(o))
  {
    if u != [] {
      var u' := u[..|u| - 1];
      AnnouncedOriginsMember(u', o);
      if o in AnnouncedOrigins(u) && o !in AnnouncedOrigins(u') {
        assert u[|u| - 1] == (Announce, Origin(o));
      }
      if exists i :: 0 <= i < |u| && u[i] == (Announce, Origin(o)) {
        var i :| 0 <= i < |u| && u[i] == (Announce, Origin(o));
        if i < |u| - 1 {
          assert u'[i] == u[i];
        }
      }
    }
  }

  /** A batch without announced route origins adds nothing. */
  lemma {:induction false} NoAnnouncementsAddNothing(u: Batch)
    requires forall i :: 0 <= i < |u| ==> !IsAnnouncedOrigin(u[i])
    ensures AnnouncedOrigins(u) == []
  {
    if u != [] {
      NoAnnouncementsAddNothing(u[..|u| - 1]);
    }
  }

  /** The observable state of a collector, as a value. */
  datatype CollectorState = CollectorState(roas: seq<RouteOrigin>, updateCount: nat, lastUpdateSize: nat)

  /** A freshly created collector. */
  const Fresh := CollectorState([], 0, 0)

  /** True when applying `u` to a collector holding `roas` signals the end of the initial sync. */
  predicate SignalsDone(roas: seq<RouteOrigin>, u: Batch) {
    |u| == 0 && |roas| > 0
  }

  /**
   * One call of `apply`, as a function of the old state: the result it
   * returns and the state it leaves behind.
   */
  function Step(s: CollectorState, u: Batch): (r: (Result<(), PayloadError>, CollectorState))
    ensures r.1.updateCount == s.updateCount + 1 && r.1.lastUpdateSize == |u|
    ensures r.0.Err? <==> |u| == 0 && |s.roas| > 0
    ensures r.0.Err? ==> r.1.roas == s.roas && |r.1.roas| > 0
    ensures r.0.Ok? ==> r.1.roas == s.roas + AnnouncedOrigins(u)
    ensures s.roas <= r.1.roas
  {
    var s' := s.(updateCount := s.updateCount + 1, lastUpdateSize := |u|);
    if SignalsDone(s.roas, u) then (Err(Corrupt), s')
    else (Ok(()), s'.(roas := s.roas + AnnouncedOrigins(u)))
  }

  /**
   * A sink driven by a client: the batches are applied in order until one
   * call returns an error, after which nothing more is applied. The boolean
   * says whether the sink asked to stop.
   */
  function Feed(s: CollectorState, batches: seq<Batch>): (r: (bool, CollectorState))
    ensures s.updateCount <= r.1.updateCount <= s.updateCount + |batches|
    ensures !r.0 ==> r.1.updateCount == s.updateCount + |batches|
    ensures r.0 ==> exists i :: 0 <= i < |batches| && batches[i] == []
    decreases |batches|
  {
    if batches == [] then (false, s)
    else
      var (res, s') := Step(s, batches[0]);
      if res.Err? then (true, s')
      else
        var r := Feed(s', batches[1..]);
        assert r.0 ==> exists i :: 0 < i < |batches| && batches[i] == [] by {
          if r.0 {
            var i :| 0 <= i < |batches[1..]| && batches[1..][i] == [];
            assert batches[i + 1] == [];
          }
        }
        r
  }

  /** Over a whole run the collected ROAs only grow, and a stop request always comes with ROAs. */
  lemma {:induction false} FeedGrows(s: CollectorState, batches: seq<Batch>)
    ensures s.roas <= Feed(s, batches).1.roas
    ensures Feed(s, batches).0 ==> |Feed(s, batches).1.roas| > 0
    decreases |batches|
  {
    if batches != [] {
      var (res, s') := Step(s, batches[0]);
      if res.Ok? {
        FeedGrows(s', batches[1..]);
      }
    }
  }

  /** Every announced origin of every batch, batch after batch. */
  function AllAnnounced(batches: seq<Batch>): seq<RouteOrigin>
    decreases |batches|
  {
    if batches == [] then [] else AnnouncedOrigins(batches[0]) + AllAnnounced(batches[1..])
  }

  /**
   * A run that never stops counts every batch and collects every announced
   * origin of every batch, in order.
   */
  lemma {:induction false} FeedCollectsAll(s: CollectorState, batches: seq<Batch>)
    requires !Feed(s, batches).0
    ensures Feed(s, batches).1.roas == s.roas + AllAnnounced(batches)
    ensures Feed(s, batches).1.updateCount == s.updateCount + |batches|
    decreases |batches|
  {
    if batches != [] {
      var (res, s') := Step(s, batches[0]);
      FeedCollectsAll(s', batches[1..]);
    }
  }

  /**
   * A run that stops does so at batch `i`: the batches before it run without
   * a stop and leave ROAs behind, batch `i` is empty, and the run keeps
   * exactly the ROAs of the batches before it. The stopping batch is counted
   * and recorded as having size zero, and nothing after it is applied.
   */
  lemma {:induction false} FeedStopsAtEmpty(s: CollectorState, batches: seq<Batch>) returns (i: nat)
    requires Feed(s, batches).0
    ensures i < |batches| && batches[i] == []
    ensures !Feed(s, batches[..i]).0 && |Feed(s, batches[..i]).1.roas| > 0
    ensures Feed(s, batches).1 == Feed(s, batches[..i]).1.(updateCount := s.updateCount + i + 1, lastUpdateSize := 0)
    ensures Feed(s, batches).1.roas == s.roas + AllAnnounced(batches[..i])
    decreases |batches|
  {
    var (res, s') := Step(s, batches[0]);
    if res.Err? {
      i := 0;
      assert batches[..0] == [];
    } else {
      var j := FeedStopsAtEmpty(s', batches[1..]);
      i := j + 1;
      var pre := batches[..i];
      assert pre[0] == batches[0] && pre[1..] == batches[1..][..j];
      FeedCollectsAll(s', batches[1..][..j]);
    }
  }

  /** One ROA, then an empty batch: the sink asks to stop and keeps exactly that ROA. */
  lemma OneRoaThenEmptyBatch(o: RouteOrigin)
    ensures Feed(Fresh, [[(Announce, Origin(o))], []]) == (true, CollectorState([o], 2, 0))
  {
    var b: Batch := [(Announce, Origin(o))];
    assert AnnouncedOrigins(b) == [o];
    assert [b, []][1..] == [[]];
  }

  /** The update sink, with the fields the RTR client library mutates through `apply`. */
  class RoaCollector {
    var roas: seq<RouteOrigin>
    var updateCount: nat
    var lastUpdateSize: nat

    /** The collector's fields, as a value. */
    function State(): CollectorState
      reads this
    {
      CollectorState(roas, updateCount, lastUpdateSize)
    }

    /** A collector with no ROAs and both counters at zero. */
    constructor ()
      ensures State() == Fresh
    {
      roas := [];
      updateCount := 0;
      lastUpdateSize := 0;
    }

    /** Begins a new batch: always an empty one, whether or not the session was reset. */
    method Start(reset: bool) returns (u: Batch)
      ensures u == []
    {
      u := [];
    }

    /**
     * Applies one batch: counts it, records its size, signals completion on
     * an empty batch after data, and otherwise appends every announced route
     * origin in batch order. The timing record is not used.
     */
    method Apply(update: Batch, timing: Timing) returns (r: Result<(), PayloadError>)
      modifies this
      ensures updateCount == old(updateCount) + 1
      ensures lastUpdateSize == |update|
      ensures r == if |update| == 0 && |old(roas)| > 0 then Err(Corrupt) else Ok(())
      ensures roas == if r.Err? then old(roas) else old(roas) + AnnouncedOrigins(update)
      ensures (r, State()) == Step(old(State()), update)
    {
      updateCount := updateCount + 1;
      lastUpdateSize := |update|;

      if |update| == 0 && |roas| > 0 {
        return Err(Corrupt);
      }

      for i := 0 to |update|
        invariant roas == old(roas) + AnnouncedOrigins(update[..i])
        invariant updateCount == old(updateCount) + 1 && lastUpdateSize == |update|
      {
        var (action, payload) := update[i];
        assert update[..i + 1][..i] == update[..i];
        if action == Announce && payload.Origin? {
          roas := roas + [payload.origin];
        }
      }
      assert update[..|update|] == update;
      r := Ok(());
    }
  }
}
