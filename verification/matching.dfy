/**
 * The exact-match lookup and the verdict. A ROA authorizes the query prefix
 * only when its address family, address and prefix length are all equal to
 * the query's, the query's address being compared as written, host bits
 * included. This is route-origin validation in the sense of section 2 of
 * RFC 6811, restricted to the one prefix asked about rather than covering
 * prefixes.
 */
module Matching {
  import opened Wrappers
  import opened Payload

  /** One authorizing ROA as reported: its AS and its effective max length. */
  datatype Entry = Entry(asn: U32, maxLen: U8)

  /**
   * True when `roa` is for exactly the query prefix `q`: the same family, the
   * same address and the same prefix length. The query's address is compared
   * as written, so a query with host bits set matches no ROA whose address
   * has them clear. A ROA's max length plays no part.
   */
  predicate IsMatch(q: IpNet, roa: RouteOrigin)
    ensures IsMatch(q, roa) <==> q == IpNet(roa.prefix.family, roa.prefix.addr, roa.prefix.len)
    ensures IsMatch(q, roa) && roa.prefix.WellFormed() ==> q.WellFormed()
  {
    q.family == roa.prefix.family && q.addr == roa.prefix.addr && q.len == roa.prefix.len
  }

  /** The ROA's max length, which defaults to its own prefix length. */
  function EffectiveMaxLen(roa: RouteOrigin): (m: U8)
    ensures roa.prefix.maxLen.Some? ==> m == roa.prefix.maxLen.value
    ensures roa.prefix.maxLen.None? ==> m == roa.prefix.len
    ensures roa.prefix.WellFormed() ==> roa.prefix.len <= m <= AddressBits(roa.prefix.family)
  {
    roa.prefix.maxLen.UnwrapOr(roa.prefix.len)
  }

  /** The entry reported for a matching ROA. */
  function EntryOf(roa: RouteOrigin): Entry {
    Entry(roa.asn, EffectiveMaxLen(roa))
  }

  /** The entries of the ROAs in `roas` that match `q`, in list order. */
  function Matches(roas: seq<RouteOrigin>, q: IpNet): (m: seq<Entry>)
    ensures |m| <= |roas|
  {
    if roas == [] then []
    else
      var last := roas[|roas| - 1];
      Matches(roas[..|roas| - 1], q) + (if IsMatch(q, last) then [EntryOf(last)] else [])
  }

  /** The matching pass over the collected ROAs. */
  method MatchingRoas(roas: seq<RouteOrigin>, q: IpNet) returns (m: seq<Entry>)
    ensures m == Matches(roas, q)
  {
    m := [];
    for i := 0 to |roas|
      invariant m == Matches(roas[..i], q)
    {
      assert roas[..i + 1][..i] == roas[..i];
      var roa := roas[i];
      var isMatch := match (q.family, roa.prefix.family)
        case (V4, V4) => roa.prefix.addr == q.addr && roa.prefix.len == q.len
        case (V6, V6) => roa.prefix.addr == q.addr && roa.prefix.len == q.len
        case _ => false;
      if isMatch {
        var maxLen := roa.prefix.maxLen.UnwrapOr(roa.prefix.len);
        m := m + [Entry(roa.asn, maxLen)];
      }
    }
    assert roas[..|roas|] == roas;
  }

  /** An entry is reported exactly when some matching ROA produces it. */
  lemma {:induction false} MatchesMember(roas: seq<RouteOrigin>, q: IpNet, e: Entry)
    ensures e in Matches(roas, q) <==> exists i :: 0 <= i < |roas| && IsMatch(q, roas[i]) && EntryOf(roas[i]) == e
  {
    if roas != [] {
      var init := roas[..|roas| - 1];
      MatchesMember(init, q, e);
      if exists i :: 0 <= i < |roas| && IsMatch(q, roas[i]) && EntryOf(roas[i]) == e {
        var i :| 0 <= i < |roas| && IsMatch(q, roas[i]) && EntryOf(roas[i]) == e;
        if i < |roas| - 1 {
          assert init[i] == roas[i];
        }
      }
    }
  }

  /**
   * The matches are the matching ROAs, in order and without omission: the
   * k-th entry comes from the k-th matching ROA of the list.
   */
  lemma {:induction false} MatchesInOrder(roas: seq<RouteOrigin>, q: IpNet) returns (idx: seq<nat>)
    ensures |idx| == |Matches(roas, q)|
    ensures forall k :: 0 <= k < |idx| ==>
      idx[k] < |roas| && IsMatch(q, roas[idx[k]]) && Matches(roas, q)[k] == EntryOf(roas[idx[k]])
    ensures forall k, l :: 0 <= k < l < |idx| ==> idx[k] < idx[l]
    ensures forall i :: 0 <= i < |roas| && IsMatch(q, roas[i]) ==> i in idx
  {
    if roas == [] {
      idx := [];
    } else {
      var n := |roas| - 1;
      var init := roas[..n];
      var idx' := MatchesInOrder(init, q);
      idx := if IsMatch(q, roas[n]) then idx' + [n] else idx';
      ExtendSound(roas, init, q, idx', idx);
      ExtendComplete(roas, init, q, idx', idx);
    }
  }

  /**
   * Step of `MatchesInOrder`: positions that produce the matches of all but
   * the last ROA, plus the last ROA's position when it matches, produce the
   * matches of the whole list.
   */
  lemma ExtendSound(roas: seq<RouteOrigin>, init: seq<RouteOrigin>, q: IpNet, idx': seq<nat>, idx: seq<nat>)
    requires roas != [] && init == roas[..|roas| - 1]
    requires |idx'| == |Matches(init, q)|
    requires forall k :: 0 <= k < |idx'| ==>
      idx'[k] < |init| && IsMatch(q, init[idx'[k]]) && Matches(init, q)[k] == EntryOf(init[idx'[k]])
    requires idx == if IsMatch(q, roas[|roas| - 1]) then idx' + [|roas| - 1] else idx'
    ensures |idx| == |Matches(roas, q)|
    ensures forall k :: 0 <= k < |idx| ==>
      idx[k] < |roas| && IsMatch(q, roas[idx[k]]) && Matches(roas, q)[k] == EntryOf(roas[idx[k]])
  {
  }

  /**
   * Step of `MatchesInOrder`: extending the positions by the last ROA's keeps
   * them increasing and leaves no matching ROA out.
   */
  lemma ExtendComplete(roas: seq<RouteOrigin>, init: seq<RouteOrigin>, q: IpNet, idx': seq<nat>, idx: seq<nat>)
    requires roas != [] && init == roas[..|roas| - 1]
    requires forall k :: 0 <= k < |idx'| ==> idx'[k] < |init|
    requires forall k, l :: 0 <= k < l < |idx'| ==> idx'[k] < idx'[l]
    requires forall i :: 0 <= i < |init| && IsMatch(q, init[i]) ==> i in idx'
    requires idx == if IsMatch(q, roas[|roas| - 1]) then idx' + [|roas| - 1] else idx'
    ensures forall k, l :: 0 <= k < l < |idx| ==> idx[k] < idx[l]
    ensures forall i :: 0 <= i < |roas| && IsMatch(q, roas[i]) ==> i in idx
  {
  }

  /** An IPv4 query never matches an IPv6 ROA, nor an IPv6 query an IPv4 ROA. */
  lemma {:induction false} OtherFamilyNeverMatches(roas: seq<RouteOrigin>, q: IpNet)
    requires forall i :: 0 <= i < |roas| ==> roas[i].prefix.family != q.family
    ensures Matches(roas, q) == []
  {
    if roas != [] {
      OtherFamilyNeverMatches(roas[..|roas| - 1], q);
    }
  }

  /** The outcome of a validation request. */
  datatype Verdict =
    | NotFound                                                  // no ROA for this prefix
    | Found(entries: seq<Entry>)                                // ROAs found, no AS asked about
    | Valid(asn: U32, entries: seq<Entry>)                      // the AS is among the matches
    | Invalid(asn: U32, entries: seq<Entry>, authorized: seq<U32>) // it is not; these are

  /** True when some entry of `m` is for `asn`. */
  function AnyAsn(m: seq<Entry>, asn: U32): (b: bool)
    ensures b <==> exists i :: 0 <= i < |m| && m[i].asn == asn
  {
    if m == [] then false else m[0].asn == asn || AnyAsn(m[1..], asn)
  }

  /** The ASes of `m`, in order. */
  function AuthorizedAsns(m: seq<Entry>): (a: seq<U32>)
    ensures |a| == |m|
    ensures forall i :: 0 <= i < |m| ==> a[i] == m[i].asn
  {
    if m == [] then [] else [m[0].asn] + AuthorizedAsns(m[1..])
  }

  /** The verdict for the matches `m` and the optional AS asked about. */
  function Decide(m: seq<Entry>, asn: Option<U32>): (v: Verdict)
    ensures v.NotFound? <==> |m| == 0
    ensures |m| > 0 && asn.None? ==> v == Found(m)
    ensures |m| > 0 && asn.Some? ==> (v.Valid? || v.Invalid?) && v.asn == asn.value && v.entries == m
    ensures v.Valid? <==> |m| > 0 && asn.Some? && exists i :: 0 <= i < |m| && m[i].asn == asn.value
    ensures v.Invalid? ==> |v.authorized| == |m| && forall i :: 0 <= i < |m| ==> v.authorized[i] == m[i].asn
  {
    if |m| == 0 then NotFound
    else match asn
      case None => Found(m)
      case Some(a) => if AnyAsn(m, a) then Valid(a, m) else Invalid(a, m, AuthorizedAsns(m))
  }

  /** The verdict for query `q` and optional AS `asn` over the ROAs `roas`. */
  function Evaluate(roas: seq<RouteOrigin>, q: IpNet, asn: Option<U32>): (v: Verdict)
    ensures !v.NotFound? ==> v.entries == Matches(roas, q) && |v.entries| > 0
    ensures v.Found? <==> asn.None? && |Matches(roas, q)| > 0
    ensures v.Valid? || v.Invalid? ==> asn == Some(v.asn)
  {
    Decide(Matches(roas, q), asn)
  }

  /** NOT FOUND exactly when no ROA of the list is for the query prefix. */
  lemma EvaluateNotFound(roas: seq<RouteOrigin>, q: IpNet, asn: Option<U32>)
    ensures Evaluate(roas, q, asn).NotFound? <==> forall i :: 0 <= i < |roas| ==> !IsMatch(q, roas[i])
  {
    var m := Matches(roas, q);
    if m != [] {
      MatchesMember(roas, q, m[0]);
    }
    if exists i :: 0 <= i < |roas| && IsMatch(q, roas[i]) {
      var i :| 0 <= i < |roas| && IsMatch(q, roas[i]);
      MatchesMember(roas, q, EntryOf(roas[i]));
    }
  }

  /** VALID exactly when some ROA for the query prefix names the AS asked about. */
  lemma EvaluateValid(roas: seq<RouteOrigin>, q: IpNet, asn: U32)
    ensures Evaluate(roas, q, Some(asn)).Valid? <==>
      exists i :: 0 <= i < |roas| && IsMatch(q, roas[i]) && roas[i].asn == asn
  {
    var m := Matches(roas, q);
    if exists k :: 0 <= k < |m| && m[k].asn == asn {
      var k :| 0 <= k < |m| && m[k].asn == asn;
      MatchesMember(roas, q, m[k]);
    }
    if exists i :: 0 <= i < |roas| && IsMatch(q, roas[i]) && roas[i].asn == asn {
      var i :| 0 <= i < |roas| && IsMatch(q, roas[i]) && roas[i].asn == asn;
      MatchesMember(roas, q, EntryOf(roas[i]));
      var k :| 0 <= k < |m| && m[k] == EntryOf(roas[i]);
    }
  }
}
