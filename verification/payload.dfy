/**
 * The values the validator receives from its RTR client library and from its
 * command line, already decoded: address families, prefixes, route origins,
 * the (action, payload) pairs of an update batch and the query prefix.
 */
module Payload {
  import opened Wrappers

  /** An 8-bit unsigned integer (`u8`): prefix lengths and max lengths. */
  type U8 = x: int | 0 <= x < 0x100

  /** A 32-bit unsigned integer (`u32`): autonomous system numbers. */
  type U32 = x: int | 0 <= x < 0x1_0000_0000

  /** The two IP address families. */
  datatype Family = V4 | V6

  /** Number of bits in an address of family `f`. */
  function AddressBits(f: Family): (n: nat)
    ensures n == 32 || n == 128
  {
    match f
    case V4 => 32
    case V6 => 128
  }

  /** Exclusive upper bound of the numeric value of an address of family `f`. */
  function AddressBound(f: Family): (n: nat)
    ensures n > 0
  {
    match f
    case V4 => 0x1_0000_0000
    case V6 => 0x1_0000_0000_0000_0000_0000_0000_0000_0000
  }

  /**
   * The prefix a ROA covers: an address (`IpAddr`, as its numeric value),
   * a prefix length and an optional max length.
   */
  datatype MaxLenPrefix = MaxLenPrefix(family: Family, addr: nat, len: U8, maxLen: Option<U8>)
  {
    /** What the library guarantees of every prefix it hands out. */
    predicate WellFormed() {
      && addr < AddressBound(family)
      && len <= AddressBits(family)
      && (maxLen.Some? ==> len <= maxLen.value <= AddressBits(family))
    }
  }

  /** A route origin (ROA entry): the prefix and the AS allowed to originate it. */
  datatype RouteOrigin = RouteOrigin(prefix: MaxLenPrefix, asn: U32)

  /** The kind of change an RTR update carries. */
  datatype Action = Announce | Withdraw

  /**
   * The payload of one update: a route origin, or any other payload kind
   * (router keys, ASPA records) that the validator ignores.
   */
  datatype Payload = Origin(origin: RouteOrigin) | OtherPayload

  /** One element of an update batch. */
  type Change = (Action, Payload)

  /** The timing record the client passes with every batch (End-of-Data intervals, in seconds). */
  datatype Timing = Timing(refresh: U32, retry: U32, expire: U32)

  /** The query prefix (`IpNet`) after it has been parsed. */
  datatype IpNet = IpNet(family: Family, addr: nat, len: U8)
  {
    /** What a successful parse guarantees. */
    predicate WellFormed() {
      addr < AddressBound(family) && len <= AddressBits(family)
    }
  }
}
