# rtr-validator, modelled in Dafny

rtr-validator is a one-shot command-line tool. It checks whether an IP prefix, and optionally an origin AS, is authorized under RPKI. It connects to an RTR (RPKI-to-Router) server and collects the route origin authorizations (ROAs) the server streams. It then looks the prefix up among them. This project models the logic of `src/main.rs` that decides the answer:

- **The ROA collector** (`Collector`). This is the update sink the RTR client drives. `RoaCollector` is a class with the fields the Rust struct has: `roas`, `updateCount` and `lastUpdateSize`. Its `Apply` method processes one batch of `(action, payload)` pairs in a loop. It appends every announced route origin in batch order. An empty batch that arrives after data makes it return `Err(Corrupt)`. That return value is the only way the sink can ask the client to stop reading. `Step` is the same operation as a function on a state value. `Feed` applies a sequence of batches in order and stops at the first error. The lemmas about `Feed` cover a whole run.
- **Session classification** (`Session`). The run loop under the overall deadline either succeeds, fails with an I/O error, or times out. Success and timeout are usable. An error is usable only when it reads as the collector's stop request: its kind is `Other`, or its text mentions "corrupt". Every other error is fatal. A usable session that collected no ROAs is fatal too (`Collected`).
- **Exact-match lookup and verdict** (`Matching`). A ROA matches the query only when the address family, address and prefix length are all equal. The query's address is compared as written, host bits included, so a query such as 10.0.0.1/24 is NOT FOUND even when a ROA for 10.0.0.0/24 exists. Each match is reported as `(asn, max length)`. The max length defaults to the prefix length when it is unset. From the matches the tool derives NOT FOUND, FOUND, or VALID/INVALID when an AS is given. This is route-origin validation in the sense of section 2 of RFC 6811, restricted to exact-prefix equality.
- **The flow after the session** (`Validator`). `Validate` chains classification, the empty-set guard, matching and the verdict. It also states the cross-component properties and the worked examples. Matching and the verdict are functions, so evaluating the same ROA set and query twice gives the same result.

Integer widths follow the Rust types. ASNs are `U32`, and prefix and max lengths are `U8`. Addresses are naturals. The bound of 2^32 or 2^128, depending on the family, is stated in the `WellFormed` predicates of `MaxLenPrefix` and `IpNet`. It is not part of the field types.

## Model

| member | source | states |
|---|---|---|
| `Collector.RoaCollector.constructor` | src/main.rs:40-46 | a new collector holds no ROAs and both counters are zero |
| `Collector.RoaCollector.Start` | src/main.rs:52-54 | every batch starts empty, whether or not the session was reset |
| `Collector.RoaCollector.Apply` | src/main.rs:56-78 | the update count grows by one and the last size becomes the batch length; an empty batch after data returns `Err(Corrupt)` and leaves `roas` unchanged; otherwise returns `Ok` and `roas` becomes the old list followed by the batch's announced origins; the new state is exactly `Step` of the old |
| `Collector.Step` | src/main.rs:61-77 | one apply as a function: the stop error is returned iff the batch is empty and ROAs were already held; on stop the ROA list is unchanged and non-empty; the old list is always a prefix of the new one (never shrinks) |
| `Collector.AnnouncedOrigins` | src/main.rs:70-76 | a batch contributes at most as many origins as it has changes |
| `Collector.AnnouncedOriginsMember` | src/main.rs:70-76 | an origin is collected from a batch iff some change in it is `(Announce, Origin(o))`; withdrawals and other payload kinds add nothing |
| `Collector.AnnouncedOriginsAppend` | src/main.rs:70-76 | collecting from two batches in sequence equals collecting from their concatenation, in order |
| `Collector.NoAnnouncementsAddNothing` | src/main.rs:70-76 | a batch of withdrawals and non-origin payloads collects nothing |
| `Collector.Feed` | src/main.rs:113-117 | the assumed way a client drives the sink: batches are applied in order until the first error. The count never grows by more than the number of batches given, and a run without a stop counts all of them. A stop only ever follows an empty batch |
| `Collector.FeedGrows` | src/main.rs:61-77 | over any sequence of applies the ROA list only grows, and a stop request always comes with at least one ROA held |
| `Collector.FeedCollectsAll` | src/main.rs:61-77 | a run with no stop request counts every batch and collects every announced origin of every batch, in order |
| `Collector.FeedStopsAtEmpty` | src/main.rs:61-77 | a run that stops does so at an empty batch `i`. The batches before it run without a stop and leave ROAs held. The run keeps exactly the ROAs announced in those earlier batches. The count is one more than the batches before the stop, and the recorded size is zero |
| `Collector.OneRoaThenEmptyBatch` | src/main.rs:61-77 | one ROA followed by an empty batch: the sink asks to stop after two updates and retains exactly that ROA |
| `Session.Classify` | src/main.rs:119-136 | success is `Completed`, a timeout is `TimedOut`, an error of kind `Other` or mentioning "corrupt" is `SignaledDone`, any other error is `Failed` with the same error |
| `Session.ClassifyUsable` | src/main.rs:119-136 | an outcome is usable iff the run did not error, or its error has kind `Other` or mentions "corrupt"; an unusable outcome carries the original error |
| `Session.Collected` | src/main.rs:119-142 | the ROAs reach the matching step iff the outcome is usable and at least one ROA was collected; a usable empty set gives `NoRoasReceived`; a failed run gives `FetchFailed` with its error |
| `Matching.IsMatch` | src/main.rs:151-159 | true iff the query has the same family, the same address as written and the same prefix length, i.e. the query equals the ROA's prefix without its max length; a match with a well-formed ROA implies a well-formed query |
| `Matching.EffectiveMaxLen` | src/main.rs:162 | the max length is the ROA's own when set and its prefix length otherwise; for a well-formed prefix it lies between the prefix length and the family's bit width |
| `Matching.Matches` | src/main.rs:146-165 | the matching pass reports at most one entry per ROA |
| `Matching.MatchingRoas` | src/main.rs:146-165 | the loop that pushes `(asn, max_len)` for each matching ROA computes exactly `Matches` |
| `Matching.MatchesMember` | src/main.rs:151-164 | an entry is reported iff some ROA with the same family, address and prefix length as the query produces it |
| `Matching.MatchesInOrder` | src/main.rs:146-165 | the k-th reported entry comes from the k-th matching ROA: the matches keep list order and omit no matching ROA |
| `Matching.OtherFamilyNeverMatches` | src/main.rs:151-159 | ROAs of the other address family never match, whatever their numeric address |
| `Matching.AnyAsn` | src/main.rs:179 | true iff some match carries the AS asked about |
| `Matching.AuthorizedAsns` | src/main.rs:185 | the authorized list is the matches' ASes, one per match, in order |
| `Matching.Decide` | src/main.rs:169-187 | NOT FOUND iff there are no matches; with matches and no AS, FOUND with all matches; with an AS, VALID iff some match carries it, otherwise INVALID with every matched AS in order |
| `Matching.Evaluate` | src/main.rs:146-187 | the verdict `Decide` gives over `Matches`. Any entries it reports are exactly the non-empty matches. FOUND is given iff there are matches and no AS was asked about. VALID and INVALID answer the AS that was asked about |
| `Matching.EvaluateNotFound` | src/main.rs:146-171 | NOT FOUND iff no collected ROA is for exactly the query prefix |
| `Matching.EvaluateValid` | src/main.rs:146-184 | VALID iff some ROA for exactly the query prefix names the AS asked about |
| `Validator.Validate` | src/main.rs:119-187 | a verdict is produced iff the session is usable and ROAs were collected, and it is the verdict over those ROAs; otherwise the matching fatal error |
| `Validator.NoRoasNeverNotFound` | src/main.rs:138-142 | zero ROAs always ends in an error, never in NOT FOUND, however the session ended |
| `Validator.StopRequestReachesVerdict` | src/main.rs:65-68 | a run ended by the collector's stop request, reported as a recognised error, always reaches a verdict |
| `Validator.ExactPrefixOnly` | src/main.rs:151-159 | a ROA for 10.0.0.0/16 does not answer a query for 10.0.0.0/17 |
| `Validator.QueryAddressAsWritten` | src/main.rs:152-153 | a query for 10.0.0.1/24, with host bits set, is NOT FOUND against a ROA for 10.0.0.0/24 |
| `Validator.MaxLenDefaultsToPrefixLength` | src/main.rs:162 | a /24 ROA without a max length is reported with max length 24 |
| `Validator.AsnNarrowing` | src/main.rs:178-186 | with ROAs for AS64500 and AS64501 on 10.0.0.0/24, AS64500 is VALID and AS64502 is INVALID with `[64500, 64501]` listed |

## Left out

- Command-line parsing (src/main.rs:13-31, 83) is done by a library and has no logic of its own. The query AS and prefix are parameters of the model.
- Prefix text parsing (src/main.rs:85-86) is a library call. The query is an already-parsed `IpNet` of family, address and length. Its `WellFormed` predicate records what a successful parse guarantees.
- Server address parsing, DNS resolution and the choice of the first address (src/main.rs:88-96) depend on the operating system.
- The TCP connect, its 10-second deadline and the session deadline (src/main.rs:100-117) are I/O and wall-clock time. How the run ended is an input value, `RunResult`.
- The RTR client is outside this model: its PDU handling, its run loop and `into_target` (src/main.rs:111, 115, 122). `Feed` only assumes that a client applies batches in order and stops at the sink's first error. How the client turns `Corrupt` into an `io::Error` is not part of this model. `StopRequestReachesVerdict` therefore takes the recognised error as a hypothesis.
- Session.IoError: the test `e.to_string().contains("corrupt")` (src/main.rs:125) matches against a foreign error's text. It is abstracted as the boolean `mentionsCorrupt`.
- All console output (src/main.rs:98-187) is left out. The verdict is the datatype `Verdict`, and the fatal errors are `Fatal`.
- Collector.RoaCollector.Apply: `update_count` is a `usize` and is modelled as an unbounded natural. Its overflow, a panic or wrap-around depending on the build, is not modelled. The `Timing` record is accepted and ignored, as in the source.
- The prefix inside a ROA is taken as given. The library's invariants on it (address below the family bound, length and max length within range) are stated in `MaxLenPrefix.WellFormed`. They are assumed only where a lemma needs them.
- The end of the initial sync is detected only by an empty batch after data (src/main.rs:65). The `Timing` record passed to `apply` is ignored, so the End-of-Data refresh interval is never a completion signal.
