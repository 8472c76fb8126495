# o-sfu benchmark pairs, verified

Most files of the benchmark crate hold a fast form and a simple form of the same computation, and mean the
two to agree. This project models six of them in Dafny and proves that they do, for every input rather than
for the fixtures' data, or proves exactly when they do not.

| files | what they model |
|---|---|
| `KeyframeCoalescing.dfy` | keyframe requests coalesced by a stably sorted reusable vector and by a map fold |
| `UdpDemux.dfy`, `UdpDemuxFixtures.dfy` | the remote-address demultiplexer with its two pairs of indexes, and the lookups and scans over it |
| `SourcePolicy.dfy`, `SourcePolicyTotals.dfy`, `SourcePolicyOutcome.dfy`, `SourcePolicyPlanners.dfy`, `SourcePolicyFixture.dfy` | the two source-policy planners, what both must plan, and what they return read off routes, sources and bandwidths |
| `H264Scanner.dfy`, `Vp8Scanner.dfy`, `PacketFingerprint.dfy`, `Simd.dfy` | the batched packet scanners and the vector instructions under them |
| `ConsumerGate.dfy`, `ConsumerGateRuns.dfy`, `ConsumerGateRoutes.dfy` | gate batches by three lookups, and routes maintained under removal and arrival |
| `PacketMetrics.dfy`, `PacketMetricsTotals.dfy`, `PacketMetricsAgreement.dfy`, `PacketMetricsBenchmark.dfy` | worker threads adding to shared, per-worker or thread-local counters under every schedule; what the three forms return; exactly when they agree; the benchmark's own payloads |
| `Ordering.dfy`, `Sequences.dfy`, `Machine.dfy`, `Transport.dfy` | stable sorting, buckets and key order; sequence facts; machine words; session keys |

## How the model reads the source

- `usize` is 64 bits. Saturating additions are written out (`SatAdd`), wrapping ones as remainders of 2^64.
- A `HashMap` or `BTreeMap` is a `map`; iterating a `BTreeMap` is iterating `AscendingKeys`. A `Vec` that a
  method mutates is a field or variable of type `seq` that it reassigns.
- `sort_by_key` is the stable insertion sort `SortByKey`. `AnyStableSortAgrees` shows that no other stable
  sort can return anything else, so the choice of algorithm does not matter.
- Contracts speak of declarative specifications, not of loops: a batch is what happens to each destination, a
  bucket is the list of sessions whose latest call names the address, a plan is a receiver's included routes.
- The demultiplexer carries the list of calls made so far as ghost state. `Valid()` ties the four maps to that
  list, so every contract holds in every state any run of calls can reach.
- Where code and specification share a function or a constant, a second statement fixes what it means without it:
  cardinalities of sets of requests, probes, routes, payloads or updates, positions in lists, bits and numbers. So
  the byte values, rotations, thresholds and formats of the source appear a second time, written out, in contracts.
- Ghost out-parameters (`closed`, `coalesced`, `plans`, `history`) record what a cycle computes on its way to
  the number it returns.
- Worker threads are a step system: reaching the barrier, leaving it, and every addition to a counter are one
  step each, and a schedule is any list of worker numbers. `Step` takes the next step of a worker. Atomic
  counters wrap, thread-local fields saturate (`Stored`). The class `LocalCounters` and the methods beside it are
  the thread-local form as code; `ThreadLocalTotal` says the same of every interleaving of the threads.
- The sums over worker totals (`iter().sum()`) wrap, as in a release build; when they fit, a debug build does
  the same.
- In the STAP-A scanner a byte is a number below 256 and the masks are remainders (`MasksAreRemainders`). In the
  VP8 scanner bytes are bit-vectors. In fingerprints bytes and words are sequences of bits; the length word is
  read off the packet and shown to hold its length (`LengthWordIsLength`).
- The vector instructions are modelled lane by lane after their documented meaning: byte equality gives 0xff or
  0x00, `movemask` collects top bits, a 16-byte load is two little-endian 64-bit lanes. Both ways of building a
  mask, `movemask` and the lane loop of the other target, are shown equal, and so are both ways of asking whether
  any lane matched, by mask and by largest lane.
- `vp8::payload_starts_keyframe` is an arbitrary function; the batched counter agrees with the one-at-a-time
  test whatever it is.

## What turned out not to hold everywhere

- The STAP-A scanner's answer on a malformed payload depends on where batches of sixteen end: it agrees with
  "some unit before the malformed one is IDR" exactly when the payload is clean, holds no IDR unit, or holds one
  in a full batch, and with "malformed payloads never count" exactly when the payload is clean or no full batch
  holds one (`MalformedPayloads`, with inputs for both failures in `NeitherReadingAlwaysHolds`).
- The simple VP8 test masks four bits as the partition id, where RFC 7741, section 4.2, has three and a reserved
  bit that receivers ignore. It agrees with the RFC exactly when the payload is no keyframe start or that bit is
  clear (`SimpleTestAgainstRfc`).
- The three metric forms return the closed form of their input exactly when it fits in a u64; for the benchmark's own
  payloads that is up to 6,848,483 workers (`BenchmarkTotals`). What they return otherwise is in closed form too, for
  every input and schedule, and each pair of forms has its exact condition. All rest on the cap being a multiple of
  three and three being invertible modulo 2^64.
  - Thread-local against per-worker: up to three workers, exactly when each worker's counters do not wrap or what
    wrapping leaves still saturates its total (`FewThreadsAgainstWorkers`); three is sharp
    (`FourThreadsCanLoseAndAgree`). For any number, exactly when the room the wrapped counters leave adds up to a
    multiple of 2^64 (`ThreadLocalAgainstPerWorker`).
  - Shared against per-worker, and shared against thread-local: exactly when saturation cuts equal amounts, modulo
    2^64, off the shared total and off the workers' totals (`SharedAgainstPerWorker`, `SharedAgainstThreadLocal`).
  - While no shared counter wraps, the two joined forms agree, and the shared one agrees with them exactly when there
    is at most one worker or the exact total fits, but for one sum that takes five workers and over 6 * 10^18 packets
    (`AgreementWithoutWrapping`). For the benchmark's payloads that is again up to 6,848,483 workers
    (`BenchmarkFormsAgree`). `ThreadLocalCanDiffer` and `SharedCanDiffer` give payloads that tell the forms apart.
- A remove/add cycle leaves the position index exact exactly when the id it hands out is fresh; that holds until
  ids saturate (`NumberingGoesOn`, `SaturatedIdsCollide`).
- A built position index is exact precisely when no two destinations share its key (`BuiltIndexIsExact`), and its
  lookup agrees with the linear search on every update precisely then (`MediaIdLookupAgrees`,
  `IdentityLookupAgrees`): media ids for the one index, pairs of session and media id for the other. The linear
  cycle is proved for all destinations, shared pairs included: it reaches the first destination of each pair named.
  The indexed cycles are proved to do the same wherever their index is exact.
- Fingerprints tell all packets of one length apart exactly below eight bytes (`LengthsWithoutCollision`). From eight
  bytes on the packets of zeroes and of ones collide (`LongPacketsCollide`); which packets collide is decided by
  their first and last eight bytes (`PacketsCollide`).

## Model

| member | source | states |
|---|---|---|
| Ordering.SortByKey | src/performance_hardening.rs:124 | the sort is stable: keys ascend and equal keys keep their order |
| Ordering.AnyStableSortAgrees | src/performance_hardening.rs:124 | every stable sort of a vector returns the same vector, so the library's algorithm cannot matter |
| Ordering.StableSortIsPermutation | src/source_policy_refresh.rs:250-251 | no stable sort, whatever its algorithm, loses or repeats an element |
| Ordering.AscendingKeys | src/source_policy_refresh.rs:207 | iteration of an ordered map visits every key once, in ascending order |
| Ordering.GroupOneMore | src/source_policy_refresh.rs:124-130 | pushing onto a key's entry keeps the map equal to the buckets of the elements seen, in their order |
| Ordering.BucketsPartition | src/source_policy_refresh.rs:206-227 | grouping conserves: the groups of all keys together hold every element exactly once |
| KeyframeCoalescing.SummarySnoc | src/performance_hardening.rs:78-83 | one more request changes only its source's summary: it opens it, or is coalesced into it |
| KeyframeCoalescing.OpenRun | src/performance_hardening.rs:136-142 | starting a run at a new, larger source extends the list of finished summaries by exactly that request |
| KeyframeCoalescing.ExtendRun | src/performance_hardening.rs:129-135 | coalescing into the open run keeps every run the summary of its source |
| KeyframeCoalescing.StableSortKeepsSummaries | src/performance_hardening.rs:124 | a stable sort changes no source's first rid, no source's kind and no set of sources |
| KeyframeCoalescing.StabilityIsNeeded | src/performance_hardening.rs:80 | two equally sorted permutations that owe a source different rids: without stability the forms differ |
| KeyframeCoalescing.SummaryIsOwed | src/performance_hardening.rs:78-83 | the request owed to a source has the rid of the first of its requests with one, and is Fir iff one of them is |
| KeyframeCoalescing.KeyframeCoalescingFixture.ReusableVecCoalescingCycle | src/performance_hardening.rs:113-149 | the runs closed by the sorted loop, the last included, are one a requested source, in ascending order, each what the requests of its source amount to; the count is the number of different sources, capped |
| KeyframeCoalescing.KeyframeCoalescingFixture.FreshBTreeCoalescingCycle | src/performance_hardening.rs:152-165 | the map fold's keys are exactly the requested sources, each entry what the requests of its source amount to; the count is the number of different sources |
| KeyframeCoalescing.ClosedAreMapValues | src/performance_hardening.rs:127-164 | what the sorted loop closes is, in order, the values of the map by ascending key |
| KeyframeCoalescing.SourceCountIsBounded | src/performance_hardening.rs:137-148 | for any vector the saturating count never saturates, so both cycles return the same number |
| UdpDemux.RemoteAddrDemux.constructor | src/rtc_udp_demux.rs:17-23 | the empty demultiplexer is consistent with no calls |
| UdpDemux.WithoutIsCut | src/rtc_udp_demux.rs:103 | retaining everything but an element cuts its one occurrence and keeps the order |
| UdpDemux.RemoteAddrDemux.RememberRemoteAddr | src/rtc_udp_demux.rs:30-56 | in every reachable state: false iff the session already owns the address and nothing changes; else the address is cut out of its owner's list, is at the end of the session's, no list is empty, and the maps stay inverse and equal to the last-writer map of the run |
| UdpDemux.RemoteAddrDemux.RemoveRemoteAddrFromSession | src/rtc_udp_demux.rs:95-107 | one list loses the address, an emptied list goes, all others stay |
| UdpDemux.RemoteAddrDemux.ReplaceSessionRemoteCandidateAddrs | src/rtc_udp_demux.rs:64-84 | in every reachable state, for any address list, duplicates and empty included: the session is cut out of every bucket and is once at the end of the listed ones, other sessions keep their order, no bucket is empty, and the buckets stay in closed form over the run |
| UdpDemux.RemoteAddrDemux.RemoveCandidateSession | src/rtc_udp_demux.rs:109-121 | one bucket loses the session, an emptied bucket goes, all others stay |
| UdpDemux.LastWriterIsLatest | src/rtc_udp_demux.rs:42-44 | the last-writer map gives each address the session of its latest learning, and only to learned addresses |
| UdpDemux.LearningExtendsRun | src/rtc_udp_demux.rs:42-55 | moving an address keeps every known address in exactly one list, once, and no list empty |
| UdpDemux.EvictionReachesEveryList | src/rtc_udp_demux.rs:45-47 | clearing the address from the evicted session's list alone clears it from every list |
| UdpDemux.RemovalReachesEveryBucket | src/rtc_udp_demux.rs:69-73 | removing the session at its stored addresses alone removes it from every bucket |
| UdpDemux.OfferingSnoc | src/rtc_udp_demux.rs:64-84 | closed form: after one more call a bucket is the old one without the session, then the session if it lists the address |
| UdpDemux.OfferedIffStored | src/rtc_udp_demux.rs:74-83 | after any run a session is in an address's bucket iff the address is in its stored list |
| UdpDemux.ReplacementExtendsRun | src/rtc_udp_demux.rs:64-84 | a replacement keeps both candidate maps mirrored, buckets non-empty and without duplicates, and in closed form |
| UdpDemuxFixtures.ScanAgreesWithIndex | src/rtc_udp_demux.rs:160-189 | some live session's list holds the address iff the index maps it to a live session |
| UdpDemuxFixtures.RtcUdpDemuxFixture.CachedLookupCycle | src/rtc_udp_demux.rs:160-172 | hits are the number of probes the index maps to a live session, for any reachable demultiplexer, live set and probes |
| UdpDemuxFixtures.RtcUdpDemuxFixture.LinearScanCycle | src/rtc_udp_demux.rs:175-189 | the scan counts exactly the same probes |
| UdpDemuxFixtures.NewRtcUdpDemuxFixture | src/rtc_udp_demux.rs:133-152 | a fixture exists exactly for 1 to 55,536 sessions; probe i is port 10,000 + i of the loopback address, mapped to the i-th of as many live sessions, so every probe is a hit |
| UdpDemuxFixtures.BucketAgreesWithLists | src/rtc_udp_demux.rs:228-240 | an address has a non-empty bucket iff some session's stored list offers it |
| UdpDemuxFixtures.EntriesAgreeWithLists | src/rtc_udp_demux.rs:243-255 | scanning a list of the stored entries finds an address iff some stored list offers it |
| UdpDemuxFixtures.RtcUnknownSourceRecoveryFixture.IndexedLookupCycle | src/rtc_udp_demux.rs:228-240 | hits are the number of probes in some session's stored list |
| UdpDemuxFixtures.RtcUnknownSourceRecoveryFixture.LinearScanCycle | src/rtc_udp_demux.rs:243-255 | the scan counts exactly the same probes when its list mirrors the stored map |
| UdpDemuxFixtures.NewRtcUnknownSourceRecoveryFixture | src/rtc_udp_demux.rs:201-220 | a fixture exists exactly for 1 to 55,536 sessions; its list holds the i-th session with port 10,000 + i, mirrors the stored map, and every probe is a hit |
| SourcePolicy.LadderIsSortedPermutation | src/source_policy_refresh.rs:249-256 | a ladder is the source's bitrates in ascending order, none lost or added |
| SourcePolicy.SelectionIsRight | src/source_policy_refresh.rs:154-169 | for every included route neither fallback is used; featured routes get the maximum, unfeatured ones of a receiver with over nine visible routes the minimum, others their step |
| SourcePolicyPlanners.VisibleScalableRouteCounts | src/source_policy_refresh.rs:184-193 | exactly the consumers with an active route to an active source have an entry, and it is the number of those routes |
| SourcePolicyPlanners.SelectBitrates | src/source_policy_refresh.rs:208-220 | the capped sum of the selected bitrates, and the first budget among the routes |
| SourcePolicyTotals.EvenRoutesAreCounted | src/source_policy_refresh.rs:225-226 | the routes a group counts on top of its length are those with an even source number |
| SourcePolicyPlanners.PlanCurrentRoutes | src/source_policy_refresh.rs:205-229 | one plan a receiver in ascending order; the score adds routes, receivers over budget and even routes |
| SourcePolicyPlanners.GroupsGivePlans | src/source_policy_refresh.rs:124-131 | grouping the route inputs by consumer yields the specified plans, with each receiver's own budget |
| SourcePolicyPlanners.CurrentRebuildCycle | src/source_policy_refresh.rs:98-132 | makes the specified plans; scores, capped, the planned routes, the consumers above their last bandwidth, and the planned routes with an even source number once more |
| SourcePolicyPlanners.GroupRouteIndexes | src/source_policy_refresh.rs:138-148 | the groups of route indexes stand, in order, for the groups of included route inputs |
| SourcePolicyPlanners.CachedSelection | src/source_policy_refresh.rs:155-169 | cached ladder and route index select the bitrate the rebuilt route input selects |
| SourcePolicyPlanners.PlanReceiver | src/source_policy_refresh.rs:152-171 | the capped sum of the receiver's selected bitrates and its number of routes |
| SourcePolicyPlanners.CachedLadderCycle | src/source_policy_refresh.rs:135-178 | makes the very same plans: receivers, routes, bitrates, over-budget verdicts; scores, capped, the planned routes and the consumers above their last bandwidth |
| SourcePolicyOutcome.GroupLoad | src/source_policy_refresh.rs:152-171 | a group's bitrate is the sum over its consumer's planned routes of top, bottom or current ladder step, with nine visible routes as the limit |
| SourcePolicyOutcome.VisibleAreCounted | src/source_policy_refresh.rs:184-193 | the running count is the number of active routes of the consumer with an active source |
| SourcePolicyOutcome.CachedScoreByField | src/source_policy_refresh.rs:172-175 | the cached score in terms of routes, sources and bandwidths alone |
| SourcePolicyOutcome.PlansByField | src/source_policy_refresh.rs:152-175 | every plan's bitrate and verdict in the same terms |
| SourcePolicyTotals.PlansInClosedForm | src/source_policy_refresh.rs:172-175 | over all plans each included route counts once, each even one once, each receiver over budget once |
| SourcePolicyFixture.RouteOneMore | src/source_policy_refresh.rs:60-72 | the route of one more connection keeps the routes complete, sound, without repetition and in order |
| SourcePolicyFixture.NewFixture | src/source_policy_refresh.rs:48-90 | sources stand user by user, the same number each, with the three bitrates their owner and offset give; every source of another user has exactly one active route, in ascending order, its step by number, and there are u(us - s) of them; ladders are cached, user k has 1,200,000 + 180,000 (k mod 8), the first four users are the speakers |
| Simd.MaskCountsLanes | src/simd_packet_hotpath.rs:357-377 | the population count of a lane mask is the number of matching lanes, and the mask is zero iff none matches |
| Simd.MaskBit | src/simd_packet_hotpath.rs:368-373 | bit i of a mask is the top bit of lane i |
| Simd.MaskFromFullByteLanes | src/simd_packet_hotpath.rs:450-458 | the lane loop of one target builds the mask the other target's instruction gives |
| Simd.AnyEq | src/simd_packet_hotpath.rs:357-368 | comparing by mask answers whether the value is among the lanes |
| Simd.AnyEqByMaxLane | src/simd_packet_hotpath.rs:344-355 | comparing by the largest lane gives the same answer |
| H264Scanner.MasksAreRemainders | src/simd_packet_hotpath.rs:5-9 | the type mask is the remainder by 32, the start bit the upper half of a byte |
| H264Scanner.ParseAggregate | src/simd_packet_hotpath.rs:188-203 | parsing takes back the units aggregated as RFC 6184, section 5.7.1, lays them out, whatever follows |
| H264Scanner.AggregateParsed | src/simd_packet_hotpath.rs:188-203 | for every byte string the parsed units aggregated again and the unparsed bytes are the payload |
| H264Scanner.OneMoreUnit | src/simd_packet_hotpath.rs:194-202 | one unit extends the pending buffer within its sixteen slots, or fills it and decides or flushes |
| H264Scanner.StapAContainsIdrSimd | src/simd_packet_hotpath.rs:185-205 | for every byte string: true iff IDR is among the types of the full batches, or the loop did not stop badly and IDR is among all types |
| H264Scanner.ParseStops | src/simd_packet_hotpath.rs:188-193 | the bytes left are fewer than two, announce nothing, or announce more than there is |
| H264Scanner.DetectsByNumber | src/simd_packet_hotpath.rs:185-205 | for units laid out after their sizes and any such rest: true iff a unit of type 5 lies in the whole sixteens, or at most one byte is left and there is one |
| H264Scanner.ZeroSizeAfterIdrs | src/simd_packet_hotpath.rs:186-199 | n one-byte IDR units before a size of zero are seen iff n >= 16 |
| H264Scanner.DetectsAggregatedIdr | src/simd_packet_hotpath.rs:185-205 | on every well-formed aggregate: true iff some aggregated unit is an IDR unit |
| H264Scanner.MalformedPayloads | src/simd_packet_hotpath.rs:191-193 | for every payload, exactly when the answer agrees with a lenient and with a strict reading of malformed aggregates |
| H264Scanner.NeitherReadingAlwaysHolds | src/simd_packet_hotpath.rs:191-199 | inputs on which each reading fails |
| H264Scanner.H264PayloadStartsIdrSimd | src/simd_packet_hotpath.rs:173-183 | type 5 is accepted, 24 scanned as an aggregate, 28 accepted with start bit and type 5 in the second byte, all else refused, the empty payload too |
| H264Scanner.OneUnitAggregate | src/simd_packet_hotpath.rs:179-198 | on a type-24 header, two size bytes and the unit they announce the answer is whether the unit is of type 5 |
| H264Scanner.OneFragment | src/simd_packet_hotpath.rs:207-212 | on a type-28 indicator the answer is whether the next byte is at least 128 and of type 5 |
| H264Scanner.FragmentByNumber | src/simd_packet_hotpath.rs:9 | a fragment has type 28, the unit's priority bits and type, start bit 128 only first and end bit 64 only last |
| H264Scanner.FragmentsCarryTheUnit | src/simd_packet_hotpath.rs:207-212 | the fragments of RFC 6184, section 5.8, put together again are the unit |
| H264Scanner.AnyPacketizationDetects | src/simd_packet_hotpath.rs:173-212 | however a unit is sent, alone, aggregated or in any fragments, the detector answers whether it is an IDR unit, and only at its first fragment |
| H264Scanner.StapAPayload | src/simd_packet_hotpath.rs:255-276 | the built payload is the byte 24 and, six bytes a unit, size 4, type 5 in the middle or 1, and the three mixed bytes |
| H264Scanner.BenchmarkAggregates | src/simd_packet_hotpath.rs:173-276 | for every count and seed, scanning the built payload answers whether an IDR unit was asked for and there is one to place |
| Vp8Scanner.LanesAreTests | src/simd_packet_hotpath.rs:407-436 | a lane is set exactly where the descriptor and header pass the simple test |
| Vp8Scanner.SimpleKeyframeCountSimd | src/simd_packet_hotpath.rs:375-377 | the mask's population count is the number of payloads passing the simple test |
| Vp8Scanner.PayloadStartsKeyframeSimdBatch | src/simd_packet_hotpath.rs:214-247 | the batched count is the one-at-a-time count, across reordering and partial batches: the payloads the full scanner accepts among those starting at 128 or above, and of the others those with 16 modulo 32 first and an even second byte |
| Vp8Scanner.SimpleTestAgainstRfc | src/simd_packet_hotpath.rs:249-253 | agrees with RFC 7741 exactly when the payload is no keyframe start or the reserved bit is clear |
| PacketFingerprint.LoadU64Padded | src/simd_packet_hotpath.rs:155-161 | the little-endian word of the first eight bytes, padded with zeroes |
| PacketFingerprint.LanesArePaddedLoads | src/simd_packet_hotpath.rs:278-342 | the low lane of the first vector and the high lane of the last are the two padded loads |
| PacketFingerprint.LengthWordIsLength | src/simd_packet_hotpath.rs:145 | the length word holds the packet's length, capped to a u64 |
| PacketFingerprint.FingerprintBits | src/simd_packet_hotpath.rs:144-161 | bit i of a fingerprint is the exclusive or of bit i - 17 of the length, i - 29 of the first and i - 43 of the last eight bytes, modulo 64 |
| PacketFingerprint.PacketFingerprintScalar | src/simd_packet_hotpath.rs:144-153 | every bit of the result read off the packet's length, first eight and last eight bytes |
| PacketFingerprint.PacketFingerprintSimd | src/simd_packet_hotpath.rs:163-171 | the vector form returns the same bits, for every packet |
| PacketFingerprint.MixCollides | src/simd_packet_hotpath.rs:152 | two mixes collide exactly when the prefix difference is the length difference rotated by 52 against the suffix difference rotated by 14 |
| PacketFingerprint.FingerprintsDistinguish | src/simd_packet_hotpath.rs:163-171 | of length, first eight and last eight bytes, when two agree the fingerprints agree iff the third does |
| PacketFingerprint.PacketsCollide | src/simd_packet_hotpath.rs:144-153 | packets of one length collide iff their first eight bytes differ as their last eight do after rotation by 14 |
| PacketFingerprint.ShortPacketsNeverCollide | src/simd_packet_hotpath.rs:144-161 | packets of one length below eight bytes have equal fingerprints iff they are equal |
| PacketFingerprint.LongPacketsCollide | src/simd_packet_hotpath.rs:163-171 | for every length from eight on, two different packets with one fingerprint |
| PacketFingerprint.LengthsWithoutCollision | src/simd_packet_hotpath.rs:144-171 | different packets of length n always have different fingerprints iff n < 8 |
| ConsumerGate.BuiltIndexIsExact | src/consumer_packet_gate.rs:348-372 | each collected index is exactly key to position precisely when its keys are distinct |
| ConsumerGate.ApplyOneMore | src/consumer_packet_gate.rs:104-113 | a right lookup for one more update extends the batch, the changed and the failed count by exactly it |
| ConsumerGate.FindLinear | src/consumer_packet_gate.rs:76-79 | the linear search finds the first matching destination, or there is none |
| ConsumerGate.FindByMediaId | src/consumer_packet_gate.rs:105-111 | with an exact index, the media-id lookup finds the first matching destination or there is none, session mismatches included |
| ConsumerGate.IdentityLookupFinds | src/consumer_packet_gate.rs:132-138 | with an exact index, so does the identity lookup |
| ConsumerGate.MediaIdLookupAgrees | src/consumer_packet_gate.rs:76-111 | over a built index the media-id lookup equals the linear search on every update iff no two destinations share a media id |
| ConsumerGate.IdentityLookupAgrees | src/consumer_packet_gate.rs:76-138 | over a built index the identity lookup equals the linear search on every update iff no two destinations share session and media id |
| ConsumerGate.IndexesAreKept | src/consumer_packet_gate.rs:104-113 | a batch makes neither index exact and spoils neither |
| ConsumerGate.BatchHasOutcome | src/consumer_packet_gate.rs:71-97 | a batch field by field: exactly the destinations hit have the gate, pending too if it names a rid; its score in cardinalities of destinations and updates |
| ConsumerGate.ConsumerPacketGateBatchFixture.constructor | src/consumer_packet_gate.rs:56-68 | the fresh fixture is valid, with media ids from 1,000, every seventh destination inactive and every eleventh blocked, and one update each, last first |
| ConsumerGate.ConsumerPacketGateBatchFixture.UpdateDestinationGate | src/consumer_packet_gate.rs:292-306 | reports a change iff gate or pending gate differed, and leaves the gate, pending iff it names a rid, touching no other destination |
| ConsumerGate.ConsumerPacketGateBatchFixture.SourceGateAggregate | src/consumer_packet_gate.rs:162-176 | the number of active destinations that are not blocked |
| ConsumerGate.ConsumerPacketGateBatchFixture.CurrentLinearBatchCycle | src/consumer_packet_gate.rs:71-97 | for all destinations and every update list: the first destination of every session and media id named, and no other, is at the gate; the score counts each changed destination once, each unmatched update, and the forwarding destinations if any changed |
| ConsumerGate.DistinctMeansFirst | src/consumer_packet_gate.rs:76-79 | every destination is the first of its session and media id iff no two share them |
| ConsumerGate.ConsumerPacketGateBatchFixture.MediaIdIndexedBatchCycle | src/consumer_packet_gate.rs:100-124 | the same destinations and the same score through an exact media-id index |
| ConsumerGate.ConsumerPacketGateBatchFixture.IdentityIndexedBatchCycle | src/consumer_packet_gate.rs:127-151 | the same destinations and the same score through an exact identity index, media ids shared or not |
| ConsumerGateRuns.CycleOnce | src/consumer_packet_gate.rs:71-176 | one cycle on the benchmark's destinations scores in closed form and leaves all of them at the gate |
| ConsumerGateRuns.RunBatches | src/consumer_packet_gate.rs:54-177 | any mix of cycles on n fresh destinations: first ceil(n/11) + n - ceil(n/7), later 2n - ceil(n/7) |
| ConsumerGateRoutes.SwapRemovalKeepsIndex | src/consumer_packet_gate.rs:224-230 | re-indexing the moved element alone makes the index exact again |
| ConsumerGateRoutes.RemovalStartsShift | src/consumer_packet_gate.rs:243-246 | after a stable removal exactly the later positions are one too high |
| ConsumerGateRoutes.PushNext | src/consumer_packet_gate.rs:231-235 | pushing the next destination keeps the index exact iff its id is fresh |
| ConsumerGateRoutes.ConsumerPacketGateRouteFixture.constructor | src/consumer_packet_gate.rs:189-198 | the fresh route has an exact index and no id still to be handed out |
| ConsumerGateRoutes.ConsumerPacketGateRouteFixture.CurrentLinearRemoveAddCycle | src/consumer_packet_gate.rs:201-215 | removes the first destination with the id at cursor mod length, appends the next fresh one |
| ConsumerGateRoutes.ConsumerPacketGateRouteFixture.MediaIdIndexedSwapRemoveAddCycle | src/consumer_packet_gate.rs:218-238 | nothing but the cursor moves when the target is not indexed; else the last element takes the target's place; from an exact index, exact again iff the new id is fresh |
| ConsumerGateRoutes.ConsumerPacketGateRouteFixture.MediaIdIndexedStableRemoveAddCycle | src/consumer_packet_gate.rs:241-260 | the same with order kept: from an exact index, exact again iff the new id is fresh |
| ConsumerGateRoutes.NumberingGoesOn | src/consumer_packet_gate.rs:316-330 | while 1000 + the next index fits in a u64 the next id is fresh and stays so |
| ConsumerGateRoutes.SaturatedIdsCollide | src/consumer_packet_gate.rs:319-321 | past that the same id is handed out twice |
| ConsumerGateRoutes.RunMaintenance | src/consumer_packet_gate.rs:218-266 | any run of the two indexed cycles: index exact, length constant, each cycle loses exactly the destination at cursor mod length and gains exactly the next fresh one |
| ConsumerGateRoutes.RunLockstep | src/consumer_packet_gate.rs:201-260 | from equal routes, k linear and k stable indexed cycles give equal destinations, cursors and return values |
| PacketMetrics.ReachableStates | src/packet_metrics.rs:63-126 | in every reachable state of each form every counter holds the exact sum of what the workers added, wrapped or capped, and nobody is past the barrier before all reached it |
| PacketMetrics.SchedulesFinish | src/packet_metrics.rs:65-78 | no deadlock: every schedule can be continued up to one fixed length, and is finished exactly there |
| PacketMetrics.IngressLeads | src/packet_metrics.rs:184-197 | in every reachable state before a wrap: ingress >= egress >= forwarded in packets and bytes, and ingress exceeds forwarded by at most one packet a worker |
| PacketMetrics.FinishedCells | src/packet_metrics.rs:140-224 | whatever the schedule and however large the sums, a finished run leaves the same counters |
| PacketMetricsTotals.SharedTotal | src/packet_metrics.rs:63-80 | in every finished schedule the shared total is one closed form of the input; it is 3(WN + WS + NW(W-1)/2) iff that fits in a u64 |
| PacketMetricsTotals.PerWorkerTotal | src/packet_metrics.rs:83-101 | the same for the sum of the per-worker totals |
| PacketMetricsTotals.ThreadLocalTotal | src/packet_metrics.rs:104-126 | the same for the sum of the thread-local totals, barrier and interleaving included |
| PacketMetricsAgreement.OneWorkerTotals | src/packet_metrics.rs:63-101 | up to one worker the two atomic forms return the same, wrapped or not |
| PacketMetricsAgreement.ThreadLocalAgainstPerWorker | src/packet_metrics.rs:83-126 | for any number of workers these two return the same iff the room left below the cap by the counters that wrapped is a multiple of 2^64 in all |
| PacketMetricsAgreement.FewThreadsAgainstWorkers | src/packet_metrics.rs:83-126 | up to three workers: iff no worker's counters wrap, or what wrapping leaves of them still saturates |
| PacketMetricsAgreement.FourThreadsCanLoseAndAgree | src/packet_metrics.rs:83-126 | four threads that each lose and still agree, so three is sharp |
| PacketMetricsAgreement.SharedAgainstPerWorker | src/packet_metrics.rs:63-101 | for every input these two return the same iff saturation cuts the same off the shared total as off the workers' totals, modulo 2^64 |
| PacketMetricsAgreement.SharedAgainstThreadLocal | src/packet_metrics.rs:63-126 | the same for the shared and the thread-local form, with what the wrapped counters lost |
| PacketMetricsAgreement.AgreementWithoutWrapping | src/packet_metrics.rs:63-126 | while no shared counter wraps the joined forms agree, and the shared form with them iff at most one worker runs or the exact total fits, one sum past 2^64 excepted that few workers or packets cannot reach |
| PacketMetricsAgreement.FormsCanSaturateTogether | src/packet_metrics.rs:149-180 | an input on which all three return the cap and the closed form does not fit |
| PacketMetricsAgreement.ThreadLocalCanDiffer | src/packet_metrics.rs:140-147 | an input on which the thread-local form parts from the atomic ones |
| PacketMetricsAgreement.SharedCanDiffer | src/packet_metrics.rs:79-101 | an input on which the shared form parts from the joined ones |
| PacketMetricsTotals.ExactIsGrandTotal | src/packet_metrics.rs:75-76 | while no payload saturates, all additions add up to the closed form, whether it fits or not |
| PacketMetricsBenchmark.NewFixture | src/packet_metrics.rs:46-55 | the constructor fills in the benchmark's payloads |
| PacketMetricsBenchmark.BenchmarkPayloadSum | src/packet_metrics.rs:226-228 | the 262,144 payloads sum to 205,887,007 |
| PacketMetricsBenchmark.BenchmarkTotals | src/packet_metrics.rs:46-126 | on the benchmark's payloads each form returns 3(206,149,151 W + 131,072 W(W-1)), in every schedule, iff there are at most 6,848,483 workers |
| PacketMetricsBenchmark.BenchmarkFormsAgree | src/packet_metrics.rs:46-126 | up to 11,862,498 workers the joined forms agree, and the shared form with them iff there are at most 6,848,483 |
| PacketMetricsTotals.LocalCounters.Record | src/packet_metrics.rs:140-147 | each field grows, saturating, by one or by the payload's bytes |
| PacketMetricsTotals.LocalWorker | src/packet_metrics.rs:112-119 | one thread's fields are the exact sums, capped, and it returns their capped total |
| PacketMetricsTotals.ThreadLocalAggregateCycle | src/packet_metrics.rs:104-126 | the joined thread totals are the closed form every interleaving returns |

## Left out

- The constructors of the scanner, fingerprint and keyframe fixtures: their payloads, packets and requests are arbitrary here.
- `benches/`, `black_box` and throughput reporting: measurement, no behaviour.
- Code of `o_sfu_core` and `o_sfu_rfc` is not part of this model; nothing is claimed about its scanners or helpers.
- The dirty-state wake cycle, the gate count and the egress fan-out of `src/performance_hardening.rs`: one depends on an unseen type, the others are plain loops.
- `src/local_vp8_fanout.rs`, `src/routing_miss_fingerprint.rs`, `src/packet_loop_cold_path.rs`, `src/bitrate_counter.rs`: external parsers, a repeated fingerprint, branch bodies moved into helpers, and running sums.
- The outer loops that sum or xor scanner and fingerprint results over a fixture's packets: the per-packet equalities decide them.
- PacketMetricsBenchmark.BenchmarkFormsAgree: stops at 11,862,498 workers; past that only the conditions for every input are given.
- Weak memory, thread panics, alignment and raw pointers: the atomics are interleaved steps, the packets byte sequences.
- Runs that mix the linear remove/add cycle with the indexed ones on one route: the linear form does not maintain the index.
- ConsumerGateRuns.RunBatches: destinations are bounded by the longest possible vector, below which no count saturates.
- Simd.MaskFromFullByteLanes: setting a bit is modelled as adding its value, which is the same because all bits set before are lower.
