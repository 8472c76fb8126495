/** Counting VP8 keyframe starts sixteen payloads at a time, against one at a time.
    Models src/simd_packet_hotpath.rs; RFC 7741, sections 4.2 and 4.3. */
module Vp8Scanner {
  import opened Machine
  import opened Sequences
  import Simd

  const X_BIT: bv8 := 0x80
  const S_BIT: bv8 := 0x10
  const PARTITION_ID_MASK: bv8 := 0x0f
  const INTERFRAME_BIT: bv8 := 0x01
  const BATCH: nat := 16

  type Payload = p: seq<bv8> | |p| == 8 witness [0, 0, 0, 0, 0, 0, 0, 0]

  /** The test on a payload without descriptor extensions. */
  predicate SimpleStartsKeyframe(descriptor: bv8, payloadHeader: bv8) {
    descriptor & S_BIT != 0 && descriptor & PARTITION_ID_MASK == 0 && payloadHeader & INTERFRAME_BIT == 0
  }

  /** The one-at-a-time test, with `full` the scanner for extended descriptors. */
  predicate StartsKeyframe(full: Payload -> bool, p: Payload) {
    if p[0] & X_BIT != 0 then full(p) else SimpleStartsKeyframe(p[0], p[1])
  }

  function CountKeyframes(full: Payload -> bool, ps: seq<Payload>): (count: nat)
    ensures count <= |ps|
  {
    if ps == [] then 0
    else CountKeyframes(full, ps[..|ps| - 1]) + (if StartsKeyframe(full, ps[|ps| - 1]) then 1 else 0)
  }

  /** The lanes of the vector test: 0xff exactly where the simple test holds. */
  function KeyframeLanes(descriptors: seq<bv8>, headers: seq<bv8>): seq<bv8>
    requires |descriptors| == |headers|
  {
    var n := |descriptors|;
    var tested := Simd.And(descriptors, Simd.Splat(n, S_BIT | PARTITION_ID_MASK));
    var descriptorMask := Simd.CmpEq(tested, Simd.Splat(n, S_BIT));
    var headerMask := Simd.CmpEq(Simd.And(headers, Simd.Splat(n, INTERFRAME_BIT)), Simd.Splat(n, 0));
    Simd.And(descriptorMask, headerMask)
  }

  lemma OneLane(descriptor: bv8, header: bv8)
    ensures SimpleStartsKeyframe(descriptor, header) <==>
            descriptor & (S_BIT | PARTITION_ID_MASK) == S_BIT && header & INTERFRAME_BIT == 0
  {
  }

  lemma LanesAreTests(descriptors: seq<bv8>, headers: seq<bv8>)
    requires |descriptors| == |headers|
    ensures var lanes := KeyframeLanes(descriptors, headers);
            && |lanes| == |descriptors|
            && Simd.FullLanes(lanes)
            && forall i | 0 <= i < |lanes| :: lanes[i] != 0 <==> SimpleStartsKeyframe(descriptors[i], headers[i])
  {
    var lanes := KeyframeLanes(descriptors, headers);
    forall i | 0 <= i < |lanes|
      ensures lanes[i] == if SimpleStartsKeyframe(descriptors[i], headers[i]) then 0xff else 0x00
    {
      OneLane(descriptors[i], headers[i]);
    }
  }

  function CountSimple(descriptors: seq<bv8>, headers: seq<bv8>): nat
    requires |descriptors| == |headers|
  {
    if descriptors == [] then 0
    else
      var n := |descriptors| - 1;
      CountSimple(descriptors[..n], headers[..n]) + (if SimpleStartsKeyframe(descriptors[n], headers[n]) then 1 else 0)
  }

  lemma {:induction false} SetLanesAreCounted(lanes: seq<bv8>, descriptors: seq<bv8>, headers: seq<bv8>)
    requires |lanes| == |descriptors| == |headers|
    requires forall i | 0 <= i < |lanes| :: lanes[i] != 0 <==> SimpleStartsKeyframe(descriptors[i], headers[i])
    ensures Simd.CountSet(lanes) == CountSimple(descriptors, headers)
  {
    hide SimpleStartsKeyframe;
    if lanes == [] {
    } else {
      var n := |lanes| - 1;
      SetLanesAreCounted(lanes[..n], descriptors[..n], headers[..n]);
    }
  }

  /** Population count of the lane mask: the number of payloads in the batch that pass the simple test. */
  function SimpleKeyframeCountSimd(descriptors: seq<bv8>, headers: seq<bv8>): (count: nat)
    requires |descriptors| == |headers|
    ensures count == CountSimple(descriptors, headers)
  {
    var lanes := KeyframeLanes(descriptors, headers);
    LanesAreTests(descriptors, headers);
    Simd.MaskCountsLanes(lanes);
    SetLanesAreCounted(lanes, descriptors, headers);
    Simd.CountOnes(Simd.MoveMask(lanes))
  }

  // ----- the count read off the payloads

  /** The bits of the simple test as numbers: of the first byte, modulo 32, only the bit worth 16 is set, and the
      second byte is even. A first byte from 128 on goes to the full scanner. */
  predicate StartsByNumber(full: Payload -> bool, p: Payload) {
    if p[0] >= 128 then full(p) else p[0] % 32 == 16 && p[1] % 2 == 0
  }

  lemma BitsByNumber(descriptor: bv8, header: bv8)
    ensures descriptor & X_BIT != 0 <==> descriptor >= 128
    ensures SimpleStartsKeyframe(descriptor, header) <==> descriptor % 32 == 16 && header % 2 == 0
  {
  }

  function KeyframeFlags(full: Payload -> bool, ps: seq<Payload>): seq<bool> {
    seq(|ps|, i requires 0 <= i < |ps| => StartsKeyframe(full, ps[i]))
  }

  lemma {:induction false} KeyframesAreFlagged(full: Payload -> bool, ps: seq<Payload>)
    ensures CountKeyframes(full, ps) == TrueCount(KeyframeFlags(full, ps))
  {
    hide StartsKeyframe;
    if ps == [] {
    } else {
      var n := |ps| - 1;
      KeyframesAreFlagged(full, ps[..n]);
      assert KeyframeFlags(full, ps)[..n] == KeyframeFlags(full, ps[..n]);
    }
  }

  lemma KeyframesAreCounted(full: Payload -> bool, ps: seq<Payload>)
    ensures CountKeyframes(full, ps) == |set i | 0 <= i < |ps| && StartsByNumber(full, ps[i])|
  {
    KeyframesAreFlagged(full, ps);
    var flags := KeyframeFlags(full, ps);
    TrueCountIsCardinality(flags);
    forall i | 0 <= i < |ps| ensures flags[i] <==> StartsByNumber(full, ps[i]) {
      BitsByNumber(ps[i][0], ps[i][1]);
    }
    hide *;
    assert (set i | 0 <= i < |flags| && flags[i]) == set i | 0 <= i < |ps| && StartsByNumber(full, ps[i]);
  }

  lemma CountStep(full: Payload -> bool, ps: seq<Payload>, i: nat)
    requires i < |ps|
    ensures CountKeyframes(full, ps[..i + 1])
         == CountKeyframes(full, ps[..i]) + (if StartsKeyframe(full, ps[i]) then 1 else 0)
  {
    assert ps[..i + 1][..i] == ps[..i];
  }

  lemma SimpleStep(descriptors: seq<bv8>, headers: seq<bv8>, descriptor: bv8, header: bv8)
    requires |descriptors| == |headers|
    ensures CountSimple(descriptors + [descriptor], headers + [header])
         == CountSimple(descriptors, headers) + (if SimpleStartsKeyframe(descriptor, header) then 1 else 0)
  {
    var n := |descriptors|;
    assert (descriptors + [descriptor])[..n] == descriptors && (headers + [header])[..n] == headers;
  }

  /** What the loop knows: the payloads done are counted, but for those pending in the batch. */
  ghost predicate Counted(full: Payload -> bool, done: seq<Payload>, detected: nat, ds: seq<bv8>, hs: seq<bv8>) {
    |ds| == |hs| && detected + CountSimple(ds, hs) == CountKeyframes(full, done)
  }

  lemma CountExtended(full: Payload -> bool, payloads: seq<Payload>, i: nat, detected: nat, ds: seq<bv8>, hs: seq<bv8>)
    requires i < |payloads| <= USIZE_MAX && Counted(full, payloads[..i], detected, ds, hs)
    requires payloads[i][0] & X_BIT != 0
    ensures Counted(full, payloads[..i + 1], SatAdd(detected, if full(payloads[i]) then 1 else 0), ds, hs)
  {
    hide CountSimple, CountKeyframes, SimpleStartsKeyframe;
    CountStep(full, payloads, i);
  }

  lemma CountPending(full: Payload -> bool, payloads: seq<Payload>, i: nat, detected: nat, ds: seq<bv8>, hs: seq<bv8>)
    requires i < |payloads| && Counted(full, payloads[..i], detected, ds, hs)
    requires payloads[i][0] & X_BIT == 0
    ensures Counted(full, payloads[..i + 1], detected, ds + [payloads[i][0]], hs + [payloads[i][1]])
  {
    hide CountSimple, CountKeyframes, SimpleStartsKeyframe;
    CountStep(full, payloads, i);
    SimpleStep(ds, hs, payloads[i][0], payloads[i][1]);
  }

  lemma CountBatch(full: Payload -> bool, done: seq<Payload>, detected: nat, ds: seq<bv8>, hs: seq<bv8>)
    requires |done| <= USIZE_MAX && Counted(full, done, detected, ds, hs)
    ensures Counted(full, done, SatAdd(detected, SimpleKeyframeCountSimd(ds, hs)), [], [])
  {
    hide CountKeyframes, SimpleKeyframeCountSimd;
  }

  lemma {:induction false} CountSimpleCons(ds: seq<bv8>, hs: seq<bv8>)
    requires |ds| == |hs| > 0
    ensures CountSimple(ds, hs) == (if SimpleStartsKeyframe(ds[0], hs[0]) then 1 else 0) + CountSimple(ds[1..], hs[1..])
  {
    var n := |ds| - 1;
    if n == 0 {
    } else {
      CountSimpleCons(ds[..n], hs[..n]);
      assert ds[..n][1..] == ds[1..][..n - 1] && hs[..n][1..] == hs[1..][..n - 1];
    }
  }

  lemma CountNextPending(full: Payload -> bool, done: seq<Payload>, detected: nat, ds: seq<bv8>, hs: seq<bv8>,
                         index: nat)
    requires |done| <= USIZE_MAX && index < |ds| == |hs| && Counted(full, done, detected, ds[index..], hs[index..])
    ensures Counted(full, done, SatAdd(detected, if SimpleStartsKeyframe(ds[index], hs[index]) then 1 else 0),
                    ds[index + 1..], hs[index + 1..])
  {
    assert ds[index..][1..] == ds[index + 1..] && hs[index..][1..] == hs[index + 1..];
    CountSimpleCons(ds[index..], hs[index..]);
    hide CountSimple, CountKeyframes, SimpleStartsKeyframe;
  }

  lemma NothingPending(full: Payload -> bool, done: seq<Payload>, detected: nat, ds: seq<bv8>, hs: seq<bv8>)
    requires |ds| == |hs| && Counted(full, done, detected, ds[|ds|..], hs[|ds|..])
    ensures detected == CountKeyframes(full, done)
  {
  }

  /** The last, partial batch: the simple test, one payload at a time. */
  method CountPartialBatch(ghost full: Payload -> bool, ghost payloads: seq<Payload>, counted: nat,
                           descriptors: array<bv8>, payloadHeaders: array<bv8>, batchLen: nat)
    returns (detected: nat)
    requires |payloads| <= USIZE_MAX && batchLen <= descriptors.Length && batchLen <= payloadHeaders.Length
    requires Counted(full, payloads, counted, descriptors[..batchLen], payloadHeaders[..batchLen])
    ensures detected == CountKeyframes(full, payloads)
  {
    ghost var ds, hs := descriptors[..batchLen], payloadHeaders[..batchLen];
    hide Counted, CountKeyframes, CountSimple, SimpleStartsKeyframe;
    detected := counted;
    assert ds[0..] == ds && hs[0..] == hs;
    for index := 0 to batchLen
      invariant Counted(full, payloads, detected, ds[index..], hs[index..])
    {
      CountNextPending(full, payloads, detected, ds, hs, index);
      assert descriptors[index] == ds[index] && payloadHeaders[index] == hs[index];
      detected := SatAdd(detected, if SimpleStartsKeyframe(descriptors[index], payloadHeaders[index]) then 1 else 0);
    }
    NothingPending(full, payloads, detected, ds, hs);
  }

  lemma NothingCounted(full: Payload -> bool)
    ensures Counted(full, [], 0, [], [])
  {
  }

  /** The batched counter: extended payloads are scanned at once and overtake the pending batch, whole
      batches are counted by mask, the last partial one by the simple test. The count is that of the
      one-at-a-time test. */
  method PayloadStartsKeyframeSimdBatch(full: Payload -> bool, payloads: seq<Payload>) returns (detected: nat)
    requires |payloads| <= USIZE_MAX
    ensures detected == CountKeyframes(full, payloads)
    ensures detected == |set i | 0 <= i < |payloads| && StartsByNumber(full, payloads[i])|
  {
    detected := 0;
    var descriptors, payloadHeaders := new bv8[BATCH](_ => 0), new bv8[BATCH](_ => 0);
    var batchLen := 0;
    ghost var ds: seq<bv8>, hs: seq<bv8> := [], [];
    NothingCounted(full);
    hide Counted, CountKeyframes, CountSimple, SimpleStartsKeyframe, SimpleKeyframeCountSimd, StartsByNumber;
    for i := 0 to |payloads|
      invariant batchLen == |ds| == |hs| < BATCH
      invariant descriptors[..batchLen] == ds && payloadHeaders[..batchLen] == hs
      invariant Counted(full, payloads[..i], detected, ds, hs)
    {
      var payload := payloads[i];
      var descriptor := payload[0];
      if descriptor & X_BIT != 0 {
        CountExtended(full, payloads, i, detected, ds, hs);
        detected := SatAdd(detected, if full(payload) then 1 else 0);
        continue;
      }
      CountPending(full, payloads, i, detected, ds, hs);
      ds, hs := ds + [descriptor], hs + [payload[1]];
      descriptors[batchLen] := descriptor;
      payloadHeaders[batchLen] := payload[1];
      batchLen := batchLen + 1;
      if batchLen == descriptors.Length {
        assert descriptors[..] == ds && payloadHeaders[..] == hs;
        CountBatch(full, payloads[..i + 1], detected, ds, hs);
        detected := SatAdd(detected, SimpleKeyframeCountSimd(descriptors[..], payloadHeaders[..]));
        batchLen, ds, hs := 0, [], [];
      }
    }
    assert payloads[..|payloads|] == payloads;
    detected := CountPartialBatch(full, payloads, detected, descriptors, payloadHeaders, batchLen);
    KeyframesAreCounted(full, payloads);
  }

  // ----- against RFC 7741

  /** RFC 7741, sections 4.2 and 4.3: start of partition (S) zero (three PID bits), inverse key frame bit
      clear. The reserved bit next to PID does not take part. */
  predicate RfcStartsKeyframe(descriptor: bv8, payloadHeader: bv8) {
    descriptor & 0x10 != 0 && descriptor & 0x07 == 0 && payloadHeader & 0x01 == 0
  }

  /** The simple test also demands the reserved bit to be clear: it agrees with the RFC exactly on the
      descriptors that are no keyframe start or have that bit clear. */
  lemma SimpleTestAgainstRfc(descriptor: bv8, payloadHeader: bv8)
    ensures (SimpleStartsKeyframe(descriptor, payloadHeader) <==> RfcStartsKeyframe(descriptor, payloadHeader))
       <==> !RfcStartsKeyframe(descriptor, payloadHeader) || descriptor & 0x08 == 0
    ensures !SimpleStartsKeyframe(0x18, 0) && RfcStartsKeyframe(0x18, 0)
  {
  }
}
