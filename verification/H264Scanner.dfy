/** Finding an IDR unit in an H.264 payload: single NAL units, STAP-A aggregates scanned in batches of
    sixteen, and FU-A fragments. Models src/simd_packet_hotpath.rs; RFC 6184, sections 5.2, 5.7.1, 5.8. */
module H264Scanner {
  import opened Machine
  import opened Sequences
  import Simd

  /** A byte as a number. The masks below are remainders and bounds on it (`MasksAreRemainders`). */
  type Byte = b: nat | b < 256

  type Bytes = seq<Byte>

  /** A NAL unit has at least its header byte. */
  type Unit = u: Bytes | |u| > 0 witness [0]

  const NAL_UNIT_TYPE_IDR: Byte := 5
  const NAL_UNIT_TYPE_STAP_A: Byte := 24
  const NAL_UNIT_TYPE_FU_A: Byte := 28
  const BATCH: nat := 16

  /** `header & 0x1f`. */
  function NalType(header: Byte): Byte {
    header % 32
  }

  /** `header & 0x80 != 0`. */
  predicate StartBit(header: Byte) {
    header >= 128
  }

  lemma MasksAreRemainders(b: bv8)
    ensures b & 0x1f == b % 32
    ensures b & 0x80 != 0 <==> b >= 128
  {
  }

  function U16FromBe(high: Byte, low: Byte): nat {
    high * 256 + low
  }

  function U16ToBe(n: nat): Bytes
    requires n < 0x1_0000
  {
    [n / 256, n % 256]
  }

  lemma DecodeEncoded(n: nat)
    requires n < 0x1_0000
    ensures U16FromBe(U16ToBe(n)[0], U16ToBe(n)[1]) == n
  {
  }

  lemma EncodeDecoded(high: Byte, low: Byte)
    ensures U16FromBe(high, low) < 0x1_0000
    ensures U16ToBe(U16FromBe(high, low)) == [high, low]
  {
    var n := U16FromBe(high, low);
    assert n / 256 == high && n % 256 == low;
  }

  // ----- aggregation packets

  /** The units of a STAP-A payload the loop can parse, in order, and the bytes left when it stops. */
  datatype Parse = Parse(units: seq<Unit>, rest: Bytes) {
    /** The loop ran off the end: it did not stop at a zero-length or truncated unit. */
    predicate Clean() {
      |rest| < 2
    }
  }

  /** The size announced by the next unit, if the unit is there. */
  function NextSize(payload: Bytes): (size: Option<nat>)
    ensures size.Some? ==> 1 <= size.value < 0x1_0000 && 2 + size.value <= |payload|
  {
    if |payload| < 2 then None
    else
      var n := U16FromBe(payload[0], payload[1]);
      if n == 0 || |payload| - 2 < n then None else Some(n)
  }

  function ParseUnits(payload: Bytes): Parse
    decreases |payload|
  {
    match NextSize(payload)
    case None => Parse([], payload)
    case Some(n) =>
      var tail := ParseUnits(payload[2 + n..]);
      tail.(units := [payload[2..2 + n]] + tail.units)
  }

  /** Units a 16-bit size can announce. */
  ghost predicate Aggregable(units: seq<Unit>) {
    forall i | 0 <= i < |units| :: |units[i]| < 0x1_0000
  }

  /** RFC 6184, section 5.7.1: each unit preceded by its size in network byte order. */
  function Aggregate(units: seq<Unit>): Bytes
    requires Aggregable(units)
  {
    if units == [] then [] else U16ToBe(|units[0]|) + units[0] + Aggregate(units[1..])
  }

  lemma ParseOneUnit(u: Unit, after: Bytes)
    requires |u| < 0x1_0000
    ensures var payload := U16ToBe(|u|) + u + after;
            ParseUnits(payload) == Parse([u] + ParseUnits(after).units, ParseUnits(after).rest)
  {
    var n := |u|;
    var payload := U16ToBe(n) + u + after;
    assert payload[0] == U16ToBe(n)[0] && payload[1] == U16ToBe(n)[1];
    DecodeEncoded(n);
    hide U16ToBe, U16FromBe;
    assert NextSize(payload) == Some(n);
    assert payload[2..2 + n] == u && payload[2 + n..] == after;
  }

  lemma AggregateCons(u: Unit, units: seq<Unit>)
    requires |u| < 0x1_0000 && Aggregable(units)
    ensures Aggregable([u] + units)
    ensures Aggregate([u] + units) == U16ToBe(|u|) + u + Aggregate(units)
    ensures Aggregate([u] + units) == [|u| / 256, |u| % 256] + u + Aggregate(units)
  {
    assert ([u] + units)[1..] == units;
  }

  /** Parsing takes back the aggregated units, whatever follows them. */
  lemma {:induction false} ParseAggregate(units: seq<Unit>, rest: Bytes)
    requires Aggregable(units)
    ensures ParseUnits(Aggregate(units) + rest)
         == Parse(units + ParseUnits(rest).units, ParseUnits(rest).rest)
  {
    if units == [] {
      WithEmpty(rest);
      WithEmpty(ParseUnits(rest).units);
    } else {
      var u, tail := units[0], units[1..];
      var after, parsed := Aggregate(tail) + rest, ParseUnits(rest);
      assert units == [u] + tail && Aggregable(tail) && |u| < 0x1_0000;
      AggregateCons(u, tail);
      hide *;
      ParseAggregate(tail, rest);
      ParseOneUnit(u, after);
      Reassociate(U16ToBe(|u|) + u, Aggregate(tail), rest);
      Reassociate([u], tail, parsed.units);
    }
  }

  lemma SizePrefix(payload: Bytes, n: nat)
    requires NextSize(payload) == Some(n)
    ensures U16ToBe(n) + payload[2..2 + n] + payload[2 + n..] == payload
  {
    EncodeDecoded(payload[0], payload[1]);
    assert n == U16FromBe(payload[0], payload[1]);
    hide U16FromBe, U16ToBe;
    assert payload == [payload[0], payload[1]] + payload[2..2 + n] + payload[2 + n..];
  }

  /** Nothing is lost in parsing: the units, aggregated again, and the unparsed bytes make the payload. */
  lemma {:induction false} AggregateParsed(payload: Bytes)
    ensures Aggregable(ParseUnits(payload).units)
    ensures Aggregate(ParseUnits(payload).units) + ParseUnits(payload).rest == payload
    decreases |payload|
  {
    var p := ParseUnits(payload);
    match NextSize(payload)
    case None =>
      assert Aggregate(p.units) + payload == payload;
    case Some(n) =>
      var after := payload[2 + n..];
      var tail := ParseUnits(after);
      AggregateParsed(after);
      SizePrefix(payload, n);
      assert p.units == [payload[2..2 + n]] + tail.units && p.rest == tail.rest;
      AggregateCons(payload[2..2 + n], tail.units);
      hide ParseUnits, U16ToBe, NextSize, Aggregate;
      Reassociate(U16ToBe(n) + payload[2..2 + n], Aggregate(tail.units), tail.rest);
  }

  function Types(units: seq<Unit>): Bytes {
    if units == [] then [] else [NalType(units[0][0])] + Types(units[1..])
  }

  lemma {:induction false} TypesOf(units: seq<Unit>)
    ensures |Types(units)| == |units|
    ensures forall i | 0 <= i < |units| :: Types(units)[i] == NalType(units[i][0])
  {
    if units == [] {
    } else {
      TypesOf(units[1..]);
    }
  }

  // ----- what the batched scanner decides

  /** The types of every full batch of sixteen. */
  function Batched(types: Bytes): Bytes {
    types[..BATCH * (|types| / BATCH)]
  }

  /** The scanner's answer: an IDR unit in a full batch is seen at once; one in the last, partial batch
      only if the payload did not stop badly. */
  predicate Detects(payload: Bytes) {
    var p := ParseUnits(payload);
    var types := Types(p.units);
    NAL_UNIT_TYPE_IDR in Batched(types) || (p.Clean() && NAL_UNIT_TYPE_IDR in types)
  }

  /** What the loop knows: `seen` are the types so far, the last of them pending in the buffer. */
  ghost predicate Scanned(payload: Bytes, left: Bytes, seen: Bytes) {
    var all, now := ParseUnits(payload), ParseUnits(left);
    seen + Types(now.units) == Types(all.units) && now.rest == all.rest
  }

  lemma ScanOneMore(payload: Bytes, left: Bytes, seen: Bytes, n: nat)
    requires Scanned(payload, left, seen) && NextSize(left) == Some(n)
    ensures Scanned(payload, left[2 + n..], seen + [NalType(left[2])])
  {
    var after := ParseUnits(left[2 + n..]);
    var u := left[2..2 + n];
    assert u[0] == left[2];
    assert ParseUnits(left) == Parse([u] + after.units, after.rest);
    hide ParseUnits, NextSize;
    assert ([u] + after.units)[1..] == after.units;
    assert Types([u] + after.units) == [NalType(left[2])] + Types(after.units);
    assert seen + ([NalType(left[2])] + Types(after.units)) == (seen + [NalType(left[2])]) + Types(after.units);
  }

  lemma ScanStops(payload: Bytes, left: Bytes, seen: Bytes)
    requires Scanned(payload, left, seen) && NextSize(left).None?
    ensures Types(ParseUnits(payload).units) == seen
    ensures ParseUnits(payload).Clean() <==> |left| < 2
  {
    assert ParseUnits(left) == Parse([], left);
    assert seen + [] == seen;
  }

  lemma FullBatchIsSeen(payload: Bytes, left: Bytes, seen: Bytes)
    requires Scanned(payload, left, seen) && |seen| % BATCH == 0 && NAL_UNIT_TYPE_IDR in seen
    ensures Detects(payload)
  {
    var types := Types(ParseUnits(payload).units);
    assert seen <= types && |seen| == BATCH * (|seen| / BATCH) <= BATCH * (|types| / BATCH);
    assert seen <= Batched(types);
  }

  /** The buffer holds the types since the last full batch; no full batch held an IDR. */
  ghost predicate Pending(buffer: Bytes, seen: Bytes) {
    && |buffer| < BATCH
    && |buffer| == |seen| % BATCH
    && exists flushed :: NAL_UNIT_TYPE_IDR !in flushed && seen == flushed + buffer
  }

  lemma PendingGrows(buffer: Bytes, seen: Bytes, t: Byte)
    requires Pending(buffer, seen)
    ensures |buffer| + 1 < BATCH ==> Pending(buffer + [t], seen + [t])
    ensures |buffer| + 1 == BATCH && NAL_UNIT_TYPE_IDR !in buffer + [t] ==> Pending([], seen + [t])
    ensures |buffer| + 1 == BATCH ==> |seen + [t]| % BATCH == 0
    ensures NAL_UNIT_TYPE_IDR in buffer + [t] ==> NAL_UNIT_TYPE_IDR in seen + [t]
  {
    var flushed :| NAL_UNIT_TYPE_IDR !in flushed && seen == flushed + buffer;
    assert seen + [t] == flushed + (buffer + [t]);
    if |buffer| + 1 == BATCH && NAL_UNIT_TYPE_IDR !in buffer + [t] {
      assert seen + [t] == (flushed + (buffer + [t])) + [];
    }
  }

  /** The loop's knowledge in one place: the buffer's used part, the types seen, the bytes left. */
  ghost predicate InProgress(payload: Bytes, left: Bytes, seen: Bytes, buffer: Bytes) {
    Scanned(payload, left, seen) && Pending(buffer, seen)
  }

  /** One unit more: the buffer grows, or is full and either settles the question or is flushed. */
  lemma OneMoreUnit(payload: Bytes, left: Bytes, seen: Bytes, buffer: Bytes)
    requires InProgress(payload, left, seen, buffer) && NextSize(left).Some?
    ensures var n, t := NextSize(left).value, NalType(left[2]);
            var after, types := left[2 + n..], buffer + [t];
            && (|types| < BATCH ==> InProgress(payload, after, seen + [t], types))
            && (|types| == BATCH && NAL_UNIT_TYPE_IDR in types ==> Detects(payload))
            && (|types| == BATCH && NAL_UNIT_TYPE_IDR !in types ==> InProgress(payload, after, seen + [t], []))
  {
    var n, t := NextSize(left).value, NalType(left[2]);
    hide Detects, Scanned, Pending, NextSize, ParseUnits, Types, NalType;
    ScanOneMore(payload, left, seen, n);
    PendingGrows(buffer, seen, t);
    if |buffer| + 1 == BATCH && NAL_UNIT_TYPE_IDR in buffer + [t] {
      FullBatchIsSeen(payload, left[2 + n..], seen + [t]);
    }
  }

  lemma NextUnit(left: Bytes)
    ensures NextSize(left) ==
            if |left| < 2 then None
            else
              var n := U16FromBe(left[0], left[1]);
              if n == 0 || |left| - 2 < n then None else Some(n)
    ensures NextSize(left).Some? ==> left[2..][NextSize(left).value..] == left[2 + NextSize(left).value..]
  {
  }

  lemma ScanStarts(payload: Bytes)
    ensures InProgress(payload, payload, [], [])
  {
    var types := Types(ParseUnits(payload).units);
    assert [] + types == types;
    var nothing: Bytes := [];
    assert nothing == nothing + nothing && NAL_UNIT_TYPE_IDR !in nothing;
  }

  /** When the loop stops, the batches and the buffer between them decide. */
  lemma StopDecides(payload: Bytes, left: Bytes, seen: Bytes, buffer: Bytes)
    requires InProgress(payload, left, seen, buffer) && NextSize(left).None?
    ensures Detects(payload) <==> |left| < 2 && NAL_UNIT_TYPE_IDR in buffer
  {
    ScanStops(payload, left, seen);
    hide ParseUnits, Types, Scanned, NextSize;
    var flushed :| NAL_UNIT_TYPE_IDR !in flushed && seen == flushed + buffer;
    assert BATCH * (|seen| / BATCH) == |flushed|;
    assert Batched(seen) == flushed;
  }

  method StapAContainsIdrSimd(payload: Bytes) returns (found: bool)
    ensures found <==> Detects(payload)
  {
    var nalTypes := new Byte[BATCH](_ => 0);
    var nalTypeCount := 0;
    var left := payload;
    ghost var seen, buffer: Bytes := [], [];
    ScanStarts(payload);
    hide Detects, InProgress, U16FromBe, NalType, NextSize, ParseUnits, Types;
    hide Simd.AnyEq, Simd.CmpEq, Simd.MoveMask, Simd.Splat;
    while |left| >= 2
      invariant nalTypeCount == |buffer| < BATCH
      invariant nalTypes[..nalTypeCount] == buffer
      invariant InProgress(payload, left, seen, buffer)
      decreases |left|
    {
      var nalLen := U16FromBe(left[0], left[1]);
      var rest := left[2..];
      NextUnit(left);
      if nalLen == 0 || |rest| < nalLen {
        StopDecides(payload, left, seen, buffer);
        return false;
      }
      OneMoreUnit(payload, left, seen, buffer);
      var nalType := NalType(rest[0]);
      seen, buffer := seen + [nalType], buffer + [nalType];
      nalTypes[nalTypeCount] := nalType;
      nalTypeCount := nalTypeCount + 1;
      if nalTypeCount == nalTypes.Length {
        assert nalTypes[..] == buffer;
        if Simd.AnyEq(nalTypes[..], NAL_UNIT_TYPE_IDR) {
          return true;
        }
        nalTypeCount, buffer := 0, [];
      }
      left := rest[nalLen..];
    }
    NextUnit(left);
    StopDecides(payload, left, seen, buffer);
    found := NAL_UNIT_TYPE_IDR in nalTypes[..nalTypeCount];
  }

  // ----- what the answer means

  /** Some unit the loop could parse is an IDR unit. */
  ghost predicate SomeUnitIsIdr(units: seq<Unit>) {
    exists i :: 0 <= i < |units| && NalType(units[i][0]) == NAL_UNIT_TYPE_IDR
  }

  lemma IdrTypes(units: seq<Unit>)
    ensures NAL_UNIT_TYPE_IDR in Types(units) <==> SomeUnitIsIdr(units)
  {
    TypesOf(units);
    if SomeUnitIsIdr(units) {
      var i :| 0 <= i < |units| && NalType(units[i][0]) == NAL_UNIT_TYPE_IDR;
      assert Types(units)[i] == NAL_UNIT_TYPE_IDR;
    }
  }

  lemma BatchedAreTypes(types: Bytes)
    ensures forall t | t in Batched(types) :: t in types
  {
  }

  /** On a well-formed aggregate, with at most one stray byte behind it, the scanner finds an IDR unit
      exactly when one was aggregated, wherever it falls among the batches. */
  lemma DetectsAggregatedIdr(units: seq<Unit>, stray: Bytes)
    requires Aggregable(units) && |stray| < 2
    ensures Detects(Aggregate(units) + stray) <==> SomeUnitIsIdr(units)
  {
    ParseAggregate(units, stray);
    assert units + [] == units;
    IdrTypes(units);
    TypesOf(units);
    BatchedAreTypes(Types(units));
  }

  /** Whether an IDR unit lies in a full batch. */
  ghost predicate BatchedIdr(payload: Bytes) {
    NAL_UNIT_TYPE_IDR in Batched(Types(ParseUnits(payload).units))
  }

  /** On malformed payloads the answer depends on where the batches end. Read leniently (an IDR unit before
      the malformed one counts) the scanner is right exactly when the payload is clean, or its IDR units are
      none, or one lies in a full batch. Read strictly (a malformed payload never counts) it is right exactly
      when the payload is clean or no IDR unit lies in a full batch. */
  lemma MalformedPayloads(payload: Bytes)
    ensures var p := ParseUnits(payload);
            && ((Detects(payload) <==> SomeUnitIsIdr(p.units))
                <==> p.Clean() || !SomeUnitIsIdr(p.units) || BatchedIdr(payload))
            && ((Detects(payload) <==> p.Clean() && SomeUnitIsIdr(p.units))
                <==> p.Clean() || !BatchedIdr(payload))
  {
    var types := Types(ParseUnits(payload).units);
    IdrTypes(ParseUnits(payload).units);
    BatchedAreTypes(types);
  }

  lemma FirstBatch(types: Bytes)
    ensures |types| < BATCH ==> Batched(types) == []
    ensures |types| >= BATCH ==> types[0] in Batched(types)
  {
    if |types| >= BATCH {
      assert BATCH * (|types| / BATCH) > 0;
      assert Batched(types)[0] == types[0];
    } else {
      assert |types| / BATCH == 0;
    }
  }

  lemma ZeroSizeAfter(idr: Unit, n: nat) returns (payload: Bytes)
    requires idr == [5] && n > 0
    ensures !ParseUnits(payload).Clean() && SomeUnitIsIdr(ParseUnits(payload).units)
    ensures Detects(payload) <==> n >= BATCH
  {
    var units := seq(n, _ => idr);
    payload := Aggregate(units) + [0, 0];
    assert NextSize([0, 0]).None?;
    assert ParseUnits([0, 0]) == Parse([], [0, 0]);
    ParseAggregate(units, [0, 0]);
    assert units + [] == units;
    hide ParseUnits, Aggregate;
    TypesOf(units);
    assert NalType(units[0][0]) == NAL_UNIT_TYPE_IDR;
    hide Types, Batched;
    FirstBatch(Types(units));
  }

  // ----- the answer by number

  /** The loop cannot parse a unit: fewer than two bytes, a size of zero, or more announced than there is. */
  predicate Stops(rest: Bytes) {
    |rest| < 2
    || (var size: nat := (rest[0] as nat) * 256 + (rest[1] as nat); size == 0 || size > |rest| - 2)
  }

  lemma StoppedParse(rest: Bytes)
    ensures Stops(rest) <==> NextSize(rest).None?
    ensures Stops(rest) ==> ParseUnits(rest) == Parse([], rest)
  {
  }

  lemma {:induction false} ParseStops(payload: Bytes)
    ensures Stops(ParseUnits(payload).rest)
    decreases |payload|
  {
    match NextSize(payload)
    case None => StoppedParse(payload);
    case Some(n) => ParseStops(payload[2 + n..]);
  }

  /** A unit of type 5 among the first `n`. */
  ghost predicate IdrAmong(units: seq<Unit>, n: int) {
    exists i :: 0 <= i < n && i < |units| && units[i][0] % 32 == 5
  }

  lemma IdrAmongTypes(units: seq<Unit>, n: nat)
    requires n <= |units|
    ensures |Types(units)| == |units|
    ensures NAL_UNIT_TYPE_IDR in Types(units)[..n] <==> IdrAmong(units, n)
  {
    TypesOf(units);
    var types := Types(units);
    hide Types;
    if IdrAmong(units, n) {
      var i :| 0 <= i < n && i < |units| && units[i][0] % 32 == 5;
      assert types[..n][i] == NAL_UNIT_TYPE_IDR;
    }
    if NAL_UNIT_TYPE_IDR in types[..n] {
      var i :| 0 <= i < n && types[..n][i] == NAL_UNIT_TYPE_IDR;
      assert units[i][0] % 32 == 5;
    }
  }

  lemma AggregateParses(units: seq<Unit>, rest: Bytes)
    requires Aggregable(units) && Stops(rest)
    ensures ParseUnits(Aggregate(units) + rest) == Parse(units, rest)
  {
    StoppedParse(rest);
    hide ParseUnits, Aggregate, Stops;
    ParseAggregate(units, rest);
    assert units + [] == units;
  }

  lemma BatchedIdrAmong(units: seq<Unit>)
    ensures NAL_UNIT_TYPE_IDR in Batched(Types(units)) <==> IdrAmong(units, 16 * (|units| / 16))
    ensures NAL_UNIT_TYPE_IDR in Types(units) <==> IdrAmong(units, |units|)
  {
    var n := |units|;
    IdrAmongTypes(units, 16 * (n / 16));
    IdrAmongTypes(units, n);
    hide IdrAmong, Types;
    assert Types(units)[..n] == Types(units);
  }

  /** Every payload is units laid out after their sizes and a rest that stops the loop (`AggregateParsed`,
      `ParseStops`), and then the answer is: a unit of type 5 in the whole sixteens, or the rest is at most one
      byte and there is a unit of type 5. */
  lemma DetectsByNumber(units: seq<Unit>, rest: Bytes)
    requires Aggregable(units) && Stops(rest)
    ensures Detects(Aggregate(units) + rest)
       <==> IdrAmong(units, 16 * (|units| / 16)) || (|rest| < 2 && IdrAmong(units, |units|))
  {
    hide Aggregate, ParseUnits, IdrAmong, Stops, Types, Batched, Aggregable;
    AggregateParses(units, rest);
    BatchedIdrAmong(units);
  }

  /** Bytes of `n` aggregated one-byte IDR units: size 1, type 5, over and over. */
  function RepeatedIdr(n: nat): Bytes {
    if n == 0 then [] else [0, 1, 5] + RepeatedIdr(n - 1)
  }

  function IdrUnits(n: nat): seq<Unit> {
    seq(n, _ => [5])
  }

  lemma {:induction false} RepeatedIdrUnits(n: nat)
    ensures Aggregate(IdrUnits(n)) == RepeatedIdr(n)
  {
    if n == 0 {
    } else {
      RepeatedIdrUnits(n - 1);
      var idr: Unit := [5];
      assert IdrUnits(n) == [idr] + IdrUnits(n - 1);
      AggregateCons(idr, IdrUnits(n - 1));
      hide Aggregate, IdrUnits;
      assert [1 / 256, 1 % 256] + idr + Aggregate(IdrUnits(n - 1)) == [0, 1, 5] + RepeatedIdr(n - 1);
    }
  }

  lemma IdrAmongIdrs(n: nat)
    ensures IdrAmong(IdrUnits(n), 16 * (n / 16)) <==> n >= 16
  {
    if n >= 16 {
      assert 0 < 16 * (n / 16) && IdrUnits(n)[0][0] % 32 == 5;
    } else {
      assert n / 16 == 0;
    }
  }

  /** Sixteen is the number of units a batch holds: IDR units before a size of zero are seen from sixteen on. */
  lemma ZeroSizeAfterIdrs(n: nat)
    ensures Detects(RepeatedIdr(n) + [0, 0]) <==> n >= 16
  {
    assert Stops([0, 0]);
    RepeatedIdrUnits(n);
    IdrAmongIdrs(n);
    assert |IdrUnits(n)| == n;
    hide *;
    DetectsByNumber(IdrUnits(n), [0, 0]);
  }

  /** Neither reading holds of every payload: one IDR unit and a zero size is rejected, sixteen IDR units
      and a zero size are accepted. */
  lemma NeitherReadingAlwaysHolds() returns (rejected: Bytes, accepted: Bytes)
    ensures SomeUnitIsIdr(ParseUnits(rejected).units) && !Detects(rejected)
    ensures !ParseUnits(accepted).Clean() && Detects(accepted)
  {
    var idr: Unit := [5];
    rejected := ZeroSizeAfter(idr, 1);
    accepted := ZeroSizeAfter(idr, BATCH);
  }

  // ----- the payload dispatch

  /** An IDR unit starts in the payload: a single IDR unit (section 5.2), an aggregate the scanner accepts
      (5.7.1), or the first fragment of an IDR unit (5.8). */
  predicate StartsIdr(payload: Bytes) {
    && payload != []
    && var nalType := NalType(payload[0]);
       || nalType == NAL_UNIT_TYPE_IDR
       || (nalType == NAL_UNIT_TYPE_STAP_A && Detects(payload[1..]))
       || (nalType == NAL_UNIT_TYPE_FU_A && |payload| > 1
           && StartBit(payload[1]) && NalType(payload[1]) == NAL_UNIT_TYPE_IDR)
  }

  predicate FuAStartsIdr(payload: Bytes) {
    payload != [] && StartBit(payload[0]) && NalType(payload[0]) == NAL_UNIT_TYPE_IDR
  }

  lemma DispatchByNumber(payload: Bytes)
    ensures StartsIdr(payload)
       <==> payload != []
            && (payload[0] % 32 == 5
                || (payload[0] % 32 == 24 && Detects(payload[1..]))
                || (payload[0] % 32 == 28 && |payload| > 1 && payload[1] >= 128 && payload[1] % 32 == 5))
  {
    hide Detects;
  }

  method H264PayloadStartsIdrSimd(payload: Bytes) returns (starts: bool)
    ensures starts <==> StartsIdr(payload)
    ensures starts <==>
              payload != []
              && (payload[0] % 32 == 5
                  || (payload[0] % 32 == 24 && Detects(payload[1..]))
                  || (payload[0] % 32 == 28 && |payload| > 1 && payload[1] >= 128 && payload[1] % 32 == 5))
  {
    DispatchByNumber(payload);
    hide Detects;
    if payload == [] {
      return false;
    }
    var nalType := NalType(payload[0]);
    if nalType == NAL_UNIT_TYPE_IDR {
      starts := true;
    } else if nalType == NAL_UNIT_TYPE_STAP_A {
      starts := StapAContainsIdrSimd(payload[1..]);
    } else if nalType == NAL_UNIT_TYPE_FU_A {
      starts := FuAStartsIdr(payload[1..]);
    } else {
      starts := false;
    }
  }

  lemma IdrAmongOne(u: Unit)
    ensures IdrAmong([u], 1) <==> u[0] % 32 == 5
    ensures !IdrAmong([u], 16 * (1 / 16))
  {
    assert [u][0] == u;
  }

  /** A type-24 header, two size bytes and the unit they announce: the answer is whether the unit is of type 5. */
  lemma OneUnitAggregate(header: Byte, high: Byte, low: Byte, u: Unit)
    requires header % 32 == 24 && |u| == 256 * high + low
    ensures StartsIdr([header, high, low] + u) <==> u[0] % 32 == 5
  {
    var payload := [header, high, low] + u;
    AggregateCons(u, []);
    assert [u] + [] == [u];
    var body := Aggregate([u]);
    assert body == [high, low] + u;
    assert payload[1..] == body + [];
    DetectsByNumber([u], []);
    DispatchByNumber(payload);
    hide *;
    assert payload[0] == header;
    IdrAmongOne(u);
  }

  /** A type-28 indicator and an FU header: the answer is whether start bit and type 5 are in the header. */
  lemma OneFragment(indicator: Byte, header: Byte, rest: Bytes)
    requires indicator % 32 == 28
    ensures StartsIdr([indicator, header] + rest) <==> header >= 128 && header % 32 == 5
  {
    DispatchByNumber([indicator, header] + rest);
  }

  // ----- one unit, however it is sent

  function Joined(chunks: seq<Bytes>): Bytes {
    if chunks == [] then [] else chunks[0] + Joined(chunks[1..])
  }

  /** A unit without its header byte in at least two pieces, empty ones allowed (section 5.8). */
  predicate IsFragmentation(chunks: seq<Bytes>, u: Unit) {
    |chunks| >= 2 && Joined(chunks) == u[1..]
  }

  /** Fragment `i`: the indicator keeps the upper three bits of the unit's header, the FU header has start
      bit, end bit and the unit's type. */
  function Fragment(u: Unit, chunks: seq<Bytes>, i: nat): Bytes
    requires i < |chunks|
  {
    var indicator: Byte := u[0] / 32 * 32 + NAL_UNIT_TYPE_FU_A;
    var header: Byte := (if i == 0 then 128 else 0) + (if i == |chunks| - 1 then 64 else 0) + NalType(u[0]);
    [indicator, header] + chunks[i]
  }

  function Fragments(u: Unit, chunks: seq<Bytes>): seq<Bytes> {
    seq(|chunks|, i requires 0 <= i < |chunks| => Fragment(u, chunks, i))
  }

  lemma HeaderByNumber(first: bool, last: bool, t: nat)
    requires t < 32
    ensures var header := (if first then 128 else 0) + (if last then 64 else 0) + t;
            && header % 32 == t && header / 32 % 2 == 0
            && (header / 64 % 2 == 1 <==> last) && (header / 128 == 1 <==> first)
  {
  }

  lemma IndicatorByNumber(byte: nat)
    ensures (byte / 32 * 32 + 28) / 32 == byte / 32 && (byte / 32 * 32 + 28) % 32 == 28
  {
  }

  /** Both header bytes by number: priority bits and type 28; start bit 128 first, end bit 64 last, reserved bit 32
      never, and the unit's type. */
  lemma FragmentByNumber(u: Unit, chunks: seq<Bytes>, i: nat)
    requires i < |chunks|
    ensures var f := Fragment(u, chunks, i);
            && f[0] / 32 == u[0] / 32 && f[0] % 32 == 28
            && f[1] % 32 == u[0] % 32
            && (f[1] / 128 == 1 <==> i == 0)
            && (f[1] / 64 % 2 == 1 <==> i == |chunks| - 1)
            && f[1] / 32 % 2 == 0
            && f[2..] == chunks[i]
  {
    var f := Fragment(u, chunks, i);
    assert f[0] == u[0] / 32 * 32 + 28;
    assert f[1] == (if i == 0 then 128 else 0) + (if i == |chunks| - 1 then 64 else 0) + u[0] % 32;
    assert f[2..] == chunks[i];
    hide *;
    IndicatorByNumber(u[0]);
    HeaderByNumber(i == 0, i == |chunks| - 1, u[0] % 32);
  }

  /** What the receiver puts together: header byte from the two bytes of the first fragment, then the rest of
      each fragment in order. */
  function Reassembled(fragments: seq<Bytes>): Unit
    requires fragments != [] && forall i | 0 <= i < |fragments| :: |fragments[i]| >= 2
  {
    var header: Byte := fragments[0][0] / 32 * 32 + NalType(fragments[0][1]);
    [header] + Joined(seq(|fragments|, i requires 0 <= i < |fragments| => fragments[i][2..]))
  }

  lemma HeaderComesBack(header: Byte)
    ensures (header / 32 * 32 + NAL_UNIT_TYPE_FU_A) / 32 * 32 + (128 + header % 32) % 32 == header
  {
  }

  lemma FragmentsCarryTheUnit(u: Unit, chunks: seq<Bytes>)
    requires IsFragmentation(chunks, u)
    ensures Reassembled(Fragments(u, chunks)) == u
  {
    var fragments := Fragments(u, chunks);
    var rests := seq(|fragments|, i requires 0 <= i < |fragments| => fragments[i][2..]);
    assert rests == chunks;
    hide Joined;
    var header := fragments[0][0] / 32 * 32 + NalType(fragments[0][1]);
    HeaderComesBack(u[0]);
    assert header == u[0];
    assert [u[0]] + u[1..] == u;
  }

  lemma FragmentStartsIdr(u: Unit, chunks: seq<Bytes>, i: nat)
    requires i < |chunks|
    ensures StartsIdr(Fragment(u, chunks, i)) <==> i == 0 && NalType(u[0]) == NAL_UNIT_TYPE_IDR
  {
    var payload := Fragment(u, chunks, i);
    assert NalType(payload[0]) == NAL_UNIT_TYPE_FU_A;
    assert NalType(payload[1]) == NalType(u[0]);
    assert StartBit(payload[1]) <==> i == 0;
    hide Fragment, Detects, NalType;
  }

  lemma AggregateOfOne(header: Byte, u: Unit)
    requires header % 32 == 24 && |u| < 0x1_0000
    ensures Aggregable([u])
    ensures StartsIdr([header] + Aggregate([u])) <==> u[0] % 32 == 5
  {
    AggregateCons(u, []);
    assert [u] + [] == [u];
    var body := Aggregate([u]);
    assert ([header] + body)[1..] == body + [];
    DetectsByNumber([u], []);
    DispatchByNumber([header] + body);
    hide *;
    IdrAmongOne(u);
  }

  /** However a unit is sent whose type packets may carry alone or in fragments (table 1), the detector answers
      whether it is an IDR unit, once: for the unit alone, for an aggregate of it with any header, and for its
      first fragment; no later fragment is mistaken for a start. */
  lemma AnyPacketizationDetects(u: Unit, chunks: seq<Bytes>, aggregateHeader: Byte)
    requires 1 <= u[0] % 32 <= 23 && |chunks| >= 2 && Joined(chunks) == u[1..]
    requires aggregateHeader % 32 == 24
    ensures StartsIdr(u) <==> u[0] % 32 == 5
    ensures |u| < 0x1_0000 ==>
              Aggregable([u]) && (StartsIdr([aggregateHeader] + Aggregate([u])) <==> u[0] % 32 == 5)
    ensures StartsIdr(Fragment(u, chunks, 0)) <==> u[0] % 32 == 5
    ensures forall i | 0 < i < |chunks| :: !StartsIdr(Fragment(u, chunks, i))
    ensures Reassembled(Fragments(u, chunks)) == u
  {
    FragmentsCarryTheUnit(u, chunks);
    hide Fragment, Fragments, Reassembled, Detects, Aggregate, Joined, StartsIdr;
    DispatchByNumber(u);
    forall i | 0 <= i < |chunks| ensures StartsIdr(Fragment(u, chunks, i)) <==> i == 0 && u[0] % 32 == 5 {
      FragmentStartsIdr(u, chunks, i);
    }
    if |u| < 0x1_0000 {
      AggregateOfOne(aggregateHeader, u);
    }
  }

  // ----- the benchmark's aggregates

  function DeterministicByte(packetIndex: nat, byteIndex: nat): Byte {
    (packetIndex * 31 + byteIndex * 17 + 13) % (U64_MAX + 1) % 256
  }

  /** Unit `i` of the benchmark's aggregate: an IDR unit in the middle if one is asked for. */
  function BenchmarkUnit(nalCount: nat, seed: nat, includeIdr: bool, i: nat): Unit {
    [if includeIdr && i == nalCount / 2 then NAL_UNIT_TYPE_IDR else 1,
     DeterministicByte(seed, i), DeterministicByte(seed, SatAdd(i, 1)), DeterministicByte(seed, SatAdd(i, 2))]
  }

  function BenchmarkUnits(nalCount: nat, seed: nat, includeIdr: bool): seq<Unit> {
    seq(nalCount, i requires 0 <= i < nalCount => BenchmarkUnit(nalCount, seed, includeIdr, i))
  }

  lemma {:induction false} AggregateSnoc(units: seq<Unit>, u: Unit)
    requires Aggregable(units) && |u| < 0x1_0000
    ensures Aggregable(units + [u])
    ensures Aggregate(units + [u]) == Aggregate(units) + (U16ToBe(|u|) + u)
  {
    hide U16ToBe;
    if units == [] {
      assert units + [u] == [u] && [u][1..] == [];
      assert Aggregate([u]) == U16ToBe(|u|) + u + [];
    } else {
      assert (units + [u])[1..] == units[1..] + [u];
      AggregateSnoc(units[1..], u);
      Reassociate(U16ToBe(|units[0]|) + units[0], Aggregate(units[1..]), U16ToBe(|u|) + u);
    }
  }

  lemma EmptyAggregate()
    ensures Aggregable([]) && Aggregate([]) == []
  {
  }

  lemma OneUnitMore(payload: Bytes, units: seq<Unit>, i: nat)
    requires i < |units| && Aggregable(units[..i]) && |units[i]| < 0x1_0000
    requires payload == [NAL_UNIT_TYPE_STAP_A] + Aggregate(units[..i])
    ensures Aggregable(units[..i + 1])
    ensures payload + U16ToBe(|units[i]|) + units[i] == [NAL_UNIT_TYPE_STAP_A] + Aggregate(units[..i + 1])
  {
    var u := units[i];
    assert units[..i + 1] == units[..i] + [u];
    hide *;
    AggregateSnoc(units[..i], u);
    Reassociate([NAL_UNIT_TYPE_STAP_A], Aggregate(units[..i]), U16ToBe(|u|) + u);
    Reassociate(payload, U16ToBe(|u|), u);
  }

  /** Four-byte units lie six bytes apart. */
  lemma {:induction false} LayoutOfFours(units: seq<Unit>, i: nat)
    requires Aggregable(units) && i < |units| && forall j | 0 <= j < |units| :: |units[j]| == 4
    ensures |Aggregate(units)| == 6 * |units|
    ensures Aggregate(units)[6 * i..6 * i + 6] == [0, 4] + units[i]
    decreases |units|
  {
    var u, tail := units[0], units[1..];
    assert units == [u] + tail;
    AggregateCons(u, tail);
    assert [|u| / 256, |u| % 256] == [0, 4];
    if |tail| == 0 {
      assert Aggregate(tail) == [];
      assert Aggregate(units)[0..6] == [0, 4] + u;
    } else {
      LayoutOfFours(tail, if i == 0 then 0 else i - 1);
      hide Aggregate;
      assert Aggregate(units) == ([0, 4] + u) + Aggregate(tail);
      if i == 0 {
        assert Aggregate(units)[0..6] == [0, 4] + u;
      } else {
        assert Aggregate(units)[6 * i..6 * i + 6] == Aggregate(tail)[6 * (i - 1)..6 * (i - 1) + 6];
      }
    }
  }

  lemma LowByteOfWord(n: nat)
    ensures n % (U64_MAX + 1) % 256 == n % 256
  {
    var q, r := n / (U64_MAX + 1), n % (U64_MAX + 1);
    assert n == 256 * (0x100_0000_0000_0000 * q) + r;
  }

  lemma DeterministicByteIs(packetIndex: nat, byteIndex: nat)
    ensures DeterministicByte(packetIndex, byteIndex) == (31 * packetIndex + 17 * byteIndex + 13) % 256
  {
    LowByteOfWord(packetIndex * 31 + byteIndex * 17 + 13);
  }

  /** Six bytes per unit: the size 4, the type, and three bytes mixed from seed and position. */
  function UnitBytes(nalCount: nat, seed: nat, includeIdr: bool, i: nat): Bytes {
    [0, 4, if includeIdr && i == nalCount / 2 then 5 else 1,
     (31 * seed + 17 * i + 13) % 256, (31 * seed + 17 * (i + 1) + 13) % 256, (31 * seed + 17 * (i + 2) + 13) % 256]
  }

  /** The benchmark's payload byte by byte: header 24, then the units. */
  ghost predicate IsBenchmarkPayload(payload: Bytes, nalCount: nat, seed: nat, includeIdr: bool) {
    && |payload| == 1 + 6 * nalCount
    && payload[0] == 24
    && forall i | 0 <= i < nalCount :: payload[1 + 6 * i..7 + 6 * i] == UnitBytes(nalCount, seed, includeIdr, i)
  }

  lemma BenchmarkUnitBytes(nalCount: nat, seed: nat, includeIdr: bool, i: nat)
    requires i < nalCount <= I64_MAX
    ensures [0, 4] + BenchmarkUnit(nalCount, seed, includeIdr, i) == UnitBytes(nalCount, seed, includeIdr, i)
  {
    DeterministicByteIs(seed, i);
    DeterministicByteIs(seed, i + 1);
    DeterministicByteIs(seed, i + 2);
    hide DeterministicByte;
  }

  lemma SixBytesAfterHeader(header: Byte, body: Bytes, at: nat)
    requires at + 6 <= |body|
    ensures ([header] + body)[1 + at..7 + at] == body[at..at + 6]
  {
  }

  lemma BenchmarkLayout(nalCount: nat, seed: nat, includeIdr: bool)
    requires nalCount <= I64_MAX
    ensures Aggregable(BenchmarkUnits(nalCount, seed, includeIdr))
    ensures IsBenchmarkPayload([NAL_UNIT_TYPE_STAP_A] + Aggregate(BenchmarkUnits(nalCount, seed, includeIdr)),
                               nalCount, seed, includeIdr)
  {
    var units := BenchmarkUnits(nalCount, seed, includeIdr);
    var body := Aggregate(units);
    var payload := [NAL_UNIT_TYPE_STAP_A] + body;
    if nalCount == 0 {
      EmptyAggregate();
    } else {
      LayoutOfFours(units, 0);
    }
    hide Aggregate, UnitBytes, BenchmarkUnit;
    forall i | 0 <= i < nalCount
      ensures payload[1 + 6 * i..7 + 6 * i] == UnitBytes(nalCount, seed, includeIdr, i)
    {
      LayoutOfFours(units, i);
      BenchmarkUnitBytes(nalCount, seed, includeIdr, i);
      SixBytesAfterHeader(NAL_UNIT_TYPE_STAP_A, body, 6 * i);
    }
    hide BenchmarkUnits;
  }

  method StapAPayload(nalCount: nat, seed: nat, includeIdr: bool) returns (payload: Bytes)
    ensures Aggregable(BenchmarkUnits(nalCount, seed, includeIdr))
    ensures payload == [NAL_UNIT_TYPE_STAP_A] + Aggregate(BenchmarkUnits(nalCount, seed, includeIdr))
    ensures nalCount <= I64_MAX ==> IsBenchmarkPayload(payload, nalCount, seed, includeIdr)
  {
    ghost var units := BenchmarkUnits(nalCount, seed, includeIdr);
    payload := [NAL_UNIT_TYPE_STAP_A];
    var idrIndex := nalCount / 2;
    hide Aggregate, DeterministicByte, U16ToBe, IsBenchmarkPayload;
    EmptyAggregate();
    for nalIndex := 0 to nalCount
      invariant Aggregable(units[..nalIndex])
      invariant payload == [NAL_UNIT_TYPE_STAP_A] + Aggregate(units[..nalIndex])
    {
      var nalType: Byte := if includeIdr && nalIndex == idrIndex then NAL_UNIT_TYPE_IDR else 1;
      var nal: Bytes := [nalType, DeterministicByte(seed, nalIndex), DeterministicByte(seed, SatAdd(nalIndex, 1)),
                         DeterministicByte(seed, SatAdd(nalIndex, 2))];
      assert units[nalIndex] == nal;
      OneUnitMore(payload, units, nalIndex);
      payload := payload + U16ToBe(|nal|);
      payload := payload + nal;
    }
    assert units[..nalCount] == units;
    if nalCount <= I64_MAX {
      BenchmarkLayout(nalCount, seed, includeIdr);
    }
  }

  lemma StapADispatch(body: Bytes)
    ensures StartsIdr([NAL_UNIT_TYPE_STAP_A] + body) <==> Detects(body)
  {
    hide Detects;
    assert ([NAL_UNIT_TYPE_STAP_A] + body)[1..] == body;
  }

  lemma BenchmarkUnitIsIdr(nalCount: nat, seed: nat, includeIdr: bool)
    ensures SomeUnitIsIdr(BenchmarkUnits(nalCount, seed, includeIdr)) <==> includeIdr && nalCount > 0
  {
    var units := BenchmarkUnits(nalCount, seed, includeIdr);
    hide DeterministicByte;
    if includeIdr && nalCount > 0 {
      assert NalType(units[nalCount / 2][0]) == NAL_UNIT_TYPE_IDR;
    }
  }

  /** For every count and seed, scanning the built aggregate answers whether an IDR unit was put in. */
  lemma BenchmarkAggregates(nalCount: nat, seed: nat, includeIdr: bool)
    requires Aggregable(BenchmarkUnits(nalCount, seed, includeIdr))
    ensures StartsIdr([NAL_UNIT_TYPE_STAP_A] + Aggregate(BenchmarkUnits(nalCount, seed, includeIdr)))
       <==> includeIdr && nalCount > 0
  {
    var body := Aggregate(BenchmarkUnits(nalCount, seed, includeIdr));
    BenchmarkUnitIsIdr(nalCount, seed, includeIdr);
    hide Aggregate, BenchmarkUnits, Detects, StartsIdr;
    DetectsAggregatedIdr(BenchmarkUnits(nalCount, seed, includeIdr), []);
    assert body + [] == body;
    StapADispatch(body);
  }
}
