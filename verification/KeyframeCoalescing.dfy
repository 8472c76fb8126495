/** Keyframe request coalescing: a stably sorted reusable vector folded run by run,
    against a map fold. Models src/performance_hardening.rs. */
module KeyframeCoalescing {
  import opened Machine
  import opened Ordering
  import opened Sequences

  datatype KeyframeKind = Pli | Fir {
    function Coalesce(other: KeyframeKind): KeyframeKind {
      match (this, other)
      case (Fir, _) => Fir
      case (_, Fir) => Fir
      case _ => Pli
    }
  }

  datatype PendingKeyframeRequest =
    PendingKeyframeRequest(source: nat, rid: Option<nat>, kind: KeyframeKind)

  datatype CoalescedKeyframeRequest =
    CoalescedKeyframeRequest(source: nat, rid: Option<nat>, kind: KeyframeKind)
  {
    function Coalesce(request: PendingKeyframeRequest): CoalescedKeyframeRequest {
      this.(rid := if rid.Some? then rid else request.rid,
            kind := kind.Coalesce(request.kind))
    }

    function AsPending(): PendingKeyframeRequest {
      PendingKeyframeRequest(source, rid, kind)
    }
  }

  function Start(request: PendingKeyframeRequest): CoalescedKeyframeRequest {
    CoalescedKeyframeRequest(request.source, request.rid, request.kind)
  }

  function Started(requests: seq<PendingKeyframeRequest>): seq<CoalescedKeyframeRequest> {
    seq(|requests|, i requires 0 <= i < |requests| => Start(requests[i]))
  }

  function SourceOf(request: CoalescedKeyframeRequest): nat {
    request.source
  }

  // ----- specification: what a list of requests amounts to, source by source

  function Sources(s: seq<CoalescedKeyframeRequest>): set<nat> {
    if s == [] then {} else Sources(s[..|s| - 1]) + {s[|s| - 1].source}
  }

  function FirstRid(s: seq<CoalescedKeyframeRequest>): Option<nat> {
    if s == [] then None
    else if s[0].rid.Some? then s[0].rid
    else FirstRid(s[1..])
  }

  predicate AnyFir(s: seq<CoalescedKeyframeRequest>) {
    exists i | 0 <= i < |s| :: s[i].kind == Fir
  }

  /** The request owed to source `k`: the first rid any of its requests names, `Fir` iff any is. */
  function Summary(s: seq<CoalescedKeyframeRequest>, k: nat): CoalescedKeyframeRequest {
    var own := Bucket(s, SourceOf, k);
    CoalescedKeyframeRequest(k, FirstRid(own), if AnyFir(own) then Fir else Pli)
  }

  /** One summary a source, in ascending source order. */
  function AscendingSummaries(s: seq<CoalescedKeyframeRequest>): seq<CoalescedKeyframeRequest> {
    var ks := AscendingKeys(Sources(s));
    seq(|ks|, i requires 0 <= i < |ks| => Summary(s, ks[i]))
  }

  // ----- how one more request changes the specification

  lemma {:induction false} SourcesAreNonEmptyBuckets(s: seq<CoalescedKeyframeRequest>, k: nat)
    ensures k in Sources(s) <==> Bucket(s, SourceOf, k) != []
  {
    if s == [] {
    } else {
      var n := |s| - 1;
      SourcesAreNonEmptyBuckets(s[..n], k);
      BucketSnoc(s[..n], s[n], SourceOf, k);
      assert s == s[..n] + [s[n]];
    }
  }

  lemma {:induction false} FirstRidSnoc(s: seq<CoalescedKeyframeRequest>, x: CoalescedKeyframeRequest)
    ensures FirstRid(s + [x]) == if FirstRid(s).Some? then FirstRid(s) else x.rid
  {
    if s == [] {
      assert s + [x] == [x];
      assert FirstRid([x][1..]) == None;
    } else {
      assert (s + [x])[1..] == s[1..] + [x];
      FirstRidSnoc(s[1..], x);
    }
  }

  lemma AnyFirSnoc(s: seq<CoalescedKeyframeRequest>, x: CoalescedKeyframeRequest)
    ensures AnyFir(s + [x]) <==> AnyFir(s) || x.kind == Fir
  {
    var t := s + [x];
    assert t[|s|] == x && forall i | 0 <= i < |s| :: t[i] == s[i];
    if AnyFir(s) {
      var i :| 0 <= i < |s| && s[i].kind == Fir;
      assert t[i].kind == Fir;
    }
  }

  lemma SummarySnoc(s: seq<CoalescedKeyframeRequest>, x: CoalescedKeyframeRequest, k: nat)
    ensures Sources(s + [x]) == Sources(s) + {x.source}
    ensures k != x.source ==> Summary(s + [x], k) == Summary(s, k)
    ensures k == x.source && k in Sources(s) ==> Summary(s + [x], k) == Summary(s, k).Coalesce(x.AsPending())
    ensures k == x.source && k !in Sources(s) ==> Summary(s + [x], k) == x
  {
    assert (s + [x])[..|s|] == s;
    BucketSnoc(s, x, SourceOf, k);
    SourcesAreNonEmptyBuckets(s, k);
    var own := Bucket(s, SourceOf, k);
    FirstRidSnoc(own, x);
    AnyFirSnoc(own, x);
    assert own + [] == own;
  }

  // ----- the run-by-run fold over a sorted vector

  ghost predicate IsCoalescing(all: seq<CoalescedKeyframeRequest>, s: seq<CoalescedKeyframeRequest>) {
    && (forall i, j | 0 <= i < j < |all| :: all[i].source < all[j].source)
    && Sources(all) == Sources(s)
    && (forall i | 0 <= i < |all| :: all[i] == Summary(s, all[i].source))
  }

  lemma ReplaceLastSource(all: seq<CoalescedKeyframeRequest>, x: CoalescedKeyframeRequest, y: CoalescedKeyframeRequest)
    requires x.source == y.source
    ensures Sources(all + [x]) == Sources(all + [y])
  {
    SummarySnoc(all, x, 0);
    SummarySnoc(all, y, 0);
  }

  /** The next request belongs to the source of the open run. */
  lemma ExtendRun(closed: seq<CoalescedKeyframeRequest>, current: CoalescedKeyframeRequest,
                  s: seq<CoalescedKeyframeRequest>, x: CoalescedKeyframeRequest)
    requires IsCoalescing(closed + [current], s)
    requires current.source == x.source
    ensures IsCoalescing(closed + [current.Coalesce(x.AsPending())], s + [x])
  {
    hide Sources, Bucket;
    var before := closed + [current];
    var next := current.Coalesce(x.AsPending());
    var after := closed + [next];
    assert before[|closed|] == current;
    SummarySnoc(closed, current, x.source);
    SummarySnoc(s, x, x.source);
    ReplaceLastSource(closed, current, next);
    assert Sources(s + [x]) == Sources(s);
    forall i | 0 <= i < |after| ensures after[i] == Summary(s + [x], after[i].source) {
      if i < |closed| {
        assert after[i] == before[i];
        SummarySnoc(s, x, after[i].source);
      }
    }
    assert forall i | 0 <= i < |after| :: after[i].source == before[i].source;
  }

  lemma {:induction false} BoundIsNoSource(all: seq<CoalescedKeyframeRequest>, bound: nat)
    requires forall i | 0 <= i < |all| :: all[i].source < bound
    ensures bound !in Sources(all)
  {
    if all == [] {
    } else {
      BoundIsNoSource(all[..|all| - 1], bound);
    }
  }

  /** The next request opens a run of its own. */
  lemma OpenRun(all: seq<CoalescedKeyframeRequest>, s: seq<CoalescedKeyframeRequest>, x: CoalescedKeyframeRequest)
    requires IsCoalescing(all, s)
    requires all != [] ==> all[|all| - 1].source < x.source
    ensures IsCoalescing(all + [x], s + [x])
  {
    hide Sources, Summary, Bucket;
    SummarySnoc(s, x, x.source);
    SummarySnoc(all, x, x.source);
    assert forall i | 0 <= i < |all| :: all[i].source < x.source;
    BoundIsNoSource(all, x.source);
    forall i | 0 <= i < |all| ensures all[i] == Summary(s + [x], all[i].source) {
      SummarySnoc(s, x, all[i].source);
    }
  }

  lemma {:induction false} SourceHasIndex(s: seq<CoalescedKeyframeRequest>, k: nat)
    ensures k in Sources(s) <==> exists i :: 0 <= i < |s| && s[i].source == k
  {
    if s == [] {
    } else {
      var n := |s| - 1;
      SourceHasIndex(s[..n], k);
      assert forall i | 0 <= i < n :: s[..n][i] == s[i];
    }
  }

  /** What the fold over the sorted vector `s` knows after `i` requests: the finished runs, and the
      run still open. */
  ghost predicate Folded(closed: seq<CoalescedKeyframeRequest>, current: Option<CoalescedKeyframeRequest>,
                         s: seq<CoalescedKeyframeRequest>, i: nat)
    requires i <= |s|
  {
    if i == 0 then current.None? && closed == []
    else
      && current.Some?
      && current.value.source == s[i - 1].source
      && IsCoalescing(closed + [current.value], s[..i])
  }

  lemma FoldStarts(s: seq<CoalescedKeyframeRequest>)
    ensures Folded([], None, s, 0)
  {
  }

  lemma FoldExtends(closed: seq<CoalescedKeyframeRequest>, current: CoalescedKeyframeRequest,
                    s: seq<CoalescedKeyframeRequest>, i: nat)
    requires i < |s| && Folded(closed, Some(current), s, i)
    requires current.source == s[i].source
    ensures Folded(closed, Some(current.Coalesce(s[i].AsPending())), s, i + 1)
  {
    hide Sources, Summary, Bucket;
    assert s[..i + 1] == s[..i] + [s[i]];
    ExtendRun(closed, current, s[..i], s[i]);
  }

  lemma FoldOpens(closed: seq<CoalescedKeyframeRequest>, current: Option<CoalescedKeyframeRequest>,
                  s: seq<CoalescedKeyframeRequest>, i: nat)
    requires i < |s| && SortedBy(s, SourceOf) && Folded(closed, current, s, i)
    requires current.Some? ==> current.value.source != s[i].source
    ensures Folded(if current.Some? then closed + [current.value] else closed, Some(s[i]), s, i + 1)
  {
    hide Sources, Summary, Bucket;
    assert s[..i + 1] == s[..i] + [s[i]];
    if current.Some? {
      assert SourceOf(s[i - 1]) <= SourceOf(s[i]);
      OpenRun(closed + [current.value], s[..i], s[i]);
    } else {
      OpenRun(closed, s[..i], s[i]);
    }
  }

  /** Sorting stably does not change any source's summary. */
  lemma StableSortKeepsSummaries(r: seq<CoalescedKeyframeRequest>, s: seq<CoalescedKeyframeRequest>)
    requires StablySorts(r, s, SourceOf)
    ensures Sources(r) == Sources(s)
    ensures forall k: nat :: Summary(r, k) == Summary(s, k)
    ensures AscendingSummaries(r) == AscendingSummaries(s)
  {
    forall k: nat ensures k in Sources(r) <==> k in Sources(s) {
      SourcesAreNonEmptyBuckets(r, k);
      SourcesAreNonEmptyBuckets(s, k);
    }
  }

  function SourceList(s: seq<CoalescedKeyframeRequest>): seq<nat> {
    seq(|s|, i requires 0 <= i < |s| => s[i].source)
  }

  lemma SourceListMembers(s: seq<CoalescedKeyframeRequest>, k: nat)
    ensures k in SourceList(s) <==> k in Sources(s)
  {
    SourceHasIndex(s, k);
    if k in Sources(s) {
      var i :| 0 <= i < |s| && s[i].source == k;
      assert SourceList(s)[i] == k;
    }
  }

  /** A coalescing of `s` is the list of its summaries in ascending source order. */
  lemma CoalescingIsAscendingSummaries(all: seq<CoalescedKeyframeRequest>, s: seq<CoalescedKeyframeRequest>)
    requires IsCoalescing(all, s)
    ensures all == AscendingSummaries(s)
    ensures |all| == |Sources(s)|
  {
    var ids := SourceList(all);
    var ks := AscendingKeys(Sources(s));
    hide Sources, Summary;
    forall k: nat ensures k in ids <==> k in ks {
      SourceListMembers(all, k);
    }
    AscendingIsUnique(ids, ks);
    forall i | 0 <= i < |all| ensures all[i] == AscendingSummaries(s)[i] {
      assert ids[i] == ks[i];
    }
  }

  /** At the end the runs, the open one included, are the ascending summaries of the unsorted requests. */
  lemma FoldCompletes(closed: seq<CoalescedKeyframeRequest>, current: Option<CoalescedKeyframeRequest>,
                      sorted: seq<CoalescedKeyframeRequest>, s: seq<CoalescedKeyframeRequest>)
    requires StablySorts(sorted, s, SourceOf)
    requires Folded(closed, current, sorted, |sorted|)
    ensures current.None? ==> closed == []
    ensures (if current.Some? then closed + [current.value] else []) == AscendingSummaries(s)
    ensures (if current.Some? then |closed| + 1 else 0) == |Sources(s)|
  {
    StableSortKeepsSummaries(sorted, s);
    assert sorted[..|sorted|] == sorted;
    if current.Some? {
      CoalescingIsAscendingSummaries(closed + [current.value], sorted);
    }
  }

  ghost predicate IsMapFold(entries: map<nat, CoalescedKeyframeRequest>, s: seq<CoalescedKeyframeRequest>) {
    && entries.Keys == Sources(s)
    && forall k | k in entries :: entries[k] == Summary(s, k)
  }

  lemma MapFoldStep(entries: map<nat, CoalescedKeyframeRequest>, s: seq<CoalescedKeyframeRequest>,
                    x: CoalescedKeyframeRequest)
    requires IsMapFold(entries, s)
    ensures IsMapFold(
              entries[x.source := if x.source in entries then entries[x.source].Coalesce(x.AsPending()) else x],
              s + [x])
  {
    hide Sources, Summary, Bucket;
    SummarySnoc(s, x, x.source);
    forall k | k in entries && k != x.source ensures Summary(s + [x], k) == entries[k] {
      SummarySnoc(s, x, k);
    }
  }

  // ----- the specification read off the requests themselves

  /** The coalesced request is what the requests of its source amount to: there is one, the rid is that of the
      first of them with a rid, and the kind is `Fir` exactly when one of them is. */
  ghost predicate OwedTo(requests: seq<PendingKeyframeRequest>, c: CoalescedKeyframeRequest) {
    && (exists i :: 0 <= i < |requests| && requests[i].source == c.source)
    && (c.rid.None? ==> forall i | 0 <= i < |requests| && requests[i].source == c.source :: requests[i].rid.None?)
    && (c.rid.Some? ==>
          exists i :: 0 <= i < |requests| && requests[i].source == c.source && requests[i].rid == c.rid
                      && forall h | 0 <= h < i && requests[h].source == c.source :: requests[h].rid.None?)
    && (c.kind == Fir <==>
          exists i :: 0 <= i < |requests| && requests[i].source == c.source && requests[i].kind == Fir)
  }

  ghost function RequestedSources(requests: seq<PendingKeyframeRequest>): set<nat> {
    set i | 0 <= i < |requests| :: requests[i].source
  }

  lemma StartedSources(requests: seq<PendingKeyframeRequest>)
    ensures Sources(Started(requests)) == RequestedSources(requests)
  {
    var s := Started(requests);
    forall k: nat ensures k in Sources(s) <==> k in RequestedSources(requests) {
      SourceHasIndex(s, k);
      if k in RequestedSources(requests) {
        var i :| 0 <= i < |requests| && requests[i].source == k;
        assert s[i].source == k;
      }
    }
  }

  lemma {:induction false} OwnRids(s: seq<CoalescedKeyframeRequest>, k: nat)
    ensures var rid := FirstRid(Bucket(s, SourceOf, k));
            && (rid.None? ==> forall i | 0 <= i < |s| && s[i].source == k :: s[i].rid.None?)
            && (rid.Some? ==> exists i :: 0 <= i < |s| && s[i].source == k && s[i].rid == rid
                                          && forall h | 0 <= h < i && s[h].source == k :: s[h].rid.None?)
  {
    if s == [] {
    } else {
      var n := |s| - 1;
      var before, own := s[..n], Bucket(s[..n], SourceOf, k);
      OwnRids(before, k);
      assert s == before + [s[n]];
      BucketSnoc(before, s[n], SourceOf, k);
      assert own + [] == own;
      FirstRidSnoc(own, s[n]);
      hide Bucket, FirstRid;
      assert forall i | 0 <= i < n :: before[i] == s[i];
      if FirstRid(own).Some? {
        var i :| 0 <= i < |before| && before[i].source == k && before[i].rid == FirstRid(own)
                 && forall h | 0 <= h < i && before[h].source == k :: before[h].rid.None?;
        assert s[i].source == k && forall h | 0 <= h < i && s[h].source == k :: s[h].rid.None?;
      } else {
        assert forall h | 0 <= h < n && s[h].source == k :: s[h].rid.None? by {
          assert forall h | 0 <= h < n && before[h].source == k :: before[h].rid.None?;
        }
      }
    }
  }

  lemma OwnFir(s: seq<CoalescedKeyframeRequest>, k: nat)
    ensures AnyFir(Bucket(s, SourceOf, k)) <==> exists i :: 0 <= i < |s| && s[i].source == k && s[i].kind == Fir
  {
    var own := Bucket(s, SourceOf, k);
    BucketMembers(s, SourceOf, k);
    if AnyFir(own) {
      var i :| 0 <= i < |own| && own[i].kind == Fir;
      assert own[i] in own && own[i] in s;
    }
    if exists i :: 0 <= i < |s| && s[i].source == k && s[i].kind == Fir {
      var i :| 0 <= i < |s| && s[i].source == k && s[i].kind == Fir;
      assert s[i] in own;
    }
  }

  lemma SummaryIsOwed(requests: seq<PendingKeyframeRequest>, k: nat)
    requires k in Sources(Started(requests))
    ensures Summary(Started(requests), k).source == k
    ensures OwedTo(requests, Summary(Started(requests), k))
  {
    var s := Started(requests);
    var c := Summary(s, k);
    SourceHasIndex(s, k);
    OwnRids(s, k);
    OwnFir(s, k);
    assert forall i | 0 <= i < |requests| ::
      requests[i].source == s[i].source && requests[i].rid == s[i].rid && requests[i].kind == s[i].kind;
    hide Sources, Bucket, FirstRid, AnyFir, Started;
  }

  lemma SummariesAreOwed(requests: seq<PendingKeyframeRequest>, closed: seq<CoalescedKeyframeRequest>)
    requires closed == AscendingSummaries(Started(requests))
    ensures |closed| == |set i | 0 <= i < |requests| :: requests[i].source|
    ensures forall i, j | 0 <= i < j < |closed| :: closed[i].source < closed[j].source
    ensures forall i | 0 <= i < |closed| :: OwedTo(requests, closed[i])
  {
    StartedSources(requests);
    var ks := AscendingKeys(Sources(Started(requests)));
    assert |ks| == |closed|;
    hide Sources, OwedTo;
    forall i | 0 <= i < |closed| ensures closed[i].source == ks[i] && OwedTo(requests, closed[i]) {
      assert ks[i] in ks;
      SummaryIsOwed(requests, ks[i]);
    }
  }

  class KeyframeCoalescingFixture {
    var requests: seq<PendingKeyframeRequest>
    var scratch: seq<CoalescedKeyframeRequest>

    constructor (requests: seq<PendingKeyframeRequest>)
      ensures this.requests == requests && scratch == []
    {
      this.requests := requests;
      scratch := [];
    }

    /** `closed` records the values of `current_request` the loop finishes with, in order. */
    method ReusableVecCoalescingCycle() returns (coalescedCount: nat, ghost closed: seq<CoalescedKeyframeRequest>)
      modifies this`scratch
      ensures StablySorts(scratch, Started(requests), SourceOf)
      ensures closed == AscendingSummaries(Started(requests))
      ensures coalescedCount == Capped(|set i | 0 <= i < |requests| :: requests[i].source|)
      ensures |closed| == |set i | 0 <= i < |requests| :: requests[i].source|
      ensures forall i, j | 0 <= i < j < |closed| :: closed[i].source < closed[j].source
      ensures forall i | 0 <= i < |closed| :: OwedTo(requests, closed[i])
    {
      hide Sources, Summary, IsCoalescing, OwedTo, AscendingSummaries, Folded, RequestedSources, Started, Bucket;
      scratch := [];
      scratch := scratch + Started(requests);
      assert scratch == Started(requests);
      scratch := SortByKey(scratch, SourceOf);
      ghost var sorted := scratch;
      coalescedCount := 0;
      closed := [];
      var currentRequest: Option<CoalescedKeyframeRequest> := None;
      FoldStarts(scratch);
      for i := 0 to |scratch|
        modifies {}
        invariant coalescedCount == Capped(|closed|)
        invariant Folded(closed, currentRequest, scratch, i)
      {
        var request := scratch[i];
        match currentRequest
        case Some(current) =>
          if current.source == request.source {
            FoldExtends(closed, current, scratch, i);
            currentRequest := Some(current.Coalesce(request.AsPending()));
          } else {
            FoldOpens(closed, currentRequest, scratch, i);
            coalescedCount := SatAdd(coalescedCount, 1);
            closed := closed + [current];
            currentRequest := Some(request);
          }
        case None =>
          FoldOpens(closed, currentRequest, scratch, i);
          currentRequest := Some(request);
      }
      FoldCompletes(closed, currentRequest, scratch, Started(requests));
      if currentRequest.Some? {
        coalescedCount := SatAdd(coalescedCount, 1);
        closed := closed + [currentRequest.value];
      }
      SummariesAreOwed(requests, closed);
    }

    method FreshBTreeCoalescingCycle() returns (count: nat, ghost coalesced: map<nat, CoalescedKeyframeRequest>)
      ensures IsMapFold(coalesced, Started(requests))
      ensures coalesced.Keys == set i | 0 <= i < |requests| :: requests[i].source
      ensures forall k | k in coalesced :: coalesced[k].source == k && OwedTo(requests, coalesced[k])
      ensures count == |set i | 0 <= i < |requests| :: requests[i].source|
    {
      var entries: map<nat, CoalescedKeyframeRequest> := map[];
      ghost var all := Started(requests);
      assert IsMapFold(entries, all[..0]);
      hide Sources, Summary, Bucket;
      for i := 0 to |requests|
        invariant IsMapFold(entries, all[..i])
      {
        var request := requests[i];
        assert all[..i + 1] == all[..i] + [Start(request)];
        MapFoldStep(entries, all[..i], Start(request));
        if request.source in entries {
          entries := entries[request.source := entries[request.source].Coalesce(request)];
        } else {
          entries := entries[request.source := Start(request)];
        }
      }
      assert all[..|requests|] == all;
      StartedSources(requests);
      forall k | k in entries ensures entries[k].source == k && OwedTo(requests, entries[k]) {
        SummaryIsOwed(requests, k);
      }
      coalesced := entries;
      count := |entries|;
    }
  }

  /** The values the sorted loop closes are the map's values in ascending key order. */
  lemma ClosedAreMapValues(closed: seq<CoalescedKeyframeRequest>, coalesced: map<nat, CoalescedKeyframeRequest>,
                           s: seq<CoalescedKeyframeRequest>)
    requires closed == AscendingSummaries(s) && IsMapFold(coalesced, s)
    ensures |closed| == |coalesced|
    ensures var ks := AscendingKeys(coalesced.Keys);
            forall i | 0 <= i < |ks| :: ks[i] in coalesced && closed[i] == coalesced[ks[i]]
  {
    hide Sources, Summary, StrictlyAscending;
    var ks := AscendingKeys(coalesced.Keys);
    forall i | 0 <= i < |ks| ensures ks[i] in coalesced && closed[i] == coalesced[ks[i]] {
      assert ks[i] in ks;
    }
  }

  /** There are no more sources than requests, so a vector that fits in memory never saturates
      the count and both cycles return the same number. */
  lemma {:induction false} SourceCountIsBounded(s: seq<CoalescedKeyframeRequest>)
    ensures |Sources(s)| <= |s|
    ensures |s| <= USIZE_MAX ==> Capped(|Sources(s)|) == |Sources(s)|
  {
    if s == [] {
    } else {
      var n := |s| - 1;
      SourceCountIsBounded(s[..n]);
      assert s == s[..n] + [s[n]];
      SummarySnoc(s[..n], s[n], 0);
    }
  }

  /** Without stability the results differ: these two vectors hold the same requests in ascending
      source order, and owe source 1 different rids. */
  lemma StabilityIsNeeded() returns (r: seq<CoalescedKeyframeRequest>, s: seq<CoalescedKeyframeRequest>)
    ensures SortedBy(r, SourceOf) && multiset(r) == multiset(s)
    ensures Summary(r, 1) != Summary(s, 1)
  {
    var a := CoalescedKeyframeRequest(1, Some(5), Pli);
    var b := CoalescedKeyframeRequest(1, Some(7), Pli);
    r, s := [a, b], [b, a];
    assert Bucket([a, b], SourceOf, 1)[0] == a;
    assert Bucket([b, a], SourceOf, 1)[0] == b;
  }
}
