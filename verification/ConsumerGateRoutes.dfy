/** Route maintenance: a destination leaves, a fresh one arrives, and the position index follows.
    Models the maintenance fixture of src/consumer_packet_gate.rs. */
module ConsumerGateRoutes {
  import opened Machine
  import opened ConsumerGate

  // ----- the vector operations

  /** `Vec::remove`: later elements move down. */
  function Removed(ds: seq<Destination>, p: nat): (rest: seq<Destination>)
    requires p < |ds|
    ensures |rest| == |ds| - 1
    ensures forall i | 0 <= i < |rest| :: rest[i] == ds[if i < p then i else i + 1]
  {
    ds[..p] + ds[p + 1..]
  }

  /** `Vec::swap_remove`: the last element takes the place. */
  function SwapRemoved(ds: seq<Destination>, p: nat): (rest: seq<Destination>)
    requires p < |ds|
    ensures |rest| == |ds| - 1
    ensures forall i | 0 <= i < |rest| :: rest[i] == ds[if i == p then |ds| - 1 else i]
  {
    if p == |ds| - 1 then ds[..p] else ds[..|ds| - 1][p := ds[|ds| - 1]]
  }

  /** Both lose exactly the element at `p`. */
  lemma RemovedLosesOne(ds: seq<Destination>, p: nat)
    requires p < |ds|
    ensures multiset(Removed(ds, p)) == multiset(ds) - multiset{ds[p]}
  {
    assert ds == ds[..p] + ([ds[p]] + ds[p + 1..]);
  }

  lemma SwapRemovedLosesOne(ds: seq<Destination>, p: nat)
    requires p < |ds|
    ensures multiset(SwapRemoved(ds, p)) == multiset(ds) - multiset{ds[p]}
  {
    var n := |ds| - 1;
    assert ds == ds[..n] + [ds[n]];
    if p < n {
      assert multiset(ds[..n][p := ds[n]]) == multiset(ds[..n]) - multiset{ds[..n][p]} + multiset{ds[n]};
    }
  }

  // ----- the index under each operation

  /** The index of a vector without the element at `p`, when later positions still count it. */
  ghost predicate IndexesShifting(index: MediaIdIndex, ds: seq<Destination>, from: nat) {
    && (forall i | 0 <= i < |ds| ::
          ds[i].mediaId in index && index[ds[i].mediaId] == if i < from then i else i + 1)
    && (forall id | id in index :: exists i :: 0 <= i < |ds| && ds[i].mediaId == id)
  }

  lemma RemovalStartsShift(index: MediaIdIndex, ds: seq<Destination>, p: nat)
    requires Indexes(index, ds) && p < |ds|
    ensures IndexesShifting(index - {ds[p].mediaId}, Removed(ds, p), p)
    ensures DistinctIds(Removed(ds, p))
  {
    var after := Removed(ds, p);
    assert forall i | 0 <= i < |after| :: after[i] == ds[if i < p then i else i + 1];
    forall id | id in index - {ds[p].mediaId} ensures exists i :: 0 <= i < |after| && after[i].mediaId == id {
      var i := index[id];
      assert after[if i < p then i else i - 1].mediaId == id;
    }
  }

  lemma ShiftOneMore(index: MediaIdIndex, ds: seq<Destination>, at: nat)
    requires IndexesShifting(index, ds, at) && DistinctIds(ds) && at < |ds|
    ensures IndexesShifting(index[ds[at].mediaId := at], ds, at + 1)
  {
  }

  lemma ShiftEnds(index: MediaIdIndex, ds: seq<Destination>)
    requires IndexesShifting(index, ds, |ds|)
    ensures Indexes(index, ds)
  {
    forall id | id in index ensures index[id] < |ds| && ds[index[id]].mediaId == id {
      var i :| 0 <= i < |ds| && ds[i].mediaId == id;
    }
  }

  lemma SwapRemovalKeepsIndex(index: MediaIdIndex, ds: seq<Destination>, p: nat)
    requires Indexes(index, ds) && p < |ds|
    ensures var after := SwapRemoved(ds, p);
            var rest := index - {ds[p].mediaId};
            Indexes(if p < |after| then rest[after[p].mediaId := p] else rest, after)
  {
    var after := SwapRemoved(ds, p);
    assert forall i | 0 <= i < |after| :: after[i] == ds[if i == p then |ds| - 1 else i];
  }

  function FindMediaId(ds: seq<Destination>, id: nat, start: nat): (position: Option<nat>)
    requires start <= |ds| && forall i | 0 <= i < start :: ds[i].mediaId != id
    ensures match position
            case Some(p) => p < |ds| && ds[p].mediaId == id && forall i | 0 <= i < p :: ds[i].mediaId != id
            case None => forall i | 0 <= i < |ds| :: ds[i].mediaId != id
    decreases |ds| - start
  {
    if start == |ds| then None
    else if ds[start].mediaId == id then Some(start)
    else FindMediaId(ds, id, start + 1)
  }

  /** The id of the next destination is used by none of `ds`. */
  ghost predicate IsFresh(next: nat, ds: seq<Destination>) {
    forall i | 0 <= i < |ds| :: ds[i].mediaId != BenchmarkMediaId(next)
  }

  lemma FreshMeansUnindexed(index: MediaIdIndex, ds: seq<Destination>, next: nat)
    requires Indexes(index, ds)
    ensures IsFresh(next, ds) <==> BenchmarkMediaId(next) !in index
  {
    var id := BenchmarkMediaId(next);
    if id in index {
      assert ds[index[id]].mediaId == id;
    }
  }

  /** Pushing the next destination keeps the index exact precisely when its id is fresh. */
  lemma PushNext(index: MediaIdIndex, ds: seq<Destination>, next: nat)
    requires Indexes(index, ds)
    ensures var d := BenchmarkDestination(next);
            Indexes(index[d.mediaId := |ds|], ds + [d]) <==> IsFresh(next, ds)
  {
    hide Indexes, BenchmarkSessionKey;
    IndexPush(index, ds, BenchmarkDestination(next));
    FreshMeansUnindexed(index, ds, next);
  }

  /** The first position whose media id is that at `p`: `p` itself when ids are distinct. */
  function FirstTwin(ds: seq<Destination>, p: nat): (first: nat)
    requires p < |ds|
    ensures first <= p && ds[first].mediaId == ds[p].mediaId
    ensures forall i | 0 <= i < first :: ds[i].mediaId != ds[p].mediaId
    ensures DistinctIds(ds) ==> first == p
  {
    FindMediaId(ds, ds[p].mediaId, 0).value
  }

  lemma TargetIsIndexed(index: MediaIdIndex, ds: seq<Destination>, p: nat)
    requires Indexes(index, ds) && p < |ds|
    ensures ds[p].mediaId in index && index[ds[p].mediaId] == p
  {
  }

  class ConsumerPacketGateRouteFixture {
    var destinations: seq<Destination>
    var mediaIdIndex: MediaIdIndex
    var removalCursor: nat
    var nextDestinationIndex: nat

    /** The index is exact. */
    ghost predicate Valid()
      reads this
    {
      Indexes(mediaIdIndex, destinations)
    }

    /** No destination carries an id still to be handed out. */
    ghost predicate Numbered()
      reads this
    {
      forall i | 0 <= i < |destinations| :: destinations[i].mediaId < FIRST_CONSUMER_MEDIA_ID + nextDestinationIndex
    }

    constructor (destinationCount: nat)
      requires destinationCount <= VEC_MAX
      ensures Valid() && Numbered()
      ensures destinations == BenchmarkDestinations(destinationCount)
      ensures removalCursor == 0 && nextDestinationIndex == destinationCount
    {
      var ds := BenchmarkDestinations(destinationCount);
      BenchmarkIdsAreDistinct(destinationCount);
      hide DistinctIds, Indexes, BenchmarkSessionKey;
      DistinctIdsGiveExactIndex(ds);
      destinations := ds;
      mediaIdIndex := BuildMediaIdIndex(ds);
      removalCursor := 0;
      nextDestinationIndex := destinationCount;
    }

    /** The position the next cycle takes its target from. */
    function TargetPosition(): nat
      requires |destinations| > 0
      reads this
    {
      removalCursor % |destinations|
    }

    /** The position the index gives for the target, if any. */
    function IndexedPosition(): Option<nat>
      requires |destinations| > 0
      reads this
    {
      var id := destinations[TargetPosition()].mediaId;
      if id in mediaIdIndex then Some(mediaIdIndex[id]) else None
    }

    method NextRemovalTarget() returns (target: Destination)
      requires |destinations| > 0
      modifies this`removalCursor
      ensures removalCursor == SatAdd(old(removalCursor), 1)
      ensures target == destinations[old(TargetPosition())]
    {
      var position := removalCursor % |destinations|;
      removalCursor := SatAdd(removalCursor, 1);
      target := destinations[position];
    }

    /** Does not maintain the index. */
    method CurrentLinearRemoveAddCycle() returns (count: nat)
      requires |destinations| > 0
      modifies this`destinations, this`removalCursor, this`nextDestinationIndex
      ensures destinations == Removed(old(destinations), FirstTwin(old(destinations), old(TargetPosition())))
                              + [BenchmarkDestination(old(nextDestinationIndex))]
      ensures removalCursor == SatAdd(old(removalCursor), 1)
      ensures nextDestinationIndex == SatAdd(old(nextDestinationIndex), 1)
      ensures count == |old(destinations)|
    {
      count := 0;
      var target := NextRemovalTarget();
      var position := FindMediaId(destinations, target.mediaId, 0);
      if position.None? {
        return;
      }
      destinations := Removed(destinations, position.value);
      destinations := destinations + [BenchmarkDestination(nextDestinationIndex)];
      nextDestinationIndex := SatAdd(nextDestinationIndex, 1);
      count := |destinations|;
    }

    /** The tail the two indexed cycles share. */
    method PushNextDestination() returns (count: nat)
      modifies this`destinations, this`mediaIdIndex, this`nextDestinationIndex
      ensures destinations == old(destinations) + [BenchmarkDestination(old(nextDestinationIndex))]
      ensures nextDestinationIndex == SatAdd(old(nextDestinationIndex), 1)
      ensures count == |destinations|
      ensures old(Valid()) ==> (Valid() <==> IsFresh(old(nextDestinationIndex), old(destinations)))
    {
      hide Indexes, IsFresh, BenchmarkDestination;
      if Valid() {
        PushNext(mediaIdIndex, destinations, nextDestinationIndex);
      }
      var newPosition := |destinations|;
      var destination := BenchmarkDestination(nextDestinationIndex);
      mediaIdIndex := mediaIdIndex[destination.mediaId := newPosition];
      destinations := destinations + [destination];
      nextDestinationIndex := SatAdd(nextDestinationIndex, 1);
      count := |destinations|;
    }

    /** The shift loop: each destination from `position` on is indexed again. */
    method ShiftPositions(position: nat)
      requires position <= |destinations|
      modifies this`mediaIdIndex
      ensures old(IndexesShifting(mediaIdIndex, destinations, position)) && DistinctIds(destinations) ==> Valid()
    {
      hide Indexes, IndexesShifting, DistinctIds;
      ghost var exact := IndexesShifting(mediaIdIndex, destinations, position) && DistinctIds(destinations);
      for shiftedPosition := position to |destinations|
        invariant exact ==> IndexesShifting(mediaIdIndex, destinations, shiftedPosition)
      {
        if exact {
          ShiftOneMore(mediaIdIndex, destinations, shiftedPosition);
        }
        mediaIdIndex := mediaIdIndex[destinations[shiftedPosition].mediaId := shiftedPosition];
      }
      if exact {
        ShiftEnds(mediaIdIndex, destinations);
      }
    }

    method MediaIdIndexedSwapRemoveAddCycle() returns (count: nat)
      requires |destinations| > 0
      requires IndexedPosition().Some? ==> IndexedPosition().value < |destinations|
      modifies this`destinations, this`mediaIdIndex, this`removalCursor, this`nextDestinationIndex
      ensures removalCursor == SatAdd(old(removalCursor), 1)
      ensures old(IndexedPosition()).None? ==>
                && count == 0
                && destinations == old(destinations)
                && mediaIdIndex == old(mediaIdIndex)
                && nextDestinationIndex == old(nextDestinationIndex)
      ensures old(IndexedPosition()).Some? ==>
                && destinations == SwapRemoved(old(destinations), old(IndexedPosition()).value)
                                   + [BenchmarkDestination(old(nextDestinationIndex))]
                && nextDestinationIndex == SatAdd(old(nextDestinationIndex), 1)
                && count == |old(destinations)|
      ensures old(Valid()) ==>
                && old(IndexedPosition()) == Some(old(TargetPosition()))
                && (Valid() <==> IsFresh(old(nextDestinationIndex),
                                         SwapRemoved(old(destinations), old(TargetPosition()))))
    {
      hide Indexes, IsFresh, SwapRemoved, BenchmarkDestination;
      if Valid() {
        TargetIsIndexed(mediaIdIndex, destinations, TargetPosition());
        SwapRemovalKeepsIndex(mediaIdIndex, destinations, TargetPosition());
      }
      count := 0;
      var target := NextRemovalTarget();
      if target.mediaId !in mediaIdIndex {
        return;
      }
      var position := mediaIdIndex[target.mediaId];
      mediaIdIndex := mediaIdIndex - {target.mediaId};
      destinations := SwapRemoved(destinations, position);
      if position < |destinations| {
        mediaIdIndex := mediaIdIndex[destinations[position].mediaId := position];
      }
      count := PushNextDestination();
    }

    method MediaIdIndexedStableRemoveAddCycle() returns (count: nat)
      requires |destinations| > 0
      requires IndexedPosition().Some? ==> IndexedPosition().value < |destinations|
      modifies this`destinations, this`mediaIdIndex, this`removalCursor, this`nextDestinationIndex
      ensures removalCursor == SatAdd(old(removalCursor), 1)
      ensures old(IndexedPosition()).None? ==>
                && count == 0
                && destinations == old(destinations)
                && mediaIdIndex == old(mediaIdIndex)
                && nextDestinationIndex == old(nextDestinationIndex)
      ensures old(IndexedPosition()).Some? ==>
                && destinations == Removed(old(destinations), old(IndexedPosition()).value)
                                   + [BenchmarkDestination(old(nextDestinationIndex))]
                && nextDestinationIndex == SatAdd(old(nextDestinationIndex), 1)
                && count == |old(destinations)|
      ensures old(Valid()) ==>
                && old(IndexedPosition()) == Some(old(TargetPosition()))
                && (Valid() <==> IsFresh(old(nextDestinationIndex),
                                         Removed(old(destinations), old(TargetPosition()))))
    {
      hide Indexes, IndexesShifting, DistinctIds, IsFresh, Removed, BenchmarkDestination;
      if Valid() {
        TargetIsIndexed(mediaIdIndex, destinations, TargetPosition());
        RemovalStartsShift(mediaIdIndex, destinations, TargetPosition());
      }
      count := 0;
      var target := NextRemovalTarget();
      if target.mediaId !in mediaIdIndex {
        return;
      }
      var position := mediaIdIndex[target.mediaId];
      mediaIdIndex := mediaIdIndex - {target.mediaId};
      destinations := Removed(destinations, position);
      ShiftPositions(position);
      count := PushNextDestination();
    }
  }

  // ----- whole runs, while ids last

  /** Numbering survives a cycle as long as the next id fits in a u64, and then the id is fresh. */
  lemma NumberingGoesOn(ds: seq<Destination>, rest: seq<Destination>, next: nat)
    requires forall i | 0 <= i < |ds| :: ds[i].mediaId < FIRST_CONSUMER_MEDIA_ID + next
    requires FIRST_CONSUMER_MEDIA_ID + next <= U64_MAX
    requires forall d | d in rest :: d in ds
    ensures IsFresh(next, rest)
    ensures var after := rest + [BenchmarkDestination(next)];
            forall i | 0 <= i < |after| :: after[i].mediaId < FIRST_CONSUMER_MEDIA_ID + SatAdd(next, 1)
  {
    hide BenchmarkSessionKey;
    forall i | 0 <= i < |rest| ensures rest[i].mediaId < FIRST_CONSUMER_MEDIA_ID + next {
      assert rest[i] in ds;
    }
  }

  lemma RemovalsKeepMembers(ds: seq<Destination>, p: nat)
    requires p < |ds|
    ensures forall d | d in Removed(ds, p) :: d in ds
    ensures forall d | d in SwapRemoved(ds, p) :: d in ds
  {
  }

  /** Past the last id the bound is needed: two saturated ids in a row are equal. */
  lemma SaturatedIdsCollide(next: nat)
    requires FIRST_CONSUMER_MEDIA_ID + next > U64_MAX
    ensures !IsFresh(SatAdd(next, 1), [BenchmarkDestination(next)])
  {
    hide BenchmarkSessionKey;
    assert [BenchmarkDestination(next)][0].mediaId == BenchmarkMediaId(SatAdd(next, 1));
  }

  /** The cursor after `t` cycles. */
  function CursorAt(cursor: nat, t: nat): nat {
    if t == 0 then cursor else SatAdd(CursorAt(cursor, t - 1), 1)
  }

  /** One cycle of a run: the length stays, the destination at `cursor % len` goes, number `next` comes. */
  ghost predicate Exchanged(before: seq<Destination>, after: seq<Destination>, cursor: nat, next: nat) {
    && |before| == |after| > 0
    && multiset(after) == multiset(before) - multiset{before[cursor % |before|]} + multiset{BenchmarkDestination(next)}
  }

  lemma RemovalThenPushExchanges(ds: seq<Destination>, cursor: nat, next: nat)
    requires |ds| > 0
    ensures Exchanged(ds, Removed(ds, cursor % |ds|) + [BenchmarkDestination(next)], cursor, next)
    ensures Exchanged(ds, SwapRemoved(ds, cursor % |ds|) + [BenchmarkDestination(next)], cursor, next)
  {
    hide BenchmarkDestination;
    var p := cursor % |ds|;
    RemovedLosesOne(ds, p);
    SwapRemovedLosesOne(ds, p);
    assert |Removed(ds, p)| == |SwapRemoved(ds, p)| == |ds| - 1;
    hide Removed, SwapRemoved;
  }

  /** Either indexed cycle, on an exact index with ids left. */
  method MaintenanceStep(route: ConsumerPacketGateRouteFixture, swap: bool) returns (count: nat)
    requires |route.destinations| > 0 && route.Valid() && route.Numbered()
    requires FIRST_CONSUMER_MEDIA_ID + route.nextDestinationIndex <= U64_MAX
    modifies route`destinations, route`mediaIdIndex, route`removalCursor, route`nextDestinationIndex
    ensures route.Valid() && route.Numbered()
    ensures route.removalCursor == SatAdd(old(route.removalCursor), 1)
    ensures route.nextDestinationIndex == old(route.nextDestinationIndex) + 1
    ensures count == |old(route.destinations)| == |route.destinations|
    ensures Exchanged(old(route.destinations), route.destinations, old(route.removalCursor),
                      old(route.nextDestinationIndex))
  {
    ghost var ds, next := route.destinations, route.nextDestinationIndex;
    ghost var p := route.TargetPosition();
    RemovalThenPushExchanges(ds, route.removalCursor, next);
    RemovalsKeepMembers(ds, p);
    TargetIsIndexed(route.mediaIdIndex, ds, p);
    if swap {
      NumberingGoesOn(ds, SwapRemoved(ds, p), next);
      hide Indexes, IsFresh, BenchmarkDestination, SwapRemoved, Exchanged;
      count := route.MediaIdIndexedSwapRemoveAddCycle();
    } else {
      NumberingGoesOn(ds, Removed(ds, p), next);
      hide Indexes, IsFresh, BenchmarkDestination, Removed, Exchanged;
      count := route.MediaIdIndexedStableRemoveAddCycle();
    }
  }

  /** Any run of the two indexed cycles, in any order: the index stays exact, the length never changes,
      and every cycle loses the destination at `cursor % len` and gains the next fresh one. */
  method RunMaintenance(route: ConsumerPacketGateRouteFixture, swaps: seq<bool>)
    returns (counts: seq<nat>, ghost history: seq<seq<Destination>>)
    requires |route.destinations| > 0 && route.Valid() && route.Numbered()
    requires FIRST_CONSUMER_MEDIA_ID + route.nextDestinationIndex + |swaps| <= U64_MAX + 1
    modifies route`destinations, route`mediaIdIndex, route`removalCursor, route`nextDestinationIndex
    ensures route.Valid() && route.Numbered()
    ensures |counts| == |swaps| && forall t | 0 <= t < |swaps| :: counts[t] == |old(route.destinations)|
    ensures |history| == |swaps| + 1
    ensures history[0] == old(route.destinations) && history[|swaps|] == route.destinations
    ensures forall t | 0 <= t < |swaps| ::
              Exchanged(history[t], history[t + 1], CursorAt(old(route.removalCursor), t),
                        old(route.nextDestinationIndex) + t)
  {
    hide Exchanged, ConsumerPacketGateRouteFixture.Valid, ConsumerPacketGateRouteFixture.Numbered;
    counts := [];
    history := [route.destinations];
    ghost var cursor, next, len := route.removalCursor, route.nextDestinationIndex, |route.destinations|;
    for t := 0 to |swaps|
      invariant route.Valid() && route.Numbered()
      invariant |counts| == t && forall u | 0 <= u < t :: counts[u] == len
      invariant route.removalCursor == CursorAt(cursor, t)
      invariant route.nextDestinationIndex == next + t
      invariant |history| == t + 1 && history[0] == old(route.destinations) && history[t] == route.destinations
      invariant |route.destinations| == len
      invariant forall u | 0 <= u < t :: Exchanged(history[u], history[u + 1], CursorAt(cursor, u), next + u)
    {
      var count := MaintenanceStep(route, swaps[t]);
      counts := counts + [count];
      history := history + [route.destinations];
    }
  }

  /** Two routes at one point of their runs: same destinations, same cursor, same next number. */
  ghost predicate InStep(linear: ConsumerPacketGateRouteFixture, indexed: ConsumerPacketGateRouteFixture)
    reads linear, indexed
  {
    && linear.destinations == indexed.destinations
    && linear.removalCursor == indexed.removalCursor
    && linear.nextDestinationIndex == indexed.nextDestinationIndex
  }

  /** One linear cycle and one stable indexed cycle from equal routes. */
  method LockstepCycle(linear: ConsumerPacketGateRouteFixture, indexed: ConsumerPacketGateRouteFixture)
    returns (linearCount: nat, indexedCount: nat)
    requires linear != indexed && InStep(linear, indexed) && |indexed.destinations| > 0
    requires indexed.Valid() && indexed.Numbered()
    requires FIRST_CONSUMER_MEDIA_ID + indexed.nextDestinationIndex <= U64_MAX
    modifies linear, indexed
    ensures InStep(linear, indexed) && linearCount == indexedCount
    ensures indexed.Valid() && indexed.Numbered()
    ensures indexed.nextDestinationIndex == old(indexed.nextDestinationIndex) + 1
    ensures |indexed.destinations| == |old(indexed.destinations)|
  {
    ghost var ds := indexed.destinations;
    ghost var p := indexed.TargetPosition();
    ExactIndexesMeanDistinct(indexed.mediaIdIndex, ds);
    RemovalsKeepMembers(ds, p);
    NumberingGoesOn(ds, Removed(ds, p), indexed.nextDestinationIndex);
    hide Indexes, IsFresh, BenchmarkDestination, DistinctIds, DistinctIdentities, Removed;
    linearCount := linear.CurrentLinearRemoveAddCycle();
    indexedCount := indexed.MediaIdIndexedStableRemoveAddCycle();
  }

  /** From equal routes, as many linear cycles as stable indexed cycles stay in lockstep. */
  method RunLockstep(linear: ConsumerPacketGateRouteFixture, indexed: ConsumerPacketGateRouteFixture, k: nat)
    returns (linearCounts: seq<nat>, indexedCounts: seq<nat>)
    requires linear != indexed && InStep(linear, indexed) && |indexed.destinations| > 0
    requires indexed.Valid() && indexed.Numbered()
    requires FIRST_CONSUMER_MEDIA_ID + indexed.nextDestinationIndex + k <= U64_MAX + 1
    modifies linear, indexed
    ensures InStep(linear, indexed)
    ensures linearCounts == indexedCounts && |linearCounts| == k
    ensures indexed.Valid()
  {
    hide InStep, ConsumerPacketGateRouteFixture.Valid, ConsumerPacketGateRouteFixture.Numbered;
    linearCounts, indexedCounts := [], [];
    ghost var next, len := indexed.nextDestinationIndex, |indexed.destinations|;
    for t := 0 to k
      invariant InStep(linear, indexed) && |indexed.destinations| == len
      invariant indexed.nextDestinationIndex == next + t
      invariant indexed.Valid() && indexed.Numbered()
      invariant linearCounts == indexedCounts && |linearCounts| == t
    {
      var a, b := LockstepCycle(linear, indexed);
      linearCounts, indexedCounts := linearCounts + [a], indexedCounts + [b];
    }
  }
}
