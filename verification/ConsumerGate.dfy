/** Consumer packet gates: destinations, their position indexes, and what a batch of gate updates
    does to them. Models src/consumer_packet_gate.rs. */
module ConsumerGate {
  import opened Machine
  import opened Sequences
  import opened Transport

  const CHANNEL_INSTANCE_ID: nat := 21
  const MEDIA_WORKER_ID: nat := 0
  const FIRST_CONSUMER_MEDIA_ID: nat := 1_000

  datatype PacketGate = Open | Rid(rid: nat) | Block

  datatype Destination = Destination(
    session: SessionKey, mediaId: nat, active: bool, gate: PacketGate, pendingGate: Option<PacketGate>)

  datatype IdentityKey = IdentityKey(session: SessionKey, mediaId: nat)

  datatype GateUpdate = GateUpdate(session: SessionKey, mediaId: nat, identityKey: IdentityKey)

  // ----- one destination

  function PendingFor(gate: PacketGate): Option<PacketGate> {
    match gate
    case Rid(_) => Some(gate)
    case Open => None
    case Block => None
  }

  predicate AtGate(d: Destination, gate: PacketGate) {
    d.gate == gate && d.pendingGate == PendingFor(gate)
  }

  function WithGate(d: Destination, gate: PacketGate): Destination {
    d.(gate := gate, pendingGate := PendingFor(gate))
  }

  // ----- position indexes

  type MediaIdIndex = map<nat, nat>
  type IdentityIndex = map<IdentityKey, nat>

  function IdentityOf(d: Destination): IdentityKey {
    IdentityKey(d.session, d.mediaId)
  }

  ghost predicate DistinctIds(ds: seq<Destination>) {
    forall i, j | 0 <= i < j < |ds| :: ds[i].mediaId != ds[j].mediaId
  }

  ghost predicate DistinctIdentities(ds: seq<Destination>) {
    forall i, j | 0 <= i < j < |ds| :: IdentityOf(ds[i]) != IdentityOf(ds[j])
  }

  /** The index is exactly { ds[i].mediaId -> i }. */
  ghost predicate Indexes(index: MediaIdIndex, ds: seq<Destination>) {
    && (forall i | 0 <= i < |ds| :: ds[i].mediaId in index && index[ds[i].mediaId] == i)
    && (forall id | id in index :: index[id] < |ds| && ds[index[id]].mediaId == id)
  }

  ghost predicate IndexesIdentities(index: IdentityIndex, ds: seq<Destination>) {
    && (forall i | 0 <= i < |ds| :: IdentityOf(ds[i]) in index && index[IdentityOf(ds[i])] == i)
    && (forall key | key in index :: index[key] < |ds| && IdentityOf(ds[index[key]]) == key)
  }

  /** Collecting (media id, position) pairs: a later position replaces an earlier one. */
  function BuildMediaIdIndex(ds: seq<Destination>): MediaIdIndex {
    if ds == [] then map[]
    else BuildMediaIdIndex(ds[..|ds| - 1])[ds[|ds| - 1].mediaId := |ds| - 1]
  }

  function BuildIdentityIndex(ds: seq<Destination>): IdentityIndex {
    if ds == [] then map[]
    else BuildIdentityIndex(ds[..|ds| - 1])[IdentityOf(ds[|ds| - 1]) := |ds| - 1]
  }

  lemma ExactIndexesMeanDistinct(index: MediaIdIndex, ds: seq<Destination>)
    requires Indexes(index, ds)
    ensures DistinctIds(ds) && DistinctIdentities(ds)
  {
  }

  lemma ExactIdentitiesMeanDistinct(index: IdentityIndex, ds: seq<Destination>)
    requires IndexesIdentities(index, ds)
    ensures DistinctIdentities(ds)
  {
  }

  lemma DistinctIdsAreIdentities(ds: seq<Destination>)
    requires DistinctIds(ds)
    ensures DistinctIdentities(ds)
  {
  }

  /** Pushing a destination and indexing its position keeps the index exact precisely when the id is new. */
  lemma IndexPush(index: MediaIdIndex, ds: seq<Destination>, d: Destination)
    requires Indexes(index, ds)
    ensures Indexes(index[d.mediaId := |ds|], ds + [d]) <==> d.mediaId !in index
  {
    var index' := index[d.mediaId := |ds|];
    var ds' := ds + [d];
    assert ds'[|ds|] == d && forall i | 0 <= i < |ds| :: ds'[i] == ds[i];
    if d.mediaId in index {
      var i := index[d.mediaId];
      assert ds'[i].mediaId == d.mediaId && index'[ds'[i].mediaId] != i;
    }
  }

  lemma IdentityPush(index: IdentityIndex, ds: seq<Destination>, d: Destination)
    requires IndexesIdentities(index, ds)
    requires forall i | 0 <= i < |ds| :: IdentityOf(ds[i]) != IdentityOf(d)
    ensures IndexesIdentities(index[IdentityOf(d) := |ds|], ds + [d])
  {
    hide IdentityOf;
    var ds' := ds + [d];
    assert ds'[|ds|] == d && forall i | 0 <= i < |ds| :: ds'[i] == ds[i];
  }

  lemma {:induction false} DistinctIdsGiveExactIndex(ds: seq<Destination>)
    requires DistinctIds(ds)
    ensures Indexes(BuildMediaIdIndex(ds), ds)
  {
    if ds == [] {
    } else {
      var n := |ds| - 1;
      DistinctIdsGiveExactIndex(ds[..n]);
      assert ds == ds[..n] + [ds[n]];
      IndexPush(BuildMediaIdIndex(ds[..n]), ds[..n], ds[n]);
    }
  }

  lemma {:induction false} DistinctIdentitiesGiveExactIndex(ds: seq<Destination>)
    requires DistinctIdentities(ds)
    ensures IndexesIdentities(BuildIdentityIndex(ds), ds)
  {
    hide IdentityOf;
    if ds == [] {
    } else {
      var n := |ds| - 1;
      DistinctIdentitiesGiveExactIndex(ds[..n]);
      assert ds == ds[..n] + [ds[n]];
      IdentityPush(BuildIdentityIndex(ds[..n]), ds[..n], ds[n]);
    }
  }

  /** The built indexes are exact precisely when no two destinations share the key. */
  lemma BuiltIndexIsExact(ds: seq<Destination>)
    ensures Indexes(BuildMediaIdIndex(ds), ds) <==> DistinctIds(ds)
    ensures IndexesIdentities(BuildIdentityIndex(ds), ds) <==> DistinctIdentities(ds)
  {
    hide Indexes, IndexesIdentities, DistinctIds, DistinctIdentities;
    if Indexes(BuildMediaIdIndex(ds), ds) {
      ExactIndexesMeanDistinct(BuildMediaIdIndex(ds), ds);
    }
    if DistinctIds(ds) {
      DistinctIdsGiveExactIndex(ds);
    }
    if IndexesIdentities(BuildIdentityIndex(ds), ds) {
      ExactIdentitiesMeanDistinct(BuildIdentityIndex(ds), ds);
    }
    if DistinctIdentities(ds) {
      DistinctIdentitiesGiveExactIndex(ds);
    }
  }

  ghost predicate InRange<K(!new)>(index: map<K, nat>, n: nat) {
    forall key | key in index :: index[key] < n
  }

  /** With keys shared, a built index gives the last position of each. */
  lemma {:induction false} BuiltIndexesGiveLast(ds: seq<Destination>)
    ensures InRange(BuildMediaIdIndex(ds), |ds|) && InRange(BuildIdentityIndex(ds), |ds|)
    ensures forall i | 0 <= i < |ds| ::
              ds[i].mediaId in BuildMediaIdIndex(ds) && i <= BuildMediaIdIndex(ds)[ds[i].mediaId]
    ensures forall i | 0 <= i < |ds| ::
              IdentityOf(ds[i]) in BuildIdentityIndex(ds) && i <= BuildIdentityIndex(ds)[IdentityOf(ds[i])]
  {
    hide IdentityOf;
    if ds == [] {
    } else {
      BuiltIndexesGiveLast(ds[..|ds| - 1]);
    }
  }

  // ----- what a batch amounts to, stated destination by destination and update by update

  predicate Matches(d: Destination, u: GateUpdate) {
    d.session == u.session && d.mediaId == u.mediaId
  }

  predicate Targeted(d: Destination, us: seq<GateUpdate>) {
    exists j | 0 <= j < |us| :: Matches(d, us[j])
  }

  /** No earlier destination has the same session and media id, so a search for them stops here. */
  predicate IsFirst(ds: seq<Destination>, i: nat)
    requires i < |ds|
  {
    forall k | 0 <= k < i :: IdentityOf(ds[k]) != IdentityOf(ds[i])
  }

  /** An update reaches the destination: one names it, and it is the first it names. */
  predicate Reached(ds: seq<Destination>, i: nat, us: seq<GateUpdate>)
    requires i < |ds|
  {
    Targeted(ds[i], us) && IsFirst(ds, i)
  }

  /** Destination `i` after the updates. */
  function Applied(ds: seq<Destination>, i: nat, us: seq<GateUpdate>, gate: PacketGate): Destination
    requires i < |ds|
  {
    if Reached(ds, i, us) then WithGate(ds[i], gate) else ds[i]
  }

  /** `after` is `before` with every reached destination, and no other, put at the gate. */
  ghost predicate BatchApplied(after: seq<Destination>, before: seq<Destination>, us: seq<GateUpdate>,
                               gate: PacketGate)
  {
    |after| == |before| && forall i | 0 <= i < |before| :: after[i] == Applied(before, i, us, gate)
  }

  /** Destinations that are reached and not yet at the gate: each counts once. */
  function ChangedCount(ds: seq<Destination>, us: seq<GateUpdate>, gate: PacketGate): nat {
    if ds == [] then 0
    else
      var n := |ds| - 1;
      ChangedCount(ds[..n], us, gate) + (if Reached(ds, n, us) && !AtGate(ds[n], gate) then 1 else 0)
  }

  /** Where no identity is shared, every destination an update names is reached. */
  lemma DistinctMeansFirst(ds: seq<Destination>)
    ensures DistinctIdentities(ds) <==> forall i | 0 <= i < |ds| :: IsFirst(ds, i)
  {
    hide IdentityOf;
    if forall i | 0 <= i < |ds| :: IsFirst(ds, i) {
      forall i, j | 0 <= i < j < |ds| ensures IdentityOf(ds[i]) != IdentityOf(ds[j]) {
        assert IsFirst(ds, j);
      }
    }
  }

  predicate Known(ds: seq<Destination>, u: GateUpdate) {
    exists i | 0 <= i < |ds| :: Matches(ds[i], u)
  }

  /** Updates that no destination matches: each counts. */
  function FailedCount(ds: seq<Destination>, us: seq<GateUpdate>): nat {
    if us == [] then 0
    else FailedCount(ds, us[..|us| - 1]) + (if Known(ds, us[|us| - 1]) then 0 else 1)
  }

  predicate Forwards(d: Destination) {
    d.active && d.gate != Block
  }

  function ForwardingCount(ds: seq<Destination>): nat {
    if ds == [] then 0
    else ForwardingCount(ds[..|ds| - 1]) + (if Forwards(ds[|ds| - 1]) then 1 else 0)
  }

  /** What a batch cycle returns: changed, failed, and, if anything changed, the forwarding destinations. */
  function BatchScore(before: seq<Destination>, after: seq<Destination>, us: seq<GateUpdate>, gate: PacketGate): nat {
    var changed := ChangedCount(before, us, gate);
    Capped(changed + FailedCount(before, us) + (if changed == 0 then 0 else ForwardingCount(after)))
  }

  // ----- one more update

  lemma TargetedSnoc(d: Destination, us: seq<GateUpdate>, u: GateUpdate)
    ensures Targeted(d, us + [u]) <==> Targeted(d, us) || Matches(d, u)
  {
    var all := us + [u];
    assert all[|us|] == u && forall j | 0 <= j < |us| :: all[j] == us[j];
    if Targeted(d, us) {
      var j :| 0 <= j < |us| && Matches(d, us[j]);
      assert Matches(d, all[j]);
    }
  }

  /** The first destination an update matches. */
  ghost predicate IsFirstMatch(ds: seq<Destination>, u: GateUpdate, p: nat) {
    p < |ds| && Matches(ds[p], u) && forall i | 0 <= i < p :: !Matches(ds[i], u)
  }

  /** Of the destinations an update matches only the first is first of its identity. */
  lemma FirstMatchIsFirst(ds: seq<Destination>, u: GateUpdate, p: nat, i: nat)
    requires IsFirstMatch(ds, u, p) && i < |ds|
    ensures Matches(ds[i], u) && IsFirst(ds, i) <==> i == p
  {
    assert forall k | 0 <= k < |ds| :: Matches(ds[k], u) <==> IdentityOf(ds[k]) == IdentityOf(ds[p]);
    hide Matches, IdentityOf;
    if Matches(ds[i], u) && i > p {
      assert IdentityOf(ds[p]) == IdentityOf(ds[i]);
    }
  }

  lemma {:induction false} ChangedSnocUnmatched(ds: seq<Destination>, us: seq<GateUpdate>, u: GateUpdate,
                                                gate: PacketGate)
    requires forall i | 0 <= i < |ds| :: !Matches(ds[i], u)
    ensures ChangedCount(ds, us + [u], gate) == ChangedCount(ds, us, gate)
  {
    hide IsFirst, Targeted, AtGate;
    if ds == [] {
    } else {
      TargetedSnoc(ds[|ds| - 1], us, u);
      ChangedSnocUnmatched(ds[..|ds| - 1], us, u, gate);
    }
  }

  lemma FirstInPrefix(ds: seq<Destination>, n: nat, i: nat)
    requires i < n <= |ds|
    ensures IsFirst(ds[..n], i) <==> IsFirst(ds, i)
  {
    assert forall k | 0 <= k < n :: ds[..n][k] == ds[k];
  }

  lemma {:induction false} ChangedSnoc(ds: seq<Destination>, us: seq<GateUpdate>, u: GateUpdate, gate: PacketGate,
                                       p: nat)
    requires IsFirstMatch(ds, u, p)
    ensures ChangedCount(ds, us + [u], gate)
         == ChangedCount(ds, us, gate) + (if AtGate(Applied(ds, p, us, gate), gate) then 0 else 1)
  {
    var n := |ds| - 1;
    TargetedSnoc(ds[n], us, u);
    FirstMatchIsFirst(ds, u, p, n);
    if p == n {
      hide Targeted, IsFirst;
      ChangedSnocUnmatched(ds[..n], us, u, gate);
    } else {
      FirstInPrefix(ds, n, p);
      hide Targeted, IsFirst, AtGate, WithGate;
      ChangedSnoc(ds[..n], us, u, gate, p);
    }
  }

  /** The position a lookup must find for an update. */
  ghost predicate Finds(position: Option<nat>, ds: seq<Destination>, u: GateUpdate) {
    match position
    case Some(p) => IsFirstMatch(ds, u, p)
    case None => !Known(ds, u)
  }

  lemma KnownAt(ds: seq<Destination>, u: GateUpdate, p: nat)
    requires p < |ds| && Matches(ds[p], u)
    ensures Known(ds, u)
  {
  }

  lemma UnknownMatchesNone(ds: seq<Destination>, u: GateUpdate)
    requires !Known(ds, u)
    ensures forall i | 0 <= i < |ds| :: !Matches(ds[i], u)
  {
  }

  lemma KnownIsKept(before: seq<Destination>, after: seq<Destination>, us: seq<GateUpdate>, u: GateUpdate,
                    gate: PacketGate)
    requires BatchApplied(after, before, us, gate)
    ensures Known(before, u) <==> Known(after, u)
  {
    assert forall i | 0 <= i < |before| :: Matches(before[i], u) <==> Matches(after[i], u);
    if Known(before, u) {
      var i :| 0 <= i < |before| && Matches(before[i], u);
      assert Matches(after[i], u);
    }
  }

  lemma FirstMatchIsKept(before: seq<Destination>, after: seq<Destination>, us: seq<GateUpdate>, u: GateUpdate,
                         gate: PacketGate, p: nat)
    requires BatchApplied(after, before, us, gate) && IsFirstMatch(after, u, p)
    ensures IsFirstMatch(before, u, p)
  {
    assert forall i | 0 <= i < |before| :: Matches(before[i], u) <==> Matches(after[i], u);
  }

  lemma ReachedSnoc(ds: seq<Destination>, us: seq<GateUpdate>, u: GateUpdate, gate: PacketGate, p: nat, i: nat)
    requires IsFirstMatch(ds, u, p) && i < |ds|
    ensures Applied(ds, i, us + [u], gate)
         == if i == p then WithGate(Applied(ds, i, us, gate), gate) else Applied(ds, i, us, gate)
  {
    TargetedSnoc(ds[i], us, u);
    FirstMatchIsFirst(ds, u, p, i);
    hide Targeted, IsFirst;
  }

  /** A lookup that finds the position for one more update extends the batch by it. */
  lemma ApplyOneMore(before: seq<Destination>, current: seq<Destination>, us: seq<GateUpdate>, u: GateUpdate,
                     gate: PacketGate, position: Option<nat>)
    requires BatchApplied(current, before, us, gate) && Finds(position, current, u)
    ensures position.Some? ==>
              BatchApplied(current[position.value := WithGate(current[position.value], gate)], before, us + [u], gate)
    ensures position.None? ==> BatchApplied(current, before, us + [u], gate)
    ensures ChangedCount(before, us + [u], gate) == ChangedCount(before, us, gate)
              + (if position.Some? && !AtGate(current[position.value], gate) then 1 else 0)
    ensures FailedCount(before, us + [u]) == FailedCount(before, us) + (if position.None? then 1 else 0)
  {
    assert (us + [u])[..|us|] == us;
    KnownIsKept(before, current, us, u, gate);
    match position
    case Some(p) =>
      FirstMatchIsKept(before, current, us, u, gate, p);
      KnownAt(before, u, p);
      hide Applied, ChangedCount, Known, IsFirstMatch;
      forall i | 0 <= i < |before|
        ensures Applied(before, i, us + [u], gate)
             == if i == p then WithGate(Applied(before, i, us, gate), gate) else Applied(before, i, us, gate)
      {
        ReachedSnoc(before, us, u, gate, p, i);
      }
      ChangedSnoc(before, us, u, gate, p);
    case None =>
      UnknownMatchesNone(before, u);
      hide Targeted, ChangedCount, Known, IsFirst;
      forall i | 0 <= i < |before| ensures Targeted(before[i], us + [u]) <==> Targeted(before[i], us) {
        TargetedSnoc(before[i], us, u);
      }
      ChangedSnocUnmatched(before, us, u, gate);
  }

  /** A batch moves no destination and renames none, so it makes no index exact and spoils none. */
  lemma IndexesAreKept(before: seq<Destination>, after: seq<Destination>, us: seq<GateUpdate>, gate: PacketGate,
                       ids: MediaIdIndex, identities: IdentityIndex)
    requires BatchApplied(after, before, us, gate)
    ensures Indexes(ids, after) <==> Indexes(ids, before)
    ensures IndexesIdentities(identities, after) <==> IndexesIdentities(identities, before)
    ensures DistinctIdentities(after) <==> DistinctIdentities(before)
  {
    assert |after| == |before|;
    assert forall i | 0 <= i < |before| ::
      after[i].mediaId == before[i].mediaId && IdentityOf(after[i]) == IdentityOf(before[i]);
    hide BatchApplied, IdentityOf;
  }

  // ----- the three lookups

  /** `iter_mut().find(..)`: the first destination with the update's session and media id. */
  function FindLinear(ds: seq<Destination>, u: GateUpdate, start: nat): (position: Option<nat>)
    requires start <= |ds| && forall i | 0 <= i < start :: !Matches(ds[i], u)
    ensures Finds(position, ds, u)
    decreases |ds| - start
  {
    if start == |ds| then None
    else if Matches(ds[start], u) then Some(start)
    else FindLinear(ds, u, start + 1)
  }

  function FindByMediaId(ds: seq<Destination>, index: MediaIdIndex, u: GateUpdate): (position: Option<nat>)
    requires InRange(index, |ds|)
    ensures Indexes(index, ds) ==> Finds(position, ds, u)
  {
    if u.mediaId in index && ds[index[u.mediaId]].session == u.session then Some(index[u.mediaId]) else None
  }

  /** The key an update is built with. */
  predicate IsKeyed(u: GateUpdate) {
    u.identityKey == IdentityKey(u.session, u.mediaId)
  }

  function FindByIdentity(index: IdentityIndex, u: GateUpdate): Option<nat> {
    if u.identityKey in index then Some(index[u.identityKey]) else None
  }

  lemma IdentityLookupFinds(ds: seq<Destination>, index: IdentityIndex, u: GateUpdate)
    requires IndexesIdentities(index, ds) && IsKeyed(u)
    ensures Finds(FindByIdentity(index, u), ds, u)
  {
    assert forall i | 0 <= i < |ds| :: Matches(ds[i], u) <==> IdentityOf(ds[i]) == u.identityKey;
  }

  lemma FoundIsUnique(ds: seq<Destination>, u: GateUpdate, p: Option<nat>, q: Option<nat>)
    requires Finds(p, ds, u) && Finds(q, ds, u)
    ensures p == q
  {
  }

  ghost predicate MediaIdLookupIsLinear(ds: seq<Destination>) {
    && InRange(BuildMediaIdIndex(ds), |ds|)
    && forall u :: FindByMediaId(ds, BuildMediaIdIndex(ds), u) == FindLinear(ds, u, 0)
  }

  ghost predicate IdentityLookupIsLinear(ds: seq<Destination>) {
    forall u | IsKeyed(u) :: FindByIdentity(BuildIdentityIndex(ds), u) == FindLinear(ds, u, 0)
  }

  function UpdateOf(d: Destination): GateUpdate {
    GateUpdate(d.session, d.mediaId, IdentityOf(d))
  }

  /** Of two destinations with one media id the linear search may find the first, the built index the last:
      the lookups agree on every update precisely when no media id is shared. */
  lemma MediaIdLookupAgrees(ds: seq<Destination>)
    ensures MediaIdLookupIsLinear(ds) <==> DistinctIds(ds)
  {
    BuiltIndexesGiveLast(ds);
    if DistinctIds(ds) {
      hide DistinctIds, Indexes, Finds, Matches;
      DistinctIdsGiveExactIndex(ds);
      forall u ensures FindByMediaId(ds, BuildMediaIdIndex(ds), u) == FindLinear(ds, u, 0) {
        FoundIsUnique(ds, u, FindByMediaId(ds, BuildMediaIdIndex(ds), u), FindLinear(ds, u, 0));
      }
    } else {
      var i, j :| 0 <= i < j < |ds| && ds[i].mediaId == ds[j].mediaId;
      var u := UpdateOf(ds[i]);
      assert Matches(ds[i], u);
      assert FindByMediaId(ds, BuildMediaIdIndex(ds), u) != FindLinear(ds, u, 0);
    }
  }

  /** The identity lookup agrees with the linear one on every update precisely when no identity is shared. */
  lemma IdentityLookupAgrees(ds: seq<Destination>)
    ensures IdentityLookupIsLinear(ds) <==> DistinctIdentities(ds)
  {
    BuiltIndexesGiveLast(ds);
    if DistinctIdentities(ds) {
      hide DistinctIdentities, IndexesIdentities, Finds, Matches;
      DistinctIdentitiesGiveExactIndex(ds);
      forall u | IsKeyed(u) ensures FindByIdentity(BuildIdentityIndex(ds), u) == FindLinear(ds, u, 0) {
        IdentityLookupFinds(ds, BuildIdentityIndex(ds), u);
        FoundIsUnique(ds, u, FindByIdentity(BuildIdentityIndex(ds), u), FindLinear(ds, u, 0));
      }
    } else {
      var i, j :| 0 <= i < j < |ds| && IdentityOf(ds[i]) == IdentityOf(ds[j]);
      var u := UpdateOf(ds[i]);
      assert Matches(ds[i], u) && IsKeyed(u);
      assert FindByIdentity(BuildIdentityIndex(ds), u) != FindLinear(ds, u, 0);
    }
  }

  // ----- the running state of a batch

  /** The state of a batch loop after the updates `us`: the declarative batch, and capped counts. */
  ghost predicate BatchSoFar(before: seq<Destination>, current: seq<Destination>, us: seq<GateUpdate>, gate: PacketGate,
                             changedCount: nat, failedCount: nat) {
    && BatchApplied(current, before, us, gate)
    && changedCount == Capped(ChangedCount(before, us, gate))
    && failedCount == Capped(FailedCount(before, us))
  }

  lemma {:induction false} BatchStarts(ds: seq<Destination>, gate: PacketGate)
    ensures BatchSoFar(ds, ds, [], gate, 0, 0)
  {
    if ds == [] {
    } else {
      BatchStarts(ds[..|ds| - 1], gate);
    }
  }

  lemma BatchStep(before: seq<Destination>, current: seq<Destination>, us: seq<GateUpdate>, u: GateUpdate,
                  gate: PacketGate, position: Option<nat>, changedCount: nat, failedCount: nat)
    requires BatchSoFar(before, current, us, gate, changedCount, failedCount)
    requires Finds(position, current, u)
    ensures position.None? ==> BatchSoFar(before, current, us + [u], gate, changedCount, SatAdd(failedCount, 1))
    ensures position.Some? ==>
              var p := position.value;
              p < |current| &&
              BatchSoFar(before, current[p := WithGate(current[p], gate)], us + [u], gate,
                         SatAdd(changedCount, if AtGate(current[p], gate) then 0 else 1), failedCount)
  {
    hide BatchApplied, ChangedCount, FailedCount, WithGate, AtGate;
    ApplyOneMore(before, current, us, u, gate, position);
  }

  lemma BatchKeepsIndexes(before: seq<Destination>, after: seq<Destination>, us: seq<GateUpdate>, gate: PacketGate,
                          changedCount: nat, failedCount: nat, ids: MediaIdIndex, identities: IdentityIndex)
    requires BatchSoFar(before, after, us, gate, changedCount, failedCount)
    ensures Indexes(ids, after) <==> Indexes(ids, before)
    ensures Indexes(ids, after) ==> InRange(ids, |after|)
    ensures IndexesIdentities(identities, after) <==> IndexesIdentities(identities, before)
    ensures DistinctIdentities(after) <==> DistinctIdentities(before)
  {
    assert BatchApplied(after, before, us, gate);
    hide BatchApplied, BatchSoFar, DistinctIdentities, IndexesIdentities;
    IndexesAreKept(before, after, us, gate, ids, identities);
  }

  // ----- the outcome of a batch, field by field

  /** Update `u` carries the session and the media id of destination `i`, and no earlier destination has both. */
  predicate Hits(ds: seq<Destination>, i: nat, u: GateUpdate)
    requires i < |ds|
  {
    && ds[i].session == u.session && ds[i].mediaId == u.mediaId
    && forall k | 0 <= k < i :: !(ds[k].session == u.session && ds[k].mediaId == u.mediaId)
  }

  predicate HitByAny(ds: seq<Destination>, i: nat, us: seq<GateUpdate>)
    requires i < |ds|
  {
    exists j | 0 <= j < |us| :: Hits(ds, i, us[j])
  }

  /** No destination carries both the session and the media id of the update. */
  predicate HitsNothing(ds: seq<Destination>, u: GateUpdate) {
    forall i | 0 <= i < |ds| :: !(ds[i].session == u.session && ds[i].mediaId == u.mediaId)
  }

  predicate SomewhereElse(d: Destination, gate: PacketGate) {
    d.gate != gate || d.pendingGate != (if gate.Rid? then Some(gate) else None)
  }

  /** What a batch leaves and returns: exactly the destinations hit have the gate, pending too if it names a rid;
      the score adds those of them that were elsewhere, the updates that match nothing, and, if any destination
      was moved, the active ones that are not blocked now. */
  ghost predicate BatchOutcome(before: seq<Destination>, after: seq<Destination>, us: seq<GateUpdate>,
                               gate: PacketGate, score: nat)
  {
    && |after| == |before|
    && (forall i | 0 <= i < |before| ::
          after[i] == if HitByAny(before, i, us)
                      then before[i].(gate := gate, pendingGate := if gate.Rid? then Some(gate) else None)
                      else before[i])
    && var changed := |set i | 0 <= i < |before| && HitByAny(before, i, us) && SomewhereElse(before[i], gate)|;
       var failed := |set j | 0 <= j < |us| && HitsNothing(before, us[j])|;
       var forwarding := |set i | 0 <= i < |after| && after[i].active && after[i].gate != Block|;
       score == Capped(changed + failed + (if changed == 0 then 0 else forwarding))
  }

  lemma ReachedIsHit(ds: seq<Destination>, i: nat, us: seq<GateUpdate>)
    requires i < |ds|
    ensures Reached(ds, i, us) <==> HitByAny(ds, i, us)
  {
    if Reached(ds, i, us) {
      var j :| 0 <= j < |us| && Matches(ds[i], us[j]);
      forall k | 0 <= k < i ensures !(ds[k].session == us[j].session && ds[k].mediaId == us[j].mediaId) {
        assert IdentityOf(ds[k]) != IdentityOf(ds[i]);
      }
      assert Hits(ds, i, us[j]);
    }
    if HitByAny(ds, i, us) {
      var j :| 0 <= j < |us| && Hits(ds, i, us[j]);
      assert Matches(ds[i], us[j]);
      forall k | 0 <= k < i ensures IdentityOf(ds[k]) != IdentityOf(ds[i]) {
        assert !(ds[k].session == us[j].session && ds[k].mediaId == us[j].mediaId);
      }
    }
  }

  function ChangedFlags(ds: seq<Destination>, us: seq<GateUpdate>, gate: PacketGate): seq<bool> {
    seq(|ds|, i requires 0 <= i < |ds| => Reached(ds, i, us) && !AtGate(ds[i], gate))
  }

  lemma {:induction false} ChangedAreFlagged(ds: seq<Destination>, us: seq<GateUpdate>, gate: PacketGate)
    ensures ChangedCount(ds, us, gate) == TrueCount(ChangedFlags(ds, us, gate))
  {
    hide IsFirst, Targeted, AtGate;
    if ds == [] {
    } else {
      var n := |ds| - 1;
      ChangedAreFlagged(ds[..n], us, gate);
      forall i | 0 <= i < n ensures IsFirst(ds[..n], i) <==> IsFirst(ds, i) {
        FirstInPrefix(ds, n, i);
      }
      assert ChangedFlags(ds, us, gate)[..n] == ChangedFlags(ds[..n], us, gate);
    }
  }

  lemma ChangedAreCounted(ds: seq<Destination>, us: seq<GateUpdate>, gate: PacketGate)
    ensures ChangedCount(ds, us, gate)
         == |set i | 0 <= i < |ds| && HitByAny(ds, i, us) && SomewhereElse(ds[i], gate)|
  {
    ChangedAreFlagged(ds, us, gate);
    var flags := ChangedFlags(ds, us, gate);
    TrueCountIsCardinality(flags);
    forall i | 0 <= i < |ds| ensures flags[i] <==> HitByAny(ds, i, us) && SomewhereElse(ds[i], gate) {
      ReachedIsHit(ds, i, us);
      hide Reached, HitByAny;
    }
    hide *;
    assert (set i | 0 <= i < |flags| && flags[i])
        == set i | 0 <= i < |ds| && HitByAny(ds, i, us) && SomewhereElse(ds[i], gate);
  }

  function FailedFlags(ds: seq<Destination>, us: seq<GateUpdate>): seq<bool> {
    seq(|us|, j requires 0 <= j < |us| => !Known(ds, us[j]))
  }

  lemma {:induction false} FailedAreFlagged(ds: seq<Destination>, us: seq<GateUpdate>)
    ensures FailedCount(ds, us) == TrueCount(FailedFlags(ds, us))
  {
    hide Known;
    if us == [] {
    } else {
      var n := |us| - 1;
      FailedAreFlagged(ds, us[..n]);
      assert FailedFlags(ds, us)[..n] == FailedFlags(ds, us[..n]);
    }
  }

  lemma FailedAreCounted(ds: seq<Destination>, us: seq<GateUpdate>)
    ensures FailedCount(ds, us)
         == |set j | 0 <= j < |us| && HitsNothing(ds, us[j])|
  {
    FailedAreFlagged(ds, us);
    var flags := FailedFlags(ds, us);
    TrueCountIsCardinality(flags);
    forall j | 0 <= j < |us| ensures flags[j] <==> HitsNothing(ds, us[j]) {
    }
    hide *;
    assert (set j | 0 <= j < |flags| && flags[j]) == set j | 0 <= j < |us| && HitsNothing(ds, us[j]);
  }

  function ForwardingFlags(ds: seq<Destination>): seq<bool> {
    seq(|ds|, i requires 0 <= i < |ds| => Forwards(ds[i]))
  }

  lemma {:induction false} ForwardingAreFlagged(ds: seq<Destination>)
    ensures ForwardingCount(ds) == TrueCount(ForwardingFlags(ds))
  {
    hide Forwards;
    if ds == [] {
    } else {
      var n := |ds| - 1;
      ForwardingAreFlagged(ds[..n]);
      assert ForwardingFlags(ds)[..n] == ForwardingFlags(ds[..n]);
    }
  }

  lemma ForwardingAreCounted(ds: seq<Destination>)
    ensures ForwardingCount(ds) == |set i | 0 <= i < |ds| && ds[i].active && ds[i].gate != Block|
  {
    ForwardingAreFlagged(ds);
    var flags := ForwardingFlags(ds);
    TrueCountIsCardinality(flags);
    assert forall i | 0 <= i < |ds| :: flags[i] <==> ds[i].active && ds[i].gate != Block;
    hide *;
    assert (set i | 0 <= i < |flags| && flags[i]) == set i | 0 <= i < |ds| && ds[i].active && ds[i].gate != Block;
  }

  lemma AppliedByField(before: seq<Destination>, after: seq<Destination>, us: seq<GateUpdate>, gate: PacketGate)
    requires BatchApplied(after, before, us, gate)
    ensures |after| == |before|
    ensures forall i | 0 <= i < |before| ::
              after[i] == if HitByAny(before, i, us)
                          then before[i].(gate := gate, pendingGate := if gate.Rid? then Some(gate) else None)
                          else before[i]
  {
    forall i | 0 <= i < |before|
      ensures after[i] == if HitByAny(before, i, us)
                          then before[i].(gate := gate, pendingGate := if gate.Rid? then Some(gate) else None)
                          else before[i]
    {
      ReachedIsHit(before, i, us);
      hide Reached, HitByAny;
    }
  }

  lemma BatchHasOutcome(before: seq<Destination>, after: seq<Destination>, us: seq<GateUpdate>, gate: PacketGate)
    requires BatchApplied(after, before, us, gate)
    ensures BatchOutcome(before, after, us, gate, BatchScore(before, after, us, gate))
  {
    AppliedByField(before, after, us, gate);
    hide BatchApplied, ChangedCount, FailedCount, ForwardingCount, HitByAny, SomewhereElse, Capped;
    ChangedAreCounted(before, us, gate);
    FailedAreCounted(before, us);
    ForwardingAreCounted(after);
  }

  // ----- the batch fixture

  const VEC_MAX: nat := I64_MAX  // no vector holds more elements than isize::MAX

  function BenchmarkSessionKey(index: nat): SessionKey {
    SessionKey(CHANNEL_INSTANCE_ID, MEDIA_WORKER_ID, SatAdd(index, 1),
               if index < I64_MAX then index + 1 else if index == I64_MAX then I64_MAX else 1)
  }

  /** User numbers count from one, stop at the largest i64, and past it the conversion's default counts. */
  lemma BenchmarkUsers(index: nat)
    ensures BenchmarkSessionKey(index).user ==
            if index < 0x7FFF_FFFF_FFFF_FFFF then index + 1
            else if index == 0x7FFF_FFFF_FFFF_FFFF then 0x7FFF_FFFF_FFFF_FFFF else 1
  {
  }

  function BenchmarkMediaId(index: nat): nat {
    SatAdd(FIRST_CONSUMER_MEDIA_ID, index)
  }

  function BenchmarkDestination(index: nat): Destination {
    Destination(BenchmarkSessionKey(index), BenchmarkMediaId(index), index % 7 != 0,
                if index % 11 == 0 then Block else Open, None)
  }

  function BenchmarkDestinations(count: nat): seq<Destination> {
    seq(count, i requires 0 <= i < count => BenchmarkDestination(i))
  }

  /** One update a destination, last destination first. */
  function BenchmarkUpdates(ds: seq<Destination>): seq<GateUpdate> {
    seq(|ds|, i requires 0 <= i < |ds| => UpdateOf(ds[|ds| - 1 - i]))
  }

  /** The benchmark's destinations field by field: every seventh inactive, every eleventh blocked. */
  ghost predicate AreBenchmarkDestinations(ds: seq<Destination>, n: nat) {
    && |ds| == n
    && forall i | 0 <= i < n ::
         ds[i] == Destination(SessionKey(21, 0, i + 1, i + 1), 1_000 + i, i % 7 != 0,
                              if i % 11 == 0 then Block else Open, None)
  }

  lemma BenchmarkDestinationsByField(n: nat)
    requires n <= VEC_MAX
    ensures AreBenchmarkDestinations(BenchmarkDestinations(n), n)
  {
  }

  lemma BenchmarkUpdatesByField(ds: seq<Destination>)
    ensures |BenchmarkUpdates(ds)| == |ds|
    ensures forall j | 0 <= j < |ds| ::
              var d := ds[|ds| - 1 - j];
              BenchmarkUpdates(ds)[j] == GateUpdate(d.session, d.mediaId, IdentityKey(d.session, d.mediaId))
  {
    forall j | 0 <= j < |ds| ensures BenchmarkUpdates(ds)[j] == UpdateOf(ds[|ds| - 1 - j]) {
    }
  }

  lemma BenchmarkIdsAreDistinct(count: nat)
    requires count <= VEC_MAX
    ensures DistinctIds(BenchmarkDestinations(count))
  {
    hide BenchmarkSessionKey;
  }

  lemma BenchmarkUpdatesAreKeyed(ds: seq<Destination>)
    ensures forall j | 0 <= j < |BenchmarkUpdates(ds)| :: IsKeyed(BenchmarkUpdates(ds)[j])
  {
    assert forall d: Destination :: IsKeyed(UpdateOf(d));
    hide UpdateOf, IsKeyed;
  }

  function GateFor(isOpen: bool): PacketGate {
    if isOpen then Open else Rid(1)
  }

  class ConsumerPacketGateBatchFixture {
    var destinations: seq<Destination>
    var mediaIdIndex: MediaIdIndex
    var identityIndex: IdentityIndex
    var updates: seq<GateUpdate>
    var nextGateIsOpen: bool

    ghost predicate UpdatesAreKeyed()
      reads this
    {
      forall j | 0 <= j < |updates| :: IsKeyed(updates[j])
    }

    ghost predicate Valid()
      reads this
    {
      Indexes(mediaIdIndex, destinations) && IndexesIdentities(identityIndex, destinations) && UpdatesAreKeyed()
    }

    constructor (destinationCount: nat)
      requires destinationCount <= VEC_MAX
      ensures Valid()
      ensures destinations == BenchmarkDestinations(destinationCount)
      ensures updates == BenchmarkUpdates(destinations)
      ensures !nextGateIsOpen
      ensures AreBenchmarkDestinations(destinations, destinationCount)
      ensures |updates| == destinationCount
      ensures forall j | 0 <= j < destinationCount ::
                var d := destinations[destinationCount - 1 - j];
                updates[j] == GateUpdate(d.session, d.mediaId, IdentityKey(d.session, d.mediaId))
    {
      hide AreBenchmarkDestinations, BenchmarkDestination, BenchmarkUpdates, DistinctIds, DistinctIdentities, Indexes,
        IndexesIdentities, IsKeyed, UpdateOf;
      var ds := BenchmarkDestinations(destinationCount);
      assert |ds| == destinationCount;
      hide BenchmarkDestinations;
      BenchmarkIdsAreDistinct(destinationCount);
      BenchmarkUpdatesAreKeyed(ds);
      BenchmarkDestinationsByField(destinationCount);
      BenchmarkUpdatesByField(ds);
      BuiltIndexIsExact(ds);
      ExactIndexesMeanDistinct(BuildMediaIdIndex(ds), ds);
      destinations := ds;
      mediaIdIndex := BuildMediaIdIndex(ds);
      identityIndex := BuildIdentityIndex(ds);
      updates := BenchmarkUpdates(ds);
      nextGateIsOpen := false;
    }

    method NextGate() returns (gate: PacketGate)
      modifies this`nextGateIsOpen
      ensures nextGateIsOpen == !old(nextGateIsOpen)
      ensures gate == GateFor(nextGateIsOpen)
      ensures gate == if nextGateIsOpen then Open else Rid(1)
    {
      nextGateIsOpen := !nextGateIsOpen;
      gate := if nextGateIsOpen then Open else Rid(1);
    }

    method SourceGateAggregate() returns (count: nat)
      ensures count == Capped(ForwardingCount(destinations))
      ensures count == Capped(|set i | 0 <= i < |destinations| && destinations[i].active
                                       && destinations[i].gate != Block|)
    {
      ForwardingAreCounted(destinations);
      var openCount, ridCount := 0, 0;
      ghost var exactOpen, exactRid := 0, 0;
      for i := 0 to |destinations|
        invariant openCount == Capped(exactOpen) && ridCount == Capped(exactRid)
        invariant exactOpen + exactRid == ForwardingCount(destinations[..i])
      {
        var destination := destinations[i];
        assert destinations[..i + 1][..i] == destinations[..i];
        if destination.active {
          match destination.gate
          case Open => openCount, exactOpen := SatAdd(openCount, 1), exactOpen + 1;
          case Rid(_) => ridCount, exactRid := SatAdd(ridCount, 1), exactRid + 1;
          case Block =>
        }
      }
      assert destinations[..|destinations|] == destinations;
      count := SatAdd(openCount, ridCount);
    }

    method UpdateDestinationGate(position: nat, gate: PacketGate) returns (changed: bool)
      requires position < |destinations|
      modifies this`destinations
      ensures var d := old(destinations)[position];
              var pending := if gate.Rid? then Some(gate) else None;
              && destinations == old(destinations)[position := d.(gate := gate, pendingGate := pending)]
              && (changed <==> d.gate != gate || d.pendingGate != pending)
      ensures changed <==> !AtGate(old(destinations)[position], gate)
      ensures destinations == old(destinations)[position := WithGate(old(destinations)[position], gate)]
    {
      var pendingGate := match gate { case Rid(_) => Some(gate) case Open => None case Block => None };
      var destination := destinations[position];
      if destination.gate == gate && destination.pendingGate == pendingGate {
        return false;
      }
      destinations := destinations[position := destination.(gate := gate, pendingGate := pendingGate)];
      return true;
    }

    /** The tail the three cycles share. */
    method FinishBatch(ghost before: seq<Destination>, ghost gate: PacketGate, changedCount: nat, failedCount: nat)
      returns (score: nat)
      requires BatchSoFar(before, destinations, updates[..|updates|], gate, changedCount, failedCount)
      ensures score == BatchScore(before, destinations, updates, gate)
      ensures BatchApplied(destinations, before, updates, gate)
      ensures Indexes(mediaIdIndex, destinations) <==> Indexes(mediaIdIndex, before)
      ensures IndexesIdentities(identityIndex, destinations) <==> IndexesIdentities(identityIndex, before)
      ensures DistinctIdentities(destinations) <==> DistinctIdentities(before)
    {
      hide Indexes, IndexesIdentities, DistinctIdentities, BatchApplied, ChangedCount, FailedCount, ForwardingCount;
      assert updates[..|updates|] == updates;
      IndexesAreKept(before, destinations, updates, gate, mediaIdIndex, identityIndex);
      var aggregate := 0;
      if changedCount != 0 {
        aggregate := SourceGateAggregate();
      }
      score := SatAdd(SatAdd(changedCount, failedCount), aggregate);
    }

    method CurrentLinearBatchCycle() returns (score: nat)
      modifies this`destinations, this`nextGateIsOpen
      ensures old(Valid()) ==> Valid()
      ensures nextGateIsOpen == !old(nextGateIsOpen)
      ensures BatchApplied(destinations, old(destinations), updates, GateFor(nextGateIsOpen))
      ensures score == BatchScore(old(destinations), destinations, updates, GateFor(nextGateIsOpen))
      ensures BatchOutcome(old(destinations), destinations, updates, if nextGateIsOpen then Open else Rid(1), score)
    {
      hide BatchOutcome, BatchApplied, BatchScore, BatchSoFar, Indexes, IndexesIdentities, Finds, WithGate, AtGate;
      var gate := NextGate();
      var changedCount: nat, failedCount: nat := 0, 0;
      ghost var before := destinations;
      BatchStarts(before, gate);
      for j := 0 to |updates|
        modifies this`destinations
        invariant BatchSoFar(before, destinations, updates[..j], gate, changedCount, failedCount)
      {
        assert updates[..j + 1] == updates[..j] + [updates[j]];
        var position := FindLinear(destinations, updates[j], 0);
        BatchStep(before, destinations, updates[..j], updates[j], gate, position, changedCount, failedCount);
        match position
        case Some(p) =>
          var changed := UpdateDestinationGate(p, gate);
          changedCount := SatAdd(changedCount, if changed then 1 else 0);
        case None =>
          failedCount := SatAdd(failedCount, 1);
      }
      score := FinishBatch(before, gate, changedCount, failedCount);
      BatchHasOutcome(before, destinations, updates, gate);
    }

    method MediaIdIndexedBatchCycle() returns (score: nat)
      requires Indexes(mediaIdIndex, destinations)
      modifies this`destinations, this`nextGateIsOpen
      ensures Indexes(mediaIdIndex, destinations)
      ensures old(Valid()) ==> Valid()
      ensures nextGateIsOpen == !old(nextGateIsOpen)
      ensures BatchApplied(destinations, old(destinations), updates, GateFor(nextGateIsOpen))
      ensures score == BatchScore(old(destinations), destinations, updates, GateFor(nextGateIsOpen))
      ensures BatchOutcome(old(destinations), destinations, updates, if nextGateIsOpen then Open else Rid(1), score)
    {
      hide BatchOutcome, BatchApplied, BatchScore, BatchSoFar, Indexes, IndexesIdentities, Finds, WithGate, AtGate;
      var gate := NextGate();
      var changedCount: nat, failedCount: nat := 0, 0;
      ghost var before := destinations;
      BatchStarts(before, gate);
      for j := 0 to |updates|
        modifies this`destinations
        invariant BatchSoFar(before, destinations, updates[..j], gate, changedCount, failedCount)
      {
        assert updates[..j + 1] == updates[..j] + [updates[j]];
        BatchKeepsIndexes(before, destinations, updates[..j], gate, changedCount, failedCount,
                          mediaIdIndex, identityIndex);
        var position := FindByMediaId(destinations, mediaIdIndex, updates[j]);
        BatchStep(before, destinations, updates[..j], updates[j], gate, position, changedCount, failedCount);
        match position
        case Some(p) =>
          var changed := UpdateDestinationGate(p, gate);
          changedCount := SatAdd(changedCount, if changed then 1 else 0);
        case None =>
          failedCount := SatAdd(failedCount, 1);
      }
      score := FinishBatch(before, gate, changedCount, failedCount);
      BatchHasOutcome(before, destinations, updates, gate);
    }

    method IdentityIndexedBatchCycle() returns (score: nat)
      requires IndexesIdentities(identityIndex, destinations) && UpdatesAreKeyed()
      modifies this`destinations, this`nextGateIsOpen
      ensures IndexesIdentities(identityIndex, destinations)
      ensures old(Valid()) ==> Valid()
      ensures nextGateIsOpen == !old(nextGateIsOpen)
      ensures BatchApplied(destinations, old(destinations), updates, GateFor(nextGateIsOpen))
      ensures score == BatchScore(old(destinations), destinations, updates, GateFor(nextGateIsOpen))
      ensures BatchOutcome(old(destinations), destinations, updates, if nextGateIsOpen then Open else Rid(1), score)
    {
      hide BatchOutcome, BatchApplied, BatchScore, BatchSoFar, Indexes, IndexesIdentities, Finds, WithGate, AtGate;
      var gate := NextGate();
      var changedCount: nat, failedCount: nat := 0, 0;
      ghost var before := destinations;
      BatchStarts(before, gate);
      for j := 0 to |updates|
        modifies this`destinations
        invariant BatchSoFar(before, destinations, updates[..j], gate, changedCount, failedCount)
      {
        assert updates[..j + 1] == updates[..j] + [updates[j]];
        BatchKeepsIndexes(before, destinations, updates[..j], gate, changedCount, failedCount,
                          mediaIdIndex, identityIndex);
        var position := FindByIdentity(identityIndex, updates[j]);
        IdentityLookupFinds(destinations, identityIndex, updates[j]);
        BatchStep(before, destinations, updates[..j], updates[j], gate, position, changedCount, failedCount);
        match position
        case Some(p) =>
          var changed := UpdateDestinationGate(p, gate);
          changedCount := SatAdd(changedCount, if changed then 1 else 0);
        case None =>
          failedCount := SatAdd(failedCount, 1);
      }
      score := FinishBatch(before, gate, changedCount, failedCount);
      BatchHasOutcome(before, destinations, updates, gate);
    }
  }
}
