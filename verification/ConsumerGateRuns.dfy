/** Whole runs of the gate benchmark: any mix of the three batch cycles on a fresh fixture. */
module ConsumerGateRuns {
  import opened Machine
  import opened ConsumerGate

  datatype Lookup = Linear | ByMediaId | ByIdentity

  /** The benchmark destinations with every gate at `gate`. */
  ghost predicate CycledTo(ds: seq<Destination>, n: nat, gate: PacketGate) {
    |ds| == n && forall i | 0 <= i < n :: ds[i] == WithGate(BenchmarkDestination(i), gate)
  }

  /** The updates reach every destination. */
  ghost predicate ReachesAll(ds: seq<Destination>, us: seq<GateUpdate>) {
    forall i | 0 <= i < |ds| :: Reached(ds, i, us)
  }

  lemma PrefixIsReached(ds: seq<Destination>, us: seq<GateUpdate>, n: nat)
    requires ReachesAll(ds, us) && n <= |ds|
    ensures ReachesAll(ds[..n], us)
  {
    hide Targeted, IsFirst;
    forall i | 0 <= i < n ensures Reached(ds[..n], i, us) {
      assert Reached(ds, i, us);
      FirstInPrefix(ds, n, i);
    }
  }

  lemma {:induction false} NoneFail(ds: seq<Destination>, us: seq<GateUpdate>)
    requires forall j | 0 <= j < |us| :: Known(ds, us[j])
    ensures FailedCount(ds, us) == 0
  {
    hide Known;
    if us == [] {
    } else {
      NoneFail(ds, us[..|us| - 1]);
    }
  }

  lemma BenchmarkUpdatesReachAll(ds: seq<Destination>)
    requires DistinctIdentities(ds)
    ensures ReachesAll(ds, BenchmarkUpdates(ds))
    ensures FailedCount(ds, BenchmarkUpdates(ds)) == 0
  {
    var us := BenchmarkUpdates(ds);
    DistinctMeansFirst(ds);
    hide IsFirst, DistinctIdentities;
    forall i | 0 <= i < |ds| ensures Targeted(ds[i], us) {
      assert us[|ds| - 1 - i] == UpdateOf(ds[i]);
      assert Matches(ds[i], us[|ds| - 1 - i]);
    }
    forall j | 0 <= j < |us| ensures Known(ds, us[j]) {
      assert us[j] == UpdateOf(ds[|ds| - 1 - j]);
      assert Matches(ds[|ds| - 1 - j], us[j]);
    }
    NoneFail(ds, us);
  }

  lemma BenchmarkDestinationAt(i: nat, gate: PacketGate)
    ensures AtGate(BenchmarkDestination(i), Open) <==> i % 11 != 0
    ensures gate != Block ==> (Forwards(WithGate(BenchmarkDestination(i), gate)) <==> i % 7 != 0)
  {
    hide BenchmarkSessionKey, BenchmarkMediaId;
  }

  lemma OneMoreEleventh(n: nat)
    requires n > 0
    ensures (n + 10) / 11 == (n - 1 + 10) / 11 + (if (n - 1) % 11 == 0 then 1 else 0)
  {
    var q, r := (n - 1) / 11, (n - 1) % 11;
    assert n + 10 == 11 * (q + 1) + r;
    assert n - 1 + 10 == if r == 0 then 11 * q + 10 else 11 * (q + 1) + (r - 1);
  }

  lemma OneMoreSeventh(n: nat)
    requires n > 0
    ensures (n + 6) / 7 == (n - 1 + 6) / 7 + (if (n - 1) % 7 == 0 then 1 else 0)
  {
    var q, r := (n - 1) / 7, (n - 1) % 7;
    assert n + 6 == 7 * (q + 1) + r;
    assert n - 1 + 6 == if r == 0 then 7 * q + 6 else 7 * (q + 1) + (r - 1);
  }

  /** On the fresh destinations the first cycle opens exactly the blocked ones, every eleventh. */
  lemma {:induction false} FreshChanged(ds: seq<Destination>, n: nat, us: seq<GateUpdate>)
    requires |ds| == n && forall i | 0 <= i < n :: ds[i] == BenchmarkDestination(i)
    requires ReachesAll(ds, us)
    ensures ChangedCount(ds, us, Open) == (n + 10) / 11
  {
    hide Reached, BenchmarkDestination, AtGate;
    if n == 0 {
    } else {
      PrefixIsReached(ds, us, n - 1);
      FreshChanged(ds[..n - 1], n - 1, us);
      BenchmarkDestinationAt(n - 1, Open);
      OneMoreEleventh(n);
    }
  }

  /** When every destination is at another gate, every destination changes. */
  lemma {:induction false} CycledChanged(ds: seq<Destination>, n: nat, us: seq<GateUpdate>, gate: PacketGate,
                                         next: PacketGate)
    requires CycledTo(ds, n, gate) && ReachesAll(ds, us) && gate != next
    ensures ChangedCount(ds, us, next) == n
  {
    hide Reached, BenchmarkDestination;
    if n == 0 {
    } else {
      PrefixIsReached(ds, us, n - 1);
      CycledChanged(ds[..n - 1], n - 1, us, gate, next);
    }
  }

  /** Every destination but each seventh forwards once no gate is closed. */
  lemma {:induction false} CycledForwarding(ds: seq<Destination>, n: nat, gate: PacketGate)
    requires CycledTo(ds, n, gate) && gate != Block
    ensures ForwardingCount(ds) == n - (n + 6) / 7
  {
    hide BenchmarkDestination, Forwards;
    if n == 0 {
    } else {
      CycledForwarding(ds[..n - 1], n - 1, gate);
      BenchmarkDestinationAt(n - 1, gate);
      OneMoreSeventh(n);
    }
  }

  lemma ReachedIsKept(after: seq<Destination>, before: seq<Destination>, us: seq<GateUpdate>, gate: PacketGate, i: nat)
    requires BatchApplied(after, before, us, gate) && i < |before| && Reached(before, i, us)
    ensures Reached(after, i, us)
  {
    assert forall k | 0 <= k < |before| :: IdentityOf(after[k]) == IdentityOf(before[k]);
    var j :| 0 <= j < |us| && Matches(before[i], us[j]);
    assert Matches(after[i], us[j]);
  }

  lemma BatchCycles(after: seq<Destination>, before: seq<Destination>, n: nat, us: seq<GateUpdate>, gate: PacketGate)
    requires |before| == n && ReachesAll(before, us) && BatchApplied(after, before, us, gate)
    requires forall i | 0 <= i < n :: WithGate(before[i], gate) == WithGate(BenchmarkDestination(i), gate)
    ensures CycledTo(after, n, gate) && ReachesAll(after, us)
  {
    hide BenchmarkDestination, Reached;
    forall i | 0 <= i < n ensures after[i] == WithGate(BenchmarkDestination(i), gate) && Reached(after, i, us) {
      assert Reached(before, i, us);
      ReachedIsKept(after, before, us, gate, i);
    }
  }

  lemma {:induction false} FailedIsKept(before: seq<Destination>, after: seq<Destination>, vs: seq<GateUpdate>,
                                        us: seq<GateUpdate>, gate: PacketGate)
    requires BatchApplied(after, before, vs, gate)
    ensures FailedCount(after, us) == FailedCount(before, us)
  {
    hide BatchApplied, Known;
    if us == [] {
    } else {
      FailedIsKept(before, after, vs, us[..|us| - 1], gate);
      KnownIsKept(before, after, vs, us[|us| - 1], gate);
    }
  }

  /** What cycle `t` on a fresh fixture of `n` destinations returns: the first one changes only the
      blocked destinations, every later one changes all. */
  function ScoreOf(n: nat, t: nat): int {
    (if t == 0 then (n + 10) / 11 else n) + (n - (n + 6) / 7)
  }

  method OneCycle(f: ConsumerPacketGateBatchFixture, lookup: Lookup) returns (score: nat)
    requires f.Valid()
    modifies f`destinations, f`nextGateIsOpen
    ensures f.Valid()
    ensures f.nextGateIsOpen == !old(f.nextGateIsOpen)
    ensures BatchApplied(f.destinations, old(f.destinations), f.updates, GateFor(f.nextGateIsOpen))
    ensures score == BatchScore(old(f.destinations), f.destinations, f.updates, GateFor(f.nextGateIsOpen))
  {
    hide Indexes, IndexesIdentities, BatchApplied, BatchScore, GateFor;
    match lookup
    case Linear => score := f.CurrentLinearBatchCycle();
    case ByMediaId => score := f.MediaIdIndexedBatchCycle();
    case ByIdentity => score := f.IdentityIndexedBatchCycle();
  }

  /** Where `t` cycles leave the fixture. */
  ghost predicate CycledTimes(ds: seq<Destination>, n: nat, t: nat, isOpen: bool, us: seq<GateUpdate>) {
    && ReachesAll(ds, us)
    && FailedCount(ds, us) == 0
    && (isOpen <==> t % 2 == 1)
    && if t == 0 then ds == BenchmarkDestinations(n) else CycledTo(ds, n, GateFor(isOpen))
  }

  lemma FreshIsCycledZeroTimes(n: nat)
    requires n <= VEC_MAX
    ensures CycledTimes(BenchmarkDestinations(n), n, 0, false, BenchmarkUpdates(BenchmarkDestinations(n)))
  {
    hide ReachesAll, FailedCount, BenchmarkUpdates;
    BenchmarkIdsAreDistinct(n);
    DistinctIdsAreIdentities(BenchmarkDestinations(n));
    BenchmarkUpdatesReachAll(BenchmarkDestinations(n));
  }

  lemma CycleOnce(before: seq<Destination>, after: seq<Destination>, n: nat, t: nat, isOpen: bool, us: seq<GateUpdate>)
    requires n <= VEC_MAX
    requires CycledTimes(before, n, t, !isOpen, us) && BatchApplied(after, before, us, GateFor(isOpen))
    ensures CycledTimes(after, n, t + 1, isOpen, us)
    ensures BatchScore(before, after, us, GateFor(isOpen)) == ScoreOf(n, t)
  {
    hide ReachesAll, BatchApplied, ChangedCount, FailedCount, ForwardingCount, BenchmarkDestination;
    var gate := GateFor(isOpen);
    if t == 0 {
      FreshChanged(before, n, us);
    } else {
      CycledChanged(before, n, us, GateFor(!isOpen), gate);
    }
    BatchCycles(after, before, n, us, gate);
    FailedIsKept(before, after, us, us, gate);
    CycledForwarding(after, n, gate);
  }

  /** Any mix of the three cycles on a fresh fixture scores in closed form. */
  method RunBatches(n: nat, lookups: seq<Lookup>) returns (scores: seq<nat>)
    requires n <= VEC_MAX
    ensures |scores| == |lookups|
    ensures forall t | 0 <= t < |scores| :: scores[t] == ScoreOf(n, t)
  {
    hide CycledTimes, BatchApplied, BatchScore, ConsumerPacketGateBatchFixture.Valid, BenchmarkUpdates, ScoreOf,
      BenchmarkDestinations, GateFor;
    FreshIsCycledZeroTimes(n);
    var f := new ConsumerPacketGateBatchFixture(n);
    ghost var us := f.updates;
    scores := [];
    for t := 0 to |lookups|
      invariant fresh(f) && f.Valid() && f.updates == us
      invariant CycledTimes(f.destinations, n, t, f.nextGateIsOpen, us)
      invariant |scores| == t
      invariant forall u | 0 <= u < t :: scores[u] == ScoreOf(n, u)
    {
      ghost var before := f.destinations;
      var score := OneCycle(f, lookups[t]);
      CycleOnce(before, f.destinations, n, t, f.nextGateIsOpen, us);
      scores := scores + [score];
    }
  }
}
