/** When the three metric forms return the same: an exact condition on the counters for each pair of forms,
    for every input. Models src/packet_metrics.rs. */
module PacketMetricsAgreement {
  import opened Machine
  import opened PacketMetrics
  import opened PacketMetricsTotals

  // ----- congruence modulo 2^64

  ghost predicate Congruent(x: int, y: int) {
    (x - y) % U64_MODULUS == 0
  }

  lemma Congruence(x: nat, y: nat)
    ensures x % U64_MODULUS == y % U64_MODULUS <==> Congruent(x, y)
  {
  }

  lemma RemaindersAreCongruent(x: nat, y: nat)
    ensures Congruent(x % U64_MODULUS + y % U64_MODULUS, x + y)
  {
  }

  lemma CongruenceAdds(x: int, y: int, x': int, y': int)
    requires Congruent(x, y)
    ensures Congruent(x + x', y + y') <==> Congruent(x', y')
  {
  }

  lemma CongruentToOne(x: int, y: int, z: int)
    requires Congruent(x, z) && Congruent(y, z)
    ensures Congruent(x, y)
  {
  }

  lemma MultiplesVanish(q: int)
    ensures (U64_MODULUS * q) % U64_MODULUS == 0
  {
  }

  /** 3 * 0xAAAA_AAAA_AAAA_AAAB is 1 modulo 2^64. */
  lemma ThirdOfMultiple(d: int, k: int)
    requires 3 * d == U64_MODULUS * k
    ensures d == U64_MODULUS * (0xAAAA_AAAA_AAAA_AAAB * k - 2 * d)
  {
  }

  lemma ThirdsAreCongruent(x: int, y: int)
    ensures Congruent(3 * x, 3 * y) <==> Congruent(x, y)
  {
    var d := x - y;
    if Congruent(3 * x, 3 * y) {
      var k := 3 * d / U64_MODULUS;
      ThirdOfMultiple(d, k);
      MultiplesVanish(0xAAAA_AAAA_AAAA_AAAB * k - 2 * d);
    } else if Congruent(x, y) {
      var k := d / U64_MODULUS;
      assert 3 * d == U64_MODULUS * (3 * k);
      MultiplesVanish(3 * k);
    }
  }

  // ----- thirds: every form adds the same two numbers three times, and the cap is a multiple of three

  const CAP_THIRD: nat := 0x5555_5555_5555_5555

  /** What saturation leaves of a third of a total, and what it cuts off. */
  function Kept(third: nat): nat {
    if third <= CAP_THIRD then third else CAP_THIRD
  }

  function Excess(third: nat): nat {
    third - Kept(third)
  }

  lemma CappedThird(third: nat)
    ensures Capped(3 * third) == 3 * Kept(third)
  {
  }

  /** Packets plus bytes, as the counters of one worker hold them when it is done. */
  function CounterSum(layout: Layout, b: Benchmark, worker: nat): nat {
    Stored(layout, |b.payloads|) + Stored(layout, BytesOf(b, worker))
  }

  /** Packets plus bytes, as the shared counters hold them. */
  function SharedSum(b: Benchmark): nat {
    Stored(SharedGlobal, b.workerCount * |b.payloads|) + Stored(SharedGlobal, AllBytes(b))
  }

  function SumOfKept(layout: Layout, b: Benchmark, n: nat): nat {
    if n == 0 then 0 else SumOfKept(layout, b, n - 1) + Kept(CounterSum(layout, b, n - 1))
  }

  /** What saturation cuts off the totals of the first `n` workers' atomic counters. */
  function SumOfExcess(b: Benchmark, n: nat): nat {
    if n == 0 then 0 else SumOfExcess(b, n - 1) + Excess(CounterSum(PerWorker, b, n - 1))
  }

  lemma {:induction false} ReturnsInThirds(layout: Layout, b: Benchmark, n: nat)
    ensures SumOfReturns(layout, b, n) == 3 * SumOfKept(layout, b, n)
  {
    hide Kept, Stored, BytesOf, Capped;
    if n == 0 {
    } else {
      ReturnsInThirds(layout, b, n - 1);
      CappedThird(CounterSum(layout, b, n - 1));
    }
  }

  lemma SharedInThirds(b: Benchmark)
    ensures SharedReturn(b) == 3 * Kept(SharedSum(b)) == 3 * Kept(SharedSum(b)) % U64_MODULUS
  {
    hide Stored, AllBytes;
    CappedThird(SharedSum(b));
  }

  lemma JoinedFormsInThirds(b: Benchmark, layout: Layout, layout': Layout)
    ensures JoinedReturn(layout, b) == JoinedReturn(layout', b)
       <==> Congruent(SumOfKept(layout, b, b.workerCount), SumOfKept(layout', b, b.workerCount))
  {
    hide SumOfReturns, SumOfKept, Congruent;
    ReturnsInThirds(layout, b, b.workerCount);
    ReturnsInThirds(layout', b, b.workerCount);
    Congruence(SumOfReturns(layout, b, b.workerCount), SumOfReturns(layout', b, b.workerCount));
    ThirdsAreCongruent(SumOfKept(layout, b, b.workerCount), SumOfKept(layout', b, b.workerCount));
  }

  lemma SharedAndJoinedInThirds(b: Benchmark, layout: Layout)
    ensures SharedReturn(b) == JoinedReturn(layout, b)
       <==> Congruent(Kept(SharedSum(b)), SumOfKept(layout, b, b.workerCount))
  {
    hide SharedReturn, SharedSum, Kept, SumOfReturns, SumOfKept, Congruent;
    SharedInThirds(b);
    ReturnsInThirds(layout, b, b.workerCount);
    Congruence(3 * Kept(SharedSum(b)), SumOfReturns(layout, b, b.workerCount));
    ThirdsAreCongruent(Kept(SharedSum(b)), SumOfKept(layout, b, b.workerCount));
  }

  // ----- thread-local against per-worker counters

  predicate CountersWrap(b: Benchmark, worker: nat) {
    |b.payloads| > U64_MAX || BytesOf(b, worker) > U64_MAX
  }

  /** The room below the cap that a worker's counters leave after wrapping, in thirds; none when they do
      not wrap. */
  function LostThird(b: Benchmark, worker: nat): nat {
    var left := |b.payloads| % U64_MODULUS + BytesOf(b, worker) % U64_MODULUS;
    if CountersWrap(b, worker) && left < CAP_THIRD then CAP_THIRD - left else 0
  }

  function SumOfLostThirds(b: Benchmark, n: nat): nat {
    if n == 0 then 0 else SumOfLostThirds(b, n - 1) + LostThird(b, n - 1)
  }

  /** The atomic counters of a worker total what its plain fields would: they do not wrap, or what wrapping
      leaves saturates the total all the same. */
  predicate LosesNothing(b: Benchmark, worker: nat) {
    !CountersWrap(b, worker) || 3 * (|b.payloads| % U64_MODULUS + BytesOf(b, worker) % U64_MODULUS) >= U64_MAX
  }

  lemma WrappedKeepLess(packets: nat, bytes: nat)
    requires packets > U64_MAX || bytes > U64_MAX
    ensures Kept(Capped(packets) + Capped(bytes)) == CAP_THIRD
  {
  }

  lemma LocalKeepsMore(b: Benchmark, worker: nat)
    ensures Kept(CounterSum(ThreadLocal, b, worker)) == Kept(CounterSum(PerWorker, b, worker)) + LostThird(b, worker)
    ensures LostThird(b, worker) == 0 <==> LosesNothing(b, worker)
    ensures LostThird(b, worker) <= CAP_THIRD
  {
    hide BytesOf;
    if CountersWrap(b, worker) {
      WrappedKeepLess(|b.payloads|, BytesOf(b, worker));
      hide Capped;
    } else {
      hide Stored, Kept;
      StoredFits(PerWorker, |b.payloads|);
      StoredFits(PerWorker, BytesOf(b, worker));
      StoredFits(ThreadLocal, |b.payloads|);
      StoredFits(ThreadLocal, BytesOf(b, worker));
    }
  }

  lemma {:induction false} LocalWorkersKeepMore(b: Benchmark, n: nat)
    ensures SumOfKept(ThreadLocal, b, n) == SumOfKept(PerWorker, b, n) + SumOfLostThirds(b, n)
  {
    hide Kept, CounterSum, LostThird, LosesNothing;
    if n == 0 {
    } else {
      LocalWorkersKeepMore(b, n - 1);
      LocalKeepsMore(b, n - 1);
    }
  }

  /** For any number of workers the two joined forms agree exactly when the room left by the counters that
      wrapped adds up to a multiple of 2^64. */
  lemma ThreadLocalAgainstPerWorker(b: Benchmark)
    ensures JoinedReturn(ThreadLocal, b) == JoinedReturn(PerWorker, b)
       <==> SumOfLostThirds(b, b.workerCount) % U64_MODULUS == 0
  {
    JoinedFormsInThirds(b, ThreadLocal, PerWorker);
    hide JoinedReturn, SumOfKept, SumOfLostThirds;
    LocalWorkersKeepMore(b, b.workerCount);
  }

  lemma {:induction false} LostThirdsAreBounded(b: Benchmark, n: nat)
    ensures SumOfLostThirds(b, n) <= n * CAP_THIRD
    ensures SumOfLostThirds(b, n) == 0 <==> forall w | 0 <= w < n :: LosesNothing(b, w)
  {
    hide LostThird, LosesNothing;
    if n == 0 {
    } else {
      LostThirdsAreBounded(b, n - 1);
      LocalKeepsMore(b, n - 1);
    }
  }

  /** Up to three workers cannot lose 2^64 thirds in all: the forms agree exactly when no worker loses
      anything. */
  lemma FewThreadsAgainstWorkers(b: Benchmark)
    requires b.workerCount <= 3
    ensures JoinedReturn(ThreadLocal, b) == JoinedReturn(PerWorker, b)
       <==> forall w | 0 <= w < b.workerCount :: LosesNothing(b, w)
  {
    hide JoinedReturn, SumOfLostThirds, LosesNothing;
    ThreadLocalAgainstPerWorker(b);
    LostThirdsAreBounded(b, b.workerCount);
    assert SumOfLostThirds(b, b.workerCount) <= 3 * CAP_THIRD;
  }

  // ----- shared against per-worker counters

  /** The sums of the workers' atomic counters add up to what the shared ones hold, but for wrapping. */
  function SumOfCounterSums(b: Benchmark, n: nat): nat {
    if n == 0 then 0 else SumOfCounterSums(b, n - 1) + CounterSum(PerWorker, b, n - 1)
  }

  lemma {:induction false} KeptAndExcess(b: Benchmark, n: nat)
    ensures SumOfCounterSums(b, n) == SumOfKept(PerWorker, b, n) + SumOfExcess(b, n)
  {
    hide Kept, CounterSum;
    if n == 0 {
    } else {
      KeptAndExcess(b, n - 1);
    }
  }

  lemma {:induction false} CounterSumsAddUp(b: Benchmark, n: nat)
    ensures Congruent(SumOfCounterSums(b, n), n * |b.payloads| + WorkersSum(b, n, INGRESS_BYTES))
  {
    hide Recorded;
    if n == 0 {
    } else {
      CounterSumsAddUp(b, n - 1);
      MulStep(n, |b.payloads|);
      RemaindersAreCongruent(|b.payloads|, BytesOf(b, n - 1));
      hide Congruent;
      CongruenceAdds(SumOfCounterSums(b, n - 1), (n - 1) * |b.payloads| + WorkersSum(b, n - 1, INGRESS_BYTES),
                     CounterSum(PerWorker, b, n - 1), |b.payloads| + BytesOf(b, n - 1));
      assert n * |b.payloads| + WorkersSum(b, n, INGRESS_BYTES)
          == ((n - 1) * |b.payloads| + WorkersSum(b, n - 1, INGRESS_BYTES)) + (|b.payloads| + BytesOf(b, n - 1));
    }
  }

  lemma SharedSumWraps(b: Benchmark)
    ensures Congruent(SharedSum(b), b.workerCount * |b.payloads| + AllBytes(b))
  {
    hide AllBytes, Congruent;
    MulGrows(b.workerCount, 0, |b.payloads|);
    RemaindersAreCongruent(b.workerCount * |b.payloads|, AllBytes(b));
  }

  lemma SharedSumIsSumOfSums(b: Benchmark)
    ensures Congruent(SharedSum(b), SumOfCounterSums(b, b.workerCount))
  {
    hide WorkersSum, SumOfCounterSums, SharedSum, Congruent;
    SharedSumWraps(b);
    CounterSumsAddUp(b, b.workerCount);
    CongruentToOne(SharedSum(b), SumOfCounterSums(b, b.workerCount), b.workerCount * |b.payloads| + AllBytes(b));
  }

  lemma CongruentToItself(x: int)
    ensures Congruent(x, x)
  {
  }

  lemma SplitCongruence(a: int, c: int, a': int, c': int)
    requires Congruent(a + c, a' + c')
    ensures Congruent(a, a') <==> Congruent(c, c')
  {
  }

  /** Saturation cuts as much off the shared total as off the workers' totals together, in thirds and modulo
      2^64: exactly then the two atomic forms agree, for every input. */
  lemma SharedAgainstPerWorker(b: Benchmark)
    ensures SharedReturn(b) == JoinedReturn(PerWorker, b)
       <==> Congruent(Excess(SharedSum(b)), SumOfExcess(b, b.workerCount))
  {
    SharedAndJoinedInThirds(b, PerWorker);
    SharedSumIsSumOfSums(b);
    KeptAndExcess(b, b.workerCount);
    var shared, kept := SharedSum(b), SumOfKept(PerWorker, b, b.workerCount);
    assert shared == Kept(shared) + Excess(shared);
    hide SharedReturn, JoinedReturn, SharedSum, SumOfKept, SumOfExcess, SumOfCounterSums, Kept, Excess, Congruent;
    SplitCongruence(Kept(shared), Excess(shared), kept, SumOfExcess(b, b.workerCount));
  }

  /** The third pair: what the thread-local fields keep beyond the atomic ones counts as well. */
  lemma SharedAgainstThreadLocal(b: Benchmark)
    ensures SharedReturn(b) == JoinedReturn(ThreadLocal, b)
       <==> Congruent(Excess(SharedSum(b)) + SumOfLostThirds(b, b.workerCount), SumOfExcess(b, b.workerCount))
  {
    SharedAndJoinedInThirds(b, ThreadLocal);
    SharedSumIsSumOfSums(b);
    KeptAndExcess(b, b.workerCount);
    LocalWorkersKeepMore(b, b.workerCount);
    var shared, kept := SharedSum(b), SumOfKept(PerWorker, b, b.workerCount);
    var lost, excess := SumOfLostThirds(b, b.workerCount), SumOfExcess(b, b.workerCount);
    assert shared == Kept(shared) + Excess(shared);
    hide SharedReturn, JoinedReturn, SharedSum, SumOfKept, SumOfExcess, SumOfCounterSums, SumOfLostThirds, Kept, Excess,
      Congruent;
    CongruenceAdds(shared, kept + excess, lost, lost);
    CongruentToItself(lost);
    assert shared + lost == Kept(shared) + (Excess(shared) + lost) && kept + excess + lost == (kept + lost) + excess;
    SplitCongruence(Kept(shared), Excess(shared) + lost, kept + lost, excess);
  }

  // ----- while no shared counter wraps

  ghost predicate NoSharedCounterWraps(b: Benchmark) {
    b.workerCount * |b.payloads| <= U64_MAX && AllBytes(b) <= U64_MAX
  }

  lemma {:induction false} BytesAreInSum(b: Benchmark, n: nat, worker: nat)
    requires worker < n
    ensures BytesOf(b, worker) <= WorkersSum(b, n, INGRESS_BYTES)
  {
    hide Recorded;
    if worker == n - 1 {
    } else {
      BytesAreInSum(b, n - 1, worker);
    }
  }

  /** A worker's counters hold no more than the shared ones. */
  lemma NoWorkerWraps(b: Benchmark, worker: nat)
    requires NoSharedCounterWraps(b) && worker < b.workerCount
    ensures !CountersWrap(b, worker)
    ensures CounterSum(PerWorker, b, worker) == |b.payloads| + BytesOf(b, worker)
  {
    hide WorkersSum, Stored, BytesOf;
    BytesAreInSum(b, b.workerCount, worker);
    MulGrows(b.workerCount, 1, |b.payloads|);
    StoredFits(PerWorker, |b.payloads|);
    StoredFits(PerWorker, BytesOf(b, worker));
  }

  lemma WorkersLoseNothing(b: Benchmark)
    requires NoSharedCounterWraps(b)
    ensures JoinedReturn(ThreadLocal, b) == JoinedReturn(PerWorker, b)
  {
    ThreadLocalAgainstPerWorker(b);
    LostThirdsAreBounded(b, b.workerCount);
    hide NoSharedCounterWraps, JoinedReturn, SumOfLostThirds, CountersWrap;
    forall w | 0 <= w < b.workerCount ensures LosesNothing(b, w) {
      NoWorkerWraps(b, w);
    }
  }

  lemma {:induction false} CounterSumsAreExact(b: Benchmark, n: nat)
    requires NoSharedCounterWraps(b) && n <= b.workerCount
    ensures SumOfCounterSums(b, n) == n * |b.payloads| + WorkersSum(b, n, INGRESS_BYTES)
  {
    hide NoSharedCounterWraps, CounterSum, Recorded, CountersWrap;
    if n == 0 {
    } else {
      CounterSumsAreExact(b, n - 1);
      NoWorkerWraps(b, n - 1);
      MulStep(n, |b.payloads|);
    }
  }

  /** Of non-zero sums the total either loses nothing, or keeps a third of the cap and one for each other
      worker. */
  lemma {:induction false} KeptSumsGrow(b: Benchmark, n: nat)
    requires forall w | 0 <= w < n :: CounterSum(PerWorker, b, w) >= 1
    ensures n <= SumOfKept(PerWorker, b, n) <= SumOfCounterSums(b, n)
    ensures SumOfKept(PerWorker, b, n) == SumOfCounterSums(b, n) || SumOfKept(PerWorker, b, n) >= CAP_THIRD + (n - 1)
  {
    hide CounterSum;
    if n == 0 {
    } else {
      KeptSumsGrow(b, n - 1);
      assert CounterSum(PerWorker, b, n - 1) >= 1;
    }
  }

  lemma {:induction false} SmallSumsAreKept(b: Benchmark, n: nat)
    requires SumOfCounterSums(b, n) <= CAP_THIRD
    ensures SumOfKept(PerWorker, b, n) == SumOfCounterSums(b, n)
  {
    hide CounterSum;
    if n == 0 {
    } else {
      SmallSumsAreKept(b, n - 1);
    }
  }

  lemma {:induction false} KeptSumsAreBounded(layout: Layout, b: Benchmark, n: nat)
    ensures SumOfKept(layout, b, n) <= n * CAP_THIRD
  {
    hide CounterSum;
    if n == 0 {
    } else {
      KeptSumsAreBounded(layout, b, n - 1);
    }
  }

  lemma SharedSumIsExact(b: Benchmark)
    requires NoSharedCounterWraps(b)
    ensures SharedSum(b) == SumOfCounterSums(b, b.workerCount)
    ensures 3 * SharedSum(b) == ExactTotal(b)
    ensures SharedSum(b) <= 2 * U64_MAX
  {
    CounterSumsAreExact(b, b.workerCount);
    hide Stored, WorkersSum, SumOfCounterSums;
    MulGrows(b.workerCount, 0, |b.payloads|);
    StoredFits(SharedGlobal, b.workerCount * |b.payloads|);
    StoredFits(SharedGlobal, AllBytes(b));
  }

  lemma {:induction false} NothingCounted(b: Benchmark, n: nat)
    requires |b.payloads| == 0
    ensures SumOfCounterSums(b, n) == 0
  {
    if n == 0 {
    } else {
      NothingCounted(b, n - 1);
    }
  }

  /** If the shared counters hold anything, so do those of each worker. */
  lemma WorkersCountSomething(b: Benchmark)
    requires NoSharedCounterWraps(b) && SharedSum(b) > 0
    ensures forall w | 0 <= w < b.workerCount :: CounterSum(PerWorker, b, w) >= 1
  {
    SharedSumIsExact(b);
    if |b.payloads| == 0 {
      NothingCounted(b, b.workerCount);
    }
    hide SharedSum, CounterSum, BytesOf, NoSharedCounterWraps;
    forall w | 0 <= w < b.workerCount ensures CounterSum(PerWorker, b, w) >= 1 {
      NoWorkerWraps(b, w);
    }
  }

  lemma SmallCongruence(x: nat, d: nat)
    requires d < 2 * U64_MODULUS
    ensures Congruent(x, x + d) <==> d == 0 || d == U64_MODULUS
  {
  }

  /** Keeping a third of the cap past 2^64 takes five workers, and more packets than a third of the cap. */
  lemma FewKeepLess(b: Benchmark)
    requires NoSharedCounterWraps(b)
    requires b.workerCount <= 4 || b.workerCount * |b.payloads| <= CAP_THIRD
    ensures SumOfKept(PerWorker, b, b.workerCount) < CAP_THIRD + U64_MODULUS
  {
    hide SumOfKept, SumOfCounterSums, SumOfExcess, ExactTotal, AllBytes, Stored;
    if b.workerCount <= 4 {
      KeptSumsAreBounded(PerWorker, b, b.workerCount);
      MulGrows(4, b.workerCount, CAP_THIRD);
    } else {
      KeptAndExcess(b, b.workerCount);
      SharedSumIsExact(b);
      MulGrows(b.workerCount, 0, |b.payloads|);
      StoredFits(SharedGlobal, b.workerCount * |b.payloads|);
      StoredFits(SharedGlobal, AllBytes(b));
    }
  }

  /** Past a third of the cap, the shared sum keeps just that, and two workers keep more. */
  lemma KeptPastTheCap(b: Benchmark)
    requires NoSharedCounterWraps(b) && SharedSum(b) > CAP_THIRD
    ensures var kept := SumOfKept(PerWorker, b, b.workerCount);
            Congruent(CAP_THIRD, kept) <==> b.workerCount <= 1 || kept == CAP_THIRD + U64_MODULUS
  {
    SharedSumIsExact(b);
    WorkersCountSomething(b);
    var kept := SumOfKept(PerWorker, b, b.workerCount);
    KeptSumsGrow(b, b.workerCount);
    KeptSumsAreBounded(PerWorker, b, b.workerCount);
    hide SumOfKept, SumOfCounterSums, Congruent, SharedSum, ExactTotal, NoSharedCounterWraps, CounterSum;
    SmallCongruence(CAP_THIRD, kept - CAP_THIRD);
  }

  /** While no shared counter wraps, the joined forms agree. The shared form agrees with them exactly when
      there is at most one worker, or the exact total fits in a u64, or what the workers keep is one third of
      the cap past 2^64, which takes five workers and more packets than a third of the cap. */
  lemma AgreementWithoutWrapping(b: Benchmark)
    requires NoSharedCounterWraps(b)
    ensures JoinedReturn(ThreadLocal, b) == JoinedReturn(PerWorker, b)
    ensures SharedReturn(b) == JoinedReturn(PerWorker, b)
       <==> b.workerCount <= 1 || ExactTotal(b) <= U64_MAX
            || SumOfKept(PerWorker, b, b.workerCount) == CAP_THIRD + U64_MODULUS
    ensures b.workerCount <= 4 || b.workerCount * |b.payloads| <= CAP_THIRD ==>
              SumOfKept(PerWorker, b, b.workerCount) != CAP_THIRD + U64_MODULUS
  {
    hide SharedReturn, JoinedReturn, ExactTotal, SharedSum, NoSharedCounterWraps, SumOfKept, SumOfCounterSums;
    WorkersLoseNothing(b);
    if b.workerCount <= 4 || b.workerCount * |b.payloads| <= CAP_THIRD {
      FewKeepLess(b);
    }
    SharedAndJoinedInThirds(b, PerWorker);
    SharedSumIsExact(b);
    if SharedSum(b) <= CAP_THIRD {
      SmallSumsAreKept(b, b.workerCount);
    } else {
      hide Congruent;
      KeptPastTheCap(b);
    }
  }

  // ----- inputs that tell the forms apart

  lemma SumOfOneReturn(layout: Layout, b: Benchmark)
    requires b.workerCount == 1
    ensures JoinedReturn(layout, b) == WorkerReturn(layout, b, 0)
  {
    hide BytesOf, Stored;
    assert SumOfReturns(layout, b, 1) == SumOfReturns(layout, b, 0) + WorkerReturn(layout, b, 0);
  }

  /** Up to one worker the two atomic forms cannot differ, wrapped or not. */
  lemma OneWorkerTotals(b: Benchmark)
    requires b.workerCount <= 1
    ensures SharedReturn(b) == JoinedReturn(PerWorker, b)
  {
    hide Recorded, Stored;
    StoredFits(SharedGlobal, 0);
    AtomicsStoreAlike(|b.payloads|);
    AtomicsStoreAlike(BytesOf(b, 0));
    if b.workerCount == 1 {
      assert AllBytes(b) == WorkersSum(b, 0, INGRESS_BYTES) + BytesOf(b, 0) == BytesOf(b, 0);
      assert SumOfReturns(PerWorker, b, 1) == WorkerReturn(PerWorker, b, 0);
    }
  }

  /** One worker: all forms saturate together, and agree although the closed form does not fit. */
  lemma FormsCanSaturateTogether()
    ensures var b := Benchmark(1, [U64_MAX]);
            SharedReturn(b) == JoinedReturn(PerWorker, b) == JoinedReturn(ThreadLocal, b) == U64_MAX < GrandTotal(b)
  {
    var b := Benchmark(1, [U64_MAX]);
    OneWorkerTotals(b);
    assert BytesOf(b, 0) == Recorded(b, 0, 0, INGRESS_BYTES) + U64_MAX == U64_MAX;
    hide BytesOf, SharedReturn, JoinedReturn;
    assert WorkerReturn(PerWorker, b, 0) == WorkerReturn(ThreadLocal, b, 0) == U64_MAX;
    SumOfOneReturn(PerWorker, b);
    SumOfOneReturn(ThreadLocal, b);
    hide WorkerReturn;
    assert PayloadSum(b.payloads, 1) == PayloadSum(b.payloads, 0) + U64_MAX;
    hide PayloadSum;
    GrandTotalParts(b);
  }

  /** One worker whose bytes wrap: the thread-local form parts from the atomic ones. */
  lemma ThreadLocalCanDiffer()
    ensures var b := Benchmark(1, [U64_MAX, 1]);
            SharedReturn(b) == JoinedReturn(PerWorker, b) == 6 && JoinedReturn(ThreadLocal, b) == U64_MAX
  {
    var b := Benchmark(1, [U64_MAX, 1]);
    OneWorkerTotals(b);
    assert BytesOf(b, 0) == Recorded(b, 0, 1, INGRESS_BYTES) + 1;
    assert Recorded(b, 0, 1, INGRESS_BYTES) == Recorded(b, 0, 0, INGRESS_BYTES) + U64_MAX;
    assert BytesOf(b, 0) == U64_MODULUS;
    hide BytesOf, SharedReturn, Recorded, SumOfReturns, JoinedReturn;
    assert WorkerReturn(PerWorker, b, 0) == 6;
    assert WorkerReturn(ThreadLocal, b, 0) == U64_MAX;
    SumOfOneReturn(PerWorker, b);
    SumOfOneReturn(ThreadLocal, b);
  }

  /** Two workers whose totals fit, but not their sum: the shared form saturates, the joined ones wrap. */
  lemma SharedCanDiffer()
    ensures var b := Benchmark(2, [5_000_000_000_000_000_000]);
            SharedReturn(b) == U64_MAX && JoinedReturn(PerWorker, b) == JoinedReturn(ThreadLocal, b) < U64_MAX
  {
    var b := Benchmark(2, [5_000_000_000_000_000_000]);
    assert BytesOf(b, 0) == Recorded(b, 0, 0, INGRESS_BYTES) + 5_000_000_000_000_000_000;
    assert BytesOf(b, 1) == Recorded(b, 1, 0, INGRESS_BYTES) + 5_000_000_000_000_000_001;
    hide Recorded;
    assert WorkersSum(b, 1, INGRESS_BYTES) == WorkersSum(b, 0, INGRESS_BYTES) + BytesOf(b, 0);
    assert AllBytes(b) == WorkersSum(b, 1, INGRESS_BYTES) + BytesOf(b, 1);
    hide WorkersSum;
    assert ExactTotal(b) == 30_000_000_000_000_000_009;
    TotalsAgree(b);
  }

  lemma WrapOnce(n: nat)
    requires n <= U64_MAX
    ensures (U64_MODULUS + n) % U64_MODULUS == n
  {
  }

  lemma OneOfFourLoses(b: Benchmark, w: nat)
    requires b == Benchmark(4, [0x8000_0000_0000_0000, 0x9555_5555_5555_5550]) && w < 4
    ensures !LosesNothing(b, w) && LostThird(b, w) == CAP_THIRD - (0x1555_5555_5555_5552 + 2 * w)
  {
    assert BytesOf(b, w) == Recorded(b, w, 1, INGRESS_BYTES) + 0x9555_5555_5555_5550 + w;
    assert Recorded(b, w, 1, INGRESS_BYTES) == Recorded(b, w, 0, INGRESS_BYTES) + 0x8000_0000_0000_0000 + w;
    assert BytesOf(b, w) == U64_MODULUS + (0x1555_5555_5555_5550 + 2 * w);
    hide BytesOf, Recorded;
    WrapOnce(0x1555_5555_5555_5550 + 2 * w);
    assert |b.payloads| % U64_MODULUS == 2;
  }

  /** The bound of three is sharp: four threads can each lose a little, 2^64 thirds in all. */
  lemma FourThreadsCanLoseAndAgree()
    ensures var b := Benchmark(4, [0x8000_0000_0000_0000, 0x9555_5555_5555_5550]);
            && (forall w | 0 <= w < 4 :: !LosesNothing(b, w))
            && JoinedReturn(ThreadLocal, b) == JoinedReturn(PerWorker, b)
  {
    var b := Benchmark(4, [0x8000_0000_0000_0000, 0x9555_5555_5555_5550]);
    hide JoinedReturn, LostThird, LosesNothing, BytesOf;
    forall w | 0 <= w < 4
      ensures !LosesNothing(b, w) && LostThird(b, w) == CAP_THIRD - (0x1555_5555_5555_5552 + 2 * w)
    {
      OneOfFourLoses(b, w);
    }
    assert SumOfLostThirds(b, 1) == SumOfLostThirds(b, 0) + LostThird(b, 0);
    assert SumOfLostThirds(b, 2) == SumOfLostThirds(b, 1) + LostThird(b, 1);
    assert SumOfLostThirds(b, 3) == SumOfLostThirds(b, 2) + LostThird(b, 2);
    assert SumOfLostThirds(b, 4) == SumOfLostThirds(b, 3) + LostThird(b, 3);
    hide SumOfLostThirds;
    ThreadLocalAgainstPerWorker(b);
  }
}
