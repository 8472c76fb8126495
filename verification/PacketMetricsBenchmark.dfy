/** The metrics benchmark's own payloads, and up to which number of workers its three forms return the closed
    form and agree. Models the constructor of src/packet_metrics.rs. */
module PacketMetricsBenchmark {
  import opened Machine
  import opened PacketMetrics
  import opened PacketMetricsTotals
  import opened PacketMetricsAgreement

  const OPERATIONS_PER_WORKER: nat := 262_144
  const PAYLOAD_CYCLE: nat := 1_229

  /** The largest number of workers whose closed form fits in a u64. */
  const FITTING_WORKERS: nat := 6_848_483

  /** Up to so many workers no shared counter wraps. */
  const UNWRAPPED_WORKERS: nat := 11_862_498

  function PayloadBytes(index: nat): nat {
    SatAdd(172, index % PAYLOAD_CYCLE)
  }

  function BenchmarkPayloads(): (payloads: seq<nat>)
    ensures |payloads| == OPERATIONS_PER_WORKER
  {
    seq(OPERATIONS_PER_WORKER, i requires 0 <= i < OPERATIONS_PER_WORKER => PayloadBytes(i))
  }

  method NewFixture(workerCount: nat) returns (b: Benchmark)
    ensures b == Benchmark(workerCount, BenchmarkPayloads())
    ensures |b.payloads| == 262_144 && forall i | 0 <= i < 262_144 :: b.payloads[i] == 172 + i % 1_229
  {
    var payloads := [];
    for index := 0 to OPERATIONS_PER_WORKER
      invariant |payloads| == index
      invariant forall i | 0 <= i < index :: payloads[i] == PayloadBytes(i)
    {
      payloads := payloads + [PayloadBytes(index)];
    }
    b := Benchmark(workerCount, payloads);
  }

  // ----- the sum of the payloads

  /** Twice the sum of the first `n` remainders: full cycles, and the part of one. */
  function TwiceRemainders(n: nat): int {
    var q, r := n / PAYLOAD_CYCLE, n % PAYLOAD_CYCLE;
    q * (PAYLOAD_CYCLE * (PAYLOAD_CYCLE - 1)) + r * (r - 1)
  }

  lemma OneMoreRemainder(n: nat)
    ensures TwiceRemainders(n + 1) == TwiceRemainders(n) + 2 * (n % PAYLOAD_CYCLE)
  {
    var q, r := n / PAYLOAD_CYCLE, n % PAYLOAD_CYCLE;
    assert n + 1 == q * PAYLOAD_CYCLE + (r + 1);
    if r + 1 == PAYLOAD_CYCLE {
      assert (n + 1) / PAYLOAD_CYCLE == q + 1 && (n + 1) % PAYLOAD_CYCLE == 0;
    } else {
      assert (n + 1) / PAYLOAD_CYCLE == q && (n + 1) % PAYLOAD_CYCLE == r + 1;
      assert (r + 1) * r == r * (r - 1) + 2 * r;
    }
  }

  lemma NoRemaindersYet()
    ensures TwiceRemainders(0) == 0
  {
  }

  lemma {:induction false} PayloadsSumUp(n: nat)
    requires n <= OPERATIONS_PER_WORKER
    ensures 2 * PayloadSum(BenchmarkPayloads(), n) == 344 * n + TwiceRemainders(n)
  {
    hide TwiceRemainders;
    if n == 0 {
      NoRemaindersYet();
    } else {
      PayloadsSumUp(n - 1);
      OneMoreRemainder(n - 1);
      assert BenchmarkPayloads()[n - 1] == 172 + (n - 1) % PAYLOAD_CYCLE;
    }
  }

  lemma BenchmarkPayloadSum()
    ensures PayloadSum(BenchmarkPayloads(), OPERATIONS_PER_WORKER) == 205_887_007
  {
    hide PayloadSum, BenchmarkPayloads;
    PayloadsSumUp(OPERATIONS_PER_WORKER);
  }

  // ----- totals by the number of workers

  lemma TriangleGrows(n: nat, m: nat)
    requires n <= m
    ensures Triangle(n) <= Triangle(m)
  {
    if n == m {
    } else {
      TriangleGrows(n, m - 1);
    }
  }

  lemma TotalByWorkers(workers: nat)
    ensures GrandTotal(Benchmark(workers, BenchmarkPayloads()))
         == 3 * (206_149_151 * workers + 262_144 * Triangle(workers))
  {
    hide PayloadSum, BenchmarkPayloads, GrandTotal, Triangle;
    BenchmarkPayloadSum();
    GrandTotalParts(Benchmark(workers, BenchmarkPayloads()));
  }

  /** The benchmark's closed form fits in a u64 exactly for up to 6,848,483 workers. */
  lemma ClosedFormFits(workers: nat)
    ensures GrandTotal(Benchmark(workers, BenchmarkPayloads())) <= U64_MAX <==> workers <= FITTING_WORKERS
  {
    TotalByWorkers(workers);
    TriangleClosed(FITTING_WORKERS);
    TriangleClosed(FITTING_WORKERS + 1);
    hide Triangle, GrandTotal;
    if workers <= FITTING_WORKERS {
      TriangleGrows(workers, FITTING_WORKERS);
    } else {
      TriangleGrows(FITTING_WORKERS + 1, workers);
    }
  }

  /** Every form returns the benchmark's closed form, in every schedule, exactly for up to 6,848,483 workers. */
  lemma BenchmarkTotals(workers: nat, shared: seq<nat>, perWorker: seq<nat>, threadLocal: seq<nat>)
    requires var b := Benchmark(workers, BenchmarkPayloads());
             && Run(b, SharedGlobal, shared).Some? && Finished(b, Run(b, SharedGlobal, shared).value)
             && Run(b, PerWorker, perWorker).Some? && Finished(b, Run(b, PerWorker, perWorker).value)
             && Run(b, ThreadLocal, threadLocal).Some? && Finished(b, Run(b, ThreadLocal, threadLocal).value)
    ensures var b := Benchmark(workers, BenchmarkPayloads());
            var fits := workers <= FITTING_WORKERS;
            && (Total(Run(b, SharedGlobal, shared).value.cells[0]) == GrandTotal(b) <==> fits)
            && (WrappedSum(Run(b, PerWorker, perWorker).value.cells) == GrandTotal(b) <==> fits)
            && (WrappedSum(Run(b, ThreadLocal, threadLocal).value.cells) == GrandTotal(b) <==> fits)
    ensures workers <= FITTING_WORKERS ==>
              var total := 3 * (206_149_151 * workers + 131_072 * (workers * (workers - 1)));
              && Total(Run(Benchmark(workers, BenchmarkPayloads()), SharedGlobal, shared).value.cells[0]) == total
              && WrappedSum(Run(Benchmark(workers, BenchmarkPayloads()), PerWorker, perWorker).value.cells) == total
              && WrappedSum(Run(Benchmark(workers, BenchmarkPayloads()), ThreadLocal, threadLocal).value.cells) == total
  {
    hide BenchmarkPayloads, GrandTotal, Run, Finished, Total, WrappedSum, SharedReturn, JoinedReturn;
    var b := Benchmark(workers, BenchmarkPayloads());
    ClosedFormFits(workers);
    TotalByWorkers(workers);
    TriangleClosed(workers);
    SharedTotal(b, shared);
    PerWorkerTotal(b, perWorker);
    ThreadLocalTotal(b, threadLocal);
  }

  lemma BenchmarkPayloadsFit(workers: nat)
    requires workers <= UNWRAPPED_WORKERS
    ensures PayloadsFit(Benchmark(workers, BenchmarkPayloads()), workers)
  {
  }

  lemma SharedBytes(workers: nat)
    requires workers <= UNWRAPPED_WORKERS
    ensures AllBytes(Benchmark(workers, BenchmarkPayloads())) == 205_887_007 * workers + 262_144 * Triangle(workers)
  {
    hide PayloadSum, BenchmarkPayloads, Triangle, WorkersSum, PayloadsFit;
    BenchmarkPayloadSum();
    BenchmarkPayloadsFit(workers);
    WorkersSumClosed(Benchmark(workers, BenchmarkPayloads()), workers, INGRESS_BYTES);
  }

  /** Up to 11,862,498 workers no shared counter wraps. */
  lemma BenchmarkDoesNotWrap(workers: nat)
    requires workers <= UNWRAPPED_WORKERS
    ensures NoSharedCounterWraps(Benchmark(workers, BenchmarkPayloads()))
  {
    SharedBytes(workers);
    TriangleClosed(UNWRAPPED_WORKERS);
    TriangleGrows(workers, UNWRAPPED_WORKERS);
    hide Triangle, AllBytes;
    assert workers * OPERATIONS_PER_WORKER <= UNWRAPPED_WORKERS * OPERATIONS_PER_WORKER;
  }

  /** While no shared counter can wrap, the joined forms of the benchmark agree, and the shared form agrees with
      them exactly for up to 6,848,483 workers. */
  lemma BenchmarkFormsAgree(workers: nat)
    requires workers <= UNWRAPPED_WORKERS
    ensures var b := Benchmark(workers, BenchmarkPayloads());
            && JoinedReturn(ThreadLocal, b) == JoinedReturn(PerWorker, b)
            && (SharedReturn(b) == JoinedReturn(PerWorker, b) <==> workers <= FITTING_WORKERS)
  {
    hide JoinedReturn, SharedReturn, GrandTotal, ExactTotal, NoSharedCounterWraps, PayloadsFit, SumOfKept;
    var b := Benchmark(workers, BenchmarkPayloads());
    assert workers * |b.payloads| <= UNWRAPPED_WORKERS * OPERATIONS_PER_WORKER <= CAP_THIRD;
    hide BenchmarkPayloads;
    BenchmarkDoesNotWrap(workers);
    AgreementWithoutWrapping(b);
    BenchmarkPayloadsFit(workers);
    ExactIsGrandTotal(b);
    ClosedFormFits(workers);
  }
}
