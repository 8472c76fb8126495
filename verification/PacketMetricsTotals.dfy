/** What the three metric forms return: each in closed form for every input and every schedule.
    Models src/packet_metrics.rs. */
module PacketMetricsTotals {
  import opened Machine
  import opened PacketMetrics

  // ----- totals of counters

  /** The saturating sum the three `total` functions return. */
  function Total(c: Counters): nat {
    SatAdd(SatAdd(SatAdd(SatAdd(SatAdd(c[0], c[1]), c[2]), c[3]), c[4]), c[5])
  }

  function SumOfTotals(cells: seq<Counters>, n: nat): nat
    requires n <= |cells|
  {
    if n == 0 then 0 else SumOfTotals(cells, n - 1) + Total(cells[n - 1])
  }

  /** The iterator sum, which wraps in a release build. */
  function WrappedSum(cells: seq<Counters>): nat {
    SumOfTotals(cells, |cells|) % U64_MODULUS
  }

  ghost predicate Alternates(c: Counters, packets: nat, bytes: nat) {
    forall k | 0 <= k < COUNTERS :: c[k] == if k % 2 == 0 then packets else bytes
  }

  lemma TotalOfAlternating(c: Counters, packets: nat, bytes: nat)
    requires Alternates(c, packets, bytes)
    ensures Total(c) == Capped(3 * (packets + bytes))
  {
    assert c[0] == c[2] == c[4] == packets && c[1] == c[3] == c[5] == bytes;
  }

  // ----- exact sums by parity

  /** The payload bytes of one worker, each payload's sum with the worker number capped. */
  function BytesOf(b: Benchmark, worker: nat): nat {
    Recorded(b, worker, |b.payloads|, INGRESS_BYTES)
  }

  function AllBytes(b: Benchmark): nat {
    WorkersSum(b, b.workerCount, INGRESS_BYTES)
  }

  lemma {:induction false} RecordedByParity(b: Benchmark, worker: nat, n: nat, k: nat)
    requires n <= |b.payloads|
    ensures Recorded(b, worker, n, k) == if k % 2 == 0 then n else Recorded(b, worker, n, INGRESS_BYTES)
  {
    if n == 0 {
    } else {
      RecordedByParity(b, worker, n - 1, k);
    }
  }

  lemma {:induction false} WorkersSumByParity(b: Benchmark, n: nat, k: nat)
    ensures WorkersSum(b, n, k) == if k % 2 == 0 then n * |b.payloads| else WorkersSum(b, n, INGRESS_BYTES)
  {
    hide Recorded;
    if n == 0 {
    } else {
      WorkersSumByParity(b, n - 1, k);
      RecordedByParity(b, n - 1, |b.payloads|, k);
      MulStep(n, |b.payloads|);
    }
  }

  // ----- products

  lemma MulGrows(n: nat, m: nat, x: nat)
    requires m <= n
    ensures m * x <= n * x
  {
  }

  lemma MulAdd(x: nat, a: nat, b: nat)
    ensures x * (a + b) == x * a + x * b
  {
  }

  // ----- what each form returns, for every input

  lemma StoredFits(layout: Layout, n: nat)
    requires n <= U64_MAX
    ensures Stored(layout, n) == n
  {
  }

  lemma AtomicsStoreAlike(n: nat)
    ensures Stored(SharedGlobal, n) == Stored(PerWorker, n)
  {
  }

  function SharedReturn(b: Benchmark): nat {
    Capped(3 * (Stored(SharedGlobal, b.workerCount * |b.payloads|) + Stored(SharedGlobal, AllBytes(b))))
  }

  function WorkerReturn(layout: Layout, b: Benchmark, worker: nat): nat {
    Capped(3 * (Stored(layout, |b.payloads|) + Stored(layout, BytesOf(b, worker))))
  }

  function SumOfReturns(layout: Layout, b: Benchmark, n: nat): nat {
    if n == 0 then 0 else SumOfReturns(layout, b, n - 1) + WorkerReturn(layout, b, n - 1)
  }

  function JoinedReturn(layout: Layout, b: Benchmark): nat {
    SumOfReturns(layout, b, b.workerCount) % U64_MODULUS
  }

  lemma SharedReturns(b: Benchmark, schedule: seq<nat>)
    requires Run(b, SharedGlobal, schedule).Some? && Finished(b, Run(b, SharedGlobal, schedule).value)
    ensures Total(Run(b, SharedGlobal, schedule).value.cells[0]) == SharedReturn(b)
  {
    hide Run, WorkersSum, Total, Stored;
    var c := Run(b, SharedGlobal, schedule).value.cells[0];
    var packets, bytes := Stored(SharedGlobal, b.workerCount * |b.payloads|), Stored(SharedGlobal, AllBytes(b));
    forall k | 0 <= k < COUNTERS ensures c[k] == if k % 2 == 0 then packets else bytes {
      FinishedCells(b, SharedGlobal, schedule, 0, k);
      WorkersSumByParity(b, b.workerCount, k);
    }
    TotalOfAlternating(c, packets, bytes);
  }

  lemma {:induction false} SumsOfTotals(layout: Layout, b: Benchmark, cells: seq<Counters>, n: nat)
    requires n <= |cells| && forall w | 0 <= w < |cells| :: Total(cells[w]) == WorkerReturn(layout, b, w)
    ensures SumOfTotals(cells, n) == SumOfReturns(layout, b, n)
  {
    hide Total, WorkerReturn;
    if n == 0 {
    } else {
      SumsOfTotals(layout, b, cells, n - 1);
    }
  }

  /** One worker's counters: each holds the worker's exact sum, wrapped or capped. */
  ghost predicate HasStored(layout: Layout, b: Benchmark, worker: nat, n: nat, c: Counters)
    requires n <= |b.payloads|
  {
    forall k | 0 <= k < COUNTERS :: c[k] == Stored(layout, Recorded(b, worker, n, k))
  }

  lemma TotalOfWorker(layout: Layout, b: Benchmark, worker: nat, c: Counters)
    requires HasStored(layout, b, worker, |b.payloads|, c)
    ensures Total(c) == WorkerReturn(layout, b, worker)
  {
    hide Recorded, Total, Stored;
    forall k | 0 <= k < COUNTERS
      ensures c[k] == if k % 2 == 0 then Stored(layout, |b.payloads|) else Stored(layout, BytesOf(b, worker))
    {
      RecordedByParity(b, worker, |b.payloads|, k);
    }
    TotalOfAlternating(c, Stored(layout, |b.payloads|), Stored(layout, BytesOf(b, worker)));
  }

  lemma JoinedReturns(layout: Layout, b: Benchmark, schedule: seq<nat>)
    requires layout != SharedGlobal && Run(b, layout, schedule).Some? && Finished(b, Run(b, layout, schedule).value)
    ensures WrappedSum(Run(b, layout, schedule).value.cells) == JoinedReturn(layout, b)
  {
    hide Run, Recorded, Total, Stored, WorkerReturn, SumOfReturns, SumOfTotals;
    var cells := Run(b, layout, schedule).value.cells;
    forall w | 0 <= w < |cells| ensures Total(cells[w]) == WorkerReturn(layout, b, w) {
      forall k | 0 <= k < COUNTERS ensures cells[w][k] == Stored(layout, Recorded(b, w, |b.payloads|, k)) {
        FinishedCells(b, layout, schedule, w, k);
      }
      TotalOfWorker(layout, b, w, cells[w]);
    }
    SumsOfTotals(layout, b, cells, b.workerCount);
  }

  // ----- the closed form of the benchmark

  function PayloadSum(payloads: seq<nat>, n: nat): nat
    requires n <= |payloads|
  {
    if n == 0 then 0 else PayloadSum(payloads, n - 1) + payloads[n - 1]
  }

  function Triangle(n: nat): nat {
    if n == 0 then 0 else Triangle(n - 1) + (n - 1)
  }

  lemma {:induction false} TriangleClosed(n: nat)
    ensures 2 * Triangle(n) == n * (n - 1)
  {
    if n == 0 {
    } else {
      TriangleClosed(n - 1);
    }
  }

  /** 3 * (W*N + W*S + N*W*(W-1)/2) for W workers over N payloads summing to S. */
  function GrandTotal(b: Benchmark): nat {
    var w, n, s := b.workerCount, |b.payloads|, PayloadSum(b.payloads, |b.payloads|);
    TriangleClosed(w);
    3 * (w * n + (w * s + n * (w * (w - 1) / 2)))
  }

  lemma GrandTotalParts(b: Benchmark)
    ensures GrandTotal(b) == 3 * (b.workerCount * |b.payloads|
                                  + (b.workerCount * PayloadSum(b.payloads, |b.payloads|)
                                     + |b.payloads| * Triangle(b.workerCount)))
  {
    TriangleClosed(b.workerCount);
    assert b.workerCount * (b.workerCount - 1) / 2 == Triangle(b.workerCount);
  }

  lemma {:induction false} PayloadIsInSum(payloads: seq<nat>, n: nat, i: nat)
    requires i < n <= |payloads|
    ensures payloads[i] <= PayloadSum(payloads, n)
  {
    if i == n - 1 {
    } else {
      PayloadIsInSum(payloads, n - 1, i);
    }
  }

  lemma ShareFits(a: nat, a': nat, b: nat, b': nat, c: nat, c': nat)
    requires a <= a' && b <= b' && c <= c'
    requires 3 * (a' + (b' + c')) <= U64_MAX
    ensures 3 * (a + (b + c)) <= U64_MAX
  {
  }

  /** One worker's share of the grand total is no larger than all of it. */
  lemma WorkerShareFits(b: Benchmark, worker: nat)
    requires GrandTotal(b) <= U64_MAX && worker < b.workerCount
    ensures 3 * (|b.payloads| + (PayloadSum(b.payloads, |b.payloads|) + |b.payloads| * worker)) <= U64_MAX
  {
    assert Triangle(b.workerCount) >= worker;
    hide GrandTotal, PayloadSum, Triangle;
    GrandTotalParts(b);
    var w, len, s := b.workerCount, |b.payloads|, PayloadSum(b.payloads, |b.payloads|);
    MulGrows(w, 1, len);
    MulGrows(w, 1, s);
    MulGrows(Triangle(w), worker, len);
    ShareFits(len, w * len, s, w * s, len * worker, len * Triangle(w));
  }

  /** No payload saturates when one of the first `n` worker numbers is added to it. */
  ghost predicate PayloadsFit(b: Benchmark, n: nat) {
    n > 0 ==> forall i | 0 <= i < |b.payloads| :: b.payloads[i] + (n - 1) <= U64_MAX
  }

  lemma {:induction false} RecordedClosed(b: Benchmark, worker: nat, n: nat, k: nat)
    requires PayloadsFit(b, worker + 1) && n <= |b.payloads|
    ensures Recorded(b, worker, n, k) == if k % 2 == 0 then n else PayloadSum(b.payloads, n) + n * worker
  {
    if n == 0 {
    } else {
      RecordedClosed(b, worker, n - 1, k);
      assert b.payloads[n - 1] + worker <= U64_MAX;
      MulStep(n, worker);
    }
  }

  lemma {:induction false} WorkersSumClosed(b: Benchmark, n: nat, k: nat)
    requires PayloadsFit(b, n)
    ensures WorkersSum(b, n, k) ==
            if k % 2 == 0 then n * |b.payloads|
            else n * PayloadSum(b.payloads, |b.payloads|) + |b.payloads| * Triangle(n)
  {
    hide PayloadSum, Recorded;
    if n == 0 {
    } else {
      WorkersSumClosed(b, n - 1, k);
      RecordedClosed(b, n - 1, |b.payloads|, k);
      MulStep(n, |b.payloads|);
      MulStep(n, PayloadSum(b.payloads, |b.payloads|));
      MulAdd(|b.payloads|, Triangle(n - 1), n - 1);
    }
  }

  /** No payload saturates when the grand total fits. */
  lemma FittingPayloads(b: Benchmark)
    requires GrandTotal(b) <= U64_MAX
    ensures PayloadsFit(b, b.workerCount)
  {
    if b.workerCount > 0 {
      hide GrandTotal, PayloadSum;
      WorkerShareFits(b, b.workerCount - 1);
      forall i | 0 <= i < |b.payloads| ensures b.payloads[i] + (b.workerCount - 1) <= U64_MAX {
        PayloadIsInSum(b.payloads, |b.payloads|, i);
        MulGrows(|b.payloads|, 1, b.workerCount - 1);
      }
    }
  }

  // ----- exact totals

  /** No shared counter wraps and no worker's total saturates. */
  ghost predicate NothingOverflows(b: Benchmark) {
    && b.workerCount * |b.payloads| <= U64_MAX
    && AllBytes(b) <= U64_MAX
    && forall w | 0 <= w < b.workerCount :: 3 * (|b.payloads| + BytesOf(b, w)) <= U64_MAX
  }

  /** The total of all additions, counted without bound. */
  function ExactTotal(b: Benchmark): nat {
    MulGrows(b.workerCount, 0, |b.payloads|);
    3 * (b.workerCount * |b.payloads| + AllBytes(b))
  }

  lemma ExactWorkerReturn(layout: Layout, b: Benchmark, worker: nat)
    requires 3 * (|b.payloads| + BytesOf(b, worker)) <= U64_MAX
    ensures WorkerReturn(layout, b, worker) == 3 * (|b.payloads| + BytesOf(b, worker))
  {
    hide BytesOf, Stored;
    StoredFits(layout, |b.payloads|);
    StoredFits(layout, BytesOf(b, worker));
  }

  lemma OneMoreExactReturn(packets: int, bytes: int, p: int, q: int)
    ensures 3 * (packets + bytes) + 3 * (p + q) == 3 * ((packets + p) + (bytes + q))
  {
  }

  lemma {:induction false} SumOfExactReturns(layout: Layout, b: Benchmark, n: nat)
    requires n <= b.workerCount && forall w | 0 <= w < b.workerCount :: 3 * (|b.payloads| + BytesOf(b, w)) <= U64_MAX
    ensures SumOfReturns(layout, b, n) == 3 * (n * |b.payloads| + WorkersSum(b, n, INGRESS_BYTES))
  {
    hide WorkerReturn, Recorded;
    if n == 0 {
    } else {
      SumOfExactReturns(layout, b, n - 1);
      ExactWorkerReturn(layout, b, n - 1);
      MulStep(n, |b.payloads|);
      OneMoreExactReturn((n - 1) * |b.payloads|, WorkersSum(b, n - 1, INGRESS_BYTES), |b.payloads|, BytesOf(b, n - 1));
    }
  }

  lemma SharedIsCapped(b: Benchmark)
    requires b.workerCount * |b.payloads| <= U64_MAX && AllBytes(b) <= U64_MAX
    ensures SharedReturn(b) == Capped(ExactTotal(b))
  {
    hide AllBytes, Stored, Capped;
    MulGrows(b.workerCount, 0, |b.payloads|);
    StoredFits(SharedGlobal, b.workerCount * |b.payloads|);
    StoredFits(SharedGlobal, AllBytes(b));
  }

  lemma JoinedIsWrapped(layout: Layout, b: Benchmark)
    requires NothingOverflows(b)
    ensures JoinedReturn(layout, b) == ExactTotal(b) % U64_MODULUS
  {
    hide WorkersSum, BytesOf, SumOfReturns;
    SumOfExactReturns(layout, b, b.workerCount);
  }

  lemma CappedAgainstWrapped(n: nat)
    ensures Capped(n) == n % U64_MODULUS <==> n <= U64_MAX || n % U64_MODULUS == U64_MAX
  {
  }

  /** Then the forms that join workers return the exact total wrapped and the shared form returns it capped:
      they agree exactly when it fits in a u64, or wraps to the cap. */
  lemma TotalsAgree(b: Benchmark)
    requires NothingOverflows(b)
    ensures SharedReturn(b) == Capped(ExactTotal(b))
    ensures JoinedReturn(PerWorker, b) == JoinedReturn(ThreadLocal, b) == ExactTotal(b) % U64_MODULUS
    ensures SharedReturn(b) == JoinedReturn(PerWorker, b)
       <==> ExactTotal(b) <= U64_MAX || ExactTotal(b) % U64_MODULUS == U64_MAX
  {
    SharedIsCapped(b);
    hide *;
    JoinedIsWrapped(PerWorker, b);
    JoinedIsWrapped(ThreadLocal, b);
    CappedAgainstWrapped(ExactTotal(b));
  }

  // ----- the closed form, when it fits

  /** While no payload saturates, the closed form is the exact total, whether it fits or not. */
  lemma ExactIsGrandTotal(b: Benchmark)
    requires PayloadsFit(b, b.workerCount)
    ensures ExactTotal(b) == GrandTotal(b)
  {
    hide GrandTotal, PayloadSum, Triangle, WorkersSum, PayloadsFit;
    GrandTotalParts(b);
    WorkersSumClosed(b, b.workerCount, INGRESS_BYTES);
  }

  /** When the closed form fits in a u64 nothing overflows anywhere, and it is the exact total. */
  lemma FittingMeansExact(b: Benchmark)
    requires GrandTotal(b) <= U64_MAX
    ensures NothingOverflows(b) && ExactTotal(b) == GrandTotal(b)
  {
    FittingPayloads(b);
    ExactIsGrandTotal(b);
    hide GrandTotal, PayloadSum, Recorded, WorkersSum;
    MulGrows(b.workerCount, 0, |b.payloads|);
    forall w | 0 <= w < b.workerCount ensures 3 * (|b.payloads| + BytesOf(b, w)) <= U64_MAX {
      RecordedClosed(b, w, |b.payloads|, INGRESS_BYTES);
      WorkerShareFits(b, w);
    }
  }

  lemma ReturnsGrandTotal(b: Benchmark)
    ensures SharedReturn(b) == GrandTotal(b) <==> GrandTotal(b) <= U64_MAX
    ensures JoinedReturn(PerWorker, b) == GrandTotal(b) <==> GrandTotal(b) <= U64_MAX
    ensures JoinedReturn(ThreadLocal, b) == GrandTotal(b) <==> GrandTotal(b) <= U64_MAX
  {
    hide GrandTotal, ExactTotal, NothingOverflows, SumOfReturns, Stored, AllBytes;
    if GrandTotal(b) <= U64_MAX {
      FittingMeansExact(b);
      TotalsAgree(b);
    }
  }

  // ----- the three forms, in every finished schedule

  lemma SharedTotal(b: Benchmark, schedule: seq<nat>)
    requires Run(b, SharedGlobal, schedule).Some? && Finished(b, Run(b, SharedGlobal, schedule).value)
    ensures var total := Total(Run(b, SharedGlobal, schedule).value.cells[0]);
            total == SharedReturn(b) && (total == GrandTotal(b) <==> GrandTotal(b) <= U64_MAX)
  {
    hide Run, GrandTotal, SharedReturn, Total;
    SharedReturns(b, schedule);
    ReturnsGrandTotal(b);
  }

  lemma PerWorkerTotal(b: Benchmark, schedule: seq<nat>)
    requires Run(b, PerWorker, schedule).Some? && Finished(b, Run(b, PerWorker, schedule).value)
    ensures var total := WrappedSum(Run(b, PerWorker, schedule).value.cells);
            total == JoinedReturn(PerWorker, b) && (total == GrandTotal(b) <==> GrandTotal(b) <= U64_MAX)
  {
    hide Run, GrandTotal, JoinedReturn, WrappedSum;
    JoinedReturns(PerWorker, b, schedule);
    ReturnsGrandTotal(b);
  }

  lemma ThreadLocalTotal(b: Benchmark, schedule: seq<nat>)
    requires Run(b, ThreadLocal, schedule).Some? && Finished(b, Run(b, ThreadLocal, schedule).value)
    ensures var total := WrappedSum(Run(b, ThreadLocal, schedule).value.cells);
            total == JoinedReturn(ThreadLocal, b) && (total == GrandTotal(b) <==> GrandTotal(b) <= U64_MAX)
  {
    hide Run, GrandTotal, JoinedReturn, WrappedSum;
    JoinedReturns(ThreadLocal, b, schedule);
    ReturnsGrandTotal(b);
  }

  // ----- the thread-local form as code: plain saturating fields, summed after the threads join

  class LocalCounters {
    var ingressPackets: nat
    var ingressPayloadBytes: nat
    var egressPackets: nat
    var egressPayloadBytes: nat
    var forwardedPackets: nat
    var forwardedPayloadBytes: nat

    function Contents(): Counters
      reads this
    {
      var c := [ingressPackets, ingressPayloadBytes, egressPackets, egressPayloadBytes,
                forwardedPackets, forwardedPayloadBytes];
      assert |c| == COUNTERS;
      c
    }

    constructor ()
      ensures Contents() == ZEROES
    {
      ingressPackets, ingressPayloadBytes := 0, 0;
      egressPackets, egressPayloadBytes := 0, 0;
      forwardedPackets, forwardedPayloadBytes := 0, 0;
    }

    method Record(payloadBytes: nat)
      modifies this
      ensures forall k | 0 <= k < COUNTERS ::
                Contents()[k] == SatAdd(old(Contents())[k], if k % 2 == 0 then 1 else payloadBytes)
    {
      ingressPackets := SatAdd(ingressPackets, 1);
      ingressPayloadBytes := SatAdd(ingressPayloadBytes, payloadBytes);
      egressPackets := SatAdd(egressPackets, 1);
      egressPayloadBytes := SatAdd(egressPayloadBytes, payloadBytes);
      forwardedPackets := SatAdd(forwardedPackets, 1);
      forwardedPayloadBytes := SatAdd(forwardedPayloadBytes, payloadBytes);
    }
  }

  lemma NothingRecorded(b: Benchmark, worker: nat)
    ensures HasStored(ThreadLocal, b, worker, 0, ZEROES)
  {
  }

  lemma RecordsOneMore(b: Benchmark, worker: nat, n: nat, c: Counters, c': Counters)
    requires n < |b.payloads| && HasStored(ThreadLocal, b, worker, n, c)
    requires forall k | 0 <= k < COUNTERS ::
               c'[k] == SatAdd(c[k], if k % 2 == 0 then 1 else SatAdd(b.payloads[n], worker))
    ensures HasStored(ThreadLocal, b, worker, n + 1, c')
  {
    forall k | 0 <= k < COUNTERS ensures c'[k] == Stored(ThreadLocal, Recorded(b, worker, n + 1, k)) {
      assert c[k] == Stored(ThreadLocal, Recorded(b, worker, n, k));
    }
  }

  /** What a thread does between the barrier and its end. */
  method LocalWorker(b: Benchmark, worker: nat) returns (total: nat, ghost contents: Counters)
    ensures HasStored(ThreadLocal, b, worker, |b.payloads|, contents)
    ensures total == WorkerReturn(ThreadLocal, b, worker)
  {
    var counters := new LocalCounters();
    hide HasStored, LocalCounters.Contents, Capped, WorkerReturn;
    NothingRecorded(b, worker);
    for i := 0 to |b.payloads|
      invariant HasStored(ThreadLocal, b, worker, i, counters.Contents())
    {
      ghost var before := counters.Contents();
      counters.Record(SatAdd(b.payloads[i], worker));
      RecordsOneMore(b, worker, i, before, counters.Contents());
    }
    contents := counters.Contents();
    TotalOfWorker(ThreadLocal, b, worker, contents);
    total := Total(counters.Contents());
  }

  /** The thread bodies one after the other return what the threads return in every interleaving
      (`ThreadLocalTotal`). */
  method ThreadLocalAggregateCycle(b: Benchmark) returns (total: nat)
    ensures total == JoinedReturn(ThreadLocal, b)
  {
    hide WorkerReturn;
    var sum := 0;
    for worker := 0 to b.workerCount
      invariant sum == SumOfReturns(ThreadLocal, b, worker)
    {
      var workerTotal, _ := LocalWorker(b, worker);
      sum := sum + workerTotal;
    }
    total := sum % U64_MODULUS;
  }
}
