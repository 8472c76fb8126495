/** Worker packet metrics: threads released by a barrier add to shared or per-worker atomic counters, or to
    counters of their own, one addition a step, under every interleaving. Models src/packet_metrics.rs. */
module PacketMetrics {
  import opened Machine

  const U64_MODULUS: nat := U64_MAX + 1

  // The six counters, in the order one record updates them.
  const INGRESS_PACKETS := 0
  const INGRESS_BYTES := 1
  const EGRESS_PACKETS := 2
  const EGRESS_BYTES := 3
  const FORWARDED_PACKETS := 4
  const FORWARDED_BYTES := 5
  const COUNTERS: nat := 6

  type Counters = c: seq<nat> | |c| == COUNTERS witness [0, 0, 0, 0, 0, 0]

  const ZEROES: Counters := [0, 0, 0, 0, 0, 0]

  datatype Benchmark = Benchmark(workerCount: nat, payloads: seq<nat>)

  /** All workers add to one set of atomic counters, each worker to its own atomic counters, or each thread
      to plain counters that saturate. */
  datatype Layout = SharedGlobal | PerWorker | ThreadLocal

  function SlotOf(layout: Layout, worker: nat): nat {
    match layout
    case SharedGlobal => 0
    case PerWorker => worker
    case ThreadLocal => worker
  }

  function SlotCount(b: Benchmark, layout: Layout): nat {
    match layout
    case SharedGlobal => 1
    case PerWorker => b.workerCount
    case ThreadLocal => b.workerCount
  }

  /** What a counter holds when the exact sum is `sum`: `fetch_add` wraps, the plain fields saturate. */
  function Stored(layout: Layout, sum: nat): nat {
    match layout
    case SharedGlobal => sum % U64_MODULUS
    case PerWorker => sum % U64_MODULUS
    case ThreadLocal => Capped(sum)
  }

  /** A worker that has not reached the barrier, waits at it, or has recorded `payload` whole payloads
      and `counter` of the six additions of the next. */
  datatype Phase = Starting | Waiting | Running(payload: nat, counter: nat)

  datatype State = State(phases: seq<Phase>, cells: seq<Counters>)

  /** What the addition to `counter` for one payload adds. */
  function Amount(b: Benchmark, worker: nat, payload: nat, counter: nat): nat
    requires payload < |b.payloads|
  {
    if counter % 2 == 0 then 1 else SatAdd(b.payloads[payload], worker)
  }

  // ----- the step system

  function Initial(b: Benchmark, layout: Layout): State {
    State(seq(b.workerCount, _ => Starting), seq(SlotCount(b, layout), _ => ZEROES))
  }

  predicate AllArrived(phases: seq<Phase>) {
    forall v | 0 <= v < |phases| :: phases[v] != Starting
  }

  predicate Enabled(b: Benchmark, s: State, worker: nat) {
    worker < |s.phases| &&
    match s.phases[worker]
    case Starting => true
    case Waiting => AllArrived(s.phases)
    case Running(payload, _) => payload < |b.payloads|
  }

  function NextPhase(phase: Phase): Phase {
    match phase
    case Starting => Waiting
    case Waiting => Running(0, 0)
    case Running(payload, counter) =>
      if counter + 1 < COUNTERS then Running(payload, counter + 1) else Running(payload + 1, 0)
  }

  function Add(layout: Layout, cells: seq<Counters>, slot: nat, counter: nat, amount: nat): seq<Counters>
    requires slot < |cells| && counter < COUNTERS
  {
    var counters := cells[slot];
    cells[slot := counters[counter := Stored(layout, counters[counter] + amount)]]
  }

  predicate PhaseOk(b: Benchmark, phase: Phase) {
    phase.Running? ==>
      && phase.payload <= |b.payloads|
      && phase.counter < COUNTERS
      && (phase.payload == |b.payloads| ==> phase.counter == 0)
  }

  predicate WellFormed(b: Benchmark, layout: Layout, s: State) {
    && |s.phases| == b.workerCount
    && |s.cells| == SlotCount(b, layout)
    && forall w | 0 <= w < |s.phases| :: PhaseOk(b, s.phases[w])
  }

  function Step(b: Benchmark, layout: Layout, s: State, worker: nat): State
    requires WellFormed(b, layout, s) && Enabled(b, s, worker)
  {
    var phase := s.phases[worker];
    State(s.phases[worker := NextPhase(phase)],
          if phase.Running?
          then Add(layout, s.cells, SlotOf(layout, worker), phase.counter,
                   Amount(b, worker, phase.payload, phase.counter))
          else s.cells)
  }

  /** The state a schedule leads to: `None` when it names a worker that cannot take a step. */
  function Run(b: Benchmark, layout: Layout, schedule: seq<nat>): (r: Option<State>)
    ensures r.Some? ==> WellFormed(b, layout, r.value)
  {
    if schedule == [] then Some(Initial(b, layout))
    else
      var before := Run(b, layout, schedule[..|schedule| - 1]);
      var worker := schedule[|schedule| - 1];
      if before.Some? && Enabled(b, before.value, worker)
      then Some(Step(b, layout, before.value, worker))
      else None
  }

  predicate Finished(b: Benchmark, s: State) {
    forall w | 0 <= w < |s.phases| :: s.phases[w] == Running(|b.payloads|, 0)
  }

  // ----- exact sums, without wrap-around

  function Recorded(b: Benchmark, worker: nat, payloads: nat, counter: nat): nat
    requires payloads <= |b.payloads|
  {
    if payloads == 0 then 0
    else Recorded(b, worker, payloads - 1, counter) + Amount(b, worker, payloads - 1, counter)
  }

  function Contribution(b: Benchmark, worker: nat, phase: Phase, counter: nat): nat
    requires PhaseOk(b, phase)
  {
    match phase
    case Running(payload, next) =>
      Recorded(b, worker, payload, counter) + (if counter < next then Amount(b, worker, payload, counter) else 0)
    case _ => 0
  }

  /** What the first `n` workers have added to one counter of one slot. */
  function CellSum(b: Benchmark, layout: Layout, phases: seq<Phase>, n: nat, slot: nat, counter: nat): nat
    requires n <= |phases| && forall w | 0 <= w < |phases| :: PhaseOk(b, phases[w])
  {
    if n == 0 then 0
    else
      CellSum(b, layout, phases, n - 1, slot, counter)
      + (if SlotOf(layout, n - 1) == slot then Contribution(b, n - 1, phases[n - 1], counter) else 0)
  }

  ghost predicate CellsAreSums(b: Benchmark, layout: Layout, s: State)
    requires WellFormed(b, layout, s)
  {
    forall slot, k | 0 <= slot < |s.cells| && 0 <= k < COUNTERS ::
      s.cells[slot][k] == Stored(layout, CellSum(b, layout, s.phases, |s.phases|, slot, k))
  }

  /** Nobody has added anything before everybody reached the barrier. */
  ghost predicate BarrierHeld(s: State) {
    (exists w | 0 <= w < |s.phases| :: s.phases[w].Running?) ==>
      forall v | 0 <= v < |s.phases| :: s.phases[v] != Starting
  }

  // ----- every reachable state

  lemma NextContribution(b: Benchmark, worker: nat, phase: Phase, counter: nat)
    requires PhaseOk(b, phase) && (phase.Running? ==> phase.payload < |b.payloads|)
    requires counter < COUNTERS
    ensures PhaseOk(b, NextPhase(phase))
    ensures Contribution(b, worker, NextPhase(phase), counter)
         == Contribution(b, worker, phase, counter)
            + (if phase.Running? && counter == phase.counter then Amount(b, worker, phase.payload, counter) else 0)
  {
  }

  lemma {:induction false} CellSumUpdate(b: Benchmark, layout: Layout, phases: seq<Phase>, n: nat, slot: nat,
                                         counter: nat, worker: nat, next: Phase)
    requires n <= |phases| && worker < |phases|
    requires forall w | 0 <= w < |phases| :: PhaseOk(b, phases[w])
    requires PhaseOk(b, next)
    ensures CellSum(b, layout, phases[worker := next], n, slot, counter)
         == CellSum(b, layout, phases, n, slot, counter)
            + (if worker < n && SlotOf(layout, worker) == slot
               then Contribution(b, worker, next, counter) - Contribution(b, worker, phases[worker], counter)
               else 0)
  {
    if n == 0 {
    } else {
      CellSumUpdate(b, layout, phases, n - 1, slot, counter, worker, next);
    }
  }

  lemma StoredAdd(layout: Layout, x: nat, amount: nat)
    ensures Stored(layout, Stored(layout, x) + amount) == Stored(layout, x + amount)
  {
  }

  lemma StepKeepsCell(b: Benchmark, layout: Layout, s: State, worker: nat, slot: nat, k: nat)
    requires WellFormed(b, layout, s) && Enabled(b, s, worker) && CellsAreSums(b, layout, s)
    requires slot < |s.cells| && k < COUNTERS
    ensures var s' := Step(b, layout, s, worker);
            s'.cells[slot][k] == Stored(layout, CellSum(b, layout, s'.phases, |s'.phases|, slot, k))
  {
    hide CellSum, Contribution, Amount, Stored;
    var phase := s.phases[worker];
    var sum := CellSum(b, layout, s.phases, |s.phases|, slot, k);
    assert s.cells[slot][k] == Stored(layout, sum);
    NextContribution(b, worker, phase, k);
    CellSumUpdate(b, layout, s.phases, |s.phases|, slot, k, worker, NextPhase(phase));
    if phase.Running? {
      StoredAdd(layout, sum, Amount(b, worker, phase.payload, phase.counter));
    }
  }

  lemma StepKeepsSums(b: Benchmark, layout: Layout, s: State, worker: nat)
    requires WellFormed(b, layout, s) && Enabled(b, s, worker) && CellsAreSums(b, layout, s)
    ensures CellsAreSums(b, layout, Step(b, layout, s, worker))
  {
    var s' := Step(b, layout, s, worker);
    forall slot, k | 0 <= slot < |s'.cells| && 0 <= k < COUNTERS
      ensures s'.cells[slot][k] == Stored(layout, CellSum(b, layout, s'.phases, |s'.phases|, slot, k))
    {
      StepKeepsCell(b, layout, s, worker, slot, k);
    }
  }

  lemma {:induction false} NothingAddedAtFirst(b: Benchmark, layout: Layout, n: nat, slot: nat, k: nat)
    requires n <= b.workerCount
    ensures CellSum(b, layout, Initial(b, layout).phases, n, slot, k) == 0
  {
    if n == 0 {
    } else {
      NothingAddedAtFirst(b, layout, n - 1, slot, k);
    }
  }

  /** In every reachable state every counter holds what the workers have added so far, wrapped or capped,
      and no worker has passed the barrier before all reached it. */
  lemma {:induction false} ReachableStates(b: Benchmark, layout: Layout, schedule: seq<nat>)
    requires Run(b, layout, schedule).Some?
    ensures CellsAreSums(b, layout, Run(b, layout, schedule).value)
    ensures BarrierHeld(Run(b, layout, schedule).value)
  {
    if schedule == [] {
      forall slot, k | 0 <= slot < SlotCount(b, layout) && 0 <= k < COUNTERS
        ensures CellSum(b, layout, Initial(b, layout).phases, b.workerCount, slot, k) == 0
      {
        NothingAddedAtFirst(b, layout, b.workerCount, slot, k);
      }
    } else {
      var before := schedule[..|schedule| - 1];
      ReachableStates(b, layout, before);
      StepKeepsSums(b, layout, Run(b, layout, before).value, schedule[|schedule| - 1]);
    }
  }

  // ----- no deadlock, and a fixed length for every complete schedule

  lemma SomeoneCanStep(b: Benchmark, layout: Layout, s: State)
    requires WellFormed(b, layout, s) && !Finished(b, s)
    ensures exists w :: Enabled(b, s, w)
  {
    if AllArrived(s.phases) {
      var w: nat :| w < |s.phases| && s.phases[w] != Running(|b.payloads|, 0);
      assert Enabled(b, s, w);
    } else {
      var w: nat :| w < |s.phases| && s.phases[w] == Starting;
      assert Enabled(b, s, w);
    }
  }

  lemma MulStep(n: nat, x: nat)
    requires n > 0
    ensures n * x == (n - 1) * x + x
  {
  }

  function StepsOf(phase: Phase): nat {
    match phase
    case Starting => 0
    case Waiting => 1
    case Running(payload, counter) => 2 + COUNTERS * payload + counter
  }

  function StepsTaken(phases: seq<Phase>, n: nat): nat
    requires n <= |phases|
  {
    if n == 0 then 0 else StepsTaken(phases, n - 1) + StepsOf(phases[n - 1])
  }

  lemma {:induction false} StepsTakenUpdate(phases: seq<Phase>, n: nat, worker: nat, next: Phase)
    requires n <= |phases| && worker < |phases|
    ensures StepsTaken(phases[worker := next], n)
         == StepsTaken(phases, n) + (if worker < n then StepsOf(next) - StepsOf(phases[worker]) else 0)
  {
    if n == 0 {
    } else {
      StepsTakenUpdate(phases, n - 1, worker, next);
    }
  }

  /** The two sides of the barrier, and six additions a payload. */
  function StepsPerWorker(b: Benchmark): nat {
    2 + COUNTERS * |b.payloads|
  }

  lemma StepsOfOneWorker(b: Benchmark, phase: Phase)
    requires PhaseOk(b, phase)
    ensures StepsOf(phase) <= StepsPerWorker(b)
    ensures phase == Running(|b.payloads|, 0) ==> StepsOf(phase) == StepsPerWorker(b)
  {
    if phase.Running? && phase.payload < |b.payloads| {
      assert COUNTERS * phase.payload + phase.counter < COUNTERS * (phase.payload + 1) <= COUNTERS * |b.payloads|;
    }
  }

  lemma {:induction false} StepsTakenAreBounded(b: Benchmark, phases: seq<Phase>, n: nat)
    requires n <= |phases| && forall w | 0 <= w < |phases| :: PhaseOk(b, phases[w])
    ensures StepsTaken(phases, n) <= n * StepsPerWorker(b)
    ensures (forall w | 0 <= w < n :: phases[w] == Running(|b.payloads|, 0)) ==>
              StepsTaken(phases, n) == n * StepsPerWorker(b)
  {
    hide StepsPerWorker, StepsOf, PhaseOk;
    if n == 0 {
    } else {
      StepsTakenAreBounded(b, phases, n - 1);
      StepsOfOneWorker(b, phases[n - 1]);
      MulStep(n, StepsPerWorker(b));
    }
  }

  lemma {:induction false} InitialSteps(b: Benchmark, layout: Layout, n: nat)
    requires n <= b.workerCount
    ensures StepsTaken(Initial(b, layout).phases, n) == 0
  {
    if n == 0 {
    } else {
      InitialSteps(b, layout, n - 1);
    }
  }

  lemma {:induction false} ScheduleIsCounted(b: Benchmark, layout: Layout, schedule: seq<nat>)
    requires Run(b, layout, schedule).Some?
    ensures StepsTaken(Run(b, layout, schedule).value.phases, b.workerCount) == |schedule|
  {
    if schedule == [] {
      InitialSteps(b, layout, b.workerCount);
    } else {
      var before := schedule[..|schedule| - 1];
      var worker := schedule[|schedule| - 1];
      ScheduleIsCounted(b, layout, before);
      var phases := Run(b, layout, before).value.phases;
      StepsTakenUpdate(phases, b.workerCount, worker, NextPhase(phases[worker]));
    }
  }

  /** A schedule never gets longer than one barrier crossing and six additions a payload for each
      worker allow, short of that it can be continued, and it finishes exactly there. */
  lemma SchedulesFinish(b: Benchmark, layout: Layout, schedule: seq<nat>)
    requires Run(b, layout, schedule).Some?
    ensures |schedule| <= b.workerCount * StepsPerWorker(b)
    ensures Finished(b, Run(b, layout, schedule).value)
       <==> |schedule| == b.workerCount * StepsPerWorker(b)
    ensures !Finished(b, Run(b, layout, schedule).value) ==>
              exists w :: Run(b, layout, schedule + [w]).Some?
  {
    hide StepsPerWorker;
    var s := Run(b, layout, schedule).value;
    ScheduleIsCounted(b, layout, schedule);
    StepsTakenAreBounded(b, s.phases, b.workerCount);
    if !Finished(b, s) {
      SomeoneCanStep(b, layout, s);
      var w :| Enabled(b, s, w);
      assert (schedule + [w])[..|schedule|] == schedule;
      assert Run(b, layout, schedule + [w]).Some?;
      ScheduleIsCounted(b, layout, schedule + [w]);
      StepsTakenAreBounded(b, Run(b, layout, schedule + [w]).value.phases, b.workerCount);
    }
  }

  // ----- ingress leads egress, egress leads forwarding

  /** Per worker, the counters of one record are updated in a fixed order. */
  lemma {:induction false} RecordedIsByParity(b: Benchmark, worker: nat, payloads: nat, k1: nat, k2: nat)
    requires payloads <= |b.payloads| && k1 % 2 == k2 % 2
    ensures Recorded(b, worker, payloads, k1) == Recorded(b, worker, payloads, k2)
  {
    if payloads == 0 {
    } else {
      RecordedIsByParity(b, worker, payloads - 1, k1, k2);
    }
  }

  lemma EarlierContributionLeads(b: Benchmark, worker: nat, phase: Phase, k1: nat, k2: nat)
    requires PhaseOk(b, phase) && k1 <= k2 && k1 % 2 == k2 % 2
    ensures Contribution(b, worker, phase, k2) <= Contribution(b, worker, phase, k1)
    ensures k1 % 2 == 0 ==> Contribution(b, worker, phase, k1) <= Contribution(b, worker, phase, k2) + 1
  {
    if phase.Running? {
      RecordedIsByParity(b, worker, phase.payload, k1, k2);
    }
  }

  lemma {:induction false} EarlierCountersLead(b: Benchmark, layout: Layout, phases: seq<Phase>, n: nat, slot: nat,
                                               k1: nat, k2: nat)
    requires n <= |phases| && forall w | 0 <= w < |phases| :: PhaseOk(b, phases[w])
    requires k1 <= k2 && k1 % 2 == k2 % 2
    ensures CellSum(b, layout, phases, n, slot, k2) <= CellSum(b, layout, phases, n, slot, k1)
    ensures k1 % 2 == 0 ==>
              CellSum(b, layout, phases, n, slot, k1) <= CellSum(b, layout, phases, n, slot, k2) + n
  {
    hide Contribution;
    if n == 0 {
    } else {
      EarlierCountersLead(b, layout, phases, n - 1, slot, k1, k2);
      EarlierContributionLeads(b, n - 1, phases[n - 1], k1, k2);
    }
  }

  lemma SharedCellIsExact(b: Benchmark, schedule: seq<nat>, k: nat)
    requires Run(b, SharedGlobal, schedule).Some? && k < COUNTERS
    requires var phases := Run(b, SharedGlobal, schedule).value.phases;
             CellSum(b, SharedGlobal, phases, |phases|, 0, k) <= U64_MAX
    ensures var s := Run(b, SharedGlobal, schedule).value;
            s.cells[0][k] == CellSum(b, SharedGlobal, s.phases, |s.phases|, 0, k)
  {
    hide CellSum, Run;
    ReachableStates(b, SharedGlobal, schedule);
  }

  /** In every reachable state of the shared counters, as long as the two ingress counters have not
      wrapped: ingress >= egress >= forwarded in packets and in bytes, and at most one packet a worker
      has entered without being forwarded. */
  lemma IngressLeads(b: Benchmark, schedule: seq<nat>)
    requires Run(b, SharedGlobal, schedule).Some?
    requires var phases := Run(b, SharedGlobal, schedule).value.phases;
             && CellSum(b, SharedGlobal, phases, |phases|, 0, INGRESS_PACKETS) <= U64_MAX
             && CellSum(b, SharedGlobal, phases, |phases|, 0, INGRESS_BYTES) <= U64_MAX
    ensures var c := Run(b, SharedGlobal, schedule).value.cells[0];
            && c[FORWARDED_PACKETS] <= c[EGRESS_PACKETS] <= c[INGRESS_PACKETS]
            && c[FORWARDED_BYTES] <= c[EGRESS_BYTES] <= c[INGRESS_BYTES]
            && c[INGRESS_PACKETS] - c[FORWARDED_PACKETS] <= b.workerCount
  {
    hide CellSum, Run;
    var phases := Run(b, SharedGlobal, schedule).value.phases;
    EarlierCountersLead(b, SharedGlobal, phases, |phases|, 0, INGRESS_PACKETS, EGRESS_PACKETS);
    EarlierCountersLead(b, SharedGlobal, phases, |phases|, 0, EGRESS_PACKETS, FORWARDED_PACKETS);
    EarlierCountersLead(b, SharedGlobal, phases, |phases|, 0, INGRESS_PACKETS, FORWARDED_PACKETS);
    EarlierCountersLead(b, SharedGlobal, phases, |phases|, 0, INGRESS_BYTES, EGRESS_BYTES);
    EarlierCountersLead(b, SharedGlobal, phases, |phases|, 0, EGRESS_BYTES, FORWARDED_BYTES);
    forall k | 0 <= k < COUNTERS
      ensures Run(b, SharedGlobal, schedule).value.cells[0][k] == CellSum(b, SharedGlobal, phases, |phases|, 0, k)
    {
      SharedCellIsExact(b, schedule, k);
    }
  }

  // ----- what a finished run leaves

  /** What the first `n` workers add to one counter when they finish. */
  function WorkersSum(b: Benchmark, n: nat, counter: nat): nat {
    if n == 0 then 0 else WorkersSum(b, n - 1, counter) + Recorded(b, n - 1, |b.payloads|, counter)
  }

  lemma {:induction false} FinishedCellSum(b: Benchmark, layout: Layout, phases: seq<Phase>, n: nat, slot: nat, k: nat)
    requires n <= |phases| && forall w | 0 <= w < |phases| :: phases[w] == Running(|b.payloads|, 0)
    ensures CellSum(b, layout, phases, n, slot, k) ==
            match layout
            case SharedGlobal => if slot == 0 then WorkersSum(b, n, k) else 0
            case PerWorker => if slot < n then Recorded(b, slot, |b.payloads|, k) else 0
            case ThreadLocal => if slot < n then Recorded(b, slot, |b.payloads|, k) else 0
  {
    if n == 0 {
    } else {
      FinishedCellSum(b, layout, phases, n - 1, slot, k);
    }
  }

  /** Whatever the schedule and however large the sums, a finished run leaves the same counters. */
  lemma FinishedCells(b: Benchmark, layout: Layout, schedule: seq<nat>, slot: nat, k: nat)
    requires Run(b, layout, schedule).Some? && Finished(b, Run(b, layout, schedule).value)
    requires slot < SlotCount(b, layout) && k < COUNTERS
    ensures Run(b, layout, schedule).value.cells[slot][k] ==
            Stored(layout, if layout == SharedGlobal then WorkersSum(b, b.workerCount, k)
                           else Recorded(b, slot, |b.payloads|, k))
  {
    ReachableStates(b, layout, schedule);
    FinishedCellSum(b, layout, Run(b, layout, schedule).value.phases, b.workerCount, slot, k);
  }
}
