/** Totals of the plans both planners make: grouping the routes by receiver counts every one once.
    Models src/source_policy_refresh.rs. */
module SourcePolicyTotals {
  import opened Machine
  import opened Ordering
  import opened Sequences
  import opened SourcePolicy

  lemma {:induction false} EvenRoutesConcat(a: seq<RouteInput>, b: seq<RouteInput>)
    ensures EvenRoutes(a + b) == EvenRoutes(a) + EvenRoutes(b)
  {
    if a == [] {
      WithEmpty(b);
      WithEmpty(EvenRoutes(b));
    } else {
      HeadAndTail(a, b);
      EvenRoutesConcat(a[1..], b);
      var first := if IsEven(a[0]) then [a[0]] else [];
      assert EvenRoutes(a + b) == first + EvenRoutes(a[1..] + b);
      assert EvenRoutes(a) == first + EvenRoutes(a[1..]);
      hide EvenRoutes;
      Reassociate(first, EvenRoutes(a[1..]), EvenRoutes(b));
    }
  }

  lemma {:induction false} EvenRoutesBucket(s: seq<RouteInput>, k: nat)
    ensures Bucket(EvenRoutes(s), ConsumerOf, k) == EvenRoutes(Bucket(s, ConsumerOf, k))
  {
    if s == [] {
    } else {
      EvenRoutesBucket(s[1..], k);
      EvenRoutesConcat(if ConsumerOf(s[0]) == k then [s[0]] else [], Bucket(s[1..], ConsumerOf, k));
      BucketConcat(if IsEven(s[0]) then [s[0]] else [], EvenRoutes(s[1..]), ConsumerOf, k);
    }
  }

  lemma {:induction false} EvenRoutesMembers(s: seq<RouteInput>)
    ensures forall r :: r in EvenRoutes(s) <==> r in s && IsEven(r)
  {
    if s == [] {
    } else {
      EvenRoutesMembers(s[1..]);
      assert s == [s[0]] + s[1..];
    }
  }

  function EvenSourceFlags(group: seq<RouteInput>): seq<bool> {
    seq(|group|, j requires 0 <= j < |group| => group[j].source % 2 == 0)
  }

  lemma {:induction false} EvenRoutesAreFlagged(group: seq<RouteInput>)
    ensures |EvenRoutes(group)| == TrueCount(EvenSourceFlags(group))
  {
    if group == [] {
    } else {
      var n := |group| - 1;
      EvenRoutesAreFlagged(group[..n]);
      assert group == group[..n] + [group[n]];
      EvenRoutesConcat(group[..n], [group[n]]);
      assert [group[n]][1..] == [];
      assert EvenSourceFlags(group)[..n] == EvenSourceFlags(group[..n]);
    }
  }

  /** The routes counted beside a group's length are those with an even source number. */
  lemma EvenRoutesAreCounted(group: seq<RouteInput>)
    ensures |EvenRoutes(group)| == |set j | 0 <= j < |group| && group[j].source % 2 == 0|
  {
    EvenRoutesAreFlagged(group);
    var flags := EvenSourceFlags(group);
    TrueCountIsCardinality(flags);
    assert forall j | 0 <= j < |group| :: flags[j] <==> group[j].source % 2 == 0;
    hide *;
    assert (set j | 0 <= j < |flags| && flags[j]) == set j | 0 <= j < |group| && group[j].source % 2 == 0;
  }

  lemma {:induction false} TotalsOfPlans(f: Fixture, ks: seq<nat>)
    requires f.WellFormed()
    ensures PlannedCount(f.PlansFor(ks)) == SumOfBuckets(f.AllInputs(), ConsumerOf, ks)
    ensures EvenCount(f.PlansFor(ks)) == SumOfBuckets(EvenRoutes(f.AllInputs()), ConsumerOf, ks)
  {
    if ks == [] {
    } else {
      var n := |ks| - 1;
      TotalsOfPlans(f, ks[..n]);
      assert f.PlansFor(ks)[..n] == f.PlansFor(ks[..n]);
      EvenRoutesBucket(f.AllInputs(), ks[n]);
    }
  }

  /** A receiver whose selected bitrates together exceed its bandwidth. */
  predicate OverBudget(f: Fixture, consumer: nat)
    requires f.WellFormed()
  {
    PlanFor(consumer, Bucket(f.AllInputs(), ConsumerOf, consumer), f.Budget(consumer)).overBudget
  }

  function OverBudgetConsumers(f: Fixture, ks: seq<nat>): set<nat>
    requires f.WellFormed()
  {
    set k | k in ks && OverBudget(f, k)
  }

  lemma OverBudgetSnoc(f: Fixture, ks: seq<nat>, k: nat)
    requires f.WellFormed() && k !in ks
    ensures |OverBudgetConsumers(f, ks + [k])| == |OverBudgetConsumers(f, ks)| + (if OverBudget(f, k) then 1 else 0)
  {
    hide OverBudget;
    var before := OverBudgetConsumers(f, ks);
    assert OverBudgetConsumers(f, ks + [k]) == before + (if OverBudget(f, k) then {k} else {});
    assert k !in before;
  }

  lemma PlansForSnoc(f: Fixture, ks: seq<nat>, k: nat)
    requires f.WellFormed()
    ensures f.PlansFor(ks + [k])
         == f.PlansFor(ks) + [PlanFor(k, Bucket(f.AllInputs(), ConsumerOf, k), f.Budget(k))]
  {
    hide PlanFor, Bucket, Fixture.AllInputs, Fixture.Budget, Fixture.WellFormed;
  }

  lemma TotalsSnoc(plans: seq<ReceiverPlan>, plan: ReceiverPlan)
    ensures PlannedCount(plans + [plan]) == PlannedCount(plans) + |plan.routes|
    ensures OverBudgetCount(plans + [plan]) == OverBudgetCount(plans) + (if plan.overBudget then 1 else 0)
    ensures EvenCount(plans + [plan]) == EvenCount(plans) + |EvenRoutes(plan.routes)|
  {
    assert (plans + [plan])[..|plans|] == plans;
  }

  lemma {:induction false} OverBudgetIsCounted(f: Fixture, ks: seq<nat>)
    requires f.WellFormed() && StrictlyAscending(ks)
    ensures OverBudgetCount(f.PlansFor(ks)) == |OverBudgetConsumers(f, ks)|
  {
    if ks == [] {
    } else {
      var n := |ks| - 1;
      OverBudgetIsCounted(f, ks[..n]);
      assert ks == ks[..n] + [ks[n]];
      assert ks[n] !in ks[..n];
      var plan := PlanFor(ks[n], Bucket(f.AllInputs(), ConsumerOf, ks[n]), f.Budget(ks[n]));
      assert plan.overBudget == OverBudget(f, ks[n]);
      hide OverBudget, OverBudgetConsumers, StrictlyAscending, Fixture.PlansFor, Fixture.WellFormed, PlanFor,
        OverBudgetCount;
      PlansForSnoc(f, ks[..n], ks[n]);
      TotalsSnoc(f.PlansFor(ks[..n]), plan);
      OverBudgetSnoc(f, ks[..n], ks[n]);
    }
  }

  function Receivers(f: Fixture): seq<nat>
    requires f.WellFormed()
  {
    AscendingKeys(Consumers(f.AllInputs()))
  }

  /** Grouping loses and repeats nothing: over the plans of all receivers every included route counts once,
      every included route with an even source once, and every receiver over its budget once. */
  lemma PlansInClosedForm(f: Fixture)
    requires f.WellFormed()
    ensures PlannedCount(f.Plans()) == |f.AllInputs()|
    ensures EvenCount(f.Plans()) == |EvenRoutes(f.AllInputs())|
    ensures OverBudgetCount(f.Plans()) == |OverBudgetConsumers(f, Receivers(f))|
  {
    var all, ks := f.AllInputs(), Receivers(f);
    TotalsOfPlans(f, ks);
    EvenRoutesMembers(all);
    forall i | 0 <= i < |all| ensures ConsumerOf(all[i]) in ks {
      assert all[i] in all;
    }
    var evens := EvenRoutes(all);
    forall i | 0 <= i < |evens| ensures ConsumerOf(evens[i]) in ks {
      assert evens[i] in evens;
    }
    BucketsPartition(all, ConsumerOf, ks);
    BucketsPartition(evens, ConsumerOf, ks);
    OverBudgetIsCounted(f, ks);
  }

  /** The score of the cached planner: included routes and receivers over budget. */
  function CachedScore(f: Fixture): nat
    requires f.WellFormed()
  {
    Capped(|f.AllInputs()| + |OverBudgetConsumers(f, Receivers(f))|)
  }
}
