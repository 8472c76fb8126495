/** The two planners of src/source_policy_refresh.rs: one rebuilds ladders and route inputs, the other
    uses cached ladders and route indexes. Both make the same plans, and their scores differ by the
    included routes with an even source. */
module SourcePolicyPlanners {
  import opened Machine
  import opened Ordering
  import opened Sequences
  import opened SourcePolicy
  import opened SourcePolicyOutcome
  import opened SourcePolicyTotals

  // ----- shared steps

  /** The counts of the consumers that see any of the first `n` routes. */
  ghost predicate CountsVisible(f: Fixture, counts: map<nat, nat>, n: nat)
    requires f.WellFormed() && n <= |f.routes|
  {
    forall c: nat ::
      && (c in counts <==> f.VisibleCount(n, c) > 0)
      && (c in counts ==> counts[c] == f.VisibleCount(n, c))
  }

  lemma VisibleCountsAreSeen(f: Fixture, counts: map<nat, nat>)
    requires f.WellFormed() && CountsVisible(f, counts, |f.routes|)
    ensures CountsSeen(f, counts)
  {
    hide SeenBy, Fixture.VisibleCount;
    forall c: nat ensures f.VisibleCount(|f.routes|, c) == SeenBy(f, c) {
      VisibleAreCounted(f, c);
    }
  }

  method VisibleScalableRouteCounts(f: Fixture) returns (counts: map<nat, nat>)
    requires f.WellFormed()
    ensures CountsVisible(f, counts, |f.routes|)
    ensures CountsSeen(f, counts)
  {
    counts := map[];
    hide SeenBy, CountsSeen;
    for i := 0 to |f.routes|
      invariant CountsVisible(f, counts, i)
    {
      var route := f.routes[i];
      var source := f.sources[route.source];
      if route.active && source.active {
        counts := counts[route.consumer := (if route.consumer in counts then counts[route.consumer] else 0) + 1];
      }
    }
    VisibleCountsAreSeen(f, counts);
  }

  function SelectableLaddersBySource(f: Fixture): map<nat, seq<nat>> {
    map i | 0 <= i < |f.sources| && f.sources[i].Ladder() != [] :: f.sources[i].Ladder()
  }

  lemma LadderIsEmptyWithoutEncodings(s: Source)
    ensures s.Ladder() == [] <==> s.encodings == []
  {
    LadderIsSortedPermutation(s);
  }

  lemma ConsumersAreBuckets(s: seq<RouteInput>, k: nat)
    ensures k in Consumers(s) <==> Bucket(s, ConsumerOf, k) != []
  {
    BucketMembers(s, ConsumerOf, k);
    EmptyOrHasMember(Bucket(s, ConsumerOf, k));
    if k in Consumers(s) {
      var r :| r in s && r.consumer == k;
      assert r in Bucket(s, ConsumerOf, k);
    }
  }

  lemma SumSnoc(group: seq<RouteInput>, j: nat)
    requires j < |group|
    ensures SumOfBitrates(group[..j + 1]) == SumOfBitrates(group[..j]) + SelectedBitrate(group[j])
  {
    assert group[..j + 1][..j] == group[..j];
  }

  // ----- planning from route inputs

  function FirstBudget(group: seq<RouteInput>): Option<nat> {
    if group == [] then None
    else
      var before := FirstBudget(group[..|group| - 1]);
      if before.Some? then before else group[|group| - 1].receiverBandwidthBps
  }

  /** The plans for a map of groups, in ascending key order. */
  function GroupPlans(groups: map<nat, seq<RouteInput>>, ks: seq<nat>): seq<ReceiverPlan>
    requires forall k | k in ks :: k in groups
  {
    seq(|ks|, i requires 0 <= i < |ks| => PlanFor(ks[i], groups[ks[i]], FirstBudget(groups[ks[i]])))
  }

  lemma FirstBudgetSnoc(group: seq<RouteInput>, j: nat)
    requires j < |group|
    ensures FirstBudget(group[..j + 1])
         == if FirstBudget(group[..j]).Some? then FirstBudget(group[..j]) else group[j].receiverBandwidthBps
  {
    assert group[..j + 1][..j] == group[..j];
  }

  /** The running score of the rebuilding planner, and that of the cached one. */
  ghost predicate RebuildScored(plans: seq<ReceiverPlan>, score: nat) {
    score == Capped(PlannedCount(plans) + OverBudgetCount(plans) + EvenCount(plans))
  }

  ghost predicate CachedScored(plans: seq<ReceiverPlan>, score: nat) {
    score == Capped(PlannedCount(plans) + OverBudgetCount(plans))
  }

  /** A plan adds its routes, one if it is over budget, and, when rebuilding, its even routes. */
  lemma ScoreOneMore(plans: seq<ReceiverPlan>, plan: ReceiverPlan, score: nat)
    ensures var planned := SatAdd(score, |plan.routes|);
            var budgeted := if plan.overBudget then SatAdd(planned, 1) else planned;
            && (RebuildScored(plans, score) ==>
                  RebuildScored(plans + [plan], SatAdd(budgeted, |EvenRoutes(plan.routes)|)))
            && (CachedScored(plans, score) ==> CachedScored(plans + [plan], budgeted))
  {
    TotalsSnoc(plans, plan);
    hide PlannedCount, OverBudgetCount, EvenCount, EvenRoutes;
  }

  /** The loop over one receiver's route inputs. */
  method SelectBitrates(routes: seq<RouteInput>) returns (selectedBitrateBps: nat, receiverBandwidthBps: Option<nat>)
    ensures selectedBitrateBps == Capped(SumOfBitrates(routes))
    ensures receiverBandwidthBps == FirstBudget(routes)
  {
    selectedBitrateBps, receiverBandwidthBps := 0, None;
    hide SelectedEncodingIndex, GetOrZero;
    for j := 0 to |routes|
      invariant selectedBitrateBps == Capped(SumOfBitrates(routes[..j]))
      invariant receiverBandwidthBps == FirstBudget(routes[..j])
    {
      var route := routes[j];
      SumSnoc(routes, j);
      FirstBudgetSnoc(routes, j);
      if receiverBandwidthBps.None? {
        receiverBandwidthBps := route.receiverBandwidthBps;
      }
      var selector := SelectedEncodingIndex(route.encodings, route.currentSelector, route.featured,
                                            route.visibleScalableRouteCount);
      selectedBitrateBps := SatAdd(selectedBitrateBps, GetOrZero(route.encodings, selector));
    }
    assert routes[..|routes|] == routes;
  }

  lemma GroupPlanAt(groups: map<nat, seq<RouteInput>>, ks: seq<nat>, i: nat)
    requires i < |ks| && forall k | k in ks :: k in groups
    ensures |GroupPlans(groups, ks)| == |ks| && ks[i] in groups
    ensures GroupPlans(groups, ks)[i] == PlanFor(ks[i], groups[ks[i]], FirstBudget(groups[ks[i]]))
  {
    assert ks[i] in ks;
  }

  lemma NoPlans()
    ensures RebuildScored([], 0) && CachedScored([], 0)
    ensures SumOfBitrates([]) == 0 && FirstBudget([]) == None
  {
  }

  method PlanCurrentRoutes(routesByReceiver: map<nat, seq<RouteInput>>)
    returns (actionScore: nat, ghost plans: seq<ReceiverPlan>)
    ensures plans == GroupPlans(routesByReceiver, AscendingKeys(routesByReceiver.Keys))
    ensures RebuildScored(GroupPlans(routesByReceiver, AscendingKeys(routesByReceiver.Keys)), actionScore)
  {
    actionScore := 0;
    plans := [];
    var ks := AscendingKeys(routesByReceiver.Keys);
    ghost var all := GroupPlans(routesByReceiver, ks);
    assert |all| == |ks|;
    NoPlans();
    hide StrictlyAscending, RebuildScored, EvenRoutes, SumOfBitrates, FirstBudget, GroupPlans;
    for i := 0 to |ks|
      invariant plans == all[..i]
      invariant RebuildScored(plans, actionScore)
    {
      GroupPlanAt(routesByReceiver, ks, i);
      var routes := routesByReceiver[ks[i]];
      var selectedBitrateBps, receiverBandwidthBps := SelectBitrates(routes);
      var overBudget := receiverBandwidthBps.Some? && selectedBitrateBps > receiverBandwidthBps.value;
      ghost var plan := ReceiverPlan(ks[i], routes, selectedBitrateBps, overBudget);
      ScoreOneMore(plans, plan, actionScore);
      Prefixes(all, i);
      actionScore := SatAdd(actionScore, |routes|);
      if overBudget {
        actionScore := SatAdd(actionScore, 1);
      }
      actionScore := SatAdd(actionScore, |EvenRoutes(routes)|);
      plans := plans + [plan];
    }
    Prefixes(all, |ks|);
  }

  lemma {:induction false} BudgetOfGroup(f: Fixture, group: seq<RouteInput>, k: nat)
    requires f.WellFormed()
    requires forall r | r in group :: r.consumer == k && r.receiverBandwidthBps == f.Budget(k)
    ensures group != [] ==> FirstBudget(group) == f.Budget(k)
  {
    if group == [] {
    } else {
      BudgetOfGroup(f, group[..|group| - 1], k);
      assert group[|group| - 1] in group;
    }
  }

  lemma {:induction false} InputsKnowTheirBudget(f: Fixture, n: nat)
    requires f.WellFormed() && n <= |f.routes|
    ensures forall r | r in f.IncludedInputs(n) :: r.receiverBandwidthBps == f.Budget(r.consumer)
  {
    if n == 0 {
    } else {
      InputsKnowTheirBudget(f, n - 1);
    }
  }

  lemma GroupPlan(f: Fixture, groups: map<nat, seq<RouteInput>>, k: nat)
    requires f.WellFormed() && IsGrouping(groups, f.AllInputs(), ConsumerOf) && k in groups
    ensures groups[k] == Bucket(f.AllInputs(), ConsumerOf, k)
    ensures FirstBudget(groups[k]) == f.Budget(k)
  {
    var own := Bucket(f.AllInputs(), ConsumerOf, k);
    assert own != [] && groups[k] == own;
    BucketMembers(f.AllInputs(), ConsumerOf, k);
    InputsKnowTheirBudget(f, |f.routes|);
    hide Bucket, Fixture.AllInputs, Fixture.Budget, FirstBudget, IsGrouping, Fixture.WellFormed;
    BudgetOfGroup(f, own, k);
  }

  lemma GroupKeys(f: Fixture, groups: map<nat, seq<RouteInput>>)
    requires f.WellFormed() && IsGrouping(groups, f.AllInputs(), ConsumerOf)
    ensures groups.Keys == Consumers(f.AllInputs())
  {
    hide Bucket, Consumers, Fixture.AllInputs;
    forall k: nat ensures k in groups.Keys <==> k in Consumers(f.AllInputs()) {
      ConsumersAreBuckets(f.AllInputs(), k);
    }
  }

  /** Grouping all inputs by consumer gives the plans of the fixture. */
  lemma GroupsGivePlans(f: Fixture, groups: map<nat, seq<RouteInput>>)
    requires f.WellFormed() && IsGrouping(groups, f.AllInputs(), ConsumerOf)
    ensures GroupPlans(groups, AscendingKeys(groups.Keys)) == f.Plans()
  {
    GroupKeys(f, groups);
    var ks := AscendingKeys(groups.Keys);
    assert f.Plans() == f.PlansFor(ks);
    hide Fixture.Plans, IsGrouping, StrictlyAscending, PlanFor, FirstBudget, Fixture.Budget, Fixture.WellFormed, Bucket,
      Fixture.AllInputs, Consumers;
    forall i | 0 <= i < |ks| ensures GroupPlans(groups, ks)[i] == f.PlansFor(ks)[i] {
      assert ks[i] in ks;
      GroupPlan(f, groups, ks[i]);
    }
  }

  lemma NothingGrouped()
    ensures IsGrouping(map[], [], ConsumerOf)
  {
  }

  lemma ScoresInClosedForm(f: Fixture, score: nat)
    requires f.WellFormed()
    ensures RebuildScored(f.Plans(), score) ==> score == SatAdd(CachedScore(f), |EvenRoutes(f.AllInputs())|)
    ensures CachedScored(f.Plans(), score) ==> score == CachedScore(f)
  {
    hide PlannedCount, OverBudgetCount, EvenCount, EvenRoutes, OverBudgetConsumers, Receivers, Fixture.Plans,
      Fixture.AllInputs;
    PlansInClosedForm(f);
  }

  /** The first loop of the rebuilding planner: the inputs of the included routes, in route order. */
  method BuildRouteInputs(f: Fixture) returns (routeInputs: seq<RouteInput>)
    requires f.WellFormed()
    ensures routeInputs == f.AllInputs()
  {
    hide Source.Ladder, Fixture.VisibleCount, Fixture.ReceiverBandwidthByUser, CountsSeen;
    var receiverBandwidthByUser := f.ReceiverBandwidthByUser();
    var visibleScalableRouteCounts := VisibleScalableRouteCounts(f);
    var selectableLadders := SelectableLaddersBySource(f);
    routeInputs := [];
    for i := 0 to |f.routes|
      invariant routeInputs == f.IncludedInputs(i)
    {
      var route := f.routes[i];
      var source := f.sources[route.source];
      LadderIsEmptyWithoutEncodings(source);
      assert f.IncludedInputs(i) + [] == f.IncludedInputs(i);
      if !route.active || !source.active {
        continue;
      }
      if route.source !in selectableLadders {
        continue;
      }
      VisibleRoutesCount(f, |f.routes|, i);
      var input := RouteInput(
        route.consumer, route.source, source.owner in f.activeSpeakerSourceOwners,
        if route.consumer in visibleScalableRouteCounts then visibleScalableRouteCounts[route.consumer] else 1,
        if route.consumer in receiverBandwidthByUser then Some(receiverBandwidthByUser[route.consumer]) else None,
        route.currentSelector, selectableLadders[route.source]);
      routeInputs := routeInputs + [input];
    }
  }

  /** The second: the inputs grouped by receiver. */
  method GroupRouteInputs(routeInputs: seq<RouteInput>) returns (routesByReceiver: map<nat, seq<RouteInput>>)
    ensures IsGrouping(routesByReceiver, routeInputs, ConsumerOf)
  {
    routesByReceiver := map[];
    NothingGrouped();
    hide IsGrouping;
    for i := 0 to |routeInputs|
      invariant IsGrouping(routesByReceiver, routeInputs[..i], ConsumerOf)
    {
      assert routeInputs[..i + 1] == routeInputs[..i] + [routeInputs[i]];
      GroupOneMore(routesByReceiver, routeInputs[..i], routeInputs[i], ConsumerOf);
      routesByReceiver := PushEntry(routesByReceiver, routeInputs[i].consumer, routeInputs[i]);
    }
    assert routeInputs[..|routeInputs|] == routeInputs;
  }

  /** Rebuilds the ladders, and plans from route inputs. The score is that of the cached planner and, on top,
      the planned routes with an even source number. */
  method CurrentRebuildCycle(f: Fixture) returns (score: nat, ghost plans: seq<ReceiverPlan>)
    requires f.WellFormed()
    ensures plans == f.Plans()
    ensures score == SatAdd(CachedScore(f), |EvenRoutes(f.AllInputs())|)
    ensures score == SatAdd(Capped(|PlannedRoutes(f)| + |ExceedingConsumers(f)|),
                            |set i | 0 <= i < |f.routes| && Planned(f, i) && f.routes[i].source % 2 == 0|)
  {
    hide *;
    var routeInputs := BuildRouteInputs(f);
    var routesByReceiver := GroupRouteInputs(routeInputs);
    GroupsGivePlans(f, routesByReceiver);
    score, plans := PlanCurrentRoutes(routesByReceiver);
    ScoresInClosedForm(f, score);
    CachedScoreByField(f);
    EvenAreCounted(f);
  }

  // ----- planning from route indexes

  /** The inputs of some routes, by index. */
  function InputsAt(f: Fixture, indexes: seq<nat>): seq<RouteInput>
    requires f.WellFormed() && forall j | 0 <= j < |indexes| :: indexes[j] < |f.routes|
  {
    seq(|indexes|, j requires 0 <= j < |indexes| => f.InputOf(indexes[j]))
  }

  ghost predicate GroupStandsFor(f: Fixture, indexes: seq<nat>, inputs: seq<RouteInput>)
    requires f.WellFormed()
  {
    && (forall j | 0 <= j < |indexes| :: indexes[j] < |f.routes| && f.Included(indexes[j]))
    && InputsAt(f, indexes) == inputs
  }

  /** The groups of indexes stand for the buckets of the inputs of the first `n` routes. */
  ghost predicate GroupsIndexes(f: Fixture, groups: map<nat, seq<nat>>, n: nat)
    requires f.WellFormed() && n <= |f.routes|
  {
    forall k: nat ::
      && (k in groups <==> Bucket(f.IncludedInputs(n), ConsumerOf, k) != [])
      && (k in groups ==> GroupStandsFor(f, groups[k], Bucket(f.IncludedInputs(n), ConsumerOf, k)))
  }

  lemma GroupGrows(f: Fixture, indexes: seq<nat>, inputs: seq<RouteInput>, i: nat)
    requires f.WellFormed() && i < |f.routes| && f.Included(i) && GroupStandsFor(f, indexes, inputs)
    ensures GroupStandsFor(f, indexes + [i], inputs + [f.InputOf(i)])
  {
    hide Fixture.InputOf, Fixture.Included;
    assert InputsAt(f, indexes + [i]) == inputs + [f.InputOf(i)];
  }

  lemma NoGroup(f: Fixture)
    requires f.WellFormed()
    ensures GroupStandsFor(f, [], [])
  {
  }

  lemma IndexOneMore(f: Fixture, groups: map<nat, seq<nat>>, i: nat)
    requires f.WellFormed() && i < |f.routes| && GroupsIndexes(f, groups, i)
    ensures f.Included(i) ==> GroupsIndexes(f, PushEntry(groups, f.routes[i].consumer, i), i + 1)
    ensures !f.Included(i) ==> GroupsIndexes(f, groups, i + 1)
  {
    assert f.IncludedInputs(i) + [] == f.IncludedInputs(i);
    if f.Included(i) {
      var inputs, next := f.IncludedInputs(i), PushEntry(groups, f.routes[i].consumer, i);
      var input := f.InputOf(i);
      assert f.IncludedInputs(i + 1) == inputs + [input] && input.consumer == f.routes[i].consumer;
      hide GroupStandsFor, Bucket, Fixture.InputOf, Fixture.IncludedInputs, Fixture.Included;
      forall k: nat
        ensures k in next <==> Bucket(inputs + [input], ConsumerOf, k) != []
        ensures k in next ==> GroupStandsFor(f, next[k], Bucket(inputs + [input], ConsumerOf, k))
      {
        BucketSnoc(inputs, input, ConsumerOf, k);
        var own := Bucket(inputs, ConsumerOf, k);
        assert own + [] == own;
        if k == input.consumer {
          NoGroup(f);
          GroupGrows(f, if k in groups then groups[k] else [], own, i);
        }
      }
    }
  }

  lemma NothingIndexed(f: Fixture)
    requires f.WellFormed()
    ensures GroupsIndexes(f, map[], 0)
  {
  }

  /** The first loop of the cached planner: route indexes by receiver. */
  method GroupRouteIndexes(f: Fixture) returns (routesByReceiver: map<nat, seq<nat>>)
    requires f.WellFormed() && f.CachesLadders()
    ensures GroupsIndexes(f, routesByReceiver, |f.routes|)
  {
    hide GroupsIndexes, Source.Ladder;
    routesByReceiver := map[];
    NothingIndexed(f);
    for routeIndex := 0 to |f.routes|
      invariant GroupsIndexes(f, routesByReceiver, routeIndex)
    {
      var route := f.routes[routeIndex];
      var source := f.sources[route.source];
      IndexOneMore(f, routesByReceiver, routeIndex);
      LadderIsEmptyWithoutEncodings(source);
      if !route.active || !source.active || f.cachedLadders[route.source] == [] {
        continue;
      }
      routesByReceiver := PushEntry(routesByReceiver, route.consumer, routeIndex);
    }
  }

  lemma GroupMember(f: Fixture, routeIndexes: seq<nat>, group: seq<RouteInput>, j: nat)
    requires f.WellFormed() && GroupStandsFor(f, routeIndexes, group) && j < |routeIndexes|
    ensures routeIndexes[j] < |f.routes| && f.Included(routeIndexes[j])
    ensures j < |group| && group[j] == f.InputOf(routeIndexes[j])
  {
  }

  lemma GroupLength(f: Fixture, routeIndexes: seq<nat>, group: seq<RouteInput>)
    requires f.WellFormed() && GroupStandsFor(f, routeIndexes, group)
    ensures |group| == |routeIndexes|
  {
  }

  /** What the cached planner selects for a route is what its route input selects. */
  lemma CachedSelection(f: Fixture, counts: map<nat, nat>, i: nat)
    requires f.WellFormed() && f.CachesLadders() && CountsVisible(f, counts, |f.routes|)
    requires i < |f.routes| && f.Included(i)
    ensures var route := f.routes[i];
            && route.source < |f.sources| == |f.cachedLadders|
            && var ladder, source := f.cachedLadders[route.source], f.sources[route.source];
               GetOrZero(ladder, SelectedEncodingIndex(
                                   ladder, route.currentSelector, source.owner in f.activeSpeakerSourceOwners,
                                   if route.consumer in counts then counts[route.consumer] else 1))
               == SelectedBitrate(f.InputOf(i))
  {
    hide SelectedEncodingIndex, GetOrZero, Source.Ladder, Fixture.VisibleCount, Fixture.Budget;
    VisibleRoutesCount(f, |f.routes|, i);
  }

  /** The loop over one receiver's route indexes. */
  method PlanReceiver(f: Fixture, routeIndexes: seq<nat>, visibleScalableRouteCounts: map<nat, nat>,
                      ghost group: seq<RouteInput>)
    returns (selectedBitrateBps: nat, plannedCount: nat)
    requires f.WellFormed() && f.CachesLadders() && CountsVisible(f, visibleScalableRouteCounts, |f.routes|)
    requires GroupStandsFor(f, routeIndexes, group)
    ensures selectedBitrateBps == Capped(SumOfBitrates(group))
    ensures plannedCount == Capped(|group|)
  {
    hide SelectedEncodingIndex, GetOrZero, SelectedBitrate, GroupStandsFor, CountsVisible, Fixture.InputOf,
      Fixture.WellFormed, Fixture.CachesLadders, Fixture.Included;
    selectedBitrateBps, plannedCount := 0, 0;
    GroupLength(f, routeIndexes, group);
    for j := 0 to |routeIndexes|
      invariant selectedBitrateBps == Capped(SumOfBitrates(group[..j]))
      invariant plannedCount == Capped(j)
    {
      GroupMember(f, routeIndexes, group, j);
      CachedSelection(f, visibleScalableRouteCounts, routeIndexes[j]);
      SumSnoc(group, j);
      var route := f.routes[routeIndexes[j]];
      var source := f.sources[route.source];
      var encodings := f.cachedLadders[route.source];
      var visibleCount :=
        if route.consumer in visibleScalableRouteCounts then visibleScalableRouteCounts[route.consumer] else 1;
      var selector := SelectedEncodingIndex(encodings, route.currentSelector,
                                            source.owner in f.activeSpeakerSourceOwners, visibleCount);
      selectedBitrateBps := SatAdd(selectedBitrateBps, GetOrZero(encodings, selector));
      plannedCount := SatAdd(plannedCount, 1);
    }
    assert group[..|routeIndexes|] == group;
  }

  lemma BudgetIsLookup(f: Fixture, consumer: nat)
    ensures var budgets := f.ReceiverBandwidthByUser();
            f.Budget(consumer) == if consumer in budgets then Some(budgets[consumer]) else None
  {
  }

  lemma {:induction false} BucketIsNoLonger(s: seq<RouteInput>, k: nat)
    ensures |Bucket(s, ConsumerOf, k)| <= |s|
  {
    if s == [] {
    } else {
      BucketIsNoLonger(s[1..], k);
    }
  }

  lemma IndexKeysAreReceivers(f: Fixture, groups: map<nat, seq<nat>>)
    requires f.WellFormed() && GroupsIndexes(f, groups, |f.routes|)
    ensures AscendingKeys(groups.Keys) == Receivers(f)
    ensures |f.Plans()| == |AscendingKeys(groups.Keys)|
  {
    forall k: nat ensures k in groups.Keys <==> k in Consumers(f.AllInputs()) {
      ConsumersAreBuckets(f.AllInputs(), k);
    }
    assert groups.Keys == Consumers(f.AllInputs());
  }

  lemma IndexPlanAt(f: Fixture, groups: map<nat, seq<nat>>, i: nat)
    requires f.WellFormed() && GroupsIndexes(f, groups, |f.routes|)
    requires i < |AscendingKeys(groups.Keys)|
    ensures AscendingKeys(groups.Keys) == Receivers(f) && |f.Plans()| == |Receivers(f)|
    ensures var k := Receivers(f)[i];
            var plan := f.Plans()[i];
            && k in groups
            && GroupStandsFor(f, groups[k], plan.routes)
            && plan == PlanFor(k, plan.routes, f.Budget(k))
            && |plan.routes| <= USIZE_MAX
  {
    IndexKeysAreReceivers(f, groups);
    var ks := Receivers(f);
    assert ks[i] in ks;
    assert ks[i] in groups.Keys;
    assert f.Plans()[i] == PlanFor(ks[i], Bucket(f.AllInputs(), ConsumerOf, ks[i]), f.Budget(ks[i]));
    hide StrictlyAscending, Fixture.Plans, Receivers, Fixture.Budget, InputsAt, SumOfBitrates;
    BucketIsNoLonger(f.AllInputs(), ks[i]);
    IncludedInputsAreSound(f, |f.routes|);
  }

  /** The second loop of the cached planner: one receiver after the other. */
  method PlanIndexGroups(f: Fixture, routesByReceiver: map<nat, seq<nat>>, visibleScalableRouteCounts: map<nat, nat>)
    returns (actionScore: nat, ghost plans: seq<ReceiverPlan>)
    requires f.WellFormed() && f.CachesLadders() && GroupsIndexes(f, routesByReceiver, |f.routes|)
    requires CountsVisible(f, visibleScalableRouteCounts, |f.routes|)
    ensures plans == f.Plans()
    ensures actionScore == CachedScore(f)
  {
    hide StrictlyAscending, CachedScored, SumOfBitrates, Fixture.Plans, Receivers, GroupsIndexes, CachedScore,
      Fixture.AllInputs, Bucket, Fixture.Budget, Fixture.WellFormed, Fixture.CachesLadders, CountsVisible,
      GroupStandsFor, Fixture.ReceiverBandwidthByUser, EvenRoutes;
    var receiverBandwidthByUser := f.ReceiverBandwidthByUser();
    actionScore := 0;
    plans := [];
    var ks := AscendingKeys(routesByReceiver.Keys);
    ghost var all := f.Plans();
    IndexKeysAreReceivers(f, routesByReceiver);
    NoPlans();
    for i := 0 to |ks|
      invariant plans == all[..i]
      invariant CachedScored(plans, actionScore)
    {
      var consumer := ks[i];
      IndexPlanAt(f, routesByReceiver, i);
      var receiverBandwidthBps :=
        if consumer in receiverBandwidthByUser then Some(receiverBandwidthByUser[consumer]) else None;
      BudgetIsLookup(f, consumer);
      ghost var group := all[i].routes;
      var selectedBitrateBps, plannedCount :=
        PlanReceiver(f, routesByReceiver[consumer], visibleScalableRouteCounts, group);
      var overBudget := receiverBandwidthBps.Some? && selectedBitrateBps > receiverBandwidthBps.value;
      ghost var plan := ReceiverPlan(consumer, group, selectedBitrateBps, overBudget);
      ScoreOneMore(plans, plan, actionScore);
      Prefixes(all, i);
      actionScore := SatAdd(actionScore, plannedCount);
      if overBudget {
        actionScore := SatAdd(actionScore, 1);
      }
      plans := plans + [plan];
    }
    Prefixes(all, |ks|);
    ScoresInClosedForm(f, actionScore);
  }

  /** Uses the cached ladders, and plans from route indexes. The score is the planned routes and the consumers
      of planned routes above their bandwidth. */
  method CachedLadderCycle(f: Fixture) returns (actionScore: nat, ghost plans: seq<ReceiverPlan>)
    requires f.WellFormed() && f.CachesLadders()
    ensures plans == f.Plans()
    ensures actionScore == CachedScore(f)
    ensures actionScore == Capped(|PlannedRoutes(f)| + |ExceedingConsumers(f)|)
  {
    hide *;
    var visibleScalableRouteCounts := VisibleScalableRouteCounts(f);
    var routesByReceiver := GroupRouteIndexes(f);
    actionScore, plans := PlanIndexGroups(f, routesByReceiver, visibleScalableRouteCounts);
    CachedScoreByField(f);
  }
}
