/** What the planners return, read off sources, routes and bandwidths alone, without grouping, plans or ladders'
    caches. Models src/source_policy_refresh.rs. */
module SourcePolicyOutcome {
  import opened Machine
  import opened Ordering
  import opened Sequences
  import opened SourcePolicy
  import opened SourcePolicyTotals

  // ----- routes

  /** Route and source are active and the source has encodings. */
  predicate Planned(f: Fixture, i: nat)
    requires f.WellFormed() && i < |f.routes|
  {
    var source := f.sources[f.routes[i].source];
    f.routes[i].active && source.active && source.encodings != []
  }

  /** How many routes the consumer sees: active ones with an active source, encodings or not. */
  ghost function SeenBy(f: Fixture, consumer: nat): nat
    requires f.WellFormed()
  {
    |set i | 0 <= i < |f.routes| && f.routes[i].active && f.sources[f.routes[i].source].active
             && f.routes[i].consumer == consumer|
  }

  /** The counts of exactly the consumers that see a route. */
  ghost predicate CountsSeen(f: Fixture, counts: map<nat, nat>)
    requires f.WellFormed()
  {
    forall c: nat :: (c in counts <==> SeenBy(f, c) > 0) && (c in counts ==> counts[c] == SeenBy(f, c))
  }

  function VisibleFlags(f: Fixture, n: nat, consumer: nat): seq<bool>
    requires f.WellFormed() && n <= |f.routes|
  {
    seq(n, i requires 0 <= i < n => f.Visible(i) && f.routes[i].consumer == consumer)
  }

  lemma {:induction false} VisibleAreFlagged(f: Fixture, n: nat, consumer: nat)
    requires f.WellFormed() && n <= |f.routes|
    ensures f.VisibleCount(n, consumer) == TrueCount(VisibleFlags(f, n, consumer))
  {
    if n == 0 {
    } else {
      VisibleAreFlagged(f, n - 1, consumer);
      assert VisibleFlags(f, n, consumer)[..n - 1] == VisibleFlags(f, n - 1, consumer);
    }
  }

  /** The running count over all routes is the number of routes the consumer sees. */
  lemma VisibleAreCounted(f: Fixture, consumer: nat)
    requires f.WellFormed()
    ensures f.VisibleCount(|f.routes|, consumer) == SeenBy(f, consumer)
  {
    VisibleAreFlagged(f, |f.routes|, consumer);
    var flags := VisibleFlags(f, |f.routes|, consumer);
    TrueCountIsCardinality(flags);
    assert forall i | 0 <= i < |f.routes| :: flags[i] <==>
      f.routes[i].active && f.sources[f.routes[i].source].active && f.routes[i].consumer == consumer;
    hide Fixture.VisibleCount, VisibleFlags, TrueCount;
    assert (set i | 0 <= i < |flags| && flags[i])
        == set i | 0 <= i < |f.routes| && f.routes[i].active && f.sources[f.routes[i].source].active
                   && f.routes[i].consumer == consumer;
  }

  function PlannedFlags(f: Fixture, n: nat): seq<bool>
    requires f.WellFormed() && n <= |f.routes|
  {
    seq(n, i requires 0 <= i < n => f.Included(i))
  }

  lemma {:induction false} PlannedAreFlagged(f: Fixture, n: nat)
    requires f.WellFormed() && n <= |f.routes|
    ensures |f.IncludedInputs(n)| == TrueCount(PlannedFlags(f, n))
  {
    hide Fixture.Included, Fixture.InputOf;
    if n == 0 {
    } else {
      PlannedAreFlagged(f, n - 1);
      assert PlannedFlags(f, n)[..n - 1] == PlannedFlags(f, n - 1);
    }
  }

  lemma PlannedAreCounted(f: Fixture)
    requires f.WellFormed()
    ensures |f.AllInputs()| == |set i | 0 <= i < |f.routes| && Planned(f, i)|
  {
    PlannedAreFlagged(f, |f.routes|);
    var flags := PlannedFlags(f, |f.routes|);
    TrueCountIsCardinality(flags);
    assert forall i | 0 <= i < |f.routes| :: flags[i] <==> Planned(f, i);
    hide Fixture.IncludedInputs, PlannedFlags, TrueCount, Planned;
    assert (set i | 0 <= i < |flags| && flags[i]) == set i | 0 <= i < |f.routes| && Planned(f, i);
  }

  function EvenFlags(f: Fixture, n: nat): seq<bool>
    requires f.WellFormed() && n <= |f.routes|
  {
    seq(n, i requires 0 <= i < n => f.Included(i) && f.routes[i].source % 2 == 0)
  }

  lemma EvenRoutesOfOne(r: RouteInput)
    ensures |EvenRoutes([r])| == if r.source % 2 == 0 then 1 else 0
  {
    assert [r][1..] == [];
  }

  lemma {:induction false} EvenAreFlagged(f: Fixture, n: nat)
    requires f.WellFormed() && n <= |f.routes|
    ensures |EvenRoutes(f.IncludedInputs(n))| == TrueCount(EvenFlags(f, n))
  {
    if n == 0 {
    } else {
      EvenAreFlagged(f, n - 1);
      assert EvenFlags(f, n)[..n - 1] == EvenFlags(f, n - 1);
      var before := f.IncludedInputs(n - 1);
      assert before + [] == before;
      if f.Included(n - 1) {
        EvenRoutesConcat(before, [f.InputOf(n - 1)]);
        EvenRoutesOfOne(f.InputOf(n - 1));
      }
    }
  }

  lemma EvenAreCounted(f: Fixture)
    requires f.WellFormed()
    ensures |EvenRoutes(f.AllInputs())|
         == |set i | 0 <= i < |f.routes| && Planned(f, i) && f.routes[i].source % 2 == 0|
  {
    EvenAreFlagged(f, |f.routes|);
    var flags := EvenFlags(f, |f.routes|);
    TrueCountIsCardinality(flags);
    assert forall i | 0 <= i < |f.routes| :: flags[i] <==> Planned(f, i) && f.routes[i].source % 2 == 0;
    hide Fixture.IncludedInputs, EvenFlags, TrueCount, Planned, EvenRoutes;
    assert (set i | 0 <= i < |flags| && flags[i])
        == set i | 0 <= i < |f.routes| && Planned(f, i) && f.routes[i].source % 2 == 0;
  }

  // ----- bitrates

  /** What route `i` adds to its consumer's bitrate: the top of its source's ladder when the owner is an active
      speaker, the bottom for a consumer of more than nine visible routes, otherwise the current step or, past the
      end, the top. */
  ghost function BitrateOf(f: Fixture, i: nat): nat
    requires f.WellFormed() && i < |f.routes| && Planned(f, i)
  {
    var route, source := f.routes[i], f.sources[f.routes[i].source];
    LadderIsSortedPermutation(source);
    var ladder := source.Ladder();
    if source.owner in f.activeSpeakerSourceOwners then ladder[|ladder| - 1]
    else if SeenBy(f, route.consumer) > 9 then ladder[0]
    else if route.currentSelector < |ladder| then ladder[route.currentSelector]
    else ladder[|ladder| - 1]
  }

  lemma InputFields(f: Fixture, i: nat)
    requires f.WellFormed() && i < |f.routes|
    ensures var r, route := f.InputOf(i), f.routes[i];
            var source := f.sources[route.source];
            && r.featured == (source.owner in f.activeSpeakerSourceOwners)
            && r.visibleScalableRouteCount == SeenBy(f, route.consumer)
            && r.currentSelector == route.currentSelector
            && r.encodings == source.Ladder()
  {
    hide SeenBy, Source.Ladder, Fixture.VisibleCount, Fixture.Budget;
    VisibleAreCounted(f, f.routes[i].consumer);
  }

  lemma SelectedIsBitrate(f: Fixture, i: nat)
    requires f.WellFormed() && i < |f.routes| && Planned(f, i)
    ensures f.Included(i)
    ensures SelectedBitrate(f.InputOf(i)) == BitrateOf(f, i)
  {
    LadderIsSortedPermutation(f.sources[f.routes[i].source]);
    InputFields(f, i);
    hide Source.Ladder, Source.Bitrates, SeenBy, Fixture.InputOf;
  }

  /** The exact bitrate of a consumer over the first `n` routes. */
  ghost function Load(f: Fixture, n: nat, consumer: nat): nat
    requires f.WellFormed() && n <= |f.routes|
  {
    if n == 0 then 0
    else Load(f, n - 1, consumer)
         + (if Planned(f, n - 1) && f.routes[n - 1].consumer == consumer then BitrateOf(f, n - 1) else 0)
  }

  lemma SumOfBitratesSnoc(group: seq<RouteInput>, r: RouteInput)
    ensures SumOfBitrates(group + [r]) == SumOfBitrates(group) + SelectedBitrate(r)
  {
    assert (group + [r])[..|group|] == group;
  }

  lemma {:induction false} GroupLoad(f: Fixture, n: nat, consumer: nat)
    requires f.WellFormed() && n <= |f.routes|
    ensures SumOfBitrates(Bucket(f.IncludedInputs(n), ConsumerOf, consumer)) == Load(f, n, consumer)
  {
    if n == 0 {
    } else {
      GroupLoad(f, n - 1, consumer);
      var before := f.IncludedInputs(n - 1);
      var own := Bucket(before, ConsumerOf, consumer);
      assert before + [] == before && own + [] == own;
      if Planned(f, n - 1) {
        var r := f.InputOf(n - 1);
        SelectedIsBitrate(f, n - 1);
        assert f.IncludedInputs(n) == before + [r] && r.consumer == f.routes[n - 1].consumer;
        BucketSnoc(before, r, ConsumerOf, consumer);
        SumOfBitratesSnoc(own, r);
      }
      hide *;
    }
  }

  // ----- budgets

  /** The last bandwidth given for the consumer. */
  ghost predicate LastBandwidth(f: Fixture, consumer: nat, j: nat) {
    && j < |f.receiverBandwidth|
    && f.receiverBandwidth[j].0 == consumer
    && forall h | j < h < |f.receiverBandwidth| :: f.receiverBandwidth[h].0 != consumer
  }

  lemma {:induction false} LastPairCounts(pairs: seq<(nat, nat)>, consumer: nat)
    ensures consumer !in BandwidthMap(pairs) ==> forall j | 0 <= j < |pairs| :: pairs[j].0 != consumer
    ensures consumer in BandwidthMap(pairs) ==>
              exists j :: 0 <= j < |pairs| && pairs[j] == (consumer, BandwidthMap(pairs)[consumer])
                          && forall h | j < h < |pairs| :: pairs[h].0 != consumer
  {
    if pairs == [] {
    } else {
      var n := |pairs| - 1;
      var before := pairs[..n];
      LastPairCounts(before, consumer);
      assert forall h | 0 <= h < n :: before[h] == pairs[h];
      if pairs[n].0 == consumer {
        assert pairs[n] == (consumer, BandwidthMap(pairs)[consumer]);
      } else if consumer in BandwidthMap(pairs) {
        var j :| 0 <= j < |before| && before[j] == (consumer, BandwidthMap(before)[consumer])
                 && forall h | j < h < |before| :: before[h].0 != consumer;
        assert pairs[j] == (consumer, BandwidthMap(pairs)[consumer]);
        forall h | j < h < |pairs| ensures pairs[h].0 != consumer {
          if h < n {
            assert before[h].0 != consumer;
          }
        }
      }
    }
  }

  lemma BudgetIsLastBandwidth(f: Fixture, consumer: nat)
    ensures f.Budget(consumer).None? ==> forall j: nat :: !LastBandwidth(f, consumer, j)
    ensures forall j: nat | LastBandwidth(f, consumer, j) :: f.Budget(consumer) == Some(f.receiverBandwidth[j].1)
    ensures f.Budget(consumer).Some? ==> exists j: nat :: LastBandwidth(f, consumer, j)
  {
    LastPairCounts(f.receiverBandwidth, consumer);
    if f.Budget(consumer).Some? {
      var j :| 0 <= j < |f.receiverBandwidth|
               && f.receiverBandwidth[j] == (consumer, BandwidthMap(f.receiverBandwidth)[consumer])
               && forall h | j < h < |f.receiverBandwidth| :: f.receiverBandwidth[h].0 != consumer;
      assert LastBandwidth(f, consumer, j);
      assert forall i: nat | LastBandwidth(f, consumer, i) :: i == j;
    }
  }

  /** The consumer's bitrate, capped to a u64, is above the last bandwidth given for it. */
  ghost predicate ExceedsBudget(f: Fixture, consumer: nat)
    requires f.WellFormed()
  {
    exists j: nat :: LastBandwidth(f, consumer, j)
                     && Capped(Load(f, |f.routes|, consumer)) > f.receiverBandwidth[j].1
  }

  lemma OverBudgetExceeds(f: Fixture, consumer: nat)
    requires f.WellFormed()
    ensures OverBudget(f, consumer) <==> ExceedsBudget(f, consumer)
  {
    GroupLoad(f, |f.routes|, consumer);
    BudgetIsLastBandwidth(f, consumer);
    var load := Capped(Load(f, |f.routes|, consumer));
    hide Load, LastBandwidth, Fixture.Budget, Bucket, SumOfBitrates, Capped, Fixture.WellFormed;
    if OverBudget(f, consumer) {
      var j: nat :| LastBandwidth(f, consumer, j);
      assert load > f.receiverBandwidth[j].1;
    }
  }

  // ----- the scores

  lemma {:induction false} InputsHaveRoutes(f: Fixture, n: nat, i: nat)
    requires f.WellFormed() && i < n <= |f.routes| && Planned(f, i)
    ensures f.InputOf(i) in f.IncludedInputs(n)
  {
    hide Fixture.InputOf;
    if i == n - 1 {
    } else {
      InputsHaveRoutes(f, n - 1, i);
    }
  }

  ghost function PlannedRoutes(f: Fixture): set<int>
    requires f.WellFormed()
  {
    set i | 0 <= i < |f.routes| && Planned(f, i)
  }

  ghost function ExceedingConsumers(f: Fixture): set<nat>
    requires f.WellFormed()
  {
    set i | 0 <= i < |f.routes| && Planned(f, i) && ExceedsBudget(f, f.routes[i].consumer) :: f.routes[i].consumer
  }

  lemma InputConsumer(f: Fixture, i: nat)
    requires f.WellFormed() && i < |f.routes|
    ensures f.InputOf(i).consumer == f.routes[i].consumer
    ensures f.Included(i) <==> Planned(f, i)
  {
  }

  lemma InputsComeFromRoutes(f: Fixture, r: RouteInput)
    requires f.WellFormed() && r in f.AllInputs()
    ensures exists i :: 0 <= i < |f.routes| && Planned(f, i) && f.routes[i].consumer == r.consumer
  {
    IncludedInputsAreSound(f, |f.routes|);
    hide Planned, Fixture.InputOf, Fixture.Included, Fixture.IncludedInputs;
    var i :| 0 <= i < |f.routes| && f.Included(i) && r == f.InputOf(i);
    InputConsumer(f, i);
  }

  lemma RoutesGiveInputs(f: Fixture, i: nat)
    requires f.WellFormed() && i < |f.routes| && Planned(f, i)
    ensures f.routes[i].consumer in Consumers(f.AllInputs())
  {
    InputsHaveRoutes(f, |f.routes|, i);
    InputConsumer(f, i);
    hide Planned, Fixture.InputOf, Fixture.IncludedInputs;
  }

  lemma ReceiversByField(f: Fixture, k: nat)
    requires f.WellFormed()
    ensures k in Receivers(f) <==> exists i :: 0 <= i < |f.routes| && Planned(f, i) && f.routes[i].consumer == k
  {
    var all := f.AllInputs();
    assert k in Receivers(f) <==> k in Consumers(all);
    hide Receivers, Planned, Fixture.AllInputs, Fixture.WellFormed;
    if k in Consumers(all) {
      var r :| r in all && r.consumer == k;
      InputsComeFromRoutes(f, r);
    }
    if exists i :: 0 <= i < |f.routes| && Planned(f, i) && f.routes[i].consumer == k {
      var i :| 0 <= i < |f.routes| && Planned(f, i) && f.routes[i].consumer == k;
      RoutesGiveInputs(f, i);
    }
  }

  lemma OverBudgetAreExceeding(f: Fixture)
    requires f.WellFormed()
    ensures OverBudgetConsumers(f, Receivers(f)) == ExceedingConsumers(f)
  {
    hide OverBudget, ExceedsBudget, Receivers, Planned, Fixture.WellFormed;
    forall k: nat ensures k in OverBudgetConsumers(f, Receivers(f)) <==> k in ExceedingConsumers(f) {
      OverBudgetExceeds(f, k);
      ReceiversByField(f, k);
    }
  }

  /** Planned routes, and consumers of planned routes above their bandwidth, each counted once. */
  lemma CachedScoreByField(f: Fixture)
    requires f.WellFormed()
    ensures CachedScore(f) == Capped(|PlannedRoutes(f)| + |ExceedingConsumers(f)|)
  {
    PlannedAreCounted(f);
    OverBudgetAreExceeding(f);
    hide Fixture.AllInputs, OverBudgetConsumers, Receivers, Planned, ExceedsBudget;
  }

  /** Every plan: its bitrate is its consumer's load, its verdict is whether that exceeds the bandwidth. */
  lemma PlansByField(f: Fixture, i: nat)
    requires f.WellFormed() && i < |f.Plans()|
    ensures var plan := f.Plans()[i];
            && plan.bitrate == Capped(Load(f, |f.routes|, plan.consumer))
            && (plan.overBudget <==> ExceedsBudget(f, plan.consumer))
  {
    var k := AscendingKeys(Consumers(f.AllInputs()))[i];
    assert f.Plans()[i] == PlanFor(k, Bucket(f.AllInputs(), ConsumerOf, k), f.Budget(k));
    hide Fixture.Plans, Load, ExceedsBudget, Bucket, SumOfBitrates, Fixture.Budget;
    GroupLoad(f, |f.routes|, k);
    OverBudgetExceeds(f, k);
  }
}
