/** Source-policy refresh: what the two planners plan, stated once, receiver by receiver.
    Models src/source_policy_refresh.rs. */
module SourcePolicy {
  import opened Machine
  import opened Ordering

  const CROWDED: nat := 9

  datatype Encoding = Encoding(maxBitrateBps: nat)

  datatype Source = Source(owner: nat, encodings: seq<Encoding>, active: bool) {
    function BitrateAt(index: nat): nat {
      if index < |encodings| then encodings[index].maxBitrateBps else 0
    }

    function Indexes(): seq<nat> {
      seq(|encodings|, i requires 0 <= i < |encodings| => i)
    }

    /** The bitrates of the encodings at some indexes. */
    function BitratesAt(indexes: seq<nat>): (bitrates: seq<nat>)
      ensures |bitrates| == |indexes|
      ensures forall i | 0 <= i < |indexes| :: bitrates[i] == BitrateAt(indexes[i])
    {
      if indexes == [] then [] else [BitrateAt(indexes[0])] + BitratesAt(indexes[1..])
    }

    /** `selectable_encoding_ladder`: encoding indexes stably sorted by bitrate, then read out. */
    function Ladder(): seq<nat> {
      BitratesAt(SortByKey(Indexes(), BitrateAt))
    }

    function Bitrates(): seq<nat> {
      seq(|encodings|, i requires 0 <= i < |encodings| => encodings[i].maxBitrateBps)
    }
  }

  lemma BitratesCons(s: Source, i: nat, rest: seq<nat>)
    ensures s.BitratesAt([i] + rest) == [s.BitrateAt(i)] + s.BitratesAt(rest)
    ensures multiset(s.BitratesAt([i] + rest)) == multiset{s.BitrateAt(i)} + multiset(s.BitratesAt(rest))
  {
    assert ([i] + rest)[1..] == rest;
  }

  lemma InsertUnfolds(s: Source, x: nat, first: nat, tail: seq<nat>)
    ensures Insert(x, [first] + tail, s.BitrateAt) ==
            if s.BitrateAt(x) <= s.BitrateAt(first) then [x] + ([first] + tail)
            else [first] + Insert(x, tail, s.BitrateAt)
  {
    assert ([first] + tail)[1..] == tail;
  }

  lemma {:induction false} InsertedBitrates(s: Source, x: nat, indexes: seq<nat>)
    ensures multiset(s.BitratesAt(Insert(x, indexes, s.BitrateAt)))
         == multiset{s.BitrateAt(x)} + multiset(s.BitratesAt(indexes))
  {
    if indexes == [] {
      BitratesCons(s, x, []);
    } else {
      hide *;
      var first, tail := indexes[0], indexes[1..];
      assert indexes == [first] + tail;
      InsertUnfolds(s, x, first, tail);
      InsertedBitrates(s, x, tail);
      BitratesCons(s, first, tail);
      BitratesCons(s, x, indexes);
      BitratesCons(s, first, Insert(x, tail, s.BitrateAt));
    }
  }

  lemma {:induction false} SortedBitrates(s: Source, indexes: seq<nat>)
    ensures multiset(s.BitratesAt(SortByKey(indexes, s.BitrateAt))) == multiset(s.BitratesAt(indexes))
  {
    if indexes == [] {
    } else {
      var first, tail := indexes[0], indexes[1..];
      var sorted := SortByKey(tail, s.BitrateAt);
      assert indexes == [first] + tail;
      assert SortByKey(indexes, s.BitrateAt) == Insert(first, sorted, s.BitrateAt);
      hide *;
      SortedBitrates(s, tail);
      InsertedBitrates(s, first, sorted);
      BitratesCons(s, first, tail);
    }
  }

  /** A ladder is the source's bitrates in ascending order, none lost or added. */
  lemma LadderIsSortedPermutation(s: Source)
    ensures forall i, j | 0 <= i < j < |s.Ladder()| :: s.Ladder()[i] <= s.Ladder()[j]
    ensures multiset(s.Ladder()) == multiset(s.Bitrates())
    ensures |s.Ladder()| == |s.encodings|
  {
    SortedBitrates(s, s.Indexes());
    assert s.Bitrates() == s.BitratesAt(s.Indexes());
    assert |s.Ladder()| == |multiset(s.Ladder())| == |multiset(s.Bitrates())|;
    var sorted := SortByKey(s.Indexes(), s.BitrateAt);
    assert SortedBy(sorted, s.BitrateAt);
  }

  datatype Route = Route(consumer: nat, source: nat, active: bool, currentSelector: nat)

  datatype RouteInput = RouteInput(
    consumer: nat, source: nat, featured: bool, visibleScalableRouteCount: nat, receiverBandwidthBps: Option<nat>,
    currentSelector: nat, encodings: seq<nat>)

  function SelectedEncodingIndex(encodings: seq<nat>, currentSelector: nat, featured: bool, visible: nat): nat {
    if encodings == [] then 0
    else if featured then |encodings| - 1
    else if visible > CROWDED then 0
    else if currentSelector < |encodings| - 1 then currentSelector else |encodings| - 1
  }

  /** `encodings.get(selector).copied().unwrap_or(0)`. */
  function GetOrZero(encodings: seq<nat>, selector: nat): nat {
    if selector < |encodings| then encodings[selector] else 0
  }

  /** What a route adds to its receiver's bitrate. */
  function SelectedBitrate(r: RouteInput): nat {
    GetOrZero(r.encodings,
              SelectedEncodingIndex(r.encodings, r.currentSelector, r.featured, r.visibleScalableRouteCount))
  }

  function SumOfBitrates(group: seq<RouteInput>): nat {
    if group == [] then 0 else SumOfBitrates(group[..|group| - 1]) + SelectedBitrate(group[|group| - 1])
  }

  /** The plan of one receiver: its routes in order, their bitrate, and whether that exceeds the budget. */
  datatype ReceiverPlan = ReceiverPlan(consumer: nat, routes: seq<RouteInput>, bitrate: nat, overBudget: bool)

  function PlanFor(consumer: nat, group: seq<RouteInput>, budget: Option<nat>): ReceiverPlan {
    var bitrate := Capped(SumOfBitrates(group));
    ReceiverPlan(consumer, group, bitrate, budget.Some? && bitrate > budget.value)
  }

  predicate IsEven(r: RouteInput) {
    r.source % 2 == 0
  }

  function EvenRoutes(group: seq<RouteInput>): seq<RouteInput> {
    if group == [] then [] else (if IsEven(group[0]) then [group[0]] else []) + EvenRoutes(group[1..])
  }

  function PlannedCount(plans: seq<ReceiverPlan>): nat {
    if plans == [] then 0 else PlannedCount(plans[..|plans| - 1]) + |plans[|plans| - 1].routes|
  }

  function OverBudgetCount(plans: seq<ReceiverPlan>): nat {
    if plans == [] then 0
    else OverBudgetCount(plans[..|plans| - 1]) + (if plans[|plans| - 1].overBudget then 1 else 0)
  }

  function EvenCount(plans: seq<ReceiverPlan>): nat {
    if plans == [] then 0 else EvenCount(plans[..|plans| - 1]) + |EvenRoutes(plans[|plans| - 1].routes)|
  }

  function ConsumerOf(r: RouteInput): nat {
    r.consumer
  }

  function Consumers(inputs: seq<RouteInput>): set<nat> {
    set r | r in inputs :: r.consumer
  }

  function BandwidthMap(pairs: seq<(nat, nat)>): map<nat, nat> {
    if pairs == [] then map[]
    else
      var last := pairs[|pairs| - 1];
      BandwidthMap(pairs[..|pairs| - 1])[last.0 := last.1]
  }

  datatype Fixture = Fixture(
    sources: seq<Source>, routes: seq<Route>, receiverBandwidth: seq<(nat, nat)>,
    activeSpeakerSourceOwners: set<nat>, cachedLadders: seq<seq<nat>>)
  {
    /** Every route names a source; a vector's length is a usize. */
    predicate WellFormed() {
      |routes| <= USIZE_MAX && forall i | 0 <= i < |routes| :: routes[i].source < |sources|
    }

    /** The ladders cached when the fixture is built. */
    predicate CachesLadders() {
      |cachedLadders| == |sources| && forall i | 0 <= i < |sources| :: cachedLadders[i] == sources[i].Ladder()
    }

    /** Collecting pairs: the last bandwidth given for a user counts. */
    function ReceiverBandwidthByUser(): map<nat, nat> {
      BandwidthMap(receiverBandwidth)
    }

    function Budget(consumer: nat): Option<nat> {
      var budgets := ReceiverBandwidthByUser();
      if consumer in budgets then Some(budgets[consumer]) else None
    }

    predicate Visible(i: nat)
      requires WellFormed() && i < |routes|
    {
      routes[i].active && sources[routes[i].source].active
    }

    predicate Included(i: nat)
      requires WellFormed() && i < |routes|
    {
      Visible(i) && sources[routes[i].source].encodings != []
    }

    /** How many of the first `n` routes the consumer sees. */
    function VisibleCount(n: nat, consumer: nat): nat
      requires WellFormed() && n <= |routes|
    {
      if n == 0 then 0
      else VisibleCount(n - 1, consumer) + (if Visible(n - 1) && routes[n - 1].consumer == consumer then 1 else 0)
    }

    function InputOf(i: nat): RouteInput
      requires WellFormed() && i < |routes|
    {
      var route, source := routes[i], sources[routes[i].source];
      RouteInput(route.consumer, route.source, source.owner in activeSpeakerSourceOwners,
                 VisibleCount(|routes|, route.consumer), Budget(route.consumer), route.currentSelector, source.Ladder())
    }

    /** The included ones of the first `n` routes, in route order. */
    function IncludedInputs(n: nat): seq<RouteInput>
      requires WellFormed() && n <= |routes|
    {
      if n == 0 then []
      else IncludedInputs(n - 1) + (if Included(n - 1) then [InputOf(n - 1)] else [])
    }

    function AllInputs(): seq<RouteInput>
      requires WellFormed()
    {
      IncludedInputs(|routes|)
    }

    function PlansFor(ks: seq<nat>): seq<ReceiverPlan>
      requires WellFormed()
    {
      seq(|ks|, i requires 0 <= i < |ks| => PlanFor(ks[i], Bucket(AllInputs(), ConsumerOf, ks[i]), Budget(ks[i])))
    }

    /** The plans both planners must make: receivers with an included route in ascending order, each with
        its included routes in route order. */
    function Plans(): seq<ReceiverPlan>
      requires WellFormed()
    {
      PlansFor(AscendingKeys(Consumers(AllInputs())))
    }
  }

  // ----- every route of an input list is a route of the fixture

  lemma {:induction false} IncludedInputsAreSound(f: Fixture, n: nat)
    requires f.WellFormed() && n <= |f.routes|
    ensures |f.IncludedInputs(n)| <= n
    ensures forall r | r in f.IncludedInputs(n) ::
              exists i :: 0 <= i < n && f.Included(i) && r == f.InputOf(i)
  {
    if n == 0 {
    } else {
      IncludedInputsAreSound(f, n - 1);
    }
  }

  lemma {:induction false} VisibleRoutesCount(f: Fixture, n: nat, i: nat)
    requires f.WellFormed() && i < n <= |f.routes| && f.Visible(i)
    ensures f.VisibleCount(n, f.routes[i].consumer) >= 1
  {
    if i == n - 1 {
    } else {
      VisibleRoutesCount(f, n - 1, i);
    }
  }

  lemma SameMembers(a: seq<nat>, b: seq<nat>)
    requires multiset(a) == multiset(b)
    ensures forall x :: x in a <==> x in b
  {
    forall x ensures x in a <==> x in b {
      assert x in a <==> x in multiset(a);
      assert x in b <==> x in multiset(b);
    }
  }

  lemma SelectionFromLadder(ladder: seq<nat>, current: nat, featured: bool, visible: nat)
    requires ladder != [] && forall i, j | 0 <= i < j < |ladder| :: ladder[i] <= ladder[j]
    ensures var at := SelectedEncodingIndex(ladder, current, featured, visible);
            && at < |ladder|
            && GetOrZero(ladder, at) in ladder
            && (featured ==> forall b | b in ladder :: b <= GetOrZero(ladder, at))
            && (!featured && visible > CROWDED ==> forall b | b in ladder :: GetOrZero(ladder, at) <= b)
            && (!featured && visible <= CROWDED ==>
                  if current < |ladder| then GetOrZero(ladder, at) == ladder[current]
                  else forall b | b in ladder :: b <= GetOrZero(ladder, at))
  {
  }

  /** For an included route neither fallback is used: its consumer has a count and the chosen index is in
      range. A featured route gets the source's highest bitrate; an unfeatured one of a crowded receiver
      the lowest; any other the ladder step it is on, or the highest when it is past the end. */
  lemma SelectionIsRight(f: Fixture, i: nat)
    requires f.WellFormed() && i < |f.routes| && f.Included(i)
    ensures var r := f.InputOf(i);
            var own := f.sources[r.source].Bitrates();
            && r.visibleScalableRouteCount >= 1
            && SelectedEncodingIndex(r.encodings, r.currentSelector, r.featured, r.visibleScalableRouteCount)
               < |r.encodings|
            && SelectedBitrate(r) in own
            && (r.featured ==> forall b | b in own :: b <= SelectedBitrate(r))
            && (!r.featured && r.visibleScalableRouteCount > CROWDED ==> forall b | b in own :: SelectedBitrate(r) <= b)
            && (!r.featured && r.visibleScalableRouteCount <= CROWDED ==>
                  if r.currentSelector < |r.encodings| then SelectedBitrate(r) == r.encodings[r.currentSelector]
                  else forall b | b in own :: b <= SelectedBitrate(r))
  {
    var source := f.sources[f.routes[i].source];
    VisibleRoutesCount(f, |f.routes|, i);
    LadderIsSortedPermutation(source);
    SameMembers(source.Bitrates(), source.Ladder());
    hide Source.Ladder, Source.Bitrates, SelectedEncodingIndex, GetOrZero;
    var r := f.InputOf(i);
    SelectionFromLadder(r.encodings, r.currentSelector, r.featured, r.visibleScalableRouteCount);
  }
}
