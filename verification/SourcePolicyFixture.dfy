/** The benchmark's users, sources and routes, which the planners run on.
    Models the constructor of src/source_policy_refresh.rs. */
module SourcePolicyFixture {
  import opened Machine
  import opened Ordering
  import opened Sequences
  import opened SourcePolicy

  // ----- sources

  function BenchmarkEncodings(owner: nat, sourceOffset: nat): seq<Encoding> {
    var seed := SatAdd(owner, sourceOffset);
    [Encoding(SatAdd(180_000, seed % 32_000)),
     Encoding(SatAdd(540_000, seed % 64_000)),
     Encoding(SatAdd(1_400_000, seed % 128_000))]
  }

  function OwnerOf(s: Source): nat {
    s.owner
  }

  /** The first `n` sources of one user. */
  function OwnSources(owner: nat, n: nat): seq<Source> {
    seq(n, offset requires 0 <= offset < n => Source(owner, BenchmarkEncodings(owner, offset), true))
  }

  /** The sources of one user by number: three encodings each, apart by owner and offset. */
  ghost predicate AreSourcesOf(sources: seq<Source>, owner: nat, n: nat) {
    && |sources| == n
    && forall k | 0 <= k < n ::
         var encodings := [Encoding(180_000 + (owner + k) % 32_000), Encoding(540_000 + (owner + k) % 64_000),
                           Encoding(1_400_000 + (owner + k) % 128_000)];
         sources[k] == Source(owner, encodings, true)
  }

  lemma OwnSourcesByNumber(owner: nat, n: nat)
    requires owner + n <= U64_MAX
    ensures AreSourcesOf(OwnSources(owner, n), owner, n)
  {
  }

  /** All sources of the users below `owner` and the first `n` of `owner`, user by user. */
  ghost predicate HoldsSources(sources: seq<Source>, sourcesPerUser: nat, owner: nat, n: nat) {
    && SortedBy(sources, OwnerOf)
    && |sources| == owner * sourcesPerUser + n
    && (forall i | 0 <= i < |sources| :: sources[i].owner <= owner)
    && forall o: nat :: Bucket(sources, OwnerOf, o)
                     == if o < owner then OwnSources(o, sourcesPerUser) else if o == owner then OwnSources(o, n) else []
  }

  lemma SourceOneMore(sources: seq<Source>, sourcesPerUser: nat, owner: nat, n: nat)
    requires HoldsSources(sources, sourcesPerUser, owner, n)
    ensures HoldsSources(sources + [Source(owner, BenchmarkEncodings(owner, n), true)], sourcesPerUser, owner, n + 1)
  {
    hide BenchmarkEncodings, Bucket;
    var source := Source(owner, BenchmarkEncodings(owner, n), true);
    forall o: nat
      ensures Bucket(sources + [source], OwnerOf, o)
           == Bucket(sources, OwnerOf, o) + (if o == owner then [source] else [])
    {
      BucketSnoc(sources, source, OwnerOf, o);
    }
    assert OwnSources(owner, n + 1) == OwnSources(owner, n) + [source];
  }

  lemma NextOwner(sources: seq<Source>, sourcesPerUser: nat, owner: nat)
    requires HoldsSources(sources, sourcesPerUser, owner, sourcesPerUser)
    ensures HoldsSources(sources, sourcesPerUser, owner + 1, 0)
  {
    hide Bucket;
    assert OwnSources(owner + 1, 0) == [];
    assert (owner + 1) * sourcesPerUser == owner * sourcesPerUser + sourcesPerUser;
  }

  method BenchmarkSources(userCount: nat, sourcesPerUser: nat) returns (sources: seq<Source>)
    ensures HoldsSources(sources, sourcesPerUser, userCount, 0)
  {
    sources := [];
    assert OwnSources(0, 0) == [];
    hide HoldsSources, BenchmarkEncodings;
    for owner := 0 to userCount
      invariant HoldsSources(sources, sourcesPerUser, owner, 0)
    {
      for sourceOffset := 0 to sourcesPerUser
        invariant HoldsSources(sources, sourcesPerUser, owner, sourceOffset)
      {
        SourceOneMore(sources, sourcesPerUser, owner, sourceOffset);
        sources := sources + [Source(owner, BenchmarkEncodings(owner, sourceOffset), true)];
      }
      NextOwner(sources, sourcesPerUser, owner);
    }
  }

  // ----- routes

  function RouteFor(consumer: nat, source: nat): Route {
    Route(consumer, source, true, (consumer + source) % 3)
  }

  predicate Before(consumer: nat, source: nat, consumer': nat, source': nat) {
    consumer < consumer' || (consumer == consumer' && source < source')
  }

  /** Nobody receives what they send themselves. */
  predicate Connects(sources: seq<Source>, consumer: nat, source: nat) {
    source < |sources| && sources[source].owner != consumer
  }

  /** Every connection of the consumers below `consumer`, and of `consumer` to the sources below `source`,
      has exactly one route, and the routes stand in ascending order of consumer and source. */
  ghost predicate HoldsRoutes(routes: seq<Route>, sources: seq<Source>, consumer: nat, source: nat) {
    && (forall i | 0 <= i < |routes| ::
          var r := routes[i];
          r == RouteFor(r.consumer, r.source)
          && Connects(sources, r.consumer, r.source) && Before(r.consumer, r.source, consumer, source))
    && (forall c: nat, s: nat | Connects(sources, c, s) && Before(c, s, consumer, source) :: RouteFor(c, s) in routes)
    && forall i, j | 0 <= i < j < |routes| ::
         Before(routes[i].consumer, routes[i].source, routes[j].consumer, routes[j].source)
  }

  lemma RouteOneMore(routes: seq<Route>, sources: seq<Source>, consumer: nat, source: nat)
    requires HoldsRoutes(routes, sources, consumer, source) && Connects(sources, consumer, source)
    ensures HoldsRoutes(routes + [RouteFor(consumer, source)], sources, consumer, source + 1)
  {
    var r := RouteFor(consumer, source);
    var after := routes + [r];
    assert r.consumer == consumer && r.source == source;
    hide RouteFor, Connects;
    forall c: nat, s: nat | Connects(sources, c, s) && Before(c, s, consumer, source + 1)
      ensures RouteFor(c, s) in after
    {
      if c == consumer && s == source {
        assert after[|routes|] == RouteFor(c, s);
      } else {
        assert Before(c, s, consumer, source);
        assert RouteFor(c, s) in routes;
      }
    }
  }

  lemma SkipOwnSource(routes: seq<Route>, sources: seq<Source>, consumer: nat, source: nat)
    requires HoldsRoutes(routes, sources, consumer, source) && !Connects(sources, consumer, source)
    ensures HoldsRoutes(routes, sources, consumer, source + 1)
  {
    hide RouteFor, Connects;
  }

  lemma NextConsumer(routes: seq<Route>, sources: seq<Source>, consumer: nat)
    requires HoldsRoutes(routes, sources, consumer, |sources|)
    ensures HoldsRoutes(routes, sources, consumer + 1, 0)
  {
    hide RouteFor;
  }

  /** A user's sources among the first `n`. */
  function OwnCount(sources: seq<Source>, owner: nat, n: nat): (count: nat)
    requires n <= |sources|
    ensures count <= n
  {
    if n == 0 then 0 else OwnCount(sources, owner, n - 1) + (if sources[n - 1].owner == owner then 1 else 0)
  }

  lemma {:induction false} OwnCountIsBucket(sources: seq<Source>, owner: nat, n: nat)
    requires n <= |sources|
    ensures OwnCount(sources, owner, n) == |Bucket(sources[..n], OwnerOf, owner)|
  {
    hide Bucket;
    if n == 0 {
      BucketMembers(sources[..0], OwnerOf, owner);
      EmptyOrHasMember(Bucket(sources[..0], OwnerOf, owner));
    } else {
      OwnCountIsBucket(sources, owner, n - 1);
      assert sources[..n] == sources[..n - 1] + [sources[n - 1]];
      BucketSnoc(sources[..n - 1], sources[n - 1], OwnerOf, owner);
    }
  }

  lemma NoRoutesAtFirst(sources: seq<Source>)
    ensures HoldsRoutes([], sources, 0, 0)
  {
  }

  method BenchmarkRoutes(userCount: nat, sources: seq<Source>, ghost own: nat) returns (routes: seq<Route>)
    requires forall o | 0 <= o < userCount :: OwnCount(sources, o, |sources|) == own
    ensures HoldsRoutes(routes, sources, userCount, 0)
    ensures |routes| == userCount * (|sources| - own)
  {
    routes := [];
    hide HoldsRoutes;
    NoRoutesAtFirst(sources);
    for consumer := 0 to userCount
      invariant HoldsRoutes(routes, sources, consumer, 0)
      invariant |routes| == consumer * (|sources| - own)
    {
      ghost var before := |routes|;
      for sourceIndex := 0 to |sources|
        invariant HoldsRoutes(routes, sources, consumer, sourceIndex)
        invariant |routes| == before + sourceIndex - OwnCount(sources, consumer, sourceIndex)
      {
        if sources[sourceIndex].owner == consumer {
          SkipOwnSource(routes, sources, consumer, sourceIndex);
          continue;
        }
        RouteOneMore(routes, sources, consumer, sourceIndex);
        routes := routes + [Route(consumer, sourceIndex, true, (consumer + sourceIndex) % 3)];
      }
      NextConsumer(routes, sources, consumer);
      assert (consumer + 1) * (|sources| - own) == consumer * (|sources| - own) + (|sources| - own);
    }
  }

  // ----- the fixture

  function BandwidthOf(user: nat): (nat, nat) {
    (user, SatAdd(1_200_000, user % 8 * 180_000))
  }

  lemma BandwidthByNumber(user: nat)
    ensures BandwidthOf(user) == (user, 1_200_000 + user % 8 * 180_000)
  {
  }

  /** Routes by number: active, and on the step that consumer and source give modulo three. */
  ghost predicate AreBenchmarkRoutes(routes: seq<Route>) {
    forall i | 0 <= i < |routes| ::
      routes[i].active && routes[i].currentSelector == (routes[i].consumer + routes[i].source) % 3
  }

  lemma RoutesByNumber(routes: seq<Route>, sources: seq<Source>, consumer: nat, source: nat)
    requires HoldsRoutes(routes, sources, consumer, source)
    ensures AreBenchmarkRoutes(routes)
  {
    hide Connects;
  }

  lemma SourcesByNumber(sources: seq<Source>, sourcesPerUser: nat, userCount: nat)
    requires HoldsSources(sources, sourcesPerUser, userCount, 0) && userCount + sourcesPerUser <= U64_MAX
    ensures forall o: nat | o < userCount :: AreSourcesOf(Bucket(sources, OwnerOf, o), o, sourcesPerUser)
  {
    hide Bucket, AreSourcesOf;
    forall o: nat | o < userCount ensures AreSourcesOf(Bucket(sources, OwnerOf, o), o, sourcesPerUser) {
      OwnSourcesByNumber(o, sourcesPerUser);
    }
  }

  lemma {:induction false} BandwidthsAreMapped(pairs: seq<(nat, nat)>, user: nat)
    requires forall i | 0 <= i < |pairs| :: pairs[i] == BandwidthOf(i)
    ensures user in BandwidthMap(pairs) <==> user < |pairs|
    ensures user < |pairs| ==> BandwidthMap(pairs)[user] == BandwidthOf(user).1
  {
    if pairs == [] {
    } else {
      BandwidthsAreMapped(pairs[..|pairs| - 1], user);
    }
  }

  function FirstOwners(count: nat): (owners: set<nat>)
    ensures forall o: nat :: o in owners <==> o < count
  {
    if count == 0 then {} else FirstOwners(count - 1) + {count - 1}
  }

  lemma EachOwnsItsShare(sources: seq<Source>, sourcesPerUser: nat, userCount: nat)
    requires HoldsSources(sources, sourcesPerUser, userCount, 0)
    ensures |sources| == userCount * sourcesPerUser
    ensures forall o | 0 <= o < userCount :: OwnCount(sources, o, |sources|) == sourcesPerUser
  {
    hide Bucket, BenchmarkEncodings;
    assert sources[..|sources|] == sources;
    forall o: nat | o < userCount ensures OwnCount(sources, o, |sources|) == sourcesPerUser {
      OwnCountIsBucket(sources, o, |sources|);
      assert Bucket(sources, OwnerOf, o) == OwnSources(o, sourcesPerUser);
    }
  }

  lemma RoutesFit(routes: seq<Route>, sources: seq<Source>, userCount: nat, sourcesPerUser: nat)
    requires userCount * (userCount * sourcesPerUser) <= I64_MAX
    requires |routes| == userCount * (userCount * sourcesPerUser - sourcesPerUser)
    requires HoldsRoutes(routes, sources, userCount, 0)
    ensures |routes| <= USIZE_MAX
    ensures forall i | 0 <= i < |routes| :: routes[i].source < |sources|
  {
    hide RouteFor;
    assert |routes| <= userCount * (userCount * sourcesPerUser);
  }

  /** Every user owns `sourcesPerUser` sources; every source of another user has one route, so there are
      u * (u * s - s); every user has a budget, and the first four are the active speakers. */
  method NewFixture(userCount: nat, sourcesPerUser: nat) returns (f: Fixture)
    requires userCount * (userCount * sourcesPerUser) <= I64_MAX
    ensures f.WellFormed() && f.CachesLadders()
    ensures HoldsSources(f.sources, sourcesPerUser, userCount, 0)
    ensures HoldsRoutes(f.routes, f.sources, userCount, 0)
    ensures |f.routes| == userCount * (userCount * sourcesPerUser - sourcesPerUser)
    ensures AreBenchmarkRoutes(f.routes)
    ensures userCount + sourcesPerUser <= U64_MAX ==>
              forall o: nat | o < userCount :: AreSourcesOf(Bucket(f.sources, OwnerOf, o), o, sourcesPerUser)
    ensures forall user: nat ::
              f.Budget(user) == if user < userCount then Some(1_200_000 + user % 8 * 180_000) else None
    ensures forall o: nat :: o in f.activeSpeakerSourceOwners <==> o < userCount && o < 4
  {
    hide AreSourcesOf, AreBenchmarkRoutes, BandwidthOf, Bucket;
    var sources := BenchmarkSources(userCount, sourcesPerUser);
    EachOwnsItsShare(sources, sourcesPerUser, userCount);
    var routes := BenchmarkRoutes(userCount, sources, sourcesPerUser);
    var receiverBandwidth := seq(userCount, user requires 0 <= user < userCount => BandwidthOf(user));
    var speakers := FirstOwners(if userCount < 4 then userCount else 4);
    var cachedLadders := seq(|sources|, i requires 0 <= i < |sources| => sources[i].Ladder());
    f := Fixture(sources, routes, receiverBandwidth, speakers, cachedLadders);
    RoutesFit(routes, sources, userCount, sourcesPerUser);
    RoutesByNumber(routes, sources, userCount, 0);
    if userCount + sourcesPerUser <= U64_MAX {
      SourcesByNumber(sources, sourcesPerUser, userCount);
    }
    forall user: nat
      ensures f.Budget(user) == if user < userCount then Some(1_200_000 + user % 8 * 180_000) else None
    {
      BandwidthsAreMapped(receiverBandwidth, user);
      BandwidthByNumber(user);
    }
  }
}
