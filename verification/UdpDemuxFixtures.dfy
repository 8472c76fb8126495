/** The two lookup benchmarks over the demultiplexer: hash lookups against linear scans.
    Models the fixtures of src/rtc_udp_demux.rs. */
module UdpDemuxFixtures {
  import opened Machine
  import opened Sequences
  import opened Transport
  import opened UdpDemux

  const BENCHMARK_CHANNEL_RUNTIME_ID: nat := 1
  const BENCHMARK_MEDIA_WORKER_ID: nat := 0
  const BENCHMARK_FIRST_CONNECTION_ID: nat := 1
  const BENCHMARK_FIRST_REMOTE_PORT: nat := 10_000
  const LOCALHOST: nat := 0x7f00_0001
  const U16_MAX: nat := 0xffff

  /** The number of sessions past which the ports run out. */
  const MAX_SESSIONS: nat := 55_536

  function BenchmarkSessionKey(idx: nat): Option<SessionKey> {
    if idx > I64_MAX then None
    else Some(SessionKey(BENCHMARK_CHANNEL_RUNTIME_ID, BENCHMARK_MEDIA_WORKER_ID,
                         SatAdd(BENCHMARK_FIRST_CONNECTION_ID, idx), idx))
  }

  function BenchmarkRemoteAddr(idx: nat): Option<SocketAddr> {
    if idx > U16_MAX || BENCHMARK_FIRST_REMOTE_PORT + idx > U16_MAX then None
    else Some(SocketAddr(LOCALHOST, BENCHMARK_FIRST_REMOTE_PORT + idx))
  }

  /** While the ports last, session `idx` has connection 1 + idx and port 10,000 + idx on the loopback
      address; after that there is none. */
  lemma BenchmarkSession(idx: nat)
    ensures idx < 55_536 ==>
              && BenchmarkSessionKey(idx) == Some(SessionKey(1, 0, 1 + idx, idx))
              && BenchmarkRemoteAddr(idx) == Some(SocketAddr(0x7f00_0001, 10_000 + idx))
    ensures idx >= 55_536 ==> BenchmarkRemoteAddr(idx).None?
  {
  }

  // ----- known sources

  /** A packet from `addr` reaches a live session: the session that last claimed the address is live. */
  predicate Reaches(index: AddrIndex, live: set<SessionKey>, addr: SocketAddr) {
    addr in index && index[addr] in live
  }

  function CountReached(index: AddrIndex, live: set<SessionKey>, probes: seq<SocketAddr>): nat {
    if probes == [] then 0
    else
      var n := |probes| - 1;
      CountReached(index, live, probes[..n]) + (if Reaches(index, live, probes[n]) then 1 else 0)
  }

  /** What the scan over every session's list asks. */
  predicate ScanReaches(lists: AddrLists, live: set<SessionKey>, addr: SocketAddr) {
    exists t | t in lists.Keys :: t in live && addr in lists[t]
  }

  /** Looking an address up in the index and scanning every list give the same answer. */
  lemma ScanAgreesWithIndex(index: AddrIndex, lists: AddrLists, live: set<SessionKey>, addr: SocketAddr)
    requires Inverse(index, lists)
    ensures ScanReaches(lists, live, addr) <==> Reaches(index, live, addr)
  {
    hide Distinct;
    if Reaches(index, live, addr) {
      var t := index[addr];
      assert addr in ListAt(lists, t);
      assert t in lists.Keys && t in live && addr in lists[t];
    }
    if ScanReaches(lists, live, addr) {
      var t :| t in lists.Keys && t in live && addr in lists[t];
      assert addr in ListAt(lists, t);
    }
  }

  lemma CountStep(index: AddrIndex, live: set<SessionKey>, probes: seq<SocketAddr>, i: nat)
    requires i < |probes|
    ensures CountReached(index, live, probes[..i + 1])
         == CountReached(index, live, probes[..i]) + (if Reaches(index, live, probes[i]) then 1 else 0)
  {
    assert probes[..i + 1][..i] == probes[..i];
  }

  function ReachedFlags(index: AddrIndex, live: set<SessionKey>, probes: seq<SocketAddr>): seq<bool> {
    seq(|probes|, i requires 0 <= i < |probes| => Reaches(index, live, probes[i]))
  }

  lemma {:induction false} ReachedAreFlagged(index: AddrIndex, live: set<SessionKey>, probes: seq<SocketAddr>)
    ensures CountReached(index, live, probes) == TrueCount(ReachedFlags(index, live, probes))
  {
    hide Reaches;
    if probes == [] {
    } else {
      var n := |probes| - 1;
      ReachedAreFlagged(index, live, probes[..n]);
      assert ReachedFlags(index, live, probes)[..n] == ReachedFlags(index, live, probes[..n]);
    }
  }

  lemma ReachedAreCounted(index: AddrIndex, live: set<SessionKey>, probes: seq<SocketAddr>)
    ensures CountReached(index, live, probes)
         == |set i | 0 <= i < |probes| && probes[i] in index && index[probes[i]] in live|
  {
    ReachedAreFlagged(index, live, probes);
    var flags := ReachedFlags(index, live, probes);
    TrueCountIsCardinality(flags);
    assert forall i | 0 <= i < |probes| :: flags[i] <==> probes[i] in index && index[probes[i]] in live;
    hide *;
    assert (set i | 0 <= i < |flags| && flags[i])
        == set i | 0 <= i < |probes| && probes[i] in index && index[probes[i]] in live;
  }

  class RtcUdpDemuxFixture {
    const demux: RemoteAddrDemux
    var liveSessions: set<SessionKey>
    var probeAddrs: seq<SocketAddr>

    constructor (demux: RemoteAddrDemux, liveSessions: set<SessionKey>, probeAddrs: seq<SocketAddr>)
      ensures this.demux == demux && this.liveSessions == liveSessions && this.probeAddrs == probeAddrs
    {
      this.demux := demux;
      this.liveSessions := liveSessions;
      this.probeAddrs := probeAddrs;
    }

    method CachedLookupCycle() returns (hits: nat)
      requires demux.Valid()
      ensures hits == Capped(CountReached(demux.remoteAddrIndex, liveSessions, probeAddrs))
      ensures hits == Capped(|set i | 0 <= i < |probeAddrs| && probeAddrs[i] in demux.remoteAddrIndex
                                     && demux.remoteAddrIndex[probeAddrs[i]] in liveSessions|)
    {
      hits := 0;
      for i := 0 to |probeAddrs|
        invariant hits == Capped(CountReached(demux.remoteAddrIndex, liveSessions, probeAddrs[..i]))
      {
        CountStep(demux.remoteAddrIndex, liveSessions, probeAddrs, i);
        var sessionKey := demux.SessionKeyForRemoteAddr(probeAddrs[i]);
        if sessionKey.Some? && sessionKey.value in liveSessions {
          hits := SatAdd(hits, 1);
        }
      }
      assert probeAddrs[..|probeAddrs|] == probeAddrs;
      ReachedAreCounted(demux.remoteAddrIndex, liveSessions, probeAddrs);
    }

    method LinearScanCycle() returns (hits: nat)
      requires demux.Valid()
      ensures hits == Capped(CountReached(demux.remoteAddrIndex, liveSessions, probeAddrs))
      ensures hits == Capped(|set i | 0 <= i < |probeAddrs| && probeAddrs[i] in demux.remoteAddrIndex
                                     && demux.remoteAddrIndex[probeAddrs[i]] in liveSessions|)
    {
      hits := 0;
      for i := 0 to |probeAddrs|
        invariant hits == Capped(CountReached(demux.remoteAddrIndex, liveSessions, probeAddrs[..i]))
      {
        CountStep(demux.remoteAddrIndex, liveSessions, probeAddrs, i);
        ScanAgreesWithIndex(demux.remoteAddrIndex, demux.remoteAddrsBySession, liveSessions, probeAddrs[i]);
        if ScanReaches(demux.remoteAddrsBySession, liveSessions, probeAddrs[i]) {
          hits := SatAdd(hits, 1);
        }
      }
      assert probeAddrs[..|probeAddrs|] == probeAddrs;
      ReachedAreCounted(demux.remoteAddrIndex, liveSessions, probeAddrs);
    }
  }

  lemma {:induction false} AllReached(index: AddrIndex, live: set<SessionKey>, probes: seq<SocketAddr>)
    requires forall i | 0 <= i < |probes| :: Reaches(index, live, probes[i])
    ensures CountReached(index, live, probes) == |probes|
  {
    if probes == [] {
    } else {
      AllReached(index, live, probes[..|probes| - 1]);
    }
  }

  /** There is a fixture exactly for 1 to 55,536 sessions, and then every probe reaches its session. */
  method NewRtcUdpDemuxFixture(sessionCount: nat) returns (fixture: Option<RtcUdpDemuxFixture>)
    ensures fixture.Some? <==> 1 <= sessionCount <= MAX_SESSIONS
    ensures fixture.Some? ==>
              var f := fixture.value;
              f.demux.Valid() && |f.probeAddrs| == sessionCount
              && CountReached(f.demux.remoteAddrIndex, f.liveSessions, f.probeAddrs) == sessionCount
              && (forall i | 0 <= i < sessionCount :: f.probeAddrs[i] == SocketAddr(0x7f00_0001, 10_000 + i))
              && (forall k: SessionKey ::
                    k in f.liveSessions <==>
                    0 <= k.user < sessionCount && k == SessionKey(1, 0, 1 + k.user, k.user))
              && (forall i | 0 <= i < sessionCount ::
                    f.probeAddrs[i] in f.demux.remoteAddrIndex
                    && f.demux.remoteAddrIndex[f.probeAddrs[i]] == SessionKey(1, 0, 1 + i, i))
  {
    if sessionCount == 0 {
      return None;
    }
    hide Moved, AddressMoved, RemoteAddrDemux.Valid;
    var demux := new RemoteAddrDemux();
    var liveSessions := {};
    var probeAddrs := [];
    for idx := 0 to sessionCount
      invariant fresh(demux) && demux.Valid()
      invariant idx <= MAX_SESSIONS && |probeAddrs| == idx
      invariant forall j | 0 <= j < idx :: probeAddrs[j] == SocketAddr(0x7f00_0001, 10_000 + j)
      invariant forall k: SessionKey ::
                  k in liveSessions <==> 0 <= k.user < idx && k == SessionKey(1, 0, 1 + k.user, k.user)
      invariant forall j | 0 <= j < idx ::
                  probeAddrs[j] in demux.remoteAddrIndex
                  && demux.remoteAddrIndex[probeAddrs[j]] == SessionKey(1, 0, 1 + j, j)
    {
      BenchmarkSession(idx);
      var sessionKey := BenchmarkSessionKey(idx);
      if sessionKey.None? {
        return None;
      }
      var remoteAddr := BenchmarkRemoteAddr(idx);
      if remoteAddr.None? {
        return None;
      }
      var _ := demux.RememberRemoteAddr(remoteAddr.value, sessionKey.value);
      liveSessions := liveSessions + {sessionKey.value};
      probeAddrs := probeAddrs + [remoteAddr.value];
    }
    assert forall j | 0 <= j < sessionCount :: Reaches(demux.remoteAddrIndex, liveSessions, probeAddrs[j]);
    AllReached(demux.remoteAddrIndex, liveSessions, probeAddrs);
    var f := new RtcUdpDemuxFixture(demux, liveSessions, probeAddrs);
    return Some(f);
  }

  // ----- recovery of unknown sources

  /** Some session currently offers `addr` as a candidate. */
  ghost predicate Offered(lists: AddrLists, addr: SocketAddr) {
    exists t :: addr in ListAt(lists, t)
  }

  ghost function CountOffered(lists: AddrLists, probes: seq<SocketAddr>): nat {
    if probes == [] then 0
    else
      var n := |probes| - 1;
      CountOffered(lists, probes[..n]) + (if Offered(lists, probes[n]) then 1 else 0)
  }

  lemma CountOfferedStep(lists: AddrLists, probes: seq<SocketAddr>, i: nat)
    requires i < |probes|
    ensures CountOffered(lists, probes[..i + 1])
         == CountOffered(lists, probes[..i]) + (if Offered(lists, probes[i]) then 1 else 0)
  {
    assert probes[..i + 1][..i] == probes[..i];
  }

  type CandidateList = seq<(SessionKey, seq<SocketAddr>)>

  /** The list the scan walks holds the stored lists, one entry a session, in any order. */
  ghost predicate ListsStored(entries: CandidateList, lists: AddrLists) {
    && (forall i | 0 <= i < |entries| :: entries[i].0 in lists && lists[entries[i].0] == entries[i].1)
    && (forall t | t in lists :: exists i :: 0 <= i < |entries| && entries[i].0 == t)
  }

  predicate EntriesOffer(entries: CandidateList, addr: SocketAddr) {
    exists i | 0 <= i < |entries| :: addr in entries[i].1
  }

  lemma EntriesAgreeWithLists(entries: CandidateList, lists: AddrLists, addr: SocketAddr)
    requires ListsStored(entries, lists)
    ensures EntriesOffer(entries, addr) <==> Offered(lists, addr)
  {
    if EntriesOffer(entries, addr) {
      var i :| 0 <= i < |entries| && addr in entries[i].1;
      assert addr in ListAt(lists, entries[i].0);
    }
    if Offered(lists, addr) {
      var t :| addr in ListAt(lists, t);
      assert t in lists;
      var i :| 0 <= i < |entries| && entries[i].0 == t;
      assert addr in entries[i].1;
    }
  }

  lemma BucketAgreesWithLists(index: CandidateIndex, lists: AddrLists, addr: SocketAddr)
    requires Mirrored(index, lists)
    ensures (addr in index && index[addr] != []) <==> Offered(lists, addr)
  {
    hide Distinct;
    if addr in index && index[addr] != [] {
      var t := index[addr][0];
      assert t in ListAt(index, addr);
      assert addr in ListAt(lists, t);
    }
    if Offered(lists, addr) {
      var t :| addr in ListAt(lists, t);
      assert t in ListAt(index, addr);
      assert addr in index && t in index[addr];
    }
  }

  lemma OfferedByList(lists: AddrLists, addr: SocketAddr)
    ensures Offered(lists, addr) <==> exists t :: t in lists && addr in lists[t]
  {
    if Offered(lists, addr) {
      var t :| addr in ListAt(lists, t);
      assert t in lists && addr in lists[t];
    }
    if exists t :: t in lists && addr in lists[t] {
      var t :| t in lists && addr in lists[t];
      assert addr in ListAt(lists, t);
    }
  }

  ghost function OfferedFlags(lists: AddrLists, probes: seq<SocketAddr>): seq<bool> {
    seq(|probes|, i requires 0 <= i < |probes| => Offered(lists, probes[i]))
  }

  lemma {:induction false} OfferedAreFlagged(lists: AddrLists, probes: seq<SocketAddr>)
    ensures CountOffered(lists, probes) == TrueCount(OfferedFlags(lists, probes))
  {
    hide Offered;
    if probes == [] {
    } else {
      var n := |probes| - 1;
      OfferedAreFlagged(lists, probes[..n]);
      assert OfferedFlags(lists, probes)[..n] == OfferedFlags(lists, probes[..n]);
    }
  }

  lemma OfferedAreCounted(lists: AddrLists, probes: seq<SocketAddr>)
    ensures CountOffered(lists, probes)
         == |set i | 0 <= i < |probes| && (exists t :: t in lists && probes[i] in lists[t])|
  {
    OfferedAreFlagged(lists, probes);
    var flags := OfferedFlags(lists, probes);
    TrueCountIsCardinality(flags);
    forall i | 0 <= i < |probes|
      ensures flags[i] <==> exists t :: t in lists && probes[i] in lists[t]
    {
      OfferedByList(lists, probes[i]);
    }
    hide *;
    assert (set i | 0 <= i < |flags| && flags[i])
        == set i | 0 <= i < |probes| && exists t :: t in lists && probes[i] in lists[t];
  }

  class RtcUnknownSourceRecoveryFixture {
    const candidateIndex: RemoteAddrDemux
    var probeAddrs: seq<SocketAddr>
    var sessionCandidateAddrs: CandidateList

    constructor (candidateIndex: RemoteAddrDemux, probeAddrs: seq<SocketAddr>, sessionCandidateAddrs: CandidateList)
      ensures this.candidateIndex == candidateIndex && this.probeAddrs == probeAddrs
      ensures this.sessionCandidateAddrs == sessionCandidateAddrs
    {
      this.candidateIndex := candidateIndex;
      this.probeAddrs := probeAddrs;
      this.sessionCandidateAddrs := sessionCandidateAddrs;
    }

    method IndexedLookupCycle() returns (hits: nat)
      requires candidateIndex.Valid()
      ensures hits == Capped(CountOffered(candidateIndex.remoteCandidateAddrsBySession, probeAddrs))
      ensures var lists := candidateIndex.remoteCandidateAddrsBySession;
              hits == Capped(|set i | 0 <= i < |probeAddrs| && (exists t :: t in lists && probeAddrs[i] in lists[t])|)
    {
      ghost var lists := candidateIndex.remoteCandidateAddrsBySession;
      hits := 0;
      for i := 0 to |probeAddrs|
        invariant hits == Capped(CountOffered(lists, probeAddrs[..i]))
      {
        CountOfferedStep(lists, probeAddrs, i);
        BucketAgreesWithLists(candidateIndex.remoteCandidateAddrIndex, lists, probeAddrs[i]);
        var sessionKeys := candidateIndex.CandidateSessionsForSourceAddr(probeAddrs[i]);
        if sessionKeys.Some? && sessionKeys.value != [] {
          hits := SatAdd(hits, 1);
        }
      }
      assert probeAddrs[..|probeAddrs|] == probeAddrs;
      OfferedAreCounted(lists, probeAddrs);
    }

    method LinearScanCycle() returns (hits: nat)
      requires ListsStored(sessionCandidateAddrs, candidateIndex.remoteCandidateAddrsBySession)
      ensures hits == Capped(CountOffered(candidateIndex.remoteCandidateAddrsBySession, probeAddrs))
      ensures var lists := candidateIndex.remoteCandidateAddrsBySession;
              hits == Capped(|set i | 0 <= i < |probeAddrs| && (exists t :: t in lists && probeAddrs[i] in lists[t])|)
    {
      ghost var lists := candidateIndex.remoteCandidateAddrsBySession;
      hits := 0;
      for i := 0 to |probeAddrs|
        invariant hits == Capped(CountOffered(lists, probeAddrs[..i]))
      {
        CountOfferedStep(lists, probeAddrs, i);
        EntriesAgreeWithLists(sessionCandidateAddrs, lists, probeAddrs[i]);
        if EntriesOffer(sessionCandidateAddrs, probeAddrs[i]) {
          hits := SatAdd(hits, 1);
        }
      }
      assert probeAddrs[..|probeAddrs|] == probeAddrs;
      OfferedAreCounted(lists, probeAddrs);
    }
  }

  lemma {:induction false} AllOffered(lists: AddrLists, probes: seq<SocketAddr>)
    requires forall i | 0 <= i < |probes| :: Offered(lists, probes[i])
    ensures CountOffered(lists, probes) == |probes|
  {
    if probes == [] {
    } else {
      AllOffered(lists, probes[..|probes| - 1]);
    }
  }

  /** The benchmark's probes and entries: one of each a session, the entry listing the probe. */
  ghost predicate BenchmarkEntries(probes: seq<SocketAddr>, entries: CandidateList, n: nat) {
    && |probes| == |entries| == n
    && (forall i | 0 <= i < n :: probes[i] == SocketAddr(0x7f00_0001, 10_000 + i))
    && forall i | 0 <= i < n :: entries[i] == (SessionKey(1, 0, 1 + i, i), [probes[i]])
  }

  lemma NothingStored()
    ensures ListsStored([], map[]) && BenchmarkEntries([], [], 0)
  {
  }

  lemma StoreOneMore(entries: CandidateList, lists: AddrLists, t: SessionKey, addrs: seq<SocketAddr>)
    requires ListsStored(entries, lists) && t !in lists
    ensures ListsStored(entries + [(t, addrs)], lists[t := addrs])
  {
    var after := entries + [(t, addrs)];
    assert after[|entries|] == (t, addrs) && forall i | 0 <= i < |entries| :: after[i] == entries[i];
    var lists' := lists[t := addrs];
    forall u | u in lists' ensures exists i :: 0 <= i < |after| && after[i].0 == u {
      if u != t {
        var i :| 0 <= i < |entries| && entries[i].0 == u;
        assert after[i].0 == u;
      }
    }
  }

  lemma StoreBenchmarkEntry(probes: seq<SocketAddr>, entries: CandidateList, lists: AddrLists, n: nat)
    requires BenchmarkEntries(probes, entries, n) && ListsStored(entries, lists)
    ensures var t, addr := SessionKey(1, 0, 1 + n, n), SocketAddr(0x7f00_0001, 10_000 + n);
            && BenchmarkEntries(probes + [addr], entries + [(t, [addr])], n + 1)
            && ListsStored(entries + [(t, [addr])], lists[t := [addr]])
  {
    var t, addr := SessionKey(1, 0, 1 + n, n), SocketAddr(0x7f00_0001, 10_000 + n);
    assert t !in lists;
    hide ListsStored;
    StoreOneMore(entries, lists, t, [addr]);
  }

  lemma BenchmarkProbesAreOffered(probes: seq<SocketAddr>, entries: CandidateList, lists: AddrLists, n: nat)
    requires BenchmarkEntries(probes, entries, n) && ListsStored(entries, lists)
    ensures |probes| == n
    ensures forall i | 0 <= i < n :: Offered(lists, probes[i])
  {
    hide ListsStored, Offered;
    forall i | 0 <= i < n ensures Offered(lists, probes[i]) {
      assert probes[i] in entries[i].1;
      EntriesAgreeWithLists(entries, lists, probes[i]);
    }
  }

  /** There is a fixture exactly for 1 to 55,536 sessions, and then every probe is offered. */
  method NewRtcUnknownSourceRecoveryFixture(sessionCount: nat)
    returns (fixture: Option<RtcUnknownSourceRecoveryFixture>)
    ensures fixture.Some? <==> 1 <= sessionCount <= MAX_SESSIONS
    ensures fixture.Some? ==>
              var f := fixture.value;
              f.candidateIndex.Valid() && |f.probeAddrs| == sessionCount
              && ListsStored(f.sessionCandidateAddrs, f.candidateIndex.remoteCandidateAddrsBySession)
              && CountOffered(f.candidateIndex.remoteCandidateAddrsBySession, f.probeAddrs) == sessionCount
              && BenchmarkEntries(f.probeAddrs, f.sessionCandidateAddrs, sessionCount)
  {
    if sessionCount == 0 {
      return None;
    }
    hide *;
    var candidateIndex := new RemoteAddrDemux();
    var probeAddrs: seq<SocketAddr> := [];
    var sessionCandidateAddrs: CandidateList := [];
    NothingStored();
    for idx := 0 to sessionCount
      invariant fresh(candidateIndex) && candidateIndex.Valid() && idx <= MAX_SESSIONS
      invariant BenchmarkEntries(probeAddrs, sessionCandidateAddrs, idx)
      invariant ListsStored(sessionCandidateAddrs, candidateIndex.remoteCandidateAddrsBySession)
    {
      BenchmarkSession(idx);
      var sessionKey := BenchmarkSessionKey(idx);
      if sessionKey.None? {
        return None;
      }
      var remoteAddr := BenchmarkRemoteAddr(idx);
      if remoteAddr.None? {
        return None;
      }
      StoreBenchmarkEntry(probeAddrs, sessionCandidateAddrs, candidateIndex.remoteCandidateAddrsBySession, idx);
      candidateIndex.ReplaceSessionRemoteCandidateAddrs(sessionKey.value, [remoteAddr.value]);
      probeAddrs := probeAddrs + [remoteAddr.value];
      sessionCandidateAddrs := sessionCandidateAddrs + [(sessionKey.value, [remoteAddr.value])];
    }
    ghost var lists := candidateIndex.remoteCandidateAddrsBySession;
    BenchmarkProbesAreOffered(probeAddrs, sessionCandidateAddrs, lists, sessionCount);
    AllOffered(lists, probeAddrs);
    var f := new RtcUnknownSourceRecoveryFixture(candidateIndex, probeAddrs, sessionCandidateAddrs);
    return Some(f);
  }
}
