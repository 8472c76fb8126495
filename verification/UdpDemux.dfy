/** The UDP remote-address demultiplexer: two pairs of indexes that must stay inverse to one
    another under every run of updates. Models src/rtc_udp_demux.rs. */
module UdpDemux {
  import opened Machine
  import opened Sequences
  import opened Transport

  datatype SocketAddr = SocketAddr(ip: nat, port: nat)

  // ----- lists

  /** `Vec::retain(|y| y != x)`. */
  function Without<T(==)>(s: seq<T>, x: T): seq<T> {
    if s == [] then []
    else (if s[0] == x then [] else [s[0]]) + Without(s[1..], x)
  }

  lemma {:induction false} WithoutMembers<T(!new)>(s: seq<T>, x: T)
    ensures forall y :: y in Without(s, x) <==> y in s && y != x
  {
    if s == [] {
    } else {
      WithoutMembers(s[1..], x);
      assert s == [s[0]] + s[1..];
    }
  }

  lemma {:induction false} WithoutAbsent<T>(s: seq<T>, x: T)
    requires x !in s
    ensures Without(s, x) == s
  {
    if s == [] {
    } else {
      assert s == [s[0]] + s[1..];
      WithoutAbsent(s[1..], x);
    }
  }

  lemma WithoutTwice<T(!new)>(s: seq<T>, x: T)
    ensures x !in Without(s, x)
    ensures Without(Without(s, x), x) == Without(s, x)
  {
    WithoutMembers(s, x);
    WithoutAbsent(Without(s, x), x);
  }

  ghost predicate Distinct<T>(s: seq<T>) {
    forall i, j | 0 <= i < j < |s| :: s[i] != s[j]
  }

  lemma {:induction false} WithoutConcat<T(!new)>(s: seq<T>, t: seq<T>, x: T)
    ensures Without(s + t, x) == Without(s, x) + Without(t, x)
  {
    if s == [] {
      WithEmpty(t);
      WithEmpty(Without(t, x));
    } else {
      HeadAndTail(s, t);
      WithoutConcat(s[1..], t, x);
      var first := if s[0] == x then [] else [s[0]];
      assert Without(s + t, x) == first + Without(s[1..] + t, x);
      assert Without(s, x) == first + Without(s[1..], x);
      hide Without;
      Reassociate(first, Without(s[1..], x), Without(t, x));
    }
  }

  lemma {:induction false} WithoutIsDistinct<T(!new)>(s: seq<T>, x: T)
    requires Distinct(s)
    ensures Distinct(Without(s, x))
  {
    if s == [] {
    } else {
      var rest := Without(s[1..], x);
      WithoutIsDistinct(s[1..], x);
      WithoutMembers(s[1..], x);
      assert s[0] !in s[1..];
      assert forall j | 0 <= j < |rest| :: rest[j] in rest;
    }
  }

  /** `r` is `s` with the one occurrence of `x` cut out, everything else in its place in the order. */
  ghost predicate IsCut<T>(s: seq<T>, r: seq<T>, x: T) {
    && (x !in s ==> r == s)
    && (x in s ==> exists i :: 0 <= i < |s| && s[i] == x && r == s[..i] + s[i + 1..])
  }

  lemma WithoutIsCut<T(!new)>(s: seq<T>, x: T)
    requires Distinct(s)
    ensures IsCut(s, Without(s, x), x)
  {
    if x !in s {
      WithoutAbsent(s, x);
    } else {
      var i :| 0 <= i < |s| && s[i] == x;
      var before, after := s[..i], s[i + 1..];
      assert s == before + ([x] + after);
      assert x !in before && x !in after;
      WithoutConcat(before, [x] + after, x);
      WithoutConcat([x], after, x);
      WithoutAbsent(before, x);
      WithoutAbsent(after, x);
      assert Without([x], x) == [] && [] + after == after;
    }
  }

  lemma SnocIsDistinct<T>(s: seq<T>, x: T)
    requires Distinct(s) && x !in s
    ensures Distinct(s + [x])
  {
    assert forall i | 0 <= i < |s| :: s[i] in s;
  }

  // ----- learned addresses: address -> session, and its inverse

  type AddrIndex = map<SocketAddr, SessionKey>
  type AddrLists = map<SessionKey, seq<SocketAddr>>

  function ListAt<K, T>(m: map<K, seq<T>>, k: K): seq<T> {
    if k in m then m[k] else []
  }

  ghost predicate NoEmptyLists<K(!new), T>(m: map<K, seq<T>>) {
    forall k | k in m :: m[k] != []
  }

  /** Every known address is in exactly one session's list, once; no session has an empty list. */
  ghost predicate Inverse(index: AddrIndex, lists: AddrLists) {
    && (forall a, t :: a in ListAt(lists, t) <==> a in index && index[a] == t)
    && NoEmptyLists(lists)
    && (forall t :: Distinct(ListAt(lists, t)))
  }

  datatype Learning = Learning(addr: SocketAddr, session: SessionKey)

  function LastWriter(run: seq<Learning>): AddrIndex {
    if run == [] then map[]
    else
      var last := run[|run| - 1];
      LastWriter(run[..|run| - 1])[last.addr := last.session]
  }

  /** The run's last word on an address: the session of the latest learning of it. */
  lemma {:induction false} LastWriterIsLatest(run: seq<Learning>, a: SocketAddr)
    ensures a in LastWriter(run) <==> exists i :: 0 <= i < |run| && run[i].addr == a
    ensures a in LastWriter(run) ==>
              exists i :: 0 <= i < |run| && run[i] == Learning(a, LastWriter(run)[a])
                          && forall j | i < j < |run| :: run[j].addr != a
  {
    if run == [] {
    } else {
      var n := |run| - 1;
      LastWriterIsLatest(run[..n], a);
      if run[n].addr == a {
        assert run[n] == Learning(a, LastWriter(run)[a]);
      } else {
        assert forall i | 0 <= i < n :: run[..n][i] == run[i];
        if a in LastWriter(run) {
          var i :| 0 <= i < n && run[..n][i] == Learning(a, LastWriter(run[..n])[a])
                   && forall j | i < j < n :: run[..n][j].addr != a;
          assert run[i].addr == a;
          forall j | i < j < |run| ensures run[j].addr != a {
            if j < n {
              assert run[..n][j].addr != a;
            }
          }
        } else {
          forall i | 0 <= i < |run| ensures run[i].addr != a {
            if i < n {
              assert run[..n][i].addr != a;
            }
          }
        }
      }
    }
  }

  // ----- candidate addresses: address -> sessions, and its inverse

  type CandidateIndex = map<SocketAddr, seq<SessionKey>>

  /** A session is in the bucket of an address exactly when the address is in its stored list. */
  ghost predicate Mirrored(index: CandidateIndex, lists: AddrLists) {
    && (forall a, t :: t in ListAt(index, a) <==> a in ListAt(lists, t))
    && NoEmptyLists(index)
    && (forall a :: Distinct(ListAt(index, a)))
  }

  datatype Replacement = Replacement(session: SessionKey, addrs: seq<SocketAddr>)

  predicate Superseded(run: seq<Replacement>, i: nat)
    requires i < |run|
  {
    exists j | i < j < |run| :: run[j].session == run[i].session
  }

  /** The replacements of a run that no later one of the same session overrides. */
  function LatestCalls(run: seq<Replacement>): seq<Replacement> {
    if run == [] then []
    else (if Superseded(run, 0) then [] else [run[0]]) + LatestCalls(run[1..])
  }

  /** The sessions whose call lists `a`, in the order of the calls. */
  function SessionsOffering(calls: seq<Replacement>, a: SocketAddr): seq<SessionKey> {
    if calls == [] then []
    else (if a in calls[0].addrs then [calls[0].session] else []) + SessionsOffering(calls[1..], a)
  }

  function StoredLists(run: seq<Replacement>): AddrLists {
    if run == [] then map[]
    else
      var last := run[|run| - 1];
      StoredLists(run[..|run| - 1])[last.session := last.addrs]
  }

  lemma WithoutOne<T>(y: T, x: T)
    ensures Without([y], x) == if y == x then [] else [y]
    ensures Without([], x) == []
  {
  }

  lemma OfferingCons(call: Replacement, rest: seq<Replacement>, a: SocketAddr)
    ensures SessionsOffering([call] + rest, a)
         == (if a in call.addrs then [call.session] else []) + SessionsOffering(rest, a)
  {
    assert ([call] + rest)[1..] == rest;
  }

  lemma FirstOffer(run: seq<Replacement>, a: SocketAddr)
    requires run != []
    ensures SessionsOffering(LatestCalls(run), a)
         == (if !Superseded(run, 0) && a in run[0].addrs then [run[0].session] else [])
            + SessionsOffering(LatestCalls(run[1..]), a)
  {
    OfferingCons(run[0], LatestCalls(run[1..]), a);
    assert [] + LatestCalls(run[1..]) == LatestCalls(run[1..]);
  }

  lemma SupersededBySnoc(run: seq<Replacement>, x: Replacement)
    requires run != []
    ensures Superseded(run + [x], 0) <==> Superseded(run, 0) || run[0].session == x.session
  {
    var after := run + [x];
    assert after[|run|] == x && forall i | 0 <= i < |run| :: after[i] == run[i];
    if Superseded(run, 0) {
      var j :| 0 < j < |run| && run[j].session == run[0].session;
      assert after[j].session == after[0].session;
    }
  }

  /** One more replacement takes its session out of every bucket and appends it to those it lists. */
  lemma {:induction false} OfferingSnoc(run: seq<Replacement>, x: Replacement, a: SocketAddr)
    ensures SessionsOffering(LatestCalls(run + [x]), a)
         == Without(SessionsOffering(LatestCalls(run), a), x.session) + (if a in x.addrs then [x.session] else [])
  {
    var after := run + [x];
    if run == [] {
      assert after == [x] && after[1..] == [];
      assert LatestCalls(after) == [x];
    } else {
      HeadAndTail(run, [x]);
      OfferingSnoc(run[1..], x, a);
      SupersededBySnoc(run, x);
      FirstOffer(run, a);
      FirstOffer(after, a);
      hide LatestCalls, SessionsOffering, Superseded, Without;
      var first := if Superseded(run, 0) || a !in run[0].addrs then [] else [run[0].session];
      var rest := SessionsOffering(LatestCalls(run[1..]), a);
      var last := if a in x.addrs then [x.session] else [];
      WithoutConcat(first, rest, x.session);
      WithoutOne(run[0].session, x.session);
      Reassociate(Without(first, x.session), Without(rest, x.session), last);
    }
  }

  /** The closed form of the buckets and the stored lists are inverse to one another, in every run. */
  lemma {:induction false} OfferedIffStored(run: seq<Replacement>, a: SocketAddr, s: SessionKey)
    ensures s in SessionsOffering(LatestCalls(run), a) <==> a in ListAt(StoredLists(run), s)
  {
    if run == [] {
    } else {
      var n := |run| - 1;
      assert run == run[..n] + [run[n]];
      OfferedIffStored(run[..n], a, s);
      OfferingSnoc(run[..n], run[n], a);
      WithoutMembers(SessionsOffering(LatestCalls(run[..n]), a), run[n].session);
    }
  }

  // ----- the state a run of calls leads to

  /** The learned indexes are inverse, and agree with the plain last-writer map of the run. */
  ghost predicate LearnedBy(index: AddrIndex, lists: AddrLists, run: seq<Learning>) {
    Inverse(index, lists) && index == LastWriter(run)
  }

  /** The candidate indexes mirror each other, and every bucket is in closed form: the sessions whose
      latest call lists the address, in the order of those calls. */
  ghost predicate OfferedBy(index: CandidateIndex, lists: AddrLists, run: seq<Replacement>) {
    && Mirrored(index, lists)
    && lists == StoredLists(run)
    && forall a :: ListAt(index, a) == SessionsOffering(LatestCalls(run), a)
  }

  /** The lists of `lists'` when `a` has moved to session `s`. */
  ghost predicate Moved(lists: AddrLists, lists': AddrLists, a: SocketAddr, s: SessionKey) {
    forall t :: ListAt(lists', t) == if t == s then ListAt(lists, t) + [a] else Without(ListAt(lists, t), a)
  }

  /** The buckets of `index'` when every pair of `s` is deleted and `s` is appended at `addrs`. */
  ghost predicate Replaced(index: CandidateIndex, index': CandidateIndex, s: SessionKey, addrs: seq<SocketAddr>) {
    forall a :: ListAt(index', a) == Without(ListAt(index, a), s) + (if a in addrs then [s] else [])
  }

  /** The buckets of `index'` when `s` is deleted from those of `addrs` only. */
  ghost predicate RemovedAt(index: CandidateIndex, index': CandidateIndex, s: SessionKey, addrs: seq<SocketAddr>) {
    forall a :: ListAt(index', a) == if a in addrs then Without(ListAt(index, a), s) else ListAt(index, a)
  }

  // ----- steps of the learned indexes

  lemma LearnedListsAreNotEmpty(index: AddrIndex, lists: AddrLists, run: seq<Learning>)
    requires LearnedBy(index, lists, run)
    ensures NoEmptyLists(lists)
  {
  }

  lemma RelearningChangesNothing(index: AddrIndex, lists: AddrLists, run: seq<Learning>, a: SocketAddr, s: SessionKey)
    requires LearnedBy(index, lists, run)
    requires a in index && index[a] == s
    ensures index[a := s] == index
    ensures LearnedBy(index, lists, run + [Learning(a, s)])
  {
    hide Inverse;
    assert (run + [Learning(a, s)])[..|run|] == run;
    assert index[a := s] == index;
  }

  /** Only the evicted session's list can hold the address. */
  lemma EvictionReachesEveryList(index: AddrIndex, lists: AddrLists, run: seq<Learning>,
                                 previous: Option<SessionKey>, a: SocketAddr, lists': AddrLists)
    requires LearnedBy(index, lists, run)
    requires previous == if a in index then Some(index[a]) else None
    requires forall t :: ListAt(lists', t) ==
               (if previous == Some(t) then Without(ListAt(lists, t), a) else ListAt(lists, t))
    ensures forall t :: ListAt(lists', t) == Without(ListAt(lists, t), a)
  {
    hide Without, Distinct, ListAt, LastWriter;
    forall t ensures ListAt(lists', t) == Without(ListAt(lists, t), a) {
      if previous != Some(t) {
        WithoutAbsent(ListAt(lists, t), a);
      }
    }
  }

  lemma NotYetListed(index: AddrIndex, lists: AddrLists, run: seq<Learning>, a: SocketAddr, s: SessionKey)
    requires LearnedBy(index, lists, run)
    requires !(a in index && index[a] == s)
    ensures a !in ListAt(lists, s)
    ensures Without(ListAt(lists, s), a) == ListAt(lists, s)
  {
    hide Without, Distinct, ListAt, LastWriter;
    WithoutAbsent(ListAt(lists, s), a);
  }

  lemma LastWriterSnoc(run: seq<Learning>, x: Learning)
    ensures LastWriter(run + [x]) == LastWriter(run)[x.addr := x.session]
  {
    assert (run + [x])[..|run|] == run;
  }

  /** Moving an address to a session keeps the learned indexes inverse. */
  lemma LearningExtendsRun(index: AddrIndex, lists: AddrLists, run: seq<Learning>, a: SocketAddr, s: SessionKey,
                           lists': AddrLists)
    requires LearnedBy(index, lists, run)
    requires !(a in index && index[a] == s)
    requires Moved(lists, lists', a, s) && NoEmptyLists(lists')
    ensures LearnedBy(index[a := s], lists', run + [Learning(a, s)])
  {
    LastWriterSnoc(run, Learning(a, s));
    hide Without, Distinct, LastWriter, ListAt, NoEmptyLists;
    forall b, t ensures b in ListAt(lists', t) <==> b in index[a := s] && index[a := s][b] == t {
      assert b in ListAt(lists, t) <==> b in index && index[b] == t;
      WithoutMembers(ListAt(lists, t), a);
    }
    forall t ensures Distinct(ListAt(lists', t)) {
      assert a in ListAt(lists, s) <==> a in index && index[a] == s;
      if t == s {
        SnocIsDistinct(ListAt(lists, t), a);
      } else {
        WithoutIsDistinct(ListAt(lists, t), a);
      }
    }
  }

  // ----- steps of the candidate indexes

  lemma OfferedBucketsAreNotEmpty(index: CandidateIndex, lists: AddrLists, run: seq<Replacement>)
    requires OfferedBy(index, lists, run)
    ensures NoEmptyLists(index)
  {
  }

  lemma NothingRemoved(index: CandidateIndex, s: SessionKey)
    ensures RemovedAt(index, index, s, [])
  {
  }

  lemma RemoveOneMore(index: CandidateIndex, current: CandidateIndex, s: SessionKey, addrs: seq<SocketAddr>,
                      addr: SocketAddr, next: CandidateIndex)
    requires RemovedAt(index, current, s, addrs)
    requires forall a :: ListAt(next, a) ==
               (if a == addr then Without(ListAt(current, a), s) else ListAt(current, a))
    ensures RemovedAt(index, next, s, addrs + [addr])
  {
    hide Without, ListAt;
    WithoutTwice(ListAt(index, addr), s);
  }

  lemma AppendOneMore(index: CandidateIndex, current: CandidateIndex, s: SessionKey, addrs: seq<SocketAddr>,
                      addr: SocketAddr)
    requires Replaced(index, current, s, addrs) && NoEmptyLists(current)
    ensures var sessions := ListAt(current, addr);
            var next := current[addr := if s in sessions then sessions else sessions + [s]];
            Replaced(index, next, s, addrs + [addr]) && NoEmptyLists(next)
  {
    hide Without;
    WithoutTwice(ListAt(index, addr), s);
    var before := Without(ListAt(index, addr), s);
    assert before + [] == before;
  }

  /** Only the buckets of the session's stored addresses can hold the session. */
  lemma RemovalReachesEveryBucket(index: CandidateIndex, lists: AddrLists, run: seq<Replacement>, s: SessionKey,
                                  index': CandidateIndex)
    requires OfferedBy(index, lists, run)
    requires RemovedAt(index, index', s, ListAt(lists, s))
    ensures Replaced(index, index', s, [])
  {
    hide Without, Distinct, ListAt, SessionsOffering, LatestCalls, StoredLists;
    forall a ensures ListAt(index', a) == Without(ListAt(index, a), s) + [] {
      if a !in ListAt(lists, s) {
        assert s !in ListAt(index, a);
        WithoutAbsent(ListAt(index, a), s);
      }
    }
  }

  lemma StoredListsSnoc(run: seq<Replacement>, x: Replacement)
    ensures StoredLists(run + [x]) == StoredLists(run)[x.session := x.addrs]
  {
    assert (run + [x])[..|run|] == run;
  }

  /** Replacing a session's candidates keeps the indexes mirrored and the buckets in closed form. */
  lemma ReplacementExtendsRun(index: CandidateIndex, lists: AddrLists, run: seq<Replacement>, call: Replacement,
                              index': CandidateIndex)
    requires OfferedBy(index, lists, run)
    requires Replaced(index, index', call.session, call.addrs)
    requires NoEmptyLists(index')
    ensures OfferedBy(index', lists[call.session := call.addrs], run + [call])
  {
    hide Without, Distinct, SessionsOffering, LatestCalls, StoredLists;
    var s, addrs := call.session, call.addrs;
    forall a ensures Distinct(ListAt(index', a)) {
      WithoutIsDistinct(ListAt(index, a), s);
      WithoutTwice(ListAt(index, a), s);
      if a in addrs {
        SnocIsDistinct(Without(ListAt(index, a), s), s);
      } else {
        assert Without(ListAt(index, a), s) + [] == Without(ListAt(index, a), s);
      }
    }
    forall a, t ensures t in ListAt(index', a) <==> a in ListAt(lists[s := addrs], t) {
      assert t in ListAt(index, a) <==> a in ListAt(lists, t);
      WithoutMembers(ListAt(index, a), s);
    }
    StoredListsSnoc(run, call);
    forall a ensures ListAt(index', a) == SessionsOffering(LatestCalls(run + [call]), a) {
      OfferingSnoc(run, call, a);
    }
  }

  // ----- what a call does, list by list

  /** List by list, on the maps themselves: the address is at the end of this session's list, cut out of every
      other, and no list is empty. */
  ghost predicate AddressMoved(lists: AddrLists, lists': AddrLists, a: SocketAddr, s: SessionKey) {
    && s in lists'
    && lists'[s] == (if s in lists then lists[s] else []) + [a]
    && (forall t | t in lists' :: lists'[t] != [])
    && forall t | t != s :: IsCut(if t in lists then lists[t] else [], if t in lists' then lists'[t] else [], a)
  }

  /** The session is cut out of the bucket, then at its end if the bucket's address is listed. */
  ghost predicate BucketReplaced(bucket: seq<SessionKey>, after: seq<SessionKey>, s: SessionKey, listed: bool) {
    if listed then |after| > 0 && after[|after| - 1] == s && IsCut(bucket, after[..|after| - 1], s)
    else IsCut(bucket, after, s)
  }

  /** Bucket by bucket, on the maps themselves, and no bucket is empty. */
  ghost predicate SessionMoved(index: CandidateIndex, index': CandidateIndex, s: SessionKey, addrs: seq<SocketAddr>) {
    && (forall a | a in index' :: index'[a] != [])
    && forall a :: BucketReplaced(if a in index then index[a] else [], if a in index' then index'[a] else [],
                                  s, a in addrs)
  }

  lemma MovedListByList(index: AddrIndex, lists: AddrLists, lists': AddrLists, run: seq<Learning>, a: SocketAddr,
                        s: SessionKey)
    requires LearnedBy(index, lists, run) && Moved(lists, lists', a, s) && NoEmptyLists(lists')
    ensures AddressMoved(lists, lists', a, s)
  {
    assert forall t :: ListAt(lists, t) == if t in lists then lists[t] else [];
    assert forall t :: ListAt(lists', t) == if t in lists' then lists'[t] else [];
    assert forall t | t in lists' :: lists'[t] != [];
    hide ListAt, Without, Distinct, IsCut, LastWriter, NoEmptyLists;
    forall t | t != s
      ensures IsCut(if t in lists then lists[t] else [], if t in lists' then lists'[t] else [], a)
    {
      WithoutIsCut(ListAt(lists, t), a);
    }
  }

  lemma WithoutReplacesBucket(bucket: seq<SessionKey>, s: SessionKey, listed: bool)
    requires Distinct(bucket)
    ensures BucketReplaced(bucket, Without(bucket, s) + (if listed then [s] else []), s, listed)
  {
    WithoutIsCut(bucket, s);
    hide IsCut, Without, Distinct;
    var cut := Without(bucket, s);
    assert cut + [] == cut && (cut + [s])[..|cut|] == cut;
  }

  lemma ReplacedBucketByBucket(index: CandidateIndex, index': CandidateIndex, lists: AddrLists,
                               run: seq<Replacement>, s: SessionKey, addrs: seq<SocketAddr>)
    requires OfferedBy(index, lists, run) && Replaced(index, index', s, addrs) && NoEmptyLists(index')
    ensures SessionMoved(index, index', s, addrs)
  {
    assert forall a | a in index' :: index'[a] != [];
    forall a
      ensures BucketReplaced(if a in index then index[a] else [], if a in index' then index'[a] else [],
                             s, a in addrs)
    {
      assert Distinct(ListAt(index, a));
      WithoutReplacesBucket(ListAt(index, a), s, a in addrs);
      hide BucketReplaced, Without, Distinct, Mirrored, OfferedBy;
    }
    hide BucketReplaced, Without, Distinct, Mirrored, OfferedBy, Replaced, ListAt;
  }

  // ----- the demultiplexer

  class RemoteAddrDemux {
    var remoteAddrIndex: AddrIndex
    var remoteAddrsBySession: AddrLists
    var remoteCandidateAddrIndex: CandidateIndex
    var remoteCandidateAddrsBySession: AddrLists

    /** The calls made so far: the specification of the state is a function of these. */
    ghost var learned: seq<Learning>
    ghost var replaced: seq<Replacement>

    ghost predicate Valid()
      reads this
    {
      && LearnedBy(remoteAddrIndex, remoteAddrsBySession, learned)
      && OfferedBy(remoteCandidateAddrIndex, remoteCandidateAddrsBySession, replaced)
    }

    constructor ()
      ensures Valid()
      ensures learned == [] && replaced == []
      ensures remoteAddrIndex == map[] && remoteCandidateAddrsBySession == map[]
    {
      remoteAddrIndex, remoteAddrsBySession := map[], map[];
      remoteCandidateAddrIndex, remoteCandidateAddrsBySession := map[], map[];
      learned, replaced := [], [];
    }

    function SessionKeyForRemoteAddr(sourceAddr: SocketAddr): Option<SessionKey>
      reads this
    {
      if sourceAddr in remoteAddrIndex then Some(remoteAddrIndex[sourceAddr]) else None
    }

    function CandidateSessionsForSourceAddr(sourceAddr: SocketAddr): Option<seq<SessionKey>>
      reads this
    {
      if sourceAddr in remoteCandidateAddrIndex then Some(remoteCandidateAddrIndex[sourceAddr]) else None
    }

    method RemoveRemoteAddrFromSession(sessionKey: SessionKey, sourceAddr: SocketAddr)
      requires NoEmptyLists(remoteAddrsBySession)
      modifies this`remoteAddrsBySession
      ensures NoEmptyLists(remoteAddrsBySession)
      ensures forall t :: ListAt(remoteAddrsBySession, t) ==
                (if t == sessionKey then Without(ListAt(old(remoteAddrsBySession), t), sourceAddr)
                 else ListAt(old(remoteAddrsBySession), t))
    {
      if sessionKey !in remoteAddrsBySession {
        return;
      }
      var sessionAddrs := Without(remoteAddrsBySession[sessionKey], sourceAddr);
      remoteAddrsBySession := remoteAddrsBySession[sessionKey := sessionAddrs];
      if sessionAddrs == [] {
        remoteAddrsBySession := remoteAddrsBySession - {sessionKey};
      }
    }

    method RememberRemoteAddr(sourceAddr: SocketAddr, sessionKey: SessionKey) returns (changed: bool)
      requires Valid()
      modifies this`remoteAddrIndex, this`remoteAddrsBySession, this`learned
      ensures Valid() && learned == old(learned) + [Learning(sourceAddr, sessionKey)]
      ensures changed <==> !(sourceAddr in old(remoteAddrIndex) && old(remoteAddrIndex)[sourceAddr] == sessionKey)
      ensures remoteAddrIndex == old(remoteAddrIndex)[sourceAddr := sessionKey]
      ensures !changed ==> remoteAddrIndex == old(remoteAddrIndex) && remoteAddrsBySession == old(remoteAddrsBySession)
      ensures changed ==> Moved(old(remoteAddrsBySession), remoteAddrsBySession, sourceAddr, sessionKey)
      ensures changed ==> AddressMoved(old(remoteAddrsBySession), remoteAddrsBySession, sourceAddr, sessionKey)
    {
      hide Without, LearnedBy, OfferedBy, AddressMoved;
      ghost var index, lists, run := remoteAddrIndex, remoteAddrsBySession, learned;
      learned := learned + [Learning(sourceAddr, sessionKey)];
      var previousSession := SessionKeyForRemoteAddr(sourceAddr);
      if previousSession == Some(sessionKey) {
        RelearningChangesNothing(index, lists, run, sourceAddr, sessionKey);
        return false;
      }
      LearnedListsAreNotEmpty(index, lists, run);
      remoteAddrIndex := remoteAddrIndex[sourceAddr := sessionKey];
      if previousSession.Some? {
        RemoveRemoteAddrFromSession(previousSession.value, sourceAddr);
      }
      EvictionReachesEveryList(index, lists, run, previousSession, sourceAddr, remoteAddrsBySession);
      NotYetListed(index, lists, run, sourceAddr, sessionKey);
      var sessionAddrs := ListAt(remoteAddrsBySession, sessionKey);
      if sourceAddr !in sessionAddrs {
        sessionAddrs := sessionAddrs + [sourceAddr];
      }
      remoteAddrsBySession := remoteAddrsBySession[sessionKey := sessionAddrs];
      LearningExtendsRun(index, lists, run, sourceAddr, sessionKey, remoteAddrsBySession);
      MovedListByList(index, lists, remoteAddrsBySession, run, sourceAddr, sessionKey);
      return true;
    }

    method RemoveCandidateSession(sourceAddr: SocketAddr, sessionKey: SessionKey)
      requires NoEmptyLists(remoteCandidateAddrIndex)
      modifies this`remoteCandidateAddrIndex
      ensures NoEmptyLists(remoteCandidateAddrIndex)
      ensures forall a :: ListAt(remoteCandidateAddrIndex, a) ==
                (if a == sourceAddr then Without(ListAt(old(remoteCandidateAddrIndex), a), sessionKey)
                 else ListAt(old(remoteCandidateAddrIndex), a))
    {
      if sourceAddr !in remoteCandidateAddrIndex {
        return;
      }
      var sessions := Without(remoteCandidateAddrIndex[sourceAddr], sessionKey);
      remoteCandidateAddrIndex := remoteCandidateAddrIndex[sourceAddr := sessions];
      if sessions == [] {
        remoteCandidateAddrIndex := remoteCandidateAddrIndex - {sourceAddr};
      }
    }

    method ReplaceSessionRemoteCandidateAddrs(sessionKey: SessionKey, addrs: seq<SocketAddr>)
      requires Valid()
      modifies this`remoteCandidateAddrIndex, this`remoteCandidateAddrsBySession, this`replaced
      ensures Valid() && replaced == old(replaced) + [Replacement(sessionKey, addrs)]
      ensures remoteCandidateAddrsBySession == old(remoteCandidateAddrsBySession)[sessionKey := addrs]
      ensures Replaced(old(remoteCandidateAddrIndex), remoteCandidateAddrIndex, sessionKey, addrs)
      ensures SessionMoved(old(remoteCandidateAddrIndex), remoteCandidateAddrIndex, sessionKey, addrs)
    {
      hide Without, LearnedBy, OfferedBy, RemovedAt, Replaced, NoEmptyLists, SessionMoved;
      ghost var index, lists, run := remoteCandidateAddrIndex, remoteCandidateAddrsBySession, replaced;
      OfferedBucketsAreNotEmpty(index, lists, run);
      NothingRemoved(index, sessionKey);
      if sessionKey in remoteCandidateAddrsBySession {
        var previousAddrs := remoteCandidateAddrsBySession[sessionKey];
        remoteCandidateAddrsBySession := remoteCandidateAddrsBySession - {sessionKey};
        for i := 0 to |previousAddrs|
          modifies this`remoteCandidateAddrIndex
          invariant NoEmptyLists(remoteCandidateAddrIndex)
          invariant RemovedAt(index, remoteCandidateAddrIndex, sessionKey, previousAddrs[..i])
        {
          assert previousAddrs[..i + 1] == previousAddrs[..i] + [previousAddrs[i]];
          ghost var before := remoteCandidateAddrIndex;
          RemoveCandidateSession(previousAddrs[i], sessionKey);
          RemoveOneMore(index, before, sessionKey, previousAddrs[..i], previousAddrs[i], remoteCandidateAddrIndex);
        }
        assert previousAddrs[..|previousAddrs|] == previousAddrs;
      }
      RemovalReachesEveryBucket(index, lists, run, sessionKey, remoteCandidateAddrIndex);
      var storedAddrs := [];
      for i := 0 to |addrs|
        modifies this`remoteCandidateAddrIndex
        invariant storedAddrs == addrs[..i]
        invariant NoEmptyLists(remoteCandidateAddrIndex)
        invariant Replaced(index, remoteCandidateAddrIndex, sessionKey, addrs[..i])
      {
        var addr := addrs[i];
        assert addrs[..i + 1] == addrs[..i] + [addr];
        var sessions := ListAt(remoteCandidateAddrIndex, addr);
        AppendOneMore(index, remoteCandidateAddrIndex, sessionKey, addrs[..i], addr);
        if sessionKey !in sessions {
          sessions := sessions + [sessionKey];
        }
        remoteCandidateAddrIndex := remoteCandidateAddrIndex[addr := sessions];
        storedAddrs := storedAddrs + [addr];
      }
      assert storedAddrs == addrs && addrs[..|addrs|] == addrs;
      remoteCandidateAddrsBySession := remoteCandidateAddrsBySession[sessionKey := storedAddrs];
      assert remoteCandidateAddrsBySession == lists[sessionKey := addrs];
      replaced := replaced + [Replacement(sessionKey, addrs)];
      ReplacementExtendsRun(index, lists, run, Replacement(sessionKey, addrs), remoteCandidateAddrIndex);
      ReplacedBucketByBucket(index, remoteCandidateAddrIndex, lists, run, sessionKey, addrs);
    }
  }
}
