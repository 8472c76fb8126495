/** Stable sorting, grouping by key and ascending key order: what the standard library's
    `sort_by_key` and `BTreeMap` provide to the modelled code. */
module Ordering {
  import opened Sequences

  // ----- buckets: the elements with one key, in order of appearance

  function Bucket<T>(s: seq<T>, key: T -> nat, k: nat): seq<T> {
    if s == [] then []
    else (if key(s[0]) == k then [s[0]] else []) + Bucket(s[1..], key, k)
  }

  lemma {:induction false} BucketConcat<T>(s: seq<T>, t: seq<T>, key: T -> nat, k: nat)
    ensures Bucket(s + t, key, k) == Bucket(s, key, k) + Bucket(t, key, k)
  {
    if s == [] {
      WithEmpty(t);
      WithEmpty(Bucket(t, key, k));
    } else {
      HeadAndTail(s, t);
      BucketConcat(s[1..], t, key, k);
      var first := if key(s[0]) == k then [s[0]] else [];
      assert Bucket(s + t, key, k) == first + Bucket(s[1..] + t, key, k);
      assert Bucket(s, key, k) == first + Bucket(s[1..], key, k);
      hide Bucket;
      Reassociate(first, Bucket(s[1..], key, k), Bucket(t, key, k));
    }
  }

  lemma BucketSnoc<T>(s: seq<T>, x: T, key: T -> nat, k: nat)
    ensures Bucket(s + [x], key, k) == Bucket(s, key, k) + (if key(x) == k then [x] else [])
  {
    BucketConcat(s, [x], key, k);
    assert [x][1..] == [];
  }

  lemma {:induction false} BucketMembers<T>(s: seq<T>, key: T -> nat, k: nat)
    ensures forall x :: x in Bucket(s, key, k) <==> x in s && key(x) == k
  {
    if s == [] {
    } else {
      BucketMembers(s[1..], key, k);
      assert s == [s[0]] + s[1..];
    }
  }

  lemma FirstIsInItsBucket<T>(s: seq<T>, key: T -> nat)
    ensures s != [] ==> Bucket(s, key, key(s[0])) != []
  {
  }

  // ----- stable sorting

  ghost predicate SortedBy<T>(s: seq<T>, key: T -> nat) {
    forall i, j | 0 <= i < j < |s| :: key(s[i]) <= key(s[j])
  }

  /** `r` is `s` stably sorted: ascending keys, and equal keys in their original order. */
  ghost predicate StablySorts<T>(r: seq<T>, s: seq<T>, key: T -> nat) {
    SortedBy(r, key) && forall k: nat :: Bucket(r, key, k) == Bucket(s, key, k)
  }

  function Insert<T>(x: T, s: seq<T>, key: T -> nat): seq<T> {
    if s == [] || key(x) <= key(s[0]) then [x] + s
    else [s[0]] + Insert(x, s[1..], key)
  }

  lemma {:induction false} InsertKeepsBound<T>(x: T, s: seq<T>, key: T -> nat, low: nat)
    requires low <= key(x) && forall i | 0 <= i < |s| :: low <= key(s[i])
    ensures forall i | 0 <= i < |Insert(x, s, key)| :: low <= key(Insert(x, s, key)[i])
  {
    if s == [] || key(x) <= key(s[0]) {
    } else {
      InsertKeepsBound(x, s[1..], key, low);
    }
  }

  lemma {:induction false} InsertIsSorted<T>(x: T, s: seq<T>, key: T -> nat)
    requires SortedBy(s, key)
    ensures SortedBy(Insert(x, s, key), key)
  {
    if s == [] || key(x) <= key(s[0]) {
    } else {
      InsertIsSorted(x, s[1..], key);
      InsertKeepsBound(x, s[1..], key, key(s[0]));
    }
  }

  lemma {:induction false} InsertKeepsBuckets<T>(x: T, s: seq<T>, key: T -> nat, k: nat)
    requires SortedBy(s, key)
    ensures Bucket(Insert(x, s, key), key, k) == (if key(x) == k then [x] else []) + Bucket(s, key, k)
  {
    if s == [] || key(x) <= key(s[0]) {
    } else {
      InsertKeepsBuckets(x, s[1..], key, k);
    }
  }

  /** `slice::sort_by_key`. Any other stable sort returns the same sequence (`StableSortIsUnique`). */
  function SortByKey<T>(s: seq<T>, key: T -> nat): (r: seq<T>)
    ensures StablySorts(r, s, key)
  {
    if s == [] then []
    else
      var rest := SortByKey(s[1..], key);
      InsertIsSorted(s[0], rest, key);
      assert forall k: nat :: Bucket(Insert(s[0], rest, key), key, k) == Bucket(s, key, k) by {
        forall k: nat ensures Bucket(Insert(s[0], rest, key), key, k) == Bucket(s, key, k) {
          InsertKeepsBuckets(s[0], rest, key, k);
        }
      }
      Insert(s[0], rest, key)
  }

  lemma BucketOfTail<T>(s: seq<T>, key: T -> nat, k: nat)
    requires s != []
    ensures key(s[0]) == k ==> Bucket(s, key, k) == [s[0]] + Bucket(s[1..], key, k)
    ensures key(s[0]) != k ==> Bucket(s, key, k) == Bucket(s[1..], key, k)
  {
    WithEmpty(Bucket(s[1..], key, k));
  }

  lemma FirstsAgree<T>(r1: seq<T>, r2: seq<T>, key: T -> nat)
    requires StablySorts(r1, r2, key) && SortedBy(r2, key) && r1 != []
    ensures r2 != [] && r1[0] == r2[0]
  {
    var k := key(r1[0]);
    BucketOfTail(r1, key, k);
    assert r1[0] in Bucket(r2, key, k);
    BucketMembers(r2, key, k);
    var k2 := key(r2[0]);
    BucketOfTail(r2, key, k2);
    assert r2[0] in Bucket(r1, key, k2);
    BucketMembers(r1, key, k2);
    assert k <= k2 && k2 <= k;
    assert Bucket(r1, key, k)[0] == r1[0] && Bucket(r2, key, k)[0] == r2[0];
  }

  lemma TailsAreStable<T>(r1: seq<T>, r2: seq<T>, key: T -> nat)
    requires StablySorts(r1, r2, key) && SortedBy(r2, key) && r1 != [] && r2 != [] && r1[0] == r2[0]
    ensures StablySorts(r1[1..], r2[1..], key) && SortedBy(r2[1..], key)
  {
    hide Bucket;
    forall k: nat ensures Bucket(r1[1..], key, k) == Bucket(r2[1..], key, k) {
      assert Bucket(r1, key, k) == Bucket(r2, key, k);
      BucketOfTail(r1, key, k);
      BucketOfTail(r2, key, k);
      if key(r1[0]) == k {
        assert Bucket(r1[1..], key, k) == Bucket(r1, key, k)[1..];
        assert Bucket(r2[1..], key, k) == Bucket(r2, key, k)[1..];
      }
    }
  }

  /** A stable sort is determined by its input: no choice of algorithm changes the result. */
  lemma {:induction false} StableSortIsUnique<T>(r1: seq<T>, r2: seq<T>, key: T -> nat)
    requires StablySorts(r1, r2, key) && SortedBy(r2, key)
    ensures r1 == r2
  {
    if r1 == [] {
      FirstIsInItsBucket(r2, key);
    } else {
      FirstsAgree(r1, r2, key);
      TailsAreStable(r1, r2, key);
      hide StablySorts, SortedBy;
      StableSortIsUnique(r1[1..], r2[1..], key);
      assert r1 == [r1[0]] + r1[1..] && r2 == [r2[0]] + r2[1..];
    }
  }

  /** So whatever stable algorithm the library uses, it returns what `SortByKey` returns. */
  lemma AnyStableSortAgrees<T>(r: seq<T>, s: seq<T>, key: T -> nat)
    requires StablySorts(r, s, key)
    ensures r == SortByKey(s, key)
  {
    StableSortIsUnique(r, SortByKey(s, key), key);
  }

  lemma {:induction false} BucketCounts<T>(s: seq<T>, key: T -> nat, x: T)
    ensures multiset(Bucket(s, key, key(x)))[x] == multiset(s)[x]
  {
    if s == [] {
    } else {
      BucketCounts(s[1..], key, x);
      BucketOfTail(s, key, key(x));
      hide Bucket;
      assert s == [s[0]] + s[1..];
      assert multiset(s) == multiset{s[0]} + multiset(s[1..]);
    }
  }

  /** Equal buckets make a permutation: whatever stable sort is used loses nothing and repeats nothing. */
  lemma StableSortIsPermutation<T>(r: seq<T>, s: seq<T>, key: T -> nat)
    requires StablySorts(r, s, key)
    ensures multiset(r) == multiset(s)
  {
    hide Bucket, SortedBy;
    forall x: T ensures multiset(r)[x] == multiset(s)[x] {
      BucketCounts(r, key, x);
      BucketCounts(s, key, x);
    }
  }

  // ----- ascending key order, the iteration order of a `BTreeMap`

  ghost predicate StrictlyAscending(ks: seq<nat>) {
    forall i, j | 0 <= i < j < |ks| :: ks[i] < ks[j]
  }

  predicate IsLeast(m: nat, keys: set<nat>) {
    m in keys && forall k | k in keys :: m <= k
  }

  lemma {:induction false} LeastExists(keys: set<nat>)
    requires keys != {}
    ensures exists m: nat :: IsLeast(m, keys)
    decreases |keys|
  {
    var x :| x in keys;
    var rest := keys - {x};
    if rest == {} {
      assert keys == {x};
      assert IsLeast(x, keys);
    } else {
      assert |rest| < |keys|;
      LeastExists(rest);
      var m: nat :| IsLeast(m, rest);
      assert IsLeast(if x < m then x else m, keys) by {
        assert keys == rest + {x};
      }
    }
  }

  function Least(keys: set<nat>): (m: nat)
    requires keys != {}
    ensures IsLeast(m, keys)
  {
    LeastExists(keys);
    var m: nat :| m in keys && IsLeast(m, keys);
    m
  }

  function AscendingKeys(keys: set<nat>): (ks: seq<nat>)
    ensures StrictlyAscending(ks)
    ensures |ks| == |keys|
    ensures forall k :: k in ks <==> k in keys
    decreases |keys|
  {
    if keys == {} then []
    else
      var m := Least(keys);
      assert |keys - {m}| < |keys|;
      var rest := AscendingKeys(keys - {m});
      assert forall j | 0 <= j < |rest| :: rest[j] in rest;
      [m] + rest
  }

  /** A strictly ascending list is determined by its members. */
  lemma {:induction false} AscendingIsUnique(a: seq<nat>, b: seq<nat>)
    requires StrictlyAscending(a) && StrictlyAscending(b)
    requires forall k :: k in a <==> k in b
    ensures a == b
  {
    if a == [] {
      EmptyOrHasMember(b);
    } else {
      assert a[0] in b && b != [];
      assert b[0] in a;
      assert a[0] == b[0];
      forall k ensures k in a[1..] <==> k in b[1..] {
        assert k in a[1..] <==> k in a && k != a[0];
        assert k in b[1..] <==> k in b && k != b[0];
      }
      AscendingIsUnique(a[1..], b[1..]);
      assert a == [a[0]] + a[1..] && b == [b[0]] + b[1..];
    }
  }

  // ----- grouping into a map of buckets

  /** The map holds exactly the non-empty buckets. */
  ghost predicate IsGrouping<T>(groups: map<nat, seq<T>>, s: seq<T>, key: T -> nat) {
    forall k: nat ::
      && (k in groups <==> Bucket(s, key, k) != [])
      && (k in groups ==> groups[k] == Bucket(s, key, k))
  }

  /** Pushing onto the entry of an element's key, made if missing. */
  function PushEntry<T>(groups: map<nat, seq<T>>, k: nat, x: T): map<nat, seq<T>> {
    groups[k := (if k in groups then groups[k] else []) + [x]]
  }

  lemma GroupOneMore<T>(groups: map<nat, seq<T>>, s: seq<T>, x: T, key: T -> nat)
    requires IsGrouping(groups, s, key)
    ensures IsGrouping(PushEntry(groups, key(x), x), s + [x], key)
  {
    forall k: nat
      ensures Bucket(s + [x], key, k) == Bucket(s, key, k) + (if key(x) == k then [x] else [])
    {
      BucketSnoc(s, x, key, k);
    }
  }

  // ----- conservation: the buckets of distinct keys partition the sequence

  function SumOfBuckets<T>(s: seq<T>, key: T -> nat, ks: seq<nat>): nat {
    if ks == [] then 0
    else SumOfBuckets(s, key, ks[..|ks| - 1]) + |Bucket(s, key, ks[|ks| - 1])|
  }

  lemma LastBucket<T>(s: seq<T>, key: T -> nat, ks: seq<nat>, k: nat)
    ensures SumOfBuckets(s, key, ks + [k]) == SumOfBuckets(s, key, ks) + |Bucket(s, key, k)|
  {
    assert (ks + [k])[..|ks|] == ks;
  }

  lemma AscendingLast(ks: seq<nat>)
    requires StrictlyAscending(ks) && ks != []
    ensures ks == ks[..|ks| - 1] + [ks[|ks| - 1]]
    ensures StrictlyAscending(ks[..|ks| - 1]) && ks[|ks| - 1] !in ks[..|ks| - 1]
  {
  }

  lemma {:induction false} SumOfBucketsCons<T>(s: seq<T>, key: T -> nat, ks: seq<nat>)
    requires s != [] && StrictlyAscending(ks)
    ensures SumOfBuckets(s, key, ks) == SumOfBuckets(s[1..], key, ks) + (if key(s[0]) in ks then 1 else 0)
  {
    if ks == [] {
    } else {
      hide *;
      var front, k := ks[..|ks| - 1], ks[|ks| - 1];
      AscendingLast(ks);
      SumOfBucketsCons(s, key, front);
      LastBucket(s, key, front, k);
      LastBucket(s[1..], key, front, k);
      BucketOfTail(s, key, k);
      assert key(s[0]) in ks <==> key(s[0]) in front || key(s[0]) == k;
    }
  }

  lemma {:induction false} NoBuckets<T>(key: T -> nat, ks: seq<nat>)
    ensures SumOfBuckets([], key, ks) == 0
  {
    if ks == [] {
    } else {
      NoBuckets(key, ks[..|ks| - 1]);
    }
  }

  lemma {:induction false} BucketsPartition<T>(s: seq<T>, key: T -> nat, ks: seq<nat>)
    requires StrictlyAscending(ks) && forall i | 0 <= i < |s| :: key(s[i]) in ks
    ensures SumOfBuckets(s, key, ks) == |s|
  {
    if s == [] {
      NoBuckets(key, ks);
    } else {
      BucketsPartition(s[1..], key, ks);
      SumOfBucketsCons(s, key, ks);
    }
  }
}
