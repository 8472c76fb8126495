/** Facts about sequences that the solver should not have to search for. */
module Sequences {

  lemma Reassociate<T>(a: seq<T>, b: seq<T>, c: seq<T>)
    ensures (a + b) + c == a + (b + c)
  {
  }

  /** A concatenation comes apart at its first element. */
  lemma HeadAndTail<T>(s: seq<T>, t: seq<T>)
    requires s != []
    ensures (s + t)[0] == s[0] && (s + t)[1..] == s[1..] + t
  {
  }

  lemma WithEmpty<T>(s: seq<T>)
    ensures s + [] == s && [] + s == s
  {
  }

  lemma Prefixes<T>(all: seq<T>, i: nat)
    requires i <= |all|
    ensures i < |all| ==> all[..i + 1] == all[..i] + [all[i]]
    ensures all[..|all|] == all
  {
  }

  lemma EmptyOrHasMember<T>(s: seq<T>)
    ensures s == [] || exists x :: x in s
  {
    if s != [] {
      assert s[0] in s;
    }
  }

  function TrueCount(flags: seq<bool>): nat {
    if flags == [] then 0 else TrueCount(flags[..|flags| - 1]) + (if flags[|flags| - 1] then 1 else 0)
  }

  lemma TrueCountSnoc(flags: seq<bool>, flag: bool)
    ensures TrueCount(flags + [flag]) == TrueCount(flags) + (if flag then 1 else 0)
  {
    assert (flags + [flag])[..|flags|] == flags;
  }

  /** The indexes below `n` of the flags that are set. */
  ghost function TrueIndexes(flags: seq<bool>, n: nat): set<int>
    requires n <= |flags|
  {
    set i | 0 <= i < n && flags[i]
  }

  lemma TrueIndexesStep(flags: seq<bool>, n: nat)
    requires n < |flags|
    ensures n !in TrueIndexes(flags, n)
    ensures TrueIndexes(flags, n + 1) == TrueIndexes(flags, n) + (if flags[n] then {n} else {})
  {
  }

  lemma {:induction false} TrueCountOfPrefix(flags: seq<bool>, n: nat)
    requires n <= |flags|
    ensures TrueCount(flags[..n]) == |TrueIndexes(flags, n)|
  {
    if n == 0 {
    } else {
      hide *;
      TrueCountOfPrefix(flags, n - 1);
      TrueIndexesStep(flags, n - 1);
      assert flags[..n] == flags[..n - 1] + [flags[n - 1]];
      TrueCountSnoc(flags[..n - 1], flags[n - 1]);
    }
  }

  lemma TrueCountIsCardinality(flags: seq<bool>)
    ensures TrueCount(flags) == |set i | 0 <= i < |flags| && flags[i]|
  {
    TrueCountOfPrefix(flags, |flags|);
    assert flags[..|flags|] == flags;
    hide TrueCount;
  }
}
