/**
 The collision policy of the two list-valued merges of mixin.go: a mixin
 element is appended to the primary list unless an element with the same key
 is already there (including elements appended earlier from the same mixin);
 otherwise it is skipped. Tags are keyed by their name, security requirements
 by the whole requirement.
 */
module MergeLists {
  import opened OpenApi

  predicate HasKey<T, K(==)>(s: seq<T>, key: T -> K, k: K)
  {
    exists i :: 0 <= i < |s| && key(s[i]) == k
  }

  /** The keys of the elements of `s`. */
  ghost function KeySet<T, K>(s: seq<T>, key: T -> K): set<K>
  {
    set i | 0 <= i < |s| :: key(s[i])
  }

  /** No two elements of `s` share a key. */
  ghost predicate UniqueKeys<T, K>(s: seq<T>, key: T -> K)
  {
    forall i, j :: 0 <= i < j < |s| ==> key(s[i]) != key(s[j])
  }

  /** The primary list and the skipped elements after the first `n` iterations
      of the outer loop over `m`. */
  function AppendNew<T, K(==)>(p: seq<T>, m: seq<T>, key: T -> K, n: nat): (seq<T>, seq<T>)
    requires n <= |m|
  {
    if n == 0 then (p, [])
    else
      var prev := AppendNew(p, m, key, n - 1);
      var v := m[n - 1];
      if HasKey(prev.0, key, key(v)) then (prev.0, prev.1 + [v])
      else (prev.0 + [v], prev.1)
  }

  /** The existing list is an unchanged prefix of the result, and every mixin
      element is either appended or skipped, exactly once. */
  lemma {:induction false} AppendNewPartition<T, K>(p: seq<T>, m: seq<T>, key: T -> K, n: nat)
    requires n <= |m|
    ensures var r := AppendNew(p, m, key, n);
      && |p| <= |r.0| && r.0[..|p|] == p
      && multiset(r.0[|p|..]) + multiset(r.1) == multiset(m[..n])
  {
    if n > 0 {
      AppendNewPartition(p, m, key, n - 1);
      var prev := AppendNew(p, m, key, n - 1);
      var r := AppendNew(p, m, key, n);
      assert m[..n] == m[..n - 1] + [m[n - 1]];
      if HasKey(prev.0, key, key(m[n - 1])) {
        assert r.0 == prev.0;
      } else {
        assert r.0[|p|..] == prev.0[|p|..] + [m[n - 1]];
        assert r.0[..|p|] == prev.0[..|p|];
      }
    }
  }

  /** The keys present afterwards are those of the primary and of the mixin. */
  lemma {:induction false} AppendNewKeys<T, K>(p: seq<T>, m: seq<T>, key: T -> K, n: nat)
    requires n <= |m|
    ensures KeySet(AppendNew(p, m, key, n).0, key) == KeySet(p, key) + KeySet(m[..n], key)
  {
    if n > 0 {
      AppendNewKeys(p, m, key, n - 1);
      var prev := AppendNew(p, m, key, n - 1).0;
      var v := m[n - 1];
      assert KeySet(m[..n], key) == KeySet(m[..n - 1], key) + {key(v)} by {
        assert m[..n] == m[..n - 1] + [v];
        assert forall i :: 0 <= i < n - 1 ==> m[..n][i] == m[..n - 1][i];
      }
      if HasKey(prev, key, key(v)) {
        var i :| 0 <= i < |prev| && key(prev[i]) == key(v);
        assert key(v) in KeySet(prev, key);
      } else {
        assert KeySet(prev + [v], key) == KeySet(prev, key) + {key(v)} by {
          assert forall i :: 0 <= i < |prev| ==> (prev + [v])[i] == prev[i];
          assert (prev + [v])[|prev|] == v;
        }
      }
    }
  }

  /** Appending keeps keys unique: if the primary's elements had distinct keys,
      so do the result's. */
  lemma {:induction false} AppendNewUnique<T, K>(p: seq<T>, m: seq<T>, key: T -> K, n: nat)
    requires n <= |m|
    requires UniqueKeys(p, key)
    ensures UniqueKeys(AppendNew(p, m, key, n).0, key)
  {
    if n > 0 {
      AppendNewUnique(p, m, key, n - 1);
      var prev := AppendNew(p, m, key, n - 1).0;
      var v := m[n - 1];
      if !HasKey(prev, key, key(v)) {
        var r := prev + [v];
        forall i, j | 0 <= i < j < |r| ensures key(r[i]) != key(r[j]) {
          if j < |prev| {
            assert r[i] == prev[i] && r[j] == prev[j];
          } else {
            assert r[i] == prev[i] && r[j] == v;
          }
        }
      }
    }
  }

  /** A mixin element is skipped exactly when its key is already in the
      primary or belongs to an earlier element of the same mixin. */
  lemma {:induction false} AppendNewSkipsIff<T, K>(p: seq<T>, m: seq<T>, key: T -> K, n: nat)
    requires 0 < n <= |m|
    ensures var prev := AppendNew(p, m, key, n - 1);
      && (HasKey(prev.0, key, key(m[n - 1])) <==> key(m[n - 1]) in KeySet(p, key) + KeySet(m[..n - 1], key))
      && AppendNew(p, m, key, n)
         == if key(m[n - 1]) in KeySet(p, key) + KeySet(m[..n - 1], key)
            then (prev.0, prev.1 + [m[n - 1]])
            else (prev.0 + [m[n - 1]], prev.1)
  {
    var prev := AppendNew(p, m, key, n - 1).0;
    AppendNewKeys(p, m, key, n - 1);
    var k := key(m[n - 1]);
    if k in KeySet(prev, key) {
      var i :| 0 <= i < |prev| && key(prev[i]) == k;
    }
  }

  /** Merging a mixin whose keys are all present already appends nothing and
      skips every element. */
  lemma {:induction false} AppendNewIdle<T, K>(p: seq<T>, m: seq<T>, key: T -> K, n: nat)
    requires n <= |m|
    requires KeySet(m, key) <= KeySet(p, key)
    ensures AppendNew(p, m, key, n) == (p, m[..n])
  {
    if n > 0 {
      AppendNewIdle(p, m, key, n - 1);
      var k := key(m[n - 1]);
      assert k in KeySet(m, key);
      assert k in KeySet(p, key);
      var i :| 0 <= i < |p| && key(p[i]) == k;
      assert HasKey(p, key, k);
      assert m[..n] == m[..n - 1] + [m[n - 1]];
    }
  }

  /** The number of elements of `s` whose key is `x`. */
  ghost function KeyCount<T, K>(s: seq<T>, key: T -> K, x: K): nat
  {
    if s == [] then 0
    else KeyCount(s[..|s| - 1], key, x) + (if key(s[|s| - 1]) == x then 1 else 0)
  }

  lemma {:induction false} KeyCountPositive<T, K>(s: seq<T>, key: T -> K, x: K)
    ensures KeyCount(s, key, x) > 0 <==> x in KeySet(s, key)
  {
    if s != [] {
      var init := s[..|s| - 1];
      KeyCountPositive(init, key, x);
      assert KeySet(s, key) == KeySet(init, key) + {key(s[|s| - 1])} by {
        assert forall i :: 0 <= i < |init| ==> s[i] == init[i];
      }
    }
  }

  /** How often a key is reported by a merge in which `c` elements carry it:
      every one of them when the key is present already, all but the first
      otherwise. */
  function Reported(present: bool, c: nat): nat
  {
    if present then c else if c == 0 then 0 else c - 1
  }

  /** Counting the skips: of the mixin elements carrying key `x`, all are
      skipped when the primary has `x`, and all but the first otherwise. */
  lemma {:induction false} AppendNewSkipCount<T, K>(p: seq<T>, m: seq<T>, key: T -> K, n: nat, x: K)
    requires n <= |m|
    ensures KeyCount(AppendNew(p, m, key, n).1, key, x) == Reported(x in KeySet(p, key), KeyCount(m[..n], key, x))
  {
    if n > 0 {
      AppendNewSkipCount(p, m, key, n - 1, x);
      AppendNewSkipsIff(p, m, key, n);
      var prev := AppendNew(p, m, key, n - 1);
      var v := m[n - 1];
      assert m[..n][..n - 1] == m[..n - 1];
      assert (prev.1 + [v])[..|prev.1|] == prev.1;
      KeyCountPositive(m[..n - 1], key, x);
    }
  }

  /** The two nested `found` loops of mergeTags / mergeSecurityRequirements. */
  method AppendUnique<T, K(==)>(p: seq<T>, m: seq<T>, key: T -> K) returns (r: seq<T>, skipped: seq<T>)
    ensures (r, skipped) == AppendNew(p, m, key, |m|)
  {
    r, skipped := p, [];
    for i := 0 to |m|
      invariant (r, skipped) == AppendNew(p, m, key, i)
    {
      var v := m[i];
      var found := false;
      for j := 0 to |r|
        invariant found <==> exists l :: 0 <= l < j && key(r[l]) == key(v)
      {
        if key(v) == key(r[j]) {
          found := true;
          break;
        }
      }
      assert found <==> HasKey(r, key, key(v));
      if found {
        skipped := skipped + [v];
      } else {
        r := r + [v];
      }
      assert (r, skipped) == AppendNew(p, m, key, i + 1);
    }
  }
}
