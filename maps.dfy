/**
 The collision policy shared by every map-keyed merge of mixin.go (security
 schemes, schemas, parameters, responses and extension maps): walk the
 mixin's map; a key already in the primary is skipped and reported, any other
 key is inserted with the mixin's value.
 */
module MergeMaps {
  import opened OpenApi

  /** The keys of `keys` (in order) that are present in `present`. */
  function Colliding<V>(keys: seq<string>, present: map<string, V>): seq<string>
  {
    if keys == [] then []
    else
      var last := keys[|keys| - 1];
      Colliding(keys[..|keys| - 1], present) + (if last in present then [last] else [])
  }

  /** The state of the primary map and of the skip list after the first `n`
      iterations of the merge loop over `m`. */
  function MergeKeys<V>(p: Dict<V>, m: Dict<V>, n: nat): (Dict<V>, seq<string>)
    requires m.Valid() && n <= |m.keys|
  {
    if n == 0 then (p, [])
    else
      var prev := MergeKeys(p, m, n - 1);
      var k := m.keys[n - 1];
      if k in prev.0.entries then (prev.0, prev.1 + [k])
      else (Insert(prev.0, k, m.entries[k]), prev.1)
  }

  /** The merge of the whole of `m` into `p`. */
  function Merge<V>(p: Dict<V>, m: Dict<V>): (Dict<V>, seq<string>)
    requires m.Valid()
  {
    MergeKeys(p, m, |m.keys|)
  }

  /** The part of `m` visited in the first `n` iterations. */
  function VisitedEntries<V>(m: Dict<V>, n: nat): map<string, V>
    requires m.Valid() && n <= |m.keys|
  {
    if n == 0 then map[]
    else
      var k := m.keys[n - 1];
      VisitedEntries(m, n - 1)[k := m.entries[k]]
  }

  lemma {:induction false} VisitedDomain<V>(m: Dict<V>, n: nat)
    requires m.Valid() && n <= |m.keys|
    ensures forall k :: k in VisitedEntries(m, n) <==> k in m.keys[..n]
    ensures forall k :: k in VisitedEntries(m, n) ==> k in m.entries && VisitedEntries(m, n)[k] == m.entries[k]
  {
    if n > 0 {
      VisitedDomain(m, n - 1);
      assert m.keys[..n] == m.keys[..n - 1] + [m.keys[n - 1]];
    }
  }

  lemma VisitedStep<V>(m: Dict<V>, n: nat)
    requires m.Valid() && 0 < n <= |m.keys|
    ensures m.keys[n - 1] in m.entries
    ensures m.keys[n - 1] !in VisitedEntries(m, n - 1)
  {
    VisitedDomain(m, n - 1);
    DistinctKeysPrefix(m.keys, n);
  }

  lemma {:induction false} MergeKeysEntries<V>(p: Dict<V>, m: Dict<V>, n: nat)
    requires m.Valid() && n <= |m.keys|
    ensures MergeKeys(p, m, n).0.entries == VisitedEntries(m, n) + p.entries
  {
    if n > 0 {
      MergeKeysEntries(p, m, n - 1);
      VisitedStep(m, n);
      var k := m.keys[n - 1];
      OverlayStep(MergeKeys(p, m, n - 1).0.entries, VisitedEntries(m, n - 1), p.entries, k, m.entries[k]);
    }
  }

  /** One iteration of the loop, on plain maps. */
  lemma OverlayStep<V>(prev: map<string, V>, before: map<string, V>, p: map<string, V>, k: string, v: V)
    requires prev == before + p
    requires k !in before
    ensures k in prev <==> k in p
    ensures k in prev ==> prev == before[k := v] + p
    ensures k !in prev ==> prev[k := v] == before[k := v] + p
  {
  }

  lemma {:induction false} MergeKeysSkipped<V>(p: Dict<V>, m: Dict<V>, n: nat)
    requires m.Valid() && n <= |m.keys|
    ensures MergeKeys(p, m, n).1 == Colliding(m.keys[..n], p.entries)
  {
    if n > 0 {
      MergeKeysSkipped(p, m, n - 1);
      MergeKeysEntries(p, m, n - 1);
      VisitedStep(m, n);
      assert m.keys[..n][..n - 1] == m.keys[..n - 1];
    }
  }

  /** The merged map is a well-formed Go map again. */
  lemma {:induction false} MergeKeysValid<V>(p: Dict<V>, m: Dict<V>, n: nat)
    requires p.Valid() && m.Valid() && n <= |m.keys|
    ensures MergeKeys(p, m, n).0.Valid()
  {
    if n > 0 {
      MergeKeysValid(p, m, n - 1);
    }
  }

  /** Merging never overwrites: the result is the mixin's map overlaid by the
      primary's, and the skip list holds exactly the colliding keys, each once,
      in the order in which the mixin's map is visited. */
  lemma MergeMeaning<V>(p: Dict<V>, m: Dict<V>)
    requires m.Valid()
    ensures Merge(p, m).0.entries == m.entries + p.entries
    ensures Merge(p, m).1 == Colliding(m.keys, p.entries)
    ensures p.Valid() ==> Merge(p, m).0.Valid()
  {
    MergeKeysEntries(p, m, |m.keys|);
    MergeKeysSkipped(p, m, |m.keys|);
    if p.Valid() {
      MergeKeysValid(p, m, |m.keys|);
    }
    assert m.keys[..|m.keys|] == m.keys;
    VisitedDomain(m, |m.keys|);
    assert VisitedEntries(m, |m.keys|) == m.entries;
  }

  lemma {:induction false} CollidingMembers<V>(keys: seq<string>, present: map<string, V>)
    requires DistinctKeys(keys)
    ensures forall k :: k in Colliding(keys, present) <==> k in keys && k in present
    ensures Distinct(Colliding(keys, present))
  {
    if keys != [] {
      var init := keys[..|keys| - 1];
      var last := keys[|keys| - 1];
      DistinctKeysPrefix(keys, |keys|);
      CollidingMembers(init, present);
      assert last !in init;
      assert keys == init + [last];
    }
  }

  /** Skip accounting: every colliding key is reported exactly once; the keys
      are the union of both key sets. */
  lemma MergeSkipAccounting<V>(p: Dict<V>, m: Dict<V>)
    requires m.Valid()
    ensures var r := Merge(p, m);
      && r.0.entries.Keys == p.entries.Keys + m.entries.Keys
      && (forall k :: k in r.1 <==> k in p.entries && k in m.entries)
      && Distinct(r.1)
  {
    MergeMeaning(p, m);
    CollidingMembers(m.keys, p.entries);
  }

  /** Merging a mixin whose keys are all present already leaves the primary
      exactly as it was (its visit order included) and reports every one of
      the mixin's keys, in visit order. */
  lemma {:induction false} MergeKeysIdle<V>(p: Dict<V>, m: Dict<V>, n: nat)
    requires m.Valid() && n <= |m.keys|
    requires m.entries.Keys <= p.entries.Keys
    ensures MergeKeys(p, m, n) == (p, m.keys[..n])
  {
    if n > 0 {
      MergeKeysIdle(p, m, n - 1);
      assert m.keys[n - 1] in m.entries;
      assert m.keys[..n] == m.keys[..n - 1] + [m.keys[n - 1]];
    }
  }

  lemma MergeSubsetIsIdle<V>(p: Dict<V>, m: Dict<V>)
    requires m.Valid()
    requires m.entries.Keys <= p.entries.Keys
    ensures Merge(p, m) == (p, m.keys)
  {
    MergeKeysIdle(p, m, |m.keys|);
    assert m.keys[..|m.keys|] == m.keys;
  }

  /** The merge loop: `for k, v := range m { if exists { skip } else { p[k] = v } }`. */
  method MergeEntries<V>(p: Dict<V>, m: Dict<V>) returns (r: Dict<V>, collided: seq<string>)
    requires m.Valid()
    ensures (r, collided) == Merge(p, m)
  {
    r, collided := p, [];
    for i := 0 to |m.keys|
      invariant (r, collided) == MergeKeys(p, m, i)
    {
      var k := m.keys[i];
      if k in r.entries {
        collided := collided + [k];
      } else {
        r := Insert(r, k, m.entries[k]);
      }
    }
  }
}
