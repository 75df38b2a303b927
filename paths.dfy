/**
 The path merger of mixin.go (mergePaths): a mixin path whose key is already
 in the primary is skipped whole, with one diagnostic; any other path entry is
 inserted under the same key after its operation ids have been renamed
 against the running id set.
 */
module PathMerge {
  import opened OpenApi
  import opened Operations
  import MergeMaps

  /** The operation ids of the first `n` entries of `d`, entry after entry. */
  function OpIdListUpTo(d: Dict<PathItem>, n: nat): seq<string>
    requires d.Valid() && n <= |d.keys|
  {
    if n == 0 then []
    else
      var k := d.keys[n - 1];
      OpIdListUpTo(d, n - 1) + ItemIds(d.entries[k])
  }

  /** Every operation id of every path entry, with repetitions. */
  function OpIdList(d: Dict<PathItem>): seq<string>
    requires d.Valid()
  {
    OpIdListUpTo(d, |d.keys|)
  }

  lemma {:induction false} OpIdListUpToInsert(d: Dict<PathItem>, k: string, v: PathItem, n: nat)
    requires d.Valid() && k !in d.entries && n <= |d.keys|
    ensures OpIdListUpTo(Insert(d, k, v), n) == OpIdListUpTo(d, n)
  {
    if n > 0 {
      OpIdListUpToInsert(d, k, v, n - 1);
    }
  }

  /** Inserting a path entry adds exactly its operation ids. */
  lemma OpIdListInsert(d: Dict<PathItem>, k: string, v: PathItem)
    requires d.Valid() && k !in d.entries
    ensures OpIdList(Insert(d, k, v)) == OpIdList(d) + ItemIds(v)
  {
    OpIdListUpToInsert(d, k, v, |d.keys|);
    var r := Insert(d, k, v);
    assert r.keys[|d.keys|] == k;
  }

  /** The state of mergePaths after the first `n` iterations over the mixin's
      paths: the primary's paths, the running id set and the skipped keys. */
  datatype PathsState = PathsState(items: Dict<PathItem>, ids: set<string>, skipped: seq<string>)

  function MergePathKeys(p: Dict<PathItem>, m: Dict<PathItem>, ids: set<string>, suffix: string, n: nat): PathsState
    requires m.Valid() && n <= |m.keys|
  {
    if n == 0 then PathsState(p, ids, [])
    else
      var prev := MergePathKeys(p, m, ids, suffix, n - 1);
      var k := m.keys[n - 1];
      if k in prev.items.entries then prev.(skipped := prev.skipped + [k])
      else
        var renamed := RenameUpTo(m.entries[k], prev.ids, suffix, 6);
        PathsState(Insert(prev.items, k, renamed.0), renamed.1, prev.skipped)
  }

  /** The merge of all of the mixin's paths, by the mixin at `mixIndex`. */
  function MergePathsDict(p: Dict<PathItem>, m: Dict<PathItem>, ids: set<string>, mixIndex: nat): PathsState
    requires m.Valid()
  {
    MergePathKeys(p, m, ids, Suffix(mixIndex), |m.keys|)
  }

  /** Some inserted path entry has a rename that lands on a taken id. */
  predicate PathsClash(p: Dict<PathItem>, m: Dict<PathItem>, ids: set<string>, suffix: string, n: nat)
    requires m.Valid() && n <= |m.keys|
  {
    n > 0 &&
    (PathsClash(p, m, ids, suffix, n - 1) ||
      var prev := MergePathKeys(p, m, ids, suffix, n - 1);
      var k := m.keys[n - 1];
      k !in prev.items.entries && RenameClash(m.entries[k], prev.ids, suffix, 6))
  }

  /** `a` is `b` with some operation ids extended by `suffix`, and nothing else
      changed. */
  ghost predicate IsRenaming(a: PathItem, b: PathItem, suffix: string)
  {
    forall i :: 0 <= i < 6 ==>
      && (Slot(a, i).None? <==> Slot(b, i).None?)
      && (Slot(b, i).Some? ==>
            && Slot(a, i).value.body == Slot(b, i).value.body
            && (Slot(a, i).value.id == Slot(b, i).value.id || Slot(a, i).value.id == Slot(b, i).value.id + suffix))
  }

  lemma RenameIsRenaming(v: PathItem, ids: set<string>, suffix: string)
    ensures IsRenaming(RenameUpTo(v, ids, suffix, 6).0, v, suffix)
  {
    RenameRule(v, ids, suffix, 6);
  }

  /** Path entries collide exactly as the keys of a plain map merge do: the
      key set and the skip list are those of MergeMaps.MergeKeys. */
  lemma {:induction false} MergePathKeysShape(p: Dict<PathItem>, m: Dict<PathItem>, ids: set<string>, suffix: string, n: nat)
    requires m.Valid() && n <= |m.keys|
    ensures MergePathKeys(p, m, ids, suffix, n).items.entries.Keys == MergeMaps.MergeKeys(p, m, n).0.entries.Keys
    ensures MergePathKeys(p, m, ids, suffix, n).skipped == MergeMaps.MergeKeys(p, m, n).1
  {
    if n > 0 {
      MergePathKeysShape(p, m, ids, suffix, n - 1);
    }
  }

  /** The primary's own path entries are never replaced. */
  lemma {:induction false} MergePathKeysKeepsPrimary(p: Dict<PathItem>, m: Dict<PathItem>, ids: set<string>, suffix: string, n: nat)
    requires m.Valid() && n <= |m.keys|
    ensures var r := MergePathKeys(p, m, ids, suffix, n);
      forall k :: k in p.entries ==> k in r.items.entries && r.items.entries[k] == p.entries[k]
  {
    if n > 0 {
      MergePathKeysKeepsPrimary(p, m, ids, suffix, n - 1);
    }
  }

  /** Every entry the merge adds is the mixin's entry up to renaming. */
  lemma {:induction false} MergePathKeysRenamed(p: Dict<PathItem>, m: Dict<PathItem>, ids: set<string>, suffix: string, n: nat)
    requires m.Valid() && n <= |m.keys|
    ensures var r := MergePathKeys(p, m, ids, suffix, n);
      forall k :: k in r.items.entries && k !in p.entries ==>
        k in m.entries && IsRenaming(r.items.entries[k], m.entries[k], suffix)
  {
    if n > 0 {
      MergePathKeysRenamed(p, m, ids, suffix, n - 1);
      var prev := MergePathKeys(p, m, ids, suffix, n - 1);
      var k := m.keys[n - 1];
      if k !in prev.items.entries {
        RenameIsRenaming(m.entries[k], prev.ids, suffix);
      }
    }
  }

  /** Path collision skips the whole entry: the primary's path keys grow by
      the mixin's, the primary's own entries are untouched, every inserted
      entry is the mixin's entry up to op-id renaming, and the skip list holds
      exactly the colliding path keys. */
  lemma MergePathsMeaning(p: Dict<PathItem>, m: Dict<PathItem>, ids: set<string>, mixIndex: nat)
    requires m.Valid()
    ensures var r := MergePathsDict(p, m, ids, mixIndex);
      && r.items.entries.Keys == p.entries.Keys + m.entries.Keys
      && (forall k :: k in p.entries ==> r.items.entries[k] == p.entries[k])
      && (forall k :: k in m.entries && k !in p.entries ==> IsRenaming(r.items.entries[k], m.entries[k], Suffix(mixIndex)))
      && r.skipped == MergeMaps.Colliding(m.keys, p.entries)
  {
    MergePathKeysShape(p, m, ids, Suffix(mixIndex), |m.keys|);
    MergePathKeysKeepsPrimary(p, m, ids, Suffix(mixIndex), |m.keys|);
    MergePathKeysRenamed(p, m, ids, Suffix(mixIndex), |m.keys|);
    MergeMaps.MergeMeaning(p, m);
  }

  /** The merged paths are a well-formed Go map again. */
  lemma {:induction false} MergePathKeysValid(p: Dict<PathItem>, m: Dict<PathItem>, ids: set<string>, suffix: string, n: nat)
    requires p.Valid() && m.Valid() && n <= |m.keys|
    ensures MergePathKeys(p, m, ids, suffix, n).items.Valid()
  {
    if n > 0 {
      MergePathKeysValid(p, m, ids, suffix, n - 1);
    }
  }

  lemma ElemsConcat<T>(a: seq<T>, b: seq<T>)
    ensures Elems(a + b) == Elems(a) + Elems(b)
  {
  }

  /** The id set only grows. */
  lemma {:induction false} MergePathIdsGrow(p: Dict<PathItem>, m: Dict<PathItem>, ids: set<string>, suffix: string, n: nat)
    requires m.Valid() && n <= |m.keys|
    ensures ids <= MergePathKeys(p, m, ids, suffix, n).ids
  {
    if n > 0 {
      MergePathIdsGrow(p, m, ids, suffix, n - 1);
      var prev := MergePathKeys(p, m, ids, suffix, n - 1);
      var k := m.keys[n - 1];
      if k !in prev.items.entries {
        RenameIds(m.entries[k], prev.ids, suffix, 6);
      }
    }
  }

  /** The id set stays equal to the set of operation ids in the primary's
      paths when it started out so. */
  lemma {:induction false} MergePathIds(p: Dict<PathItem>, m: Dict<PathItem>, ids: set<string>, suffix: string, n: nat)
    requires p.Valid() && m.Valid() && n <= |m.keys|
    requires ids == Elems(OpIdList(p))
    ensures MergePathKeys(p, m, ids, suffix, n).items.Valid()
    ensures MergePathKeys(p, m, ids, suffix, n).ids == Elems(OpIdList(MergePathKeys(p, m, ids, suffix, n).items))
  {
    if n > 0 {
      MergePathIds(p, m, ids, suffix, n - 1);
      var prev := MergePathKeys(p, m, ids, suffix, n - 1);
      var k := m.keys[n - 1];
      if k !in prev.items.entries {
        var renamed := RenameUpTo(m.entries[k], prev.ids, suffix, 6);
        RenameIds(m.entries[k], prev.ids, suffix, 6);
        OpIdListInsert(prev.items, k, renamed.0);
        ElemsConcat(OpIdList(prev.items), ItemIds(renamed.0));
      }
    }
  }

  lemma DistinctConcat<T>(a: seq<T>, b: seq<T>)
    requires Distinct(a) && Distinct(b) && Elems(a) !! Elems(b)
    ensures Distinct(a + b)
  {
    forall i, j | 0 <= i < j < |a + b| ensures (a + b)[i] != (a + b)[j] {
      if j < |a| {
        assert (a + b)[i] == a[i] && (a + b)[j] == a[j];
      } else if i < |a| {
        assert (a + b)[i] == a[i] && (a + b)[j] == b[j - |a|];
        assert a[i] in Elems(a) && b[j - |a|] in Elems(b);
      } else {
        assert (a + b)[i] == b[i - |a|] && (a + b)[j] == b[j - |a|];
      }
    }
  }

  /** Operation-id uniqueness, in the weaker form the code supports: if the
      primary's operation ids were pairwise distinct and the id set was
      exactly them, and no rename lands on a taken id, the ids stay pairwise
      distinct. */
  lemma {:induction false} MergePathsUnique(p: Dict<PathItem>, m: Dict<PathItem>, ids: set<string>, suffix: string, n: nat)
    requires p.Valid() && m.Valid() && n <= |m.keys| && |suffix| > 0
    requires ids == Elems(OpIdList(p)) && Distinct(OpIdList(p))
    requires !PathsClash(p, m, ids, suffix, n)
    ensures MergePathKeys(p, m, ids, suffix, n).items.Valid()
    ensures Distinct(OpIdList(MergePathKeys(p, m, ids, suffix, n).items))
  {
    if n > 0 {
      MergePathsUnique(p, m, ids, suffix, n - 1);
      MergePathIds(p, m, ids, suffix, n - 1);
      var prev := MergePathKeys(p, m, ids, suffix, n - 1);
      var k := m.keys[n - 1];
      if k !in prev.items.entries {
        var v := m.entries[k];
        var renamed := RenameUpTo(v, prev.ids, suffix, 6);
        RenameFresh(v, prev.ids, suffix, 6);
        OpIdListInsert(prev.items, k, renamed.0);
        DistinctConcat(OpIdList(prev.items), ItemIds(renamed.0));
      }
    }
  }

  /** The loop of mergePaths over the mixin's path entries. */
  method MergePathEntries(p: Dict<PathItem>, m: Dict<PathItem>, ids: set<string>, mixIndex: nat)
    returns (r: Dict<PathItem>, ids': set<string>, skipped: seq<string>)
    requires m.Valid()
    ensures PathsState(r, ids', skipped) == MergePathsDict(p, m, ids, mixIndex)
  {
    r, ids', skipped := p, ids, [];
    for i := 0 to |m.keys|
      invariant PathsState(r, ids', skipped) == MergePathKeys(p, m, ids, Suffix(mixIndex), i)
    {
      var k := m.keys[i];
      if k in r.entries {
        skipped := skipped + [k];
      } else {
        var v;
        v, ids' := RenameOperations(m.entries[k], ids', mixIndex);
        r := Insert(r, k, v);
      }
    }
  }
}
