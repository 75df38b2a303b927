/**
 What Mixin guarantees about the merged document, stated on Mixins.Run (which
 the Document class's Mixin method is proved to compute): one lemma per
 iteration of the loop (Mixins.Step), one per run of the loop from any state
 (Mixins.Fold), and the consequences for the primary document.
 */
module MixinProperties {
  import opened OpenApi
  import opened Operations
  import opened Mixins
  import MergeMaps
  import MergeLists
  import PathMerge
  import Metadata

  /** An empty Go map has no entries. */
  lemma EmptyKeysNoEntries<V>(d: Dict<V>)
    requires d.Valid() && d.keys == []
    ensures d.entries == map[]
  {
    assert forall k | k in d.entries :: k in d.keys;
  }

  /** The union of `f` over the mixins from index `k` on. */
  ghost function UnionFrom<K>(f: Swagger -> set<K>, ms: seq<Swagger>, k: nat): set<K>
    requires k <= |ms|
    decreases |ms| - k
  {
    if k == |ms| then {} else f(ms[k]) + UnionFrom(f, ms, k + 1)
  }

  lemma {:induction false} UnionFromHas<K>(f: Swagger -> set<K>, ms: seq<Swagger>, k: nat, x: K)
    requires k <= |ms|
    ensures x in UnionFrom(f, ms, k) <==> exists j :: k <= j < |ms| && x in f(ms[j])
    decreases |ms| - k
  {
    if k < |ms| {
      UnionFromHas(f, ms, k + 1, x);
      if x in f(ms[k]) {
        assert exists j :: k <= j < |ms| && x in f(ms[j]);
      }
      if exists j :: k <= j < |ms| && x in f(ms[j]) {
        var j :| k <= j < |ms| && x in f(ms[j]);
        if j > k {
          assert exists j :: k + 1 <= j < |ms| && x in f(ms[j]);
        }
      }
    }
  }

  // ---------------------------------------------------------------------
  // One iteration, merger by merger

  /** The eight merger results of one iteration, in source order, each on the
      document the previous one left. */
  lemma StepParts(st: RunState, m: Swagger, i: nat)
      returns (p1: (Swagger, seq<Skip>), p2: (Swagger, seq<Skip>), p3: (Swagger, seq<Skip>),
               p4: (Swagger, seq<Skip>), p5: (Swagger, seq<Skip>), p6: (Swagger, set<string>, seq<Skip>),
               p7: (Swagger, seq<Skip>), p8: (Swagger, seq<Skip>))
    requires ValidSwagger(m) && Ready(st.doc)
    ensures && p1 == PropsMerged(st.doc, m)
            && p2 == TagsMerged(p1.0, m)
            && p3 == ComponentMerged(p2.0, m, SecuritySchemesKind)
            && p4 == RequirementsMerged(p3.0, m)
            && p5 == ComponentMerged(p4.0, m, SchemasKind)
            && p6 == PathsMerged(p5.0, m, st.ids, i)
            && p7 == ComponentMerged(p6.0, m, ParametersKind)
            && p8 == ComponentMerged(p7.0, m, ResponsesKind)
    ensures Step(st, m, i) == RunState(p8.0, p6.1, st.skipped + (p1.1 + p2.1 + p3.1 + p4.1 + p5.1 + p6.2 + p7.1 + p8.1))
  {
    p1 := PropsMerged(st.doc, m);
    p2 := TagsMerged(p1.0, m);
    p3 := ComponentMerged(p2.0, m, SecuritySchemesKind);
    p4 := RequirementsMerged(p3.0, m);
    p5 := ComponentMerged(p4.0, m, SchemasKind);
    p6 := PathsMerged(p5.0, m, st.ids, i);
    p7 := ComponentMerged(p6.0, m, ParametersKind);
    p8 := ComponentMerged(p7.0, m, ResponsesKind);
  }

  // ---------------------------------------------------------------------
  // Zero mixins

  /** With no mixin the skip list is empty, the primary is only initialised,
      and the id set is the one harvested from it. */
  lemma NoMixins(d: Swagger)
    requires ValidPaths(d.paths)
    ensures Run(d, []) == RunState(InitPrimaryOf(d), OpIds(d), [])
    ensures Run(d, []).skipped == []
  {
  }

  // ---------------------------------------------------------------------
  // Components: the first writer wins

  /** One component merger adds the mixin's entries under the ones already
      there, and leaves the other three kinds alone. */
  lemma ComponentMergedEntries(s: Swagger, m: Swagger, merged: ComponentKind, kind: ComponentKind)
    requires ValidComponents(m.components)
    ensures ComponentEntries(ComponentMerged(s, m, merged).0, kind)
         == if merged == kind then ComponentEntries(m, kind) + ComponentEntries(s, kind)
            else ComponentEntries(s, kind)
  {
    if m.components.None? || GetComponent(m.components.value, merged).None? {
    } else if GetComponent(m.components.value, merged).value.keys == [] {
      EmptyKeysNoEntries(GetComponent(m.components.value, merged).value);
    } else {
      var c := if s.components.None? then Components(None, None, None, None) else s.components.value;
      var d := if GetComponent(c, merged).None? then EmptyDict() else GetComponent(c, merged).value;
      var mm := GetComponent(m.components.value, merged).value;
      var r := ComponentMerged(s, m, merged).0;
      assert r.components == Some(SetComponent(c, merged, Some(MergeMaps.Merge(d, mm).0)));
      if merged == kind {
        MergeMaps.MergeMeaning(d, mm);
        assert ComponentEntries(r, kind) == MergeMaps.Merge(d, mm).0.entries;
        assert d.entries == ComponentEntries(s, kind);
      } else {
        assert GetComponent(r.components.value, kind) == GetComponent(c, kind);
      }
    }
  }

  /** One iteration of the loop: every component map gets the mixin's
      entries under the ones already there. */
  lemma StepComponents(st: RunState, m: Swagger, i: nat, kind: ComponentKind)
    requires ValidSwagger(m) && Ready(st.doc)
    ensures ComponentEntries(Step(st, m, i).doc, kind) == ComponentEntries(m, kind) + ComponentEntries(st.doc, kind)
  {
    var p1, p2, p3, p4, p5, p6, p7, p8 := StepParts(st, m, i);
    ComponentMergedEntries(p2.0, m, SecuritySchemesKind, kind);
    ComponentMergedEntries(p4.0, m, SchemasKind, kind);
    ComponentMergedEntries(p6.0, m, ParametersKind, kind);
    ComponentMergedEntries(p7.0, m, ResponsesKind, kind);
  }

  /** The reference definition: the entries already there overlay those of
      mixin `k`, which overlay those of mixin `k + 1`, and so on. */
  ghost function Overlay(base: map<string, Value>, ms: seq<Swagger>, k: nat, kind: ComponentKind): map<string, Value>
    requires k <= |ms|
    decreases |ms| - k
  {
    if k == |ms| then base else Overlay(ComponentEntries(ms[k], kind) + base, ms, k + 1, kind)
  }

  /** The loop computes exactly the reference overlay for every component kind. */
  lemma {:induction false} FoldComponents(st: RunState, ms: seq<Swagger>, k: nat, kind: ComponentKind)
    requires k <= |ms| && Ready(st.doc) && ValidMixins(ms)
    ensures ComponentEntries(Fold(st, ms, k).doc, kind) == Overlay(ComponentEntries(st.doc, kind), ms, k, kind)
    decreases |ms| - k
  {
    if k < |ms| {
      StepComponents(st, ms[k], k, kind);
      FoldComponents(Step(st, ms[k], k), ms, k + 1, kind);
    }
  }

  /** The keys of the overlay are those of the base and of every mixin from
      `k` on, and the base's entries are never overwritten. */
  lemma {:induction false} OverlayKeys(base: map<string, Value>, ms: seq<Swagger>, k: nat, kind: ComponentKind, key: string)
    requires k <= |ms|
    ensures key in Overlay(base, ms, k, kind) <==>
      key in base || exists j :: k <= j < |ms| && key in ComponentEntries(ms[j], kind)
    ensures key in base ==> Overlay(base, ms, k, kind)[key] == base[key]
    decreases |ms| - k
  {
    if k < |ms| {
      OverlayKeys(ComponentEntries(ms[k], kind) + base, ms, k + 1, kind, key);
      if key in ComponentEntries(ms[k], kind) {
        assert exists j :: k <= j < |ms| && key in ComponentEntries(ms[j], kind);
      }
      if exists j :: k <= j < |ms| && key in ComponentEntries(ms[j], kind) {
        var j :| k <= j < |ms| && key in ComponentEntries(ms[j], kind);
        if j > k {
          assert exists j :: k + 1 <= j < |ms| && key in ComponentEntries(ms[j], kind);
        }
      }
    }
  }

  /** A key the base lacks takes the entry of the first mixin that has it. */
  lemma {:induction false} OverlayFirst(base: map<string, Value>, ms: seq<Swagger>, k: nat, kind: ComponentKind, key: string, j: nat)
    requires k <= j < |ms|
    requires key !in base && key in ComponentEntries(ms[j], kind)
    requires forall i :: k <= i < j ==> key !in ComponentEntries(ms[i], kind)
    ensures key in Overlay(base, ms, k, kind)
    ensures Overlay(base, ms, k, kind)[key] == ComponentEntries(ms[j], kind)[key]
    decreases |ms| - k
  {
    var next := ComponentEntries(ms[k], kind) + base;
    if j == k {
      OverlayKeys(next, ms, k + 1, kind, key);
    } else {
      OverlayFirst(next, ms, k + 1, kind, key, j);
    }
  }

  /** Component mergers never overwrite: after Mixin a component key is
      present exactly when the primary or some mixin has it, the primary's
      entry is kept, and otherwise the entry of the first mixin that has the
      key wins. */
  lemma ComponentsFirstWriterWins(d: Swagger, ms: seq<Swagger>, kind: ComponentKind, key: string)
    requires ValidPaths(d.paths) && ValidMixins(ms)
    ensures var r := ComponentEntries(Run(d, ms).doc, kind);
      && (key in r <==> key in ComponentEntries(d, kind) || exists j :: 0 <= j < |ms| && key in ComponentEntries(ms[j], kind))
      && (key in ComponentEntries(d, kind) ==> r[key] == ComponentEntries(d, kind)[key])
      && (forall j :: (0 <= j < |ms| && key !in ComponentEntries(d, kind) && key in ComponentEntries(ms[j], kind) &&
            (forall i :: 0 <= i < j ==> key !in ComponentEntries(ms[i], kind))) ==>
            r[key] == ComponentEntries(ms[j], kind)[key])
  {
    InitPrimaryMeaning(d);
    FoldComponents(Start(d), ms, 0, kind);
    OverlayKeys(ComponentEntries(d, kind), ms, 0, kind, key);
    forall j | 0 <= j < |ms| && key !in ComponentEntries(d, kind) && key in ComponentEntries(ms[j], kind) &&
        (forall i :: 0 <= i < j ==> key !in ComponentEntries(ms[i], kind))
      ensures ComponentEntries(Run(d, ms).doc, kind)[key] == ComponentEntries(ms[j], kind)[key]
    {
      OverlayFirst(ComponentEntries(d, kind), ms, 0, kind, key, j);
    }
  }

  // ---------------------------------------------------------------------
  // Tags and security requirements

  /** One iteration appends the mixin's new tags and new requirements to the
      lists, through the list merge of MergeLists. */
  lemma StepLists(st: RunState, m: Swagger, i: nat)
    requires ValidSwagger(m) && Ready(st.doc)
    ensures ListOf(Step(st, m, i).doc.tags)
         == MergeLists.AppendNew(ListOf(st.doc.tags), ListOf(m.tags), TagName, |ListOf(m.tags)|).0
    ensures ListOf(Step(st, m, i).doc.security)
         == MergeLists.AppendNew(ListOf(st.doc.security), ListOf(m.security), RequirementKey, |ListOf(m.security)|).0
  {
    var p1, p2, p3, p4, p5, p6, p7, p8 := StepParts(st, m, i);
  }

  /** One list merge keeps the old list as a prefix, adds the mixin's keys,
      and keeps the keys unique. */
  lemma AppendAllMeaning<T, K>(p: seq<T>, m: seq<T>, key: T -> K)
    ensures var r := MergeLists.AppendNew(p, m, key, |m|).0;
      && |p| <= |r| && r[..|p|] == p
      && MergeLists.KeySet(r, key) == MergeLists.KeySet(p, key) + MergeLists.KeySet(m, key)
      && (MergeLists.UniqueKeys(p, key) ==> MergeLists.UniqueKeys(r, key))
  {
    MergeLists.AppendNewPartition(p, m, key, |m|);
    MergeLists.AppendNewKeys(p, m, key, |m|);
    assert m[..|m|] == m;
    if MergeLists.UniqueKeys(p, key) {
      MergeLists.AppendNewUnique(p, m, key, |m|);
    }
  }

  /** The tags of one document, nil as empty. */
  function TagListOf(m: Swagger): seq<Tag>
  {
    ListOf(m.tags)
  }

  /** The security requirements of one document, nil as empty. */
  function RequirementListOf(m: Swagger): seq<SecurityRequirement>
  {
    ListOf(m.security)
  }

  /** The reference definition of the list mergers over the mixins from `k`
      on: each mixin's list is appended, keeping only elements whose key is
      not there yet. */
  function ListsFrom<T, K(==)>(p: seq<T>, f: Swagger -> seq<T>, key: T -> K, ms: seq<Swagger>, k: nat): seq<T>
    requires k <= |ms|
    decreases |ms| - k
  {
    if k == |ms| then p else ListsFrom(MergeLists.AppendNew(p, f(ms[k]), key, |f(ms[k])|).0, f, key, ms, k + 1)
  }

  /** The keys of the lists `f` gives for the mixins from `k` on. */
  ghost function KeysFrom<T, K>(f: Swagger -> seq<T>, key: T -> K, ms: seq<Swagger>, k: nat): set<K>
    requires k <= |ms|
    decreases |ms| - k
  {
    if k == |ms| then {} else MergeLists.KeySet(f(ms[k]), key) + KeysFrom(f, key, ms, k + 1)
  }

  /** The merged list keeps `p` as an unchanged prefix, holds the keys of `p`
      and of every remaining mixin's list, and keeps keys unique. */
  lemma {:induction false} ListsFromMeaning<T, K>(p: seq<T>, f: Swagger -> seq<T>, key: T -> K, ms: seq<Swagger>, k: nat)
    requires k <= |ms|
    ensures var t := ListsFrom(p, f, key, ms, k);
      && |p| <= |t| && t[..|p|] == p
      && MergeLists.KeySet(t, key) == MergeLists.KeySet(p, key) + KeysFrom(f, key, ms, k)
      && (MergeLists.UniqueKeys(p, key) ==> MergeLists.UniqueKeys(t, key))
    decreases |ms| - k
  {
    if k == |ms| {
      assert p[..|p|] == p;
    } else {
      var q := MergeLists.AppendNew(p, f(ms[k]), key, |f(ms[k])|).0;
      AppendAllMeaning(p, f(ms[k]), key);
      ListsFromMeaning(q, f, key, ms, k + 1);
      var t := ListsFrom(p, f, key, ms, k);
      assert t[..|p|] == t[..|q|][..|p|];
    }
  }

  lemma {:induction false} KeysFromHas<T, K>(f: Swagger -> seq<T>, key: T -> K, ms: seq<Swagger>, k: nat, x: K)
    requires k <= |ms|
    ensures x in KeysFrom(f, key, ms, k) <==> exists j :: k <= j < |ms| && x in MergeLists.KeySet(f(ms[j]), key)
    decreases |ms| - k
  {
    if k < |ms| {
      KeysFromHas(f, key, ms, k + 1, x);
      if x in MergeLists.KeySet(f(ms[k]), key) {
        assert exists j :: k <= j < |ms| && x in MergeLists.KeySet(f(ms[j]), key);
      }
      if exists j :: k <= j < |ms| && x in MergeLists.KeySet(f(ms[j]), key) {
        var j :| k <= j < |ms| && x in MergeLists.KeySet(f(ms[j]), key);
        if j > k {
          assert exists j :: k + 1 <= j < |ms| && x in MergeLists.KeySet(f(ms[j]), key);
        }
      }
    }
  }

  /** From any state, the loop merges tags and requirements as the reference
      list merge does. */
  lemma {:induction false} FoldLists(st: RunState, ms: seq<Swagger>, k: nat)
    requires k <= |ms| && Ready(st.doc) && ValidMixins(ms)
    ensures ListOf(Fold(st, ms, k).doc.tags) == ListsFrom(ListOf(st.doc.tags), TagListOf, TagName, ms, k)
    ensures ListOf(Fold(st, ms, k).doc.security)
         == ListsFrom(ListOf(st.doc.security), RequirementListOf, RequirementKey, ms, k)
    decreases |ms| - k
  {
    if k < |ms| {
      StepLists(st, ms[k], k);
      FoldLists(Step(st, ms[k], k), ms, k + 1);
    }
  }

  /** Tags stay unique by name (when the primary's are), the primary's tags
      are an unchanged prefix of the result, and a name is present exactly
      when the primary or some mixin has a tag of that name. */
  lemma RunTags(d: Swagger, ms: seq<Swagger>, name: string)
    requires ValidPaths(d.paths) && ValidMixins(ms)
    ensures var t := ListOf(Run(d, ms).doc.tags); var p := ListOf(d.tags);
      && |p| <= |t| && t[..|p|] == p
      && (name in MergeLists.KeySet(t, TagName) <==>
            name in MergeLists.KeySet(p, TagName)
            || exists j :: 0 <= j < |ms| && name in MergeLists.KeySet(ListOf(ms[j].tags), TagName))
      && (MergeLists.UniqueKeys(p, TagName) ==> MergeLists.UniqueKeys(t, TagName))
  {
    InitPrimaryMeaning(d);
    FoldLists(Start(d), ms, 0);
    ListsFromMeaning(ListOf(d.tags), TagListOf, TagName, ms, 0);
    KeysFromHas(TagListOf, TagName, ms, 0, name);
  }

  /** A security requirement is appended only if no equal one is there: the
      list stays free of duplicates (when the primary's is), the primary's
      requirements are an unchanged prefix, and a requirement is present
      exactly when the primary or some mixin has it. */
  lemma RunRequirements(d: Swagger, ms: seq<Swagger>, req: SecurityRequirement)
    requires ValidPaths(d.paths) && ValidMixins(ms)
    ensures var t := ListOf(Run(d, ms).doc.security); var p := ListOf(d.security);
      && |p| <= |t| && t[..|p|] == p
      && (req in t <==> req in p || exists j :: 0 <= j < |ms| && req in ListOf(ms[j].security))
      && (MergeLists.UniqueKeys(p, RequirementKey) ==> MergeLists.UniqueKeys(t, RequirementKey))
  {
    InitPrimaryMeaning(d);
    FoldLists(Start(d), ms, 0);
    var p := ListOf(d.security);
    var t := ListOf(Run(d, ms).doc.security);
    ListsFromMeaning(p, RequirementListOf, RequirementKey, ms, 0);
    KeysFromHas(RequirementListOf, RequirementKey, ms, 0, req);
    KeySetOfIdentity(t, req);
    KeySetOfIdentity(p, req);
    forall j | 0 <= j < |ms|
      ensures req in ListOf(ms[j].security) <==> req in MergeLists.KeySet(RequirementListOf(ms[j]), RequirementKey)
    {
      KeySetOfIdentity(ListOf(ms[j].security), req);
    }
  }

  /** Requirements are their own keys. */
  lemma KeySetOfIdentity(s: seq<SecurityRequirement>, req: SecurityRequirement)
    ensures req in MergeLists.KeySet(s, RequirementKey) <==> req in s
  {
    if req in s {
      var i :| 0 <= i < |s| && s[i] == req;
      assert RequirementKey(s[i]) == req;
    }
  }

  // ---------------------------------------------------------------------
  // Paths

  /** `a` is path entry `b` with op ids renamed by the mixin at `mixIndex`. */
  ghost predicate IsRenamingOf(a: PathItem, b: PathItem, mixIndex: nat)
  {
    PathMerge.IsRenaming(a, b, Suffix(mixIndex))
  }

  /** One iteration adds the mixin's paths the primary lacks, renamed, and
      keeps every path already there. */
  lemma StepPaths(st: RunState, m: Swagger, i: nat)
    requires ValidSwagger(m) && Ready(st.doc)
    ensures var r := PathEntries(Step(st, m, i).doc); var prev := PathEntries(st.doc);
      var mixin := PathEntries(m);
      && r.Keys == prev.Keys + mixin.Keys
      && (forall k :: k in prev ==> r[k] == prev[k])
      && (forall k :: k in mixin && k !in prev ==> IsRenamingOf(r[k], mixin[k], i))
  {
    var p1, p2, p3, p4, p5, p6, p7, p8 := StepParts(st, m, i);
    assert PathEntries(p8.0) == PathEntries(p6.0) && PathEntries(p5.0) == PathEntries(st.doc);
    if HasPathEntries(m) {
      PathMerge.MergePathsMeaning(st.doc.paths.value.items.value, m.paths.value.items.value, st.ids, i);
    } else if m.paths.Some? && m.paths.value.items.Some? {
      EmptyKeysNoEntries(m.paths.value.items.value);
    }
  }

  /** The path keys of one document. */
  ghost function PathKeysOf(m: Swagger): set<string>
  {
    PathEntries(m).Keys
  }

  /** From any state, the loop adds the path keys of the remaining mixins and
      keeps every entry already there. */
  lemma {:induction false} FoldPaths(st: RunState, ms: seq<Swagger>, k: nat, key: string)
    requires k <= |ms| && Ready(st.doc) && ValidMixins(ms)
    ensures var r := PathEntries(Fold(st, ms, k).doc); var p := PathEntries(st.doc);
      && (key in r <==> key in p || key in UnionFrom(PathKeysOf, ms, k))
      && (key in p ==> r[key] == p[key])
    decreases |ms| - k
  {
    if k < |ms| {
      StepPaths(st, ms[k], k);
      FoldPaths(Step(st, ms[k], k), ms, k + 1, key);
    }
  }

  /** From any state, a path missing so far is taken from the first remaining
      mixin that has it, renamed by that mixin's suffix. */
  lemma {:induction false} FoldPathsFirstMixin(st: RunState, ms: seq<Swagger>, k: nat, key: string, j: nat)
    requires k <= j < |ms| && Ready(st.doc) && ValidMixins(ms)
    requires key !in PathEntries(st.doc) && key in PathEntries(ms[j])
    requires forall i :: k <= i < j ==> key !in PathEntries(ms[i])
    ensures var r := PathEntries(Fold(st, ms, k).doc);
      key in r && IsRenamingOf(r[key], PathEntries(ms[j])[key], j)
    decreases |ms| - k
  {
    var next := Step(st, ms[k], k);
    StepPaths(st, ms[k], k);
    if j == k {
      FoldPaths(next, ms, k + 1, key);
    } else {
      FoldPathsFirstMixin(next, ms, k + 1, key, j);
    }
  }

  /** A colliding path skips the whole entry: after Mixin the path keys are
      exactly the primary's and the mixins', the primary's entries are
      exactly as they were, and a path the primary lacks is the first
      owning mixin's entry with op ids renamed by its suffix. */
  lemma RunPaths(d: Swagger, ms: seq<Swagger>, key: string)
    requires ValidPaths(d.paths) && ValidMixins(ms)
    ensures var r := PathEntries(Run(d, ms).doc);
      && (key in r <==> key in PathEntries(d) || exists j :: 0 <= j < |ms| && key in PathEntries(ms[j]))
      && (key in PathEntries(d) ==> r[key] == PathEntries(d)[key])
      && (forall j :: (0 <= j < |ms| && key !in PathEntries(d) && key in PathEntries(ms[j]) &&
            (forall i :: 0 <= i < j ==> key !in PathEntries(ms[i]))) ==>
            IsRenamingOf(r[key], PathEntries(ms[j])[key], j))
  {
    InitPrimaryMeaning(d);
    FoldPaths(Start(d), ms, 0, key);
    UnionFromHas(PathKeysOf, ms, 0, key);
    forall j | 0 <= j < |ms| && key !in PathEntries(d) && key in PathEntries(ms[j]) &&
        (forall i :: 0 <= i < j ==> key !in PathEntries(ms[i]))
      ensures IsRenamingOf(PathEntries(Run(d, ms).doc)[key], PathEntries(ms[j])[key], j)
    {
      FoldPathsFirstMixin(Start(d), ms, 0, key, j);
    }
  }

  // ---------------------------------------------------------------------
  // Operation ids

  /** The running id set is the set of op ids of the primary's paths. */
  ghost predicate IdsTrack(st: RunState)
  {
    ValidPaths(st.doc.paths) && st.ids == OpIds(st.doc)
  }

  /** One iteration keeps the running id set equal to the ids of the
      primary's paths. */
  lemma StepIds(st: RunState, m: Swagger, i: nat)
    requires ValidSwagger(m) && Ready(st.doc) && IdsTrack(st)
    ensures IdsTrack(Step(st, m, i))
  {
    var p1, p2, p3, p4, p5, p6, p7, p8 := StepParts(st, m, i);
    assert p8.0.paths == p6.0.paths && p5.0.paths == st.doc.paths;
    if HasPathEntries(m) {
      var mm := m.paths.value.items.value;
      PathMerge.MergePathIds(st.doc.paths.value.items.value, mm, st.ids, Suffix(i), |mm.keys|);
    }
  }

  lemma {:induction false} FoldIds(st: RunState, ms: seq<Swagger>, k: nat)
    requires k <= |ms| && Ready(st.doc) && ValidMixins(ms) && IdsTrack(st)
    ensures IdsTrack(Fold(st, ms, k))
    decreases |ms| - k
  {
    if k < |ms| {
      StepIds(st, ms[k], k);
      FoldIds(Step(st, ms[k], k), ms, k + 1);
    }
  }

  /** The state before the loop: the harvested ids are those of the
      initialised primary. */
  lemma StartIds(d: Swagger)
    requires ValidPaths(d.paths)
    ensures IdsTrack(Start(d))
  {
    InitPrimaryMeaning(d);
    var r := InitPrimaryOf(d);
    if d.paths.None? || d.paths.value.items.None? {
      assert r.paths.value.items.value == EmptyDict();
      assert PathMerge.OpIdList(EmptyDict<PathItem>()) == [];
    }
  }

  /** The id set Mixin threads through its loop is always exactly the set of
      op ids of the primary (renamed ids included), and the paths stay a
      well-formed Go map. */
  lemma RunIds(d: Swagger, ms: seq<Swagger>)
    requires ValidPaths(d.paths) && ValidMixins(ms)
    ensures ValidPaths(Run(d, ms).doc.paths)
    ensures Run(d, ms).ids == OpIds(Run(d, ms).doc)
  {
    StartIds(d);
    FoldIds(Start(d), ms, 0);
  }

  /** No two operations of the document share an id. */
  ghost predicate UniqueOpIds(s: Swagger)
    requires ValidPaths(s.paths)
  {
    s.paths.Some? && s.paths.value.items.Some? ==> Distinct(PathMerge.OpIdList(s.paths.value.items.value))
  }

  /** In this iteration some op id of a newly added path entry is taken, and
      so is the id with the mixin's suffix appended: the source does not
      check the renamed id again. */
  ghost predicate StepClash(st: RunState, m: Swagger, i: nat)
    requires ValidSwagger(m) && Ready(st.doc)
  {
    && HasPathEntries(m)
    && PathMerge.PathsClash(st.doc.paths.value.items.value, m.paths.value.items.value, st.ids,
                            Suffix(i), |m.paths.value.items.value.keys|)
  }

  /** No iteration from `k` on hits a rename clash. */
  ghost predicate NoClashFrom(st: RunState, ms: seq<Swagger>, k: nat)
    requires k <= |ms| && Ready(st.doc) && ValidMixins(ms)
    decreases |ms| - k
  {
    k == |ms| || (!StepClash(st, ms[k], k) && NoClashFrom(Step(st, ms[k], k), ms, k + 1))
  }

  lemma StepUnique(st: RunState, m: Swagger, i: nat)
    requires ValidSwagger(m) && Ready(st.doc) && IdsTrack(st)
    requires UniqueOpIds(st.doc) && !StepClash(st, m, i)
    ensures IdsTrack(Step(st, m, i))
    ensures UniqueOpIds(Step(st, m, i).doc)
  {
    StepIds(st, m, i);
    var p1, p2, p3, p4, p5, p6, p7, p8 := StepParts(st, m, i);
    assert p8.0.paths == p6.0.paths && p5.0.paths == st.doc.paths;
    if HasPathEntries(m) {
      var mm := m.paths.value.items.value;
      PathMerge.MergePathsUnique(st.doc.paths.value.items.value, mm, st.ids, Suffix(i), |mm.keys|);
    }
  }

  lemma {:induction false} FoldUnique(st: RunState, ms: seq<Swagger>, k: nat)
    requires k <= |ms| && Ready(st.doc) && ValidMixins(ms) && IdsTrack(st)
    requires UniqueOpIds(st.doc) && NoClashFrom(st, ms, k)
    ensures IdsTrack(Fold(st, ms, k))
    ensures UniqueOpIds(Fold(st, ms, k).doc)
    decreases |ms| - k
  {
    if k < |ms| {
      StepUnique(st, ms[k], k);
      FoldUnique(Step(st, ms[k], k), ms, k + 1);
    }
  }

  /** Op ids stay unique: a primary without duplicate op ids keeps that
      property through Mixin, provided no rename lands on a taken id. */
  lemma RunUnique(d: Swagger, ms: seq<Swagger>)
    requires ValidPaths(d.paths) && ValidMixins(ms)
    requires UniqueOpIds(d) && NoClashFrom(Start(d), ms, 0)
    ensures ValidPaths(Run(d, ms).doc.paths)
    ensures UniqueOpIds(Run(d, ms).doc)
  {
    StartIds(d);
    InitPrimaryMeaning(d);
    FoldUnique(Start(d), ms, 0);
  }

  // ---------------------------------------------------------------------
  // Info, ExternalDocs and extensions

  /** One iteration merges the top-level properties through mergeSwaggerProps
      alone. */
  lemma StepProps(st: RunState, m: Swagger, i: nat)
    requires ValidSwagger(m) && Ready(st.doc)
    ensures var r := Step(st, m, i).doc; var props := PropsMerged(st.doc, m).0;
      && r.extensions == props.extensions
      && r.info == props.info
      && r.externalDocs == props.externalDocs
  {
    var p1, p2, p3, p4, p5, p6, p7, p8 := StepParts(st, m, i);
  }

  /** mergeSwaggerProps: a nil Info takes the mixin's wholesale, a nil mixin
      Info changes nothing, two Infos merge field by field; ExternalDocs
      follow the same pattern; the extension maps follow the nil rules of
      Metadata.ExtensionsMergeMeaning; and every diagnostic names an
      extension key present on both sides. */
  lemma PropsMergedMeaning(s: Swagger, m: Swagger)
    requires ValidExtensions(m.extensions) && ValidInfo(m.info)
    ensures var r := PropsMerged(s, m);
      && (s.info.None? ==> r.0.info == m.info)
      && (s.info.Some? && m.info.None? ==> r.0.info == s.info)
      && (s.info.Some? && m.info.Some? ==> r.0.info == Some(Metadata.InfoMerged(s.info.value, m.info.value).0))
      && (s.externalDocs.None? ==> r.0.externalDocs == m.externalDocs)
      && (s.externalDocs.Some? && m.externalDocs.None? ==> r.0.externalDocs == s.externalDocs)
      && (s.externalDocs.Some? && m.externalDocs.Some? ==>
            && r.0.externalDocs.Some?
            && Metadata.Filled(r.0.externalDocs.value.description, s.externalDocs.value.description, m.externalDocs.value.description)
            && Metadata.Filled(r.0.externalDocs.value.url, s.externalDocs.value.url, m.externalDocs.value.url))
      && (r.0.extensions.None? <==> s.extensions.None? && m.extensions.None?)
      && Metadata.Entries(r.0.extensions) == Metadata.Entries(m.extensions) + Metadata.Entries(s.extensions)
      && (forall j :: 0 <= j < |r.1| ==> r.1[j].ExtensionEntry?)
      && |r.1| == |Metadata.ExtensionsMerged(s.extensions, m.extensions).1|
                  + (if s.info.Some? && m.info.Some? then |Metadata.InfoMerged(s.info.value, m.info.value).1| else 0)
      && (forall k :: ExtensionEntry(k) in r.1 <==>
            (k in Metadata.Entries(s.extensions) && k in Metadata.Entries(m.extensions))
            || (s.info.Some? && m.info.Some? && k in Metadata.InfoMerged(s.info.value, m.info.value).1))
  {
    Metadata.ExtensionsMergeMeaning(s.extensions, m.extensions);
    Metadata.ExternalDocsStepMeaning(s.externalDocs, m.externalDocs);
    var ext := Metadata.ExtensionsMerged(s.extensions, m.extensions).1;
    var info := if s.info.Some? && m.info.Some? then Metadata.InfoMerged(s.info.value, m.info.value).1 else [];
    assert PropsMerged(s, m).1 == ExtensionSkips(ext + info);
    forall k ensures ExtensionEntry(k) in PropsMerged(s, m).1 <==> k in ext || k in info {
      ExtensionSkipsHas(ext + info, k);
    }
  }

  /** An extension key is reported exactly when it is in the key list. */
  lemma ExtensionSkipsHas(keys: seq<string>, k: string)
    ensures ExtensionEntry(k) in ExtensionSkips(keys) <==> k in keys
  {
    if k in keys {
      var j :| 0 <= j < |keys| && keys[j] == k;
      assert ExtensionSkips(keys)[j] == ExtensionEntry(k);
    }
  }

  /** A primary without Info takes the first mixin's Info wholesale. */
  lemma FirstMixinInfo(d: Swagger, ms: seq<Swagger>)
    requires |ms| > 0 && ValidPaths(d.paths) && ValidMixins(ms)
    requires d.info.None?
    ensures Step(Start(d), ms[0], 0).doc.info == ms[0].info
  {
    InitPrimaryMeaning(d);
    StepProps(Start(d), ms[0], 0);
    PropsMergedMeaning(Start(d).doc, ms[0]);
  }

  // ---------------------------------------------------------------------
  // Skip diagnostics: every collision is reported exactly once

  /** A component merger's report depends only on the primary's map of its
      own kind. */
  lemma ComponentSkipsLocal(s: Swagger, t: Swagger, m: Swagger, kind: ComponentKind)
    requires ValidComponents(m.components) && s.components.Some? && t.components.Some?
    requires GetComponent(s.components.value, kind) == GetComponent(t.components.value, kind)
    ensures ComponentMerged(s, m, kind).1 == ComponentMerged(t, m, kind).1
  {
  }

  /** The reports of one iteration's eight mergers against the primary `s`
      as it was when the iteration began, in source order. */
  ghost function StepReports(s: Swagger, m: Swagger, ids: set<string>, i: nat): seq<Skip>
    requires ValidSwagger(m) && Ready(s)
  {
    PropsMerged(s, m).1 + TagsMerged(s, m).1
    + ComponentMerged(s, m, SecuritySchemesKind).1 + RequirementsMerged(s, m).1
    + ComponentMerged(s, m, SchemasKind).1 + PathsMerged(s, m, ids, i).2
    + ComponentMerged(s, m, ParametersKind).1 + ComponentMerged(s, m, ResponsesKind).1
  }

  /** The mergers write disjoint parts of the document, so one iteration
      appends the eight mergers' reports against the primary as it was when
      the iteration began: no merger sees another's effect. */
  lemma StepSkips(st: RunState, m: Swagger, i: nat)
    requires ValidSwagger(m) && Ready(st.doc)
    ensures Step(st, m, i).skipped == st.skipped + StepReports(st.doc, m, st.ids, i)
  {
    var p1, p2, p3, p4, p5, p6, p7, p8 := StepParts(st, m, i);
    ComponentSkipsLocal(p2.0, st.doc, m, SecuritySchemesKind);
    ComponentSkipsLocal(p4.0, st.doc, m, SchemasKind);
    ComponentSkipsLocal(p6.0, st.doc, m, ParametersKind);
    ComponentSkipsLocal(p7.0, st.doc, m, ResponsesKind);
  }

  lemma ComponentSkipsCount(merged: ComponentKind, keys: seq<string>, kind: ComponentKind, key: string)
    requires Distinct(keys)
    ensures multiset(ComponentSkips(merged, keys))[ComponentEntry(kind, key)]
         == if merged == kind && key in keys then 1 else 0
  {
    var sk := ComponentSkips(merged, keys);
    assert Distinct(sk) by {
      forall a, b | 0 <= a < b < |sk| ensures sk[a] != sk[b] {
        assert keys[a] != keys[b];
      }
    }
    if ComponentEntry(kind, key) in sk {
      var a :| 0 <= a < |sk| && sk[a] == ComponentEntry(kind, key);
      assert keys[a] == key;
    }
    if merged == kind && key in keys {
      var a :| 0 <= a < |keys| && keys[a] == key;
      assert sk[a] == ComponentEntry(kind, key);
    }
    DistinctMultiplicity(sk, ComponentEntry(kind, key));
  }

  lemma PathSkipsCount(keys: seq<string>, key: string)
    requires Distinct(keys)
    ensures multiset(PathSkips(keys))[PathEntry(key)] == if key in keys then 1 else 0
  {
    var sk := PathSkips(keys);
    assert Distinct(sk) by {
      forall a, b | 0 <= a < b < |sk| ensures sk[a] != sk[b] {
        assert keys[a] != keys[b];
      }
    }
    if PathEntry(key) in sk {
      var a :| 0 <= a < |sk| && sk[a] == PathEntry(key);
      assert keys[a] == key;
    }
    if key in keys {
      var a :| 0 <= a < |keys| && keys[a] == key;
      assert sk[a] == PathEntry(key);
    }
    DistinctMultiplicity(sk, PathEntry(key));
  }

  lemma {:induction false} TagSkipsCount(tags: seq<Tag>, name: string)
    ensures multiset(TagSkips(tags))[TagEntry(name)] == MergeLists.KeyCount(tags, TagName, name)
  {
    if tags != [] {
      var init := tags[..|tags| - 1];
      TagSkipsCount(init, name);
      assert TagSkips(tags) == TagSkips(init) + [TagEntry(tags[|tags| - 1].name)];
    }
  }

  lemma {:induction false} RequirementSkipsCount(reqs: seq<SecurityRequirement>, req: SecurityRequirement)
    ensures multiset(RequirementSkips(reqs))[RequirementEntry(req)] == MergeLists.KeyCount(reqs, RequirementKey, req)
  {
    if reqs != [] {
      var init := reqs[..|reqs| - 1];
      RequirementSkipsCount(init, req);
      assert RequirementSkips(reqs) == RequirementSkips(init) + [RequirementEntry(reqs[|reqs| - 1])];
    }
  }

  /** A component merger reports each key of its own kind that both sides
      have, exactly once, and reports nothing else. */
  lemma ComponentMergedSkips(s: Swagger, m: Swagger, merged: ComponentKind, kind: ComponentKind, key: string)
    requires ValidComponents(m.components)
    ensures multiset(ComponentMerged(s, m, merged).1)[ComponentEntry(kind, key)]
         == if merged == kind && key in ComponentEntries(m, kind) && key in ComponentEntries(s, kind) then 1 else 0
    ensures forall e :: e in ComponentMerged(s, m, merged).1 ==> e.ComponentEntry?
  {
    if m.components.None? || GetComponent(m.components.value, merged).None? {
    } else if GetComponent(m.components.value, merged).value.keys == [] {
      EmptyKeysNoEntries(GetComponent(m.components.value, merged).value);
    } else {
      var c := if s.components.None? then Components(None, None, None, None) else s.components.value;
      var d := if GetComponent(c, merged).None? then EmptyDict() else GetComponent(c, merged).value;
      var mm := GetComponent(m.components.value, merged).value;
      MergeMaps.MergeSkipAccounting(d, mm);
      ComponentSkipsCount(merged, MergeMaps.Merge(d, mm).1, kind, key);
      assert d.entries == ComponentEntries(s, merged);
    }
  }

  /** mergePaths reports each path both sides have, exactly once, and
      nothing else. */
  lemma PathsMergedSkips(s: Swagger, m: Swagger, ids: set<string>, i: nat, key: string)
    requires ValidPaths(m.paths)
    requires HasPathEntries(m) ==> s.paths.Some? && s.paths.value.items.Some?
    ensures multiset(PathsMerged(s, m, ids, i).2)[PathEntry(key)]
         == if key in PathEntries(m) && key in PathEntries(s) then 1 else 0
    ensures forall e :: e in PathsMerged(s, m, ids, i).2 ==> e.PathEntry?
  {
    if HasPathEntries(m) {
      var p := s.paths.value.items.value;
      var mm := m.paths.value.items.value;
      PathMerge.MergePathsMeaning(p, mm, ids, i);
      MergeMaps.CollidingMembers(mm.keys, p.entries);
      PathSkipsCount(MergeMaps.Colliding(mm.keys, p.entries), key);
    } else if m.paths.Some? && m.paths.value.items.Some? {
      EmptyKeysNoEntries(m.paths.value.items.value);
    }
  }

  /** mergeTags reports every mixin tag whose name is taken: all tags of a
      name the primary has, all but the first of any other name. */
  lemma TagsMergedSkips(s: Swagger, m: Swagger, name: string)
    ensures multiset(TagsMerged(s, m).1)[TagEntry(name)]
         == MergeLists.Reported(name in MergeLists.KeySet(ListOf(s.tags), TagName),
                                MergeLists.KeyCount(ListOf(m.tags), TagName, name))
    ensures forall e :: e in TagsMerged(s, m).1 ==> e.TagEntry?
  {
    var t := ListOf(m.tags);
    MergeLists.AppendNewSkipCount(ListOf(s.tags), t, TagName, |t|, name);
    TagSkipsCount(MergeLists.AppendNew(ListOf(s.tags), t, TagName, |t|).1, name);
    assert t[..|t|] == t;
  }

  /** mergeSecurityRequirements reports every mixin requirement already
      present: all copies of one the primary has, all but the first copy of
      any other. */
  lemma RequirementsMergedSkips(s: Swagger, m: Swagger, req: SecurityRequirement)
    ensures multiset(RequirementsMerged(s, m).1)[RequirementEntry(req)]
         == MergeLists.Reported(req in ListOf(s.security),
                                MergeLists.KeyCount(ListOf(m.security), RequirementKey, req))
    ensures forall e :: e in RequirementsMerged(s, m).1 ==> e.RequirementEntry?
  {
    var t := ListOf(m.security);
    MergeLists.AppendNewSkipCount(ListOf(s.security), t, RequirementKey, |t|, req);
    RequirementSkipsCount(MergeLists.AppendNew(ListOf(s.security), t, RequirementKey, |t|).1, req);
    KeySetOfIdentity(ListOf(s.security), req);
    assert t[..|t|] == t;
  }

  /** Counting over the eight segments of one iteration. */
  lemma SegmentsCount(a1: seq<Skip>, a2: seq<Skip>, a3: seq<Skip>, a4: seq<Skip>,
                      a5: seq<Skip>, a6: seq<Skip>, a7: seq<Skip>, a8: seq<Skip>, e: Skip)
    ensures multiset(a1 + a2 + a3 + a4 + a5 + a6 + a7 + a8)[e]
         == multiset(a1)[e] + multiset(a2)[e] + multiset(a3)[e] + multiset(a4)[e]
            + multiset(a5)[e] + multiset(a6)[e] + multiset(a7)[e] + multiset(a8)[e]
  {
  }

  /** Each merger reports only entries of its own kind. */
  lemma ReportKinds(s: Swagger, m: Swagger, ids: set<string>, i: nat, e: Skip)
    requires ValidSwagger(m) && Ready(s)
    ensures !e.ExtensionEntry? ==> multiset(PropsMerged(s, m).1)[e] == 0
    ensures !e.TagEntry? ==> multiset(TagsMerged(s, m).1)[e] == 0
    ensures !e.RequirementEntry? ==> multiset(RequirementsMerged(s, m).1)[e] == 0
    ensures !e.PathEntry? ==> multiset(PathsMerged(s, m, ids, i).2)[e] == 0
    ensures forall kind :: !e.ComponentEntry? ==> multiset(ComponentMerged(s, m, kind).1)[e] == 0
  {
    assert !e.ExtensionEntry? ==> e !in PropsMerged(s, m).1;
    assert !e.TagEntry? ==> e !in TagsMerged(s, m).1;
    assert !e.RequirementEntry? ==> e !in RequirementsMerged(s, m).1;
    assert !e.PathEntry? ==> e !in PathsMerged(s, m, ids, i).2;
    forall kind ensures !e.ComponentEntry? ==> e !in ComponentMerged(s, m, kind).1 {
    }
  }

  /** One iteration reports a component key once when both the primary and
      the mixin have it, and not at all otherwise. */
  lemma StepComponentReports(s: Swagger, m: Swagger, ids: set<string>, i: nat, kind: ComponentKind, key: string)
    requires ValidSwagger(m) && Ready(s)
    ensures multiset(StepReports(s, m, ids, i))[ComponentEntry(kind, key)]
         == if key in ComponentEntries(s, kind) && key in ComponentEntries(m, kind) then 1 else 0
  {
    SegmentsCount(PropsMerged(s, m).1, TagsMerged(s, m).1, ComponentMerged(s, m, SecuritySchemesKind).1,
                  RequirementsMerged(s, m).1, ComponentMerged(s, m, SchemasKind).1, PathsMerged(s, m, ids, i).2,
                  ComponentMerged(s, m, ParametersKind).1, ComponentMerged(s, m, ResponsesKind).1, ComponentEntry(kind, key));
    ReportKinds(s, m, ids, i, ComponentEntry(kind, key));
    ComponentMergedSkips(s, m, SecuritySchemesKind, kind, key);
    ComponentMergedSkips(s, m, SchemasKind, kind, key);
    ComponentMergedSkips(s, m, ParametersKind, kind, key);
    ComponentMergedSkips(s, m, ResponsesKind, kind, key);
  }

  /** One iteration reports a path once when both the primary and the mixin
      have it, and not at all otherwise. */
  lemma StepPathReports(s: Swagger, m: Swagger, ids: set<string>, i: nat, key: string)
    requires ValidSwagger(m) && Ready(s)
    ensures multiset(StepReports(s, m, ids, i))[PathEntry(key)]
         == if key in PathEntries(s) && key in PathEntries(m) then 1 else 0
  {
    SegmentsCount(PropsMerged(s, m).1, TagsMerged(s, m).1, ComponentMerged(s, m, SecuritySchemesKind).1,
                  RequirementsMerged(s, m).1, ComponentMerged(s, m, SchemasKind).1, PathsMerged(s, m, ids, i).2,
                  ComponentMerged(s, m, ParametersKind).1, ComponentMerged(s, m, ResponsesKind).1, PathEntry(key));
    ReportKinds(s, m, ids, i, PathEntry(key));
    PathsMergedSkips(s, m, ids, i, key);
  }

  /** One iteration reports the mixin's tags of a name that is taken. */
  lemma StepTagReports(s: Swagger, m: Swagger, ids: set<string>, i: nat, name: string)
    requires ValidSwagger(m) && Ready(s)
    ensures multiset(StepReports(s, m, ids, i))[TagEntry(name)]
         == MergeLists.Reported(name in MergeLists.KeySet(ListOf(s.tags), TagName),
                                MergeLists.KeyCount(ListOf(m.tags), TagName, name))
  {
    SegmentsCount(PropsMerged(s, m).1, TagsMerged(s, m).1, ComponentMerged(s, m, SecuritySchemesKind).1,
                  RequirementsMerged(s, m).1, ComponentMerged(s, m, SchemasKind).1, PathsMerged(s, m, ids, i).2,
                  ComponentMerged(s, m, ParametersKind).1, ComponentMerged(s, m, ResponsesKind).1, TagEntry(name));
    ReportKinds(s, m, ids, i, TagEntry(name));
    TagsMergedSkips(s, m, name);
  }

  /** One iteration reports the mixin's copies of a requirement already
      present. */
  lemma StepRequirementReports(s: Swagger, m: Swagger, ids: set<string>, i: nat, req: SecurityRequirement)
    requires ValidSwagger(m) && Ready(s)
    ensures multiset(StepReports(s, m, ids, i))[RequirementEntry(req)]
         == MergeLists.Reported(req in ListOf(s.security),
                                MergeLists.KeyCount(ListOf(m.security), RequirementKey, req))
  {
    SegmentsCount(PropsMerged(s, m).1, TagsMerged(s, m).1, ComponentMerged(s, m, SecuritySchemesKind).1,
                  RequirementsMerged(s, m).1, ComponentMerged(s, m, SchemasKind).1, PathsMerged(s, m, ids, i).2,
                  ComponentMerged(s, m, ParametersKind).1, ComponentMerged(s, m, ResponsesKind).1, RequirementEntry(req));
    ReportKinds(s, m, ids, i, RequirementEntry(req));
    RequirementsMergedSkips(s, m, req);
  }

  /** One iteration adds the mixin's tag names and requirements to those
      present. */
  lemma StepListsPresent(st: RunState, m: Swagger, i: nat, name: string, req: SecurityRequirement)
    requires ValidSwagger(m) && Ready(st.doc)
    ensures name in MergeLists.KeySet(ListOf(Step(st, m, i).doc.tags), TagName)
        <==> name in MergeLists.KeySet(ListOf(st.doc.tags), TagName) || name in MergeLists.KeySet(ListOf(m.tags), TagName)
    ensures req in ListOf(Step(st, m, i).doc.security) <==> req in ListOf(st.doc.security) || req in ListOf(m.security)
  {
    StepLists(st, m, i);
    AppendAllMeaning(ListOf(st.doc.tags), ListOf(m.tags), TagName);
    AppendAllMeaning(ListOf(st.doc.security), ListOf(m.security), RequirementKey);
    KeySetOfIdentity(ListOf(st.doc.security), req);
    KeySetOfIdentity(ListOf(m.security), req);
    KeySetOfIdentity(ListOf(Step(st, m, i).doc.security), req);
  }

  /** One iteration reports the mixin's tags of a name already taken, and
      adds the mixin's tag names to those present. */
  lemma StepTagSkips(st: RunState, m: Swagger, i: nat, name: string)
    requires ValidSwagger(m) && Ready(st.doc)
    ensures multiset(Step(st, m, i).skipped)[TagEntry(name)]
         == multiset(st.skipped)[TagEntry(name)]
            + MergeLists.Reported(name in MergeLists.KeySet(ListOf(st.doc.tags), TagName),
                                  MergeLists.KeyCount(ListOf(m.tags), TagName, name))
    ensures MergeLists.KeyCount(ListOf(Step(st, m, i).doc.tags), TagName, name) > 0
        <==> name in MergeLists.KeySet(ListOf(st.doc.tags), TagName) || MergeLists.KeyCount(ListOf(m.tags), TagName, name) > 0
  {
    StepSkips(st, m, i);
    StepTagReports(st.doc, m, st.ids, i, name);
    StepListsPresent(st, m, i, name, map[]);
    MergeLists.KeyCountPositive(ListOf(m.tags), TagName, name);
    MergeLists.KeyCountPositive(ListOf(Step(st, m, i).doc.tags), TagName, name);
  }

  /** One iteration reports the mixin's copies of a requirement already
      present, and adds the mixin's requirements to those present. */
  lemma StepRequirementSkips(st: RunState, m: Swagger, i: nat, req: SecurityRequirement)
    requires ValidSwagger(m) && Ready(st.doc)
    ensures multiset(Step(st, m, i).skipped)[RequirementEntry(req)]
         == multiset(st.skipped)[RequirementEntry(req)]
            + MergeLists.Reported(req in ListOf(st.doc.security),
                                  MergeLists.KeyCount(ListOf(m.security), RequirementKey, req))
    ensures MergeLists.KeyCount(ListOf(Step(st, m, i).doc.security), RequirementKey, req) > 0
        <==> req in ListOf(st.doc.security) || MergeLists.KeyCount(ListOf(m.security), RequirementKey, req) > 0
  {
    MergeLists.KeyCountPositive(ListOf(Step(st, m, i).doc.security), RequirementKey, req);
    KeySetOfIdentity(ListOf(Step(st, m, i).doc.security), req);
    StepSkips(st, m, i);
    StepRequirementReports(st.doc, m, st.ids, i, req);
    StepListsPresent(st, m, i, "", req);
    MergeLists.KeyCountPositive(ListOf(m.security), RequirementKey, req);
    KeySetOfIdentity(ListOf(m.security), req);
  }

  /** The reference count: how often a key is reported over the mixins from
      `k` on, given whether it is present before mixin `k` and how many
      elements carrying it each mixin has (`counts[j]`). */
  ghost function Reports(present: bool, counts: seq<nat>, k: nat): nat
    requires k <= |counts|
    decreases |counts| - k
  {
    if k == |counts| then 0
    else MergeLists.Reported(present, counts[k]) + Reports(present || counts[k] > 0, counts, k + 1)
  }

  ghost function Total(counts: seq<nat>, k: nat): nat
    requires k <= |counts|
    decreases |counts| - k
  {
    if k == |counts| then 0 else counts[k] + Total(counts, k + 1)
  }

  lemma ReportsStep(present: bool, counts: seq<nat>, k: nat)
    requires k < |counts|
    ensures Reports(present, counts, k)
         == MergeLists.Reported(present, counts[k]) + Reports(present || counts[k] > 0, counts, k + 1)
  {
  }

  /** Over the whole run, a key is reported once for every element carrying
      it, except the very first one when it was not present at the start. */
  lemma {:induction false} ReportsClosed(present: bool, counts: seq<nat>, k: nat)
    requires k <= |counts|
    ensures Reports(present, counts, k) == MergeLists.Reported(present, Total(counts, k))
    decreases |counts| - k
  {
    if k < |counts| {
      ReportsClosed(present || counts[k] > 0, counts, k + 1);
    }
  }

  /** For each mixin, 1 if its map of `kind` has `key`, else 0. */
  ghost function ComponentCounts(ms: seq<Swagger>, kind: ComponentKind, key: string): seq<nat>
  {
    seq(|ms|, j requires 0 <= j < |ms| => if key in ComponentEntries(ms[j], kind) then 1 else 0)
  }

  /** For each mixin, 1 if it has path `key`, else 0. */
  ghost function PathCounts(ms: seq<Swagger>, key: string): seq<nat>
  {
    seq(|ms|, j requires 0 <= j < |ms| => if key in PathEntries(ms[j]) then 1 else 0)
  }

  /** For each mixin, the number of its tags named `name`. */
  ghost function TagCounts(ms: seq<Swagger>, name: string): seq<nat>
  {
    seq(|ms|, j requires 0 <= j < |ms| => MergeLists.KeyCount(ListOf(ms[j].tags), TagName, name))
  }

  /** For each mixin, the number of its copies of `req`. */
  ghost function RequirementCounts(ms: seq<Swagger>, req: SecurityRequirement): seq<nat>
  {
    seq(|ms|, j requires 0 <= j < |ms| => MergeLists.KeyCount(ListOf(ms[j].security), RequirementKey, req))
  }

  lemma {:induction false} FoldComponentSkips(st: RunState, ms: seq<Swagger>, k: nat, kind: ComponentKind, key: string)
    requires k <= |ms| && Ready(st.doc) && ValidMixins(ms)
    ensures multiset(Fold(st, ms, k).skipped)[ComponentEntry(kind, key)]
         == multiset(st.skipped)[ComponentEntry(kind, key)]
            + Reports(key in ComponentEntries(st.doc, kind), ComponentCounts(ms, kind, key), k)
    decreases |ms| - k
  {
    if k < |ms| {
      StepSkips(st, ms[k], k);
      StepComponentReports(st.doc, ms[k], st.ids, k, kind, key);
      StepComponents(st, ms[k], k, kind);
      FoldComponentSkips(Step(st, ms[k], k), ms, k + 1, kind, key);
    }
  }

  lemma {:induction false} FoldPathSkips(st: RunState, ms: seq<Swagger>, k: nat, key: string)
    requires k <= |ms| && Ready(st.doc) && ValidMixins(ms)
    ensures multiset(Fold(st, ms, k).skipped)[PathEntry(key)]
         == multiset(st.skipped)[PathEntry(key)] + Reports(key in PathEntries(st.doc), PathCounts(ms, key), k)
    decreases |ms| - k
  {
    if k < |ms| {
      StepSkips(st, ms[k], k);
      StepPathReports(st.doc, ms[k], st.ids, k, key);
      StepPaths(st, ms[k], k);
      FoldPathSkips(Step(st, ms[k], k), ms, k + 1, key);
    }
  }

  lemma {:induction false} FoldTagSkips(st: RunState, ms: seq<Swagger>, k: nat, name: string, counts: seq<nat>)
    requires k <= |ms| && Ready(st.doc) && ValidMixins(ms)
    requires |counts| == |ms|
    requires forall j :: 0 <= j < |ms| ==> counts[j] == MergeLists.KeyCount(ListOf(ms[j].tags), TagName, name)
    ensures multiset(Fold(st, ms, k).skipped)[TagEntry(name)]
         == multiset(st.skipped)[TagEntry(name)]
            + Reports(MergeLists.KeyCount(ListOf(st.doc.tags), TagName, name) > 0, counts, k)
    decreases |ms| - k
  {
    if k < |ms| {
      StepTagSkips(st, ms[k], k, name);
      MergeLists.KeyCountPositive(ListOf(st.doc.tags), TagName, name);
      ReportsStep(MergeLists.KeyCount(ListOf(st.doc.tags), TagName, name) > 0, counts, k);
      FoldTagSkips(Step(st, ms[k], k), ms, k + 1, name, counts);
    }
  }

  lemma {:induction false} FoldRequirementSkips(st: RunState, ms: seq<Swagger>, k: nat, req: SecurityRequirement, counts: seq<nat>)
    requires k <= |ms| && Ready(st.doc) && ValidMixins(ms)
    requires |counts| == |ms|
    requires forall j :: 0 <= j < |ms| ==> counts[j] == MergeLists.KeyCount(ListOf(ms[j].security), RequirementKey, req)
    ensures multiset(Fold(st, ms, k).skipped)[RequirementEntry(req)]
         == multiset(st.skipped)[RequirementEntry(req)]
            + Reports(MergeLists.KeyCount(ListOf(st.doc.security), RequirementKey, req) > 0, counts, k)
    decreases |ms| - k
  {
    if k < |ms| {
      StepRequirementSkips(st, ms[k], k, req);
      MergeLists.KeyCountPositive(ListOf(st.doc.security), RequirementKey, req);
      KeySetOfIdentity(ListOf(st.doc.security), req);
      ReportsStep(MergeLists.KeyCount(ListOf(st.doc.security), RequirementKey, req) > 0, counts, k);
      FoldRequirementSkips(Step(st, ms[k], k), ms, k + 1, req, counts);
    }
  }

  /** After Mixin, a component key is reported once by every mixin that has
      it, except by the first such mixin when the primary lacks it. */
  lemma RunComponentSkips(d: Swagger, ms: seq<Swagger>, kind: ComponentKind, key: string)
    requires ValidPaths(d.paths) && ValidMixins(ms)
    ensures multiset(Run(d, ms).skipped)[ComponentEntry(kind, key)]
         == MergeLists.Reported(key in ComponentEntries(d, kind), Total(ComponentCounts(ms, kind, key), 0))
  {
    InitPrimaryMeaning(d);
    FoldComponentSkips(Start(d), ms, 0, kind, key);
    ReportsClosed(key in ComponentEntries(d, kind), ComponentCounts(ms, kind, key), 0);
  }

  /** After Mixin, a path is reported once by every mixin that has it,
      except by the first such mixin when the primary lacks it. */
  lemma RunPathSkips(d: Swagger, ms: seq<Swagger>, key: string)
    requires ValidPaths(d.paths) && ValidMixins(ms)
    ensures multiset(Run(d, ms).skipped)[PathEntry(key)]
         == MergeLists.Reported(key in PathEntries(d), Total(PathCounts(ms, key), 0))
  {
    InitPrimaryMeaning(d);
    FoldPathSkips(Start(d), ms, 0, key);
    ReportsClosed(key in PathEntries(d), PathCounts(ms, key), 0);
  }

  /** After Mixin, a tag name is reported once for every mixin tag of that
      name, except the first one when the primary has no tag of that name. */
  lemma RunTagSkips(d: Swagger, ms: seq<Swagger>, name: string)
    requires ValidPaths(d.paths) && ValidMixins(ms)
    ensures multiset(Run(d, ms).skipped)[TagEntry(name)]
         == MergeLists.Reported(name in MergeLists.KeySet(ListOf(d.tags), TagName), Total(TagCounts(ms, name), 0))
  {
    InitPrimaryMeaning(d);
    FoldTagSkips(Start(d), ms, 0, name, TagCounts(ms, name));
    MergeLists.KeyCountPositive(ListOf(d.tags), TagName, name);
    ReportsClosed(name in MergeLists.KeySet(ListOf(d.tags), TagName), TagCounts(ms, name), 0);
  }

  /** After Mixin, a requirement is reported once for every mixin copy of
      it, except the first one when the primary lacks it. */
  lemma RunRequirementSkips(d: Swagger, ms: seq<Swagger>, req: SecurityRequirement)
    requires ValidPaths(d.paths) && ValidMixins(ms)
    ensures multiset(Run(d, ms).skipped)[RequirementEntry(req)]
         == MergeLists.Reported(req in ListOf(d.security), Total(RequirementCounts(ms, req), 0))
  {
    InitPrimaryMeaning(d);
    FoldRequirementSkips(Start(d), ms, 0, req, RequirementCounts(ms, req));
    MergeLists.KeyCountPositive(ListOf(d.security), RequirementKey, req);
    KeySetOfIdentity(ListOf(d.security), req);
    ReportsClosed(req in ListOf(d.security), RequirementCounts(ms, req), 0);
  }

  /** Two mixins that both bring a component key the primary lacks: the
      first one's entry is taken and exactly one diagnostic is reported. */
  lemma SharedKeyReportedOnce(d: Swagger, ms: seq<Swagger>, kind: ComponentKind, key: string)
    requires ValidPaths(d.paths) && ValidMixins(ms) && |ms| == 2
    requires key !in ComponentEntries(d, kind)
    requires key in ComponentEntries(ms[0], kind) && key in ComponentEntries(ms[1], kind)
    ensures multiset(Run(d, ms).skipped)[ComponentEntry(kind, key)] == 1
    ensures key in ComponentEntries(Run(d, ms).doc, kind)
    ensures ComponentEntries(Run(d, ms).doc, kind)[key] == ComponentEntries(ms[0], kind)[key]
  {
    RunComponentSkips(d, ms, kind, key);
    ComponentsFirstWriterWins(d, ms, kind, key);
    var counts := ComponentCounts(ms, kind, key);
    assert counts[0] == 1 && counts[1] == 1;
    assert Total(counts, 2) == 0;
  }

  /** A path of the primary that the one mixin also has is reported exactly
      once, and the primary's entry stays. */
  lemma CollidingPathReportedOnce(d: Swagger, ms: seq<Swagger>, key: string)
    requires ValidPaths(d.paths) && ValidMixins(ms) && |ms| == 1
    requires key in PathEntries(d) && key in PathEntries(ms[0])
    ensures multiset(Run(d, ms).skipped)[PathEntry(key)] == 1
    ensures key in PathEntries(Run(d, ms).doc)
    ensures PathEntries(Run(d, ms).doc)[key] == PathEntries(d)[key]
  {
    RunPathSkips(d, ms, key);
    RunPaths(d, ms, key);
    var counts := PathCounts(ms, key);
    assert counts[0] == 1;
    assert Total(counts, 1) == 0;
  }
}
