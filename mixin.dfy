/**
 Mixin (mixin.go): the primary document absorbs a sequence of mixin documents.
 The functions here specify every merger on document values; the `Document`
 class holds the primary, whose fields the mergers update in place, and its
 methods are proved against those functions.
 */
module Mixins {
  import opened OpenApi
  import opened Operations
  import MergeMaps
  import MergeLists
  import PathMerge
  import Metadata

  // ---------------------------------------------------------------------
  // Skip diagnostics

  function ExtensionSkips(keys: seq<string>): (r: seq<Skip>)
    ensures |r| == |keys| && forall i :: 0 <= i < |keys| ==> r[i] == ExtensionEntry(keys[i])
  {
    seq(|keys|, i requires 0 <= i < |keys| => ExtensionEntry(keys[i]))
  }

  function ComponentSkips(kind: ComponentKind, keys: seq<string>): (r: seq<Skip>)
    ensures |r| == |keys| && forall i :: 0 <= i < |keys| ==> r[i] == ComponentEntry(kind, keys[i])
  {
    seq(|keys|, i requires 0 <= i < |keys| => ComponentEntry(kind, keys[i]))
  }

  function PathSkips(keys: seq<string>): (r: seq<Skip>)
    ensures |r| == |keys| && forall i :: 0 <= i < |keys| ==> r[i] == PathEntry(keys[i])
  {
    seq(|keys|, i requires 0 <= i < |keys| => PathEntry(keys[i]))
  }

  function TagSkips(tags: seq<Tag>): (r: seq<Skip>)
    ensures |r| == |tags| && forall i :: 0 <= i < |tags| ==> r[i] == TagEntry(tags[i].name)
  {
    seq(|tags|, i requires 0 <= i < |tags| => TagEntry(tags[i].name))
  }

  function RequirementSkips(reqs: seq<SecurityRequirement>): (r: seq<Skip>)
    ensures |r| == |reqs| && forall i :: 0 <= i < |reqs| ==> r[i] == RequirementEntry(reqs[i])
  {
    seq(|reqs|, i requires 0 <= i < |reqs| => RequirementEntry(reqs[i]))
  }

  // ---------------------------------------------------------------------
  // Reading a document

  /** A nil slice reads as empty. */
  function ListOf<T>(s: Option<seq<T>>): seq<T>
  {
    if s.None? then [] else s.value
  }

  /** The entries of one component map; nil reads as empty. */
  function ComponentEntries(s: Swagger, kind: ComponentKind): map<string, Value>
  {
    if s.components.None? || GetComponent(s.components.value, kind).None? then map[]
    else GetComponent(s.components.value, kind).value.entries
  }

  /** The path entries of a document; nil reads as empty. */
  function PathEntries(s: Swagger): map<string, PathItem>
  {
    if s.paths.None? || s.paths.value.items.None? then map[] else s.paths.value.items.value.entries
  }

  /** The mixin has at least one path entry, so mergePaths will write. */
  predicate HasPathEntries(m: Swagger)
  {
    m.paths.Some? && m.paths.value.items.Some? && m.paths.value.items.value.keys != []
  }

  /** Every container the mergers write into exists. */
  ghost predicate Ready(s: Swagger)
  {
    && s.components.Some?
    && (forall kind :: GetComponent(s.components.value, kind).Some?)
    && s.security.Some?
    && s.tags.Some?
    && s.paths.Some? && s.paths.value.items.Some?
  }

  function TagName(t: Tag): string
  {
    t.name
  }

  /** Security requirements are compared whole (reflect.DeepEqual). */
  function RequirementKey(r: SecurityRequirement): SecurityRequirement
  {
    r
  }

  // ---------------------------------------------------------------------
  // getOpIDs and initPrimary

  /** getOpIDs: the set of operation ids of every path entry. */
  function OpIds(s: Swagger): set<string>
    requires ValidPaths(s.paths)
  {
    if s.paths.None? || s.paths.value.items.None? then {}
    else Elems(PathMerge.OpIdList(s.paths.value.items.value))
  }

  lemma {:induction false} OpIdListHas(d: Dict<PathItem>, n: nat, j: nat, id: string)
    requires d.Valid() && j < n <= |d.keys|
    requires d.keys[j] in d.entries && id in ItemIds(d.entries[d.keys[j]])
    ensures id in PathMerge.OpIdListUpTo(d, n)
  {
    if j < n - 1 {
      OpIdListHas(d, n - 1, j, id);
    }
  }

  lemma {:induction false} OpIdListFind(d: Dict<PathItem>, n: nat, id: string) returns (j: nat)
    requires d.Valid() && n <= |d.keys|
    requires id in PathMerge.OpIdListUpTo(d, n)
    ensures j < n && d.keys[j] in d.entries && id in ItemIds(d.entries[d.keys[j]])
  {
    var k := d.keys[n - 1];
    assert k in d.entries;
    if id in ItemIds(d.entries[k]) {
      j := n - 1;
    } else {
      j := OpIdListFind(d, n - 1, id);
    }
  }

  /** getOpIDs harvests exactly the operation ids: an id is in the set if and
      only if some path entry has an operation carrying it (see
      Operations.ItemIdsMembers for the operations of one entry). */
  lemma OpIdsExact(s: Swagger, id: string)
    requires ValidPaths(s.paths)
    ensures id in OpIds(s) <==> exists k :: k in PathEntries(s) && id in ItemIds(PathEntries(s)[k])
  {
    if s.paths.Some? && s.paths.value.items.Some? {
      var d := s.paths.value.items.value;
      if id in OpIds(s) {
        var j := OpIdListFind(d, |d.keys|, id);
      }
      if exists k :: k in PathEntries(s) && id in ItemIds(PathEntries(s)[k]) {
        var k :| k in PathEntries(s) && id in ItemIds(PathEntries(s)[k]);
        var j :| 0 <= j < |d.keys| && d.keys[j] == k;
        OpIdListHas(d, |d.keys|, j, id);
      }
    }
  }

  /** initPrimary: the component maps, the security and tag lists and the
      paths map are created when nil; nothing else changes. */
  function InitPrimaryOf(s: Swagger): Swagger
  {
    var c := if s.components.None? then Components(None, None, None, None) else s.components.value;
    var c := if c.securitySchemes.None? then c.(securitySchemes := Some(EmptyDict())) else c;
    var security := if s.security.None? then Some([]) else s.security;
    var tags := if s.tags.None? then Some([]) else s.tags;
    var paths := if s.paths.None? then Some(Paths(Some(EmptyDict()))) else s.paths;
    var paths := if paths.value.items.None? then Some(paths.value.(items := Some(EmptyDict()))) else paths;
    var c := if c.schemas.None? then c.(schemas := Some(EmptyDict())) else c;
    var c := if c.parameters.None? then c.(parameters := Some(EmptyDict())) else c;
    var c := if c.responses.None? then c.(responses := Some(EmptyDict())) else c;
    s.(components := Some(c), security := security, tags := tags, paths := paths)
  }

  /** initPrimary makes every container non-nil, keeps the contents of all of
      them (a created one is empty), keeps the other fields, and is idempotent. */
  lemma InitPrimaryMeaning(s: Swagger)
    ensures var r := InitPrimaryOf(s);
      && Ready(r)
      && (forall kind :: ComponentEntries(r, kind) == ComponentEntries(s, kind))
      && (forall kind :: s.components.Some? && GetComponent(s.components.value, kind).Some? ==>
            GetComponent(r.components.value, kind) == GetComponent(s.components.value, kind))
      && ListOf(r.security) == ListOf(s.security)
      && ListOf(r.tags) == ListOf(s.tags)
      && PathEntries(r) == PathEntries(s)
      && (s.paths.Some? && s.paths.value.items.Some? ==> r.paths == s.paths)
      && r.extensions == s.extensions && r.info == s.info && r.externalDocs == s.externalDocs
      && InitPrimaryOf(r) == r
  {
    var r := InitPrimaryOf(s);
    forall kind
      ensures GetComponent(r.components.value, kind).Some?
      ensures ComponentEntries(r, kind) == ComponentEntries(s, kind)
    {
    }
  }

  // ---------------------------------------------------------------------
  // The mergers, on values

  /** mergeSwaggerProps: extensions, then Info, then ExternalDocs (the
      corrected step; see Metadata.ExternalDocsStep). Only extension keys are
      reported. */
  function PropsMerged(s: Swagger, m: Swagger): (r: (Swagger, seq<Skip>))
    requires ValidExtensions(m.extensions) && ValidInfo(m.info)
    ensures r.0 == s.(extensions := r.0.extensions, info := r.0.info, externalDocs := r.0.externalDocs)
  {
    var ext := Metadata.ExtensionsMerged(s.extensions, m.extensions);
    var info :=
      if s.info.None? then (m.info, [])
      else if m.info.None? then (s.info, [])
      else
        var i := Metadata.InfoMerged(s.info.value, m.info.value);
        (Some(i.0), i.1);
    var docs := Metadata.ExternalDocsStep(s.externalDocs, m.externalDocs);
    (s.(extensions := ext.0, info := info.0, externalDocs := docs), ExtensionSkips(ext.1 + info.1))
  }

  /** mergeTags: tags are appended unless one with the same name is there. */
  function TagsMerged(s: Swagger, m: Swagger): (r: (Swagger, seq<Skip>))
    ensures r.0 == s.(tags := r.0.tags)
    ensures s.tags.Some? ==> r.0.tags.Some?
  {
    var r := MergeLists.AppendNew(ListOf(s.tags), ListOf(m.tags), TagName, |ListOf(m.tags)|);
    (s.(tags := if s.tags.None? && r.0 == [] then None else Some(r.0)), TagSkips(r.1))
  }

  /** mergeSecurityRequirements: a requirement is appended unless an equal
      one is there. */
  function RequirementsMerged(s: Swagger, m: Swagger): (r: (Swagger, seq<Skip>))
    ensures r.0 == s.(security := r.0.security)
    ensures s.security.Some? ==> r.0.security.Some?
  {
    var ms := ListOf(m.security);
    var r := MergeLists.AppendNew(ListOf(s.security), ms, RequirementKey, |ms|);
    (s.(security := if s.security.None? && r.0 == [] then None else Some(r.0)), RequirementSkips(r.1))
  }

  /** mergeSecurityDefinitions, mergeDefinitions, mergeParameters and
      mergeResponses: nothing happens when the mixin's map is nil or empty;
      otherwise the primary's containers are created if nil and the map merge
      runs. */
  function ComponentMerged(s: Swagger, m: Swagger, kind: ComponentKind): (r: (Swagger, seq<Skip>))
    requires ValidComponents(m.components)
    ensures r.0 == s.(components := r.0.components)
    ensures Ready(s) ==> Ready(r.0)
  {
    if m.components.None? || GetComponent(m.components.value, kind).None?
       || GetComponent(m.components.value, kind).value.keys == [] then (s, [])
    else
      var c := if s.components.None? then Components(None, None, None, None) else s.components.value;
      var d := if GetComponent(c, kind).None? then EmptyDict() else GetComponent(c, kind).value;
      var r := MergeMaps.Merge(d, GetComponent(m.components.value, kind).value);
      (s.(components := Some(SetComponent(c, kind, Some(r.0)))), ComponentSkips(kind, r.1))
  }

  /** mergePaths, with the running id set. */
  function PathsMerged(s: Swagger, m: Swagger, ids: set<string>, mixIndex: nat): (r: (Swagger, set<string>, seq<Skip>))
    requires ValidPaths(m.paths)
    requires HasPathEntries(m) ==> s.paths.Some? && s.paths.value.items.Some?
    ensures r.0 == s.(paths := r.0.paths)
    ensures s.paths.Some? && s.paths.value.items.Some? ==> r.0.paths.Some? && r.0.paths.value.items.Some?
  {
    if !HasPathEntries(m) then (s, ids, [])
    else
      var r := PathMerge.MergePathsDict(s.paths.value.items.value, m.paths.value.items.value, ids, mixIndex);
      (s.(paths := Some(Paths(Some(r.items)))), r.ids, PathSkips(r.skipped))
  }

  // ---------------------------------------------------------------------
  // The loop of Mixin

  /** The primary, the id set and the skip list between iterations. */
  datatype RunState = RunState(doc: Swagger, ids: set<string>, skipped: seq<Skip>)

  ghost predicate ValidMixins(ms: seq<Swagger>)
  {
    forall j :: 0 <= j < |ms| ==> ValidSwagger(ms[j])
  }

  /** One iteration of the loop of Mixin, for the mixin at `mixIndex`: the
      eight mergers in source order, each one's skips appended in turn. */
  function Step(st: RunState, m: Swagger, mixIndex: nat): (r: RunState)
    requires ValidSwagger(m) && Ready(st.doc)
    ensures Ready(r.doc)
  {
    var p1 := PropsMerged(st.doc, m);
    var p2 := TagsMerged(p1.0, m);
    var p3 := ComponentMerged(p2.0, m, SecuritySchemesKind);
    var p4 := RequirementsMerged(p3.0, m);
    var p5 := ComponentMerged(p4.0, m, SchemasKind);
    var p6 := PathsMerged(p5.0, m, st.ids, mixIndex);
    var p7 := ComponentMerged(p6.0, m, ParametersKind);
    var p8 := ComponentMerged(p7.0, m, ResponsesKind);
    RunState(p8.0, p6.1, st.skipped + (p1.1 + p2.1 + p3.1 + p4.1 + p5.1 + p6.2 + p7.1 + p8.1))
  }

  /** The state before the loop: the ids are harvested first, then the
      primary is initialised. */
  function Start(d: Swagger): (r: RunState)
    requires ValidPaths(d.paths)
    ensures Ready(r.doc)
  {
    InitPrimaryMeaning(d);
    RunState(InitPrimaryOf(d), OpIds(d), [])
  }

  /** The loop of Mixin from iteration `k` on, starting in state `st`. */
  function Fold(st: RunState, ms: seq<Swagger>, k: nat): (r: RunState)
    requires k <= |ms| && Ready(st.doc) && ValidMixins(ms)
    ensures Ready(r.doc)
    decreases |ms| - k
  {
    if k == |ms| then st else Fold(Step(st, ms[k], k), ms, k + 1)
  }

  /** Mixin: the final primary and the skip list. */
  function Run(d: Swagger, ms: seq<Swagger>): (r: RunState)
    requires ValidPaths(d.paths) && ValidMixins(ms)
    ensures Ready(r.doc)
  {
    Fold(Start(d), ms, 0)
  }

  /** The inner loop of getOpIDs: add the id of every operation listed. */
  method AddIds(ids: set<string>, ops: seq<Operation>) returns (r: set<string>)
    ensures r == ids + Elems(IdsOf(ops))
  {
    r := ids;
    for j := 0 to |ops|
      invariant r == ids + Elems(IdsOf(ops[..j]))
    {
      assert ops[..j + 1][..j] == ops[..j];
      r := r + {ops[j].id};
    }
    assert ops[..|ops|] == ops;
  }

  // ---------------------------------------------------------------------
  // The primary document

  /** The primary document of Mixin; the mergers update its fields. */
  class Document {
    var extensions: Option<Extensions>
    var info: Option<Info>
    var externalDocs: Option<ExternalDocs>
    var tags: Option<seq<Tag>>
    var security: Option<seq<SecurityRequirement>>
    var components: Option<Components>
    var paths: Option<Paths>

    constructor (s: Swagger)
      ensures Model() == s
    {
      extensions := s.extensions;
      info := s.info;
      externalDocs := s.externalDocs;
      tags := s.tags;
      security := s.security;
      components := s.components;
      paths := s.paths;
    }

    /** The document as a value. */
    function Model(): Swagger
      reads this
    {
      Swagger(extensions, info, externalDocs, tags, security, components, paths)
    }

    /** getOpIDs: walk every path entry and every operation it lists. */
    method GetOpIDs() returns (ids: set<string>)
      requires ValidPaths(paths)
      ensures ids == OpIds(Model())
    {
      ids := {};
      if paths.None? || paths.value.items.None? {
        return;
      }
      var d := paths.value.items.value;
      for i := 0 to |d.keys|
        invariant ids == Elems(PathMerge.OpIdListUpTo(d, i))
      {
        assert d.keys[i] in d.keys;
        var item := d.entries[d.keys[i]];
        ids := AddIds(ids, PathItemOps(item));
        ItemIdsAreOpIds(item);
        PathMerge.ElemsConcat(PathMerge.OpIdListUpTo(d, i), ItemIds(item));
      }
    }

    /** initPrimary; the nested component maps are filled on a local copy of
        the Components value, which is written back once. */
    method InitPrimary()
      modifies this
      ensures Model() == InitPrimaryOf(old(Model()))
    {
      var c := if components.None? then Components(None, None, None, None) else components.value;
      if c.securitySchemes.None? {
        c := c.(securitySchemes := Some(EmptyDict()));
      }
      if security.None? {
        security := Some([]);
      }
      if tags.None? {
        tags := Some([]);
      }
      if paths.None? {
        paths := Some(Paths(Some(EmptyDict())));
      }
      if paths.value.items.None? {
        paths := Some(paths.value.(items := Some(EmptyDict())));
      }
      if c.schemas.None? {
        c := c.(schemas := Some(EmptyDict()));
      }
      if c.parameters.None? {
        c := c.(parameters := Some(EmptyDict()));
      }
      if c.responses.None? {
        c := c.(responses := Some(EmptyDict()));
      }
      components := Some(c);
    }

    /** mergeSwaggerProps. */
    method MergeSwaggerProps(m: Swagger) returns (skipped: seq<Skip>)
      requires ValidExtensions(m.extensions) && ValidInfo(m.info)
      modifies this
      ensures (Model(), skipped) == PropsMerged(old(Model()), m)
    {
      var ext, sk := Metadata.MergeExtensions(extensions, m.extensions);
      extensions := ext;
      var infoSkipped: seq<string> := [];
      if info.None? {
        info := m.info;
      } else if m.info.Some? {
        var i;
        i, infoSkipped := Metadata.MergeInfo(info.value, m.info.value);
        info := Some(i);
      }
      if externalDocs.None? {
        externalDocs := m.externalDocs;
      } else if m.externalDocs.Some? {
        externalDocs := Some(Metadata.MergeExternalDocs(externalDocs.value, m.externalDocs));
      }
      skipped := ExtensionSkips(sk + infoSkipped);
    }

    /** mergeTags. */
    method MergeTags(m: Swagger) returns (skipped: seq<Skip>)
      modifies this
      ensures (Model(), skipped) == TagsMerged(old(Model()), m)
    {
      var r, sk := MergeLists.AppendUnique(ListOf(tags), ListOf(m.tags), TagName);
      if tags.Some? || r != [] {
        tags := Some(r);
      }
      skipped := TagSkips(sk);
    }

    /** mergeSecurityRequirements. */
    method MergeSecurityRequirements(m: Swagger) returns (skipped: seq<Skip>)
      modifies this
      ensures (Model(), skipped) == RequirementsMerged(old(Model()), m)
    {
      var r, sk := MergeLists.AppendUnique(ListOf(security), ListOf(m.security), RequirementKey);
      if security.Some? || r != [] {
        security := Some(r);
      }
      skipped := RequirementSkips(sk);
    }

    /** The body shared by the four component mergers. */
    method MergeComponent(m: Swagger, kind: ComponentKind) returns (skipped: seq<Skip>)
      requires ValidComponents(m.components)
      modifies this
      ensures (Model(), skipped) == ComponentMerged(old(Model()), m, kind)
    {
      if m.components.None? || GetComponent(m.components.value, kind).None?
         || GetComponent(m.components.value, kind).value.keys == [] {
        return [];
      }
      if components.None? {
        components := Some(Components(None, None, None, None));
      }
      var c := components.value;
      var d := if GetComponent(c, kind).None? then EmptyDict() else GetComponent(c, kind).value;
      var merged, collided := MergeMaps.MergeEntries(d, GetComponent(m.components.value, kind).value);
      components := Some(SetComponent(c, kind, Some(merged)));
      skipped := ComponentSkips(kind, collided);
    }

    /** mergeSecurityDefinitions. */
    method MergeSecurityDefinitions(m: Swagger) returns (skipped: seq<Skip>)
      requires ValidComponents(m.components)
      modifies this
      ensures (Model(), skipped) == ComponentMerged(old(Model()), m, SecuritySchemesKind)
    {
      skipped := MergeComponent(m, SecuritySchemesKind);
    }

    /** mergeDefinitions. */
    method MergeDefinitions(m: Swagger) returns (skipped: seq<Skip>)
      requires ValidComponents(m.components)
      modifies this
      ensures (Model(), skipped) == ComponentMerged(old(Model()), m, SchemasKind)
    {
      skipped := MergeComponent(m, SchemasKind);
    }

    /** mergeParameters. */
    method MergeParameters(m: Swagger) returns (skipped: seq<Skip>)
      requires ValidComponents(m.components)
      modifies this
      ensures (Model(), skipped) == ComponentMerged(old(Model()), m, ParametersKind)
    {
      skipped := MergeComponent(m, ParametersKind);
    }

    /** mergeResponses. */
    method MergeResponses(m: Swagger) returns (skipped: seq<Skip>)
      requires ValidComponents(m.components)
      modifies this
      ensures (Model(), skipped) == ComponentMerged(old(Model()), m, ResponsesKind)
    {
      skipped := MergeComponent(m, ResponsesKind);
    }

    /** mergePaths; the caller's id set is passed in and handed back. */
    method MergePaths(m: Swagger, ids: set<string>, mixIndex: nat) returns (ids': set<string>, skipped: seq<Skip>)
      requires ValidPaths(m.paths)
      requires HasPathEntries(m) ==> paths.Some? && paths.value.items.Some?
      modifies this
      ensures (Model(), ids', skipped) == PathsMerged(old(Model()), m, ids, mixIndex)
    {
      if !HasPathEntries(m) {
        return ids, [];
      }
      var r, sk;
      r, ids', sk := PathMerge.MergePathEntries(paths.value.items.value, m.paths.value.items.value, ids, mixIndex);
      paths := Some(Paths(Some(r)));
      skipped := PathSkips(sk);
    }

    /** Mixin: harvest the operation ids, initialise the primary, then merge
        every mixin in order, collecting the skip diagnostics. */
    method Mixin(mixins: seq<Swagger>) returns (skipped: seq<Skip>)
      requires ValidPaths(paths) && ValidMixins(mixins)
      modifies this
      ensures Model() == Run(old(Model()), mixins).doc
      ensures skipped == Run(old(Model()), mixins).skipped
    {
      skipped := [];
      var ids := GetOpIDs();
      InitPrimary();
      for i := 0 to |mixins|
        invariant Ready(Model())
        invariant Fold(RunState(Model(), ids, skipped), mixins, i) == Run(old(Model()), mixins)
      {
        ghost var before := RunState(Model(), ids, skipped);
        var m := mixins[i];
        var s1 := MergeSwaggerProps(m);
        var s2 := MergeTags(m);
        var s3 := MergeSecurityDefinitions(m);
        var s4 := MergeSecurityRequirements(m);
        var s5 := MergeDefinitions(m);
        var s6;
        ids, s6 := MergePaths(m, ids, i);
        var s7 := MergeParameters(m);
        var s8 := MergeResponses(m);
        skipped := skipped + (s1 + s2 + s3 + s4 + s5 + s6 + s7 + s8);
        assert RunState(Model(), ids, skipped) == Step(before, m, i);
      }
    }
  }
}
