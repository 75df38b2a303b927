/**
 The in-memory shape of an OpenAPI document as the merge engine of mixin.go
 sees it. Go pointers and nil maps/slices become `Option`; a Go map becomes a
 `Dict`, which also records the order in which a `range` loop visits it (Go
 leaves that order unspecified, so every lemma here holds for every order).
 */
module OpenApi {

  datatype Option<T> = None | Some(value: T)

  /** An opaque, structurally comparable JSON-like value: extension values and
      the bodies of schemas, parameters, responses and security schemes. */
  datatype Value =
    | Null
    | Bool(b: bool)
    | Number(n: int)
    | Str(s: string)
    | Array(items: seq<Value>)
    | Object(fields: seq<(string, Value)>)

  /** No key occurs twice (stated recursively, so that the solver unfolds it
      only on demand). */
  ghost predicate DistinctKeys(keys: seq<string>)
  {
    keys == [] || (keys[|keys| - 1] !in keys[..|keys| - 1] && DistinctKeys(keys[..|keys| - 1]))
  }

  lemma {:induction false} DistinctKeysPrefix(keys: seq<string>, n: nat)
    requires DistinctKeys(keys) && 0 < n <= |keys|
    ensures DistinctKeys(keys[..n]) && keys[n - 1] !in keys[..n - 1]
  {
    if n < |keys| {
      var init := keys[..|keys| - 1];
      DistinctKeysPrefix(init, n);
      assert init[..n] == keys[..n] && init[..n - 1] == keys[..n - 1];
    } else {
      assert keys[..n] == keys;
    }
  }

  /** A Go map together with the order in which one `range` loop visits it. */
  datatype Dict<V> = Dict(keys: seq<string>, entries: map<string, V>)
  {
    /** Every key is visited exactly once. */
    ghost predicate Valid()
    {
      && DistinctKeys(keys)
      && forall k :: k in entries <==> k in keys
    }
  }

  function EmptyDict<V>(): (r: Dict<V>)
    ensures r.Valid() && r.entries == map[] && r.keys == []
  {
    Dict([], map[])
  }

  /** `m[k] = v` for a key that is not yet present; the new key is visited last. */
  function Insert<V>(d: Dict<V>, k: string, v: V): (r: Dict<V>)
    requires k !in d.entries
    ensures r.entries == d.entries[k := v]
    ensures r.keys == d.keys + [k]
    ensures d.Valid() ==> r.Valid()
  {
    var r := Dict(d.keys + [k], d.entries[k := v]);
    assert r.keys[..|d.keys|] == d.keys;
    r
  }

  /** The set of elements of a sequence. */
  function Elems<T>(s: seq<T>): set<T>
  {
    set x | x in s
  }

  ghost predicate Distinct<T>(s: seq<T>)
  {
    forall i, j :: 0 <= i < j < |s| ==> s[i] != s[j]
  }

  /** An element of a sequence without repetitions occurs in it exactly once. */
  lemma {:induction false} DistinctMultiplicity<T>(s: seq<T>, x: T)
    requires Distinct(s)
    ensures multiset(s)[x] == if x in s then 1 else 0
  {
    if s != [] {
      var init, last := s[..|s| - 1], s[|s| - 1];
      assert s == init + [last];
      assert Distinct(init) by {
        forall i, j | 0 <= i < j < |init| ensures init[i] != init[j] {
          assert init[i] == s[i] && init[j] == s[j];
        }
      }
      assert last !in init by {
        forall i | 0 <= i < |init| ensures init[i] != last {
          assert init[i] == s[i];
        }
      }
      DistinctMultiplicity(init, x);
    }
  }

  // Component bodies are never inspected by the merge: they are opaque values.
  type Schema = Value
  type Parameter = Value
  type Response = Value
  type SecurityScheme = Value

  /** A security requirement: scheme name to the list of scopes. */
  type SecurityRequirement = map<string, seq<string>>

  /** An operation; only its identifier matters to the merge. */
  datatype Operation = Operation(id: string, body: Value)

  /** A path entry with its six operation slots. */
  datatype PathItem = PathItem(
    get: Option<Operation>,
    put: Option<Operation>,
    post: Option<Operation>,
    delete: Option<Operation>,
    head: Option<Operation>,
    patch: Option<Operation>)

  datatype Tag = Tag(name: string, description: string)

  type Extensions = Dict<Value>

  datatype Contact = Contact(name: string, url: string, email: string, extensions: Option<Extensions>)

  datatype License = License(name: string, url: string, extensions: Option<Extensions>)

  datatype Info = Info(
    description: string,
    title: string,
    termsOfService: string,
    version: string,
    contact: Option<Contact>,
    license: Option<License>,
    extensions: Option<Extensions>)

  datatype ExternalDocs = ExternalDocs(description: string, url: string)

  datatype Components = Components(
    schemas: Option<Dict<Schema>>,
    parameters: Option<Dict<Parameter>>,
    responses: Option<Dict<Response>>,
    securitySchemes: Option<Dict<SecurityScheme>>)

  datatype Paths = Paths(items: Option<Dict<PathItem>>)

  /** A whole document (spec.Swagger); every pointer, map and slice may be nil. */
  datatype Swagger = Swagger(
    extensions: Option<Extensions>,
    info: Option<Info>,
    externalDocs: Option<ExternalDocs>,
    tags: Option<seq<Tag>>,
    security: Option<seq<SecurityRequirement>>,
    components: Option<Components>,
    paths: Option<Paths>)

  /** The four component collections, which share one collision policy. */
  datatype ComponentKind = SecuritySchemesKind | SchemasKind | ParametersKind | ResponsesKind

  function GetComponent(c: Components, kind: ComponentKind): Option<Dict<Value>>
  {
    match kind
    case SecuritySchemesKind => c.securitySchemes
    case SchemasKind => c.schemas
    case ParametersKind => c.parameters
    case ResponsesKind => c.responses
  }

  function SetComponent(c: Components, kind: ComponentKind, d: Option<Dict<Value>>): (r: Components)
    ensures GetComponent(r, kind) == d
    ensures forall other :: other != kind ==> GetComponent(r, other) == GetComponent(c, other)
  {
    match kind
    case SecuritySchemesKind => c.(securitySchemes := d)
    case SchemasKind => c.(schemas := d)
    case ParametersKind => c.(parameters := d)
    case ResponsesKind => c.(responses := d)
  }

  ghost predicate ValidExtensions(e: Option<Extensions>)
  {
    e.Some? ==> e.value.Valid()
  }

  ghost predicate ValidContact(c: Option<Contact>)
  {
    c.Some? ==> ValidExtensions(c.value.extensions)
  }

  ghost predicate ValidLicense(l: Option<License>)
  {
    l.Some? ==> ValidExtensions(l.value.extensions)
  }

  ghost predicate ValidInfo(i: Option<Info>)
  {
    i.Some? ==> ValidExtensions(i.value.extensions) && ValidContact(i.value.contact) && ValidLicense(i.value.license)
  }

  ghost predicate ValidComponents(c: Option<Components>)
  {
    c.Some? ==> forall kind :: GetComponent(c.value, kind).Some? ==> GetComponent(c.value, kind).value.Valid()
  }

  ghost predicate ValidPaths(p: Option<Paths>)
  {
    p.Some? && p.value.items.Some? ==> p.value.items.value.Valid()
  }

  /** Every map of the document is a well-formed Go map. */
  ghost predicate ValidSwagger(s: Swagger)
  {
    && ValidExtensions(s.extensions)
    && ValidInfo(s.info)
    && ValidComponents(s.components)
    && ValidPaths(s.paths)
  }

  /** One skip diagnostic. The source formats these as text; the extension
      mergers report the bare key. */
  datatype Skip =
    | ComponentEntry(kind: ComponentKind, key: string)
    | PathEntry(path: string)
    | TagEntry(name: string)
    | RequirementEntry(requirement: SecurityRequirement)
    | ExtensionEntry(key: string)
}
