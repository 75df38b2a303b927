/**
 The metadata mergers of mixin.go: extension maps (mergeExtensions), the Info
 object with its Contact and License (mergeInfo), and ExternalDocs
 (mergeExternalDocs and its call in mergeSwaggerProps). A string field is
 filled from the mixin only when the primary's is empty; a nil primary object
 takes the mixin's wholesale.
 */
module Metadata {
  import opened OpenApi
  import MergeMaps

  /** The entries of an extension map; a nil map reads as empty. */
  function Entries(e: Option<Extensions>): map<string, Value>
  {
    if e.None? then map[] else e.value.entries
  }

  /** mergeExtensions: a nil primary map becomes the mixin's, a nil mixin map
      leaves the primary as it is; otherwise the mixin's keys that are not yet
      present are added and the others are reported. */
  function ExtensionsMerged(p: Option<Extensions>, m: Option<Extensions>): (Option<Extensions>, seq<string>)
    requires ValidExtensions(m)
  {
    if p.None? then (m, [])
    else if m.None? then (p, [])
    else
      var r := MergeMaps.Merge(p.value, m.value);
      (Some(r.0), r.1)
  }

  /** The nil rules of mergeExtensions, and what the merge means in every
      case: the result is nil only when both are, its entries are the mixin's
      overlaid by the primary's, and the reported keys are exactly the keys
      present on both sides, each once. */
  lemma ExtensionsMergeMeaning(p: Option<Extensions>, m: Option<Extensions>)
    requires ValidExtensions(m)
    ensures var r := ExtensionsMerged(p, m);
      && (p.None? ==> r == (m, []))
      && (m.None? ==> r == (p, []))
      && (r.0.None? <==> p.None? && m.None?)
      && Entries(r.0) == Entries(m) + Entries(p)
      && (forall k :: k in r.1 <==> k in Entries(p) && k in Entries(m))
      && Distinct(r.1)
      && (ValidExtensions(p) ==> ValidExtensions(r.0))
  {
    if p.Some? && m.Some? {
      MergeMaps.MergeMeaning(p.value, m.value);
      MergeMaps.MergeSkipAccounting(p.value, m.value);
    }
  }

  /** mergeExtensions. */
  method MergeExtensions(p: Option<Extensions>, m: Option<Extensions>) returns (r: Option<Extensions>, skipped: seq<string>)
    requires ValidExtensions(m)
    ensures (r, skipped) == ExtensionsMerged(p, m)
  {
    if p.None? {
      return m, [];
    }
    if m.None? {
      return p, [];
    }
    var merged, collided := MergeMaps.MergeEntries(p.value, m.value);
    r, skipped := Some(merged), collided;
  }

  /** A string field after merging: the primary's unless it is empty. */
  function Fill(p: string, m: string): string
  {
    if p == "" then m else p
  }

  /** The Contact step of mergeInfo when both sides have one. */
  function ContactMerged(p: Contact, m: Contact): (Contact, seq<string>)
    requires ValidExtensions(m.extensions)
  {
    var ext := ExtensionsMerged(p.extensions, m.extensions);
    (Contact(Fill(p.name, m.name), Fill(p.url, m.url), Fill(p.email, m.email), ext.0), ext.1)
  }

  /** The License step of mergeInfo when both sides have one. */
  function LicenseMerged(p: License, m: License): (License, seq<string>)
    requires ValidExtensions(m.extensions)
  {
    var ext := ExtensionsMerged(p.extensions, m.extensions);
    (License(Fill(p.name, m.name), Fill(p.url, m.url), ext.0), ext.1)
  }

  /** A nil Contact takes the mixin's; otherwise the two are merged. */
  function ContactStep(p: Option<Contact>, m: Option<Contact>): (Option<Contact>, seq<string>)
    requires ValidContact(m)
  {
    if p.None? then (m, [])
    else if m.None? then (p, [])
    else
      var c := ContactMerged(p.value, m.value);
      (Some(c.0), c.1)
  }

  /** A nil License takes the mixin's; otherwise the two are merged. */
  function LicenseStep(p: Option<License>, m: Option<License>): (Option<License>, seq<string>)
    requires ValidLicense(m)
  {
    if p.None? then (m, [])
    else if m.None? then (p, [])
    else
      var l := LicenseMerged(p.value, m.value);
      (Some(l.0), l.1)
  }

  /** mergeInfo: the merged Info and the reported extension keys, those of the
      Info's own extensions first, then the Contact's, then the License's. */
  function InfoMerged(p: Info, m: Info): (Info, seq<string>)
    requires ValidInfo(Some(m))
  {
    var ext := ExtensionsMerged(p.extensions, m.extensions);
    var contact := ContactStep(p.contact, m.contact);
    var license := LicenseStep(p.license, m.license);
    (Info(
       Fill(p.description, m.description),
       Fill(p.title, m.title),
       Fill(p.termsOfService, m.termsOfService),
       Fill(p.version, m.version),
       contact.0,
       license.0,
       ext.0),
     ext.1 + contact.1 + license.1)
  }

  /** `r` is `p` filled from `m`: a non-empty field of `p` is kept, an empty
      one takes `m`'s, so a field ends up empty only when both are. */
  ghost predicate Filled(r: string, p: string, m: string)
  {
    && (p != "" ==> r == p)
    && (p == "" ==> r == m)
    && (r == "" <==> p == "" && m == "")
  }

  /** Fill-only-when-empty for every string field mergeInfo touches, and the
      wholesale rule for a nil Contact or License. */
  lemma InfoFillsOnlyEmpty(p: Info, m: Info)
    requires ValidInfo(Some(m))
    ensures var r := InfoMerged(p, m).0;
      && Filled(r.description, p.description, m.description)
      && Filled(r.title, p.title, m.title)
      && Filled(r.termsOfService, p.termsOfService, m.termsOfService)
      && Filled(r.version, p.version, m.version)
      && (p.contact.None? ==> r.contact == m.contact)
      && (p.contact.Some? && m.contact.None? ==> r.contact == p.contact)
      && (p.contact.Some? && m.contact.Some? ==>
            && r.contact.Some?
            && Filled(r.contact.value.name, p.contact.value.name, m.contact.value.name)
            && Filled(r.contact.value.url, p.contact.value.url, m.contact.value.url)
            && Filled(r.contact.value.email, p.contact.value.email, m.contact.value.email))
      && (p.license.None? ==> r.license == m.license)
      && (p.license.Some? && m.license.None? ==> r.license == p.license)
      && (p.license.Some? && m.license.Some? ==>
            && r.license.Some?
            && Filled(r.license.value.name, p.license.value.name, m.license.value.name)
            && Filled(r.license.value.url, p.license.value.url, m.license.value.url))
  {
  }

  /** The reported keys are exactly the extension keys present on both sides
      of the Info, of the Contact and of the License, in that order. */
  lemma InfoSkipAccounting(p: Info, m: Info)
    requires ValidInfo(Some(m))
    ensures var r := InfoMerged(p, m);
      && r.1 == ExtensionsMerged(p.extensions, m.extensions).1
             + ContactStep(p.contact, m.contact).1
             + LicenseStep(p.license, m.license).1
      && (forall k :: k in ExtensionsMerged(p.extensions, m.extensions).1 <==>
            k in Entries(p.extensions) && k in Entries(m.extensions))
      && (p.contact.Some? && m.contact.Some? ==> forall k :: k in ContactStep(p.contact, m.contact).1 <==>
            k in Entries(p.contact.value.extensions) && k in Entries(m.contact.value.extensions))
      && (p.license.Some? && m.license.Some? ==> forall k :: k in LicenseStep(p.license, m.license).1 <==>
            k in Entries(p.license.value.extensions) && k in Entries(m.license.value.extensions))
      && (p.contact.None? || m.contact.None? ==> ContactStep(p.contact, m.contact).1 == [])
      && (p.license.None? || m.license.None? ==> LicenseStep(p.license, m.license).1 == [])
  {
    ExtensionsMergeMeaning(p.extensions, m.extensions);
    if p.contact.Some? && m.contact.Some? {
      ExtensionsMergeMeaning(p.contact.value.extensions, m.contact.value.extensions);
    }
    if p.license.Some? && m.license.Some? {
      ExtensionsMergeMeaning(p.license.value.extensions, m.license.value.extensions);
    }
  }

  /** Merging an extension map into itself changes nothing and reports every
      key. */
  lemma ExtensionsSelfMerge(e: Option<Extensions>)
    requires ValidExtensions(e)
    ensures ExtensionsMerged(e, e).0 == e
    ensures e.Some? ==> ExtensionsMerged(e, e).1 == e.value.keys
  {
    if e.Some? {
      MergeMaps.MergeSubsetIsIdle(e.value, e.value);
      assert MergeMaps.Merge(e.value, e.value) == (e.value, e.value.keys);
    }
  }

  /** Mixing an Info into itself leaves it unchanged. */
  lemma InfoSelfMerge(i: Info)
    requires ValidInfo(Some(i))
    ensures InfoMerged(i, i).0 == i
  {
    ExtensionsSelfMerge(i.extensions);
    if i.contact.Some? {
      ExtensionsSelfMerge(i.contact.value.extensions);
    }
    if i.license.Some? {
      ExtensionsSelfMerge(i.license.value.extensions);
    }
  }

  /** An Info with every field empty or nil. */
  function BlankInfo(): Info
  {
    Info("", "", "", "", None, None, None)
  }

  /** The blank Info is a unit on both sides: merging it in changes nothing,
      and merging into it yields the mixin's Info. Neither reports anything. */
  lemma InfoBlankIsUnit(i: Info)
    requires ValidInfo(Some(i))
    ensures InfoMerged(i, BlankInfo()) == (i, [])
    ensures InfoMerged(BlankInfo(), i) == (i, [])
  {
    assert InfoMerged(i, BlankInfo()).0 == i;
    assert InfoMerged(i, BlankInfo()).1 == [];
    assert InfoMerged(BlankInfo(), i).0 == i;
    assert InfoMerged(BlankInfo(), i).1 == [];
  }

  /** The Contact block of mergeInfo, on a primary Contact that is not nil. */
  method MergeContact(p: Contact, m: Contact) returns (r: Contact, skipped: seq<string>)
    requires ValidExtensions(m.extensions)
    ensures (r, skipped) == ContactMerged(p, m)
  {
    r := p;
    var ext;
    ext, skipped := MergeExtensions(r.extensions, m.extensions);
    r := r.(extensions := ext);
    if r.name == "" {
      r := r.(name := m.name);
    }
    if r.url == "" {
      r := r.(url := m.url);
    }
    if r.email == "" {
      r := r.(email := m.email);
    }
  }

  /** The License block of mergeInfo, on a primary License that is not nil. */
  method MergeLicense(p: License, m: License) returns (r: License, skipped: seq<string>)
    requires ValidExtensions(m.extensions)
    ensures (r, skipped) == LicenseMerged(p, m)
  {
    r := p;
    var ext;
    ext, skipped := MergeExtensions(r.extensions, m.extensions);
    r := r.(extensions := ext);
    if r.name == "" {
      r := r.(name := m.name);
    }
    if r.url == "" {
      r := r.(url := m.url);
    }
  }

  /** mergeInfo: the primary's Info is updated field by field. */
  method MergeInfo(p: Info, m: Info) returns (r: Info, skipped: seq<string>)
    requires ValidInfo(Some(m))
    ensures (r, skipped) == InfoMerged(p, m)
  {
    r := p;
    var ext;
    ext, skipped := MergeExtensions(r.extensions, m.extensions);
    r := r.(extensions := ext);
    if r.description == "" {
      r := r.(description := m.description);
    }
    if r.title == "" {
      r := r.(title := m.title);
    }
    if r.termsOfService == "" {
      r := r.(termsOfService := m.termsOfService);
    }
    if r.version == "" {
      r := r.(version := m.version);
    }
    var contactSkipped: seq<string> := [];
    if r.contact.None? {
      r := r.(contact := m.contact);
    } else if m.contact.Some? {
      var c;
      c, contactSkipped := MergeContact(r.contact.value, m.contact.value);
      r := r.(contact := Some(c));
    }
    skipped := skipped + contactSkipped;
    var licenseSkipped: seq<string> := [];
    if r.license.None? {
      r := r.(license := m.license);
    } else if m.license.Some? {
      var l;
      l, licenseSkipped := MergeLicense(r.license.value, m.license.value);
      r := r.(license := Some(l));
    }
    skipped := skipped + licenseSkipped;
  }

  /** mergeExternalDocs as written: it reads the mixin's ExternalDocs
      whenever one of the primary's fields is empty, so it needs a mixin
      ExternalDocs unless both of the primary's fields are set. */
  function MergeExternalDocs(p: ExternalDocs, m: Option<ExternalDocs>): (r: ExternalDocs)
    requires m.Some? || (p.description != "" && p.url != "")
    ensures m.Some? ==> Filled(r.description, p.description, m.value.description)
    ensures m.Some? ==> Filled(r.url, p.url, m.value.url)
    ensures m.None? ==> r == p
  {
    var description := if p.description == "" then m.value.description else p.description;
    var url := if p.url == "" then m.value.url else p.url;
    ExternalDocs(description, url)
  }

  /** The external-docs step of mergeSwaggerProps runs mergeExternalDocs
      whenever the primary has ExternalDocs: its guard tests the mixin
      document, which is never nil there, instead of the mixin's
      ExternalDocs. This says when that does not dereference nil. */
  predicate ExternalDocsStepDefined(p: Option<ExternalDocs>, m: Option<ExternalDocs>)
  {
    p.None? || m.Some? || (p.value.description != "" && p.value.url != "")
  }

  /** The external-docs step of mergeSwaggerProps as written. */
  function ExternalDocsStepAsWritten(p: Option<ExternalDocs>, m: Option<ExternalDocs>): (r: Option<ExternalDocs>)
    requires ExternalDocsStepDefined(p, m)
    ensures p.None? ==> r == m
    ensures p.Some? ==> r.Some?
  {
    if p.None? then m else Some(MergeExternalDocs(p.value, m))
  }

  /** Against a mixin without ExternalDocs, the step as written is defined
      exactly when both fields of the primary's ExternalDocs are set: an
      empty description or an empty URL makes it dereference nil. One such
      input is a primary with only a URL. */
  lemma ExternalDocsNilMixinPanics(d: ExternalDocs)
    ensures ExternalDocsStepDefined(Some(d), None) <==> d.description != "" && d.url != ""
    ensures !ExternalDocsStepDefined(Some(ExternalDocs("", "https://example.com/docs")), None)
  {
  }

  /** The evidently intended step: a nil primary takes the mixin's
      ExternalDocs, a nil mixin leaves the primary's alone, and otherwise the
      empty fields are filled. */
  function ExternalDocsStep(p: Option<ExternalDocs>, m: Option<ExternalDocs>): (r: Option<ExternalDocs>)
  {
    if p.None? then m
    else if m.None? then p
    else Some(MergeExternalDocs(p.value, m))
  }

  /** The corrected step never loses ExternalDocs, fills only empty fields,
      and agrees with the step as written wherever that one is defined. */
  lemma ExternalDocsStepMeaning(p: Option<ExternalDocs>, m: Option<ExternalDocs>)
    ensures var r := ExternalDocsStep(p, m);
      && (r.None? <==> p.None? && m.None?)
      && (p.None? ==> r == m)
      && (p.Some? && m.None? ==> r == p)
      && (p.Some? && m.Some? ==>
            && Filled(r.value.description, p.value.description, m.value.description)
            && Filled(r.value.url, p.value.url, m.value.url))
      && (ExternalDocsStepDefined(p, m) ==> r == ExternalDocsStepAsWritten(p, m))
  {
  }
}
