# Mixin: merging OpenAPI documents

This project models the document-merge engine of the `analysis` package
(`mixin.go`), and proves properties of the model. `Mixin` folds a
sequence of mixin documents into a primary document:

- Paths and the four component maps are copied across. These are schemas,
  parameters, responses and security schemes.
- Tags and security requirements are appended.
- Info, ExternalDocs and the extension maps are merged field by field.

Every collision is reported as a skip diagnostic. Nothing the primary
already has is ever overwritten, and an earlier mixin wins over a later one.

An operation id that is already taken when its path entry is added gets the
suffix `Mixin<i>`, where `<i>` is the index of the mixin.

## Layout

| file | module | what it holds |
|---|---|---|
| `types.dfy` | `OpenApi` | The document datatypes. `Dict` models a Go map as its keys, in the order `range` visits them, plus the entries. Option fields stand for the source's nil pointers, maps and slices. |
| `maps.dfy` | `MergeMaps` | The skip-or-insert loop shared by every map-keyed merger. |
| `lists.dfy` | `MergeLists` | The nested `found` loops of `mergeTags` and `mergeSecurityRequirements`. |
| `operations.dfy` | `Operations` | `pathItemOps`, `appendOp`, and the op-id rename loop of `mergePaths`. |
| `paths.dfy` | `PathMerge` | The loop of `mergePaths` over the mixin's path entries, with the running id set. |
| `metadata.dfy` | `Metadata` | `mergeExtensions`, `mergeInfo`, `mergeExternalDocs` and the ExternalDocs step of `mergeSwaggerProps`. |
| `mixin.dfy` | `Mixins` | Specification functions for every merger and for the loop of `Mixin` (`Start`, `Step`, `Fold`, `Run`). Also the class `Document`: the primary, whose fields the methods update in place. Each method is proved to compute its specification function. |
| `properties.dfy` | `MixinProperties` | What the merge guarantees. Each property is proved for one iteration (`Step…`), then for the loop from any state (`Fold…`), then for `Mixin` as a whole (`Run…`). |

The methods follow the source's loops. The functions they are proved
against are abbreviated in the table below as "the … function":

- `MergeMaps.MergeEntries` is proved against `MergeMaps.Merge`.
- `MergeLists.AppendUnique` against `MergeLists.AppendNew`.
- `Operations.RenameOperations` against `Operations.RenameUpTo`.
- `PathMerge.MergePathEntries` against `PathMerge.MergePathsDict`.
- `Metadata.MergeInfo` against `Metadata.InfoMerged`.
- The `Mixins.Document` methods against `Mixins.PropsMerged`, `TagsMerged`,
  `RequirementsMerged`, `ComponentMerged`, `PathsMerged` and `Run`.

The properties are then proved about those functions.

Three behaviours of the code shape the model:

- The doc comment of `Mixin` (mixin.go:13-16) says that operation id
  collisions are avoided by appending `Mixin<N>`. The code never checks the
  renamed id again (mixin.go:200-203), so a renamed id can itself be taken.
  `Operations.RenameClashExample` gives such a case. The op-id uniqueness
  results carry the `!PathsClash` and `NoClashFrom` preconditions for this
  reason.
- `Mixin` runs `initPrimary` before its loop (mixin.go:38-40). Even with no
  mixins, the primary's nil containers become empty ones
  (`MixinProperties.NoMixins`).
- The ExternalDocs step of `mergeSwaggerProps` (mixin.go:311-314) tests the
  mixin document instead of its ExternalDocs, and then dereferences a nil
  pointer. This is the one place where the model departs from the code.
  `Mixins.PropsMerged` and `Mixins.Document.MergeSwaggerProps` use the
  corrected step, so `Run` and `Document.Mixin` also give a result where the
  source panics. The step as written is modelled on its own (see Findings
  and Left out).

## Model

| member | source | states |
|---|---|---|
| `Operations.AppendOp` | mixin.go:95-101 | A nil operation leaves the list as it is. Otherwise the list grows by exactly that operation at the end, and the old list is an unchanged prefix. |
| `Operations.PathItemOpsArePresent` | mixin.go:83-93 | `pathItemOps` returns exactly the non-nil slots, in the order Get, Put, Post, Delete, Head, Patch: it is proved equal to `Present(Slots(p))`. It returns at most six operations, and an operation is listed if and only if some slot holds it. |
| `Operations.ItemIdsAreOpIds` | mixin.go:73-77 | The ids taken from a path entry are the ids of the operations `pathItemOps` lists, in that order. |
| `Operations.ItemIdsMembers` | mixin.go:73-77 | An id belongs to a path entry if and only if one of the operations `pathItemOps` lists carries it. |
| `Operations.DecimalDigits` | mixin.go:201 | The `%v` text of the mixin index is non-empty and made of decimal digits only. |
| `Operations.Suffix` | mixin.go:201 | The rename suffix is the literal `Mixin` followed by at least one more character (the index). |
| `Operations.RenameRule` | mixin.go:199-203 | Per slot, after the rename loop: an empty slot stays empty. A visited operation keeps everything but its id. The id gets the suffix exactly when it is already in the set, where the set includes the ids recorded for earlier slots. |
| `Operations.RenameIds` | mixin.go:199-204 | The id set only grows, and it grows by exactly the final ids of the entry's operations. |
| `Operations.RenameFresh` | mixin.go:192-203 | When no renamed id lands on a taken one, the final ids are pairwise distinct, and none of them was in the set before. |
| `Operations.RenameClashExample` | mixin.go:200-203 | A concrete case. The ids `list` and `listMixin0` are taken, and the first mixin brings an operation `list`. The clash predicate holds, and the operation is renamed to `listMixin0`, which is already taken. |
| `Operations.RenameOperations` | mixin.go:198-204 | The rename loop over `pathItemOps` computes the reference rename function, id set included. |
| `MergeMaps.MergeMeaning` | mixin.go:115-125 | Inserting never overwrites: the result is the mixin's map overlaid by the primary's. The skipped keys are the mixin's keys the primary has, in visit order. The result is again a well-formed map. |
| `MergeMaps.CollidingMembers` | mixin.go:116-121 | A key is reported if and only if both sides have it, and none is reported twice. |
| `MergeMaps.MergeSkipAccounting` | mixin.go:115-125 | The keys afterwards are the union of both key sets. Every colliding key is reported exactly once, and no other key is reported. |
| `MergeMaps.MergeSubsetIsIdle` | mixin.go:115-125 | A mixin whose keys the primary already has leaves the primary unchanged and reports every one of its keys. |
| `MergeMaps.MergeEntries` | mixin.go:115-125 | The skip-or-insert loop computes the map merge function: the new map and the skipped keys. |
| `MergeLists.AppendNewPartition` | mixin.go:271-292 | The primary list is an unchanged prefix of the result. Each mixin element is either appended or skipped, exactly once (as multisets). |
| `MergeLists.AppendNewKeys` | mixin.go:271-292 | The keys present afterwards are the primary's plus the mixin's. |
| `MergeLists.AppendNewUnique` | mixin.go:271-292 | If the primary's keys were unique, they stay unique, even when the mixin itself repeats a key. |
| `MergeLists.AppendNewSkipsIff` | mixin.go:272-289 | An element is skipped exactly when its key is in the primary or belongs to an earlier element of the same mixin. Otherwise it is appended. |
| `MergeLists.AppendNewIdle` | mixin.go:271-292 | A mixin whose keys are all present appends nothing and skips every element. |
| `MergeLists.AppendUnique` | mixin.go:130-152 | The nested `found` loops compute the list merge function: the new list and the skipped elements. |
| `PathMerge.RenameIsRenaming` | mixin.go:198-204 | A renamed path entry differs from the mixin's only in op ids, and only where the suffix was appended. |
| `PathMerge.MergePathsMeaning` | mixin.go:182-206 | A colliding path skips the whole entry. The keys afterwards are the union. The primary's entries are unchanged. Every added entry is the mixin's entry up to renaming. The skipped paths are exactly the colliding keys. |
| `PathMerge.MergePathKeysValid` | mixin.go:205 | The merged paths are again a well-formed map. |
| `PathMerge.MergePathIdsGrow` | mixin.go:203 | The running id set only grows. |
| `PathMerge.MergePathIds` | mixin.go:198-205 | If the running id set is exactly the primary's op ids, it is again exactly the op ids of the merged paths, renamed ids included. |
| `PathMerge.MergePathsUnique` | mixin.go:192-205 | If the primary's op ids are distinct, and no renamed id lands on a taken one, the merged op ids are distinct. |
| `PathMerge.MergePathEntries` | mixin.go:181-210 | The loop over the mixin's paths computes the path merge function: new paths, new id set and skipped paths. |
| `Metadata.ExtensionsMergeMeaning` | mixin.go:393-418 | The nil rules: a nil primary map becomes the mixin's, and a nil mixin map leaves the primary's. The result is nil only when both are. The entries are the mixin's overlaid by the primary's. The reported keys are exactly the keys both sides have, each once. |
| `Metadata.MergeExtensions` | mixin.go:393-418 | The loop computes the extension merge function. |
| `Metadata.ExtensionsSelfMerge` | mixin.go:393-418 | Merging an extension map into itself changes nothing and reports every key. |
| `Metadata.InfoFillsOnlyEmpty` | mixin.go:338-388 | Each string field of Info, Contact and License is filled from the mixin only when the primary's is empty. A nil Contact or License takes the mixin's wholesale, and a nil mixin one changes nothing. |
| `Metadata.InfoSkipAccounting` | mixin.go:333-390 | The reported keys are the colliding extension keys of the Info, then of the Contact, then of the License. Those of an unmerged Contact or License are empty. |
| `Metadata.InfoSelfMerge` | mixin.go:332-391 | Merging an Info into itself changes nothing. |
| `Metadata.InfoBlankIsUnit` | mixin.go:332-391 | An Info with every field empty is a unit on both sides and reports nothing. |
| `Metadata.MergeContact` | mixin.go:356-372 | The Contact block computes the Contact merge function. |
| `Metadata.MergeLicense` | mixin.go:376-388 | The License block computes the License merge function. |
| `Metadata.MergeInfo` | mixin.go:332-391 | `mergeInfo` computes the Info merge function, diagnostics included. |
| `Metadata.MergeExternalDocs` | mixin.go:320-330 | As written: it needs a mixin ExternalDocs unless both of the primary's fields are set. It fills only empty fields. |
| `Metadata.ExternalDocsStepAsWritten` | mixin.go:309-314 | The step as written: a nil primary takes the mixin's ExternalDocs, and a primary that has ExternalDocs keeps them. It is defined only where `mergeExternalDocs` does not read a nil mixin object. |
| `Metadata.ExternalDocsNilMixinPanics` | mixin.go:311-326 | Against a mixin without ExternalDocs, the step as written is defined exactly when both fields of the primary's ExternalDocs are set. A primary with an empty description or an empty URL makes it dereference nil; a concrete such input is included. |
| `Metadata.ExternalDocsStepMeaning` | mixin.go:309-314 | The corrected step: the result is nil only when both inputs are. A nil side yields the other side. Two present sides fill only the empty fields. The result agrees with the step as written wherever that one is defined. |
| `Mixins.OpIdsExact` | mixin.go:66-81 | `getOpIDs` harvests exactly the ids: an id is in the set if and only if some path entry has an operation carrying it. |
| `Mixins.AddIds` | mixin.go:75-77 | The inner loop adds exactly the ids of the listed operations. |
| `Mixins.Document.GetOpIDs` | mixin.go:66-81 | The loop over the paths computes the id set of the document. A nil paths object gives the empty set. |
| `Mixins.InitPrimaryMeaning` | mixin.go:420-456 | After `initPrimary`, all four component maps, the security, tag and paths containers are non-nil. Their contents are unchanged (a created one is empty). An existing container is left as it is, every other field is unchanged, and the operation is idempotent. |
| `Mixins.Document.InitPrimary` | mixin.go:420-456 | The method computes the `initPrimary` function on the document's fields. |
| `Mixins.PropsMerged` | mixin.go:297-317 | `mergeSwaggerProps` changes only the extensions, the Info and the ExternalDocs. |
| `Mixins.TagsMerged` | mixin.go:270-295 | `mergeTags` changes only the tags, and a non-nil tag list stays non-nil. |
| `Mixins.RequirementsMerged` | mixin.go:130-152 | `mergeSecurityRequirements` changes only the security list, and a non-nil list stays non-nil. |
| `Mixins.ComponentMerged` | mixin.go:103-128 | A component merger changes only the components, and keeps every container non-nil. The same function covers mixin.go:154-179, 212-239 and 241-268. |
| `Mixins.PathsMerged` | mixin.go:181-210 | `mergePaths` changes only the paths, and keeps the primary's paths map non-nil. |
| `Mixins.Document.MergeSwaggerProps` | mixin.go:297-317 | The method computes `mergeSwaggerProps` on the fields, with the reported keys. The ExternalDocs step is the corrected one (see Findings). |
| `Mixins.Document.MergeTags` | mixin.go:270-295 | The method computes `mergeTags` on the fields, with the skip diagnostics. |
| `Mixins.Document.MergeSecurityRequirements` | mixin.go:130-152 | The method computes `mergeSecurityRequirements` on the fields. |
| `Mixins.Document.MergeComponent` | mixin.go:103-128 | The shared body of the four component mergers computes the component merge function. |
| `Mixins.Document.MergeSecurityDefinitions` | mixin.go:103-128 | `mergeSecurityDefinitions` computes the component merge for security schemes. |
| `Mixins.Document.MergeDefinitions` | mixin.go:154-179 | `mergeDefinitions` computes the component merge for schemas. |
| `Mixins.Document.MergeParameters` | mixin.go:212-239 | `mergeParameters` computes the component merge for parameters. |
| `Mixins.Document.MergeResponses` | mixin.go:241-268 | `mergeResponses` computes the component merge for responses. |
| `Mixins.Document.MergePaths` | mixin.go:181-210 | `mergePaths` computes the path merge, with the new running id set and the skipped paths. |
| `Mixins.Start` | mixin.go:38-40 | The ids are harvested, then the primary is initialised, and all its containers exist. |
| `Mixins.Step` | mixin.go:43-58 | One iteration runs the eight mergers in source order and keeps all containers non-nil. |
| `Mixins.Fold` | mixin.go:42-59 | The loop, from any state, keeps all containers non-nil. |
| `Mixins.Run` | mixin.go:37-62 | After `Mixin` every container of the primary exists. |
| `Mixins.Document.Mixin` | mixin.go:37-62 | `Mixin` leaves the document equal to the result of `Run` and returns its skip list. |
| `MixinProperties.NoMixins` | mixin.go:38-61 | With no mixins the skip list is empty, the primary is only initialised, and the id set is the harvested one. |
| `MixinProperties.ComponentMergedEntries` | mixin.go:103-128 | One component merger adds the mixin's entries under the existing ones for its own kind, and leaves the other three kinds alone. An empty mixin map changes nothing. |
| `MixinProperties.StepComponents` | mixin.go:47-58 | One iteration overlays every component map on the mixin's. |
| `MixinProperties.FoldComponents` | mixin.go:42-59 | From any state, the loop computes the reference overlay, where earlier entries win. |
| `MixinProperties.OverlayKeys` | mixin.go:25-27 | A key is in the overlay if and only if the base or some remaining mixin has it. The base's entries are never overwritten. |
| `MixinProperties.OverlayFirst` | mixin.go:25-27 | A key the base lacks takes the entry of the first mixin that has it. |
| `MixinProperties.ComponentsFirstWriterWins` | mixin.go:25-27 | After `Mixin`, a component key is present if and only if the primary or some mixin has it. The primary's entry is kept. Otherwise the first mixin that has the key wins. |
| `MixinProperties.StepLists` | mixin.go:45-49 | One iteration merges tags by name and requirements by equality, through the list merge. |
| `MixinProperties.AppendAllMeaning` | mixin.go:270-295 | One list merge keeps the old list as a prefix, adds the mixin's keys, and keeps keys unique. |
| `MixinProperties.ListsFromMeaning` | mixin.go:42-59 | Over the remaining mixins, the list merges keep the starting list as a prefix, add every mixin's keys, and keep keys unique. |
| `MixinProperties.FoldLists` | mixin.go:42-59 | From any state, the loop merges the tags and the requirements as the reference list merge does. |
| `MixinProperties.RunTags` | mixin.go:270-295 | After `Mixin`, the primary's tags are an unchanged prefix. A tag name is present if and only if the primary or some mixin has it. Names stay unique when the primary's were. |
| `MixinProperties.RunRequirements` | mixin.go:130-152 | After `Mixin`, the primary's requirements are an unchanged prefix. A requirement is present if and only if the primary or some mixin has an equal one. No duplicate is added. |
| `MixinProperties.StepPaths` | mixin.go:181-210 | One iteration keeps every path entry already there, and adds each missing path of the mixin, renamed by this mixin's suffix. |
| `MixinProperties.FoldPaths` | mixin.go:42-59 | From any state, a path key is present afterwards if and only if it was there or a remaining mixin has it. Existing entries are kept. |
| `MixinProperties.FoldPathsFirstMixin` | mixin.go:192-205 | From any state, a missing path is taken from the first remaining mixin that has it, renamed by that mixin's suffix. |
| `MixinProperties.RunPaths` | mixin.go:181-210 | After `Mixin`, a path key is present if and only if the primary or some mixin has it. The primary's entries are exactly as they were. Any other path is the first owning mixin's entry, renamed by its suffix. |
| `MixinProperties.StepIds` | mixin.go:53-54 | One iteration keeps the running id set equal to the op ids of the primary's paths. |
| `MixinProperties.FoldIds` | mixin.go:42-59 | The loop keeps the running id set equal to the op ids of the primary's paths. |
| `MixinProperties.StartIds` | mixin.go:39-40 | The harvested set is the primary's op-id set after `initPrimary`. |
| `MixinProperties.RunIds` | mixin.go:39-59 | Throughout `Mixin` the id set is exactly the set of the primary's op ids, renamed ones included, and the paths stay a well-formed map. |
| `MixinProperties.StepUnique` | mixin.go:192-204 | One iteration without a rename clash keeps the op ids distinct. |
| `MixinProperties.FoldUnique` | mixin.go:192-204 | The loop keeps the op ids distinct as long as no iteration hits a rename clash. |
| `MixinProperties.RunUnique` | mixin.go:13-16 | A primary with distinct op ids keeps them distinct through `Mixin`, provided no rename lands on a taken id. |
| `MixinProperties.StepProps` | mixin.go:43 | Only `mergeSwaggerProps` touches the extensions, the Info and the ExternalDocs in an iteration. |
| `MixinProperties.PropsMergedMeaning` | mixin.go:297-317 | A nil Info takes the mixin's wholesale. A nil mixin Info changes nothing, and two Infos merge field by field. ExternalDocs follow the corrected step. Extension maps follow the nil rules. Every report is an extension key. A key is reported exactly when both top-level extension maps have it, or when the merge of two Infos reports it. |
| `MixinProperties.FirstMixinInfo` | mixin.go:302-303 | A primary without Info takes the first mixin's Info wholesale. |
| `MergeLists.AppendNewSkipCount` | mixin.go:271-292 | Counting the skips: of the mixin elements that carry a key, every one is skipped when the primary has the key, and all but the first otherwise. |
| `MixinProperties.StepSkips` | mixin.go:43-58 | One iteration appends the eight mergers' reports in source order. Each report is the one the merger gives against the primary as it was when the iteration began, because the mergers write disjoint parts of the document. |
| `MixinProperties.ReportKinds` | mixin.go:43-58 | Each merger reports only entries of its own category. |
| `MixinProperties.ComponentMergedSkips` | mixin.go:115-121 | A component merger reports each key of its own kind that both sides have, exactly once. It reports no other key and nothing but component entries. |
| `MixinProperties.PathsMergedSkips` | mixin.go:183-189 | `mergePaths` reports each path that both sides have, exactly once, and nothing else. |
| `MixinProperties.TagsMergedSkips` | mixin.go:271-292 | `mergeTags` reports every mixin tag whose name is taken. That is all the mixin's tags of a name the primary has, and all but the first tag of any other name. |
| `MixinProperties.RequirementsMergedSkips` | mixin.go:131-149 | `mergeSecurityRequirements` reports every mixin copy of a requirement the primary has, and all but the first copy of any other. |
| `MixinProperties.StepComponentReports` | mixin.go:47-57 | In one iteration, a component key is reported once if the primary and the mixin both have it, and not at all otherwise. |
| `MixinProperties.StepPathReports` | mixin.go:53-54 | In one iteration, a path is reported once if the primary and the mixin both have it, and not at all otherwise. |
| `MixinProperties.StepTagReports` | mixin.go:45 | In one iteration, the reports of a tag name are counted by the list-merge rule, against the primary's tags. |
| `MixinProperties.StepRequirementReports` | mixin.go:49 | In one iteration, the reports of a requirement are counted by the list-merge rule, against the primary's list. |
| `MixinProperties.StepListsPresent` | mixin.go:45-49 | After one iteration, a tag name or a requirement is present exactly when it was present before or the mixin has it. |
| `MixinProperties.StepTagSkips` | mixin.go:45 | One iteration adds the tag-name reports to the skip list and makes the mixin's names present. |
| `MixinProperties.StepRequirementSkips` | mixin.go:49 | One iteration adds the requirement reports to the skip list and makes the mixin's requirements present. |
| `MixinProperties.ReportsClosed` | mixin.go:25-31 | Over a run of mixins, a key is reported once for every element that carries it. The exception is the very first such element, when the key was not present at the start. |
| `MixinProperties.FoldComponentSkips` | mixin.go:42-59 | From any state, the loop's component-key reports follow the reference count. |
| `MixinProperties.FoldPathSkips` | mixin.go:42-59 | From any state, the loop's path reports follow the reference count. |
| `MixinProperties.FoldTagSkips` | mixin.go:42-59 | From any state, the loop's tag-name reports follow the reference count. |
| `MixinProperties.FoldRequirementSkips` | mixin.go:42-59 | From any state, the loop's requirement reports follow the reference count. |
| `MixinProperties.RunComponentSkips` | mixin.go:25-31 | After `Mixin`, a component key is reported once by every mixin that has it. The exception is the first such mixin, when the primary lacks the key. So every collision is reported exactly once. |
| `MixinProperties.RunPathSkips` | mixin.go:25-31 | After `Mixin`, a path is reported once by every mixin that has it. The exception is the first such mixin, when the primary lacks the path. |
| `MixinProperties.RunTagSkips` | mixin.go:270-295 | After `Mixin`, a tag name is reported once for every mixin tag of that name. The exception is the first one, when the primary has no tag of that name. |
| `MixinProperties.RunRequirementSkips` | mixin.go:130-152 | After `Mixin`, a requirement is reported once for every mixin copy of it. The exception is the first copy, when the primary lacks it. |
| `MixinProperties.SharedKeyReportedOnce` | mixin.go:25-27 | Two mixins bring the same component key, and the primary lacks it. The first mixin's entry is taken, and exactly one diagnostic is reported. |
| `MixinProperties.CollidingPathReportedOnce` | mixin.go:183-189 | A path of the primary that the mixin also has gives exactly one diagnostic, and the primary's entry stays. |

## Left out

- Diagnostic text: a skip diagnostic is a datatype naming the category and the key (`Skip`). The `fmt.Sprintf` messages are not modelled.
- `RunUnique`: op-id uniqueness is proved only under the assumption that no renamed id lands on a taken one (`NoClashFrom`). The source does not re-check a renamed id, so the unconditional property is false (`Operations.RenameClashExample`).
- `PathMerge.MergePathsUnique`: stated under the same no-clash assumption, for the same reason.
- Aliasing: the mixins are values. In Go the rename writes through the mixin's operation pointers, so the mixin documents are renamed as well. A nil primary Info, Contact, License or extension map is assigned the mixin's pointer, so later merges write into the mixin's objects. None of this is modelled. The rename at mixin.go:201 writes through a shared `*spec.Operation`. When two path entries share one operation object, in one mixin or across mixins, a later rename also rewrites the entry already inserted at mixin.go:205. So `RunPaths` (the primary's entries stay exactly as they were) and `RunIds` hold in Go only for documents whose path entries share no operation objects.
- `Mixins.PropsMerged`: uses the corrected ExternalDocs step (`Metadata.ExternalDocsStep`). Here the source panics: the primary has ExternalDocs with an empty description or URL, and the mixin has none (mixin.go:311-326). The model instead leaves the primary's ExternalDocs alone. The step as written is `Metadata.ExternalDocsStepAsWritten`.
- `Mixins.Document.MergeSwaggerProps`: makes the same replacement. So `Mixins.Run`, `Mixins.Document.Mixin` and every `Run…` lemma also describe a result on inputs where the source panics.
- Go map iteration order: `range` order is unspecified. Each map carries an explicit key sequence, and every property holds for any order. The order of diagnostics within one category therefore follows that key sequence.
- `reflect.DeepEqual` on security requirements is modelled as value equality, so a nil list of scopes and an empty one are the same.
- Nil mixin documents and a nil primary: the source dereferences both. The model takes both as present.
- `FixEmptyResponseDescriptions`, the fixture conversion scripts and the other files of the repository are not part of this model.

## Findings

| source | as written | input that shows it | evidently intended | confidence | as-written member | corrected member |
|---|---|---|---|---|---|---|
| mixin.go:311 | `mergeSwaggerProps` guards the call to `mergeExternalDocs` with `m != nil`, a test of the mixin document. `mergeExternalDocs` (mixin.go:321-326) then reads the mixin's `ExternalDocs` fields. | The primary has ExternalDocs with an empty description or an empty URL, and the mixin has no ExternalDocs. The call dereferences a nil pointer. | Guard with `m.ExternalDocs != nil`, as the Info step does (mixin.go:304). A mixin without ExternalDocs then leaves the primary's alone. | not executed | `Metadata.ExternalDocsStepAsWritten`, `Metadata.ExternalDocsNilMixinPanics` | `Metadata.ExternalDocsStep`, `Metadata.ExternalDocsStepMeaning` |
