# immerschema scripts — a Dafny model

This project models the logic of the immerschema repository's JSON scripts:

- **The schema combiner** (`combine-schemas.cjs`). It merges the schema fragments of a directory tree (slices, enums, profiles, project schemas, taxonomies) into one combined JSON Schema. It has four parts:
  - the file-name filter of the directory walk;
  - `loadSchema`, including its `../` fallback;
  - `pathToDefinitionKey`, the chain of string rewrites that names each definition;
  - `resolveRefs`, which rewrites every string `$ref` into a `#/definitions/...` pointer.

  It also covers the priority tables and the comparator of `sortDefinitions`, and the `combine` method of the `SchemaCombiner` class. `combine` installs the definitions, sorts them and synthesises `properties` and `oneOf` for the project schemas.
- **The inlining resolver of `validate.py`.** `resolve_schema_refs` and `resolve_refs_in_schema` replace a `$ref`-bearing object with the schema cached for the reference. The enum, ext and core caches are parameters.
- **The two enum/taxonomy consistency scripts** (`validate_taxonomy.py`, `scripts/validate_taxonomy.py`). Each derives the taxonomy file name and flattens the taxonomy's values. It then compares the two value sets and stops at the first pair that is out of sync.
- **The shot migration** (`scripts/migrate_to_assets.py`). In place, a shot's `imageFiles` becomes an `assets` list.
- **The reindexing tool** (`tools/reindex.py`). It sorts the shots stably by `(scene, str(subScene))` and writes each shot's position into its `index`.

JSON values are the datatype `Json.Json`. Objects are `JObj(seq<(string, Json)>)`, so member order is kept. Lookup, assignment and deletion follow JavaScript and Python dictionaries: an existing member keeps its place and a new member is appended (`Json.Lookup`, `Json.Put`, `Json.Remove`). The Python built-ins the scripts rely on are in module `Python`. These are truthiness, `in`, subscripting, iteration, `values()`, `set()` and `str()`. An exception is the `Raised` case of `Outcome`. The JavaScript string operations are in `Strings`, and Node's POSIX path helpers are in `PosixPath`.

State that the source updates in place is modelled as classes and arrays:
- The combiner object is the class `SchemaCombiner.Combiner`. Its fields are `schemas`, `definitions`, `properties` and `oneOf`. Each loop of `combine()` is a method proved against a function of the old state.
- A shot dict that `migrate_shot` mutates is the class `MigrateAssets.ShotRecord`.
- `shots.sort` runs in place on an `array`, as an insertion sort proved equal to the stable-sort function `Reindex.StableSort`.

Four behaviours of the combiner follow from the code as written:
- **A relative `$ref` with a fragment** (`./x.schema.json#/properties/y`). The relative form is tested first. The whole reference, fragment included, is then folded into one key, so the fragment is lost (`RefRewrite.RelativeRefHasNoFragment`).
- **Category ordering of the definitions.** The comparator looks for `/<category>/` or `<category>.` in a definition key. Keys hold neither `/` nor `.`, so no key matches a category. Every key gets priority 999, and the definitions end up in plain string order (`DefinitionOrder.CleanKeysCompareAsStrings`, `SchemaCombiner.CombinedDefinitionsSpec`).
- **The slice table.** It lists names such as `id_slice`. The lookup strips `_slice` before it consults the table, so no slice key finds its entry (`DefinitionOrder.SliceLookupMissesTable`).
- **Key collisions.** Two files with the same key are not reported; the later definition replaces the earlier one (`SchemaCombiner.InstallAllLastWins`).

## Model

| member | source | states |
|---|---|---|
| `DefinitionKey.KeyIsClean` | combine-schemas.cjs:190-198 | every key uses only `[A-Za-z0-9_]`, has no leading or trailing `_` and never contains `__` |
| `DefinitionKey.CleanKeyIsFixedPoint` | combine-schemas.cjs:190-198 | a string of that shape is its own key: no stage of the chain changes it |
| `DefinitionKey.KeyIdempotent` | combine-schemas.cjs:190-198 | applying `pathToDefinitionKey` to a key gives the key back |
| `DefinitionKey.SchemasPrefixDropped` | combine-schemas.cjs:192 | a leading `schemas/` is dropped once: `schemas/p` and `p` have the same key |
| `DefinitionKey.LongSuffixStripped` | combine-schemas.cjs:193 | `.schema.json`, `.enum.json` and `.taxonomy.json` are each removed whole, never only their `.json` |
| `DefinitionKey.JsonSuffixStripped` | combine-schemas.cjs:193 | a bare `.json` is removed when no longer recognised suffix ends the path |
| `DefinitionKey.NoJsonSuffixKept` | combine-schemas.cjs:193 | a path not ending in `.json` keeps its suffix |
| `DefinitionKey.SliceSuffixRenamed` | combine-schemas.cjs:194 | a trailing `.slice` becomes `_slice` |
| `DefinitionKey.SliceFileRenamed` | combine-schemas.cjs:190-194 | for a stem without backslashes or a leading `schemas/`, `<stem>.slice.schema.json` is rewritten to `<stem>_slice` before separators are replaced |
| `DefinitionKey.SliceFileKey` | combine-schemas.cjs:190-198 | `slices/id.slice.schema.json` gets the key `slices_id_slice` |
| `DefinitionKey.KeepKeyChars` | combine-schemas.cjs:196 | the character filter leaves only key characters and keeps a string made of them as it is |
| `DefinitionKey.CollapseUnderscores` | combine-schemas.cjs:198 | the result never holds `__`, is no longer than the input and starts with the same character |
| `DefinitionKey.CollapseWithoutRuns` | combine-schemas.cjs:198 | a string without `__` is not changed by collapsing |
| `PosixPath.NormalizeSegmentsNormalized` | combine-schemas.cjs:216 | the resolved path has no empty or `.` segment, and `..` only in a leading run |
| `RefRewrite.RelativeRefRewrite` | combine-schemas.cjs:214-218 | a `./` or `../` reference becomes `#/definitions/<key>`, with the key taken from the reference joined to the directory of the base path, even when the reference holds `#/` |
| `RefRewrite.RelativeRefHasNoFragment` | combine-schemas.cjs:214-218 | after `#/definitions/`, a rewritten relative reference holds no `/`, so no fragment is ever emitted for it |
| `RefRewrite.FragmentRefRewrite` | combine-schemas.cjs:219-227 | `file#/frag` gives `#/definitions/<key(file)>/frag` for a non-empty file part and `#/frag` for an empty one; anything after a second `#/` is dropped |
| `RefRewrite.BareRefRewrite` | combine-schemas.cjs:228-232 | any other string reference becomes `#/definitions/<key(ref)>` |
| `RefRewrite.RewriteRefIsInternal` | combine-schemas.cjs:213-232 | every rewritten reference starts with `#/` and holds no second `#/` |
| `RefRewrite.InternalPointerIsFixed` | combine-schemas.cjs:219-227 | an internal pointer passes through the fragment branch unchanged |
| `RefRewrite.RewriteRefIdempotent` | combine-schemas.cjs:213-232 | rewriting a rewritten reference again, from any base path, changes nothing |
| `RefRewrite.ResolveRefsPreservesStructure` | combine-schemas.cjs:202-238 | scalars and null are returned unchanged; arrays keep length and order; objects keep the same names in the same order; only string `$ref` members are rewritten and every other value, a non-string `$ref` included, is recursed into |
| `RefRewrite.ResolveRefsWithoutRefs` | combine-schemas.cjs:202-238 | a tree without string `$ref` members comes back exactly as it was |
| `RefRewrite.ResolveRefsYieldsInternalRefs` | combine-schemas.cjs:202-238 | after the rewrite, every string `$ref` in the tree is an internal pointer |
| `RefRewrite.InternalRefsAreFixed` | combine-schemas.cjs:202-238 | a tree whose references are all internal pointers is left unchanged |
| `RefRewrite.ResolveRefsIdempotent` | combine-schemas.cjs:202-238 | rewriting a rewritten schema again, from any base path, changes nothing |
| `DefinitionOrder.FirstCategory` | combine-schemas.cjs:30-33 | the category found is the first in table order that the path matches, or none |
| `DefinitionOrder.GetSchemaPriority` | combine-schemas.cjs:18-40 | the first matching category of slices, enum, profiles, project, taxonomy, io, ext gives priority 1 to 7; no match gives `other` and 999; the name is the base name without `.json` |
| `DefinitionOrder.Rank` | combine-schemas.cjs:43-91 | a listed name gets its table rank and an unlisted name gets 999 |
| `DefinitionOrder.PlainKeyMatchesNoCategory` | combine-schemas.cjs:29-39 | a key without `/` or `.` matches no category: priority 999, category `other` |
| `DefinitionOrder.SliceLookupMissesTable` | combine-schemas.cjs:106-111 | a key `slices_<stem>_slice` (such as `slices_id_slice`) is looked up as `<stem>`, which ends in no `_slice`; every name of the slice table does, so the lookup gives 999 |
| `DefinitionOrder.CompareIsTripleOrder` | combine-schemas.cjs:94-130 | the comparator is negative exactly when (priority, table rank, key) is lexicographically smaller, and zero exactly on equal keys |
| `DefinitionOrder.CompareIsStrictTotalOrder` | combine-schemas.cjs:94-130 | the comparator is irreflexive, total on distinct keys and transitive |
| `DefinitionOrder.CleanKeysCompareAsStrings` | combine-schemas.cjs:94-130 | on keys of the produced shape the comparator is plain string comparison |
| `DefinitionOrder.SortEntriesFacts` | combine-schemas.cjs:95-130 | the sort returns a permutation of the entries, ordered by the comparator |
| `DefinitionOrder.SortDefinitionsSpec` | combine-schemas.cjs:94-134 | `sortDefinitions` returns a permutation of the entries; with unique keys, each key strictly precedes the next |
| `DefinitionOrder.SortedDefinitionsAreAlphabetical` | combine-schemas.cjs:94-134 | for the combiner's own keys, the sorted definitions are in strictly increasing string order |
| `SchemaCombiner.SchemaFileNamesAccepted` | combine-schemas.cjs:147 | every name ending in `schema.json` passes the file filter |
| `SchemaCombiner.EnumFileNamesAccepted` | combine-schemas.cjs:147 | every name ending in `.enum.json` passes the file filter |
| `SchemaCombiner.TaxonomyFileNamesAccepted` | combine-schemas.cjs:147 | every name ending in `.taxonomy.json` passes the file filter |
| `SchemaCombiner.PlainJsonRejected` | combine-schemas.cjs:147 | a plain `<stem>.json` whose stem holds no dot and does not end in `schema` is refused by the file filter |
| `SchemaCombiner.LoadedFilesPassFilter` | combine-schemas.cjs:243-254 | every loaded schema came from a file that `findSchemaFiles` returned, so its name passed the filter of line 147 |
| `SchemaCombiner.RelativePath` | combine-schemas.cjs:160-165 | the relative path uses `/`; one starting with `../` is replaced by the file's base name, so no relative path starts with `../` |
| `SchemaCombiner.SchemaId` | combine-schemas.cjs:171 | the id is a truthy top-level `$id`, otherwise the relative path |
| `SchemaCombiner.LoadAllSpec` | combine-schemas.cjs:247-254 | every kept schema came from a parsed, non-null file, and none has a relative path starting with `../` |
| `SchemaCombiner.LoadAllKeeps` | combine-schemas.cjs:248-254 | every file whose content parsed to a non-null value is kept |
| `SchemaCombiner.RegisterAllLastWins` | combine-schemas.cjs:252 | `schemas` maps each relative path to the schema of the last kept file with that path |
| `SchemaCombiner.StripTopLevelId` | combine-schemas.cjs:263-264 | the copy is an object without `$id`; an object schema loses exactly its own `$id`, and an array spreads into index-named members |
| `SchemaCombiner.DefinitionShape` | combine-schemas.cjs:262-267 | an installed definition has no top-level `$id`, keeps the other member names in order, and all its references are internal pointers |
| `SchemaCombiner.DefinitionWithoutRefs` | combine-schemas.cjs:262-267 | only the top-level `$id` is removed: a schema without references is installed as it is, nested `$id` members included |
| `SchemaCombiner.InstallAllKeys` | combine-schemas.cjs:259-272 | the definitions hold the old keys plus one key per loaded schema's path, each once |
| `SchemaCombiner.InstallAllLastWins` | combine-schemas.cjs:269 | a later file with the same key overwrites an earlier one; keys no file has keep their old definition |
| `SchemaCombiner.ProjectSchemasMembers` | combine-schemas.cjs:278 | the project schemas are exactly the loaded schemas whose relative path starts with `project.` |
| `SchemaCombiner.ProjectSchemasAppend` | combine-schemas.cjs:278 | the filter keeps load order |
| `SchemaCombiner.PropNameOfProjectFile` | combine-schemas.cjs:282 | the property of `project.<name>.schema.json` is `<name>` |
| `SchemaCombiner.ProjectPropertiesSpec` | combine-schemas.cjs:279-286 | `properties` has one member per distinct property name, holding a reference to the definition of the last project schema with that name |
| `SchemaCombiner.OneOfListsProjectSchemas` | combine-schemas.cjs:289-294 | entry `i` of `oneOf` is the reference to the definition of the `i`-th project schema in load order, and each project schema has exactly one entry, at its own position |
| `SchemaCombiner.OneOfRefsResolve` | combine-schemas.cjs:289-294 | every `oneOf` reference names a key the sorted definitions have |
| `SchemaCombiner.CombinedDefinitionsSpec` | combine-schemas.cjs:259-275 | the sorted definitions hold exactly the installed keys, each once, in strictly increasing string order |
| `SchemaCombiner.CombinedFieldsSpec` | combine-schemas.cjs:8-14 | the combined schema has unique member names, the fixed `$id`, the given definitions, and `properties` / `oneOf` exactly when they have been set |
| `SchemaCombiner.Combiner.constructor` | combine-schemas.cjs:5-15 | a new combiner has no schemas, no definitions and no `properties` or `oneOf` |
| `SchemaCombiner.Combiner.CombinedSchema` | combine-schemas.cjs:8-14 | `combinedSchema` as a JSON object built from the fields |
| `SchemaCombiner.Combiner.LoadSchemas` | combine-schemas.cjs:247-254 | the load loop keeps the loadable files in walk order and registers each under its relative path; nothing else changes |
| `SchemaCombiner.Combiner.InstallDefinitions` | combine-schemas.cjs:259-272 | the install loop puts every loaded schema under its key in turn; nothing else changes |
| `SchemaCombiner.Combiner.BuildProperties` | combine-schemas.cjs:280-285 | the `properties` loop builds the property map of the project schemas |
| `SchemaCombiner.Combiner.AddProperties` | combine-schemas.cjs:279-286 | with at least one project schema, `properties` is rebuilt from them; otherwise it stays |
| `SchemaCombiner.Combiner.AddOneOf` | combine-schemas.cjs:289-294 | with at least one project schema, `oneOf` lists a reference to each; otherwise it stays |
| `SchemaCombiner.Combiner.LoadAndInstall` | combine-schemas.cjs:243-275 | loading, installing and sorting leave the sorted installed definitions in place |
| `SchemaCombiner.Combiner.Combine` | combine-schemas.cjs:241-297 | `combine()` leaves the registered schemas, the sorted definitions and the project `properties` / `oneOf` in place and returns the combined schema |
| `InlineRefs.DebugDefinition` | validate.py:69-72 | the debug branch gives `ext_cache['./ext/debug.schema.json']['properties']['debug']`, or `None` when that entry is absent |
| `InlineRefs.CachedRefReplacesObject` | validate.py:60-68 | an object whose `$ref` names a cached schema is replaced by that schema as a whole, asking the enum, ext and core caches in that order |
| `InlineRefs.DebugRefResolves` | validate.py:69-72 | a debug pointer no cache holds resolves to the debug property, or to `None` without the debug schema |
| `InlineRefs.InternalRefKept` | validate.py:73-75 | an object with an internal `#/` reference comes back unchanged |
| `InlineRefs.UnresolvedRefKept` | validate.py:73-78 | an object whose reference no branch handles comes back unchanged, its other members unvisited |
| `InlineRefs.NonStringRefRaises` | validate.py:60-69 | a non-string `$ref` makes the resolver raise |
| `InlineRefs.ResolveShape` | validate.py:79-90 | an object without `$ref` keeps its names with each value resolved, a list keeps its length and order, and a scalar is returned as it is |
| `InlineRefs.InSchemaIgnoresCore` | validate.py:94-128 | `resolve_refs_in_schema` never reads its core cache: it is the resolver with an empty core cache |
| `InlineRefs.CoreCache` | validate.py:50-56 | the core cache is empty without a core schema; otherwise it maps `./core.schema.json` to the core schema resolved by `resolve_refs_in_schema` |
| `InlineRefs.ResolveSchemaRefs` | validate.py:30-92 | `resolve_schema_refs` runs the resolver with that core cache |
| `InlineRefs.SettledIsFixed` | validate.py:58-90 | a tree whose every reached `$ref` is left alone resolves to itself |
| `InlineRefs.NoRefsUnchanged` | validate.py:58-90 | a tree without `$ref` members resolves to itself |
| `InlineRefs.ResolveIdempotent` | validate.py:58-90 | when every cached replacement is itself settled, resolving twice equals resolving once |
| `InlineRefs.ResolveSucceeds` | validate.py:58-90 | with only string references and a well-formed debug schema, resolution does not raise |
| `TaxonomySync.TaxonomyNameOfEnumFile` | validate_taxonomy.py:6 | `<stem>.enum.json` with no `enum` in the stem is paired with `<stem>.taxonomy.json` |
| `TaxonomySync.TaxonomyNameWithoutEnum` | scripts/validate_taxonomy.py:10 | a name without `enum` is paired with itself |
| `Python.SetOfSpec` | validate_taxonomy.py:34-35 | `set(xs)` keeps, of each class of Python `==` among the values, the first value inserted, and meets exactly the classes of `xs` |
| `Python.OneAbsorbsTrue` | validate_taxonomy.py:34-35 | `set([1, True])` is `{1}` |
| `TaxonomySync.CompareSets` | validate_taxonomy.py:34-37 | a pair passes exactly when every element of each set equals, under Python `==` (so `True == 1`), some element of the other; otherwise it reports `miss = enum - flat` and `extra = flat - enum`, each holding the elements the other set has no equal of |
| `TaxonomySync.CompareValues` | validate_taxonomy.py:34-37 | an unhashable value or a non-iterable enum is a failure; otherwise the pair is in sync exactly when both value lists meet the same classes of Python `==`, and a mismatch reports the two Python set differences |
| `TaxonomySync.TrueMatchesOne` | validate_taxonomy.py:34-37 | an enum `[true]` is in sync with a taxonomy whose values are `[1]` |
| `TaxonomySync.CompareValuesIgnoresOrder` | validate_taxonomy.py:34-37 | the verdict, and the classes a mismatch reports, depend only on which classes of Python `==` each side holds, not on order, repetition or which equal value stands for a class |
| `TaxonomySync.FirstStopSpec` | validate_taxonomy.py:4-38 | the run succeeds exactly when every pair is in sync; otherwise it ends with the first pair that is not |
| `TaxonomySync.FirstStopSnoc` | validate_taxonomy.py:4-37 | one more pair extends the run: an earlier stop stands, otherwise the new pair decides |
| `TaxonomyCheck.PropertyValuesCases` | validate_taxonomy.py:29-33 | a property contributes `items.enum` if present, else `enum`, else nothing; a scalar property raises |
| `TaxonomyCheck.ItemsEnumWins` | validate_taxonomy.py:30-33 | `items.enum` takes precedence over a sibling `enum` |
| `TaxonomyCheck.FlatOf` | validate_taxonomy.py:28-33 | `flat` is defined exactly when no property raises |
| `TaxonomyCheck.TaxonomyFlat` | validate_taxonomy.py:28-33 | `flat` is built from the values of the taxonomy's `properties` dict |
| `TaxonomyCheck.FlatMembers` | validate_taxonomy.py:28-33 | a value is in `flat` exactly when some property contributes it |
| `TaxonomyCheck.FlattenProperties` | validate_taxonomy.py:28-33 | the `extend` loop computes `flat` for the taxonomy |
| `TaxonomyCheck.CheckPair` | validate_taxonomy.py:6-37 | one iteration of the loop gives the pair's verdict |
| `TaxonomyCheck.ValidateAll` | validate_taxonomy.py:4-38 | the script's outcome is the first verdict that is not in sync, or success |
| `TaxonomyCheck.MissingTaxonomyFirst` | validate_taxonomy.py:7-8 | a missing taxonomy aborts before the enum file is read |
| `TaxonomyCheck.PassIffSameSets` | validate_taxonomy.py:34-37 | with both files loaded and hashable values, a pair passes exactly when every value on each side equals (Python `==`, so `True == 1`) some value on the other; otherwise it reports both set differences |
| `TaxonomyCheck.FirstStopPrefix` | validate_taxonomy.py:4-37 | a stop within the first pairs is the stop of the whole run |
| `TaxonomyPairs.ChainedListValues` | scripts/validate_taxonomy.py:16 | `flat` is the taxonomy's top-level lists, one after another in key order |
| `TaxonomyPairs.ChainRaises` | scripts/validate_taxonomy.py:16 | a taxonomy that is no dict, or has a non-iterable value, raises |
| `TaxonomyPairs.ValidateTaxonomyPairsSpec` | scripts/validate_taxonomy.py:9-23 | the success message is reached exactly when every pair passes; otherwise the run ends at the first failing pair |
| `TaxonomyPairs.MissingTaxonomyAborts` | scripts/validate_taxonomy.py:11-12 | a missing taxonomy ends the run at that pair |
| `TaxonomyPairs.RejectedIffDifference` | scripts/validate_taxonomy.py:17-21 | a pair is rejected exactly when one of the two Python set differences (under `==`, so `True == 1`) is non-empty, and the rejection reports both |
| `MigrateAssets.ShotRecord.Migrate` | scripts/migrate_to_assets.py:8-13 | the in-place migration leaves the record that `migrate_shot` describes, or the record without `imageFiles` when iteration raises |
| `MigrateAssets.MigrateShotSpec` | scripts/migrate_to_assets.py:8-12 | after migration there is no `imageFiles`, `assets` holds one image reference per former file, and every other member reads as before |
| `MigrateAssets.NoImageFilesUnchanged` | scripts/migrate_to_assets.py:8-13 | a shot without `imageFiles` is returned unchanged |
| `MigrateAssets.MigrateShotIdempotent` | scripts/migrate_to_assets.py:8-13 | migrating a migrated shot changes nothing |
| `MigrateAssets.MigrateFile` | scripts/migrate_to_assets.py:20-25 | a list has each shot migrated with length and order kept, a dict is migrated, and any other value is left as it is |
| `MigrateAssets.MigrateFileIdempotent` | scripts/migrate_to_assets.py:20-25 | migrating a migrated file changes nothing |
| `Reindex.KeyOf` | tools/reindex.py:12-14 | the key is `(scene, str(subScene))`, with defaults `0` and `""` |
| `Reindex.LessIsStrictTotalOrder` | tools/reindex.py:16 | tuple order with the sub-scene compared as a string is a strict total order |
| `Reindex.StableSortSpec` | tools/reindex.py:16 | the sort gives a permutation with non-decreasing keys, and shots with equal keys keep their input order |
| `Reindex.InsertLast` | tools/reindex.py:16 | one pass moves the next shot down past the shots before it with greater keys |
| `Reindex.SortShots` | tools/reindex.py:16 | sorting in place leaves the stable sort of the input |
| `Reindex.LoadShots` | tools/reindex.py:9-14 | `shots` holds one entry per path, in command-line order |
| `Reindex.WriteIndices` | tools/reindex.py:18-20 | the enumerate loop writes exactly those shots, in sorted order |
| `Reindex.ReindexFiles` | tools/reindex.py:8-21 | the tool writes the indexed stable sort of the input shots |
| `Reindex.ReindexSpec` | tools/reindex.py:8-21 | one file is written per input; keys are sorted with ties in input order; the `index` values are exactly `0..n-1`, matching sorted positions; only `index` changes |

## Left out

- The directory walk of `findSchemaFiles`, file reads, `JSON.parse` and `saveToFile` are input and output. This covers the output formatting, the write and the category-count summary. The walk's result is a parameter: the discovered files with their parsed content, or `None` when reading or parsing failed. Each discovered name is required to pass the file filter, as the walk guarantees (`SchemaCombiner.WalkedFiles`).
- Console logging in every script, `sys.exit` and its messages, and the module-level driver of `validate.py` (`load_json_file` and the `jsonschema` validation) are left out. The consistency scripts return a `Status` instead of exiting.
- `pathToDefinitionKey` on an absolute path is left out. That branch makes the path relative to `schemasDir` with `path.relative`.
- `RefRewrite.RewriteRef`: `path.posix.resolve` depends on the process's working directory. The relative branch therefore joins and normalizes the reference against `dirname(basePath)` and keeps leading `..` segments.
- `Strings.LocaleCompare`: `localeCompare` is locale-sensitive. The model uses plain code-point order.
- `DefinitionOrder.InCategory`: `toLowerCase` is modelled on ASCII letters only.
- JavaScript objects put integer-like member names first; this reordering is not modelled.
- JSON numbers are integers; floating-point values are not modelled.
- `validate.py` works on deep copies (validate.py:92, 128). Dafny values are immutable, so "the input is never mutated" holds by construction for the resolver and is not stated separately. The migration and the reindexing tool do mutate in place; this is modelled by `MigrateAssets.ShotRecord.Migrate`, `Reindex.SortShots` and `Reindex.WriteIndices`.
- `Reindex.KeyOf` requires `scene` to be an integer and `subScene` to be a scalar when present. Python would also sort all-string scenes, and would render a list or dict `subScene` with `str`. Mixed-type comparisons raise `TypeError` in Python; those cases are not modelled.
- Python's `sort` and JavaScript's `Array.prototype.sort` are modelled as stable insertion sorts (`Reindex.StableSort`, `DefinitionOrder.SortEntries`). Their results are the same for the comparators used here.
- The `id` computed by `loadSchema` is modelled (`SchemaCombiner.SchemaId`). Nothing in `combine` reads it.
