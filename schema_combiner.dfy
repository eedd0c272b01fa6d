/** `SchemaCombiner`: loading the discovered schema files, installing each as a
    definition of the combined schema under its key, sorting the definitions,
    and adding `properties` and `oneOf` for the project schemas. */
module SchemaCombiner {
  import opened Json
  import opened Strings
  import opened PosixPath
  import opened DefinitionKey
  import opened RefRewrite
  import opened DefinitionOrder

  // ----- discovering and loading -----

  /** The file-name filter of the directory walk: a `.json` name that holds
      `schema.json`, `.enum.json` or `.taxonomy.json`. */
  predicate IsSchemaFileName(item: string) {
    EndsWith(item, ".json") &&
      (Contains(item, "schema.json") || Contains(item, ".enum.json") || Contains(item, ".taxonomy.json"))
  }

  lemma MarkedNameAccepted(n: string, marker: string)
    requires |marker| >= 5 && EndsWith(marker, ".json")
    ensures EndsWith(n + marker, ".json") && Contains(n + marker, marker)
  {
    var x := n + marker;
    assert x[|n|..|n| + |marker|] == marker;
    assert OccursAt(x, marker, |n|);
    assert x[|x| - 5..] == marker[|marker| - 5..];
  }

  /** Schema, enum and taxonomy files pass the filter; `schema.json` needs no
      dot before it, so `myschema.json` passes too. */
  lemma SchemaFileNamesAccepted(n: string)
    ensures IsSchemaFileName(n + "schema.json")
  {
    assert "schema.json"[6..] == ".json";
    MarkedNameAccepted(n, "schema.json");
  }

  lemma EnumFileNamesAccepted(n: string)
    ensures IsSchemaFileName(n + ".enum.json")
  {
    assert ".enum.json"[5..] == ".json";
    MarkedNameAccepted(n, ".enum.json");
  }

  lemma TaxonomyFileNamesAccepted(n: string)
    ensures IsSchemaFileName(n + ".taxonomy.json")
  {
    assert ".taxonomy.json"[9..] == ".json";
    MarkedNameAccepted(n, ".taxonomy.json");
  }

  /** Other JSON files are skipped: a name `<stem>.json` whose stem has no
      dot and does not end in `schema` (`package.json`, `tsconfig.json`)
      fails the filter. */
  lemma PlainJsonRejected(stem: string)
    requires forall j :: 0 <= j < |stem| ==> stem[j] != '.'
    requires !EndsWith(stem, "schema")
    ensures !IsSchemaFileName(stem + ".json")
  {
    OnlyDotOfPlainJson(stem);
    NoTwoDotMarker(stem + ".json", |stem|, ".enum.json", 5);
    NoTwoDotMarker(stem + ".json", |stem|, ".taxonomy.json", 9);
    NoSchemaMarker(stem);
  }

  /** The one dot of `<stem>.json` with a dot-free stem opens `.json`. */
  lemma OnlyDotOfPlainJson(stem: string)
    requires forall j :: 0 <= j < |stem| ==> stem[j] != '.'
    ensures forall j :: 0 <= j < |stem + ".json"| ==> ((stem + ".json")[j] == '.' <==> j == |stem|)
  {
    var s := stem + ".json";
    forall j | |stem| < j < |s| ensures s[j] != '.' {
      assert s[j] == ".json"[j - |stem|];
    }
  }

  /** A marker with dots at `0` and `d` is not found in a string with a
      single dot. */
  lemma NoTwoDotMarker(s: string, dot: nat, marker: string, d: nat)
    requires forall j :: 0 <= j < |s| ==> (s[j] == '.' <==> j == dot)
    requires 0 < d < |marker| && marker[0] == '.' && marker[d] == '.'
    ensures !Contains(s, marker)
  {
    forall k: nat ensures !OccursAt(s, marker, k) {
      if k + |marker| <= |s| {
        assert s[k..k + |marker|][0] == s[k] && s[k..k + |marker|][d] == s[k + d];
      }
    }
  }

  /** `schema.json` is found in `<stem>.json` only when the stem ends in
      `schema`. */
  lemma NoSchemaMarker(stem: string)
    requires forall j :: 0 <= j < |stem + ".json"| ==> ((stem + ".json")[j] == '.' <==> j == |stem|)
    requires !EndsWith(stem, "schema")
    ensures !Contains(stem + ".json", "schema.json")
  {
    var s := stem + ".json";
    forall k: nat ensures !OccursAt(s, "schema.json", k) {
      if k + 11 <= |s| {
        assert s[k..k + 11][6] == s[k + 6];
        if s[k + 6] == '.' {
          assert s[k..k + 11][..6] == stem[|stem| - 6..];
        }
      }
    }
  }

  /** Every file the walk yields passes the filter by its own name. */
  predicate WalkedFiles(files: seq<DiscoveredFile>) {
    forall i :: 0 <= i < |files| ==> IsSchemaFileName(Basename(files[i].filePath, ""))
  }

  /** A file the walk found: its path, `path.relative(schemasDir, filePath)`,
      and the parsed content, `None` when reading or parsing failed. */
  datatype DiscoveredFile = DiscoveredFile(filePath: string, relativeToRoot: string, parsed: Option<Json>)

  /** What `loadSchema` returns for a file it could load. */
  datatype LoadedSchema = LoadedSchema(filePath: string, relativePath: string, schema: Json, id: Json)

  /** The relative path with `/` separators; a path leaving the schema
      directory is replaced by the file's base name. */
  function RelativePath(filePath: string, relativeToRoot: string): (r: string)
    ensures !StartsWith(r, "../")
    ensures !StartsWith(BackslashesToSlashes(relativeToRoot), "../") ==>
      r == BackslashesToSlashes(relativeToRoot)
    ensures StartsWith(BackslashesToSlashes(relativeToRoot), "../") ==>
      forall j :: 0 <= j < |r| ==> r[j] != '/'
  {
    var rel := BackslashesToSlashes(relativeToRoot);
    if StartsWith(rel, "../") then
      var b := Basename(filePath, "");
      assert |b| >= 3 ==> b[..3][2] == b[2];
      b
    else rel
  }

  /** JavaScript truthiness of a JSON value. */
  predicate JsTruthy(v: Json) {
    match v
    case JNull => false
    case JBool(b) => b
    case JNum(n) => n != 0
    case JStr(s) => s != ""
    case _ => true
  }

  /** `schema.$id || relativePath`. */
  function SchemaId(schema: Json, relativePath: string): (r: Json)
    ensures (schema.JObj? && Lookup(schema.fields, "$id").Some? &&
      JsTruthy(Lookup(schema.fields, "$id").value)) ==> r == Lookup(schema.fields, "$id").value
    ensures !(schema.JObj? && Lookup(schema.fields, "$id").Some?
              && JsTruthy(Lookup(schema.fields, "$id").value)) ==>
      r == JStr(relativePath)
  {
    match schema
    case JObj(f) =>
      (match Lookup(f, "$id")
       case Some(v) => if JsTruthy(v) then v else JStr(relativePath)
       case None => JStr(relativePath))
    case _ => JStr(relativePath)
  }

  /** `loadSchema(filePath)`: nothing when the file could not be read or
      parsed, and nothing for a `null` document, on which reading `$id` throws. */
  function LoadSchema(d: DiscoveredFile): Option<LoadedSchema>
  {
    match d.parsed
    case None => None
    case Some(schema) =>
      if schema == JNull then None
      else
        var rel := RelativePath(d.filePath, d.relativeToRoot);
        Some(LoadedSchema(d.filePath, rel, schema, SchemaId(schema, rel)))
  }

  /** The schemas the load loop keeps, in discovery order. */
  function LoadAll(files: seq<DiscoveredFile>): seq<LoadedSchema>
    decreases |files|
  {
    if files == [] then []
    else
      var last := files[|files| - 1];
      LoadAll(files[..|files| - 1]) +
        (match LoadSchema(last) case Some(ls) => [ls] case None => [])
  }

  lemma LoadAllSnoc(files: seq<DiscoveredFile>, i: nat)
    requires i < |files|
    ensures LoadAll(files[..i + 1]) ==
      LoadAll(files[..i]) + (match LoadSchema(files[i]) case Some(ls) => [ls] case None => [])
  {
    assert files[..i + 1][..i] == files[..i];
  }

  /** What `this.schemas` holds after the load loop: the last schema seen for
      each relative path. */
  function RegisterAll(m: map<string, Json>, loaded: seq<LoadedSchema>): map<string, Json>
    decreases |loaded|
  {
    if loaded == [] then m
    else
      var last := loaded[|loaded| - 1];
      RegisterAll(m, loaded[..|loaded| - 1])[last.relativePath := last.schema]
  }
  lemma RegisterAllSnoc(m: map<string, Json>, loaded: seq<LoadedSchema>, ls: LoadedSchema)
    ensures RegisterAll(m, loaded + [ls]) == RegisterAll(m, loaded)[ls.relativePath := ls.schema]
  {
    assert (loaded + [ls])[..|loaded|] == loaded;
  }


  /** Every kept schema came from a readable, non-null file, and none has a
      relative path leaving the schema directory. */
  lemma {:induction false} LoadAllSpec(files: seq<DiscoveredFile>)
    ensures |LoadAll(files)| <= |files|
    ensures forall x :: x in LoadAll(files) ==>
      x.schema != JNull && !StartsWith(x.relativePath, "../")
      && exists d :: d in files && LoadSchema(d) == Some(x)
    decreases |files|
  {
    if files != [] {
      var init := files[..|files| - 1];
      LoadAllSpec(init);
      forall x | x in LoadAll(files)
        ensures x.schema != JNull && !StartsWith(x.relativePath, "../")
          && exists d :: d in files && LoadSchema(d) == Some(x)
      {
        if x in LoadAll(init) {
          var d :| d in init && LoadSchema(d) == Some(x);
          assert d in files;
        } else {
          assert files[|files| - 1] in files;
        }
      }
    }
  }

  /** Every loaded schema comes from a file whose name passed the walk's
      filter. */
  lemma LoadedFilesPassFilter(files: seq<DiscoveredFile>)
    requires WalkedFiles(files)
    ensures forall x :: x in LoadAll(files) ==> IsSchemaFileName(Basename(x.filePath, ""))
  {
    LoadAllSpec(files);
    forall x | x in LoadAll(files) ensures IsSchemaFileName(Basename(x.filePath, "")) {
      var d :| d in files && LoadSchema(d) == Some(x);
      var i :| 0 <= i < |files| && files[i] == d;
    }
  }

  /** A file whose content parsed to a non-null value is kept. */
  lemma {:induction false} LoadAllKeeps(files: seq<DiscoveredFile>, i: nat)
    requires i < |files| && files[i].parsed.Some? && files[i].parsed.value != JNull
    ensures LoadSchema(files[i]).Some? && LoadSchema(files[i]).value in LoadAll(files)
    decreases |files|
  {
    if i < |files| - 1 {
      LoadAllKeeps(files[..|files| - 1], i);
    }
  }

  /** `this.schemas.get(p)`: the schema of the last kept file with relative path `p`. */
  lemma {:induction false} RegisterAllLastWins(m: map<string, Json>, loaded: seq<LoadedSchema>, i: nat)
    requires i < |loaded|
    requires forall j :: i < j < |loaded| ==> loaded[j].relativePath != loaded[i].relativePath
    ensures loaded[i].relativePath in RegisterAll(m, loaded)
    ensures RegisterAll(m, loaded)[loaded[i].relativePath] == loaded[i].schema
    decreases |loaded|
  {
    if i < |loaded| - 1 {
      RegisterAllLastWins(m, loaded[..|loaded| - 1], i);
    }
  }

  // ----- installing definitions -----

  /** `const cleanSchema = { ...schema }; delete cleanSchema.$id;`: an object
      loses its own `$id`; an array or string spreads into an object keyed by
      index; anything else spreads into an empty object. */
  function StripTopLevelId(schema: Json): (r: Json)
    ensures r.JObj? && !HasKey(r.fields, "$id")
    ensures schema.JObj? ==> r.fields == Remove(schema.fields, "$id")
    ensures schema.JArr? ==> Keys(r.fields) == seq(|schema.items|, i requires 0 <= i < |schema.items| => NatToString(i))
  {
    match schema
    case JObj(f) => JObj(Remove(f, "$id"))
    case JArr(items) =>
      var g := seq(|items|, i requires 0 <= i < |items| => (NatToString(i), items[i]));
      IndexKeysHaveNoId(g);
      JObj(g)
    case JStr(s) =>
      var g := seq(|s|, i requires 0 <= i < |s| => (NatToString(i), JStr([s[i]])));
      IndexKeysHaveNoId(g);
      JObj(g)
    case _ => JObj([])
  }

  lemma IndexKeysHaveNoId(g: Fields)
    requires forall i :: 0 <= i < |g| ==> g[i].0 == NatToString(i)
    ensures !HasKey(g, "$id")
  {
    forall i | 0 <= i < |g| ensures g[i].0 != "$id" {
      assert g[i].0[0] != '$';
    }
  }

  /** The definition installed for a loaded schema. */
  function Definition(ls: LoadedSchema): Json {
    ResolveRefs(StripTopLevelId(ls.schema), ls.relativePath)
  }

  /** A definition is an object without a top-level `$id`, whose references
      all point inside the combined document; an object schema keeps its
      members and their order, less its own `$id`. */
  lemma DefinitionShape(ls: LoadedSchema)
    ensures Definition(ls).JObj? && !HasKey(Definition(ls).fields, "$id")
    ensures RefsAreInternal(Definition(ls))
    ensures ls.schema.JObj? ==> Keys(Definition(ls).fields) == Keys(Remove(ls.schema.fields, "$id"))
  {
    var clean := StripTopLevelId(ls.schema);
    ResolveRefsPreservesStructure(clean, ls.relativePath);
    ResolveRefsYieldsInternalRefs(clean, ls.relativePath);
    var d := Definition(ls);
    assert forall k :: HasKey(d.fields, k) ==> HasKey(clean.fields, k) by {
      forall k | HasKey(d.fields, k) ensures HasKey(clean.fields, k) {
        var i :| 0 <= i < |d.fields| && d.fields[i].0 == k;
        assert Keys(d.fields)[i] == k;
        assert clean.fields[i].0 == k;
      }
    }
  }

  /** Only the top-level `$id` goes: a schema holding no string `$ref` is
      installed as it is, nested `$id` members included. */
  lemma DefinitionWithoutRefs(ls: LoadedSchema)
    requires ls.schema.JObj? && NoStringRefs(ls.schema)
    ensures Definition(ls) == JObj(Remove(ls.schema.fields, "$id"))
  {
    var f := ls.schema.fields;
    var g := Remove(f, "$id");
    forall i | 0 <= i < |g| ensures !IsStringRef(g[i]) && NoStringRefs(g[i].1) {
      assert g[i] in f;
      var j :| 0 <= j < |f| && f[j] == g[i];
    }
    ResolveRefsWithoutRefs(JObj(g), ls.relativePath);
  }

  /** The `(key, definition)` pairs the install loop puts, in load order. */
  function InstallEntries(loaded: seq<LoadedSchema>): (r: Fields)
    ensures |r| == |loaded|
    ensures forall i :: 0 <= i < |loaded| ==>
      r[i] == (PathToDefinitionKey(loaded[i].relativePath), Definition(loaded[i]))
  {
    seq(|loaded|, i requires 0 <= i < |loaded| =>
      (PathToDefinitionKey(loaded[i].relativePath), Definition(loaded[i])))
  }

  /** The definitions after the install loop: each loaded schema put in turn
      under the key of its relative path. */
  function InstallAll(defs: Fields, loaded: seq<LoadedSchema>): Fields {
    PutAll(defs, InstallEntries(loaded))
  }

  /** Some loaded schema installs under `k`. */
  predicate InstallsKey(loaded: seq<LoadedSchema>, k: string) {
    exists i :: 0 <= i < |loaded| && PathToDefinitionKey(loaded[i].relativePath) == k
  }

  lemma InstallsKeyOfEntries(loaded: seq<LoadedSchema>, k: string)
    ensures InstallsKey(loaded, k) <==> HasKey(InstallEntries(loaded), k)
  {
    var e := InstallEntries(loaded);
    if InstallsKey(loaded, k) {
      var i :| 0 <= i < |loaded| && PathToDefinitionKey(loaded[i].relativePath) == k;
      assert e[i].0 == k;
    }
    if HasKey(e, k) {
      var i :| 0 <= i < |e| && e[i].0 == k;
      assert PathToDefinitionKey(loaded[i].relativePath) == k;
    }
  }

  /** The installed keys are the old ones plus those of the loaded schemas,
      each once. */
  lemma InstallAllKeys(defs: Fields, loaded: seq<LoadedSchema>)
    ensures forall k :: HasKey(InstallAll(defs, loaded), k) <==> HasKey(defs, k) || InstallsKey(loaded, k)
    ensures UniqueKeys(defs) ==> UniqueKeys(InstallAll(defs, loaded))
  {
    PutAllKeys(defs, InstallEntries(loaded));
    forall k ensures InstallsKey(loaded, k) <==> HasKey(InstallEntries(loaded), k) {
      InstallsKeyOfEntries(loaded, k);
    }
  }

  /** A later file with the same key overwrites an earlier one: the definition
      under `k` is that of the last loaded schema with key `k`, and keys no
      loaded schema has keep their old definition. */
  lemma InstallAllLastWins(defs: Fields, loaded: seq<LoadedSchema>, k: string)
    ensures !InstallsKey(loaded, k) ==> Lookup(InstallAll(defs, loaded), k) == Lookup(defs, k)
    ensures forall i :: (0 <= i < |loaded| && PathToDefinitionKey(loaded[i].relativePath) == k &&
      forall j :: i < j < |loaded| ==> PathToDefinitionKey(loaded[j].relativePath) != k) ==>
        Lookup(InstallAll(defs, loaded), k) == Some(Definition(loaded[i]))
  {
    var e := InstallEntries(loaded);
    PutAllLastWins(defs, e, k);
    InstallsKeyOfEntries(loaded, k);
    forall i | 0 <= i < |loaded| && PathToDefinitionKey(loaded[i].relativePath) == k &&
      (forall j :: i < j < |loaded| ==> PathToDefinitionKey(loaded[j].relativePath) != k)
      ensures Lookup(InstallAll(defs, loaded), k) == Some(Definition(loaded[i]))
    {
      assert e[i].0 == k;
      assert forall j :: i < j < |e| ==> e[j].0 != k;
    }
  }

  // ----- project schemas -----

  predicate IsProjectSchema(ls: LoadedSchema) {
    StartsWith(ls.relativePath, "project.")
  }

  /** `loadedSchemas.filter(s => s.relativePath.startsWith('project.'))`. */
  function ProjectSchemas(loaded: seq<LoadedSchema>): (r: seq<LoadedSchema>)
    ensures |r| <= |loaded|
    decreases |loaded|
  {
    if loaded == [] then []
    else
      var last := loaded[|loaded| - 1];
      ProjectSchemas(loaded[..|loaded| - 1]) + (if IsProjectSchema(last) then [last] else [])
  }

  /** The filter keeps exactly the schemas whose relative path starts with `project.`. */
  lemma {:induction false} ProjectSchemasMembers(loaded: seq<LoadedSchema>)
    ensures forall x :: x in ProjectSchemas(loaded) <==> x in loaded && IsProjectSchema(x)
    decreases |loaded|
  {
    if loaded != [] {
      var init := loaded[..|loaded| - 1];
      var last := loaded[|loaded| - 1];
      ProjectSchemasMembers(init);
      assert loaded == init + [last];
    }
  }

  /** The filter keeps load order: filtering a concatenation filters each part. */
  lemma {:induction false} ProjectSchemasAppend(a: seq<LoadedSchema>, b: seq<LoadedSchema>)
    ensures ProjectSchemas(a + b) == ProjectSchemas(a) + ProjectSchemas(b)
    decreases |b|
  {
    if b == [] {
      assert a + b == a;
    } else {
      var b' := b[..|b| - 1];
      ProjectSchemasAppend(a, b');
      assert (a + b)[..|a + b| - 1] == a + b';
      assert (a + b)[|a + b| - 1] == b[|b| - 1];
      assert ProjectSchemas(a + b) == ProjectSchemas(a + b') +
        (if IsProjectSchema(b[|b| - 1]) then [b[|b| - 1]] else []);
      assert ProjectSchemas(b) == ProjectSchemas(b') +
        (if IsProjectSchema(b[|b| - 1]) then [b[|b| - 1]] else []);
    }
  }

  /** The `$ref` object pointing at the definition with key `k`. */
  function RefTo(k: string): Json {
    JObj([("$ref", JStr(DefinitionsPointer + k))])
  }

  /** `path.basename(relativePath, '.schema.json').replace('project.', '')`. */
  function PropName(relativePath: string): string {
    ReplaceFirst(Basename(relativePath, ".schema.json"), "project.", "")
  }

  /** The property of `project.<name>.schema.json` is `<name>`. */
  lemma PropNameOfProjectFile(name: string)
    requires forall j :: 0 <= j < |name| ==> name[j] != '/'
    ensures PropName("project." + name + ".schema.json") == name
  {
    var p := "project." + name + ".schema.json";
    var b := "project." + name;
    assert forall j :: 0 <= j < |p| ==> p[j] != '/';
    LastSegmentOfPlainName(p);
    assert p == b + ".schema.json";
    EndsWithConcat(b, ".schema.json");
    assert p[..|p| - 12] == b;
    assert p != ".schema.json" by { assert |p| > 12; }
    assert Basename(p, ".schema.json") == b;
    assert OccursAt(b, "project.", 0);
    assert b[8..] == name;
  }

  /** The `(name, reference)` pairs the properties loop puts. */
  function PropertyEntries(projects: seq<LoadedSchema>): Fields
  {
    seq(|projects|, i requires 0 <= i < |projects| =>
      (PropName(projects[i].relativePath), RefTo(PathToDefinitionKey(projects[i].relativePath))))
  }

  /** `properties` after the loop over the project schemas. */
  function ProjectProperties(projects: seq<LoadedSchema>): Fields {
    PutAll([], PropertyEntries(projects))
  }

  /** `oneOf`: one reference per project schema, in load order. */
  function ProjectOneOf(projects: seq<LoadedSchema>): (r: seq<Json>)
    ensures |r| == |projects|
    ensures forall i :: 0 <= i < |projects| ==> r[i] == RefTo(PathToDefinitionKey(projects[i].relativePath))
  {
    seq(|projects|, i requires 0 <= i < |projects| => RefTo(PathToDefinitionKey(projects[i].relativePath)))
  }

  /** A project schema sits in the filtered list at the position given by the
      number of project schemas loaded before it. */
  lemma ProjectPosition(loaded: seq<LoadedSchema>, j: nat)
    requires j < |loaded| && IsProjectSchema(loaded[j])
    ensures |ProjectSchemas(loaded[..j])| < |ProjectSchemas(loaded)|
    ensures ProjectSchemas(loaded)[|ProjectSchemas(loaded[..j])|] == loaded[j]
  {
    assert loaded == loaded[..j] + ([loaded[j]] + loaded[j + 1..]);
    ProjectSchemasAppend(loaded[..j], [loaded[j]] + loaded[j + 1..]);
    ProjectSchemasAppend([loaded[j]], loaded[j + 1..]);
    assert [loaded[j]] == [] + [loaded[j]];
    assert ProjectSchemas([loaded[j]]) == [loaded[j]];
  }

  /** The index in `loaded` of the project schema at position `i` of the
      filtered list. */
  ghost function ProjectIndex(loaded: seq<LoadedSchema>, i: nat): nat
    requires i < |ProjectSchemas(loaded)|
    decreases |loaded|
  {
    var init := loaded[..|loaded| - 1];
    if i < |ProjectSchemas(init)| then ProjectIndex(init, i) else |loaded| - 1
  }

  /** Position `i` belongs to a project schema that has exactly `i` project
      schemas loaded before it. */
  lemma {:induction false} ProjectIndexSpec(loaded: seq<LoadedSchema>, i: nat)
    requires i < |ProjectSchemas(loaded)|
    ensures ProjectIndex(loaded, i) < |loaded|
    ensures IsProjectSchema(loaded[ProjectIndex(loaded, i)])
    ensures |ProjectSchemas(loaded[..ProjectIndex(loaded, i)])| == i
    decreases |loaded|
  {
    var init := loaded[..|loaded| - 1];
    if i < |ProjectSchemas(init)| {
      ProjectIndexSpec(init, i);
      var j := ProjectIndex(init, i);
      assert init[..j] == loaded[..j];
    } else {
      assert loaded[..|loaded| - 1] == init;
    }
  }

  /** The reference of a project schema stands at its position. */
  lemma OneOfPosition(loaded: seq<LoadedSchema>, j: nat)
    requires j < |loaded| && IsProjectSchema(loaded[j])
    ensures |ProjectSchemas(loaded[..j])| < |ProjectOneOf(ProjectSchemas(loaded))|
    ensures ProjectOneOf(ProjectSchemas(loaded))[|ProjectSchemas(loaded[..j])|]
      == RefTo(PathToDefinitionKey(loaded[j].relativePath))
  {
    ProjectPosition(loaded, j);
  }

  /** A later project schema has a later position. */
  lemma ProjectPositionsIncrease(loaded: seq<LoadedSchema>, j1: nat, j2: nat)
    requires j1 < j2 < |loaded| && IsProjectSchema(loaded[j1])
    ensures |ProjectSchemas(loaded[..j1])| < |ProjectSchemas(loaded[..j2])|
  {
    ProjectPosition(loaded[..j2], j1);
    assert loaded[..j2][..j1] == loaded[..j1];
  }

  /** Every entry of `oneOf` is the reference of the project schema at its
      position. */
  lemma OneOfOnto(loaded: seq<LoadedSchema>, i: nat)
    requires i < |ProjectOneOf(ProjectSchemas(loaded))|
    ensures ProjectIndex(loaded, i) < |loaded| && IsProjectSchema(loaded[ProjectIndex(loaded, i)])
    ensures |ProjectSchemas(loaded[..ProjectIndex(loaded, i)])| == i
    ensures ProjectOneOf(ProjectSchemas(loaded))[i]
      == RefTo(PathToDefinitionKey(loaded[ProjectIndex(loaded, i)].relativePath))
  {
    ProjectIndexSpec(loaded, i);
    OneOfPosition(loaded, ProjectIndex(loaded, i));
  }

  /** `r` lists the project schemas of `loaded` in load order, each once:
      the project schema with `p` project schemas loaded before it has its
      reference at position `p`; later project schemas sit at later
      positions; and every position `i` holds the reference of the project
      schema `ProjectIndex(loaded, i)`. */
  ghost predicate ListsProjectSchemas(loaded: seq<LoadedSchema>, r: seq<Json>) {
    && (forall j :: 0 <= j < |loaded| && IsProjectSchema(loaded[j]) ==>
          |ProjectSchemas(loaded[..j])| < |r|
          && r[|ProjectSchemas(loaded[..j])|] == RefTo(PathToDefinitionKey(loaded[j].relativePath)))
    && (forall j1, j2 :: 0 <= j1 < j2 < |loaded| && IsProjectSchema(loaded[j1]) && IsProjectSchema(loaded[j2]) ==>
          |ProjectSchemas(loaded[..j1])| < |ProjectSchemas(loaded[..j2])|)
    && (forall i :: 0 <= i < |r| ==>
          i < |ProjectSchemas(loaded)|
          && ProjectIndex(loaded, i) < |loaded| && IsProjectSchema(loaded[ProjectIndex(loaded, i)])
          && |ProjectSchemas(loaded[..ProjectIndex(loaded, i)])| == i
          && r[i] == RefTo(PathToDefinitionKey(loaded[ProjectIndex(loaded, i)].relativePath)))
  }

  /** `oneOf` lists the project schemas in load order, each once. */
  lemma OneOfListsProjectSchemas(loaded: seq<LoadedSchema>)
    ensures ListsProjectSchemas(loaded, ProjectOneOf(ProjectSchemas(loaded)))
  {
    var r := ProjectOneOf(ProjectSchemas(loaded));
    forall j | 0 <= j < |loaded| && IsProjectSchema(loaded[j])
      ensures |ProjectSchemas(loaded[..j])| < |r|
      ensures r[|ProjectSchemas(loaded[..j])|] == RefTo(PathToDefinitionKey(loaded[j].relativePath))
    {
      OneOfPosition(loaded, j);
    }
    forall j1, j2 | 0 <= j1 < j2 < |loaded| && IsProjectSchema(loaded[j1]) && IsProjectSchema(loaded[j2])
      ensures |ProjectSchemas(loaded[..j1])| < |ProjectSchemas(loaded[..j2])|
    {
      ProjectPositionsIncrease(loaded, j1, j2);
    }
    forall i | 0 <= i < |r|
      ensures i < |ProjectSchemas(loaded)|
      ensures ProjectIndex(loaded, i) < |loaded| && IsProjectSchema(loaded[ProjectIndex(loaded, i)])
      ensures |ProjectSchemas(loaded[..ProjectIndex(loaded, i)])| == i
      ensures r[i] == RefTo(PathToDefinitionKey(loaded[ProjectIndex(loaded, i)].relativePath))
    {
      OneOfOnto(loaded, i);
    }
  }

  /** The names of `properties` are the project schemas' property names,
      each once. */
  lemma ProjectPropertiesKeys(projects: seq<LoadedSchema>, n: string)
    ensures UniqueKeys(ProjectProperties(projects))
    ensures HasKey(ProjectProperties(projects), n) <==>
      exists i :: 0 <= i < |projects| && PropName(projects[i].relativePath) == n
  {
    var e := PropertyEntries(projects);
    PutAllKeys([], e);
    if HasKey(e, n) {
      var i :| 0 <= i < |e| && e[i].0 == n;
      assert PropName(projects[i].relativePath) == n;
    }
    if exists i :: 0 <= i < |projects| && PropName(projects[i].relativePath) == n {
      var i :| 0 <= i < |projects| && PropName(projects[i].relativePath) == n;
      assert e[i].0 == n;
    }
  }

  /** The last project schema with property name `n` decides `properties[n]`. */
  lemma ProjectPropertiesLastWins(projects: seq<LoadedSchema>, n: string, i: nat)
    requires i < |projects| && PropName(projects[i].relativePath) == n
    requires forall j :: i < j < |projects| ==> PropName(projects[j].relativePath) != n
    ensures Lookup(ProjectProperties(projects), n) == Some(RefTo(PathToDefinitionKey(projects[i].relativePath)))
  {
    var e := PropertyEntries(projects);
    PutAllLastWins([], e, n);
    assert e[i].0 == n;
    assert forall j :: i < j < |e| ==> e[j].0 != n;
  }

  /** `properties` has one member per distinct property name, holding the
      reference of the last project schema with that name. */
  lemma ProjectPropertiesSpec(projects: seq<LoadedSchema>, n: string)
    ensures UniqueKeys(ProjectProperties(projects))
    ensures HasKey(ProjectProperties(projects), n) <==>
      exists i :: 0 <= i < |projects| && PropName(projects[i].relativePath) == n
    ensures forall i :: (0 <= i < |projects| && PropName(projects[i].relativePath) == n &&
      forall j :: i < j < |projects| ==> PropName(projects[j].relativePath) != n) ==>
        Lookup(ProjectProperties(projects), n) == Some(RefTo(PathToDefinitionKey(projects[i].relativePath)))
  {
    ProjectPropertiesKeys(projects, n);
    forall i | 0 <= i < |projects| && PropName(projects[i].relativePath) == n &&
      (forall j :: i < j < |projects| ==> PropName(projects[j].relativePath) != n)
      ensures Lookup(ProjectProperties(projects), n) == Some(RefTo(PathToDefinitionKey(projects[i].relativePath)))
    {
      ProjectPropertiesLastWins(projects, n, i);
    }
  }

  /** Every `oneOf` entry points at a definition the combined schema has. */
  lemma OneOfRefsResolve(defs: Fields, loaded: seq<LoadedSchema>)
    ensures forall i :: 0 <= i < |ProjectSchemas(loaded)| ==>
      HasKey(SortDefinitions(InstallAll(defs, loaded)),
        PathToDefinitionKey(ProjectSchemas(loaded)[i].relativePath))
  {
    InstallAllKeys(defs, loaded);
    CompareOrdersKeys();
    SortEntriesKeys(InstallAll(defs, loaded), Compare);
    var p := ProjectSchemas(loaded);
    ProjectSchemasMembers(loaded);
    forall i | 0 <= i < |p|
      ensures InstallsKey(loaded, PathToDefinitionKey(p[i].relativePath))
    {
      assert p[i] in p;
      var j :| 0 <= j < |loaded| && loaded[j] == p[i];
    }
  }

  /** The sorted definitions hold exactly the installed keys, each once, in
      strictly increasing string order when the old keys are produced ones. */
  lemma CombinedDefinitionsSpec(defs: Fields, loaded: seq<LoadedSchema>)
    requires UniqueKeys(defs) && CleanKeys(defs)
    ensures forall k :: HasKey(SortDefinitions(InstallAll(defs, loaded)), k) <==>
      HasKey(defs, k) || InstallsKey(loaded, k)
    ensures UniqueKeys(SortDefinitions(InstallAll(defs, loaded)))
    ensures forall i, j :: 0 <= i < j < |SortDefinitions(InstallAll(defs, loaded))| ==>
      LexLess(SortDefinitions(InstallAll(defs, loaded))[i].0, SortDefinitions(InstallAll(defs, loaded))[j].0)
  {
    var inst := InstallAll(defs, loaded);
    InstallAllKeys(defs, loaded);
    CompareOrdersKeys();
    SortEntriesKeys(inst, Compare);
    SortDefinitionsSpec(inst);
    forall i | 0 <= i < |inst| ensures IsCleanKey(inst[i].0) {
      assert HasKey(inst, inst[i].0);
      if HasKey(defs, inst[i].0) {
        var j :| 0 <= j < |defs| && defs[j].0 == inst[i].0;
      } else {
        var j :| 0 <= j < |loaded| && PathToDefinitionKey(loaded[j].relativePath) == inst[i].0;
        KeyIsClean(loaded[j].relativePath);
      }
    }
    SortedDefinitionsAreAlphabetical(inst);
  }

  // ----- the combiner object -----

  const SchemaUri := "http://json-schema.org/draft-07/schema#"
  const CombinedId := "immerschema/combined-schema.json"
  const CombinedTitle := "Combined Immerschema - All Schemas"
  const CombinedDescription := "Complete schema combining all slices, enums, profiles, and project schemas"

  function Header(definitions: Fields): Fields {
    [("$schema", JStr(SchemaUri)), ("$id", JStr(CombinedId)),
     ("title", JStr(CombinedTitle)), ("description", JStr(CombinedDescription)),
     ("definitions", JObj(definitions))]
  }

  /** The members of the combined schema: the fixed header with the
      definitions, then `properties` and `oneOf` once they have been set (they
      are always added in that order, so assigning them again keeps the order). */
  function CombinedFields(definitions: Fields, properties: Option<Fields>, oneOf: Option<seq<Json>>): Fields {
    Header(definitions)
      + (if properties.Some? then [("properties", JObj(properties.value))] else [])
      + (if oneOf.Some? then [("oneOf", JArr(oneOf.value))] else [])
  }

  /** The member names of the combined schema, in order. */
  lemma CombinedKeys(definitions: Fields, properties: Option<Fields>, oneOf: Option<seq<Json>>)
    ensures Keys(CombinedFields(definitions, properties, oneOf)) ==
      ["$schema", "$id", "title", "description", "definitions"]
      + (if properties.Some? then ["properties"] else [])
      + (if oneOf.Some? then ["oneOf"] else [])
  {
  }

  lemma CombinedFieldsUnique(definitions: Fields, properties: Option<Fields>, oneOf: Option<seq<Json>>)
    ensures UniqueKeys(CombinedFields(definitions, properties, oneOf))
  {
    var all := CombinedFields(definitions, properties, oneOf);
    var props: seq<string> := if properties.Some? then ["properties"] else [];
    var ones: seq<string> := if oneOf.Some? then ["oneOf"] else [];
    CombinedKeys(definitions, properties, oneOf);
    KeyNamesDistinct(props, ones);
    forall i, j | 0 <= i < j < |all| ensures all[i].0 != all[j].0 {
      assert Keys(all)[i] != Keys(all)[j];
    }
  }

  /** `properties` is present exactly when it has been set, with the value
      set. */
  lemma CombinedProperties(definitions: Fields, properties: Option<Fields>, oneOf: Option<seq<Json>>)
    ensures properties.Some? <==> HasKey(CombinedFields(definitions, properties, oneOf), "properties")
    ensures properties.Some? ==>
      Lookup(CombinedFields(definitions, properties, oneOf), "properties") == Some(JObj(properties.value))
  {
    var all := CombinedFields(definitions, properties, oneOf);
    CombinedKeys(definitions, properties, oneOf);
    if properties.Some? {
      CombinedFieldsUnique(definitions, properties, oneOf);
      LookupUnique(all, 5);
    } else {
      forall i | 0 <= i < |all| ensures all[i].0 != "properties" {
        assert all[i].0 == Keys(all)[i];
      }
    }
  }

  /** `oneOf` is present exactly when it has been set, with the value set. */
  lemma CombinedOneOf(definitions: Fields, properties: Option<Fields>, oneOf: Option<seq<Json>>)
    ensures oneOf.Some? <==> HasKey(CombinedFields(definitions, properties, oneOf), "oneOf")
    ensures oneOf.Some? ==>
      Lookup(CombinedFields(definitions, properties, oneOf), "oneOf") == Some(JArr(oneOf.value))
  {
    var all := CombinedFields(definitions, properties, oneOf);
    CombinedKeys(definitions, properties, oneOf);
    if oneOf.Some? {
      CombinedFieldsUnique(definitions, properties, oneOf);
      LookupUnique(all, |all| - 1);
    } else {
      forall i | 0 <= i < |all| ensures all[i].0 != "oneOf" {
        assert all[i].0 == Keys(all)[i];
      }
    }
  }

  /** The combined schema has unique member names; its `definitions` and
      `$id` are those given, and `properties` / `oneOf` are present exactly
      when they have been set, with the values set. */
  lemma CombinedFieldsSpec(definitions: Fields, properties: Option<Fields>, oneOf: Option<seq<Json>>)
    ensures UniqueKeys(CombinedFields(definitions, properties, oneOf))
    ensures Lookup(CombinedFields(definitions, properties, oneOf), "definitions") == Some(JObj(definitions))
    ensures Lookup(CombinedFields(definitions, properties, oneOf), "$id") == Some(JStr(CombinedId))
    ensures properties.Some? <==> HasKey(CombinedFields(definitions, properties, oneOf), "properties")
    ensures properties.Some? ==>
      Lookup(CombinedFields(definitions, properties, oneOf), "properties") == Some(JObj(properties.value))
    ensures oneOf.Some? <==> HasKey(CombinedFields(definitions, properties, oneOf), "oneOf")
    ensures oneOf.Some? ==>
      Lookup(CombinedFields(definitions, properties, oneOf), "oneOf") == Some(JArr(oneOf.value))
  {
    var all := CombinedFields(definitions, properties, oneOf);
    CombinedFieldsUnique(definitions, properties, oneOf);
    LookupUnique(all, 1);
    LookupUnique(all, 4);
    CombinedProperties(definitions, properties, oneOf);
    CombinedOneOf(definitions, properties, oneOf);
  }

  /** The seven member names differ already in their third character. */
  lemma KeyNamesDistinct(props: seq<string>, ones: seq<string>)
    requires props == [] || props == ["properties"]
    requires ones == [] || ones == ["oneOf"]
    ensures var ks := ["$schema", "$id", "title", "description", "definitions"] + props + ones;
      forall i, j :: 0 <= i < j < |ks| ==> ks[i] != ks[j]
  {
    var ks := ["$schema", "$id", "title", "description", "definitions"] + props + ones;
    assert forall i :: 0 <= i < |ks| ==> |ks[i]| > 2;
    var thirds := seq(|ks|, i requires 0 <= i < |ks| => ks[i][2]);
    assert thirds == ['c', 'd', 't', 's', 'f'] + (if props == [] then [] else ['o']) + (if ones == [] then [] else ['e']);
    forall i, j | 0 <= i < j < |ks| ensures ks[i] != ks[j] {
      assert thirds[i] != thirds[j];
    }
  }

  class Combiner {
    const schemasDir: string
    /** `this.schemas`: relative path to parsed schema. */
    var schemas: map<string, Json>
    /** `this.combinedSchema.definitions`. */
    var definitions: Fields
    /** `this.combinedSchema.properties`, once set. */
    var properties: Option<Fields>
    /** `this.combinedSchema.oneOf`, once set. */
    var oneOf: Option<seq<Json>>

    constructor(schemasDir: string)
      ensures this.schemasDir == schemasDir
      ensures schemas == map[] && definitions == [] && properties == None && oneOf == None
    {
      this.schemasDir := schemasDir;
      schemas := map[];
      definitions := [];
      properties := None;
      oneOf := None;
    }

    /** `this.combinedSchema`. */
    function CombinedSchema(): (r: Json)
      reads this
      ensures r.JObj? && UniqueKeys(r.fields)
      ensures Lookup(r.fields, "definitions") == Some(JObj(definitions))
      ensures Lookup(r.fields, "$id") == Some(JStr(CombinedId))
      ensures properties.Some? <==> HasKey(r.fields, "properties")
      ensures properties.Some? ==> Lookup(r.fields, "properties") == Some(JObj(properties.value))
      ensures oneOf.Some? <==> HasKey(r.fields, "oneOf")
      ensures oneOf.Some? ==> Lookup(r.fields, "oneOf") == Some(JArr(oneOf.value))
    {
      CombinedFieldsSpec(definitions, properties, oneOf);
      JObj(CombinedFields(definitions, properties, oneOf))
    }

    /** The load loop of `combine()`: every file `loadSchema` can load is kept,
        in walk order, and registered under its relative path. */
    method LoadSchemas(files: seq<DiscoveredFile>) returns (loaded: seq<LoadedSchema>)
      requires WalkedFiles(files)
      modifies this
      ensures loaded == LoadAll(files)
      ensures schemas == RegisterAll(old(schemas), loaded)
      ensures definitions == old(definitions) && properties == old(properties) && oneOf == old(oneOf)
    {
      loaded := [];
      var i := 0;
      while i < |files|
        invariant 0 <= i <= |files|
        invariant loaded == LoadAll(files[..i])
        invariant schemas == RegisterAll(old(schemas), loaded)
        invariant definitions == old(definitions) && properties == old(properties) && oneOf == old(oneOf)
      {
        LoadAllSnoc(files, i);
        var data := LoadSchema(files[i]);
        if data.Some? {
          RegisterAllSnoc(old(schemas), loaded, data.value);
          loaded := loaded + [data.value];
          schemas := schemas[data.value.relativePath := data.value.schema];
        }
        i := i + 1;
      }
      assert files[..|files|] == files;
    }

    /** The install loop of `combine()`: each schema, stripped of its `$id` and
        rewritten, is put under its key. */
    method InstallDefinitions(loaded: seq<LoadedSchema>)
      modifies this
      ensures definitions == InstallAll(old(definitions), loaded)
      ensures schemas == old(schemas) && properties == old(properties) && oneOf == old(oneOf)
    {
      var j := 0;
      while j < |loaded|
        invariant 0 <= j <= |loaded|
        invariant definitions == PutAll(old(definitions), InstallEntries(loaded)[..j])
        invariant schemas == old(schemas) && properties == old(properties) && oneOf == old(oneOf)
      {
        PutAllSnoc(old(definitions), InstallEntries(loaded), j);
        var ls := loaded[j];
        var defKey := PathToDefinitionKey(ls.relativePath);
        var cleanSchema := StripTopLevelId(ls.schema);
        var resolvedSchema := ResolveRefs(cleanSchema, ls.relativePath);
        assert InstallEntries(loaded)[j] == (defKey, resolvedSchema);
        definitions := Put(definitions, defKey, resolvedSchema);
        j := j + 1;
      }
      assert InstallEntries(loaded)[..|loaded|] == InstallEntries(loaded);
    }

    /** The `properties` loop of `combine()`. */
    method BuildProperties(projects: seq<LoadedSchema>) returns (props: Fields)
      ensures props == ProjectProperties(projects)
    {
      props := [];
      var k := 0;
      while k < |projects|
        invariant 0 <= k <= |projects|
        invariant props == PutAll([], PropertyEntries(projects)[..k])
      {
        PutAllSnoc([], PropertyEntries(projects), k);
        var rel := projects[k].relativePath;
        assert PropertyEntries(projects)[k] == (PropName(rel), RefTo(PathToDefinitionKey(rel)));
        props := Put(props, PropName(rel), RefTo(PathToDefinitionKey(rel)));
        k := k + 1;
      }
      assert PropertyEntries(projects)[..|projects|] == PropertyEntries(projects);
    }

    /** The `properties` step of `combine()`: with at least one project
        schema, `properties` is rebuilt from them; otherwise it stays. */
    method AddProperties(projects: seq<LoadedSchema>)
      modifies this
      ensures |projects| > 0 ==> properties == Some(ProjectProperties(projects))
      ensures |projects| == 0 ==> properties == old(properties)
      ensures schemas == old(schemas) && definitions == old(definitions) && oneOf == old(oneOf)
    {
      if |projects| > 0 {
        var props := BuildProperties(projects);
        properties := Some(props);
      }
    }

    /** The `oneOf` step of `combine()`: with at least one project schema,
        `oneOf` lists a reference to each; otherwise it stays. */
    method AddOneOf(projects: seq<LoadedSchema>)
      modifies this
      ensures oneOf == if |projects| > 0 then Some(ProjectOneOf(projects)) else old(oneOf)
      ensures schemas == old(schemas) && definitions == old(definitions) && properties == old(properties)
    {
      if |projects| > 0 {
        oneOf := Some(ProjectOneOf(projects));
      }
    }

    /** The first half of `combine()`: load and register the schemas, install
        their definitions and sort them. */
    method LoadAndInstall(files: seq<DiscoveredFile>) returns (loaded: seq<LoadedSchema>)
      requires WalkedFiles(files)
      modifies this
      ensures loaded == LoadAll(files)
      ensures schemas == RegisterAll(old(schemas), loaded)
      ensures definitions == SortDefinitions(InstallAll(old(definitions), loaded))
      ensures properties == old(properties) && oneOf == old(oneOf)
    {
      loaded := LoadSchemas(files);
      InstallDefinitions(loaded);
      definitions := SortDefinitions(definitions);
    }

    /** `combine()` on the files the walk found, in walk order. */
    method Combine(files: seq<DiscoveredFile>) returns (combined: Json)
      requires WalkedFiles(files)
      modifies this
      ensures schemas == RegisterAll(old(schemas), LoadAll(files))
      ensures definitions == SortDefinitions(InstallAll(old(definitions), LoadAll(files)))
      ensures |ProjectSchemas(LoadAll(files))| > 0 ==>
        (properties == Some(ProjectProperties(ProjectSchemas(LoadAll(files))))
         && oneOf == Some(ProjectOneOf(ProjectSchemas(LoadAll(files)))))
      ensures |ProjectSchemas(LoadAll(files))| == 0 ==>
        (properties == old(properties) && oneOf == old(oneOf))
      ensures combined == CombinedSchema()
    {
      var loaded := LoadAndInstall(files);
      var projectSchemas := ProjectSchemas(loaded);
      AddProperties(projectSchemas);
      AddOneOf(projectSchemas);
      combined := CombinedSchema();
    }
  }
}
