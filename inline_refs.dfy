/** The inlining `$ref` resolver of the validation script: an object holding a
    `$ref` is replaced by the schema the reference names, looked up in the
    enum, ext and core caches in that order; internal and unknown references
    are left alone; everything else is rebuilt recursively.

    Python values are immutable here, so the deep copy the resolver works on is
    the input itself. */
module InlineRefs {
  import opened Json
  import opened Strings
  import opened Python

  /** A cache from reference text to the schema loaded for it. */
  type Cache = map<string, Json>

  const DebugFile := "./ext/debug.schema.json"
  const DebugPrefix := "./ext/debug.schema.json#/properties/debug"
  const CoreFile := "./core.schema.json"

  /** The debug branch: `ext_cache[DebugFile]['properties']['debug']` when the
      debug schema is cached, and the implicit `None` of the fall-through
      otherwise. */
  function DebugDefinition(ext: Cache): (r: Outcome<Json>)
    ensures DebugFile !in ext ==> r == Ok(JNull)
    ensures DebugFile in ext ==>
      (r.Ok? <==> Subscript(ext[DebugFile], "properties").Ok?
                  && Subscript(Subscript(ext[DebugFile], "properties").value, "debug").Ok?)
    ensures DebugFile in ext && r.Ok? ==>
      r == Subscript(Subscript(ext[DebugFile], "properties").value, "debug")
  {
    if DebugFile !in ext then Ok(JNull)
    else
      var props := Subscript(ext[DebugFile], "properties");
      if props.Raised? then Raised else Subscript(props.value, "debug")
  }

  /** A reference that no branch rewrites: a string that is in no cache and
      does not start with the debug pointer. Internal `#/` references and
      unknown files alike. */
  predicate Kept(ref: Json, enumCache: Cache, extCache: Cache, coreCache: Cache) {
    ref.JStr? && ref.s !in enumCache && ref.s !in extCache && ref.s !in coreCache
    && !StartsWith(ref.s, DebugPrefix)
  }

  /** The `$ref` branch of `resolve_refs_recursive` in `resolve_schema_refs`,
      for an object `obj` whose `$ref` is `ref`. A non-string reference makes
      the membership test or `startswith` raise. */
  function RefTarget(obj: Json, ref: Json, enumCache: Cache, extCache: Cache, coreCache: Cache): Outcome<Json> {
    if !ref.JStr? then Raised
    else if ref.s in enumCache then Ok(enumCache[ref.s])
    else if ref.s in extCache then Ok(extCache[ref.s])
    else if ref.s in coreCache then Ok(coreCache[ref.s])
    else if StartsWith(ref.s, DebugPrefix) then DebugDefinition(extCache)
    else Ok(obj)
  }

  /** `resolve_refs_recursive` of `resolve_schema_refs`: an object with `$ref`
      becomes its target; any other object keeps its member names with each
      value resolved; a list is resolved element by element; anything else is
      returned as it is. An exception anywhere propagates. */
  function Resolve(obj: Json, enumCache: Cache, extCache: Cache, coreCache: Cache): Outcome<Json>
    decreases obj
  {
    match obj
    case JObj(f) =>
      if HasKey(f, "$ref") then RefTarget(obj, Lookup(f, "$ref").value, enumCache, extCache, coreCache)
      else
        var rs := seq(|f|, i requires 0 <= i < |f| => Resolve(f[i].1, enumCache, extCache, coreCache));
        if AllOk(rs) then Ok(JObj(seq(|f|, i requires 0 <= i < |f| => (f[i].0, rs[i].value))))
        else Raised
    case JArr(items) =>
      var rs := seq(|items|, i requires 0 <= i < |items| => Resolve(items[i], enumCache, extCache, coreCache));
      if AllOk(rs) then Ok(JArr(seq(|items|, i requires 0 <= i < |items| => rs[i].value)))
      else Raised
    case _ => Ok(obj)
  }

  /** The `$ref` branch of `resolve_refs_in_schema`, which has no core branch. */
  function RefTargetInSchema(obj: Json, ref: Json, enumCache: Cache, extCache: Cache): Outcome<Json> {
    if !ref.JStr? then Raised
    else if ref.s in enumCache then Ok(enumCache[ref.s])
    else if ref.s in extCache then Ok(extCache[ref.s])
    else if StartsWith(ref.s, DebugPrefix) then DebugDefinition(extCache)
    else Ok(obj)
  }

  /** `resolve_refs_in_schema(schema, enum_cache, ext_cache, core_cache)`: its
      `core_cache` parameter is accepted and never read. */
  function ResolveInSchema(obj: Json, enumCache: Cache, extCache: Cache, coreCache: Cache): Outcome<Json>
    decreases obj
  {
    match obj
    case JObj(f) =>
      if HasKey(f, "$ref") then RefTargetInSchema(obj, Lookup(f, "$ref").value, enumCache, extCache)
      else
        var rs := seq(|f|, i requires 0 <= i < |f| => ResolveInSchema(f[i].1, enumCache, extCache, coreCache));
        if AllOk(rs) then Ok(JObj(seq(|f|, i requires 0 <= i < |f| => (f[i].0, rs[i].value))))
        else Raised
    case JArr(items) =>
      var rs := seq(|items|, i requires 0 <= i < |items| => ResolveInSchema(items[i], enumCache, extCache, coreCache));
      if AllOk(rs) then Ok(JArr(seq(|items|, i requires 0 <= i < |items| => rs[i].value)))
      else Raised
    case _ => Ok(obj)
  }

  /** The core cache of `resolve_schema_refs`: empty when the core schema did
      not load (or is falsy), otherwise the core schema pre-resolved against
      the enum and ext caches under `./core.schema.json`. */
  function CoreCache(coreContent: Json, enumCache: Cache, extCache: Cache): (r: Outcome<Cache>)
    ensures !PyTruthy(coreContent) ==> r == Ok(map[])
    ensures PyTruthy(coreContent) ==>
      (r.Ok? <==> ResolveInSchema(coreContent, enumCache, extCache, map[]).Ok?)
    ensures PyTruthy(coreContent) && r.Ok? ==>
      r.value.Keys == {CoreFile} && r.value[CoreFile] == ResolveInSchema(coreContent, enumCache, extCache, map[]).value
  {
    if !PyTruthy(coreContent) then Ok(map[])
    else
      var core := ResolveInSchema(coreContent, enumCache, extCache, map[]);
      if core.Raised? then Raised else Ok(map[CoreFile := core.value])
  }

  /** `resolve_schema_refs(schema)` with the loaded enum and ext caches and the
      loaded core schema (`JNull` when it failed to load) as parameters. */
  function ResolveSchemaRefs(schema: Json, enumCache: Cache, extCache: Cache, coreContent: Json): (r: Outcome<Json>)
    ensures CoreCache(coreContent, enumCache, extCache).Raised? ==> r.Raised?
    ensures CoreCache(coreContent, enumCache, extCache).Ok? ==>
      r == Resolve(schema, enumCache, extCache, CoreCache(coreContent, enumCache, extCache).value)
  {
    var core := CoreCache(coreContent, enumCache, extCache);
    if core.Raised? then Raised else Resolve(schema, enumCache, extCache, core.value)
  }

  // ----- the branches -----

  /** An object whose `$ref` names a cached schema is replaced by that schema
      as a whole, its other members dropped; the enum cache is asked first,
      then the ext cache, then the core cache. */
  lemma CachedRefReplacesObject(f: Fields, r: string, enumCache: Cache, extCache: Cache, coreCache: Cache)
    requires Lookup(f, "$ref") == Some(JStr(r))
    ensures r in enumCache ==> Resolve(JObj(f), enumCache, extCache, coreCache) == Ok(enumCache[r])
    ensures r !in enumCache && r in extCache ==>
      Resolve(JObj(f), enumCache, extCache, coreCache) == Ok(extCache[r])
    ensures r !in enumCache && r !in extCache && r in coreCache ==>
      Resolve(JObj(f), enumCache, extCache, coreCache) == Ok(coreCache[r])
  {
  }

  /** A reference into the debug schema that no cache holds resolves to the
      `debug` property of the cached debug schema, or to `None` when that
      schema is not cached. */
  lemma DebugRefResolves(f: Fields, r: string, enumCache: Cache, extCache: Cache, coreCache: Cache)
    requires Lookup(f, "$ref") == Some(JStr(r))
    requires r !in enumCache && r !in extCache && r !in coreCache && StartsWith(r, DebugPrefix)
    ensures Resolve(JObj(f), enumCache, extCache, coreCache) == DebugDefinition(extCache)
    ensures DebugFile !in extCache ==> Resolve(JObj(f), enumCache, extCache, coreCache) == Ok(JNull)
  {
  }

  /** An internal `#/` reference that no cache holds is never the debug
      pointer, so the object holding it comes back unchanged, members and
      all. */
  lemma InternalRefKept(f: Fields, r: string, enumCache: Cache, extCache: Cache, coreCache: Cache)
    requires Lookup(f, "$ref") == Some(JStr(r))
    requires StartsWith(r, "#/") && r !in enumCache && r !in extCache && r !in coreCache
    ensures Resolve(JObj(f), enumCache, extCache, coreCache) == Ok(JObj(f))
  {
    assert r[0] == '#' && DebugPrefix[0] == '.';
  }

  /** A reference no branch rewrites (an unknown file, or an internal `#/`
      pointer) leaves its object as it is; its other members are not
      visited. */
  lemma UnresolvedRefKept(f: Fields, enumCache: Cache, extCache: Cache, coreCache: Cache)
    requires HasKey(f, "$ref") && Kept(Lookup(f, "$ref").value, enumCache, extCache, coreCache)
    ensures Resolve(JObj(f), enumCache, extCache, coreCache) == Ok(JObj(f))
  {
  }

  /** A non-string `$ref` makes Python raise. */
  lemma NonStringRefRaises(f: Fields, enumCache: Cache, extCache: Cache, coreCache: Cache)
    requires HasKey(f, "$ref") && !Lookup(f, "$ref").value.JStr?
    ensures Resolve(JObj(f), enumCache, extCache, coreCache).Raised?
  {
  }

  /** Without `$ref` an object keeps its member names in order, each value
      resolved; a list keeps its length and order; a scalar is returned as it
      is. */
  lemma ResolveShape(obj: Json, enumCache: Cache, extCache: Cache, coreCache: Cache)
    ensures !obj.JObj? && !obj.JArr? ==> Resolve(obj, enumCache, extCache, coreCache) == Ok(obj)
    ensures obj.JObj? && !HasKey(obj.fields, "$ref") && Resolve(obj, enumCache, extCache, coreCache).Ok? ==>
      var r := Resolve(obj, enumCache, extCache, coreCache).value;
      r.JObj? && Keys(r.fields) == Keys(obj.fields)
      && forall i :: 0 <= i < |obj.fields| ==>
           Resolve(obj.fields[i].1, enumCache, extCache, coreCache) == Ok(r.fields[i].1)
    ensures obj.JArr? && Resolve(obj, enumCache, extCache, coreCache).Ok? ==>
      var r := Resolve(obj, enumCache, extCache, coreCache).value;
      r.JArr? && |r.items| == |obj.items|
      && forall i :: 0 <= i < |obj.items| ==>
           Resolve(obj.items[i], enumCache, extCache, coreCache) == Ok(r.items[i])
  {
  }

  // ----- the two resolvers -----

  /** `resolve_refs_in_schema` is the resolver of `resolve_schema_refs` with
      an empty core cache, whatever core cache it is handed. */
  lemma {:induction false} InSchemaIgnoresCore(obj: Json, enumCache: Cache, extCache: Cache, coreCache: Cache)
    ensures ResolveInSchema(obj, enumCache, extCache, coreCache) == Resolve(obj, enumCache, extCache, map[])
    decreases obj
  {
    match obj
    case JObj(f) =>
      if !HasKey(f, "$ref") {
        var rs := seq(|f|, i requires 0 <= i < |f| => ResolveInSchema(f[i].1, enumCache, extCache, coreCache));
        var ts := seq(|f|, i requires 0 <= i < |f| => Resolve(f[i].1, enumCache, extCache, map[]));
        forall i | 0 <= i < |f| ensures rs[i] == ts[i] {
          InSchemaIgnoresCore(f[i].1, enumCache, extCache, coreCache);
        }
        assert rs == ts;
      }
    case JArr(items) =>
      var rs := seq(|items|, i requires 0 <= i < |items| => ResolveInSchema(items[i], enumCache, extCache, coreCache));
      var ts := seq(|items|, i requires 0 <= i < |items| => Resolve(items[i], enumCache, extCache, map[]));
      forall i | 0 <= i < |items| ensures rs[i] == ts[i] {
        InSchemaIgnoresCore(items[i], enumCache, extCache, coreCache);
      }
      assert rs == ts;
    case _ =>
  }

  // ----- settled trees -----

  /** A tree resolution leaves alone: every `$ref` it reaches is kept. */
  predicate Settled(j: Json, enumCache: Cache, extCache: Cache, coreCache: Cache)
    decreases j
  {
    match j
    case JObj(f) =>
      if HasKey(f, "$ref") then Kept(Lookup(f, "$ref").value, enumCache, extCache, coreCache)
      else forall i :: 0 <= i < |f| ==> Settled(f[i].1, enumCache, extCache, coreCache)
    case JArr(items) => forall i :: 0 <= i < |items| ==> Settled(items[i], enumCache, extCache, coreCache)
    case _ => true
  }

  /** No object anywhere in the tree has a `$ref` member. */
  predicate NoRefKeys(j: Json)
    decreases j
  {
    match j
    case JObj(f) => !HasKey(f, "$ref") && forall i :: 0 <= i < |f| ==> NoRefKeys(f[i].1)
    case JArr(items) => forall i :: 0 <= i < |items| ==> NoRefKeys(items[i])
    case _ => true
  }

  lemma {:induction false} NoRefKeysSettled(j: Json, enumCache: Cache, extCache: Cache, coreCache: Cache)
    requires NoRefKeys(j)
    ensures Settled(j, enumCache, extCache, coreCache)
    decreases j
  {
    match j
    case JObj(f) =>
      forall i | 0 <= i < |f| ensures Settled(f[i].1, enumCache, extCache, coreCache) {
        NoRefKeysSettled(f[i].1, enumCache, extCache, coreCache);
      }
    case JArr(items) =>
      forall i | 0 <= i < |items| ensures Settled(items[i], enumCache, extCache, coreCache) {
        NoRefKeysSettled(items[i], enumCache, extCache, coreCache);
      }
    case _ =>
  }

  /** Resolution returns a settled tree unchanged. */
  lemma {:induction false} SettledIsFixed(j: Json, enumCache: Cache, extCache: Cache, coreCache: Cache)
    requires Settled(j, enumCache, extCache, coreCache)
    ensures Resolve(j, enumCache, extCache, coreCache) == Ok(j)
    decreases j
  {
    match j
    case JObj(f) =>
      if !HasKey(f, "$ref") {
        var rs := seq(|f|, i requires 0 <= i < |f| => Resolve(f[i].1, enumCache, extCache, coreCache));
        forall i | 0 <= i < |f| ensures rs[i] == Ok(f[i].1) {
          SettledIsFixed(f[i].1, enumCache, extCache, coreCache);
        }
        assert seq(|f|, i requires 0 <= i < |f| => (f[i].0, rs[i].value)) == f;
      }
    case JArr(items) =>
      var rs := seq(|items|, i requires 0 <= i < |items| => Resolve(items[i], enumCache, extCache, coreCache));
      forall i | 0 <= i < |items| ensures rs[i] == Ok(items[i]) {
        SettledIsFixed(items[i], enumCache, extCache, coreCache);
      }
      assert seq(|items|, i requires 0 <= i < |items| => rs[i].value) == items;
    case _ =>
  }

  /** A tree without `$ref` members is resolved to itself. */
  lemma NoRefsUnchanged(j: Json, enumCache: Cache, extCache: Cache, coreCache: Cache)
    requires NoRefKeys(j)
    ensures Resolve(j, enumCache, extCache, coreCache) == Ok(j)
  {
    NoRefKeysSettled(j, enumCache, extCache, coreCache);
    SettledIsFixed(j, enumCache, extCache, coreCache);
  }

  /** Every schema a reference can be replaced by is itself settled. */
  predicate TargetsSettled(enumCache: Cache, extCache: Cache, coreCache: Cache) {
    (forall k :: k in enumCache ==> Settled(enumCache[k], enumCache, extCache, coreCache))
    && (forall k :: k in extCache ==> Settled(extCache[k], enumCache, extCache, coreCache))
    && (forall k :: k in coreCache ==> Settled(coreCache[k], enumCache, extCache, coreCache))
    && (DebugDefinition(extCache).Ok? ==> Settled(DebugDefinition(extCache).value, enumCache, extCache, coreCache))
  }

  /** When every replacement is settled, so is every resolved tree. */
  lemma {:induction false} ResolveSettles(j: Json, enumCache: Cache, extCache: Cache, coreCache: Cache)
    requires TargetsSettled(enumCache, extCache, coreCache)
    requires Resolve(j, enumCache, extCache, coreCache).Ok?
    ensures Settled(Resolve(j, enumCache, extCache, coreCache).value, enumCache, extCache, coreCache)
    decreases j
  {
    match j
    case JObj(f) =>
      if !HasKey(f, "$ref") {
        var rs := seq(|f|, i requires 0 <= i < |f| => Resolve(f[i].1, enumCache, extCache, coreCache));
        assert AllOk(rs);
        var g := seq(|f|, i requires 0 <= i < |f| => (f[i].0, rs[i].value));
        forall i | 0 <= i < |g| ensures Settled(g[i].1, enumCache, extCache, coreCache) {
          assert rs[i].Ok?;
          ResolveSettles(f[i].1, enumCache, extCache, coreCache);
        }
        assert Keys(g) == Keys(f);
        assert !HasKey(g, "$ref");
      }
    case JArr(items) =>
      var rs := seq(|items|, i requires 0 <= i < |items| => Resolve(items[i], enumCache, extCache, coreCache));
      assert AllOk(rs);
      forall i | 0 <= i < |items| ensures Settled(rs[i].value, enumCache, extCache, coreCache) {
        assert rs[i].Ok?;
        ResolveSettles(items[i], enumCache, extCache, coreCache);
      }
    case _ =>
  }

  /** Resolving a second time changes nothing, as long as every schema a
      reference can be replaced by is itself settled. */
  lemma ResolveIdempotent(j: Json, enumCache: Cache, extCache: Cache, coreCache: Cache)
    requires TargetsSettled(enumCache, extCache, coreCache)
    requires Resolve(j, enumCache, extCache, coreCache).Ok?
    ensures Resolve(Resolve(j, enumCache, extCache, coreCache).value, enumCache, extCache, coreCache)
            == Resolve(j, enumCache, extCache, coreCache)
  {
    ResolveSettles(j, enumCache, extCache, coreCache);
    SettledIsFixed(Resolve(j, enumCache, extCache, coreCache).value, enumCache, extCache, coreCache);
  }

  // ----- when Python raises -----

  /** Every object reached holds a string `$ref`, if any. */
  predicate StringRefs(j: Json)
    decreases j
  {
    match j
    case JObj(f) =>
      if HasKey(f, "$ref") then Lookup(f, "$ref").value.JStr?
      else forall i :: 0 <= i < |f| ==> StringRefs(f[i].1)
    case JArr(items) => forall i :: 0 <= i < |items| ==> StringRefs(items[i])
    case _ => true
  }

  /** The debug branch cannot raise: the debug schema is not cached, or it
      has `properties.debug`. */
  predicate DebugWellFormed(extCache: Cache) {
    DebugFile in extCache ==>
      Subscript(extCache[DebugFile], "properties").Ok?
      && Subscript(Subscript(extCache[DebugFile], "properties").value, "debug").Ok?
  }

  /** A tree whose `$ref` members are all strings, resolved with a debug
      schema that has `properties.debug` (or none at all), does not raise.
      The converse holds only for what resolution reaches: a non-string
      `$ref` raises (`NonStringRefRaises`), but one inside a replaced or
      unresolved object is never visited. */
  lemma {:induction false} ResolveSucceeds(j: Json, enumCache: Cache, extCache: Cache, coreCache: Cache)
    requires StringRefs(j) && DebugWellFormed(extCache)
    ensures Resolve(j, enumCache, extCache, coreCache).Ok?
    decreases j
  {
    match j
    case JObj(f) =>
      if !HasKey(f, "$ref") {
        forall i | 0 <= i < |f| ensures Resolve(f[i].1, enumCache, extCache, coreCache).Ok? {
          ResolveSucceeds(f[i].1, enumCache, extCache, coreCache);
        }
      }
    case JArr(items) =>
      forall i | 0 <= i < |items| ensures Resolve(items[i], enumCache, extCache, coreCache).Ok? {
        ResolveSucceeds(items[i], enumCache, extCache, coreCache);
      }
    case _ =>
  }
}
