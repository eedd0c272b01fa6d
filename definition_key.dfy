/** `pathToDefinitionKey`: the chain of rewrites that turns a schema file's
    relative path (or the file part of a `$ref`) into the flat key under which
    it lives in the combined document's `definitions`.

    Each rewrite of the chain is its own function, in the order the chain
    applies them; `PathToDefinitionKey` composes them. */
module DefinitionKey {
  import opened Strings
  import opened PosixPath

  /** The characters `[a-zA-Z0-9_]` that survive the chain. */
  predicate IsKeyChar(c: char) {
    ('a' <= c <= 'z') || ('A' <= c <= 'Z') || ('0' <= c <= '9') || c == '_'
  }

  predicate AllKeyChars(s: string) {
    forall i :: 0 <= i < |s| ==> IsKeyChar(s[i])
  }

  predicate NoDoubleUnderscore(s: string) {
    forall i :: 0 <= i < |s| - 1 ==> !(s[i] == '_' && s[i + 1] == '_')
  }

  /** What every produced key looks like: only `[A-Za-z0-9_]`, no leading or
      trailing `_`, and never `__`. */
  predicate IsCleanKey(k: string) {
    && AllKeyChars(k)
    && (|k| > 0 ==> k[0] != '_' && k[|k| - 1] != '_')
    && NoDoubleUnderscore(k)
  }

  /** `.replace(/^schemas\//, '')` */
  function DropSchemasPrefix(s: string): string {
    if StartsWith(s, "schemas/") then s[8..] else s
  }

  /** `.replace(/\.schema\.json$|\.enum\.json$|\.taxonomy\.json$|\.json$/, '')`:
      one suffix is removed; a longer recognised suffix starts further left,
      so the regular expression's leftmost match prefers it over `.json`. */
  function DropSchemaSuffix(s: string): string {
    if EndsWith(s, ".schema.json") then s[..|s| - 12]
    else if EndsWith(s, ".enum.json") then s[..|s| - 10]
    else if EndsWith(s, ".taxonomy.json") then s[..|s| - 14]
    else if EndsWith(s, ".json") then s[..|s| - 5]
    else s
  }

  /** `.replace(/\.slice$/, '_slice')` */
  function SliceSuffixToUnderscore(s: string): string {
    if EndsWith(s, ".slice") then s[..|s| - 6] + "_slice" else s
  }

  /** `.replace(/[\/\-\.]/g, '_')` */
  function SeparatorsToUnderscores(s: string): (r: string)
    ensures |r| == |s|
  {
    seq(|s|, i requires 0 <= i < |s| =>
      if s[i] == '/' || s[i] == '-' || s[i] == '.' then '_' else s[i])
  }

  /** `.replace(/[^a-zA-Z0-9_]/g, '')`: only key characters remain, in order. */
  function KeepKeyChars(s: string): (r: string)
    ensures AllKeyChars(r)
    ensures AllKeyChars(s) ==> r == s
    ensures |r| <= |s|
  {
    if s == [] then []
    else if IsKeyChar(s[0]) then [s[0]] + KeepKeyChars(s[1..])
    else KeepKeyChars(s[1..])
  }

  /** The `^_+` half of `.replace(/^_+|_+$/g, '')`. */
  function TrimLeading(s: string): (r: string)
    ensures AllKeyChars(s) ==> AllKeyChars(r)
    ensures |r| > 0 ==> r[0] != '_'
    ensures |r| > 0 ==> |s| > 0 && r[|r| - 1] == s[|s| - 1]
    ensures s == [] || s[0] != '_' ==> r == s
  {
    if s != [] && s[0] == '_' then TrimLeading(s[1..]) else s
  }

  /** The `_+$` half of `.replace(/^_+|_+$/g, '')`. */
  function TrimTrailing(s: string): (r: string)
    ensures AllKeyChars(s) ==> AllKeyChars(r)
    ensures |r| > 0 ==> r[|r| - 1] != '_'
    ensures |r| > 0 ==> |s| > 0 && r[0] == s[0]
    ensures s == [] || s[|s| - 1] != '_' ==> r == s
  {
    if s != [] && s[|s| - 1] == '_' then TrimTrailing(s[..|s| - 1]) else s
  }

  /** `.replace(/^_+|_+$/g, '')`: leading and trailing underscores removed. */
  function TrimUnderscores(s: string): string {
    TrimTrailing(TrimLeading(s))
  }

  /** `.replace(/_+/g, '_')`: every run of underscores becomes one. */
  function CollapseUnderscores(s: string): (r: string)
    ensures NoDoubleUnderscore(r)
    ensures |r| <= |s|
    ensures |s| > 0 ==> |r| > 0 && r[0] == s[0]
    decreases |s|
  {
    if |s| <= 1 then s
    else if s[0] == '_' && s[1] == '_' then CollapseUnderscores(s[1..])
    else [s[0]] + CollapseUnderscores(s[1..])
  }

  /** Collapsing keeps the last character. */
  lemma {:induction false} CollapseEnds(s: string)
    ensures |s| > 0 ==> CollapseUnderscores(s)[|CollapseUnderscores(s)| - 1] == s[|s| - 1]
    decreases |s|
  {
    if |s| > 1 {
      CollapseEnds(s[1..]);
    }
  }

  /** Collapsing introduces no character that was not there. */
  lemma {:induction false} CollapseKeepsKeyChars(s: string)
    requires AllKeyChars(s)
    ensures AllKeyChars(CollapseUnderscores(s))
    decreases |s|
  {
    if |s| > 1 {
      CollapseKeepsKeyChars(s[1..]);
    }
  }

  /** A string without `__` is left as it is. */
  lemma {:induction false} CollapseWithoutRuns(s: string)
    requires NoDoubleUnderscore(s)
    ensures CollapseUnderscores(s) == s
    decreases |s|
  {
    if |s| > 1 {
      assert NoDoubleUnderscore(s[1..]) by {
        forall i | 0 <= i < |s[1..]| - 1 ensures !(s[1..][i] == '_' && s[1..][i + 1] == '_') {
          assert s[1..][i] == s[i + 1] && s[1..][i + 1] == s[i + 2];
        }
      }
      CollapseWithoutRuns(s[1..]);
      assert s == [s[0]] + s[1..];
    }
  }

  /** `pathToDefinitionKey(p)` for a path that is not absolute. */
  function PathToDefinitionKey(p: string): string {
    CollapseUnderscores(
      TrimUnderscores(
        KeepKeyChars(
          SeparatorsToUnderscores(
            SliceSuffixToUnderscore(
              DropSchemaSuffix(
                DropSchemasPrefix(
                  BackslashesToSlashes(p))))))))
  }

  // ----- the shape of every key -----

  /** Every key uses only `[A-Za-z0-9_]`, has no leading or trailing `_`, and
      never contains `__`. */
  lemma KeyIsClean(p: string)
    ensures IsCleanKey(PathToDefinitionKey(p))
  {
    var kept := KeepKeyChars(SeparatorsToUnderscores(SliceSuffixToUnderscore(
      DropSchemaSuffix(DropSchemasPrefix(BackslashesToSlashes(p))))));
    var lead := TrimLeading(kept);
    var trimmed := TrimTrailing(lead);
    var k := CollapseUnderscores(trimmed);
    assert AllKeyChars(trimmed);
    assert |trimmed| > 0 ==> trimmed[0] != '_' && trimmed[|trimmed| - 1] != '_';
    CollapseKeepsKeyChars(trimmed);
    CollapseEnds(trimmed);
  }

  /** A clean key contains neither `/` nor `.`. */
  lemma CleanKeyHasNoSeparators(k: string)
    requires IsCleanKey(k)
    ensures forall i :: 0 <= i < |k| ==> k[i] != '/' && k[i] != '.' && k[i] != '\\' && k[i] != '-'
  {
  }

  /** A string without a `.` ends with no suffix that starts with one. */
  lemma NoDotNoDottedSuffix(s: string, suffix: string)
    requires |suffix| > 0 && suffix[0] == '.'
    requires forall i :: 0 <= i < |s| ==> s[i] != '.'
    ensures !EndsWith(s, suffix)
  {
    if |s| >= |suffix| {
      assert s[|s| - |suffix|..][0] == s[|s| - |suffix|];
    }
  }

  /** The rewrites before the character filter leave a clean key as it is. */
  lemma CleanKeyPassesRenames(k: string)
    requires IsCleanKey(k)
    ensures SeparatorsToUnderscores(SliceSuffixToUnderscore(DropSchemaSuffix(
      DropSchemasPrefix(BackslashesToSlashes(k))))) == k
  {
    CleanKeyHasNoSeparators(k);
    assert BackslashesToSlashes(k) == k;
    if |k| >= 8 {
      assert k[..8][7] == k[7];
    }
    assert DropSchemasPrefix(k) == k;
    NoDotNoDottedSuffix(k, ".schema.json");
    NoDotNoDottedSuffix(k, ".enum.json");
    NoDotNoDottedSuffix(k, ".taxonomy.json");
    NoDotNoDottedSuffix(k, ".json");
    assert DropSchemaSuffix(k) == k;
    NoDotNoDottedSuffix(k, ".slice");
    assert SliceSuffixToUnderscore(k) == k;
    assert SeparatorsToUnderscores(k) == k;
  }

  /** Every stage of the chain leaves a clean key as it is. */
  lemma CleanKeyIsFixedPoint(k: string)
    requires IsCleanKey(k)
    ensures PathToDefinitionKey(k) == k
  {
    CleanKeyPassesRenames(k);
    assert KeepKeyChars(k) == k;
    assert TrimUnderscores(k) == k;
    CollapseWithoutRuns(k);
  }

  /** `pathToDefinitionKey` is idempotent: re-applying it to a key changes nothing. */
  lemma KeyIdempotent(p: string)
    ensures PathToDefinitionKey(PathToDefinitionKey(p)) == PathToDefinitionKey(p)
  {
    KeyIsClean(p);
    CleanKeyIsFixedPoint(PathToDefinitionKey(p));
  }

  // ----- the individual rewrites -----

  /** A leading `schemas/` is dropped: keys of `schemas/p` and `p` coincide
      (unless `p` itself starts with `schemas/`, which is dropped only once). */
  lemma SchemasPrefixDropped(p: string)
    requires !StartsWith(BackslashesToSlashes(p), "schemas/")
    ensures PathToDefinitionKey("schemas/" + p) == PathToDefinitionKey(p)
  {
    var b := BackslashesToSlashes("schemas/" + p);
    assert b == "schemas/" + BackslashesToSlashes(p);
    assert DropSchemasPrefix(b) == BackslashesToSlashes(p);
  }

  lemma EndsWithConcat(s: string, t: string)
    ensures EndsWith(s + t, t)
  {
    assert (s + t)[|s + t| - |t|..] == t;
  }

  /** Two suffixes of one string: the shorter is a suffix of the longer. */
  lemma SuffixOfSuffix(x: string, a: string, b: string)
    requires EndsWith(x, a) && EndsWith(x, b) && |a| <= |b|
    ensures EndsWith(b, a)
  {
    assert b[|b| - |a|..] == x[|x| - |a|..];
  }

  /** `x` does not end with `suffix` when they differ at offset `d` of the suffix. */
  lemma NotSuffixAt(x: string, suffix: string, d: nat)
    requires d < |suffix|
    requires |suffix| <= |x| ==> x[|x| - |suffix| + d] != suffix[d]
    ensures !EndsWith(x, suffix)
  {
    if |suffix| <= |x| {
      assert x[|x| - |suffix|..][d] == x[|x| - |suffix| + d];
    }
  }

  /** Each of `.schema.json`, `.enum.json` and `.taxonomy.json` is stripped
      whole, never just its `.json` tail. */
  lemma LongSuffixStripped(s: string)
    ensures DropSchemaSuffix(s + ".schema.json") == s
    ensures DropSchemaSuffix(s + ".enum.json") == s
    ensures DropSchemaSuffix(s + ".taxonomy.json") == s
  {
    var xs, xe, xt := s + ".schema.json", s + ".enum.json", s + ".taxonomy.json";
    EndsWithConcat(s, ".schema.json");
    EndsWithConcat(s, ".enum.json");
    EndsWithConcat(s, ".taxonomy.json");
    assert xs[..|s|] == s && xe[..|s|] == s && xt[..|s|] == s;
    assert xe[|s|] == '.';
    NotSuffixAt(xe, ".schema.json", 2);
    assert |xt| == |s| + 14;
    assert xt[|xt| - 12] == 'a' && xt[|xt| - 10] == 'o';
    NotSuffixAt(xt, ".schema.json", 0);
    NotSuffixAt(xt, ".enum.json", 0);
  }

  /** A bare `.json` is stripped when no longer recognised suffix ends the path. */
  lemma JsonSuffixStripped(s: string)
    requires !EndsWith(s, ".schema") && !EndsWith(s, ".enum") && !EndsWith(s, ".taxonomy")
    ensures DropSchemaSuffix(s + ".json") == s
  {
    var x := s + ".json";
    EndsWithConcat(s, ".json");
    assert x[..|s|] == s;
  }

  /** A path that does not end in `.json` keeps its suffix. */
  lemma NoJsonSuffixKept(s: string)
    requires !EndsWith(s, ".json")
    ensures DropSchemaSuffix(s) == s
  {
    if EndsWith(s, ".schema.json") { SuffixOfSuffix(s, ".json", ".schema.json"); }
    if EndsWith(s, ".enum.json") { SuffixOfSuffix(s, ".json", ".enum.json"); }
    if EndsWith(s, ".taxonomy.json") { SuffixOfSuffix(s, ".json", ".taxonomy.json"); }
  }

  /** A trailing `.slice` becomes `_slice`. */
  lemma SliceSuffixRenamed(s: string)
    ensures SliceSuffixToUnderscore(s + ".slice") == s + "_slice"
  {
    EndsWithConcat(s, ".slice");
    assert (s + ".slice")[..|s|] == s;
  }
  // ----- an example -----

  /** A slice schema `<stem>.slice.schema.json` outside `schemas/` is
      renamed to `<stem>_slice` before its separators are rewritten. */
  lemma SliceFileRenamed(stem: string)
    requires forall j :: 0 <= j < |stem| ==> stem[j] != '\\'
    requires !StartsWith(stem, "schemas/")
    ensures SliceSuffixToUnderscore(DropSchemaSuffix(DropSchemasPrefix(BackslashesToSlashes(
      stem + ".slice" + ".schema.json")))) == stem + "_slice"
  {
    var p := stem + ".slice" + ".schema.json";
    forall j | 0 <= j < |p| ensures p[j] != '\\' {
      if j >= |stem| {
        assert p[j] == (".slice" + ".schema.json")[j - |stem|];
      }
    }
    assert BackslashesToSlashes(p) == p;
    assert !StartsWith(p, "schemas/") by {
      if |stem| >= 8 {
        assert p[..8] == stem[..8];
      } else {
        assert p[|stem|] == '.';
        assert "schemas/"[|stem|] != '.';
      }
    }
    LongSuffixStripped(stem + ".slice");
    SliceSuffixRenamed(stem);
  }

  /** The identifier slice lives under `slices_id_slice`: the `.schema.json`
      suffix goes, `.slice` becomes `_slice` and the `/` an underscore. */
  lemma SliceFileKey()
    ensures PathToDefinitionKey("slices/" + "id" + ".slice" + ".schema.json") == "slices_id_slice"
  {
    var p := "slices/" + "id" + ".slice" + ".schema.json";
    var k := "slices_id_slice";
    SlicesDirOutsideSchemas();
    SliceFileRenamed("slices/" + "id");
    var r := SliceSuffixToUnderscore(DropSchemaSuffix(DropSchemasPrefix(BackslashesToSlashes(p))));
    assert r == "slices/" + "id" + "_slice";
    assert SeparatorsToUnderscores(r) == k;
    assert IsCleanKey(k);
    CleanKeyFinishes(k);
  }

  /** The last three stages leave a clean key unchanged. */
  lemma CleanKeyFinishes(k: string)
    requires IsCleanKey(k)
    ensures CollapseUnderscores(TrimUnderscores(KeepKeyChars(k))) == k
  {
    assert KeepKeyChars(k) == k;
    assert TrimUnderscores(k) == k;
    CollapseWithoutRuns(k);
  }

  lemma SlicesDirOutsideSchemas()
    ensures !StartsWith("slices/" + "id", "schemas/")
  {
    assert ("slices/" + "id")[..8][1] == 'l';
  }


}
