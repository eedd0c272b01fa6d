/** `resolveRefs`: the structure-preserving rewrite that turns every string
    `$ref` of a schema into a pointer into the combined document. */
module RefRewrite {
  import opened Json
  import opened Strings
  import opened PosixPath
  import opened DefinitionKey

  const DefinitionsPointer := "#/definitions/"

  /** The relative branch: a reference starting with `../` or `./`. */
  predicate IsRelativeRef(r: string) {
    StartsWith(r, "../") || StartsWith(r, "./")
  }

  /** The first piece of `r.split('#/')`. */
  function FilePart(r: string): string {
    r[..Find(r, "#/")]
  }

  /** The second piece of `r.split('#/')`: the text between the first and the
      second `#/` (or the end). */
  function Fragment(r: string): string
    requires Contains(r, "#/")
  {
    var rest := r[Find(r, "#/") + 2..];
    rest[..Find(rest, "#/")]
  }

  /** The new value of one string `$ref` found in the file at `basePath`; the
      three branches are tried in the order the source tries them. */
  function RewriteRef(ref: string, basePath: string): string {
    if IsRelativeRef(ref) then
      DefinitionsPointer + PathToDefinitionKey(JoinNormalize(Dirname(basePath), ref))
    else if Contains(ref, "#/") then
      var file := FilePart(ref);
      if file != "" then DefinitionsPointer + PathToDefinitionKey(file) + "/" + Fragment(ref)
      else "#/" + Fragment(ref)
    else
      DefinitionsPointer + PathToDefinitionKey(ref)
  }

  /** A member that `resolveRefs` rewrites: named `$ref`, with a string value. */
  predicate IsStringRef(m: (string, Json)) {
    m.0 == "$ref" && m.1.JStr?
  }

  /** `resolveRefs(obj, basePath)`. */
  function ResolveRefs(j: Json, basePath: string): Json
    decreases j
  {
    match j
    case JArr(items) =>
      JArr(seq(|items|, i requires 0 <= i < |items| => ResolveRefs(items[i], basePath)))
    case JObj(f) =>
      JObj(seq(|f|, i requires 0 <= i < |f| =>
        (f[i].0, if IsStringRef(f[i]) then JStr(RewriteRef(f[i].1.s, basePath))
                 else ResolveRefs(f[i].1, basePath))))
    case _ => j
  }

  // ----- pointers -----

  predicate NoHash(s: string) {
    forall i :: 0 <= i < |s| ==> s[i] != '#'
  }

  /** The shape of every rewritten reference: `#/` followed by text that holds
      no further `#/`. */
  predicate IsInternalPointer(s: string) {
    StartsWith(s, "#/") && !Contains(s[2..], "#/")
  }

  /** `#/` occurs at `j` exactly when `s[j]` is `#` and `s[j + 1]` is `/`. */
  lemma PointerAt(s: string, j: nat)
    ensures OccursAt(s, "#/", j) <==> j + 2 <= |s| && s[j] == '#' && s[j + 1] == '/'
  {
    if j + 2 <= |s| {
      assert s[j..j + 2][0] == s[j] && s[j..j + 2][1] == s[j + 1];
      if s[j] == '#' && s[j + 1] == '/' {
        assert s[j..j + 2] == "#/";
      }
    }
  }

  /** Text without `#` followed by text without `#/` holds no `#/`. */
  lemma NoPointerInConcat(a: string, b: string)
    requires NoHash(a) && !Contains(b, "#/")
    ensures !Contains(a + b, "#/")
  {
    var s := a + b;
    forall j | 0 <= j <= |s| ensures !OccursAt(s, "#/", j) {
      PointerAt(s, j);
      if j >= |a| {
        PointerAt(b, j - |a|);
      }
    }
  }

  /** The text before the first `#/` holds no `#/`. */
  lemma PrefixBeforeFirstHasNone(s: string)
    ensures !Contains(s[..Find(s, "#/")], "#/")
  {
    var pre := s[..Find(s, "#/")];
    forall j | 0 <= j <= |pre| ensures !OccursAt(pre, "#/", j) {
      PointerAt(pre, j);
      PointerAt(s, j);
    }
  }

  lemma CleanKeyHasNoHash(k: string)
    requires IsCleanKey(k)
    ensures NoHash(k)
  {
  }

  /** `#/definitions/<key>` followed by `/<fragment>` or nothing is an internal pointer. */
  lemma DefinitionPointerIsInternal(k: string, tail: string)
    requires IsCleanKey(k) && !Contains(tail, "#/")
    ensures IsInternalPointer(DefinitionsPointer + k + tail)
  {
    var o := DefinitionsPointer + k + tail;
    assert o[..2] == "#/";
    assert o[2..] == "definitions/" + k + tail;
    CleanKeyHasNoHash(k);
    assert NoHash("definitions/" + k);
    NoPointerInConcat("definitions/" + k, tail);
    assert "definitions/" + k + tail == ("definitions/" + k) + tail;
  }

  lemma EmptyHasNoPointer()
    ensures !Contains("", "#/")
  {
  }

  /** `#/definitions/<key>` of a produced key is an internal pointer. */
  lemma KeyPointerIsInternal(path: string)
    ensures IsInternalPointer(DefinitionsPointer + PathToDefinitionKey(path))
  {
    var k := PathToDefinitionKey(path);
    KeyIsClean(path);
    EmptyHasNoPointer();
    DefinitionPointerIsInternal(k, "");
    assert DefinitionsPointer + k + "" == DefinitionsPointer + k;
  }

  /** The fragment branch yields an internal pointer. */
  lemma FragmentRewriteIsInternal(ref: string)
    requires Contains(ref, "#/")
    ensures IsInternalPointer(if FilePart(ref) != "" then DefinitionsPointer + PathToDefinitionKey(FilePart(ref)) + "/" + Fragment(ref)
                              else "#/" + Fragment(ref))
  {
    var rest := ref[Find(ref, "#/") + 2..];
    PrefixBeforeFirstHasNone(rest);
    var frag := Fragment(ref);
    assert !Contains(frag, "#/");
    if FilePart(ref) != "" {
      var k := PathToDefinitionKey(FilePart(ref));
      KeyIsClean(FilePart(ref));
      assert NoHash("/");
      NoPointerInConcat("/", frag);
      DefinitionPointerIsInternal(k, "/" + frag);
      assert DefinitionsPointer + k + "/" + frag == DefinitionsPointer + k + ("/" + frag);
    } else {
      var o := "#/" + frag;
      assert o[..2] == "#/" && o[2..] == frag;
    }
  }

  /** Every rewritten reference is an internal pointer. */
  lemma RewriteRefIsInternal(ref: string, basePath: string)
    ensures IsInternalPointer(RewriteRef(ref, basePath))
  {
    if IsRelativeRef(ref) {
      KeyPointerIsInternal(JoinNormalize(Dirname(basePath), ref));
    } else if Contains(ref, "#/") {
      FragmentRewriteIsInternal(ref);
    } else {
      KeyPointerIsInternal(ref);
    }
  }

  /** An internal pointer passes through the fragment branch unchanged. */
  lemma InternalPointerIsFixed(s: string, basePath: string)
    requires IsInternalPointer(s)
    ensures RewriteRef(s, basePath) == s
  {
    assert s[0] == '#';
    assert !IsRelativeRef(s) by {
      if |s| >= 2 { assert s[..2][0] == s[0]; }
      if |s| >= 3 { assert s[..3][0] == s[0]; }
    }
    assert OccursAt(s, "#/", 0);
    assert Find(s, "#/") == 0;
    assert FilePart(s) == "";
    var rest := s[2..];
    assert Find(rest, "#/") == |rest|;
    assert Fragment(s) == rest;
    assert s == "#/" + rest;
  }

  /** Rewriting an already rewritten reference changes nothing. */
  lemma RewriteRefIdempotent(ref: string, basePath: string, basePath': string)
    ensures RewriteRef(RewriteRef(ref, basePath), basePath') == RewriteRef(ref, basePath)
  {
    RewriteRefIsInternal(ref, basePath);
    InternalPointerIsFixed(RewriteRef(ref, basePath), basePath');
  }

  // ----- the three branches -----

  /** The relative branch wins even when the reference holds `#/`: the result is
      `#/definitions/<key>` for the referenced path taken against the directory
      of `basePath`, with no fragment after the key. */
  lemma RelativeRefRewrite(ref: string, basePath: string)
    requires IsRelativeRef(ref)
    ensures RewriteRef(ref, basePath) ==
      DefinitionsPointer + PathToDefinitionKey(JoinNormalize(Dirname(basePath), ref))
    ensures IsCleanKey(PathToDefinitionKey(JoinNormalize(Dirname(basePath), ref)))
  {
    KeyIsClean(JoinNormalize(Dirname(basePath), ref));
  }

  /** So a relative reference never keeps a fragment: after
      `#/definitions/` the pointer holds no `/`, whatever followed a `#/` in
      the reference (`./x.json#/a` points at a key, never into it). */
  lemma RelativeRefHasNoFragment(ref: string, basePath: string)
    requires IsRelativeRef(ref)
    ensures StartsWith(RewriteRef(ref, basePath), DefinitionsPointer)
    ensures forall i :: |DefinitionsPointer| <= i < |RewriteRef(ref, basePath)| ==>
      RewriteRef(ref, basePath)[i] != '/'
  {
    var k := PathToDefinitionKey(JoinNormalize(Dirname(basePath), ref));
    RelativeRefRewrite(ref, basePath);
    CleanKeyHasNoSeparators(k);
    var out := DefinitionsPointer + k;
    assert out[..|DefinitionsPointer|] == DefinitionsPointer;
    forall i | |DefinitionsPointer| <= i < |out| ensures out[i] != '/' {
      assert out[i] == k[i - |DefinitionsPointer|];
    }
  }

  /** No `#/` starts inside `a` when `a` holds none and `b` is empty or starts with `#`. */
  lemma NoPointerStartsIn(a: string, b: string)
    requires !Contains(a, "#/") && (b == [] || b[0] == '#')
    ensures forall j :: 0 <= j < |a| ==> !OccursAt(a + b, "#/", j)
  {
    var s := a + b;
    forall j | 0 <= j < |a| ensures !OccursAt(s, "#/", j) {
      PointerAt(s, j);
      PointerAt(a, j);
    }
  }

  /** The first `#/` of `a + b` is where `b` starts when `a` holds none and `b`
      starts with `#/`; when `b` is empty there is none, which `Find` reports as `|a|`. */
  lemma FirstPointerAt(a: string, b: string)
    requires !Contains(a, "#/") && (b == "" || StartsWith(b, "#/"))
    ensures Find(a + b, "#/") == |a|
  {
    if b != "" {
      assert b[..2] == "#/";
      assert b[0] == '#';
    }
    NoPointerStartsIn(a, b);
    FindAfterPrefix(a, b, "#/");
    if b != "" {
      PointerAt(b, 0);
    }
  }

  /** The file part of `file` followed by a `#/...` tail is `file`, and the
      text after that first `#/` is the tail's. */
  lemma FilePartBeforeTail(file: string, tail: string)
    requires !Contains(file, "#/") && StartsWith(tail, "#/")
    ensures Contains(file + tail, "#/") && Find(file + tail, "#/") == |file|
    ensures FilePart(file + tail) == file
    ensures (file + tail)[|file| + 2..] == tail[2..]
  {
    FirstPointerAt(file, tail);
    assert (file + tail)[..|file|] == file;
  }

  /** The piece before the next `#/` of `frag` followed by `rest` is `frag`. */
  lemma PieceBeforeRest(frag: string, rest: string)
    requires !Contains(frag, "#/") && (rest == "" || StartsWith(rest, "#/"))
    ensures (frag + rest)[..Find(frag + rest, "#/")] == frag
  {
    FirstPointerAt(frag, rest);
    assert (frag + rest)[..|frag|] == frag;
  }

  /** How `split('#/')` cuts `file#/frag` (possibly followed by more
      `#/...`): the file part is `file`, the fragment `frag`. */
  lemma FragmentRefParts(file: string, frag: string, rest: string)
    requires !Contains(file, "#/") && !Contains(frag, "#/")
    requires rest == "" || StartsWith(rest, "#/")
    ensures Contains(file + "#/" + frag + rest, "#/")
    ensures FilePart(file + "#/" + frag + rest) == file
    ensures Fragment(file + "#/" + frag + rest) == frag
  {
    var tail := "#/" + (frag + rest);
    assert file + "#/" + frag + rest == file + tail;
    assert tail[..2] == "#/" && tail[2..] == frag + rest;
    FilePartBeforeTail(file, tail);
    PieceBeforeRest(frag, rest);
  }

  /** The fragment branch on `file#/frag` (possibly followed by more `#/...`):
      a non-empty file part gives `#/definitions/<key(file)>/<frag>`, an empty
      one `#/<frag>`; anything after a second `#/` is dropped. */
  lemma FragmentRefRewrite(file: string, frag: string, rest: string, basePath: string)
    requires !Contains(file, "#/") && !Contains(frag, "#/")
    requires rest == "" || StartsWith(rest, "#/")
    requires !IsRelativeRef(file + "#/" + frag + rest)
    ensures RewriteRef(file + "#/" + frag + rest, basePath) ==
      if file == "" then "#/" + frag
      else DefinitionsPointer + PathToDefinitionKey(file) + "/" + frag
  {
    FragmentRefParts(file, frag, rest);
  }

  /** Any other string `$ref` names a file directly. */
  lemma BareRefRewrite(ref: string, basePath: string)
    requires !IsRelativeRef(ref) && !Contains(ref, "#/")
    ensures RewriteRef(ref, basePath) == DefinitionsPointer + PathToDefinitionKey(ref)
  {
  }

  // ----- the whole tree -----

  /** `resolveRefs` keeps the structure: scalars and null unchanged, arrays
      element by element, objects member by member with the same names in the
      same order, and only string `$ref` members rewritten. */
  lemma ResolveRefsPreservesStructure(j: Json, basePath: string)
    ensures !j.JArr? && !j.JObj? ==> ResolveRefs(j, basePath) == j
    ensures j.JArr? ==>
      (ResolveRefs(j, basePath).JArr?
       && |ResolveRefs(j, basePath).items| == |j.items|
       && forall i :: 0 <= i < |j.items| ==>
            ResolveRefs(j, basePath).items[i] == ResolveRefs(j.items[i], basePath))
    ensures j.JObj? ==>
      (ResolveRefs(j, basePath).JObj?
       && Keys(ResolveRefs(j, basePath).fields) == Keys(j.fields)
       && forall i :: 0 <= i < |j.fields| ==>
            ResolveRefs(j, basePath).fields[i].1 ==
              if IsStringRef(j.fields[i]) then JStr(RewriteRef(j.fields[i].1.s, basePath))
              else ResolveRefs(j.fields[i].1, basePath))
  {
  }

  /** No string `$ref` anywhere in the tree. */
  predicate NoStringRefs(j: Json)
    decreases j
  {
    match j
    case JArr(items) => forall i :: 0 <= i < |items| ==> NoStringRefs(items[i])
    case JObj(f) => forall i :: 0 <= i < |f| ==> !IsStringRef(f[i]) && NoStringRefs(f[i].1)
    case _ => true
  }

  /** Every string `$ref` in the tree is an internal pointer. */
  predicate RefsAreInternal(j: Json)
    decreases j
  {
    match j
    case JArr(items) => forall i :: 0 <= i < |items| ==> RefsAreInternal(items[i])
    case JObj(f) => forall i :: 0 <= i < |f| ==>
      (IsStringRef(f[i]) ==> IsInternalPointer(f[i].1.s)) && RefsAreInternal(f[i].1)
    case _ => true
  }

  /** A tree without string `$ref` members comes back exactly as it was. */
  lemma {:induction false} ResolveRefsWithoutRefs(j: Json, basePath: string)
    requires NoStringRefs(j)
    ensures ResolveRefs(j, basePath) == j
    decreases j
  {
    match j
    case JArr(items) =>
      forall i | 0 <= i < |items| ensures ResolveRefs(items[i], basePath) == items[i] {
        ResolveRefsWithoutRefs(items[i], basePath);
      }
    case JObj(f) =>
      forall i | 0 <= i < |f| ensures ResolveRefs(f[i].1, basePath) == f[i].1 {
        ResolveRefsWithoutRefs(f[i].1, basePath);
      }
      assert ResolveRefs(j, basePath).fields == f;
    case _ =>
  }

  /** After `resolveRefs`, every string `$ref` is an internal pointer
      `#/...` holding no second `#/`. */
  lemma {:induction false} ResolveRefsYieldsInternalRefs(j: Json, basePath: string)
    ensures RefsAreInternal(ResolveRefs(j, basePath))
    decreases j
  {
    match j
    case JArr(items) =>
      forall i | 0 <= i < |items| ensures RefsAreInternal(ResolveRefs(items[i], basePath)) {
        ResolveRefsYieldsInternalRefs(items[i], basePath);
      }
    case JObj(f) =>
      var g := ResolveRefs(j, basePath).fields;
      forall i | 0 <= i < |f|
        ensures (IsStringRef(g[i]) ==> IsInternalPointer(g[i].1.s)) && RefsAreInternal(g[i].1)
      {
        if IsStringRef(f[i]) {
          RewriteRefIsInternal(f[i].1.s, basePath);
        } else {
          ResolveRefsYieldsInternalRefs(f[i].1, basePath);
        }
      }
    case _ =>
  }

  /** A tree whose references are all internal pointers is left unchanged. */
  lemma {:induction false} InternalRefsAreFixed(j: Json, basePath: string)
    requires RefsAreInternal(j)
    ensures ResolveRefs(j, basePath) == j
    decreases j
  {
    match j
    case JArr(items) =>
      forall i | 0 <= i < |items| ensures ResolveRefs(items[i], basePath) == items[i] {
        InternalRefsAreFixed(items[i], basePath);
      }
    case JObj(f) =>
      forall i | 0 <= i < |f| ensures ResolveRefs(j, basePath).fields[i] == f[i] {
        if IsStringRef(f[i]) {
          InternalPointerIsFixed(f[i].1.s, basePath);
        } else {
          InternalRefsAreFixed(f[i].1, basePath);
        }
      }
      assert ResolveRefs(j, basePath).fields == f;
    case _ =>
  }

  /** `resolveRefs` is idempotent: a combined schema, rewritten again from any
      base path, stays as it is. */
  lemma ResolveRefsIdempotent(j: Json, basePath: string, basePath': string)
    ensures ResolveRefs(ResolveRefs(j, basePath), basePath') == ResolveRefs(j, basePath)
  {
    ResolveRefsYieldsInternalRefs(j, basePath);
    InternalRefsAreFixed(ResolveRefs(j, basePath), basePath');
  }
}
