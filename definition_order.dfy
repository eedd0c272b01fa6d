/** `sortDefinitions` and its priority tables: the comparator that orders the
    `definitions` of the combined schema, and the stable sort that applies it. */
module DefinitionOrder {
  import opened Json
  import opened Strings
  import opened PosixPath
  import opened DefinitionKey

  /** The category table of `getSchemaPriority`, in its key order; each
      category's priority is its position counted from 1. */
  const Categories: seq<string> :=
    ["slices", "enum", "profiles", "project", "taxonomy", "io", "ext"]

  const SliceOrder: seq<(string, int)> :=
    [("id_slice", 1), ("note_slice", 2), ("timing_slice", 3),
     ("timing_seconds_slice", 4), ("timing_frames_slice", 5),
     ("meta_scene_slice", 6), ("technique_slice", 7), ("tech_group_slice", 8),
     ("screen_slice", 9), ("software_slice", 10), ("tasks_slice", 11),
     ("crew_slice", 12), ("risk_slice", 13), ("voice_slice", 14),
     ("audio_slice", 15), ("assets_slice", 16), ("description_slice", 17)]

  /** The profile table; the project table has the same contents. */
  const WorkflowOrder: seq<(string, int)> :=
    [("draft", 1), ("review", 2), ("plan", 3), ("assign", 4), ("lock", 5)]

  /** The priority given to anything no table lists. */
  const Unlisted := 999

  /** The test of one category against a path: `/<cat>/` inside it or
      `<cat>.` at its start, after lower-casing. */
  predicate InCategory(path: string, cat: string) {
    var low := ToLowerAscii(path);
    Contains(low, "/" + cat + "/") || StartsWith(low, cat + ".")
  }

  /** The index of the first category from `i` on that `path` matches,
      `|Categories|` when none does (`Object.keys(categories).find`). */
  function FirstCategory(path: string, i: nat): (r: nat)
    requires i <= |Categories|
    ensures i <= r <= |Categories|
    ensures r < |Categories| ==> InCategory(path, Categories[r])
    ensures forall j :: i <= j < r ==> !InCategory(path, Categories[j])
    decreases |Categories| - i
  {
    if i == |Categories| then i
    else if InCategory(path, Categories[i]) then i
    else FirstCategory(path, i + 1)
  }

  datatype SchemaPriority = SchemaPriority(category: string, priority: int, name: string)

  /** `getSchemaPriority(schemaPath)`. */
  function GetSchemaPriority(path: string): (r: SchemaPriority)
    ensures r.name == Basename(path, ".json")
    ensures r.priority == Unlisted <==>
      forall j :: 0 <= j < |Categories| ==> !InCategory(path, Categories[j])
    ensures r.priority == Unlisted ==> r.category == "other"
    ensures forall c :: (0 <= c < |Categories| && InCategory(path, Categories[c]) &&
      forall j :: 0 <= j < c ==> !InCategory(path, Categories[j])) ==>
        (r.category == Categories[c] && r.priority == c + 1)
  {
    var c := FirstCategory(path, 0);
    if c < |Categories| then SchemaPriority(Categories[c], c + 1, Basename(path, ".json"))
    else SchemaPriority("other", Unlisted, Basename(path, ".json"))
  }

  /** `table[name] || 999` on a table whose ranks are all positive. */
  function Rank(table: seq<(string, int)>, name: string): (r: int)
    ensures (exists i :: 0 <= i < |table| && table[i].0 == name) ==>
      exists i :: 0 <= i < |table| && table[i] == (name, r) &&
        forall j :: 0 <= j < i ==> table[j].0 != name
    ensures (forall i :: 0 <= i < |table| ==> table[i].0 != name) ==> r == Unlisted
  {
    if table == [] then Unlisted
    else if table[0].0 == name then table[0].1
    else
      var r := Rank(table[1..], name);
      assert (exists i :: 0 <= i < |table[1..]| && table[1..][i].0 == name) ==>
        exists i :: 0 <= i < |table[1..]| && table[1..][i] == (name, r) &&
          forall j :: 0 <= j < i ==> table[1..][j].0 != name;
      if exists i :: 0 <= i < |table| && table[i].0 == name then
        var i :| 0 <= i < |table| && table[i].0 == name;
        assert table[1..][i - 1].0 == name;
        var i' :| 0 <= i' < |table[1..]| && table[1..][i'] == (name, r) &&
          forall j :: 0 <= j < i' ==> table[1..][j].0 != name;
        assert table[i' + 1] == (name, r);
        r
      else r
  }

  /** `getSlicePriority`, `getProfilePriority` and `getProjectPriority`. */
  function GetSlicePriority(name: string): int { Rank(SliceOrder, name) }
  function GetProfilePriority(name: string): int { Rank(WorkflowOrder, name) }
  function GetProjectPriority(name: string): int { Rank(WorkflowOrder, name) }

  /** The name a slice key is looked up under:
      `key.replace('slices_', '').replace('_slice', '')`. */
  function SliceName(key: string): string {
    ReplaceFirst(ReplaceFirst(key, "slices_", ""), "_slice", "")
  }

  /** The table rank of `key` inside `category`: the slice, profile or project
      table for those three categories, nothing (0) for the others. */
  function WithinCategoryRank(category: string, key: string): int {
    if category == "slices" then GetSlicePriority(SliceName(key))
    else if category == "profiles" then GetProfilePriority(ReplaceFirst(key, "profiles_", ""))
    else if category == "project" then GetProjectPriority(ReplaceFirst(key, "project_", ""))
    else 0
  }

  function CategoryRank(key: string): int {
    WithinCategoryRank(GetSchemaPriority(key).category, key)
  }

  /** The comparator of `sortDefinitions`: priorities first, then, inside the
      category of `keyA`, the table ranks, then `localeCompare`. */
  function Compare(keyA: string, keyB: string): int {
    var pa := GetSchemaPriority(keyA);
    var pb := GetSchemaPriority(keyB);
    if pa.priority != pb.priority then pa.priority - pb.priority
    else
      var ra := WithinCategoryRank(pa.category, keyA);
      var rb := WithinCategoryRank(pa.category, keyB);
      if ra != rb then ra - rb
      else LocaleCompare(keyA, keyB)
  }

  // ----- the comparator is a three-level lexicographic order -----

  /** The reference order: category priority, then table rank, then the key. */
  predicate TripleLess(a: string, b: string) {
    var pa := GetSchemaPriority(a).priority;
    var pb := GetSchemaPriority(b).priority;
    pa < pb || (pa == pb && (CategoryRank(a) < CategoryRank(b) ||
      (CategoryRank(a) == CategoryRank(b) && LexLess(a, b))))
  }

  /** Equal priorities mean the same category. */
  lemma SamePriority(a: string, b: string)
    requires GetSchemaPriority(a).priority == GetSchemaPriority(b).priority
    ensures GetSchemaPriority(a).category == GetSchemaPriority(b).category
  {
  }

  /** `Compare` is negative exactly on the reference order, and zero exactly
      on equal keys. */
  lemma CompareIsTripleOrder(a: string, b: string)
    ensures Compare(a, b) < 0 <==> TripleLess(a, b)
    ensures Compare(a, b) > 0 <==> TripleLess(b, a)
    ensures Compare(a, b) == 0 <==> a == b
  {
    LexLessIrreflexive(a);
    LexLessAsymmetric(a, b);
    LexLessTotal(a, b);
    if GetSchemaPriority(a).priority == GetSchemaPriority(b).priority {
      SamePriority(a, b);
    }
  }

  lemma CompareAntisymmetric(a: string, b: string)
    ensures Compare(a, b) < 0 <==> Compare(b, a) > 0
  {
    CompareIsTripleOrder(a, b);
    CompareIsTripleOrder(b, a);
  }

  lemma TripleLessTransitive(a: string, b: string, c: string)
    requires TripleLess(a, b) && TripleLess(b, c)
    ensures TripleLess(a, c)
  {
    if GetSchemaPriority(a).priority == GetSchemaPriority(b).priority == GetSchemaPriority(c).priority
      && CategoryRank(a) == CategoryRank(b) == CategoryRank(c) {
      LexLessTransitive(a, b, c);
    }
  }

  /** The comparator is a strict total order on keys, as `Array.prototype.sort`
      needs of it. */
  lemma CompareIsStrictTotalOrder(a: string, b: string, c: string)
    ensures Compare(a, a) == 0
    ensures a != b ==> (Compare(a, b) < 0 || Compare(b, a) < 0)
    ensures Compare(a, b) < 0 && Compare(b, c) < 0 ==> Compare(a, c) < 0
  {
    CompareIsTripleOrder(a, a);
    CompareIsTripleOrder(a, b);
    CompareIsTripleOrder(b, a);
    CompareIsTripleOrder(b, c);
    CompareIsTripleOrder(a, c);
    if TripleLess(a, b) && TripleLess(b, c) {
      TripleLessTransitive(a, b, c);
    }
  }

  // ----- what the comparator does on the keys the combiner produces -----

  /** A string without the character `p[d]` does not contain `p`. */
  lemma MissingCharNotContained(s: string, p: string, d: nat)
    requires |p| > 0 && d < |p|
    requires forall i :: 0 <= i < |s| ==> s[i] != p[d]
    ensures !Contains(s, p) && !StartsWith(s, p)
  {
    forall j | 0 <= j <= |s| ensures !OccursAt(s, p, j) {
      if j + |p| <= |s| {
        assert s[j..j + |p|][d] == s[j + d];
      }
    }
    if |p| <= |s| {
      assert s[..|p|][d] == s[d];
    }
  }

  /** A key without `/` or `.` matches no category: priority 999, category
      `other`. */
  lemma PlainKeyMatchesNoCategory(k: string)
    requires forall i :: 0 <= i < |k| ==> k[i] != '/' && k[i] != '.'
    ensures GetSchemaPriority(k).priority == Unlisted
    ensures GetSchemaPriority(k).category == "other"
  {
    var low := ToLowerAscii(k);
    assert forall i :: 0 <= i < |low| ==> low[i] != '/' && low[i] != '.';
    forall j | 0 <= j < |Categories| ensures !InCategory(k, Categories[j]) {
      var cat := Categories[j];
      MissingCharNotContained(low, "/" + cat + "/", 0);
      MissingCharNotContained(low, cat + ".", |cat|);
    }
  }

  /** On produced keys (see `KeyIsClean`) every priority ties, so the order is
      plain string order: the category and table levels never decide. */
  lemma CleanKeysCompareAsStrings(a: string, b: string)
    requires IsCleanKey(a) && IsCleanKey(b)
    ensures Compare(a, b) == LocaleCompare(a, b)
    ensures CategoryRank(a) == 0
  {
    CleanKeyHasNoSeparators(a);
    CleanKeyHasNoSeparators(b);
    PlainKeyMatchesNoCategory(a);
    PlainKeyMatchesNoCategory(b);
  }

  /** Every name the slice table lists ends in `_slice`; one entry at a
      time, so that each proof sees a single name of the table. */
  lemma SliceTableNamesEndInSlice()
    ensures forall i :: 0 <= i < |SliceOrder| ==> EndsWith(SliceOrder[i].0, "_slice")
  {
    SliceEntryEnds0(); SliceEntryEnds1(); SliceEntryEnds2(); SliceEntryEnds3(); SliceEntryEnds4(); SliceEntryEnds5();
    SliceEntryEnds6(); SliceEntryEnds7(); SliceEntryEnds8(); SliceEntryEnds9(); SliceEntryEnds10(); SliceEntryEnds11();
    SliceEntryEnds12(); SliceEntryEnds13(); SliceEntryEnds14(); SliceEntryEnds15(); SliceEntryEnds16();
  }

  lemma SliceEntryEnds0() ensures EndsWith(SliceOrder[0].0, "_slice") { }
  lemma SliceEntryEnds1() ensures EndsWith(SliceOrder[1].0, "_slice") { }
  lemma SliceEntryEnds2() ensures EndsWith(SliceOrder[2].0, "_slice") { }
  lemma SliceEntryEnds3() ensures EndsWith(SliceOrder[3].0, "_slice") { }
  lemma SliceEntryEnds4() ensures EndsWith(SliceOrder[4].0, "_slice") { }
  lemma SliceEntryEnds5() ensures EndsWith(SliceOrder[5].0, "_slice") { }
  lemma SliceEntryEnds6() ensures EndsWith(SliceOrder[6].0, "_slice") { }
  lemma SliceEntryEnds7() ensures EndsWith(SliceOrder[7].0, "_slice") { }
  lemma SliceEntryEnds8() ensures EndsWith(SliceOrder[8].0, "_slice") { }
  lemma SliceEntryEnds9() ensures EndsWith(SliceOrder[9].0, "_slice") { }
  lemma SliceEntryEnds10() ensures EndsWith(SliceOrder[10].0, "_slice") { }
  lemma SliceEntryEnds11() ensures EndsWith(SliceOrder[11].0, "_slice") { }
  lemma SliceEntryEnds12() ensures EndsWith(SliceOrder[12].0, "_slice") { }
  lemma SliceEntryEnds13() ensures EndsWith(SliceOrder[13].0, "_slice") { }
  lemma SliceEntryEnds14() ensures EndsWith(SliceOrder[14].0, "_slice") { }
  lemma SliceEntryEnds15() ensures EndsWith(SliceOrder[15].0, "_slice") { }
  lemma SliceEntryEnds16() ensures EndsWith(SliceOrder[16].0, "_slice") { }

  /** A stem whose first `_slice` in `<stem>_slice` is the appended one does
      not itself end in `_slice`. */
  lemma StemWithoutSliceSuffix(stem: string)
    requires Find(stem + "_slice", "_slice") == |stem|
    ensures !EndsWith(stem, "_slice")
  {
    if |stem| >= 6 {
      var n := stem + "_slice";
      assert !OccursAt(n, "_slice", |stem| - 6);
      assert n[|stem| - 6..|stem|] == stem[|stem| - 6..];
    }
  }

  /** The slice-table lookup strips `_slice` while the table keeps it: the
      key `slices_<stem>_slice` (for instance `slices_id_slice`) is looked up
      as `<stem>`, and no such name is listed, so every slice key is ranked
      as unlisted. */
  lemma SliceLookupMissesTable(stem: string)
    requires Find(stem + "_slice", "_slice") == |stem|
    ensures SliceName("slices_" + stem + "_slice") == stem
    ensures GetSlicePriority(stem) == Unlisted
  {
    var k := "slices_" + stem + "_slice";
    assert OccursAt(k, "slices_", 0);
    var n := ReplaceFirst(k, "slices_", "");
    assert n == stem + "_slice";
    assert ReplaceFirst(n, "_slice", "") == n[..|stem|];
    SliceTableNamesEndInSlice();
    StemWithoutSliceSuffix(stem);
    forall i | 0 <= i < |SliceOrder| ensures SliceOrder[i].0 != stem {
      assert EndsWith(SliceOrder[i].0, "_slice");
    }
  }

  // ----- sorting -----

  /** What a sort needs of its comparator: swapping the arguments flips the
      sign, and `<= 0` is transitive. */
  ghost predicate IsTotalPreorder(cmp: (string, string) -> int) {
    && (forall a, b :: cmp(a, b) < 0 <==> cmp(b, a) > 0)
    && (forall a, b, c :: cmp(a, b) <= 0 && cmp(b, c) <= 0 ==> cmp(a, c) <= 0)
  }

  /** Non-decreasing under `cmp`. */
  predicate SortedBy(s: Fields, cmp: (string, string) -> int) {
    forall i, j :: 0 <= i < j < |s| ==> cmp(s[i].0, s[j].0) <= 0
  }

  /** Insert `e` after every entry that does not compare greater than it. */
  function Insert(e: (string, Json), s: Fields, cmp: (string, string) -> int): Fields
    decreases |s|
  {
    if s == [] then [e]
    else if cmp(e.0, s[0].0) < 0 then [e] + s
    else [s[0]] + Insert(e, s[1..], cmp)
  }

  /** `Object.entries(o).sort(cmp)`: a stable sort, each entry inserted in turn
      into the sorted prefix before it. */
  function SortEntries(f: Fields, cmp: (string, string) -> int): Fields
    decreases |f|
  {
    if f == [] then []
    else Insert(f[|f| - 1], SortEntries(f[..|f| - 1], cmp), cmp)
  }

  lemma {:induction false} InsertPermutes(e: (string, Json), s: Fields, cmp: (string, string) -> int)
    ensures multiset(Insert(e, s, cmp)) == multiset(s) + multiset{e}
    decreases |s|
  {
    if s != [] && cmp(e.0, s[0].0) >= 0 {
      InsertPermutes(e, s[1..], cmp);
      assert s == [s[0]] + s[1..];
    }
  }

  /** Every entry of `Insert(e, s)` is `e` or an entry of `s`. */
  lemma InsertMembers(e: (string, Json), s: Fields, cmp: (string, string) -> int)
    ensures forall x :: x in Insert(e, s, cmp) ==> x == e || x in s
  {
    InsertPermutes(e, s, cmp);
    forall x | x in Insert(e, s, cmp) ensures x == e || x in s {
      assert x in multiset(Insert(e, s, cmp));
    }
  }

  lemma {:induction false} InsertSorted(e: (string, Json), s: Fields, cmp: (string, string) -> int)
    requires IsTotalPreorder(cmp) && SortedBy(s, cmp)
    ensures SortedBy(Insert(e, s, cmp), cmp)
    decreases |s|
  {
    if s != [] {
      if cmp(e.0, s[0].0) < 0 {
        InsertAtFront(e, s, cmp);
      } else {
        InsertSorted(e, s[1..], cmp);
        var t := Insert(e, s[1..], cmp);
        InsertMembers(e, s[1..], cmp);
        HeadBelowInserted(e, s, t, cmp);
        ConsSorted(s[0], t, cmp);
      }
    }
  }

  lemma InsertAtFront(e: (string, Json), s: Fields, cmp: (string, string) -> int)
    requires IsTotalPreorder(cmp) && SortedBy(s, cmp) && s != []
    requires cmp(e.0, s[0].0) < 0
    ensures SortedBy([e] + s, cmp)
  {
    var r := [e] + s;
    forall j | 0 < j < |r| ensures cmp(e.0, r[j].0) <= 0 {
      assert r[j] == s[j - 1];
      assert cmp(s[0].0, s[j - 1].0) <= 0 || j == 1;
    }
    ConsSorted(e, s, cmp);
  }

  lemma ConsSorted(h: (string, Json), t: Fields, cmp: (string, string) -> int)
    requires SortedBy(t, cmp)
    requires forall j :: 0 <= j < |t| ==> cmp(h.0, t[j].0) <= 0
    ensures SortedBy([h] + t, cmp)
  {
    var r := [h] + t;
    forall i, j | 0 <= i < j < |r| ensures cmp(r[i].0, r[j].0) <= 0 {
      assert r[j] == t[j - 1];
      if i > 0 {
        assert r[i] == t[i - 1];
      }
    }
  }

  lemma HeadBelowInserted(e: (string, Json), s: Fields, t: Fields, cmp: (string, string) -> int)
    requires IsTotalPreorder(cmp) && SortedBy(s, cmp) && s != []
    requires cmp(e.0, s[0].0) >= 0
    requires forall x :: x in t ==> x == e || x in s[1..]
    ensures forall j :: 0 <= j < |t| ==> cmp(s[0].0, t[j].0) <= 0
  {
    forall j | 0 <= j < |t| ensures cmp(s[0].0, t[j].0) <= 0 {
      assert t[j] in t;
      if t[j] != e {
        var k :| 0 <= k < |s[1..]| && s[1..][k] == t[j];
        assert s[k + 1] == t[j];
      }
    }
  }

  /** The sorted entries are a permutation of the input, in `cmp` order. */
  lemma {:induction false} SortEntriesFacts(f: Fields, cmp: (string, string) -> int)
    requires IsTotalPreorder(cmp)
    ensures SortedBy(SortEntries(f, cmp), cmp)
    ensures multiset(SortEntries(f, cmp)) == multiset(f)
    decreases |f|
  {
    if f != [] {
      var init := f[..|f| - 1];
      SortEntriesFacts(init, cmp);
      InsertSorted(f[|f| - 1], SortEntries(init, cmp), cmp);
      InsertPermutes(f[|f| - 1], SortEntries(init, cmp), cmp);
      assert f == init + [f[|f| - 1]];
    }
  }

  /** The member names of `Insert(e, s)` are those of `s` plus `e`'s; unique
      names stay unique. */
  lemma {:induction false} InsertKeys(e: (string, Json), s: Fields, cmp: (string, string) -> int)
    ensures forall k :: HasKey(Insert(e, s, cmp), k) <==> HasKey(s, k) || k == e.0
    ensures UniqueKeys(s) && !HasKey(s, e.0) ==> UniqueKeys(Insert(e, s, cmp))
    decreases |s|
  {
    if s == [] {
      assert Insert(e, s, cmp)[0] == e;
    } else if cmp(e.0, s[0].0) < 0 {
      assert Insert(e, s, cmp) == [e] + s;
      forall k ensures HasKey([e] + s, k) <==> e.0 == k || HasKey(s, k) {
        HasKeyCons(e, s, k);
      }
    } else {
      InsertKeys(e, s[1..], cmp);
      var t := Insert(e, s[1..], cmp);
      var r := [s[0]] + t;
      assert s == [s[0]] + s[1..];
      forall k ensures (HasKey(r, k) <==> s[0].0 == k || HasKey(t, k))
        && (HasKey(s, k) <==> s[0].0 == k || HasKey(s[1..], k))
      {
        HasKeyCons(s[0], t, k);
        HasKeyCons(s[0], s[1..], k);
      }
      if UniqueKeys(s) && !HasKey(s, e.0) {
        assert !HasKey(s[1..], s[0].0) by {
          forall i | 0 <= i < |s[1..]| ensures s[1..][i].0 != s[0].0 {
            assert s[1..][i] == s[i + 1];
          }
        }
        assert UniqueKeys(s[1..]) by {
          forall i, j | 0 <= i < j < |s[1..]| ensures s[1..][i].0 != s[1..][j].0 {
            assert s[1..][i] == s[i + 1] && s[1..][j] == s[j + 1];
          }
        }
        assert !HasKey(s[1..], e.0);
        forall i, j | 0 <= i < j < |r| ensures r[i].0 != r[j].0 {
          if i == 0 {
            assert r[j] == t[j - 1];
            assert HasKey(t, r[j].0);
          } else {
            assert r[i] == t[i - 1] && r[j] == t[j - 1];
          }
        }
      }
    }
  }

  lemma {:induction false} SortEntriesKeys(f: Fields, cmp: (string, string) -> int)
    ensures forall k :: HasKey(SortEntries(f, cmp), k) <==> HasKey(f, k)
    ensures UniqueKeys(f) ==> UniqueKeys(SortEntries(f, cmp))
    decreases |f|
  {
    if f != [] {
      var init := f[..|f| - 1];
      var e := f[|f| - 1];
      SortEntriesKeys(init, cmp);
      InsertKeys(e, SortEntries(init, cmp), cmp);
      forall k ensures HasKey(f, k) <==> HasKey(init, k) || k == e.0 {
        if HasKey(f, k) && k != e.0 {
          var i :| 0 <= i < |f| && f[i].0 == k;
          assert init[i].0 == k;
        }
        if HasKey(init, k) {
          var i :| 0 <= i < |init| && init[i].0 == k;
          assert f[i].0 == k;
        }
      }
      if UniqueKeys(f) {
        assert UniqueKeys(init) by {
          forall i, j | 0 <= i < j < |init| ensures init[i].0 != init[j].0 {
            assert init[i] == f[i] && init[j] == f[j];
          }
        }
        assert !HasKey(init, e.0) by {
          forall i | 0 <= i < |init| ensures init[i].0 != e.0 {
            assert init[i] == f[i];
          }
        }
      }
    }
  }

  /** The comparator of `sortDefinitions` is a total preorder, and only equal
      keys tie. */
  lemma CompareOrdersKeys()
    ensures IsTotalPreorder(Compare)
    ensures forall a, b :: Compare(a, b) == 0 ==> a == b
  {
    forall a, b ensures Compare(a, b) < 0 <==> Compare(b, a) > 0 {
      CompareAntisymmetric(a, b);
    }
    forall a, b, c | Compare(a, b) <= 0 && Compare(b, c) <= 0 ensures Compare(a, c) <= 0 {
      CompareIsStrictTotalOrder(a, b, c);
      CompareIsTripleOrder(a, b);
      CompareIsTripleOrder(b, c);
    }
    forall a, b ensures Compare(a, b) == 0 ==> a == b {
      CompareIsTripleOrder(a, b);
    }
  }

  /** `sortDefinitions(definitions)`. */
  function SortDefinitions(defs: Fields): Fields {
    SortEntries(defs, Compare)
  }

  /** `sortDefinitions` returns a permutation of the entries; with unique keys
      (every object the combiner builds has them) each key strictly precedes
      the next under the comparator. */
  lemma SortDefinitionsSpec(defs: Fields)
    ensures multiset(SortDefinitions(defs)) == multiset(defs)
    ensures UniqueKeys(defs) ==> UniqueKeys(SortDefinitions(defs))
    ensures UniqueKeys(defs) ==> forall i, j :: 0 <= i < j < |SortDefinitions(defs)| ==>
      Compare(SortDefinitions(defs)[i].0, SortDefinitions(defs)[j].0) < 0
  {
    CompareOrdersKeys();
    SortEntriesFacts(defs, Compare);
    SortEntriesKeys(defs, Compare);
    var r := SortDefinitions(defs);
    if UniqueKeys(defs) {
      forall i, j | 0 <= i < j < |r| ensures Compare(r[i].0, r[j].0) < 0 {
        assert r[i].0 != r[j].0;
      }
    }
  }

  /** Every key of `defs` is one `pathToDefinitionKey` could produce. */
  predicate CleanKeys(defs: Fields) {
    forall i :: 0 <= i < |defs| ==> IsCleanKey(defs[i].0)
  }

  /** The effective order: for the combiner's own keys, the sorted definitions
      are in strictly increasing string order. */
  lemma SortedDefinitionsAreAlphabetical(defs: Fields)
    requires UniqueKeys(defs) && CleanKeys(defs)
    ensures forall i, j :: 0 <= i < j < |SortDefinitions(defs)| ==>
      LexLess(SortDefinitions(defs)[i].0, SortDefinitions(defs)[j].0)
  {
    SortDefinitionsSpec(defs);
    var r := SortDefinitions(defs);
    forall i, j | 0 <= i < j < |r| ensures LexLess(r[i].0, r[j].0) {
      assert r[i] in multiset(defs) && r[j] in multiset(defs);
      var a :| 0 <= a < |defs| && defs[a] == r[i];
      var b :| 0 <= b < |defs| && defs[b] == r[j];
      CleanKeysCompareAsStrings(r[i].0, r[j].0);
    }
  }
}
