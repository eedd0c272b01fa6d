/** The reindexing tool: every shot file is read, the shots are sorted
    stably by `(scene, str(subScene))`, and each shot's `index` is set to its
    position in that order before the file is written back. */
module Reindex {
  import opened Json
  import opened Strings
  import opened Python

  /** A shot file named on the command line, with its parsed content. */
  datatype ShotFile = ShotFile(path: string, data: Fields)

  /** The sort key. */
  datatype Key = Key(scene: int, subScene: string)

  /** One element of `shots`: the key, the data and the path. */
  datatype Entry = Entry(key: Key, data: Fields, path: string)

  /** The shot data the key can be built from and compared: `scene`, when
      present, is an integer, and `subScene`, when present, is a scalar. */
  predicate WellTyped(data: Fields) {
    (HasKey(data, "scene") ==> Lookup(data, "scene").value.JNum?)
    && (HasKey(data, "subScene") ==> Hashable(Lookup(data, "subScene").value))
  }

  /** `(data.get("scene", 0), str(data.get("subScene", "")))`. */
  function KeyOf(data: Fields): (k: Key)
    requires WellTyped(data)
    ensures !HasKey(data, "scene") ==> k.scene == 0
    ensures Lookup(data, "scene").Some? ==> JNum(k.scene) == Lookup(data, "scene").value
    ensures !HasKey(data, "subScene") ==> k.subScene == ""
    ensures Lookup(data, "subScene").Some? ==> k.subScene == PyStr(Lookup(data, "subScene").value)
  {
    var scene := if HasKey(data, "scene") then Lookup(data, "scene").value.n else 0;
    var sub := if HasKey(data, "subScene") then PyStr(Lookup(data, "subScene").value) else "";
    Key(scene, sub)
  }

  function EntryOf(file: ShotFile): Entry
    requires WellTyped(file.data)
  {
    Entry(KeyOf(file.data), file.data, file.path)
  }

  /** The shots in command-line order. */
  function Entries(files: seq<ShotFile>): (r: seq<Entry>)
    requires forall i :: 0 <= i < |files| ==> WellTyped(files[i].data)
    ensures |r| == |files| && forall i :: 0 <= i < |files| ==> r[i] == EntryOf(files[i])
  {
    seq(|files|, i requires 0 <= i < |files| => EntryOf(files[i]))
  }

  // ----- the key order -----

  /** Python's `<` on `(int, str)` tuples. */
  predicate Less(a: Key, b: Key) {
    a.scene < b.scene || (a.scene == b.scene && LexLess(a.subScene, b.subScene))
  }

  /** Any two keys are equal or ordered one way, and never both ways. */
  lemma LessTotal(a: Key, b: Key)
    ensures a == b || Less(a, b) || Less(b, a)
    ensures !(Less(a, b) && Less(b, a))
    ensures !Less(a, a)
  {
    LexLessTotal(a.subScene, b.subScene);
    LexLessAsymmetric(a.subScene, b.subScene);
    LexLessIrreflexive(a.subScene);
  }

  lemma LessTransitive(a: Key, b: Key, c: Key)
    requires Less(a, b) && Less(b, c)
    ensures Less(a, c)
  {
    if a.scene == b.scene && b.scene == c.scene {
      LexLessTransitive(a.subScene, b.subScene, c.subScene);
    }
  }

  /** A strict total order on keys: what the sort below relies on. */
  ghost predicate IsStrictTotalOrder(lt: (Key, Key) -> bool) {
    && (forall a :: !lt(a, a))
    && (forall a, b :: a == b || lt(a, b) || lt(b, a))
    && (forall a, b, c :: lt(a, b) && lt(b, c) ==> lt(a, c))
  }

  /** The tuple order is one. */
  lemma LessIsStrictTotalOrder()
    ensures IsStrictTotalOrder(Less)
  {
    forall a ensures !Less(a, a) {
      LessTotal(a, a);
    }
    forall a, b ensures a == b || Less(a, b) || Less(b, a) {
      LessTotal(a, b);
    }
    forall a, b, c | Less(a, b) && Less(b, c) ensures Less(a, c) {
      LessTransitive(a, b, c);
    }
  }

  /** The keys never decrease along `s`. */
  predicate Sorted(s: seq<Entry>, lt: (Key, Key) -> bool) {
    forall i, j :: 0 <= i < j < |s| ==> !lt(s[j].key, s[i].key)
  }

  // ----- the stable sort -----

  /** `e` placed before the first element whose key is above its own: after
      every element with an equal key. */
  function Insert(e: Entry, s: seq<Entry>, lt: (Key, Key) -> bool): seq<Entry>
    decreases |s|
  {
    if s == [] then [e]
    else if lt(e.key, s[0].key) then [e] + s
    else [s[0]] + Insert(e, s[1..], lt)
  }

  /** `list.sort(key=...)` on the keys' order: each element in turn inserted
      into the sorted prefix. */
  function StableSort(s: seq<Entry>, lt: (Key, Key) -> bool): seq<Entry>
    decreases |s|
  {
    if s == [] then [] else Insert(s[|s| - 1], StableSort(s[..|s| - 1], lt), lt)
  }

  /** The elements of `s` with key `k`, in order. */
  function WithKey(s: seq<Entry>, k: Key): seq<Entry>
    decreases |s|
  {
    if s == [] then [] else (if s[0].key == k then [s[0]] else []) + WithKey(s[1..], k)
  }

  lemma {:induction false} WithKeyAppend(a: seq<Entry>, b: seq<Entry>, k: Key)
    ensures WithKey(a + b, k) == WithKey(a, k) + WithKey(b, k)
    decreases |a|
  {
    if a != [] {
      assert (a + b)[1..] == a[1..] + b;
      WithKeyAppend(a[1..], b, k);
    } else {
      assert a + b == b;
    }
  }

  /** Nothing in `s` has key `k` when no key of `s` is `k`. */
  lemma {:induction false} WithKeyNone(s: seq<Entry>, k: Key)
    requires forall i :: 0 <= i < |s| ==> s[i].key != k
    ensures WithKey(s, k) == []
    decreases |s|
  {
    if s != [] {
      WithKeyNone(s[1..], k);
    }
  }

  lemma {:induction false} InsertPermutes(e: Entry, s: seq<Entry>, lt: (Key, Key) -> bool)
    ensures multiset(Insert(e, s, lt)) == multiset(s) + multiset{e}
    decreases |s|
  {
    if s != [] && !lt(e.key, s[0].key) {
      InsertPermutes(e, s[1..], lt);
      assert s == [s[0]] + s[1..];
    }
  }

  /** A sorted sequence stays sorted with an element no key of it is below
      put in front. */
  lemma ConsSorted(x: Entry, s: seq<Entry>, lt: (Key, Key) -> bool)
    requires Sorted(s, lt)
    requires forall i :: 0 <= i < |s| ==> !lt(s[i].key, x.key)
    ensures Sorted([x] + s, lt)
  {
    var r := [x] + s;
    forall i, j | 0 <= i < j < |r| ensures !lt(r[j].key, r[i].key) {
      assert r[j] == s[j - 1];
      if i > 0 {
        assert r[i] == s[i - 1];
      }
    }
  }

  lemma {:induction false} InsertSorted(e: Entry, s: seq<Entry>, lt: (Key, Key) -> bool)
    requires IsStrictTotalOrder(lt) && Sorted(s, lt)
    ensures Sorted(Insert(e, s, lt), lt)
    decreases |s|
  {
    if s == [] {
    } else if lt(e.key, s[0].key) {
      forall i | 0 <= i < |s| ensures !lt(s[i].key, e.key) {
        if i > 0 {
          assert !lt(s[i].key, s[0].key);
        }
      }
      ConsSorted(e, s, lt);
    } else {
      var t := Insert(e, s[1..], lt);
      InsertSorted(e, s[1..], lt);
      InsertPermutes(e, s[1..], lt);
      forall i | 0 <= i < |t| ensures !lt(t[i].key, s[0].key) {
        assert t[i] in multiset(t);
        if t[i] != e {
          assert t[i] in multiset(s[1..]);
          var k :| 0 <= k < |s[1..]| && s[1..][k] == t[i];
          assert s[k + 1] == t[i];
        }
      }
      ConsSorted(s[0], t, lt);
    }
  }

  /** Below the head of a sorted sequence means below all of it. */
  lemma AboveHeadKeys(e: Entry, s: seq<Entry>, lt: (Key, Key) -> bool)
    requires IsStrictTotalOrder(lt) && Sorted(s, lt)
    requires s != [] && lt(e.key, s[0].key)
    ensures forall i :: 0 <= i < |s| ==> s[i].key != e.key
  {
    forall i | 0 <= i < |s| ensures s[i].key != e.key {
      if i > 0 {
        assert !lt(s[i].key, s[0].key);
      }
    }
  }

  /** Inserting keeps the elements with other keys where they were, and puts
      `e` after those with its own key. */
  lemma {:induction false} InsertWithKey(e: Entry, s: seq<Entry>, k: Key, lt: (Key, Key) -> bool)
    requires IsStrictTotalOrder(lt) && Sorted(s, lt)
    ensures WithKey(Insert(e, s, lt), k) == WithKey(s, k) + (if e.key == k then [e] else [])
    decreases |s|
  {
    if s == [] {
      assert WithKey([e], k) == (if e.key == k then [e] else []) + WithKey([], k);
    } else if lt(e.key, s[0].key) {
      WithKeyAppend([e], s, k);
      assert WithKey([e], k) == (if e.key == k then [e] else []) + WithKey([], k);
      if e.key == k {
        AboveHeadKeys(e, s, lt);
        WithKeyNone(s, k);
      }
    } else {
      InsertWithKey(e, s[1..], k, lt);
      WithKeyAppend([s[0]], Insert(e, s[1..], lt), k);
      WithKeyAppend([s[0]], s[1..], k);
      assert [s[0]] + s[1..] == s;
    }
  }

  lemma {:induction false} StableSortPermutes(s: seq<Entry>, lt: (Key, Key) -> bool)
    ensures multiset(StableSort(s, lt)) == multiset(s)
    decreases |s|
  {
    if s != [] {
      var init := s[..|s| - 1];
      var e := s[|s| - 1];
      StableSortPermutes(init, lt);
      InsertPermutes(e, StableSort(init, lt), lt);
      assert StableSort(s, lt) == Insert(e, StableSort(init, lt), lt);
      assert s == init + [e];
      assert multiset(s) == multiset(init) + multiset{e};
    }
  }

  lemma {:induction false} StableSortSorted(s: seq<Entry>, lt: (Key, Key) -> bool)
    requires IsStrictTotalOrder(lt)
    ensures Sorted(StableSort(s, lt), lt)
    decreases |s|
  {
    if s != [] {
      StableSortSorted(s[..|s| - 1], lt);
      InsertSorted(s[|s| - 1], StableSort(s[..|s| - 1], lt), lt);
    }
  }

  lemma {:induction false} StableSortWithKey(s: seq<Entry>, k: Key, lt: (Key, Key) -> bool)
    requires IsStrictTotalOrder(lt)
    ensures WithKey(StableSort(s, lt), k) == WithKey(s, k)
    decreases |s|
  {
    if s != [] {
      var init := s[..|s| - 1];
      var e := s[|s| - 1];
      StableSortWithKey(init, k, lt);
      StableSortSorted(init, lt);
      InsertWithKey(e, StableSort(init, lt), k, lt);
      assert s == init + [e];
      WithKeyAppend(init, [e], k);
      assert WithKey([e], k) == (if e.key == k then [e] else []) + WithKey([], k);
    }
  }

  /** The sort returns the input's elements in non-decreasing key order, and
      the elements sharing a key in their input order. */
  lemma StableSortSpec(s: seq<Entry>, lt: (Key, Key) -> bool)
    requires IsStrictTotalOrder(lt)
    ensures Sorted(StableSort(s, lt), lt)
    ensures multiset(StableSort(s, lt)) == multiset(s)
    ensures forall k :: WithKey(StableSort(s, lt), k) == WithKey(s, k)
  {
    StableSortPermutes(s, lt);
    StableSortSorted(s, lt);
    forall k ensures WithKey(StableSort(s, lt), k) == WithKey(s, k) {
      StableSortWithKey(s, k, lt);
    }
  }

  /** Not below some element of a sorted sequence: not below its head. */
  lemma NotBelowHead(e: Entry, s: seq<Entry>, i: nat, lt: (Key, Key) -> bool)
    requires IsStrictTotalOrder(lt) && Sorted(s, lt)
    requires i < |s| && !lt(e.key, s[i].key)
    ensures !lt(e.key, s[0].key)
  {
    if i > 0 {
      assert !lt(s[i].key, s[0].key);
    }
  }

  /** `Insert` in terms of the place the shifting loop stops at. */
  lemma {:induction false} InsertAt(e: Entry, s: seq<Entry>, j: nat, lt: (Key, Key) -> bool)
    requires IsStrictTotalOrder(lt) && Sorted(s, lt) && j <= |s|
    requires forall k :: j <= k < |s| ==> lt(e.key, s[k].key)
    requires j > 0 ==> !lt(e.key, s[j - 1].key)
    ensures Insert(e, s, lt) == s[..j] + [e] + s[j..]
    decreases j
  {
    if j > 0 {
      NotBelowHead(e, s, j - 1, lt);
      InsertAt(e, s[1..], j - 1, lt);
      assert s[1..][..j - 1] == s[1..j];
      assert s[1..][j - 1..] == s[j..];
    }
  }

  // ----- the tool -----

  /** The loop that builds `shots` from the files. */
  method LoadShots(files: seq<ShotFile>) returns (shots: seq<Entry>)
    requires forall i :: 0 <= i < |files| ==> WellTyped(files[i].data)
    ensures shots == Entries(files)
  {
    shots := [];
    var i := 0;
    while i < |files|
      invariant 0 <= i <= |files|
      invariant shots == Entries(files)[..i]
    {
      assert Entries(files)[..i + 1] == Entries(files)[..i] + [EntryOf(files[i])];
      shots := shots + [EntryOf(files[i])];
      i := i + 1;
    }
    assert Entries(files)[..|files|] == Entries(files);
  }

  /** What the shifting loop leaves: `prefix` with `e` put in at `j`. */
  lemma Shifted(r: seq<Entry>, prefix: seq<Entry>, e: Entry, j: nat)
    requires j <= |prefix| && |r| == |prefix| + 1
    requires forall k {:trigger r[k]} :: 0 <= k < j ==> r[k] == prefix[k]
    requires r[j] == e
    requires forall k {:trigger r[k]} :: j < k < |r| ==> r[k] == prefix[k - 1]
    ensures r == prefix[..j] + [e] + prefix[j..]
  {
  }

  /** One pass of the sort: `a[i]` moved down past the shots before it
      whose keys are above its own; `j` is where it lands. */
  method InsertLast(a: array<Entry>, i: nat, lt: (Key, Key) -> bool) returns (j: nat)
    requires i < a.Length
    modifies a
    ensures j <= i
    ensures a[..i + 1] == old(a[..i])[..j] + [old(a[i])] + old(a[..i])[j..]
    ensures a[i + 1..] == old(a[i + 1..])
    ensures forall k :: j <= k < i ==> lt(old(a[i]).key, old(a[k]).key)
    ensures j > 0 ==> !lt(old(a[i]).key, old(a[j - 1]).key)
  {
    ghost var prefix := a[..i];
    var e := a[i];
    j := i;
    while j > 0 && lt(e.key, a[j - 1].key)
      invariant 0 <= j <= i
      invariant forall k {:trigger a[k]} :: 0 <= k < j ==> a[k] == prefix[k]
      invariant forall k {:trigger a[k]} :: j < k <= i ==> a[k] == prefix[k - 1]
      invariant forall k :: i < k < a.Length ==> a[k] == old(a[k])
      invariant forall k :: j <= k < i ==> lt(e.key, prefix[k].key)
    {
      a[j] := a[j - 1];
      j := j - 1;
    }
    a[j] := e;
    Shifted(a[..i + 1], prefix, e, j);
  }

  /** `shots.sort(key=...)` in place, for the order `lt` on the keys. */
  method SortShots(a: array<Entry>, lt: (Key, Key) -> bool)
    requires IsStrictTotalOrder(lt)
    modifies a
    ensures a[..] == StableSort(old(a[..]), lt)
  {
    ghost var input := a[..];
    var i := 0;
    while i < a.Length
      invariant 0 <= i <= a.Length
      invariant a[..i] == StableSort(input[..i], lt)
      invariant a[i..] == input[i..]
    {
      ghost var prefix := a[..i];
      StableSortSorted(input[..i], lt);
      assert a[i] == input[i];
      assert a[i + 1..] == input[i + 1..] by {
        assert a[i + 1..] == a[i..][1..] && input[i + 1..] == input[i..][1..];
      }
      var j := InsertLast(a, i, lt);
      InsertAt(input[i], prefix, j, lt);
      assert input[..i + 1][..i] == input[..i];
      assert StableSort(input[..i + 1], lt) == Insert(input[i], prefix, lt);
      i := i + 1;
    }
    assert input[..a.Length] == input;
  }

  /** The files as written: the sorted shots, each with `index` set to its
      position. */
  function Indexed(sorted: seq<Entry>): (r: seq<ShotFile>)
    ensures |r| == |sorted|
    ensures forall i :: 0 <= i < |sorted| ==>
      r[i] == ShotFile(sorted[i].path, Put(sorted[i].data, "index", JNum(i)))
  {
    seq(|sorted|, i requires 0 <= i < |sorted| => ShotFile(sorted[i].path, Put(sorted[i].data, "index", JNum(i))))
  }

  /** The loop that sets each shot's `index` and writes it back. */
  method WriteIndices(a: array<Entry>) returns (written: seq<ShotFile>)
    ensures written == Indexed(a[..])
  {
    written := [];
    var n := 0;
    while n < a.Length
      invariant 0 <= n <= a.Length
      invariant written == Indexed(a[..])[..n]
    {
      assert Indexed(a[..])[..n + 1] == Indexed(a[..])[..n] + [Indexed(a[..])[n]];
      written := written + [ShotFile(a[n].path, Put(a[n].data, "index", JNum(n)))];
      n := n + 1;
    }
    assert Indexed(a[..])[..a.Length] == Indexed(a[..]);
  }

  /** The whole tool on the named files, in command-line order: the files it
      writes, in the order it writes them. */
  method ReindexFiles(files: seq<ShotFile>) returns (written: seq<ShotFile>)
    requires forall i :: 0 <= i < |files| ==> WellTyped(files[i].data)
    ensures written == Indexed(StableSort(Entries(files), Less))
  {
    var shots := LoadShots(files);
    var a := new Entry[|shots|](k requires 0 <= k < |shots| => shots[k]);
    assert a[..] == shots;
    LessIsStrictTotalOrder();
    SortShots(a, Less);
    written := WriteIndices(a);
  }

  /** What the written files hold: one per input file; in key order, with
      equal keys in command-line order; each shot's `index` is its position,
      so the indices are exactly 0 to n - 1; and nothing but `index`
      changes. */
  lemma ReindexSpec(files: seq<ShotFile>)
    requires forall i :: 0 <= i < |files| ==> WellTyped(files[i].data)
    ensures var entries := Entries(files);
      var sorted := StableSort(entries, Less);
      var written := Indexed(sorted);
      |written| == |files|
      && Sorted(sorted, Less) && multiset(sorted) == multiset(entries)
      && (forall k :: WithKey(sorted, k) == WithKey(entries, k))
      && (forall i :: 0 <= i < |written| ==> Lookup(written[i].data, "index") == Some(JNum(i)))
      && (forall i, key :: 0 <= i < |written| && key != "index" ==>
            Lookup(written[i].data, key) == Lookup(sorted[i].data, key))
  {
    var entries := Entries(files);
    LessIsStrictTotalOrder();
    StableSortSpec(entries, Less);
    var sorted := StableSort(entries, Less);
    assert |sorted| == |entries| by {
      assert |multiset(sorted)| == |multiset(entries)|;
    }
    forall i | 0 <= i < |sorted| ensures Lookup(Put(sorted[i].data, "index", JNum(i)), "index") == Some(JNum(i)) {
      PutSemantics(sorted[i].data, "index", JNum(i));
    }
    forall i, key | 0 <= i < |sorted| && key != "index"
      ensures Lookup(Put(sorted[i].data, "index", JNum(i)), key) == Lookup(sorted[i].data, key)
    {
      LookupOtherPut(sorted[i].data, "index", JNum(i), key);
    }
  }
}
