/** What the two enum/taxonomy consistency scripts share: each enum file
    `schemas/enum/<name>` is paired with `schemas/taxonomy/<name'>`, where
    `<name'>` has every `enum` replaced by `taxonomy`; the enum's values and
    the taxonomy's flattened values are compared as Python sets, under
    Python's `==`; the first pair that fails ends the run. */
module TaxonomySync {
  import opened Json
  import opened Strings
  import opened Python

  /** `enum_file.name.replace("enum", "taxonomy")`. */
  function TaxonomyFileName(enumName: string): string {
    ReplaceAll(enumName, "enum", "taxonomy")
  }

  /** The first `enum` in `<stem>.enum.json` is the suffix's own when the
      stem holds none: an earlier one would lie in the stem or cross the dot. */
  lemma FirstEnumInEnumFile(stem: string)
    requires !Contains(stem, "enum")
    ensures Find(stem + ".enum.json", "enum") == |stem| + 1
  {
    var a := stem + ".";
    var s := stem + ".enum.json";
    assert s == a + "enum.json";
    forall j | 0 <= j < |a| ensures !OccursAt(a + "enum.json", "enum", j) {
      if j + 4 <= |stem| {
        assert s[j..j + 4] == stem[j..j + 4];
        assert !OccursAt(stem, "enum", j);
      } else {
        assert s[j..j + 4][|stem| - j] == '.';
      }
    }
    FindAfterPrefix(a, "enum.json", "enum");
    assert OccursAt("enum.json", "enum", 0);
  }

  /** `.json` holds no `enum`. */
  lemma JsonExtensionHasNoEnum()
    ensures ReplaceAll(".json", "enum", "taxonomy") == ".json"
  {
    assert ".json"[0..4][0] == '.' && ".json"[1..5][0] == 'j';
    assert Find(".json", "enum") == 5;
  }

  /** A name `<stem>.enum.json` whose stem holds no `enum` is paired with
      `<stem>.taxonomy.json`. */
  lemma TaxonomyNameOfEnumFile(stem: string)
    requires !Contains(stem, "enum")
    ensures TaxonomyFileName(stem + ".enum.json") == stem + ".taxonomy.json"
  {
    var s := stem + ".enum.json";
    FirstEnumInEnumFile(stem);
    JsonExtensionHasNoEnum();
    assert s[..|stem| + 1] == stem + "." && s[|stem| + 5..] == ".json";
    assert ReplaceAll(s, "enum", "taxonomy") == stem + "." + "taxonomy" + ReplaceAll(".json", "enum", "taxonomy");
  }

  /** A name without `enum` keeps its name. */
  lemma TaxonomyNameWithoutEnum(name: string)
    requires !Contains(name, "enum")
    ensures TaxonomyFileName(name) == name
  {
    ReplaceWithoutOccurrence(name, "enum", "taxonomy");
  }

  /** The outcome of one pair, or of a whole run: in sync, the taxonomy file
      missing, the two value sets differing (with `miss = set(enum) -
      set(flat)` and `extra = set(flat) - set(enum)` as Python computes
      them), or an error that ends the script with status 1. */
  datatype Status =
    | InSync
    | TaxonomyMissing(enumName: string)
    | Mismatch(enumName: string, miss: set<Json>, extra: set<Json>)
    | Failed(enumName: string)

  /** The verdict on two Python sets: `if miss or extra` rejects. The sets
      pass exactly when they meet the same classes of `==`. */
  function CompareSets(enumName: string, enumSet: set<Json>, flatSet: set<Json>): (r: Status)
    ensures r == InSync <==> ClassesOf(enumSet) == ClassesOf(flatSet)
    ensures r != InSync ==> r == Mismatch(enumName, PyDiff(enumSet, flatSet), PyDiff(flatSet, enumSet))
  {
    var miss := PyDiff(enumSet, flatSet);
    var extra := PyDiff(flatSet, enumSet);
    PyDiffClasses(enumSet, flatSet);
    PyDiffClasses(flatSet, enumSet);
    if miss != {} || extra != {} then
      assert ClassesOf(enumSet) != ClassesOf(flatSet) by {
        if miss != {} {
          var x :| x in miss;
          assert PyKey(x) in ClassesOf(miss);
        } else {
          var x :| x in extra;
          assert PyKey(x) in ClassesOf(extra);
        }
      }
      Mismatch(enumName, miss, extra)
    else
      InSync
  }

  /** `set(enum)` and `set(flat)` compared: a `TypeError` on an unhashable
      element or a non-iterable enum is a failure. Otherwise the pair is in
      sync exactly when every value on one side equals (Python `==`) some
      value on the other, and a mismatch reports, of each set, the elements
      the other side has no equal of. */
  function CompareValues(enumName: string, enumValue: Json, flat: seq<Json>): (r: Status)
    ensures r.Failed? <==>
      !(PyIter(enumValue).Ok? && PySet(PyIter(enumValue).value).Ok? && PySet(flat).Ok?)
    ensures !r.Failed? ==>
      (r.InSync? <==> ClassesOf(Elements(PyIter(enumValue).value)) == ClassesOf(Elements(flat)))
    ensures r.Mismatch? ==>
      (r.miss == PyDiff(SetOf(PyIter(enumValue).value), SetOf(flat))
       && r.extra == PyDiff(SetOf(flat), SetOf(PyIter(enumValue).value)))
    ensures !r.TaxonomyMissing?
  {
    var values := PyIter(enumValue);
    if values.Raised? then Failed(enumName)
    else
      var enumSet := PySet(values.value);
      var flatSet := PySet(flat);
      if enumSet.Raised? || flatSet.Raised? then Failed(enumName)
      else
        SetOfSpec(values.value);
        SetOfSpec(flat);
        CompareSets(enumName, enumSet.value, flatSet.value)
  }

  /** Python's `set` identifies `True` with `1`: an enum `[true]` is in sync
      with a taxonomy whose values are `[1]`. */
  lemma TrueMatchesOne(enumName: string)
    ensures CompareValues(enumName, JArr([JBool(true)]), [JNum(1)]) == InSync
  {
    assert Elements([JBool(true)]) == {JBool(true)};
    assert Elements([JNum(1)]) == {JNum(1)};
    assert ClassesOf({JBool(true)}) == {JNum(1)};
    assert ClassesOf({JNum(1)}) == {JNum(1)};
  }

  /** Values with the same classes are hashable together: an unhashable
      value is its own class. */
  lemma HashableByClasses(xs: seq<Json>, ys: seq<Json>)
    requires ClassesOf(Elements(xs)) == ClassesOf(Elements(ys))
    ensures PySet(xs).Ok? <==> PySet(ys).Ok?
  {
    forall i | 0 <= i < |xs| && !Hashable(xs[i]) ensures !PySet(ys).Ok? {
      assert PyKey(xs[i]) in ClassesOf(Elements(ys));
      var y :| y in Elements(ys) && PyKey(y) == PyKey(xs[i]);
      var j :| 0 <= j < |ys| && ys[j] == y;
    }
    forall i | 0 <= i < |ys| && !Hashable(ys[i]) ensures !PySet(xs).Ok? {
      assert PyKey(ys[i]) in ClassesOf(Elements(xs));
      var x :| x in Elements(xs) && PyKey(x) == PyKey(ys[i]);
      var j :| 0 <= j < |xs| && xs[j] == x;
    }
  }

  /** Two verdicts agree up to which element of a class a mismatch reports. */
  predicate SameVerdict(a: Status, b: Status) {
    && a.InSync? == b.InSync? && a.Failed? == b.Failed? && a.Mismatch? == b.Mismatch?
    && (a.Mismatch? && b.Mismatch? ==>
          ClassesOf(a.miss) == ClassesOf(b.miss) && ClassesOf(a.extra) == ClassesOf(b.extra))
  }

  /** Only the classes of values count: reordering, repeating or swapping
      values for equal ones on either side changes neither the verdict nor
      the classes a mismatch reports. */
  lemma CompareValuesIgnoresOrder(enumName: string, e1: seq<Json>, e2: seq<Json>, f1: seq<Json>, f2: seq<Json>)
    requires ClassesOf(Elements(e1)) == ClassesOf(Elements(e2))
    requires ClassesOf(Elements(f1)) == ClassesOf(Elements(f2))
    ensures SameVerdict(CompareValues(enumName, JArr(e1), f1), CompareValues(enumName, JArr(e2), f2))
  {
    HashableByClasses(e1, e2);
    HashableByClasses(f1, f2);
    SetOfSpec(e1);
    SetOfSpec(e2);
    SetOfSpec(f1);
    SetOfSpec(f2);
    PyDiffClasses(SetOf(e1), SetOf(f1));
    PyDiffClasses(SetOf(f1), SetOf(e1));
    PyDiffClasses(SetOf(e2), SetOf(f2));
    PyDiffClasses(SetOf(f2), SetOf(e2));
  }

  /** A run over the pairs in glob order: the first status other than
      `InSync` ends it; with none, the run reports that everything is in
      sync. */
  function FirstStop(statuses: seq<Status>): (r: Status)
    decreases |statuses|
  {
    if statuses == [] then InSync
    else if statuses[0] != InSync then statuses[0]
    else FirstStop(statuses[1..])
  }

  /** The run succeeds exactly when every pair is in sync; otherwise it ends
      with the first pair that is not, and every pair before it was in
      sync. */
  lemma {:induction false} FirstStopSpec(statuses: seq<Status>)
    ensures FirstStop(statuses) == InSync <==> forall i :: 0 <= i < |statuses| ==> statuses[i] == InSync
    ensures FirstStop(statuses) != InSync ==>
      exists i :: 0 <= i < |statuses| && statuses[i] == FirstStop(statuses)
        && forall j :: 0 <= j < i ==> statuses[j] == InSync
    decreases |statuses|
  {
    if statuses != [] && statuses[0] == InSync {
      FirstStopSpec(statuses[1..]);
      assert forall i :: 1 <= i < |statuses| ==> statuses[i] == statuses[1..][i - 1];
      if FirstStop(statuses) != InSync {
        var i :| 0 <= i < |statuses[1..]| && statuses[1..][i] == FirstStop(statuses[1..])
          && forall j :: 0 <= j < i ==> statuses[1..][j] == InSync;
        assert statuses[i + 1] == FirstStop(statuses);
        assert forall j :: 0 <= j < i + 1 ==> statuses[j] == InSync by {
          forall j | 0 <= j < i + 1 ensures statuses[j] == InSync {
            if j > 0 {
              assert statuses[j] == statuses[1..][j - 1];
            }
          }
        }
      }
    } else if statuses != [] {
      assert statuses[0] == FirstStop(statuses);
    }
  }

  /** The first `k + 1` statuses are decided by the first `k` and the next
      one: how a loop over the pairs stops. */
  lemma {:induction false} FirstStopSnoc(statuses: seq<Status>, k: nat)
    requires k < |statuses|
    ensures FirstStop(statuses[..k + 1]) ==
      (if FirstStop(statuses[..k]) != InSync then FirstStop(statuses[..k]) else statuses[k])
    decreases k
  {
    if k > 0 {
      assert statuses[..k + 1][1..] == statuses[1..][..k];
      assert statuses[..k][1..] == statuses[1..][..k - 1];
      FirstStopSnoc(statuses[1..], k - 1);
    } else {
      assert statuses[..1] == [statuses[0]];
      assert statuses[..1][1..] == [];
    }
  }
}
