/** The Python built-ins the scripts apply to parsed JSON values: truthiness,
    subscripting, the `in` operator, iteration, `dict.values()`, `set()` and
    set difference.
    A built-in that would raise (`KeyError`, `TypeError`, `AttributeError`)
    gives `Raised`. */
module Python {
  import opened Json
  import opened Strings

  /** The result of a Python computation: a value, or an exception. */
  datatype Outcome<T> = Ok(value: T) | Raised

  /** Python truthiness of a parsed JSON value (`None` is `JNull`). */
  predicate PyTruthy(j: Json) {
    match j
    case JNull => false
    case JBool(b) => b
    case JNum(n) => n != 0
    case JStr(s) => s != ""
    case JArr(items) => items != []
    case JObj(f) => f != []
  }

  /** `j[k]` with a string key: a dict member, a `KeyError` when the dict
      lacks it, a `TypeError` when `j` is no dict. */
  function Subscript(j: Json, k: string): (r: Outcome<Json>)
    ensures r.Ok? <==> j.JObj? && HasKey(j.fields, k)
    ensures r.Ok? ==> Lookup(j.fields, k) == Some(r.value)
  {
    if j.JObj? && HasKey(j.fields, k) then Ok(Lookup(j.fields, k).value) else Raised
  }

  /** `k in j` with a non-empty string `k`: a key test on a dict, a membership
      test on a list, a substring test on a string; a `TypeError` on numbers,
      booleans and `None`. */
  function PyIn(k: string, j: Json): (r: Outcome<bool>)
    requires |k| > 0
    ensures j.JObj? ==> r == Ok(HasKey(j.fields, k))
    ensures j.JArr? ==> r == Ok(JStr(k) in j.items)
    ensures j.JStr? ==> r == Ok(Contains(j.s, k))
    ensures r.Raised? <==> !(j.JObj? || j.JArr? || j.JStr?)
  {
    match j
    case JObj(f) => Ok(HasKey(f, k))
    case JArr(items) => Ok(JStr(k) in items)
    case JStr(s) => Ok(Contains(s, k))
    case _ => Raised
  }

  /** The items `iter(j)` yields: a list's elements, a dict's keys, a string's
      one-character strings; a `TypeError` for anything else. */
  function PyIter(j: Json): (r: Outcome<seq<Json>>)
    ensures r.Ok? <==> j.JArr? || j.JObj? || j.JStr?
    ensures j.JArr? ==> r == Ok(j.items)
    ensures j.JObj? ==>
      (r.Ok? && |r.value| == |j.fields|
       && forall i :: 0 <= i < |j.fields| ==> r.value[i] == JStr(j.fields[i].0))
    ensures j.JStr? ==>
      (r.Ok? && |r.value| == |j.s|
       && forall i :: 0 <= i < |j.s| ==> r.value[i] == JStr([j.s[i]]))
  {
    match j
    case JArr(items) => Ok(items)
    case JObj(f) => Ok(seq(|f|, i requires 0 <= i < |f| => JStr(f[i].0)))
    case JStr(s) => Ok(seq(|s|, i requires 0 <= i < |s| => JStr([s[i]])))
    case _ => Raised
  }

  /** `j.values()`: a dict's values in key order; an `AttributeError` for
      anything else. */
  function PyValues(j: Json): (r: Outcome<seq<Json>>)
    ensures r.Ok? <==> j.JObj?
    ensures r.Ok? ==>
      (|r.value| == |j.fields|
       && forall i :: 0 <= i < |j.fields| ==> r.value[i] == j.fields[i].1)
  {
    if j.JObj? then Ok(seq(|j.fields|, i requires 0 <= i < |j.fields| => j.fields[i].1)) else Raised
  }

  /** Lists and dicts are unhashable. */
  predicate Hashable(j: Json) {
    !j.JArr? && !j.JObj?
  }

  /** The elements of a list, as a set. */
  function Elements(xs: seq<Json>): (r: set<Json>)
    ensures forall x :: x in r <==> x in xs
  {
    set x | x in xs
  }

  /** The class of a hashable value under Python's `==`: `bool` is a
      subclass of `int`, so `True == 1` and `False == 0` (with equal
      hashes); any other scalar equals only itself. */
  function PyKey(j: Json): Json {
    match j
    case JBool(b) => JNum(if b then 1 else 0)
    case _ => j
  }

  /** The classes the elements of `s` fall into. */
  function ClassesOf(s: set<Json>): set<Json> {
    set x | x in s :: PyKey(x)
  }

  /** No element of `xs` before index `i` is equal to `xs[i]`. */
  predicate FirstOfClass(xs: seq<Json>, i: int)
    requires 0 <= i < |xs|
  {
    forall j :: 0 <= j < i ==> PyKey(xs[j]) != PyKey(xs[i])
  }

  /** A Python set holds at most one element of each class. */
  predicate OnePerClass(s: set<Json>) {
    forall x, y :: x in s && y in s && PyKey(x) == PyKey(y) ==> x == y
  }

  /** The elements `set(xs)` holds: the elements of `xs` added in turn, one
      whose class is already present being skipped. */
  function SetOf(xs: seq<Json>): set<Json>
    decreases |xs|
  {
    if xs == [] then {}
    else
      var s := SetOf(xs[..|xs| - 1]);
      if PyKey(xs[|xs| - 1]) in ClassesOf(s) then s else s + {xs[|xs| - 1]}
  }

  /** `s` holds exactly the elements of `xs` that are the first of their
      class. */
  ghost predicate KeepsFirsts(xs: seq<Json>, s: set<Json>) {
    forall x :: x in s <==> exists i :: 0 <= i < |xs| && xs[i] == x && FirstOfClass(xs, i)
  }

  /** `set(xs)` keeps exactly the first element of each class of `xs`. */
  lemma {:induction false} SetOfMembers(xs: seq<Json>)
    ensures KeepsFirsts(xs, SetOf(xs))
    decreases |xs|
  {
    if xs != [] {
      var ys := xs[..|xs| - 1];
      SetOfMembers(ys);
      assert xs == ys + [xs[|xs| - 1]];
      SnocKeepsFirsts(ys, xs[|xs| - 1]);
    }
  }

  /** Adding one element to the end of `ys` adds it to `set(ys)` exactly
      when it is the first of its class. */
  lemma SnocKeepsFirsts(ys: seq<Json>, x: Json)
    requires KeepsFirsts(ys, SetOf(ys))
    ensures KeepsFirsts(ys + [x], SetOf(ys + [x]))
  {
    var xs := ys + [x];
    var s := SetOf(ys);
    assert xs[..|xs| - 1] == ys;
    LastFirstOfClass(ys, x);
    forall i | 0 <= i < |ys| ensures xs[i] == ys[i] && (FirstOfClass(ys, i) <==> FirstOfClass(xs, i)) {
    }
    forall z ensures z in SetOf(xs) <==> exists i :: 0 <= i < |xs| && xs[i] == z && FirstOfClass(xs, i) {
      if z in s {
        var i :| 0 <= i < |ys| && ys[i] == z && FirstOfClass(ys, i);
        assert xs[i] == z && FirstOfClass(xs, i);
      } else if z in SetOf(xs) {
        assert xs[|ys|] == z && FirstOfClass(xs, |ys|);
      } else {
        forall i | 0 <= i < |xs| && xs[i] == z ensures !FirstOfClass(xs, i) {
          if i < |ys| {
            assert !FirstOfClass(ys, i);
          }
        }
      }
    }
  }

  /** The last element of `ys + [x]` is the first of its class exactly when
      `set(ys)` meets no element of that class. */
  lemma LastFirstOfClass(ys: seq<Json>, x: Json)
    requires KeepsFirsts(ys, SetOf(ys))
    ensures FirstOfClass(ys + [x], |ys|) <==> PyKey(x) !in ClassesOf(SetOf(ys))
  {
    var xs := ys + [x];
    var s := SetOf(ys);
    if PyKey(x) in ClassesOf(s) {
      var z :| z in s && PyKey(z) == PyKey(x);
      var i :| 0 <= i < |ys| && ys[i] == z && FirstOfClass(ys, i);
      assert PyKey(xs[i]) == PyKey(xs[|ys|]);
    } else {
      forall j | 0 <= j < |ys| ensures PyKey(xs[j]) != PyKey(x) {
        FirstOfClassBelow(ys, j);
        var k :| 0 <= k <= j && PyKey(ys[k]) == PyKey(ys[j]) && FirstOfClass(ys, k);
        assert ys[k] in s;
      }
    }
  }

  /** Every element of `xs` shares its class with an element that is the
      first of that class. */
  lemma {:induction false} FirstOfClassBelow(xs: seq<Json>, i: nat)
    requires i < |xs|
    ensures exists j :: 0 <= j <= i && PyKey(xs[j]) == PyKey(xs[i]) && FirstOfClass(xs, j)
    decreases i
  {
    if !FirstOfClass(xs, i) {
      var j :| 0 <= j < i && PyKey(xs[j]) == PyKey(xs[i]);
      FirstOfClassBelow(xs, j);
    }
  }

  /** `set(xs)` holds one element per class and meets exactly the classes
      of `xs`. */
  lemma SetOfSpec(xs: seq<Json>)
    ensures forall x :: x in SetOf(xs) <==> exists i :: 0 <= i < |xs| && xs[i] == x && FirstOfClass(xs, i)
    ensures OnePerClass(SetOf(xs))
    ensures ClassesOf(SetOf(xs)) == ClassesOf(Elements(xs))
  {
    SetOfMembers(xs);
    forall x, y | x in SetOf(xs) && y in SetOf(xs) && PyKey(x) == PyKey(y) ensures x == y {
      var i :| 0 <= i < |xs| && xs[i] == x && FirstOfClass(xs, i);
      var j :| 0 <= j < |xs| && xs[j] == y && FirstOfClass(xs, j);
      assert !(i < j) && !(j < i);
    }
    forall k | k in ClassesOf(Elements(xs)) ensures k in ClassesOf(SetOf(xs)) {
      var x :| x in Elements(xs) && PyKey(x) == k;
      var i :| 0 <= i < |xs| && xs[i] == x;
      FirstOfClassBelow(xs, i);
      var j :| 0 <= j <= i && PyKey(xs[j]) == PyKey(xs[i]) && FirstOfClass(xs, j);
      assert xs[j] in SetOf(xs);
    }
  }

  /** Every element of `xs` is equal (Python `==`) to some element of `ys`. */
  predicate Covers(xs: seq<Json>, ys: seq<Json>) {
    forall x :: x in xs ==> exists y :: y in ys && PyKey(x) == PyKey(y)
  }

  /** Two lists meet the same classes exactly when each covers the other. */
  lemma SameClassesIffCovers(xs: seq<Json>, ys: seq<Json>)
    ensures ClassesOf(Elements(xs)) == ClassesOf(Elements(ys)) <==> Covers(xs, ys) && Covers(ys, xs)
  {
    CoversClasses(xs, ys);
    CoversClasses(ys, xs);
  }

  lemma CoversClasses(xs: seq<Json>, ys: seq<Json>)
    ensures ClassesOf(Elements(xs)) <= ClassesOf(Elements(ys)) <==> Covers(xs, ys)
  {
    if Covers(xs, ys) {
      forall k | k in ClassesOf(Elements(xs)) ensures k in ClassesOf(Elements(ys)) {
        var x :| x in Elements(xs) && PyKey(x) == k;
        var y :| y in ys && PyKey(x) == PyKey(y);
        assert y in Elements(ys);
      }
    }
    if ClassesOf(Elements(xs)) <= ClassesOf(Elements(ys)) {
      forall x | x in xs ensures exists y :: y in ys && PyKey(x) == PyKey(y) {
        assert x in Elements(xs);
        assert PyKey(x) in ClassesOf(Elements(ys));
      }
    }
  }

  /** `set([1, True])` has one element, the `1` added first. */
  lemma OneAbsorbsTrue()
    ensures SetOf([JNum(1), JBool(true)]) == {JNum(1)}
  {
    var xs := [JNum(1), JBool(true)];
    assert xs[..1] == [JNum(1)] && [JNum(1)][..0] == [];
    assert SetOf([JNum(1)]) == {JNum(1)};
    assert PyKey(JBool(true)) in ClassesOf({JNum(1)});
  }

  /** `a - b` on Python sets: the elements of `a` equal to no element of `b`. */
  function PyDiff(a: set<Json>, b: set<Json>): set<Json> {
    set x | x in a && PyKey(x) !in ClassesOf(b)
  }

  /** The difference meets the classes of `a` that `b` does not. */
  lemma PyDiffClasses(a: set<Json>, b: set<Json>)
    ensures ClassesOf(PyDiff(a, b)) == ClassesOf(a) - ClassesOf(b)
  {
    forall k | k in ClassesOf(a) - ClassesOf(b) ensures k in ClassesOf(PyDiff(a, b)) {
      var x :| x in a && PyKey(x) == k;
      assert x in PyDiff(a, b);
    }
  }

  /** Both differences are empty exactly when the sets meet the same classes. */
  lemma EmptyDiffsIffSameClasses(a: set<Json>, b: set<Json>)
    ensures PyDiff(a, b) == {} && PyDiff(b, a) == {} <==> ClassesOf(a) == ClassesOf(b)
  {
    PyDiffClasses(a, b);
    PyDiffClasses(b, a);
    if PyDiff(a, b) != {} {
      var x :| x in PyDiff(a, b);
      assert PyKey(x) in ClassesOf(PyDiff(a, b));
    }
    if PyDiff(b, a) != {} {
      var x :| x in PyDiff(b, a);
      assert PyKey(x) in ClassesOf(PyDiff(b, a));
    }
  }

  /** `set(xs)` for a list: a `TypeError` when an element is unhashable. */
  function PySet(xs: seq<Json>): (r: Outcome<set<Json>>)
    ensures r.Ok? <==> forall i :: 0 <= i < |xs| ==> Hashable(xs[i])
    ensures r.Ok? ==> r.value == SetOf(xs)
  {
    if forall i :: 0 <= i < |xs| ==> Hashable(xs[i]) then Ok(SetOf(xs)) else Raised
  }

  /** Every computation in `rs` returned. */
  predicate AllOk<T>(rs: seq<Outcome<T>>) {
    forall i :: 0 <= i < |rs| ==> rs[i].Ok?
  }

  /** The values of computations that all returned. */
  function Values<T>(rs: seq<Outcome<T>>): (vs: seq<T>)
    requires AllOk(rs)
    ensures |vs| == |rs| && forall i :: 0 <= i < |rs| ==> rs[i] == Ok(vs[i])
  {
    seq(|rs|, i requires 0 <= i < |rs| => rs[i].value)
  }

  /** `list(itertools.chain(*xss))`, or a list grown by `extend` with each of
      `xss` in turn. */
  function Flatten(xss: seq<seq<Json>>): seq<Json>
    decreases |xss|
  {
    if xss == [] then [] else Flatten(xss[..|xss| - 1]) + xss[|xss| - 1]
  }

  /** A value is in the flattened list exactly when it is in one of the parts. */
  lemma {:induction false} FlattenMembers(xss: seq<seq<Json>>, x: Json)
    ensures x in Flatten(xss) <==> exists i :: 0 <= i < |xss| && x in xss[i]
    decreases |xss|
  {
    if xss != [] {
      var init := xss[..|xss| - 1];
      FlattenMembers(init, x);
      assert forall i :: 0 <= i < |init| ==> init[i] == xss[i];
      if x in Flatten(xss) && x !in xss[|xss| - 1] {
        var i :| 0 <= i < |init| && x in init[i];
        assert x in xss[i];
      }
    }
  }

  /** Flattening one part more appends that part. */
  lemma FlattenSnoc(xss: seq<seq<Json>>, k: nat)
    requires k < |xss|
    ensures Flatten(xss[..k + 1]) == Flatten(xss[..k]) + xss[k]
  {
    assert xss[..k + 1][..k] == xss[..k];
  }

  /** One more returned part extends the flattened prefix by that part. */
  lemma FlattenValuesSnoc(parts: seq<Outcome<seq<Json>>>, i: nat)
    requires i < |parts| && AllOk(parts[..i]) && parts[i].Ok?
    ensures AllOk(parts[..i + 1])
    ensures Flatten(Values(parts[..i + 1])) == Flatten(Values(parts[..i])) + parts[i].value
  {
    assert parts[..i + 1] == parts[..i] + [parts[i]];
    var next := Values(parts[..i + 1]);
    assert next[..i] == Values(parts[..i]);
  }

  /** `str(j)` for a scalar: a string is itself, an integer its decimal
      digits, a boolean `True` or `False`, `None` the word `None`. */
  function PyStr(j: Json): (r: string)
    requires Hashable(j)
    ensures j.JStr? ==> r == j.s
    ensures j.JNum? ==> r == IntToString(j.n)
  {
    match j
    case JStr(s) => s
    case JNum(n) => IntToString(n)
    case JBool(b) => if b then "True" else "False"
    case JNull => "None"
  }
}
