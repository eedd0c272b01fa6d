/** JSON values as the scripts see them after parsing, and the dictionary
    operations they perform on JSON objects.

    An object keeps its members in insertion order, as both JavaScript
    objects (for non-integer keys) and Python dicts do. */
module Json {

  datatype Option<T> = None | Some(value: T)

  datatype Json =
    | JNull
    | JBool(b: bool)
    | JNum(n: int)
    | JStr(s: string)
    | JArr(items: seq<Json>)
    | JObj(fields: seq<(string, Json)>)

  /** The members of a JSON object, in order. */
  type Fields = seq<(string, Json)>

  /** The member names of an object, in order. */
  function Keys(f: Fields): (ks: seq<string>)
    ensures |ks| == |f|
    ensures forall i :: 0 <= i < |f| ==> ks[i] == f[i].0
  {
    seq(|f|, i requires 0 <= i < |f| => f[i].0)
  }

  predicate HasKey(f: Fields, k: string) {
    exists i :: 0 <= i < |f| && f[i].0 == k
  }

  /** No member name occurs twice: what every parsed object satisfies. */
  predicate UniqueKeys(f: Fields) {
    forall i, j :: 0 <= i < j < |f| ==> f[i].0 != f[j].0
  }

  /** `d[k]` / `d.get(k)`: the value of the first member named `k`. */
  function Lookup(f: Fields, k: string): (r: Option<Json>)
    ensures r.Some? <==> HasKey(f, k)
    ensures r.Some? ==> exists i :: 0 <= i < |f| && f[i] == (k, r.value)
  {
    if f == [] then None
    else if f[0].0 == k then Some(f[0].1)
    else
      var r := Lookup(f[1..], k);
      assert r.Some? ==> exists i :: 0 <= i < |f[1..]| && f[1..][i] == (k, r.value);
      assert HasKey(f[1..], k) ==> HasKey(f, k) by {
        if HasKey(f[1..], k) {
          var i :| 0 <= i < |f[1..]| && f[1..][i].0 == k;
          assert f[i + 1].0 == k;
        }
      }
      assert HasKey(f, k) ==> HasKey(f[1..], k) by {
        if HasKey(f, k) {
          var i :| 0 <= i < |f| && f[i].0 == k;
          assert i > 0 && f[1..][i - 1].0 == k;
        }
      }
      if r.Some? then
        var i :| 0 <= i < |f[1..]| && f[1..][i] == (k, r.value);
        assert f[i + 1] == (k, r.value);
        r
      else r
  }

  /** Where the members of `[h] + t` named `k` are. */
  lemma HasKeyCons(h: (string, Json), t: Fields, k: string)
    ensures HasKey([h] + t, k) <==> h.0 == k || HasKey(t, k)
  {
    var g := [h] + t;
    assert g[0] == h;
    if HasKey(g, k) && h.0 != k {
      var i :| 0 <= i < |g| && g[i].0 == k;
      assert t[i - 1].0 == k;
    }
    if HasKey(t, k) {
      var i :| 0 <= i < |t| && t[i].0 == k;
      assert g[i + 1].0 == k;
    }
  }

  /** `d.pop(k)` / `delete d[k]`: every member named `k` removed, the rest in order. */
  function Remove(f: Fields, k: string): (r: Fields)
    ensures !HasKey(r, k)
    ensures forall k' :: k' != k ==> HasKey(r, k') == HasKey(f, k')
    ensures forall m :: m in r ==> m in f
    ensures |r| <= |f|
  {
    if f == [] then []
    else
      assert f == [f[0]] + f[1..];
      var rest := Remove(f[1..], k);
      assert forall k' :: HasKey(f, k') <==> f[0].0 == k' || HasKey(f[1..], k') by {
        forall k' { HasKeyCons(f[0], f[1..], k'); }
      }
      if f[0].0 == k then rest
      else
        assert forall k' :: HasKey([f[0]] + rest, k') <==> f[0].0 == k' || HasKey(rest, k') by {
          forall k' { HasKeyCons(f[0], rest, k'); }
        }
        [f[0]] + rest
  }

  /** `d[k] = v`: an existing member keeps its place and takes the new value;
      a new member is appended. */
  function Put(f: Fields, k: string, v: Json): (r: Fields)
  {
    if HasKey(f, k) then
      seq(|f|, i requires 0 <= i < |f| => if f[i].0 == k then (k, v) else f[i])
    else
      f + [(k, v)]
  }

  lemma {:induction false} LookupFirst(f: Fields, k: string, i: nat)
    requires i < |f| && f[i].0 == k
    requires forall j :: 0 <= j < i ==> f[j].0 != k
    ensures Lookup(f, k) == Some(f[i].1)
  {
    if i > 0 {
      LookupFirst(f[1..], k, i - 1);
    }
  }

  /** With unique names, each member is what its name looks up. */
  lemma LookupUnique(f: Fields, i: nat)
    requires UniqueKeys(f) && i < |f|
    ensures Lookup(f, f[i].0) == Some(f[i].1)
  {
    LookupFirst(f, f[i].0, i);
  }

  lemma {:induction false} LookupRemove(f: Fields, k: string, k': string)
    requires k' != k
    ensures Lookup(Remove(f, k), k') == Lookup(f, k')
  {
    if f != [] {
      LookupRemove(f[1..], k, k');
    }
  }

  /** After `d[k] = v`, `d[k]` is `v`, every other member reads as before,
      and the member names are the old ones, plus `k` at the end if it is new. */
  lemma PutSemantics(f: Fields, k: string, v: Json)
    ensures Lookup(Put(f, k, v), k) == Some(v)
    ensures forall k' :: k' != k ==> Lookup(Put(f, k, v), k') == Lookup(f, k')
    ensures Keys(Put(f, k, v)) == if HasKey(f, k) then Keys(f) else Keys(f) + [k]
    ensures UniqueKeys(f) ==> UniqueKeys(Put(f, k, v))
  {
    PutKeys(f, k, v);
    var r := Put(f, k, v);
    assert HasKey(r, k) by {
      if HasKey(f, k) {
        var i :| 0 <= i < |f| && f[i].0 == k;
        assert r[i].0 == k;
      } else {
        assert r[|f|].0 == k;
      }
    }
    var i :| 0 <= i < |r| && r[i].0 == k && forall j :: 0 <= j < i ==> r[j].0 != k by {
      FirstIndex(r, k);
    }
    LookupFirst(r, k, i);
    forall k' | k' != k ensures Lookup(r, k') == Lookup(f, k') {
      LookupOtherPut(f, k, v, k');
    }
  }

  /** `d[k] = v` keeps the member names, appending `k` when it is new. */
  lemma PutKeys(f: Fields, k: string, v: Json)
    ensures Keys(Put(f, k, v)) == if HasKey(f, k) then Keys(f) else Keys(f) + [k]
    ensures UniqueKeys(f) ==> UniqueKeys(Put(f, k, v))
  {
  }

  lemma FirstIndex(f: Fields, k: string)
    requires HasKey(f, k)
    ensures exists i :: 0 <= i < |f| && f[i].0 == k && forall j :: 0 <= j < i ==> f[j].0 != k
  {
    var i :| 0 <= i < |f| && f[i].0 == k;
    while exists j :: 0 <= j < i && f[j].0 == k
      invariant 0 <= i < |f| && f[i].0 == k
      decreases i
    {
      var j :| 0 <= j < i && f[j].0 == k;
      i := j;
    }
  }

  lemma {:induction false} LookupOtherPut(f: Fields, k: string, v: Json, k': string)
    requires k' != k
    ensures Lookup(Put(f, k, v), k') == Lookup(f, k')
  {
    if HasKey(f, k) {
      ReplaceValuesLookup(f, k, v, k');
    } else {
      AppendLookup(f, k, v, k');
    }
  }

  lemma {:induction false} ReplaceValuesLookup(f: Fields, k: string, v: Json, k': string)
    requires k' != k
    ensures Lookup(seq(|f|, i requires 0 <= i < |f| => if f[i].0 == k then (k, v) else f[i]), k') == Lookup(f, k')
  {
    var r := seq(|f|, i requires 0 <= i < |f| => if f[i].0 == k then (k, v) else f[i]);
    if f != [] {
      var r' := seq(|f[1..]|, i requires 0 <= i < |f[1..]| => if f[1..][i].0 == k then (k, v) else f[1..][i]);
      assert r[1..] == r';
      ReplaceValuesLookup(f[1..], k, v, k');
    }
  }

  lemma {:induction false} AppendLookup(f: Fields, k: string, v: Json, k': string)
    requires k' != k
    ensures Lookup(f + [(k, v)], k') == Lookup(f, k')
  {
    if f != [] {
      assert (f + [(k, v)])[1..] == f[1..] + [(k, v)];
      AppendLookup(f[1..], k, v, k');
    }
  }

  /** For an object with unique member names, reading `d[k]` depends only on
      which members it has, not on their order. */
  lemma LookupOfPermutation(f: Fields, g: Fields, k: string)
    requires UniqueKeys(f) && multiset(f) == multiset(g)
    ensures Lookup(f, k) == Lookup(g, k)
  {
    assert forall p :: p in f <==> p in g by {
      forall p ensures p in f <==> p in g {
        assert p in f <==> p in multiset(f);
        assert p in g <==> p in multiset(g);
      }
    }
    var rf := Lookup(f, k);
    var rg := Lookup(g, k);
    assert HasKey(f, k) <==> HasKey(g, k) by {
      if HasKey(f, k) {
        var i :| 0 <= i < |f| && f[i].0 == k;
        assert f[i] in g;
        var j :| 0 <= j < |g| && g[j] == f[i];
      }
      if HasKey(g, k) {
        var j :| 0 <= j < |g| && g[j].0 == k;
        assert g[j] in f;
        var i :| 0 <= i < |f| && f[i] == g[j];
      }
    }
    if rf.Some? {
      var j :| 0 <= j < |g| && g[j] == (k, rg.value);
      assert (k, rg.value) in f;
      var i :| 0 <= i < |f| && f[i] == (k, rf.value);
      var i' :| 0 <= i' < |f| && f[i'] == (k, rg.value);
      assert i == i';
    }
  }

  /** `d[k] = v` for each entry in turn. */
  function PutAll(f: Fields, entries: Fields): Fields
    decreases |entries|
  {
    if entries == [] then f
    else
      var last := entries[|entries| - 1];
      Put(PutAll(f, entries[..|entries| - 1]), last.0, last.1)
  }

  /** After the puts, the names are the old ones plus those of the entries,
      and unique names stay unique. */
  lemma {:induction false} PutAllKeys(f: Fields, entries: Fields)
    ensures forall k :: HasKey(PutAll(f, entries), k) <==> HasKey(f, k) || HasKey(entries, k)
    ensures UniqueKeys(f) ==> UniqueKeys(PutAll(f, entries))
    decreases |entries|
  {
    if entries != [] {
      var init := entries[..|entries| - 1];
      var last := entries[|entries| - 1];
      var prev := PutAll(f, init);
      PutAllKeys(f, init);
      PutSemantics(prev, last.0, last.1);
      assert entries == init + [last];
      forall k ensures HasKey(PutAll(f, entries), k) <==> HasKey(f, k) || HasKey(entries, k) {
        assert HasKey(Put(prev, last.0, last.1), k) <==> Lookup(Put(prev, last.0, last.1), k).Some?;
        assert HasKey(prev, k) <==> Lookup(prev, k).Some?;
        HasKeySnoc(init, last, k);
      }
    }
  }

  lemma HasKeySnoc(t: Fields, h: (string, Json), k: string)
    ensures HasKey(t + [h], k) <==> HasKey(t, k) || h.0 == k
  {
    var g := t + [h];
    assert g[|t|] == h;
    if HasKey(g, k) && h.0 != k {
      var i :| 0 <= i < |g| && g[i].0 == k;
      assert t[i].0 == k;
    }
    if HasKey(t, k) {
      var i :| 0 <= i < |t| && t[i].0 == k;
      assert g[i].0 == k;
    }
  }

  /** The last entry named `k` decides `d[k]`; a name no entry has reads as before. */
  lemma {:induction false} PutAllLastWins(f: Fields, entries: Fields, k: string)
    ensures !HasKey(entries, k) ==> Lookup(PutAll(f, entries), k) == Lookup(f, k)
    ensures forall i :: (0 <= i < |entries| && entries[i].0 == k &&
      forall j :: i < j < |entries| ==> entries[j].0 != k) ==>
        Lookup(PutAll(f, entries), k) == Some(entries[i].1)
    decreases |entries|
  {
    if entries != [] {
      var init := entries[..|entries| - 1];
      var last := entries[|entries| - 1];
      PutAllLastWins(f, init, k);
      PutSemantics(PutAll(f, init), last.0, last.1);
      HasKeySnoc(init, last, k);
      assert entries == init + [last];
      forall i | 0 <= i < |entries| && entries[i].0 == k &&
        (forall j :: i < j < |entries| ==> entries[j].0 != k)
        ensures Lookup(PutAll(f, entries), k) == Some(entries[i].1)
      {
        if i < |init| {
          assert init[i] == entries[i];
          assert forall j :: i < j < |init| ==> init[j] == entries[j];
        }
      }
    }
  }

  /** One more put extends the prefix by one entry. */
  lemma PutAllSnoc(f: Fields, entries: Fields, k: nat)
    requires k < |entries|
    ensures PutAll(f, entries[..k + 1]) == Put(PutAll(f, entries[..k]), entries[k].0, entries[k].1)
  {
    assert entries[..k + 1][..k] == entries[..k];
  }
}
