/** The repository-root consistency script: for each enum file, in glob
    order, it finds the paired taxonomy, reads the enum's `enum` list, builds
    `flat` by extending it with each taxonomy property's values, and stops at
    the first pair whose value sets differ. */
module TaxonomyCheck {
  import opened Json
  import opened Python
  import opened TaxonomySync

  /** An enum file the glob found: its name and its parsed content, `None`
      when it does not parse. */
  datatype EnumFile = EnumFile(name: string, doc: Option<Json>)

  /** The files of `schemas/taxonomy/` by name: a name is present exactly when
      the file exists, with `None` when it does not load. */
  type Taxonomies = map<string, Option<Json>>

  /** `prop["items"]["enum"]` when `"items" in prop and "enum" in
      prop["items"]`, else `prop["enum"]` when `"enum" in prop`, else
      nothing: what one property adds to `flat`. */
  function PropertyValues(prop: Json): Outcome<seq<Json>>
  {
    var hasItems := PyIn("items", prop);
    if hasItems.Raised? then Raised
    else
      var items := if hasItems.value then Subscript(prop, "items") else Ok(JNull);
      if items.Raised? then Raised
      else
        var itemsHasEnum := if hasItems.value then PyIn("enum", items.value) else Ok(false);
        if itemsHasEnum.Raised? then Raised
        else if itemsHasEnum.value then
          var e := Subscript(items.value, "enum");
          if e.Raised? then Raised else PyIter(e.value)
        else
          var hasEnum := PyIn("enum", prop);
          if hasEnum.Raised? then Raised
          else if hasEnum.value then
            var e := Subscript(prop, "enum");
            if e.Raised? then Raised else PyIter(e.value)
          else Ok([])
  }

  /** The cases of one property: `items.enum` when `items` is a dict with
      `enum`; otherwise the sibling `enum`; otherwise nothing. A property that
      is no container makes `in` raise. */
  lemma PropertyValuesCases(prop: Json)
    ensures prop.JObj? && Lookup(prop.fields, "items").Some? && Lookup(prop.fields, "items").value.JObj?
            && Lookup(Lookup(prop.fields, "items").value.fields, "enum").Some? ==>
      PropertyValues(prop) == PyIter(Lookup(Lookup(prop.fields, "items").value.fields, "enum").value)
    ensures prop.JObj? && !HasKey(prop.fields, "items") && Lookup(prop.fields, "enum").Some? ==>
      PropertyValues(prop) == PyIter(Lookup(prop.fields, "enum").value)
    ensures prop.JObj? && Lookup(prop.fields, "items").Some? && Lookup(prop.fields, "items").value.JObj?
            && !HasKey(Lookup(prop.fields, "items").value.fields, "enum") && Lookup(prop.fields, "enum").Some? ==>
      PropertyValues(prop) == PyIter(Lookup(prop.fields, "enum").value)
    ensures prop.JObj? && !HasKey(prop.fields, "items") && !HasKey(prop.fields, "enum") ==> PropertyValues(prop) == Ok([])
    ensures !(prop.JObj? || prop.JArr? || prop.JStr?) ==> PropertyValues(prop).Raised?
  {
  }

  /** `items.enum` wins over a sibling `enum`. */
  lemma ItemsEnumWins(values: seq<Json>, other: Json, rest: Fields)
    ensures PropertyValues(JObj([("items", JObj([("enum", JArr(values))])), ("enum", other)] + rest))
            == Ok(values)
  {
    var prop := [("items", JObj([("enum", JArr(values))])), ("enum", other)] + rest;
    LookupFirst(prop, "items", 0);
    LookupFirst([("enum", JArr(values))], "enum", 0);
  }

  /** `flat` for the properties' values in order: each contribution
      appended, or the exception of the first property that raises. */
  function FlatOf(props: seq<Json>): (r: Outcome<seq<Json>>)
    ensures r.Ok? <==> AllOk(seq(|props|, i requires 0 <= i < |props| => PropertyValues(props[i])))
  {
    var parts := seq(|props|, i requires 0 <= i < |props| => PropertyValues(props[i]));
    if AllOk(parts) then Ok(Flatten(Values(parts))) else Raised
  }

  /** `flat` for a taxonomy: its `properties` dict's values, flattened. */
  function TaxonomyFlat(tax: Json): (r: Outcome<seq<Json>>)
    ensures r.Ok? ==> Subscript(tax, "properties").Ok? && PyValues(Subscript(tax, "properties").value).Ok?
    ensures r.Ok? ==> r == FlatOf(PyValues(Subscript(tax, "properties").value).value)
  {
    var props := Subscript(tax, "properties");
    if props.Raised? then Raised
    else
      var values := PyValues(props.value);
      if values.Raised? then Raised else FlatOf(values.value)
  }

  /** A value is in `flat` exactly when some property contributes it. */
  lemma FlatMembers(props: seq<Json>, x: Json)
    requires FlatOf(props).Ok?
    ensures x in FlatOf(props).value <==>
      exists i :: 0 <= i < |props| && PropertyValues(props[i]).Ok? && x in PropertyValues(props[i]).value
  {
    var parts := seq(|props|, i requires 0 <= i < |props| => PropertyValues(props[i]));
    var vs := Values(parts);
    FlattenMembers(vs, x);
    if x in FlatOf(props).value {
      var i :| 0 <= i < |vs| && x in vs[i];
      assert PropertyValues(props[i]).Ok? && x in PropertyValues(props[i]).value;
    }
    if exists i :: 0 <= i < |props| && PropertyValues(props[i]).Ok? && x in PropertyValues(props[i]).value {
      var i :| 0 <= i < |props| && PropertyValues(props[i]).Ok? && x in PropertyValues(props[i]).value;
      assert x in vs[i];
    }
  }

  /** The flattening loop over `tax["properties"].values()`. */
  method FlattenProperties(tax: Json) returns (flat: Outcome<seq<Json>>)
    ensures flat == TaxonomyFlat(tax)
  {
    var props := Subscript(tax, "properties");
    if props.Raised? {
      return Raised;
    }
    var values := PyValues(props.value);
    if values.Raised? {
      return Raised;
    }
    var vs := values.value;
    ghost var parts := seq(|vs|, i requires 0 <= i < |vs| => PropertyValues(vs[i]));
    var acc: seq<Json> := [];
    var i := 0;
    while i < |vs|
      invariant 0 <= i <= |vs|
      invariant AllOk(parts[..i])
      invariant acc == Flatten(Values(parts[..i]))
    {
      var part := PropertyValues(vs[i]);
      if part.Raised? {
        assert !AllOk(parts) by {
          assert parts[i] == part;
        }
        return Raised;
      }
      FlattenValuesSnoc(parts, i);
      acc := acc + part.value;
      i := i + 1;
    }
    assert parts[..|vs|] == parts;
    flat := Ok(acc);
  }

  /** The verdict on one enum file: the taxonomy must exist before anything
      is read; an unparsable enum, a missing `enum` member, an unloadable
      taxonomy or an exception while flattening or building the sets ends the
      script; otherwise the value sets decide. */
  function PairStatus(file: EnumFile, taxonomies: Taxonomies): Status {
    var taxName := TaxonomyFileName(file.name);
    if taxName !in taxonomies then TaxonomyMissing(file.name)
    else if file.doc.None? then Failed(file.name)
    else
      var enumValue := Subscript(file.doc.value, "enum");
      if enumValue.Raised? || taxonomies[taxName].None? then Failed(file.name)
      else
        var flat := TaxonomyFlat(taxonomies[taxName].value);
        if flat.Raised? then Failed(file.name)
        else CompareValues(file.name, enumValue.value, flat.value)
  }

  /** One iteration of the outer loop. */
  method CheckPair(file: EnumFile, taxonomies: Taxonomies) returns (status: Status)
    ensures status == PairStatus(file, taxonomies)
  {
    var taxName := TaxonomyFileName(file.name);
    if taxName !in taxonomies {
      return TaxonomyMissing(file.name);
    }
    if file.doc.None? {
      return Failed(file.name);
    }
    var enumValue := Subscript(file.doc.value, "enum");
    if enumValue.Raised? {
      return Failed(file.name);
    }
    var tax := taxonomies[taxName];
    if tax.None? {
      return Failed(file.name);
    }
    var flat := FlattenProperties(tax.value);
    if flat.Raised? {
      return Failed(file.name);
    }
    status := CompareValues(file.name, enumValue.value, flat.value);
  }

  /** The per-pair statuses, in glob order. */
  function Statuses(files: seq<EnumFile>, taxonomies: Taxonomies): (ss: seq<Status>)
    ensures |ss| == |files| && forall i :: 0 <= i < |files| ==> ss[i] == PairStatus(files[i], taxonomies)
  {
    seq(|files|, i requires 0 <= i < |files| => PairStatus(files[i], taxonomies))
  }

  /** The whole script: the first pair that is not in sync ends it. */
  method ValidateAll(files: seq<EnumFile>, taxonomies: Taxonomies) returns (status: Status)
    ensures status == FirstStop(Statuses(files, taxonomies))
  {
    ghost var ss := Statuses(files, taxonomies);
    var i := 0;
    while i < |files|
      invariant 0 <= i <= |files|
      invariant FirstStop(ss[..i]) == InSync
    {
      FirstStopSnoc(ss, i);
      var s := CheckPair(files[i], taxonomies);
      if s != InSync {
        assert s == ss[i];
        FirstStopPrefix(ss, i + 1);
        return s;
      }
      i := i + 1;
    }
    assert ss[..|files|] == ss;
    status := InSync;
  }

  /** A stop within a prefix is the stop of the whole run. */
  lemma {:induction false} FirstStopPrefix(ss: seq<Status>, k: nat)
    requires k <= |ss| && FirstStop(ss[..k]) != InSync
    ensures FirstStop(ss) == FirstStop(ss[..k])
    decreases k
  {
    if ss[0] == InSync {
      assert ss[..k][0] == ss[0];
      assert ss[..k][1..] == ss[1..][..k - 1];
      FirstStopPrefix(ss[1..], k - 1);
    } else {
      assert ss[..k][0] == ss[0];
    }
  }

  // ----- what a pair's verdict depends on -----

  /** A missing taxonomy ends the run before the enum file is read: the
      verdict is the same whatever the enum file holds. */
  lemma MissingTaxonomyFirst(name: string, doc: Option<Json>, taxonomies: Taxonomies)
    requires TaxonomyFileName(name) !in taxonomies
    ensures PairStatus(EnumFile(name, doc), taxonomies) == TaxonomyMissing(name)
  {
  }

  /** With both files loaded and hashable values, the pair passes exactly
      when every enum value equals (Python `==`, so `True == 1`) some value
      of `flat` and every value of `flat` equals some enum value; otherwise
      it reports both differences of the two Python sets. */
  lemma PassIffSameSets(file: EnumFile, taxonomies: Taxonomies, values: seq<Json>, tax: Json, flat: seq<Json>)
    requires TaxonomyFileName(file.name) in taxonomies && taxonomies[TaxonomyFileName(file.name)] == Some(tax)
    requires file.doc.Some? && Subscript(file.doc.value, "enum") == Ok(JArr(values))
    requires TaxonomyFlat(tax) == Ok(flat)
    requires forall i :: 0 <= i < |values| ==> Hashable(values[i])
    requires forall i :: 0 <= i < |flat| ==> Hashable(flat[i])
    ensures PairStatus(file, taxonomies) == InSync <==> Covers(values, flat) && Covers(flat, values)
    ensures PairStatus(file, taxonomies) != InSync ==>
      PairStatus(file, taxonomies) ==
        Mismatch(file.name, PyDiff(SetOf(values), SetOf(flat)), PyDiff(SetOf(flat), SetOf(values)))
  {
    SameClassesIffCovers(values, flat);
  }
}
