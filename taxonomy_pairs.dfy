/** `validate_taxonomy_pairs` of the scripts directory: the same pairing as
    the root script, but `flat` chains together every top-level value of the
    taxonomy, and no error is caught. */
module TaxonomyPairs {
  import opened Json
  import opened Python
  import opened TaxonomySync
  import TaxonomyCheck

  /** `list(it.chain.from_iterable(tax.values()))`. */
  function ChainedValues(tax: Json): Outcome<seq<Json>>
  {
    var values := PyValues(tax);
    if values.Raised? then Raised
    else
      var vs := values.value;
      var parts := seq(|vs|, i requires 0 <= i < |vs| => PyIter(vs[i]));
      if AllOk(parts) then Ok(Flatten(Values(parts))) else Raised
  }

  /** For a taxonomy whose values are all lists, `flat` is those lists one
      after another in key order; its members are exactly theirs. */
  lemma ChainedListValues(tax: Json, lists: seq<seq<Json>>, x: Json)
    requires tax.JObj? && |lists| == |tax.fields|
    requires forall i :: 0 <= i < |tax.fields| ==> tax.fields[i].1 == JArr(lists[i])
    ensures ChainedValues(tax) == Ok(Flatten(lists))
    ensures x in ChainedValues(tax).value <==> exists i :: 0 <= i < |tax.fields| && x in lists[i]
  {
    var vs := PyValues(tax).value;
    var parts := seq(|vs|, i requires 0 <= i < |vs| => PyIter(vs[i]));
    assert forall i :: 0 <= i < |parts| ==> parts[i] == Ok(lists[i]);
    assert Values(parts) == lists;
    FlattenMembers(lists, x);
  }

  /** A taxonomy that is no dict, or has a value that is not iterable,
      raises. */
  lemma ChainRaises(tax: Json)
    requires !tax.JObj? || exists i :: 0 <= i < |tax.fields| && !PyIter(tax.fields[i].1).Ok?
    ensures ChainedValues(tax).Raised?
  {
    if tax.JObj? {
      var i :| 0 <= i < |tax.fields| && !PyIter(tax.fields[i].1).Ok?;
      var vs := PyValues(tax).value;
      var parts := seq(|vs|, i requires 0 <= i < |vs| => PyIter(vs[i]));
      assert parts[i] == PyIter(tax.fields[i].1);
      assert !AllOk(parts);
    }
  }

  /** The verdict on one enum file. */
  function PairStatus(file: TaxonomyCheck.EnumFile, taxonomies: TaxonomyCheck.Taxonomies): Status {
    var taxName := TaxonomyFileName(file.name);
    if taxName !in taxonomies then TaxonomyMissing(file.name)
    else if file.doc.None? then Failed(file.name)
    else
      var enumValue := Subscript(file.doc.value, "enum");
      if enumValue.Raised? || taxonomies[taxName].None? then Failed(file.name)
      else
        var flat := ChainedValues(taxonomies[taxName].value);
        if flat.Raised? then Failed(file.name)
        else CompareValues(file.name, enumValue.value, flat.value)
  }

  /** The whole run: the pairs in glob order up to the first that fails. */
  function ValidateTaxonomyPairs(files: seq<TaxonomyCheck.EnumFile>, taxonomies: TaxonomyCheck.Taxonomies): Status {
    FirstStop(seq(|files|, i requires 0 <= i < |files| => PairStatus(files[i], taxonomies)))
  }

  /** The run reports success exactly when every pair is in sync; otherwise
      its result is the verdict on some pair, all earlier pairs being in
      sync. */
  lemma ValidateTaxonomyPairsSpec(files: seq<TaxonomyCheck.EnumFile>, taxonomies: TaxonomyCheck.Taxonomies)
    ensures ValidateTaxonomyPairs(files, taxonomies) == InSync <==>
      forall i :: 0 <= i < |files| ==> PairStatus(files[i], taxonomies) == InSync
    ensures ValidateTaxonomyPairs(files, taxonomies) != InSync ==>
      exists i :: 0 <= i < |files| && PairStatus(files[i], taxonomies) == ValidateTaxonomyPairs(files, taxonomies)
        && forall j :: 0 <= j < i ==> PairStatus(files[j], taxonomies) == InSync
  {
    var ss := seq(|files|, i requires 0 <= i < |files| => PairStatus(files[i], taxonomies));
    FirstStopSpec(ss);
    assert forall i :: 0 <= i < |files| ==> ss[i] == PairStatus(files[i], taxonomies);
    assert ValidateTaxonomyPairs(files, taxonomies) == FirstStop(ss);
  }

  /** A missing taxonomy ends the run at that pair, whatever its enum file
      holds. */
  lemma MissingTaxonomyAborts(name: string, doc: Option<Json>, taxonomies: TaxonomyCheck.Taxonomies)
    requires TaxonomyFileName(name) !in taxonomies
    ensures PairStatus(TaxonomyCheck.EnumFile(name, doc), taxonomies) == TaxonomyMissing(name)
  {
  }

  /** With both files loaded and hashable values, a pair is rejected exactly
      when one of the two Python set differences is non-empty: some value on
      one side equals (Python `==`, so `True == 1`) no value on the other.
      The rejection reports both differences. */
  lemma RejectedIffDifference(file: TaxonomyCheck.EnumFile, taxonomies: TaxonomyCheck.Taxonomies,
                              values: seq<Json>, tax: Json, flat: seq<Json>)
    requires TaxonomyFileName(file.name) in taxonomies && taxonomies[TaxonomyFileName(file.name)] == Some(tax)
    requires file.doc.Some? && Subscript(file.doc.value, "enum") == Ok(JArr(values))
    requires ChainedValues(tax) == Ok(flat)
    requires forall i :: 0 <= i < |values| ==> Hashable(values[i])
    requires forall i :: 0 <= i < |flat| ==> Hashable(flat[i])
    ensures PairStatus(file, taxonomies) != InSync <==>
      PyDiff(SetOf(values), SetOf(flat)) != {} || PyDiff(SetOf(flat), SetOf(values)) != {}
    ensures PairStatus(file, taxonomies) != InSync ==>
      PairStatus(file, taxonomies) ==
        Mismatch(file.name, PyDiff(SetOf(values), SetOf(flat)), PyDiff(SetOf(flat), SetOf(values)))
  {
    SetOfSpec(values);
    SetOfSpec(flat);
    EmptyDiffsIffSameClasses(SetOf(values), SetOf(flat));
  }
}
