/** The shot migration: a shot's `imageFiles` list is replaced by an
    `assets` list holding one image reference per file. */
module MigrateAssets {
  import opened Json
  import opened Python

  /** `{"path": p, "kind": "image", "role": "reference"}`. */
  function Asset(path: Json): Json {
    JObj([("path", path), ("kind", JStr("image")), ("role", JStr("reference"))])
  }

  /** The comprehension over the popped `imageFiles`. */
  function Assets(paths: seq<Json>): (r: seq<Json>)
    ensures |r| == |paths| && forall i :: 0 <= i < |paths| ==> r[i] == Asset(paths[i])
  {
    seq(|paths|, i requires 0 <= i < |paths| => Asset(paths[i]))
  }

  /** `migrate_shot(shot)` as a value: a dict with `imageFiles` loses that
      member and gets (or has replaced) `assets`; a value without `imageFiles`
      is returned as it is. A non-iterable `imageFiles`, a list or string
      that holds `"imageFiles"` (which has no `pop(str)`) and a scalar shot
      (for which `in` fails) raise. */
  function MigrateShot(shot: Json): Outcome<Json> {
    var has := PyIn("imageFiles", shot);
    if has.Raised? then Raised
    else if !has.value then Ok(shot)
    else if !shot.JObj? then Raised
    else
      var paths := PyIter(Lookup(shot.fields, "imageFiles").value);
      if paths.Raised? then Raised
      else Ok(JObj(Put(Remove(shot.fields, "imageFiles"), "assets", JArr(Assets(paths.value)))))
  }

  /** A parsed shot record, changed in place. */
  class ShotRecord {
    var fields: Fields

    constructor(fields: Fields)
      ensures this.fields == fields
    {
      this.fields := fields;
    }

    /** `migrate_shot(shot)` on this record: `imageFiles` is popped, then
        `assets` assigned. When iterating the popped value raises, the record
        is left without `imageFiles` and the call reports failure. */
    method Migrate() returns (ok: bool)
      modifies this
      ensures ok <==> MigrateShot(JObj(old(fields))).Ok?
      ensures ok ==> JObj(fields) == MigrateShot(JObj(old(fields))).value
      ensures !ok ==> fields == Remove(old(fields), "imageFiles")
    {
      if HasKey(fields, "imageFiles") {
        var images := Lookup(fields, "imageFiles").value;
        fields := Remove(fields, "imageFiles");
        var paths := PyIter(images);
        if paths.Raised? {
          return false;
        }
        fields := Put(fields, "assets", JArr(Assets(paths.value)));
      }
      return true;
    }
  }

  // ----- what the migration promises -----

  /** After migrating a dict with `imageFiles`, there is no `imageFiles`,
      `assets` holds one image reference per former file in order, and every
      other member reads as before. */
  lemma MigrateShotSpec(f: Fields, paths: seq<Json>)
    requires Lookup(f, "imageFiles") == Some(JArr(paths))
    ensures MigrateShot(JObj(f)).Ok?
    ensures var g := MigrateShot(JObj(f)).value.fields;
      !HasKey(g, "imageFiles")
      && Lookup(g, "assets") == Some(JArr(Assets(paths)))
      && forall k :: k != "imageFiles" && k != "assets" ==> Lookup(g, k) == Lookup(f, k)
  {
    var r := Remove(f, "imageFiles");
    var g := Put(r, "assets", JArr(Assets(paths)));
    PutSemantics(r, "assets", JArr(Assets(paths)));
    assert !HasKey(g, "imageFiles") by {
      LookupOtherPut(r, "assets", JArr(Assets(paths)), "imageFiles");
    }
    forall k | k != "imageFiles" && k != "assets" ensures Lookup(g, k) == Lookup(f, k) {
      LookupRemove(f, "imageFiles", k);
    }
  }

  /** A dict without `imageFiles` is returned unchanged. */
  lemma NoImageFilesUnchanged(f: Fields)
    requires !HasKey(f, "imageFiles")
    ensures MigrateShot(JObj(f)) == Ok(JObj(f))
  {
  }

  /** Migrating a migrated shot changes nothing. */
  lemma MigrateShotIdempotent(shot: Json)
    requires MigrateShot(shot).Ok?
    ensures MigrateShot(MigrateShot(shot).value) == MigrateShot(shot)
  {
    var r := MigrateShot(shot).value;
    if r != shot {
      var f := Remove(shot.fields, "imageFiles");
      var v := JArr(Assets(PyIter(Lookup(shot.fields, "imageFiles").value).value));
      assert !HasKey(Put(f, "assets", v), "imageFiles") by {
        LookupOtherPut(f, "assets", v, "imageFiles");
      }
    }
  }

  /** The data half of `migrate_file`: every shot of a list migrated, a
      single dict migrated, anything else left as it is. */
  function MigrateFile(data: Json): (r: Outcome<Json>)
    ensures data.JObj? ==> r == MigrateShot(data)
    ensures !data.JObj? && !data.JArr? ==> r == Ok(data)
    ensures data.JArr? ==>
      (r.Ok? <==> forall i :: 0 <= i < |data.items| ==> MigrateShot(data.items[i]).Ok?)
    ensures data.JArr? && r.Ok? ==>
      (r.value.JArr? && |r.value.items| == |data.items|
       && forall i :: 0 <= i < |data.items| ==> MigrateShot(data.items[i]) == Ok(r.value.items[i]))
  {
    match data
    case JArr(shots) =>
      var rs := seq(|shots|, i requires 0 <= i < |shots| => MigrateShot(shots[i]));
      assert forall i :: 0 <= i < |shots| ==> rs[i] == MigrateShot(shots[i]);
      if AllOk(rs) then Ok(JArr(Values(rs))) else Raised
    case JObj(_) => MigrateShot(data)
    case _ => Ok(data)
  }

  /** Running the migration over a file twice yields what running it once
      did. */
  lemma MigrateFileIdempotent(data: Json)
    requires MigrateFile(data).Ok?
    ensures MigrateFile(MigrateFile(data).value) == MigrateFile(data)
  {
    match data
    case JArr(shots) =>
      var r := MigrateFile(data).value;
      forall i | 0 <= i < |shots| ensures MigrateShot(r.items[i]) == Ok(r.items[i]) {
        MigrateShotIdempotent(shots[i]);
      }
      var rs := seq(|r.items|, i requires 0 <= i < |r.items| => MigrateShot(r.items[i]));
      assert Values(rs) == r.items;
    case JObj(_) =>
      MigrateShotIdempotent(data);
    case _ =>
  }
}
