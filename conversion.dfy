/**
 * `Config.convert_data_with_fonction` and the two conversions built on it:
 * for every declared field, walk the field's `__`-separated path through the
 * loaded data and replace the value found at its end by the field's
 * converter applied to it.
 *
 * The walk is lenient: a key missing on the way is skipped and the walk goes
 * on from the level it had reached; the converter is applied only when the
 * last key was found, and no key is ever created.
 */
module NestedConversion {
  import opened Wrappers
  import opened JsonTree
  import opened FieldPath
  import opened Base

  /** `getattr(field, function_name)(value)`, for either hook. */
  type Converter = (Field, Conversion, Json) -> Json

  /**
   * Where a walk ended: the keys actually followed from the root, and whether
   * the last key was found there (the source's `parent is not None`).
   */
  datatype Landing = Landing(trail: Path, landed: bool)

  /**
   * The rest of the walk from `value`, reached from the root along `trail`,
   * when the previous lookup succeeded exactly if `landed`. Subscripting a
   * value that is not a dictionary raises TypeError, which nothing catches.
   */
  function Descend(value: Json, trail: Path, landed: bool, steps: seq<string>): (r: Result<Landing, Error>)
    ensures r.Success? ==> IsPrefix(trail, r.value.trail)
    ensures r.Success? && steps != [] && r.value.landed ==>
      |r.value.trail| > |trail| && r.value.trail[|r.value.trail| - 1] == steps[|steps| - 1]
    ensures r.Failure? ==> r.error == TypeError
    decreases |steps|
  {
    if steps == [] then Success(Landing(trail, landed))
    else if !value.Obj? then Failure(TypeError)
    else if steps[0] in value.members then
      Descend(value.members[steps[0]], trail + [steps[0]], true, steps[1..])
    else
      Descend(value, trail, false, steps[1..])
  }

  /**
   * The walk of one field name through `data`: it raises only TypeError, ends
   * at a location of the data, and, when the last key was found, ends on that key.
   */
  function Walk(data: Json, name: string): (r: Result<Landing, Error>)
    ensures r.Failure? ==> r.error == TypeError
    ensures r.Success? ==> Has(data, r.value.trail)
    ensures r.Success? && r.value.landed ==>
      r.value.trail != [] && r.value.trail[|r.value.trail| - 1] == Split(name)[|Split(name)| - 1]
  {
    DescendStaysInside(data, data, [], true, Split(name));
    Descend(data, [], true, Split(name))
  }

  /** Every key a walk follows exists: the walk ends at a location of the data. */
  lemma {:induction false} DescendStaysInside(root: Json, value: Json, trail: Path, landed: bool, steps: seq<string>)
    requires Get(root, trail) == Some(value)
    ensures Descend(value, trail, landed, steps).Success? ==> Has(root, Descend(value, trail, landed, steps).value.trail)
    decreases |steps|
  {
    if steps != [] && value.Obj? {
      if steps[0] in value.members {
        GetSnoc(root, trail, steps[0]);
        DescendStaysInside(root, value.members[steps[0]], trail + [steps[0]], true, steps[1..]);
      } else {
        DescendStaysInside(root, value, trail, false, steps[1..]);
      }
    }
  }

  /** The effect of one field on `data`. */
  function ConvertField(data: Json, name: string, field: Field, which: Conversion, conv: Converter): (r: Result<Json, Error>)
    ensures r.Failure? ==> r.error == TypeError
    ensures r.Success? ==>
      (r.value == data ||
       exists t :: t != [] && Has(data, t) && r.value == Put(data, t, conv(field, which, Get(data, t).value)))
  {
    match Walk(data, name)
    case Failure(e) => Failure(e)
    case Success(end) =>
      if end.landed then
        DescendStaysInside(data, data, [], true, Split(name));
        var t := end.trail;
        assert t != [];
        Success(Put(data, t, conv(field, which, Get(data, t).value)))
      else
        Success(data)
  }

  /** The fields in declaration order, each seeing the data as the previous ones left it. */
  function ConvertAll(fields: seq<(string, Field)>, data: Json, which: Conversion, conv: Converter): (r: Result<Json, Error>)
    ensures r.Failure? ==> r.error == TypeError
    decreases |fields|
  {
    if fields == [] then Success(data)
    else
      match ConvertField(data, fields[0].0, fields[0].1, which, conv)
      case Failure(e) => Failure(e)
      case Success(next) => ConvertAll(fields[1..], next, which, conv)
  }

  /**
   * The inner loop of the source: follow `steps` from `data`, remembering
   * the value reached and whether the last lookup succeeded.
   */
  method WalkPath(data: Json, steps: seq<string>) returns (r: Result<Landing, Error>, value: Json)
    ensures r == Descend(data, [], true, steps)
    ensures r.Success? ==> Get(data, r.value.trail) == Some(value)
  {
    value := data;
    var trail: Path := [];
    var landed := true;  // `parent is not None`
    var i := 0;
    while i < |steps|
      invariant 0 <= i <= |steps|
      invariant Get(data, trail) == Some(value)
      invariant Descend(value, trail, landed, steps[i..]) == Descend(data, [], true, steps)
    {
      var step := steps[i];
      if !value.Obj? {
        return Failure(TypeError), value;
      }
      if step in value.members {
        GetSnoc(data, trail, step);
        trail, value, landed := trail + [step], value.members[step], true;
      } else {
        landed := false;
      }
      i := i + 1;
    }
    r := Success(Landing(trail, landed));
  }

  /** `convert_data_with_fonction(data, function_name)` over `_meta.fields`. */
  method ConvertDataWithFunction(fields: seq<(string, Field)>, data: Json, which: Conversion, conv: Converter)
    returns (r: Result<Json, Error>)
    ensures r == ConvertAll(fields, data, which, conv)
  {
    var current := data;
    var k := 0;
    while k < |fields|
      invariant 0 <= k <= |fields|
      invariant ConvertAll(fields[k..], current, which, conv) == ConvertAll(fields, data, which, conv)
    {
      var (name, field) := fields[k];
      var walk, value := WalkPath(current, Split(name));
      if walk.Failure? {
        return Failure(walk.error);
      }
      if walk.value.landed {
        current := Put(current, walk.value.trail, conv(field, which, value));
      }
      assert fields[k..][1..] == fields[k + 1..];
      k := k + 1;
    }
    r := Success(current);
  }

  /** `convert_loaded_data`: the load hook of every field. */
  method ConvertLoadedDataAll(fields: seq<(string, Field)>, data: Json, conv: Converter) returns (r: Result<Json, Error>)
    ensures r == ConvertAll(fields, data, ConvertLoadedData, conv)
  {
    r := ConvertDataWithFunction(fields, data, ConvertLoadedData, conv);
  }

  /** `convert_data_to_save`: the save hook of every field. */
  method ConvertDataToSaveAll(fields: seq<(string, Field)>, data: Json, conv: Converter) returns (r: Result<Json, Error>)
    ensures r == ConvertAll(fields, data, ConvertDataToSave, conv)
  {
    r := ConvertDataWithFunction(fields, data, ConvertDataToSave, conv);
  }
}
