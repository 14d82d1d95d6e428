/**
 * What the conversion of nested fields promises: where the converter is
 * applied, what is left alone, in which order the fields act, and when
 * the save conversion followed by the load conversion gives the data back.
 */
module NestedConversionProperties {
  import opened Wrappers
  import opened JsonTree
  import opened FieldPath
  import opened Base
  import opened NestedConversion

  /** When every key of the path exists, the walk follows all of them. */
  lemma {:induction false} DescendFullPath(value: Json, trail: Path, landed: bool, steps: seq<string>)
    requires Has(value, steps)
    ensures Descend(value, trail, landed, steps) == Success(Landing(trail + steps, if steps == [] then landed else true))
    decreases |steps|
  {
    if steps == [] {
      assert trail + steps == trail;
    } else {
      var key := steps[0];
      var child := value.members[key];
      assert Has(child, steps[1..]);
      DescendFullPath(child, trail + [key], true, steps[1..]);
      assert trail + [key] + steps[1..] == trail + steps;
    }
  }

  /** Full path present: the value at the field's path becomes the converter applied to it. */
  lemma ConvertFieldFullPath(data: Json, name: string, field: Field, which: Conversion, conv: Converter)
    requires Has(data, Split(name))
    ensures ConvertField(data, name, field, which, conv)
         == Success(Put(data, Split(name), conv(field, which, Get(data, Split(name)).value)))
  {
    DescendFullPath(data, [], true, Split(name));
    assert [] + Split(name) == Split(name);
  }

  /**
   * One more step of the walk is decided at the level reached so far: it
   * raises when that level is not a dictionary, descends when the key is
   * there, and stays put, forgetting the parent, when it is not.
   */
  lemma {:induction false} DescendSnoc(root: Json, value: Json, trail: Path, landed: bool, steps: seq<string>, last: string)
    requires Get(root, trail) == Some(value)
    requires Descend(value, trail, landed, steps).Success?
    ensures Has(root, Descend(value, trail, landed, steps).value.trail)
    ensures
      var t := Descend(value, trail, landed, steps).value.trail;
      var here := Get(root, t).value;
      Descend(value, trail, landed, steps + [last]) ==
        if !here.Obj? then Failure(TypeError)
        else if last in here.members then Success(Landing(t + [last], true))
        else Success(Landing(t, false))
    decreases |steps|
  {
    DescendStaysInside(root, value, trail, landed, steps);
    if steps == [] {
      assert steps + [last] == [last];
    } else {
      assert (steps + [last])[0] == steps[0] && (steps + [last])[1..] == steps[1..] + [last];
      if steps[0] in value.members {
        GetSnoc(root, trail, steps[0]);
        DescendSnoc(root, value.members[steps[0]], trail + [steps[0]], true, steps[1..], last);
      } else {
        DescendSnoc(root, value, trail, false, steps[1..], last);
      }
    }
  }

  /**
   * The last key decides: with the walk over all but the last key ending at
   * `t`, the field raises TypeError if no dictionary is there, converts
   * `t + [last]` if the last key is there, and leaves the data unchanged if it
   * is missing.
   */
  lemma ConvertFieldAtLastLevel(data: Json, name: string, field: Field, which: Conversion, conv: Converter, t: Path, l: bool)
    requires
      var steps := Split(name);
      Descend(data, [], true, steps[..|steps| - 1]) == Success(Landing(t, l))
    ensures Has(data, t)
    ensures
      var steps := Split(name);
      var last := steps[|steps| - 1];
      Get(data, t).value.Obj? && last in Get(data, t).value.members ==> Has(data, t + [last])
    ensures
      var steps := Split(name);
      var last := steps[|steps| - 1];
      var here := Get(data, t).value;
      ConvertField(data, name, field, which, conv) ==
        if !here.Obj? then Failure(TypeError)
        else if last in here.members then Success(Put(data, t + [last], conv(field, which, here.members[last])))
        else Success(data)
  {
    var steps := Split(name);
    var last := steps[|steps| - 1];
    DescendSnoc(data, data, [], true, steps[..|steps| - 1], last);
    assert steps[..|steps| - 1] + [last] == steps;
    GetSnoc(data, t, last);
  }

  /** Last segment missing: the field leaves the data exactly as it was. */
  lemma ConvertFieldLastMissing(data: Json, name: string, field: Field, which: Conversion, conv: Converter, t: Path, l: bool)
    requires
      var steps := Split(name);
      Descend(data, [], true, steps[..|steps| - 1]) == Success(Landing(t, l))
    requires Has(data, t) && Get(data, t).value.Obj?
    requires Split(name)[|Split(name)| - 1] !in Get(data, t).value.members
    ensures ConvertField(data, name, field, which, conv) == Success(data)
  {
    ConvertFieldAtLastLevel(data, name, field, which, conv, t, l);
  }

  lemma SplitExample()
    ensures Split("a__b") == ["a", "b"]
  {
    var s := "a__b";
    var t := "__b";
    assert s[0] == 'a' && s[1..] == t && t[0] == '_' && t[1] == '_' && t[2..] == "b";
    assert Split("b") == ["b"];
    assert Split(t) == [""] + Split("b");
    assert Split(s) == [[s[0]] + Split(t)[0]] + Split(t)[1..];
    assert Split(t)[0] == "" && Split(t)[1..] == ["b"];
    assert [s[0]] + "" == "a";
  }

  /**
   * Missing intermediate segment: the field `a__b` on `{"b": 5}` skips the
   * absent `a` and converts the top-level `b`.
   */
  lemma MissingIntermediateExample(field: Field, which: Conversion, conv: Converter)
    ensures ConvertField(Obj(map["b" := Num(5)]), "a__b", field, which, conv)
         == Success(Obj(map["b" := conv(field, which, Num(5))]))
  {
    var data := Obj(map["b" := Num(5)]);
    SplitExample();
    assert Descend(data, [], true, ["a", "b"]) == Descend(data, [], false, ["b"]);
    assert Descend(data, [], false, ["b"]) == Descend(Num(5), ["b"], true, []);
    assert Get(data, ["b"]) == Some(Num(5));
    assert data.members["b" := conv(field, which, Num(5))] == map["b" := conv(field, which, Num(5))];
  }

  /** Order: running `a` then `b` is running `b` on what `a` produced; the first error stops everything. */
  lemma {:induction false} ConvertAllAppend(a: seq<(string, Field)>, b: seq<(string, Field)>, data: Json, which: Conversion, conv: Converter)
    ensures ConvertAll(a, data, which, conv).Failure? ==> ConvertAll(a + b, data, which, conv) == ConvertAll(a, data, which, conv)
    ensures ConvertAll(a, data, which, conv).Success? ==>
      ConvertAll(a + b, data, which, conv) == ConvertAll(b, ConvertAll(a, data, which, conv).value, which, conv)
    decreases |a|
  {
    if a == [] {
      assert a + b == b;
    } else {
      assert (a + b)[0] == a[0] && (a + b)[1..] == a[1..] + b;
      match ConvertField(data, a[0].0, a[0].1, which, conv)
      case Failure(_) =>
      case Success(next) => ConvertAllAppend(a[1..], b, next, which, conv);
    }
  }

  /** Conversion never adds or removes a top-level key of the configuration. */
  lemma {:induction false} ConvertAllKeepsRootKeys(fields: seq<(string, Field)>, data: Json, which: Conversion, conv: Converter)
    requires data.Obj? && ConvertAll(fields, data, which, conv).Success?
    ensures ConvertAll(fields, data, which, conv).value.Obj?
    ensures ConvertAll(fields, data, which, conv).value.members.Keys == data.members.Keys
    decreases |fields|
  {
    if fields != [] {
      var next := ConvertField(data, fields[0].0, fields[0].1, which, conv).value;
      assert next.Obj? && next.members.Keys == data.members.Keys;
      ConvertAllKeepsRootKeys(fields[1..], next, which, conv);
    }
  }

  /** Every field's full path exists and no field's path lies on another's. */
  ghost predicate Independent(fields: seq<(string, Field)>, data: Json) {
    && (forall i :: 0 <= i < |fields| ==> Has(data, Split(fields[i].0)))
    && (forall i, j :: 0 <= i < j < |fields| ==> Diverge(Split(fields[i].0), Split(fields[j].0)))
  }

  /** Each field's load hook undoes its save hook, as the `Field` documentation asks. */
  ghost predicate HooksInverse(fields: seq<(string, Field)>, conv: Converter) {
    forall i, v :: 0 <= i < |fields| ==>
      conv(fields[i].1, ConvertLoadedData, conv(fields[i].1, ConvertDataToSave, v)) == v
  }

  lemma IndependentAfterPut(fields: seq<(string, Field)>, data: Json, p: Path, w: Json)
    requires Independent(fields, data) && Has(data, p)
    requires forall i :: 0 <= i < |fields| ==> Diverge(p, Split(fields[i].0))
    ensures Independent(fields, Put(data, p, w))
  {
    forall i | 0 <= i < |fields|
      ensures Has(Put(data, p, w), Split(fields[i].0))
    {
      GetPutOther(data, p, w, Split(fields[i].0));
    }
  }

  /**
   * Independent fields never raise, and a write at a location disjoint from
   * all of them commutes with the conversion.
   */
  lemma {:induction false} ConvertAllCommutesWithPut(fields: seq<(string, Field)>, data: Json, which: Conversion, conv: Converter, p: Path, w: Json)
    requires Independent(fields, data) && Has(data, p)
    requires forall i :: 0 <= i < |fields| ==> Diverge(p, Split(fields[i].0))
    ensures ConvertAll(fields, data, which, conv).Success?
    ensures Has(ConvertAll(fields, data, which, conv).value, p)
    ensures Get(ConvertAll(fields, data, which, conv).value, p) == Get(data, p)
    ensures ConvertAll(fields, Put(data, p, w), which, conv)
         == Success(Put(ConvertAll(fields, data, which, conv).value, p, w))
    decreases |fields|
  {
    if fields == [] {
      return;
    }
    var (name, field) := fields[0];
    var t := Split(name);
    var u := Get(data, t).value;
    var next := Put(data, t, conv(field, which, u));
    ConvertFieldFullPath(data, name, field, which, conv);
    // the same field on the data written at `p` finds the same value
    GetPutOther(data, p, w, t);
    ConvertFieldFullPath(Put(data, p, w), name, field, which, conv);
    PutCommute(data, t, conv(field, which, u), p, w);
    // the remaining fields still satisfy the hypotheses after this field's write
    var rest := fields[1..];
    assert forall i :: 0 <= i < |rest| ==> Diverge(t, Split(rest[i].0)) by {
      forall i | 0 <= i < |rest| ensures Diverge(t, Split(rest[i].0)) {
        assert rest[i] == fields[i + 1];
      }
    }
    IndependentAfterPut(rest, data, t, conv(field, which, u));
    assert Diverge(t, p);
    GetPutOther(data, t, conv(field, which, u), p);
    ConvertAllCommutesWithPut(rest, next, which, conv, p, w);
  }

  /**
   * `convert_data_to_save` followed by `convert_loaded_data` gives the data
   * back when each field's hooks are inverse and the fields' paths are
   * present and independent.
   */
  lemma {:induction false} LoadAfterSave(fields: seq<(string, Field)>, data: Json, conv: Converter)
    requires Independent(fields, data) && HooksInverse(fields, conv)
    ensures ConvertAll(fields, data, ConvertDataToSave, conv).Success?
    ensures ConvertAll(fields, ConvertAll(fields, data, ConvertDataToSave, conv).value, ConvertLoadedData, conv)
         == Success(data)
    decreases |fields|
  {
    if fields == [] {
      return;
    }
    var (name, field) := fields[0];
    var rest := fields[1..];
    var t := Split(name);
    var u := Get(data, t).value;
    var saved := conv(field, ConvertDataToSave, u);
    var next := Put(data, t, saved);
    ConvertFieldFullPath(data, name, field, ConvertDataToSave, conv);
    assert forall i :: 0 <= i < |rest| ==> Diverge(t, Split(rest[i].0)) by {
      forall i | 0 <= i < |rest| ensures Diverge(t, Split(rest[i].0)) {
        assert rest[i] == fields[i + 1];
      }
    }
    assert Independent(rest, data);
    IndependentAfterPut(rest, data, t, saved);
    // the rest of the save pass leaves this field's saved value where it was
    ConvertAllCommutesWithPut(rest, next, ConvertDataToSave, conv, t, u);
    var x := ConvertAll(rest, next, ConvertDataToSave, conv).value;
    assert Get(x, t) == Some(saved);
    // the load pass: this field first restores `u`, which commutes back through the rest of the save pass
    ConvertFieldFullPath(x, name, field, ConvertLoadedData, conv);
    assert conv(field, ConvertLoadedData, saved) == u by {
      assert fields[0].1 == field;
    }
    PutPut(data, t, saved, u);
    PutSame(data, t);
    assert Put(x, t, u) == ConvertAll(rest, data, ConvertDataToSave, conv).value;
    assert HooksInverse(rest, conv) by {
      forall i, v | 0 <= i < |rest|
        ensures conv(rest[i].1, ConvertLoadedData, conv(rest[i].1, ConvertDataToSave, v)) == v
      {
        assert rest[i] == fields[i + 1];
      }
    }
    LoadAfterSave(rest, data, conv);
  }

  /** A save hook that nests a value under `b`, and the load hook that unwraps it again. */
  function WrapUnderB(field: Field, which: Conversion, v: Json): Json {
    if which == ConvertDataToSave then Obj(map["b" := v])
    else if v.Obj? && v.members.Keys == {"b"} then v.members["b"]
    else v
  }

  lemma WrapUnderBInverse(field: Field)
    ensures HooksInverse([("a", field), ("a__b", field)], WrapUnderB)
  {
    forall v: Json ensures WrapUnderB(field, ConvertLoadedData, WrapUnderB(field, ConvertDataToSave, v)) == v {
      assert map["b" := v].Keys == {"b"};
    }
  }

  /**
   * Independence cannot be dropped: with the fields `a` and `a__b`, whose
   * hooks are inverse, the save conversion turns `{"a": 1}` into
   * `{"a": {"b": {"b": 1}}}`, and the load conversion turns that into
   * `{"a": {"b": 1}}`, not the original, because the
   * second field walks into what the first one converted.
   */
  lemma NestedFieldsBreakRoundTrip(field: Field)
    ensures HooksInverse([("a", field), ("a__b", field)], WrapUnderB)
    ensures
      var fields := [("a", field), ("a__b", field)];
      var saved := Obj(map["a" := Obj(map["b" := Obj(map["b" := Num(1)])])]);
      && ConvertAll(fields, Obj(map["a" := Num(1)]), ConvertDataToSave, WrapUnderB) == Success(saved)
      && ConvertAll(fields, saved, ConvertLoadedData, WrapUnderB) == Success(Obj(map["a" := Obj(map["b" := Num(1)])]))
  {
    WrapUnderBInverse(field);
    NestedSave(field);
    NestedLoad(field);
  }

  lemma SplitSingle()
    ensures Split("a") == ["a"]
  {
  }

  lemma TwoFields(field: Field, data: Json, which: Conversion)
    ensures
      var fields := [("a", field), ("a__b", field)];
      ConvertAll(fields, data, which, WrapUnderB) ==
        match ConvertField(data, "a", field, which, WrapUnderB)
        case Failure(e) => Failure(e)
        case Success(next) => ConvertField(next, "a__b", field, which, WrapUnderB)
  {
    var fields: seq<(string, Field)> := [("a", field), ("a__b", field)];
    var second: seq<(string, Field)> := [("a__b", field)];
    assert fields[0] == ("a", field) && fields[1..] == second;
    assert second[0] == ("a__b", field) && second[1..] == [];
    match ConvertField(data, "a", field, which, WrapUnderB)
    case Failure(e) =>
    case Success(next) =>
      assert ConvertAll(fields, data, which, WrapUnderB) == ConvertAll(second, next, which, WrapUnderB);
      match ConvertField(next, "a__b", field, which, WrapUnderB)
      case Failure(e) =>
      case Success(last) =>
        assert ConvertAll(second, next, which, WrapUnderB) == ConvertAll([], last, which, WrapUnderB);
  }

  lemma NestedSave(field: Field)
    ensures
      var fields := [("a", field), ("a__b", field)];
      var saved := Obj(map["a" := Obj(map["b" := Obj(map["b" := Num(1)])])]);
      ConvertAll(fields, Obj(map["a" := Num(1)]), ConvertDataToSave, WrapUnderB) == Success(saved)
  {
    var one := Num(1);
    var data := Obj(map["a" := one]);
    var b1 := Obj(map["b" := one]);
    var b2 := Obj(map["b" := b1]);
    var saved := Obj(map["a" := b2]);
    SplitExample();
    SplitSingle();
    TwoFields(field, data, ConvertDataToSave);
    ConvertFieldFullPath(data, "a", field, ConvertDataToSave, WrapUnderB);
    var s1 := Obj(map["a" := b1]);
    assert Put(data, ["a"], b1) == s1 by {
      assert data.members["a" := Put(one, [], b1)] == map["a" := b1];
    }
    assert Get(s1, ["a", "b"]) == Some(one);
    ConvertFieldFullPath(s1, "a__b", field, ConvertDataToSave, WrapUnderB);
    assert Put(s1, ["a", "b"], b1) == saved by {
      assert Put(b1, ["b"], b1) == b2 by {
        assert b1.members["b" := Put(one, [], b1)] == map["b" := b1];
      }
      assert s1.members["a" := b2] == map["a" := b2];
    }
  }

  lemma NestedLoad(field: Field)
    ensures
      var fields := [("a", field), ("a__b", field)];
      var saved := Obj(map["a" := Obj(map["b" := Obj(map["b" := Num(1)])])]);
      ConvertAll(fields, saved, ConvertLoadedData, WrapUnderB) == Success(Obj(map["a" := Obj(map["b" := Num(1)])]))
  {
    var one := Num(1);
    var b1 := Obj(map["b" := one]);
    var b2 := Obj(map["b" := b1]);
    var saved := Obj(map["a" := b2]);
    SplitExample();
    SplitSingle();
    TwoFields(field, saved, ConvertLoadedData);
    assert b2.members.Keys == {"b"};
    ConvertFieldFullPath(saved, "a", field, ConvertLoadedData, WrapUnderB);
    var l1 := Obj(map["a" := b1]);
    assert Put(saved, ["a"], b1) == l1 by {
      assert saved.members["a" := Put(b2, [], b1)] == map["a" := b1];
    }
    assert Get(l1, ["a", "b"]) == Some(one);
    assert b1.members.Keys != {"b"} || !one.Obj?;
    ConvertFieldFullPath(l1, "a__b", field, ConvertLoadedData, WrapUnderB);
    PutSame(l1, ["a", "b"]);
  }
}
