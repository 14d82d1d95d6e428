/**
 * What the configuration metaclass does with a class body: every `Field`
 * declared in it is collected, in iteration order, into `_meta.fields` and
 * told its own name, and its class attribute is replaced by None.
 */
module Registration {
  import opened Wrappers
  import opened Base

  /** A class-body entry, as far as registration tells entries apart. */
  datatype Member<V> =
    | FieldMember(field: Field)
    | MetaClass(default: Option<map<string, V>>)  // a nested `class Meta`, with its `default` mapping if it declares one
    | MetaObject(meta: Meta<V>)                   // the `_meta` holder registration installs
    | NoneValue
    | Other(value: V)

  /** The distinct `Field` objects bound in the class body. */
  function FieldObjects<V>(dct: map<string, Member<V>>): set<Field> {
    set k | k in dct && dct[k].FieldMember? :: dct[k].field
  }

  /** The (name, field) pairs for the field-valued keys among `keys`, in the order of `keys`. */
  function FieldsIn<V>(dct: map<string, Member<V>>, keys: seq<string>): seq<(string, Field)>
    requires forall k :: k in keys ==> k in dct
    decreases |keys|
  {
    if keys == [] then []
    else
      var k := keys[|keys| - 1];
      FieldsIn(dct, keys[..|keys| - 1]) + if dct[k].FieldMember? then [(k, dct[k].field)] else []
  }

  /** The last of `keys` under which `f` is bound, the name registration leaves on `f`. */
  function LastBinding<V>(dct: map<string, Member<V>>, keys: seq<string>, f: Field): Option<string>
    requires forall k :: k in keys ==> k in dct
    decreases |keys|
  {
    if keys == [] then None
    else
      var k := keys[|keys| - 1];
      if dct[k].FieldMember? && dct[k].field == f then Some(k) else LastBinding(dct, keys[..|keys| - 1], f)
  }

  /** The class body after registration, before `_meta` is added: `Meta` popped, fields set to None. */
  function Cleared<V>(dct: map<string, Member<V>>): map<string, Member<V>> {
    map k | k in dct && k != "Meta" :: if dct[k].FieldMember? then NoneValue else dct[k]
  }

  /** `dct.iteritems()` visits every key once; `order` is that visit order. */
  ghost predicate IterationOrder<V>(dct: map<string, Member<V>>, order: seq<string>) {
    && (forall k :: k in order <==> k in dct && k != "Meta")
    && (forall i, j :: 0 <= i < j < |order| ==> order[i] != order[j])
  }

  /**
   * `ConfigMetaclass.__new__` for the class `className` with body `dct`,
   * visiting its keys in `order`: returns the new class body, the `_meta` it
   * holds, and the name handed on to `type.__new__`. The loop variable
   * shadows the class name, so that is the last key visited.
   */
  method Register<V>(className: string, dct: map<string, Member<V>>, order: seq<string>)
    returns (ns: map<string, Member<V>>, meta: Meta<V>, newName: string)
    requires "Meta" in dct ==> dct["Meta"].MetaClass?
    requires IterationOrder(dct, order)
    modifies FieldObjects(dct)
    ensures meta.fields == FieldsIn(dct, order)
    ensures meta.default == if "Meta" in dct then dct["Meta"].default else None
    ensures ns == Cleared(dct)["_meta" := MetaObject(meta)]
    ensures newName == if order == [] then className else order[|order| - 1]
    ensures forall f :: f in FieldObjects(dct) ==> f.path == old(f.path) && f.name == LastBinding(dct, order, f)
    ensures forall f :: f in FieldObjects(dct) && (f.path.None? || f.path == Some("")) ==>
      f.GetPath() == LastBinding(dct, order, f)
  {
    var default := if "Meta" in dct then dct["Meta"].default else None;  // dct.pop('Meta', Meta)()
    var fields: seq<(string, Field)> := [];
    ns := dct - {"Meta"};
    assert ns == Visited(dct, []);
    var i := 0;
    while i < |order|
      invariant 0 <= i <= |order|
      invariant fields == FieldsIn(dct, order[..i])
      invariant ns == Visited(dct, order[..i])
      invariant forall f :: f in FieldObjects(dct) ==> f.path == old(f.path)
      invariant forall f :: f in FieldObjects(dct) ==>
        f.name == if LastBinding(dct, order[..i], f).Some? then LastBinding(dct, order[..i], f) else old(f.name)
    {
      var key := order[i];
      var member := dct[key];
      VisitOne(dct, order, i);
      if member.FieldMember? {
        fields := fields + [(key, member.field)];
        member.field.name := Some(key);
        ns := ns[key := NoneValue];
      }
      assert ns == Visited(dct, order[..i + 1]);
      i := i + 1;
    }
    assert order[..|order|] == order;
    VisitedAll(dct, order);
    FieldsAllBound(dct, order);
    meta := Meta(fields, default);
    ns := ns["_meta" := MetaObject(meta)];
    // the `for name, field in ...` loop left its last key in `name`
    newName := if order == [] then className else order[|order| - 1];
  }

  /** The class body once the keys in `keys` have been visited: `Meta` popped, visited fields set to None. */
  ghost function Visited<V>(dct: map<string, Member<V>>, keys: seq<string>): map<string, Member<V>>
    requires forall k :: k in keys ==> k in dct
    decreases |keys|
  {
    if keys == [] then dct - {"Meta"}
    else
      var k := keys[|keys| - 1];
      var before := Visited(dct, keys[..|keys| - 1]);
      if dct[k].FieldMember? then before[k := NoneValue] else before
  }

  /** One more visited key: the bookkeeping of one loop iteration. */
  lemma VisitOne<V>(dct: map<string, Member<V>>, order: seq<string>, i: nat)
    requires IterationOrder(dct, order) && i < |order|
    ensures forall k :: k in order[..i + 1] ==> k in dct
    ensures
      var key := order[i];
      FieldsIn(dct, order[..i + 1]) == FieldsIn(dct, order[..i]) + if dct[key].FieldMember? then [(key, dct[key].field)] else []
    ensures
      var key := order[i];
      Visited(dct, order[..i + 1]) == if dct[key].FieldMember? then Visited(dct, order[..i])[key := NoneValue] else Visited(dct, order[..i])
    ensures forall f :: LastBinding(dct, order[..i + 1], f) ==
                       if dct[order[i]].FieldMember? && dct[order[i]].field == f then Some(order[i]) else LastBinding(dct, order[..i], f)
  {
    var key := order[i];
    var keys := order[..i + 1];
    assert keys[|keys| - 1] == key && keys[..|keys| - 1] == order[..i];
    assert forall k :: k in keys <==> k in order[..i] || k == key;
    forall f
      ensures LastBinding(dct, keys, f) ==
              if dct[key].FieldMember? && dct[key].field == f then Some(key) else LastBinding(dct, order[..i], f)
    {
    }
  }

  /** The visited keys that hold fields read None; every other key keeps its entry. */
  lemma {:induction false} VisitedPointwise<V>(dct: map<string, Member<V>>, keys: seq<string>)
    requires "Meta" in dct ==> dct["Meta"].MetaClass?
    requires forall k :: k in keys ==> k in dct
    ensures Visited(dct, keys) == map k | k in dct && k != "Meta" :: if k in keys && dct[k].FieldMember? then NoneValue else dct[k]
    decreases |keys|
  {
    if keys != [] {
      var init := keys[..|keys| - 1];
      assert forall k :: k in keys <==> k in init || k == keys[|keys| - 1];
      VisitedPointwise(dct, init);
    }
  }

  lemma VisitedAll<V>(dct: map<string, Member<V>>, order: seq<string>)
    requires "Meta" in dct ==> dct["Meta"].MetaClass?
    requires IterationOrder(dct, order)
    ensures Visited(dct, order) == Cleared(dct)
  {
    VisitedPointwise(dct, order);
  }

  /** A field bound under one of `keys` is bound under a last one. */
  lemma {:induction false} BoundFieldHasBinding<V>(dct: map<string, Member<V>>, keys: seq<string>, k: string)
    requires forall k' :: k' in keys ==> k' in dct
    requires k in keys && dct[k].FieldMember?
    ensures LastBinding(dct, keys, dct[k].field).Some?
    decreases |keys|
  {
    if keys[|keys| - 1] != k {
      assert k in keys[..|keys| - 1] by {
        var i :| 0 <= i < |keys| && keys[i] == k;
        assert keys[..|keys| - 1][i] == k;
      }
      BoundFieldHasBinding(dct, keys[..|keys| - 1], k);
    }
  }

  /** Every field of the class body is bound under some visited key. */
  lemma FieldsAllBound<V>(dct: map<string, Member<V>>, order: seq<string>)
    requires "Meta" in dct ==> dct["Meta"].MetaClass?
    requires IterationOrder(dct, order)
    ensures forall f :: f in FieldObjects(dct) ==> LastBinding(dct, order, f).Some?
  {
    forall f | f in FieldObjects(dct)
      ensures LastBinding(dct, order, f).Some?
    {
      var k :| k in dct && dct[k].FieldMember? && dct[k].field == f;
      BoundFieldHasBinding(dct, order, k);
    }
  }

  /**
   * Every field-valued key appears exactly once in `_meta.fields`, paired with
   * its own field, and nothing else appears there.
   */
  lemma {:induction false} FieldsInExactlyOnce<V>(dct: map<string, Member<V>>, keys: seq<string>)
    requires forall k :: k in keys ==> k in dct
    requires forall i, j :: 0 <= i < j < |keys| ==> keys[i] != keys[j]
    ensures forall i :: 0 <= i < |FieldsIn(dct, keys)| ==>
      var (n, f) := FieldsIn(dct, keys)[i];
      n in keys && dct[n].FieldMember? && dct[n].field == f
    ensures forall k :: k in keys && dct[k].FieldMember? ==> (k, dct[k].field) in FieldsIn(dct, keys)
    ensures forall i, j :: 0 <= i < j < |FieldsIn(dct, keys)| ==> FieldsIn(dct, keys)[i].0 != FieldsIn(dct, keys)[j].0
    decreases |keys|
  {
    if keys != [] {
      var init := keys[..|keys| - 1];
      var last := keys[|keys| - 1];
      assert forall k :: k in init ==> k in keys;
      FieldsInExactlyOnce(dct, init);
      assert last !in init;
      assert forall k :: k in keys ==> k in init || k == last by {
        forall k | k in keys ensures k in init || k == last {
          var i :| 0 <= i < |keys| && keys[i] == k;
          if i < |keys| - 1 { assert init[i] == k; }
        }
      }
    }
  }

  /** A field bound under a single key is named after that key. */
  lemma {:induction false} SingleBindingNamesField<V>(dct: map<string, Member<V>>, keys: seq<string>, k: string)
    requires forall k' :: k' in keys ==> k' in dct
    requires k in keys && dct[k].FieldMember?
    requires forall k' :: k' in keys && k' != k && dct[k'].FieldMember? ==> dct[k'].field != dct[k].field
    ensures LastBinding(dct, keys, dct[k].field) == Some(k)
    decreases |keys|
  {
    if keys[|keys| - 1] != k {
      assert k in keys[..|keys| - 1] by {
        var i :| 0 <= i < |keys| && keys[i] == k;
        assert keys[..|keys| - 1][i] == k;
      }
      SingleBindingNamesField(dct, keys[..|keys| - 1], k);
    }
  }
}
