# VCSTodo configuration layer, modelled in Dafny

VCSTodo keeps its settings in a JSON file wrapped by a `Config` class, which is a dictionary. This project models the logic of that class (`vcstodo/libs/config/base.py`). It covers three behaviours:

- **Field conversion** (`convert_data_with_fonction`, `convert_loaded_data`, `convert_data_to_save`). A configuration class declares `Field`s. A field name such as `server__port` names a nested entry: the name is split on `__` and the parts are followed through the loaded JSON dictionaries. The field's converter replaces the value found at the end. The walk is lenient. A missing key on the way is skipped and the walk goes on from the level already reached. The converter runs only if the last key was found. No key is ever created. Subscripting a value that is not a dictionary raises `TypeError`.
- **Lookup** (`__getitem__`, `get_default`, `__getattr__`). A stored entry wins. Otherwise the default declared in `Meta.default` is used. A callable default is called with the configuration and the name. A missing default is a `KeyError`, which attribute access reports as `AttributeError`.
- **Registration** (`ConfigMetaclass.__new__`). Every `Field` in a class body is collected into `_meta.fields` in iteration order and given its own name. Its class attribute is replaced by `None`.

Files:

- `wrappers.dfy`: `Option` and `Result`.
- `json_tree.dfy`: the JSON value (`Json`), paths, `Get`, and the in-place write `Put` with its laws.
- `field_path.dfy`: `name.split('__')` (`Split`) and its inverse `Join`.
- `base.dfy`: the `Field` class, the `Meta` holder, and the exceptions.
- `conversion.dfy`: the walk (`Descend`, and the loop `WalkPath`), one field (`ConvertField`), all fields (`ConvertAll`, and the loop `ConvertDataWithFunction`), and the two exported conversions.
- `conversion_properties.dfy`: what conversion guarantees. This covers the full-path, last-key and skipped-key cases, field order, top-level keys, and the round trip of the save conversion followed by the load conversion.
- `lookup.dfy`: `GetDefault`, `GetItem`, `GetAttr`.
- `registration.dfy`: `Register` and the lemmas about the fields it collects.

## Model

| member | source | states |
|---|---|---|
| FieldPath.Split | vcstodo/libs/config/base.py:140 | `name.split('__')` always gives at least one piece. Its definition is the left-to-right scan that cuts at each separator and does not reuse its underscores. |
| FieldPath.SplitLeftmost | vcstodo/libs/config/base.py:140 | Cuts are leftmost: no piece but the last ends in `_`, so `a___b` gives `a` and `_b`. |
| FieldPath.SplitUnique | vcstodo/libs/config/base.py:140 | `Split` is the only cut of a name whose pieces join back to it, contain no `__`, and (all but the last) do not end in `_`. |
| FieldPath.JoinSplit | vcstodo/libs/config/base.py:140 | Joining the parts of `name.split('__')` with `__` gives the name back. |
| FieldPath.SplitPiecesAreKeys | vcstodo/libs/config/base.py:140 | No part of a split field name contains `__`, so each part is a single key. |
| FieldPath.SplitPlainName | vcstodo/libs/config/base.py:134-140 | A name without `__` is a single top-level key. |
| JsonTree.Put | vcstodo/libs/config/base.py:147 | After `parent[step] = v` the path holds `v`, and the top-level key set is unchanged. |
| JsonTree.GetPutOther | vcstodo/libs/config/base.py:147 | A write at one path leaves every non-overlapping location as it was. |
| JsonTree.PutKeepsKeys | vcstodo/libs/config/base.py:147 | A write creates and removes no key. Every location outside the written value exists afterwards exactly when it did before, and every dictionary there keeps its key set. |
| NestedConversion.Descend | vcstodo/libs/config/base.py:140-145 | The walk only extends the trail of keys followed. When it ends with the parent set, the trail ends with the last part of the name. The only error is `TypeError`, from subscripting a non-dictionary. |
| NestedConversion.Walk | vcstodo/libs/config/base.py:138-145 | The walk of one field name raises only `TypeError` and ends at a location present in the data. When the last key was found, the walk ends on the name's last part. |
| NestedConversion.DescendStaysInside | vcstodo/libs/config/base.py:141-145 | Every key the walk follows exists, so the walk ends at a location present in the data. |
| NestedConversion.ConvertField | vcstodo/libs/config/base.py:138-147 | One field either leaves the data unchanged or overwrites one existing non-root location with the converter applied to the value found there. Its only error is `TypeError`. |
| NestedConversion.ConvertAll | vcstodo/libs/config/base.py:137-148 | Folding the fields in order, each on the data the previous one left, raises only `TypeError`. |
| NestedConversion.WalkPath | vcstodo/libs/config/base.py:138-145 | The inner loop computes exactly the walk `Descend`. The value it returns is the one at the trail. |
| NestedConversion.ConvertDataWithFunction | vcstodo/libs/config/base.py:128-148 | The outer loop gives exactly `ConvertAll`: the fields in `_meta.fields` order, each applied to the data the previous one left, stopping at the first error. |
| NestedConversion.ConvertLoadedDataAll | vcstodo/libs/config/base.py:151-160 | `convert_loaded_data` is the conversion with every field's load hook. |
| NestedConversion.ConvertDataToSaveAll | vcstodo/libs/config/base.py:164-170 | `convert_data_to_save` is the conversion with every field's save hook. |
| NestedConversionProperties.DescendFullPath | vcstodo/libs/config/base.py:140-145 | When every part of the path exists, the walk follows all of them and ends with the parent set. |
| NestedConversionProperties.ConvertFieldFullPath | vcstodo/libs/config/base.py:140-147 | Full path present: the value at the path becomes the converter applied to the old value. |
| NestedConversionProperties.DescendSnoc | vcstodo/libs/config/base.py:140-145 | Each step is decided at the level reached so far. It raises on a non-dictionary, descends if the key is present, and otherwise stays put with the parent cleared. |
| NestedConversionProperties.ConvertFieldAtLastLevel | vcstodo/libs/config/base.py:140-147 | Take the level the walk reaches before the last part. Three cases follow: `TypeError` if that level is not a dictionary, conversion of the last key if it is present, and unchanged data if it is missing. |
| NestedConversionProperties.ConvertFieldLastMissing | vcstodo/libs/config/base.py:143-146 | Last part missing at the level reached: the data is left unchanged. |
| NestedConversionProperties.MissingIntermediateExample | vcstodo/libs/config/base.py:141-145 | Missing intermediate part: field `a__b` on `{"b": 5}` skips `a` and converts the top-level `b`. |
| NestedConversionProperties.ConvertAllAppend | vcstodo/libs/config/base.py:137-148 | Order: converting with `a + b` is converting with `b` on what `a` produced, and an error in `a` stops everything. |
| NestedConversionProperties.ConvertAllKeepsRootKeys | vcstodo/libs/config/base.py:137-148 | A successful conversion keeps the configuration a dictionary with the same top-level keys. |
| NestedConversionProperties.ConvertAllCommutesWithPut | vcstodo/libs/config/base.py:137-147 | Take fields whose paths are present and pairwise non-overlapping. They never raise, they leave other locations alone, and they commute with a write at a location disjoint from them. |
| NestedConversionProperties.LoadAfterSave | vcstodo/libs/config/base.py:34-41 | Suppose each field's `convert_loaded_data` reverses its `convert_data_to_save`, and the fields' paths are present and pairwise non-overlapping. Then `Config.convert_data_to_save` followed by `Config.convert_loaded_data` gives the original data back. |
| NestedConversionProperties.NestedFieldsBreakRoundTrip | vcstodo/libs/config/base.py:137-147 | The non-overlap condition is needed. Fields `a` and `a__b` have inverse hooks, yet `convert_data_to_save` then `convert_loaded_data` on `{"a": 1}` gives `{"a": {"b": 1}}`, because the second field walks into the first one's converted value. |
| Base.Field.constructor | vcstodo/libs/config/base.py:15-17 | A new field has the given `path` and no name. |
| Base.Field.GetPath | vcstodo/libs/config/base.py:20-21 | `get_path` returns a non-empty `path`, and otherwise falls back to `name`. |
| Lookup.GetDefault | vcstodo/libs/config/base.py:84-97 | Four cases. `AttributeError` when the class's `Meta` declares no `default` mapping. `KeyError(name)` when the name has no default. The call's result when the default is callable. The default itself when the call raises `TypeError`. It never raises `TypeError` itself. |
| Lookup.GetItem | vcstodo/libs/config/base.py:191-198 | A stored entry is returned as is. Otherwise the result is `get_default(key)`. |
| Lookup.GetAttr | vcstodo/libs/config/base.py:201-208 | It succeeds exactly when item lookup does, with the same value. A `KeyError` becomes `AttributeError(attr)`, and `KeyError` never escapes. Every other error passes through unchanged. |
| Lookup.StoredEntryShadowsDefault | vcstodo/libs/config/base.py:191-198 | A stored entry is read regardless of the declared defaults, and no default is called for it. |
| Lookup.MissingNameRaises | vcstodo/libs/config/base.py:195-208 | A name neither stored nor defaulted raises. As an item it raises `KeyError`, or `AttributeError` when no defaults are declared. As an attribute it always raises `AttributeError`. |
| Lookup.PlainDefaultsMakeFieldsReadable | vcstodo/libs/config/base.py:92-97 | Suppose every declared field has a plain, non-callable default. Then `config[name]` for a field gives the stored entry or that default, and never fails. So does `__getattr__` when called directly; an attribute read `config.name` gives `None` instead (see "Left out"). |
| Registration.Register | vcstodo/libs/config/base.py:57-69 | Five results. The name handed to `type.__new__` is the last key the loop visited, because the loop variable shadows the class name. `_meta.fields` holds the field-valued entries in iteration order. `_meta` takes the `default` of a declared `Meta`. The new class body drops `Meta`, has `None` for every field and gains `_meta`. Every field is named after the last key binding it, its `path` is kept, and `get_path` then returns that name when no path was given. |
| Registration.FieldsInExactlyOnce | vcstodo/libs/config/base.py:61-63 | Every field-valued entry appears exactly once in `_meta.fields`, paired with its own field. Nothing else appears there. |
| Registration.SingleBindingNamesField | vcstodo/libs/config/base.py:64 | A field bound under a single key is named after that key. |

## Left out

- The task tracker itself is not part of this model. That covers task files, the store, queries and the project locator, whose source is not among the files modelled. `setup.py` is packaging metadata.
- `load`, `save`, `update_file`, `__enter__`, `__exit__` and the `__call__` decorator are left out. They are JSON file I/O and a context manager around it.
- `get_config_file_path` is left out. It is an attribute probe around file I/O.
- Only the missing-key path of `__getitem__` is modelled. Its bare `except:` could also catch other errors, but keys here are strings, so a missing key is the only way the dictionary lookup fails.
- The concrete converters are left out. A converter is a total function parameter. A converter that raises, such as the base `Field`'s `NotImplementedError`, is not modelled, and neither is the partly converted dictionary such an exception would leave behind.
- Converted values are JSON-shaped (`Json`). A converter that returns an arbitrary Python object is not modelled. JSON numbers are integers; floating point is left out.
- In-place update is modelled on values. `parent[step] = v` becomes `Put` on an immutable tree, and the method returns the new tree instead of the same mutated object. Sharing of one sub-dictionary between two places is not modelled. `json.load` never produces such sharing, but `Config(**kwargs)` passes the caller's own values to `load(kwargs)`, which converts them in place without `json.load` (base.py:80-81, 117). Converting those mutates the caller's objects, and a value bound under two keys would be converted twice; the model captures neither.
- `NestedConversion.ConvertAll`: on `TypeError` the model returns only the error. In the source, the writes of the fields converted before the error stay in the caller's `data`, since it is updated in place. The model does not capture that partly converted dictionary.
- `save` (base.py:124-125) dumps the configuration with `json.dump(self, ...)` and never calls `convert_data_to_save`. Only `load` converts, through `convert_loaded_data` (base.py:121). So the round trip that the field docstrings ask for (base.py:38-39) holds for the two conversion methods (`LoadAfterSave`), not for `save` followed by `load`. File I/O is left out, so the model does not state that gap as a lemma.
- `Lookup.GetDefault`: `Meta.default` is typed as a string-keyed mapping (`Option<map<string, V>>`). A `default` that cannot be subscripted by a string raises `TypeError` at base.py:92, outside the `try`. So "never raises `TypeError` itself" holds only under that typing.
- A field's `path` has no effect on conversion: the walk follows the registered key (base.py:137-140) and never calls `get_path()`. The model follows the source here.
- Dictionary iteration order (`iteritems`) is arbitrary in the source. Registration takes it as a parameter (`order`), which must visit every key once.
- `Registration.Register`: instantiating `Meta` is modelled only as taking its `default` mapping. A `Meta` entry that is not a class is excluded by the precondition. The rest of Python 2's class creation (`__metaclass__`, `type.__new__`) is not modelled, beyond the name passed to `type.__new__`: the loop variable `name` shadows the class name, so the new class is named after the last key visited (the class name itself only when the body is empty after `Meta` is popped).
- Python's ordinary attribute lookup, which runs before `__getattr__`, is not modelled. It means a registered field name resolves to the class attribute `None` that registration installs, and `__getattr__` is never reached for it.
- Calling a default is a parameter (`call`). A default that is not callable, or that cannot take `(config, name)`, is represented by a call that fails with `TypeError`.
