/**
 * Reading a configuration: a stored entry wins, otherwise the default
 * declared for that name in the class's `Meta.default` mapping is used, and a
 * callable default is called with the configuration and the name.
 */
module Lookup {
  import opened Wrappers
  import opened Base

  /** A configuration object: the dictionary's own entries and the class's `_meta`. */
  datatype Config<V> = Config(entries: map<string, V>, meta: Meta<V>)

  /**
   * `default(self, name)`: what calling a default gives. A default that is
   * not callable (or that cannot take these two arguments) raises TypeError.
   */
  type Caller<!V> = (V, Config<V>, string) -> Result<V, Error>

  /** `get_default(name)`. */
  function GetDefault<V>(cfg: Config<V>, name: string, call: Caller<V>): (r: Result<V, Error>)
    // no `default` mapping on the class's Meta: the attribute lookup itself fails
    ensures cfg.meta.default.None? ==> r == Failure(AttributeError("default"))
    // a name without a default
    ensures cfg.meta.default.Some? && name !in cfg.meta.default.value ==> r == Failure(KeyError(name))
    // a declared default: a successful call gives its result, a call raising TypeError
    // gives the default itself, and any other error of the call propagates
    ensures cfg.meta.default.Some? && name in cfg.meta.default.value ==>
      var d := cfg.meta.default.value[name];
      && (call(d, cfg, name).Success? ==> r == call(d, cfg, name))
      && (call(d, cfg, name) == Failure(TypeError) ==> r == Success(d))
      && (call(d, cfg, name).Failure? && call(d, cfg, name) != Failure(TypeError) ==> r == call(d, cfg, name))
    ensures r != Failure(TypeError)
  {
    match cfg.meta.default
    case None => Failure(AttributeError("default"))
    case Some(defaults) =>
      if name !in defaults then Failure(KeyError(name))
      else
        var d := defaults[name];
        match call(d, cfg, name)
        case Success(v) => Success(v)
        case Failure(TypeError) => Success(d)
        case Failure(e) => Failure(e)
  }

  /** `config[key]`: the stored entry, or else the default. */
  function GetItem<V>(cfg: Config<V>, key: string, call: Caller<V>): (r: Result<V, Error>)
    ensures key in cfg.entries ==> r == Success(cfg.entries[key])
    ensures key !in cfg.entries ==> r == GetDefault(cfg, key, call)
  {
    if key in cfg.entries then Success(cfg.entries[key]) else GetDefault(cfg, key, call)
  }

  /** `__getattr__(attr)`: the same lookup, with a missing key reported as AttributeError. */
  function GetAttr<V>(cfg: Config<V>, attr: string, call: Caller<V>): (r: Result<V, Error>)
    ensures r.Success? <==> GetItem(cfg, attr, call).Success?
    ensures r.Success? ==> r == GetItem(cfg, attr, call)
    ensures GetItem(cfg, attr, call).Failure? && GetItem(cfg, attr, call).error.KeyError? ==>
      r == Failure(AttributeError(attr))
    // only KeyError is caught: every other error passes through unchanged
    ensures GetItem(cfg, attr, call).Failure? && !GetItem(cfg, attr, call).error.KeyError? ==>
      r == GetItem(cfg, attr, call)
    ensures r.Failure? ==> !r.error.KeyError?
  {
    match GetItem(cfg, attr, call)
    case Failure(KeyError(_)) => Failure(AttributeError(attr))
    case other => other
  }

  /** A stored entry hides whatever default the class declares, and no default is ever called for it. */
  lemma StoredEntryShadowsDefault<V>(cfg: Config<V>, key: string, call: Caller<V>, meta: Meta<V>, call': Caller<V>)
    requires key in cfg.entries
    ensures GetAttr(cfg, key, call) == GetItem(Config(cfg.entries, meta), key, call') == Success(cfg.entries[key])
  {
  }

  /**
   * A name that is neither stored nor given a default cannot be read: as an
   * item it raises KeyError (AttributeError when the class declares no
   * defaults at all), as an attribute it raises AttributeError.
   */
  lemma MissingNameRaises<V>(cfg: Config<V>, name: string, call: Caller<V>)
    requires name !in cfg.entries
    requires cfg.meta.default.None? || name !in cfg.meta.default.value
    ensures GetItem(cfg, name, call).Failure?
    ensures cfg.meta.default.Some? ==> GetItem(cfg, name, call) == Failure(KeyError(name))
    ensures GetAttr(cfg, name, call).Failure? && GetAttr(cfg, name, call).error.AttributeError?
  {
  }

  /**
   * With a plain (non-callable) default for every declared field, the item
   * lookup `config[name]` of a declared field never fails: it gives the stored
   * entry or that default. (`__getattr__` gives the same when called directly.)
   */
  lemma PlainDefaultsMakeFieldsReadable<V>(cfg: Config<V>, call: Caller<V>, i: nat)
    requires i < |cfg.meta.fields|
    requires cfg.meta.default.Some?
    requires forall j :: 0 <= j < |cfg.meta.fields| ==> cfg.meta.fields[j].0 in cfg.meta.default.value
    requires forall n :: n in cfg.meta.default.value ==> call(cfg.meta.default.value[n], cfg, n) == Failure(TypeError)
    ensures
      var name := cfg.meta.fields[i].0;
      GetItem(cfg, name, call) == GetAttr(cfg, name, call) ==
        Success(if name in cfg.entries then cfg.entries[name] else cfg.meta.default.value[name])
  {
  }
}
