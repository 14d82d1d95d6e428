/**
 * The entities shared by the configuration layer: the `Field` declarations a
 * configuration class carries, the `Meta` holder that registration fills, and
 * the Python exceptions the layer raises or lets through.
 */
module Base {
  import opened Wrappers

  /** The exceptions that surface from the configuration layer. */
  datatype Error =
    | KeyError(key: string)
    | AttributeError(attr: string)
    | TypeError                      // a value that is not a dictionary was subscripted, or a default was not callable
    | Raised(kind: string)           // any other exception, raised by a callable default

  /** The two converter hooks a field offers; they are selected by name with `getattr`. */
  datatype Conversion = ConvertLoadedData | ConvertDataToSave

  /**
   * A declared configuration entry. `path` is given at construction; `name`
   * is filled in by the configuration class's registration.
   */
  class Field {
    var path: Option<string>
    var name: Option<string>

    constructor (path: Option<string>)
      ensures this.path == path && name == None
    {
      this.path := path;
      name := None;
    }

    /** `self.path or self.name`: an unset or empty path falls back to the registered name. */
    function GetPath(): (r: Option<string>)
      reads this
      ensures path.Some? && path.value != "" ==> r == path
      ensures path.None? || path.value == "" ==> r == name
    {
      if path.Some? && path.value != "" then path else name
    }
  }

  /**
   * The per-class `_meta` holder: the declared fields in registration order
   * and, when the class's `Meta` declares one, the mapping of defaults.
   */
  datatype Meta<V> = Meta(fields: seq<(string, Field)>, default: Option<map<string, V>>)
}
