/**
 * The data a template is rendered from: a model map of named values, where a value may be null
 * or expose named properties. The tagged tree stands in for the runtime's objects and reflection.
 */
module Values {
  import opened Results
  import opened Cultures

  datatype Value =
    | Null
    | Str(s: string)
    | Int(i: int)
    /** An object with public properties, by name. */
    | Obj(props: map<string, Value>)

  /** `ModelMap`: the named values handed to one render call. */
  type ModelMap = map<string, Value>

  /**
   * `v.GetType().GetProperty(name).GetValue(v, null)` on a non-null value: `None` when the type has
   * no public property of that name, which the source turns into an exception.
   */
  function Property(v: Value, name: string): (r: Option<Value>)
    ensures r.Some? ==> v.Obj? && name != "" && name in v.props && r.value == v.props[name]
    ensures r.None? ==> !v.Obj? || name == "" || name !in v.props
  {
    match v
    case Obj(props) => if name != "" && name in props then Some(props[name]) else None
    case _ => None
  }

  /**
   * The runtime's text conversions, which the model leaves uninterpreted:
   * `toText(v)` is `v.ToString()` and `format(culture, v, f)` is
   * `string.Format(culture, "{0:" + f + "}", v)`; each is `None` when the call throws.
   */
  datatype Formatter = Formatter(toText: Value -> Option<string>, format: (Culture, Value, string) -> Option<string>)

  /** `string.ToString()` returns the string itself. */
  ghost predicate StringsAsThemselves(f: Formatter)
  {
    forall s :: f.toText(Str(s)) == Some(s)
  }
}
