/**
 * `PlaceholderModel`: how one placeholder path ("customer.address.city") is resolved against the
 * model map. The text before the first '.' names a model entry, and the rest is walked one
 * property per segment.
 */
module PlaceholderModel {
  import opened Results
  import opened Text
  import opened Values

  const PathSeparator := '.'

  /**
   * `GetPlaceholderName`: the text before the first '.'; the whole placeholder when it has no '.'
   * or starts with one.
   */
  function PlaceholderName(placeholder: string): (name: string)
    ensures ('.' !in placeholder || placeholder[0] == '.') ==> name == placeholder
    ensures '.' in placeholder && placeholder[0] != '.' ==>
      name != "" && '.' !in name && |name| < |placeholder| && placeholder[..|name| + 1] == name + "."
  {
    match IndexOf(placeholder, PathSeparator)
    case Some(i) => if i == 0 then placeholder else placeholder[..i]
    case None => placeholder
  }

  /**
   * `GetPlaceholderPath`: the text after the first '.'; empty when the placeholder has no '.'
   * or starts with one.
   */
  function PlaceholderPath(placeholder: string): (path: string)
    ensures ('.' !in placeholder || placeholder[0] == '.') ==> path == ""
    ensures '.' in placeholder && placeholder[0] != '.' ==>
      placeholder == PlaceholderName(placeholder) + "." + path
  {
    match IndexOf(placeholder, PathSeparator)
    case Some(i) => if i == 0 then "" else placeholder[i + 1..]
    case None => ""
  }

  /** The name and the path of a placeholder "name.path" whose name has no '.'. */
  lemma NameAndPathOf(name: string, path: string)
    requires name != "" && '.' !in name
    ensures PlaceholderName(name + "." + path) == name
    ensures PlaceholderPath(name + "." + path) == path
  {
    var p := name + "." + path;
    assert p[..|name|] == name;
    IndexOfFirst(p, '.', |name|);
    assert p[|name| + 1..] == path;
  }

  /** `GetPlaceholderValue`: the model entry of that exact name, or null when there is none. */
  function PlaceholderValue(model: ModelMap, name: string): Value
  {
    if name in model then model[name] else Null
  }

  /**
   * `GetValueFromModelByPath`: null stays null, the empty path is the value itself, and otherwise
   * the first segment is read as a property and the rest of the path is resolved from there.
   * `None` is the exception a missing property raises.
   */
  function ValueByPath(path: string, v: Value): Option<Value>
    decreases |path|
  {
    if v.Null? then Some(Null)
    else if path == "" then Some(v)
    else
      match SplitFirst(path, PathSeparator)
      case (segment, None) => Property(v, segment)
      case (segment, Some(rest)) =>
        match Property(v, segment)
        case None => None
        case Some(w) => ValueByPath(rest, w)
  }

  /**
   * The reading of a path as a list of segments: one property read per segment, left to right,
   * stopping with null at the first null value and failing at the first missing property.
   */
  function Walk(segments: seq<string>, v: Value): Option<Value>
  {
    if v.Null? then Some(Null)
    else if segments == [] then Some(v)
    else
      match Property(v, segments[0])
      case None => None
      case Some(w) => Walk(segments[1..], w)
  }

  /** The recursive resolver reads exactly the segments of the path, in order. */
  lemma {:induction false} ValueByPathWalks(path: string, v: Value)
    requires path == "" || path[|path| - 1] != '.'
    ensures (ValueByPath(path, v) == Walk(if path == "" then [] else Split(path, '.'), v))
  {
    if !v.Null? && path != "" {
      match SplitFirst(path, PathSeparator)
      case (segment, None) =>
        assert Split(path, '.') == [segment];
      case (segment, Some(rest)) =>
        var segs := Split(path, '.');
        assert segs == [segment] + Split(rest, '.');
        assert segs[1..] == Split(rest, '.');
        assert rest != "";
        assert path[|path| - 1] == rest[|rest| - 1];
        match Property(v, segment)
        case None =>
        case Some(w) => ValueByPathWalks(rest, w);
    }
  }

  /** A '.' at the very end of a path is ignored: "a.b." resolves like "a.b". */
  lemma {:induction false} TrailingSeparatorIgnored(path: string, v: Value)
    requires path != "" && path[|path| - 1] != '.'
    ensures ValueByPath(path + ".", v) == ValueByPath(path, v)
  {
    if !v.Null? {
      match SplitFirst(path, PathSeparator)
      case (segment, None) =>
        SplitFirstAt(path, '.', "");
      case (segment, Some(rest)) =>
        assert path + "." == segment + ['.'] + (rest + ".");
        SplitFirstAt(segment, '.', rest + ".");
        assert rest != "";
        assert path[|path| - 1] == rest[|rest| - 1];
        match Property(v, segment)
        case None =>
        case Some(w) => TrailingSeparatorIgnored(rest, w);
    }
  }
}
