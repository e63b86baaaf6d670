/**
 * What `PlaceholderRenderContext.ParseAndRender` computes, as functions: the regex
 * `\{([^}]+)\}` applied left to right by `Regex.Replace`, and the match evaluator that turns one
 * matched token into its replacement text.
 */
module PlaceholderRendering {
  import opened Results
  import opened Text
  import opened Cultures
  import opened Values
  import opened PlaceholderModel

  const Opening := '{'
  const Closing := '}'
  const FormatSeparator := ':'

  /** The context settings a render reads: `Culture`, and `DefaultValue` (`None` is null). */
  datatype Config = Config(culture: Culture, defaultValue: Option<string>)

  /**
   * The length of the match of `\{([^}]+)\}` that starts at the beginning of `s`: an opening
   * brace, at least one character that is not a closing brace, and the first closing brace.
   */
  function TokenLength(s: string): (r: Option<nat>)
    ensures r.Some? ==>
      3 <= r.value <= |s| && s[0] == '{' && s[r.value - 1] == '}' && '}' !in s[1..r.value - 1]
  {
    if s != [] && s[0] == Opening then
      match IndexOf(s[1..], Closing)
      case Some(j) =>
        assert s[1..][..j] == s[1..j + 1];
        if j >= 1 then Some(j + 2) else None
      case None => None
    else None
  }

  /**
   * No match starts at the beginning of `s` exactly when it does not open with a brace followed
   * by a character other than a closing brace and, somewhere after that, a closing brace.
   */
  lemma TokenLengthNone(s: string)
    ensures TokenLength(s).None? <==> !(|s| >= 3 && s[0] == '{' && s[1] != '}' && '}' in s[2..])
  {
    if |s| >= 2 {
      assert s[1..][1..] == s[2..];
    }
  }

  /** `match.Value.Replace("{", "").Replace("}", "")`: the token with every brace deleted. */
  function PlaceholderText(token: string): string
  {
    Remove(Remove(token, Opening), Closing)
  }

  /** `Split(":", 2)`: the path expression before the first ':' and the format after it ("" without one). */
  function PathAndFormat(placeholder: string): (string, string)
  {
    match SplitFirst(placeholder, FormatSeparator)
    case (path, None) => (path, "")
    case (path, Some(format)) => (path, format)
  }

  /**
   * The body of the match evaluator's `try` block on a brace-free placeholder: the text it
   * returns, or `None` when it throws (empty name, missing property, failed conversion or format)
   * or reaches a null value, which are the cases that fall through to the fallback.
   */
  function PlaceholderResult(placeholder: string, model: ModelMap, culture: Culture, f: Formatter): Option<string>
  {
    var (path, format) := PathAndFormat(placeholder);
    if path == "" then None
    else
      match ValueByPath(PlaceholderPath(path), PlaceholderValue(model, PlaceholderName(path)))
      case None => None
      case Some(Null) => None
      case Some(v) => if format == "" then f.toText(v) else f.format(culture, v, format)
  }

  /** The fallback policy: the token as it stands when `DefaultValue` is null, `DefaultValue` otherwise. */
  function Fallback(token: string, defaultValue: Option<string>): string
  {
    match defaultValue
    case None => token
    case Some(d) => d
  }

  /** The match evaluator: the replacement text of one matched token. */
  function Substitute(token: string, model: ModelMap, config: Config, f: Formatter): string
  {
    match PlaceholderResult(PlaceholderText(token), model, config.culture, f)
    case Some(text) => text
    case None => Fallback(token, config.defaultValue)
  }

  /**
   * `Regex.Replace(template, pattern, evaluator)`: scanning from the left, each match is replaced
   * by its substitution and scanning resumes after it; every other character is copied.
   */
  function Expand(template: string, model: ModelMap, config: Config, f: Formatter): string
    decreases |template|
  {
    if template == [] then []
    else
      match TokenLength(template)
      case Some(k) => Substitute(template[..k], model, config, f) + Expand(template[k..], model, config, f)
      case None => [template[0]] + Expand(template[1..], model, config, f)
  }

  // ---------------------------------------------------------------------------------------------
  // The scan

  /** One step of the scan at position `i`: a match there is replaced, otherwise one character is copied. */
  lemma {:induction false} ExpandAt(t: string, i: nat, end: Option<nat>, model: ModelMap, config: Config, f: Formatter)
    requires i < |t|
    requires (end == (match TokenLength(t[i..]) case Some(k) => Some(i + k) case None => None))
    ensures end.Some? ==> i < end.value <= |t|
    ensures end.Some? ==>
      Expand(t[i..], model, config, f) == Substitute(t[i..end.value], model, config, f) + Expand(t[end.value..], model, config, f)
    ensures end.None? ==> Expand(t[i..], model, config, f) == [t[i]] + Expand(t[i + 1..], model, config, f)
  {
    var s := t[i..];
    ExpandUnfold(s, model, config, f);
    if end.Some? {
      var k := end.value - i;
      assert TokenLength(s) == Some(k);
      assert s[..k] == t[i..end.value];
      assert s[k..] == t[end.value..];
    } else {
      assert s[0] == t[i];
      assert s[1..] == t[i + 1..];
    }
  }

  /** The first step of the rendering of a non-empty text. */
  lemma ExpandUnfold(s: string, model: ModelMap, config: Config, f: Formatter)
    requires s != []
    ensures (TokenLength(s).Some? ==> var k := TokenLength(s).value;
      Expand(s, model, config, f) == Substitute(s[..k], model, config, f) + Expand(s[k..], model, config, f))
    ensures TokenLength(s).None? ==> Expand(s, model, config, f) == [s[0]] + Expand(s[1..], model, config, f)
  {
  }

  /** A template in which the pattern matches nowhere renders to itself. */
  lemma {:induction false} ExpandUnmatched(t: string, model: ModelMap, config: Config, f: Formatter)
    requires forall i :: 0 <= i < |t| ==> TokenLength(t[i..]).None?
    ensures Expand(t, model, config, f) == t
  {
    if t != [] {
      assert TokenLength(t[0..]).None?;
      assert t[0..] == t;
      forall i | 0 <= i < |t[1..]|
        ensures TokenLength(t[1..][i..]).None?
      {
        assert t[1..][i..] == t[i + 1..];
      }
      ExpandUnmatched(t[1..], model, config, f);
      assert t == [t[0]] + t[1..];
    }
  }

  /** Without a closing brace nothing matches, so the template is its own rendering. */
  lemma NoClosingBraceUnchanged(t: string, model: ModelMap, config: Config, f: Formatter)
    requires '}' !in t
    ensures Expand(t, model, config, f) == t
  {
    forall i | 0 <= i < |t|
      ensures TokenLength(t[i..]).None?
    {
      TokenLengthNone(t[i..]);
    }
    ExpandUnmatched(t, model, config, f);
  }

  /** Text before the first opening brace is copied unchanged. */
  lemma {:induction false} ExpandLiteralPrefix(a: string, b: string, model: ModelMap, config: Config, f: Formatter)
    requires '{' !in a
    ensures Expand(a + b, model, config, f) == a + Expand(b, model, config, f)
  {
    if a != [] {
      assert (a + b)[0] == a[0];
      assert (a + b)[1..] == a[1..] + b;
      ExpandLiteralPrefix(a[1..], b, model, config, f);
      assert a == [a[0]] + a[1..];
    } else {
      assert a + b == b;
    }
  }

  /**
   * A token runs from an opening brace to the first closing brace after it, and is replaced by
   * its substitution; the scan then resumes after the closing brace.
   */
  lemma ExpandToken(body: string, rest: string, model: ModelMap, config: Config, f: Formatter)
    requires body != "" && '}' !in body
    ensures Expand("{" + body + "}" + rest, model, config, f)
         == Substitute("{" + body + "}", model, config, f) + Expand(rest, model, config, f)
  {
    var s := "{" + body + "}" + rest;
    var k := |body| + 2;
    assert s[1..] == body + "}" + rest;
    assert s[1..][..|body|] == body;
    IndexOfFirst(s[1..], '}', |body|);
    assert TokenLength(s) == Some(k);
    assert s[..k] == "{" + body + "}";
    assert s[k..] == rest;
  }

  // ---------------------------------------------------------------------------------------------
  // One token

  /** Every opening brace inside a token is stripped: "{{ x }" has the placeholder " x ". */
  lemma TokenPlaceholder(body: string)
    requires '}' !in body
    ensures PlaceholderText("{" + body + "}") == Remove(body, '{')
  {
    RemoveConcat("{" + body, "}", '{');
    RemoveConcat("{", body, '{');
    assert Remove("{", '{') == "";
    assert Remove("}", '{') == "}";
    assert "" + Remove(body, '{') == Remove(body, '{');
    var stripped := Remove(body, '{');
    assert '}' !in stripped;
    RemoveConcat(stripped, "}", '}');
    RemoveAbsent(stripped, '}');
    assert Remove("}", '}') == "";
    assert stripped + "" == stripped;
  }

  lemma NestedOpeningBraceStripped()
    ensures PlaceholderText("{{ x }") == " x "
  {
    TokenPlaceholder("{ x ");
    assert "{{ x }" == "{" + "{ x " + "}";
    RemoveConcat("{", " x ", '{');
    RemoveAbsent(" x ", '{');
  }

  /** The format is everything after the first ':', itself possibly holding ':'; no ':' means no format. */
  lemma FormatAfterFirstSeparator(path: string, format: string)
    requires ':' !in path
    ensures PathAndFormat(path) == (path, "")
    ensures PathAndFormat(path + ":" + format) == (path, format)
  {
    SplitFirstAt(path, ':', format);
  }

  /** A token whose body holds no brace has that body as its placeholder. */
  lemma BraceFreeToken(body: string)
    requires '{' !in body && '}' !in body
    ensures PlaceholderText("{" + body + "}") == body
  {
    TokenPlaceholder(body);
    RemoveAbsent(body, '{');
  }

  /**
   * The match evaluator on a token whose placeholder splits into the path expression `p` (naming
   * the entry `name`, then the property path `rest`) and the format `format`.
   */
  lemma SubstituteOf(token: string, placeholder: string, p: string, format: string, name: string, rest: string,
                     model: ModelMap, config: Config, f: Formatter)
    requires PlaceholderText(token) == placeholder
    requires PathAndFormat(placeholder) == (p, format) && p != ""
    requires PlaceholderName(p) == name && PlaceholderPath(p) == rest
    ensures (Substitute(token, model, config, f) ==
      match ValueByPath(rest, PlaceholderValue(model, name))
      case Some(v) =>
        if v.Null? then Fallback(token, config.defaultValue)
        else if format == "" then (if f.toText(v).Some? then f.toText(v).value else Fallback(token, config.defaultValue))
        else if f.format(config.culture, v, format).Some? then f.format(config.culture, v, format).value
        else Fallback(token, config.defaultValue)
      case None => Fallback(token, config.defaultValue))
  {
  }

  /** A name that is a single model key: not empty, and free of '.', ':' and braces. */
  ghost predicate SimpleName(name: string)
  {
    name != "" && '.' !in name && ':' !in name && '{' !in name && '}' !in name
  }

  lemma SimpleNameParts(name: string)
    requires SimpleName(name)
    ensures PathAndFormat(name) == (name, "")
    ensures PlaceholderName(name) == name && PlaceholderPath(name) == ""
  {
    FormatAfterFirstSeparator(name, "");
  }

  /**
   * "{name}": the model entry's default text when it is present and not null and its conversion
   * succeeds, and the fallback when the key is missing, its value is null or the conversion throws.
   */
  lemma RenderName(name: string, model: ModelMap, config: Config, f: Formatter)
    requires SimpleName(name)
    ensures name !in model ==>
      Substitute("{" + name + "}", model, config, f) == Fallback("{" + name + "}", config.defaultValue)
    ensures name in model && model[name] == Null ==>
      Substitute("{" + name + "}", model, config, f) == Fallback("{" + name + "}", config.defaultValue)
    ensures name in model && model[name] != Null && f.toText(model[name]).None? ==>
      Substitute("{" + name + "}", model, config, f) == Fallback("{" + name + "}", config.defaultValue)
    ensures name in model && model[name] != Null && f.toText(model[name]).Some? ==>
      Substitute("{" + name + "}", model, config, f) == f.toText(model[name]).value
  {
    BraceFreeToken(name);
    SimpleNameParts(name);
    SubstituteOf("{" + name + "}", name, name, "", name, "", model, config, f);
  }

  /**
   * "{name:format}" with a non-empty format: the value formatted under the context's culture, or
   * the fallback when the value is missing or null or the format fails.
   */
  lemma RenderFormatted(name: string, format: string, model: ModelMap, config: Config, f: Formatter)
    requires SimpleName(name)
    requires format != "" && '{' !in format && '}' !in format
    ensures (var token := "{" + name + ":" + format + "}";
      Substitute(token, model, config, f) ==
        if name in model && model[name] != Null && f.format(config.culture, model[name], format).Some?
        then f.format(config.culture, model[name], format).value
        else Fallback(token, config.defaultValue))
  {
    var body := name + ":" + format;
    var token := "{" + name + ":" + format + "}";
    assert token == "{" + body + "}";
    BraceFreeToken(body);
    FormatAfterFirstSeparator(name, format);
    SimpleNameParts(name);
    SubstituteOf(token, body, name, format, name, "", model, config, f);
  }

  /**
   * "{name.path}": the path is resolved from the model entry; a resolved non-null value gives its
   * default text, and a missing property, a null value on the way or a conversion that throws
   * gives the fallback.
   */
  lemma RenderPath(name: string, path: string, model: ModelMap, config: Config, f: Formatter)
    requires SimpleName(name)
    requires ':' !in path && '{' !in path && '}' !in path
    ensures (var token := "{" + name + "." + path + "}";
      Substitute(token, model, config, f) ==
        match ValueByPath(path, PlaceholderValue(model, name))
        case Some(v) => if v.Null? || f.toText(v).None? then Fallback(token, config.defaultValue) else f.toText(v).value
        case None => Fallback(token, config.defaultValue))
  {
    var body := name + "." + path;
    var token := "{" + name + "." + path + "}";
    PathBodyParts(name, path);
    SubstituteOf(token, body, body, "", name, path, model, config, f);
  }

  lemma PathBodyParts(name: string, path: string)
    requires SimpleName(name)
    requires ':' !in path && '{' !in path && '}' !in path
    ensures PlaceholderText("{" + name + "." + path + "}") == name + "." + path
    ensures PathAndFormat(name + "." + path) == (name + "." + path, "")
    ensures PlaceholderName(name + "." + path) == name && PlaceholderPath(name + "." + path) == path
  {
    var body := name + "." + path;
    assert "{" + name + "." + path + "}" == "{" + body + "}";
    assert '}' !in body && '{' !in body && ':' !in body;
    BraceFreeToken(body);
    FormatAfterFirstSeparator(body, "");
    NameAndPathOf(name, path);
  }

  /** A property the value does not have never aborts the render: the token gets the fallback. */
  lemma MissingPropertyFallsBack(name: string, property: string, model: ModelMap, config: Config, f: Formatter)
    requires SimpleName(name) && SimpleName(property)
    requires name in model && model[name] != Null && Property(model[name], property).None?
    ensures Substitute("{" + name + "." + property + "}", model, config, f)
         == Fallback("{" + name + "." + property + "}", config.defaultValue)
  {
    RenderPath(name, property, model, config, f);
    SinglePropertyRead(property, model[name]);
  }

  /**
   * A null met on the way never aborts the render either: once a property is null the rest of
   * the path is not read, and the token gets the fallback.
   */
  lemma NullOnPathFallsBack(name: string, property: string, rest: string, model: ModelMap, config: Config, f: Formatter)
    requires SimpleName(name) && SimpleName(property)
    requires ':' !in rest && '{' !in rest && '}' !in rest
    requires name in model && model[name] != Null && Property(model[name], property) == Some(Null)
    ensures Substitute("{" + name + "." + property + "." + rest + "}", model, config, f)
         == Fallback("{" + name + "." + property + "." + rest + "}", config.defaultValue)
  {
    var path := property + "." + rest;
    assert "{" + name + "." + property + "." + rest + "}" == "{" + name + "." + path + "}";
    RenderPath(name, path, model, config, f);
    SplitFirstAt(property, '.', rest);
  }

  /** An empty name, as in "{:x}" or "{{}", never aborts the render: the token gets the fallback. */
  lemma EmptyNameFallsBack(format: string, model: ModelMap, config: Config, f: Formatter)
    requires '{' !in format && '}' !in format
    ensures Substitute("{:" + format + "}", model, config, f) == Fallback("{:" + format + "}", config.defaultValue)
    ensures Substitute("{{}", model, config, f) == Fallback("{{}", config.defaultValue)
  {
    EmptyNameParts(format);
  }

  lemma EmptyNameParts(format: string)
    requires '{' !in format && '}' !in format
    ensures PathAndFormat(PlaceholderText("{:" + format + "}")).0 == ""
    ensures PathAndFormat(PlaceholderText("{{}")).0 == ""
  {
    var body := ":" + format;
    assert "{" + body + "}" == "{:" + format + "}";
    BraceFreeToken(body);
    FormatAfterFirstSeparator("", format);
    assert "" + ":" + format == body;
    assert "{{}" == "{" + "{" + "}";
    TokenPlaceholder("{");
    assert Remove("{", '{') == "";
    FormatAfterFirstSeparator("", "");
  }

  // ---------------------------------------------------------------------------------------------
  // Whole templates

  /** A template that is one token renders to that token's substitution. */
  lemma ExpandSingleToken(body: string, model: ModelMap, config: Config, f: Formatter)
    requires body != "" && '}' !in body
    ensures Expand("{" + body + "}", model, config, f) == Substitute("{" + body + "}", model, config, f)
  {
    ExpandToken(body, "", model, config, f);
    assert "{" + body + "}" + "" == "{" + body + "}";
    assert Expand("", model, config, f) == "";
  }

  /** "{a}" with a = "x" renders "x". */
  lemma ExampleName(culture: Culture, f: Formatter)
    requires StringsAsThemselves(f)
    ensures Expand("{a}", map["a" := Str("x")], Config(culture, None), f) == "x"
  {
    var model: ModelMap := map["a" := Str("x")];
    var config := Config(culture, None);
    assert "{a}" == "{" + "a" + "}";
    assert SimpleName("a");
    assert "a" in model && model["a"] == Str("x");
    ExpandSingleToken("a", model, config, f);
    RenderName("a", model, config, f);
    assert f.toText(Str("x")) == Some("x");
  }

  /** "{a.b}" with a = { b = "y" } renders "y". */
  lemma ExampleProperty(culture: Culture, f: Formatter)
    requires StringsAsThemselves(f)
    ensures Expand("{a.b}", map["a" := Obj(map["b" := Str("y")])], Config(culture, None), f) == "y"
  {
    var model: ModelMap := map["a" := Obj(map["b" := Str("y")])];
    var config := Config(culture, None);
    assert "{a.b}" == "{" + "a.b" + "}";
    ExpandSingleToken("a.b", model, config, f);
    ExamplePropertyToken(culture, f);
  }

  lemma ExamplePropertyToken(culture: Culture, f: Formatter)
    requires StringsAsThemselves(f)
    ensures Substitute("{a.b}", map["a" := Obj(map["b" := Str("y")])], Config(culture, None), f) == "y"
  {
    var model: ModelMap := map["a" := Obj(map["b" := Str("y")])];
    var config := Config(culture, None);
    assert "{a.b}" == "{" + "a" + "." + "b" + "}";
    assert SimpleName("a") && SimpleName("b");
    RenderPath("a", "b", model, config, f);
    assert PlaceholderValue(model, "a") == Obj(map["b" := Str("y")]);
    SinglePropertyRead("b", Obj(map["b" := Str("y")]));
    assert Property(Obj(map["b" := Str("y")]), "b") == Some(Str("y"));
    assert f.toText(Str("y")) == Some("y");
  }

  /** A path of one segment is one property read. */
  lemma SinglePropertyRead(property: string, v: Value)
    requires property != "" && '.' !in property && !v.Null?
    ensures ValueByPath(property, v) == Property(v, property)
  {
    assert SplitFirst(property, '.') == (property, None);
  }

  /** "{missing}" without that key stays as it is. */
  lemma ExampleMissingKept(culture: Culture, f: Formatter)
    ensures Expand("{missing}", map[], Config(culture, None), f) == "{missing}"
  {
    var model: ModelMap := map[];
    var config := Config(culture, None);
    assert "{missing}" == "{" + "missing" + "}";
    assert SimpleName("missing");
    ExpandSingleToken("missing", model, config, f);
    RenderName("missing", model, config, f);
  }

  /** "{missing}" without that key becomes the default value when one is set. */
  lemma ExampleMissingDefault(culture: Culture, f: Formatter)
    ensures Expand("{missing}", map[], Config(culture, Some("N/A")), f) == "N/A"
  {
    var model: ModelMap := map[];
    var config := Config(culture, Some("N/A"));
    assert "{missing}" == "{" + "missing" + "}";
    assert SimpleName("missing");
    ExpandSingleToken("missing", model, config, f);
    RenderName("missing", model, config, f);
  }

  /** "{}" is no token: the body needs at least one character. */
  lemma ExampleBareBraces(model: ModelMap, config: Config, f: Formatter)
    ensures Expand("{}", model, config, f) == "{}"
  {
    forall i | 0 <= i < |"{}"|
      ensures TokenLength("{}"[i..]).None?
    {
      TokenLengthNone("{}"[i..]);
    }
    ExpandUnmatched("{}", model, config, f);
  }
}
