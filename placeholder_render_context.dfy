/**
 * `PlaceholderRenderContext` and the `PlaceholderTemplate` it prepares. The context carries the
 * culture used for formats and the default value of the fallback policy, both settable between
 * renders; a template stores its text and its context once and for all.
 */
module PlaceholderContext {
  import opened Results
  import opened Cultures
  import opened Values
  import opened PlaceholderRendering

  /** Text accepted by `Require.NotNullOrEmpty`. */
  type NonEmptyString = s: string | s != "" witness "?"

  class PlaceholderRenderContext {
    /** `Culture`: the culture a placeholder's format is applied in. */
    var culture: Culture
    /** `DefaultValue`: `None` (null) keeps unresolved tokens as they stand. */
    var defaultValue: Option<string>

    /** The context built from a logger alone takes the current culture and no default value. */
    constructor (currentCulture: Culture)
      ensures culture == currentCulture && defaultValue == None
    {
      culture := currentCulture;
      defaultValue := None;
    }

    /** The context with a default value, in the current culture. */
    constructor WithDefaultValue(defaultValue: Option<string>, currentCulture: Culture)
      ensures culture == currentCulture && this.defaultValue == defaultValue
    {
      culture := currentCulture;
      this.defaultValue := defaultValue;
    }

    /** The context with an explicit culture and an optional default value. */
    constructor WithCulture(culture: Culture, defaultValue: Option<string>)
      ensures this.culture == culture && this.defaultValue == defaultValue
    {
      this.culture := culture;
      this.defaultValue := defaultValue;
    }

    /** The settings a render reads. */
    function Settings(): Config
      reads this
    {
      Config(culture, defaultValue)
    }

    /** `Parse`: a template bound to this context; an empty text is rejected. */
    method Parse(template: string) returns (r: Result<PlaceholderTemplate, Error>)
      ensures template == "" ==> r == Failure(InvalidArgument("template"))
      ensures template != "" ==> r.Success? && fresh(r.value) && r.value.template == template && r.value.context == this
    {
      if template == "" {
        return Failure(InvalidArgument("template"));
      }
      var t := new PlaceholderTemplate(template, this);
      r := Success(t);
    }

    /**
     * `ParseAndRender`: every match of `\{([^}]+)\}` in the template, from the left, is replaced by
     * its substitution, and the text between matches is copied; an empty template is rejected.
     */
    method ParseAndRender(template: string, model: ModelMap, f: Formatter) returns (r: Result<string, Error>)
      ensures template == "" ==> r == Failure(InvalidArgument("template"))
      ensures template != "" ==> r == Success(Expand(template, model, Settings(), f))
    {
      if template == "" {
        return Failure(InvalidArgument("template"));
      }
      var output := ReplaceMatches(template, model, Config(culture, defaultValue), f);
      r := Success(output);
    }
  }

  /**
   * `Regex.Replace(template, pattern, evaluator)`: the scan from the left that copies the text
   * between matches and appends the evaluator's replacement of each match.
   */
  method ReplaceMatches(template: string, model: ModelMap, config: Config, f: Formatter) returns (output: string)
    ensures output == Expand(template, model, config, f)
  {
    output := "";
    var i := 0;
    while i < |template|
      invariant 0 <= i <= |template|
      invariant output + Expand(template[i..], model, config, f) == Expand(template, model, config, f)
    {
      var piece, next := ScanStep(template, i, model, config, f);
      AppendAssociative(output, piece, Expand(template[next..], model, config, f));
      output, i := output + piece, next;
    }
    assert template[i..] == [];
    assert Expand(template[i..], model, config, f) == [];
  }

  lemma AppendAssociative(a: string, b: string, c: string)
    ensures a + b + c == a + (b + c)
  {
  }

  /**
   * One step of `Regex.Replace` at position `i`: the evaluator's replacement of the match found
   * there, or the character at `i` when there is none, and the position the scan resumes at.
   */
  method ScanStep(template: string, i: nat, model: ModelMap, config: Config, f: Formatter) returns (piece: string, next: nat)
    requires i < |template|
    ensures i < next <= |template|
    ensures Expand(template[i..], model, config, f) == piece + Expand(template[next..], model, config, f)
  {
    var end := MatchAt(template, i);
    ExpandAt(template, i, end, model, config, f);
    match end {
      case Some(e) =>
        piece, next := Substitute(template[i..e], model, config, f), e;
      case None =>
        piece, next := [template[i]], i + 1;
    }
  }

  /**
   * The regex engine's attempt at position `i`: the end of the match of `\{([^}]+)\}` starting
   * there, found by looking for the first closing brace after the opening one.
   */
  method MatchAt(template: string, i: nat) returns (end: Option<nat>)
    requires i < |template|
    ensures (end == (match TokenLength(template[i..]) case Some(k) => Some(i + k) case None => None))
  {
    if template[i] != Opening {
      return None;
    }
    var j := i + 1;
    while j < |template| && template[j] != Closing
      invariant i + 1 <= j <= |template|
      invariant Closing !in template[i + 1..j]
    {
      j := j + 1;
    }
    ghost var s := template[i..];
    assert s[1..] == template[i + 1..];
    if j == |template| {
      assert template[i + 1..j] == s[1..];
      return None;
    }
    assert s[1..][..j - i - 1] == template[i + 1..j];
    Text.IndexOfFirst(s[1..], Closing, j - i - 1);
    if j == i + 1 {
      return None;
    }
    end := Some(j + 1);
  }

  class PlaceholderTemplate {
    /** The template text, fixed at construction. */
    const template: NonEmptyString
    /** The context the template renders with, fixed at construction. */
    const context: PlaceholderRenderContext

    constructor (template: string, context: PlaceholderRenderContext)
      requires template != ""
      ensures this.template == template && this.context == context
    {
      this.template := template;
      this.context := context;
    }

    /** `Render`: the stored text rendered by the stored context with its current settings. */
    method Render(model: ModelMap, f: Formatter) returns (r: string)
      ensures r == Expand(template, model, context.Settings(), f)
    {
      var rendered := context.ParseAndRender(template, model, f);
      r := rendered.value;
    }
  }

  /** `context.Parse(t).Render(m)` is `context.ParseAndRender(t, m)`, the rejection of "" included. */
  method ParseThenRender(context: PlaceholderRenderContext, template: string, model: ModelMap, f: Formatter)
    returns (viaTemplate: Result<string, Error>, direct: Result<string, Error>)
    ensures viaTemplate == direct
  {
    var parsed := context.Parse(template);
    match parsed {
      case Success(t) =>
        var text := t.Render(model, f);
        viaTemplate := Success(text);
      case Failure(e) =>
        viaTemplate := Failure(e);
    }
    direct := context.ParseAndRender(template, model, f);
  }

  /** With the context's settings unchanged, rendering a template twice gives the same text. */
  method RenderTwice(t: PlaceholderTemplate, model: ModelMap, f: Formatter) returns (first: string, second: string)
    ensures first == second
  {
    first := t.Render(model, f);
    second := t.Render(model, f);
  }
}
