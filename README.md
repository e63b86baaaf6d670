# Message template renderer — a Dafny model

This project models the core of the message template renderer in `Queo.Commons.MessageTemplateRenderer`.

## The placeholder renderer

It has two parts:

- `PlaceholderRenderContext` rewrites a template.
  - Every match of `\{([^}]+)\}` is replaced, scanning from the left.
  - Inside a match, every brace is removed. The rest splits at the first `:` into a path and a format.
  - The path splits at the first `.` into a model key and a property path.
  - The property path is resolved segment by segment.
  - The value is written with its default text conversion, or with the format under the context's culture.
  - Anything that goes wrong in one placeholder becomes fallback text: the original token, or the context's `DefaultValue` when one is set.
- `PlaceholderTemplate` stores a template and its context, and renders it on request.

## The file message provider

`FileMessageProvider` locates a template file and gives its text to the render context.

- The first file name it tries is `{name}.{culture}.template`.
- It then drops the culture's last subtag and tries again.
- It ends with `{name}.template` for the invariant culture.
- If that last file is also missing, it fails with a not-found error.

## How things are represented

- **Model values** are a tagged tree (`Values.Value`). Reading a property is a look-up in an object's property map.
- **Text conversion and formatting** are uninterpreted functions. They are passed in as a `Formatter`, and `None` from `toText` or `format` stands for an exception thrown by `ToString` or `string.Format`.
- **Cultures** are sequences of subtags. The parent drops the last subtag, and the empty sequence is the invariant culture.
- **The file system** has two parts:
  - the lookup sees a set of existing paths;
  - reading a template uses a map from path to contents.

  Paths are relative to the application's base directory.
- **The thread's current culture** is a parameter.
- **Exceptions that reach a caller** are `Failure` values. `Require.NotNullOrEmpty` on a method argument gives `InvalidArgument(name)`. On a constructor argument it is a precondition.

## Modules

- `Results`: Option, Result and the Error type.
- `Text`: the ordinal string operations.
- `Cultures`: cultures and their parent chain.
- `Values`: model values and formatting.
- `PlaceholderModel`: name, path and resolution.
- `PlaceholderRendering`: the token scan as a specification function, and its properties.
- `PlaceholderContext`: the render context and template classes. The scan here is a loop that is proved against the specification.
- `FileMessages`: the resource lookup and the provider.

## Model

| member | source | states |
|---|---|---|
| Text.IndexOf | src/Commons.MessageTemplateRenderer/Context/PlaceholderRenderContext.cs:236 | no index exactly when the character is absent; otherwise the position holds the character and no earlier position does |
| Text.IndexOfFirst | src/Commons.MessageTemplateRenderer/Context/PlaceholderRenderContext.cs:236 | an occurrence with none before it is the index found |
| Text.Remove | src/Commons.MessageTemplateRenderer/Context/PlaceholderRenderContext.cs:131 | the removed character no longer occurs; every remaining character was there before; the result is no longer |
| Text.RemoveConcat | src/Commons.MessageTemplateRenderer/Context/PlaceholderRenderContext.cs:131 | removal distributes over concatenation, so the order of what is kept is preserved |
| Text.RemoveAbsent | src/Commons.MessageTemplateRenderer/Context/PlaceholderRenderContext.cs:131 | removing a character that does not occur changes nothing |
| Text.SplitFirst | src/Commons.MessageTemplateRenderer/Context/PlaceholderRenderContext.cs:132 | split with limit 2: without the separator the whole text is the only part; with it, text = head + separator + tail and the head holds no separator |
| Text.SplitFirstAt | src/Commons.MessageTemplateRenderer/Context/PlaceholderRenderContext.cs:132 | the split falls at the first separator, whatever the tail holds |
| Text.Split | src/Commons.MessageTemplateRenderer/Context/PlaceholderRenderContext.cs:280 | `Split('.')` without options: the parts between separators, empty ones included; there is always at least one part |
| Text.Join | src/Commons.MessageTemplateRenderer/Context/PlaceholderRenderContext.cs:287 | `string.Join(".", parts)`: the parts with the separator between neighbours |
| Text.JoinSplit | src/Commons.MessageTemplateRenderer/Context/PlaceholderRenderContext.cs:280 | no part of a split holds the separator; joining the parts gives the text back |
| Text.SplitJoin | src/Commons.MessageTemplateRenderer/Context/PlaceholderRenderContext.cs:280-287 | splitting a join of separator-free parts gives the parts back (re-joining the remaining segments loses nothing) |
| Cultures.Name | src/Commons.MessageTemplateRenderer/Provider/FileMessageProvider.cs:55-56 | the culture name is empty exactly for the invariant culture |
| Cultures.Parent | src/Commons.MessageTemplateRenderer/Provider/FileMessageProvider.cs:79 | `CultureInfo.Parent`: the culture without its last subtag; the invariant culture is its own parent |
| Cultures.Chain | src/Commons.MessageTemplateRenderer/Provider/FileMessageProvider.cs:73-79 | the parent chain starts at the culture, drops one subtag per step, ends at the invariant culture, and has one entry per subtag plus one |
| Cultures.GermanGermanyChain | tests/Commons.MessageTemplateRenderer.Tests/FileMessageProviderTest.cs:22 | "de-DE" has the name "de-DE" and the chain de-DE, de, invariant |
| Values.Property | src/Commons.MessageTemplateRenderer/Context/PlaceholderRenderContext.cs:282 | a property read succeeds exactly on an object that has a property of that (non-empty) name, and yields that property's value |
| PlaceholderModel.PlaceholderName | src/Commons.MessageTemplateRenderer/Context/PlaceholderRenderContext.cs:234-243 | without a '.' or with a '.' at index 0, the whole placeholder; otherwise a non-empty, '.'-free proper prefix that is followed by the first '.' |
| PlaceholderModel.PlaceholderPath | src/Commons.MessageTemplateRenderer/Context/PlaceholderRenderContext.cs:245-254 | empty without a '.' or with a '.' at index 0; otherwise placeholder = name + "." + path |
| PlaceholderModel.PlaceholderValue | src/Commons.MessageTemplateRenderer/Context/PlaceholderRenderContext.cs:256-264 | the model entry of that name, or null when the key is missing |
| PlaceholderModel.ValueByPath | src/Commons.MessageTemplateRenderer/Context/PlaceholderRenderContext.cs:266-291 | `GetValueFromModelByPath`: null stays null, an empty path gives the value itself, and otherwise the first segment is read as a property (a missing one fails) and the rest of the path is resolved from its value |
| PlaceholderModel.NameAndPathOf | src/Commons.MessageTemplateRenderer/Context/PlaceholderRenderContext.cs:234-254 | "name.path" with a '.'-free name gives back exactly that name and that path |
| PlaceholderModel.ValueByPathWalks | src/Commons.MessageTemplateRenderer/Context/PlaceholderRenderContext.cs:266-291 | recursive resolution equals reading the '.'-separated segments left to right: null yields null, no segments yield the value, and a missing property fails |
| PlaceholderModel.TrailingSeparatorIgnored | src/Commons.MessageTemplateRenderer/Context/PlaceholderRenderContext.cs:280-290 | a path with one trailing '.' resolves like the path without it |
| PlaceholderRendering.Expand | src/Commons.MessageTemplateRenderer/Context/PlaceholderRenderContext.cs:185 | `Regex.Replace`: scanning from the left, each match of the pattern is replaced by its substitution and the scan resumes after it; every other character is copied |
| PlaceholderRendering.TokenLength | src/Commons.MessageTemplateRenderer/Context/PlaceholderRenderContext.cs:102-117 | a match at the start is '{', at least one character other than '}', then the first '}' |
| PlaceholderRendering.TokenLengthNone | src/Commons.MessageTemplateRenderer/Context/PlaceholderRenderContext.cs:111 | no match starts here exactly when there is no '{', non-'}' character and later '}' |
| PlaceholderRendering.ExpandUnmatched | src/Commons.MessageTemplateRenderer/Context/PlaceholderRenderContext.cs:185 | a template with no match anywhere renders to itself |
| PlaceholderRendering.NoClosingBraceUnchanged | src/Commons.MessageTemplateRenderer/Context/PlaceholderRenderContext.cs:102-117 | a template without '}' renders to itself |
| PlaceholderRendering.ExpandLiteralPrefix | src/Commons.MessageTemplateRenderer/Context/PlaceholderRenderContext.cs:185 | text without '{' before the rest of the template is copied unchanged |
| PlaceholderRendering.ExpandToken | src/Commons.MessageTemplateRenderer/Context/PlaceholderRenderContext.cs:111 | "{body}" + rest, with a non-empty '}'-free body, renders to the token's substitution followed by the rendering of rest |
| PlaceholderRendering.PlaceholderText | src/Commons.MessageTemplateRenderer/Context/PlaceholderRenderContext.cs:131 | the matched token with every opening and every closing brace deleted |
| PlaceholderRendering.PathAndFormat | src/Commons.MessageTemplateRenderer/Context/PlaceholderRenderContext.cs:132-142 | the text before the first ':' as path expression, and everything after it as format, or "" without a ':' |
| PlaceholderRendering.PlaceholderResult | src/Commons.MessageTemplateRenderer/Context/PlaceholderRenderContext.cs:128-165 | the `try` block: no result for an empty path expression, a failed resolution or a null value; otherwise the value's text without a format, or its formatted text under the culture, either of which may throw |
| PlaceholderRendering.Fallback | src/Commons.MessageTemplateRenderer/Context/PlaceholderRenderContext.cs:175-181 | the token as it stands when `DefaultValue` is null, `DefaultValue` otherwise |
| PlaceholderRendering.Substitute | src/Commons.MessageTemplateRenderer/Context/PlaceholderRenderContext.cs:126-182 | the match evaluator: the `try` block's text, or the fallback when it throws or meets null |
| PlaceholderRendering.TokenPlaceholder | src/Commons.MessageTemplateRenderer/Context/PlaceholderRenderContext.cs:131 | the placeholder of "{body}" is the body with every '{' removed |
| PlaceholderRendering.NestedOpeningBraceStripped | src/Commons.MessageTemplateRenderer/Context/PlaceholderRenderContext.cs:131 | the token "{{ x }" has the placeholder " x " |
| PlaceholderRendering.FormatAfterFirstSeparator | src/Commons.MessageTemplateRenderer/Context/PlaceholderRenderContext.cs:132-142 | without ':' the format is empty; with it, the path is before the first ':' and the format is all after it, ':' included |
| PlaceholderRendering.BraceFreeToken | src/Commons.MessageTemplateRenderer/Context/PlaceholderRenderContext.cs:131 | a brace-free body is its own placeholder |
| PlaceholderRendering.SimpleNameParts | src/Commons.MessageTemplateRenderer/Context/PlaceholderRenderContext.cs:132-142 | a single key has no format, and is the name with an empty path |
| PlaceholderRendering.RenderName | src/Commons.MessageTemplateRenderer/Context/PlaceholderRenderContext.cs:150-181 | "{name}": the fallback when the key is missing or null or the value's `ToString` throws, otherwise the value's text |
| PlaceholderRendering.RenderFormatted | src/Commons.MessageTemplateRenderer/Context/PlaceholderRenderContext.cs:154-162 | "{name:format}": the value formatted under the context's culture, or the fallback when the value is missing or null or the format fails |
| PlaceholderRendering.RenderPath | src/Commons.MessageTemplateRenderer/Context/PlaceholderRenderContext.cs:150-167 | "{name.path}": the path resolved from the model entry; the fallback on a failed resolution, a null result or a `ToString` that throws |
| PlaceholderRendering.PathBodyParts | src/Commons.MessageTemplateRenderer/Context/PlaceholderRenderContext.cs:131-142 | "{name.path}" has the placeholder name.path, no format, that name and that path |
| PlaceholderRendering.MissingPropertyFallsBack | src/Commons.MessageTemplateRenderer/Context/PlaceholderRenderContext.cs:167-182 | a missing property never aborts the render: the token gets the fallback |
| PlaceholderRendering.NullOnPathFallsBack | src/Commons.MessageTemplateRenderer/Context/PlaceholderRenderContext.cs:269-272 | a null met on the way stops resolution, and the token gets the fallback |
| PlaceholderRendering.EmptyNameFallsBack | src/Commons.MessageTemplateRenderer/Context/PlaceholderRenderContext.cs:199-201 | an empty name ("{:x}", "{{}") is rejected by the placeholder model, and the token gets the fallback |
| PlaceholderRendering.EmptyNameParts | src/Commons.MessageTemplateRenderer/Context/PlaceholderRenderContext.cs:131-142 | "{:x}" and "{{}" have an empty path |
| PlaceholderRendering.ExpandSingleToken | src/Commons.MessageTemplateRenderer/Context/PlaceholderRenderContext.cs:185 | a template that is one token renders to that token's substitution |
| PlaceholderRendering.ExampleName | src/Commons.MessageTemplateRenderer/Context/PlaceholderRenderContext.cs:164 | "{a}" with a = "x" renders "x" |
| PlaceholderRendering.ExampleProperty | src/Commons.MessageTemplateRenderer/Context/PlaceholderRenderContext.cs:282-290 | "{a.b}" with a = { b = "y" } renders "y" |
| PlaceholderRendering.ExamplePropertyToken | src/Commons.MessageTemplateRenderer/Context/PlaceholderRenderContext.cs:282-290 | the token "{a.b}" is replaced by the text of a.b |
| PlaceholderRendering.SinglePropertyRead | src/Commons.MessageTemplateRenderer/Context/PlaceholderRenderContext.cs:282-290 | a one-segment path is a single property read |
| PlaceholderRendering.ExampleMissingKept | src/Commons.MessageTemplateRenderer/Context/PlaceholderRenderContext.cs:176-179 | "{missing}" without that key and without a default value stays as written |
| PlaceholderRendering.ExampleMissingDefault | src/Commons.MessageTemplateRenderer/Context/PlaceholderRenderContext.cs:181 | "{missing}" without that key becomes the default value |
| PlaceholderRendering.ExampleBareBraces | src/Commons.MessageTemplateRenderer/Context/PlaceholderRenderContext.cs:111 | "{}" is no token and renders to itself |
| PlaceholderContext.PlaceholderRenderContext.constructor | src/Commons.MessageTemplateRenderer/Context/PlaceholderRenderContext.cs:27-32 | the current culture and no default value |
| PlaceholderContext.PlaceholderRenderContext.WithDefaultValue | src/Commons.MessageTemplateRenderer/Context/PlaceholderRenderContext.cs:42-46 | the current culture and the given default value |
| PlaceholderContext.PlaceholderRenderContext.WithCulture | src/Commons.MessageTemplateRenderer/Context/PlaceholderRenderContext.cs:60-67 | the given culture and the given, possibly absent, default value |
| PlaceholderContext.PlaceholderRenderContext.Parse | src/Commons.MessageTemplateRenderer/Context/PlaceholderRenderContext.cs:86-89 | a new template holding the text and this context; an empty text is rejected as an invalid "template" argument |
| PlaceholderContext.PlaceholderRenderContext.ParseAndRender | src/Commons.MessageTemplateRenderer/Context/PlaceholderRenderContext.cs:97-186 | the match-by-match rewrite equals the rendering function under the context's culture and default value; an empty template is rejected as an invalid "template" argument |
| PlaceholderContext.ReplaceMatches | src/Commons.MessageTemplateRenderer/Context/PlaceholderRenderContext.cs:185 | the left-to-right loop over the template produces exactly the rendering function's result |
| PlaceholderContext.ScanStep | src/Commons.MessageTemplateRenderer/Context/PlaceholderRenderContext.cs:185 | one step moves strictly forward, and its piece followed by the rendering of the rest is the rendering from the current position |
| PlaceholderContext.MatchAt | src/Commons.MessageTemplateRenderer/Context/PlaceholderRenderContext.cs:102-117 | the regex's attempt at one position: the end of the match there, exactly when one exists |
| PlaceholderContext.PlaceholderTemplate.constructor | src/Commons.MessageTemplateRenderer/Templates/PlaceholderTemplate.cs:16-22 | requires a non-empty text; stores it and the context in constant fields |
| PlaceholderContext.PlaceholderTemplate.Render | src/Commons.MessageTemplateRenderer/Templates/PlaceholderTemplate.cs:29-33 | the stored text rendered by the stored context with its current settings |
| PlaceholderContext.ParseThenRender | src/Commons.MessageTemplateRenderer/Context/PlaceholderRenderContext.cs:86-89 | parsing then rendering gives what parse-and-render gives, the rejection of "" included |
| PlaceholderContext.RenderTwice | src/Commons.MessageTemplateRenderer/Templates/PlaceholderTemplate.cs:29-33 | with the context unchanged, rendering a template twice gives the same text |
| FileMessages.CombinePath | src/Commons.MessageTemplateRenderer/Provider/FileMessageProvider.cs:59-62 | `Path.Combine` with '/': an empty name gives the directory, an empty directory or a rooted name gives the name, and otherwise one separator joins them |
| FileMessages.CombinePathParts | src/Commons.MessageTemplateRenderer/Provider/FileMessageProvider.cs:59-62 | the name ends the path; an empty name leaves the directory; a rooted name stands alone; an empty directory adds nothing; otherwise the directory starts the path and exactly one separator comes before the non-empty name |
| FileMessages.CultureInfixOf | src/Commons.MessageTemplateRenderer/Provider/FileMessageProvider.cs:55-56 | empty exactly for the invariant culture; otherwise '.' and the culture name |
| FileMessages.CultureInfix | src/Commons.MessageTemplateRenderer/Provider/FileMessageProvider.cs:55-56 | "" for the invariant culture, "." and the culture name otherwise |
| FileMessages.ResourceName | src/Commons.MessageTemplateRenderer/Provider/FileMessageProvider.cs:60 | `{templateName}{cultureInfix}.template` |
| FileMessages.Candidate | src/Commons.MessageTemplateRenderer/Provider/FileMessageProvider.cs:62 | the resource name combined with the resource directory |
| FileMessages.ResourceNameParts | src/Commons.MessageTemplateRenderer/Provider/FileMessageProvider.cs:60 | the template name, then the culture infix, then ".template" |
| FileMessages.ResourceNameCases | src/Commons.MessageTemplateRenderer/Provider/FileMessageProvider.cs:55-60 | name.template for the invariant culture; name.culture.template otherwise |
| FileMessages.Candidates | src/Commons.MessageTemplateRenderer/Provider/FileMessageProvider.cs:73-79 | one candidate path per culture of the chain |
| FileMessages.CandidatesUnfold | src/Commons.MessageTemplateRenderer/Provider/FileMessageProvider.cs:79 | the first candidate is the culture's own, and the rest are the parent's candidates |
| FileMessages.FindResource | src/Commons.MessageTemplateRenderer/Provider/FileMessageProvider.cs:53-83 | a path that is found exists |
| FileMessages.FindResourceFailsIffNoneExists | src/Commons.MessageTemplateRenderer/Provider/FileMessageProvider.cs:67-79 | the lookup fails exactly when no candidate of the chain exists |
| FileMessages.FindResourceFirstExisting | src/Commons.MessageTemplateRenderer/Provider/FileMessageProvider.cs:67-79 | the found path is a candidate of the chain, and every more specific candidate is missing |
| FileMessages.FindResourceNotFoundError | src/Commons.MessageTemplateRenderer/Provider/FileMessageProvider.cs:73-76 | the not-found error names the invariant culture's resource name and its path |
| FileMessages.Probes | src/Commons.MessageTemplateRenderer/Provider/FileMessageProvider.cs:65-79 | the paths the lookup checks in order: the culture's candidate, then, while it is missing and the culture has a name, the parent's probes; never empty |
| FileMessages.FindResourceByProbes | src/Commons.MessageTemplateRenderer/Provider/FileMessageProvider.cs:67-79 | the lookup's result is its last probe when that exists, and otherwise the not-found error for the invariant resource at that path |
| Results.Error.Message | src/Commons.MessageTemplateRenderer/Provider/FileMessageProvider.cs:76 | the exception text "Die Ressource {name} wurde unter {path} nicht gefunden." |
| FileMessages.NotFoundMessage | src/Commons.MessageTemplateRenderer/Provider/FileMessageProvider.cs:73-76 | a failed lookup's message names `{templateName}.template` and the invariant candidate's path |
| FileMessages.ProbesPrefix | src/Commons.MessageTemplateRenderer/Provider/FileMessageProvider.cs:73-79 | the probed paths are a non-empty prefix of the candidates, so there are at most |subtags| + 1 probes |
| FileMessages.ProbesStopAtHit | src/Commons.MessageTemplateRenderer/Provider/FileMessageProvider.cs:67-70 | every probe but the last misses, and a hit is the last probe |
| FileMessages.CandidateUnder | src/Commons.MessageTemplateRenderer/Provider/FileMessageProvider.cs:59-62 | under a directory without a trailing separator, the candidate is directory/name{infix}.template |
| FileMessages.GermanInfixes | src/Commons.MessageTemplateRenderer/Provider/FileMessageProvider.cs:55-56 | the de-DE chain has the infixes ".de-DE", ".de" and "" |
| FileMessages.GermanLookup | src/Commons.MessageTemplateRenderer/Provider/FileMessageProvider.cs:53-83 | under de-DE, the de-DE, de and invariant candidates are probed in this order |
| FileMessages.GermanCandidates | src/Commons.MessageTemplateRenderer/Provider/FileMessageProvider.cs:55-62 | the three de-DE candidate paths, spelled out |
| FileMessages.TestLoadResource | tests/Commons.MessageTemplateRenderer.Tests/FileMessageProviderTest.cs:28-35 | an existing Test.de-DE.template is the file found |
| FileMessages.TestRenderMessageWithoutCulture | tests/Commons.MessageTemplateRenderer.Tests/FileMessageProviderTest.cs:37-44 | with only TestWithoutCulture.template present, the lookup falls back to it |
| FileMessages.TestRenderNotExistingResource | tests/Commons.MessageTemplateRenderer.Tests/FileMessageProviderTest.cs:46-50 | with no TestNotExistingResource file, the lookup fails with not-found for TestNotExistingResource.template |
| FileMessages.LoadTemplate | src/Commons.MessageTemplateRenderer/Provider/FileMessageProvider.cs:85-95 | the contents of the located file; the lookup's error otherwise |
| FileMessages.FileMessageProvider.constructor | src/Commons.MessageTemplateRenderer/Provider/FileMessageProvider.cs:18-28 | requires a non-empty resource path; stores it and the render context |
| FileMessages.FileMessageProvider.RenderMessage | src/Commons.MessageTemplateRenderer/Provider/FileMessageProvider.cs:40-51 | an empty template name is rejected; otherwise the located text is rendered by the render context (its rejection of an empty file included), and a lookup failure is passed on |

## Left out

- The DotLiquid render context and template. They wrap an external engine whose behaviour is not visible here. The provider's render context is therefore always a `PlaceholderRenderContext`, although the source accepts any `IRenderContext`.
- The interfaces `ITemplate`, `IRenderContext` and `IMessageProvider`, and the older copies under `Commons.MessageTemplateRenderer/src`. The interfaces only declare these same operations.
- Values.Formatter: a `ToString` that returns null is not modelled; the conversion either yields text or throws (`None`).
- Real .NET text conversion and formatting: numbers, dates, floating point and culture tables. `ToString` and `string.Format` are an uninterpreted `Formatter`.
- Values.Property: a property read never throws. A getter that throws and an ambiguous `GetProperty` (PlaceholderRenderContext.cs:282) also end in the fallback in the source; the value tree has no getters and an object's property names are unique, so the model cannot express either. It models only the named properties of objects. Built-in properties of strings and numbers (such as `Length`), indexers and non-public members are not modelled.
- Cultures: not the .NET culture table. A culture's parent is its name minus the last subtag, so special parents (such as neutral cultures for scripts) are not modelled.
- Null references: `Require.NotNull` guards and null models or contexts cannot be expressed, because maps, strings and objects are values here. A null string default value is `None`.
- Logging in both classes has no effect on results, so it is left out.
- The thread's current culture and `AppDomain.CurrentDomain.BaseDirectory` are left out. The culture is a parameter, and paths are relative to the base directory.
- File I/O is modelled as values: a set of existing paths, and a map for reading. Streams, read errors and file handles are not modelled.
- FileMessages.CombinePath: models `Path.Combine` with the Unix separator '/' only. Windows drive roots and the '\\' separator are not modelled.
- The settable `RenderContext`, `ResourceRelativePath`, `Culture` and `DefaultValue` properties are class fields. Only their use matters here. Whatever they hold when a call starts is what the call uses.
- PlaceholderModel.ValueByPathWalks: requires that the path does not end with '.'. The source ignores one trailing '.', which TrailingSeparatorIgnored states separately.
- Text.Remove: states membership and length, not the full multiset. RemoveConcat and RemoveAbsent state the order-preserving behaviour that the proofs use.
- FileMessages.FindResourceNotFoundError: the not-found error is raised at the invariant culture, so it names that culture's resource name and path (FileMessageProvider.cs:73-76), not the first candidate probed.
