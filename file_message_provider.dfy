/**
 * `FileMessageProvider`: a message is rendered from a template file that is looked up by name
 * and culture under a resource directory. The lookup tries `{name}.{culture}.template` for the
 * current culture, then for its parent, and so on down to `{name}.template` for the invariant
 * culture; the first file that exists is read and rendered by the provider's render context.
 *
 * The file system is a value: a set of existing paths for the lookup, and a map from path to
 * contents for reading. Paths are relative to the application's base directory.
 */
module FileMessages {
  import opened Results
  import opened Text
  import opened Cultures
  import opened Values
  import opened PlaceholderRendering
  import opened PlaceholderContext

  const DirectorySeparator := '/'
  const TemplateExtension := ".template"

  /**
   * `Path.Combine(directory, name)` on a Unix-style file system: an empty name adds nothing, an
   * empty directory adds nothing, a rooted name stands alone, and a separator is inserted unless
   * the directory ends with one.
   */
  function CombinePath(directory: string, name: string): string
  {
    if name == "" then directory
    else if directory == "" then name
    else if name[0] == DirectorySeparator then name
    else if directory[|directory| - 1] == DirectorySeparator then directory + name
    else directory + [DirectorySeparator] + name
  }

  /**
   * The name ends the combined path, and an empty name leaves the directory as it is. Under a
   * non-empty directory a non-empty relative name follows the directory and exactly one separator.
   */
  lemma CombinePathParts(directory: string, name: string)
    ensures (var path := CombinePath(directory, name);
      |name| <= |path| && path[|path| - |name|..] == name)
    ensures name == "" ==> CombinePath(directory, name) == directory
    ensures name != "" && name[0] == DirectorySeparator ==> CombinePath(directory, name) == name
    ensures directory == "" ==> CombinePath(directory, name) == name
    ensures (var path := CombinePath(directory, name);
      directory != "" && name != "" && name[0] != DirectorySeparator ==>
        |directory| + |name| <= |path| <= |directory| + 1 + |name| && path[..|directory|] == directory &&
        path[|path| - |name| - 1] == DirectorySeparator)
  {
  }

  /** `.{cultureName}`, or nothing for the invariant culture. */
  function CultureInfix(c: Culture): string
  {
    if Name(c) == "" then "" else "." + Name(c)
  }

  /** The infix is empty exactly for the invariant culture, and is otherwise '.' and the name. */
  lemma CultureInfixOf(c: Culture)
    ensures CultureInfix(c) == "" <==> c == Invariant
    ensures CultureInfix(c) != "" ==> CultureInfix(c)[0] == '.' && CultureInfix(c)[1..] == Name(c)
  {
  }

  /** `{templateName}{cultureInfix}.template`. */
  function ResourceName(templateName: string, c: Culture): string
  {
    templateName + CultureInfix(c) + TemplateExtension
  }

  /** A resource name is the template name, the culture infix and the extension, in this order. */
  lemma ResourceNameParts(templateName: string, c: Culture)
    ensures (var name := ResourceName(templateName, c);
      |name| >= |templateName| + |TemplateExtension| &&
      name[..|templateName|] == templateName &&
      name[|name| - |TemplateExtension|..] == TemplateExtension &&
      name[|templateName|..|name| - |TemplateExtension|] == CultureInfix(c))
  {
    var name := ResourceName(templateName, c);
    assert name[..|templateName|] == templateName;
    assert name[|templateName|..|name| - |TemplateExtension|] == CultureInfix(c);
  }

  /** The two names the lookup builds for a culture with a name and for the invariant culture. */
  lemma ResourceNameCases(templateName: string, c: Culture)
    ensures c == Invariant ==> ResourceName(templateName, c) == templateName + ".template"
    ensures c != Invariant ==> ResourceName(templateName, c) == templateName + "." + Name(c) + ".template"
  {
  }

  /** The path probed for `templateName` in culture `c`. */
  function Candidate(directory: string, templateName: string, c: Culture): string
  {
    CombinePath(directory, ResourceName(templateName, c))
  }

  /**
   * The candidates in the order of the culture chain: most specific first, the invariant
   * culture's candidate last.
   */
  function Candidates(directory: string, templateName: string, c: Culture): (candidates: seq<string>)
    ensures |candidates| == |c.subtags| + 1
  {
    var chain := Chain(c);
    seq(|chain|, i requires 0 <= i < |chain| => Candidate(directory, templateName, chain[i]))
  }

  lemma CandidatesUnfold(directory: string, templateName: string, c: Culture)
    ensures Candidates(directory, templateName, c)[0] == Candidate(directory, templateName, c)
    ensures c != Invariant ==>
      Candidates(directory, templateName, c)[1..] == Candidates(directory, templateName, Parent(c))
  {
    if c != Invariant {
      assert Chain(c) == [c] + Chain(Parent(c));
    }
  }

  /**
   * `FindResource`: the candidate of `c` if it exists; otherwise, for the invariant culture, a
   * not-found error naming the candidate, and for any other culture the lookup for its parent.
   */
  function FindResource(existing: set<string>, directory: string, templateName: string, c: Culture): (r: Result<string, Error>)
    ensures r.Success? ==> r.value in existing
    decreases |c.subtags|
  {
    var path := Candidate(directory, templateName, c);
    if path in existing then Success(path)
    else if Name(c) == "" then Failure(ResourceNotFound(ResourceName(templateName, c), path))
    else FindResource(existing, directory, templateName, Parent(c))
  }

  /** The paths the lookup checks, in the order it checks them. */
  function Probes(existing: set<string>, directory: string, templateName: string, c: Culture): (ps: seq<string>)
    ensures ps != []
    decreases |c.subtags|
  {
    var path := Candidate(directory, templateName, c);
    if path in existing || Name(c) == "" then [path]
    else [path] + Probes(existing, directory, templateName, Parent(c))
  }

  /** The lookup fails exactly when none of the candidates exists. */
  lemma {:induction false} FindResourceFailsIffNoneExists(existing: set<string>, directory: string, templateName: string, c: Culture)
    ensures (var cs := Candidates(directory, templateName, c);
      FindResource(existing, directory, templateName, c).Failure? <==> forall j :: 0 <= j < |cs| ==> cs[j] !in existing)
    decreases |c.subtags|
  {
    var cs := Candidates(directory, templateName, c);
    CandidatesUnfold(directory, templateName, c);
    if cs[0] !in existing && c != Invariant {
      var ps := Candidates(directory, templateName, Parent(c));
      FindResourceFailsIffNoneExists(existing, directory, templateName, Parent(c));
      assert forall j :: 0 <= j < |ps| ==> ps[j] == cs[j + 1];
    }
  }

  /**
   * A found resource is the first existing candidate: every more specific candidate is missing.
   * No less specific candidate takes its place.
   */
  lemma {:induction false} FindResourceFirstExisting(existing: set<string>, directory: string, templateName: string, c: Culture)
    ensures (var cs := Candidates(directory, templateName, c);
      var r := FindResource(existing, directory, templateName, c);
      r.Success? ==>
        exists i :: 0 <= i < |cs| && r.value == cs[i] && forall j :: 0 <= j < i ==> cs[j] !in existing)
    decreases |c.subtags|
  {
    var cs := Candidates(directory, templateName, c);
    CandidatesUnfold(directory, templateName, c);
    if cs[0] in existing {
      assert FindResource(existing, directory, templateName, c).value == cs[0];
    } else if c != Invariant {
      var ps := Candidates(directory, templateName, Parent(c));
      var r := FindResource(existing, directory, templateName, Parent(c));
      FindResourceFirstExisting(existing, directory, templateName, Parent(c));
      if r.Success? {
        var i :| 0 <= i < |ps| && r.value == ps[i] && forall j :: 0 <= j < i ==> ps[j] !in existing;
        assert FindResource(existing, directory, templateName, c) == r;
        forall j | 0 <= j < i + 1
          ensures cs[j] !in existing
        {
          if j > 0 {
            assert cs[j] == ps[j - 1];
          }
        }
        assert r.value == cs[i + 1];
      }
    }
  }

  /** The not-found error names the invariant culture's resource and its path. */
  lemma {:induction false} FindResourceNotFoundError(existing: set<string>, directory: string, templateName: string, c: Culture)
    ensures (var r := FindResource(existing, directory, templateName, c);
      r.Failure? ==> r.error == ResourceNotFound(ResourceName(templateName, Invariant), Candidate(directory, templateName, Invariant)))
    decreases |c.subtags|
  {
    if Candidate(directory, templateName, c) !in existing && c != Invariant {
      FindResourceNotFoundError(existing, directory, templateName, Parent(c));
    }
  }

  /** The probes are a prefix of the candidates: at most one per culture of the chain. */
  lemma {:induction false} ProbesPrefix(existing: set<string>, directory: string, templateName: string, c: Culture)
    ensures (var ps := Probes(existing, directory, templateName, c);
      var cs := Candidates(directory, templateName, c);
      1 <= |ps| <= |cs| == |c.subtags| + 1 && ps == cs[..|ps|])
    decreases |c.subtags|
  {
    var ps := Probes(existing, directory, templateName, c);
    var cs := Candidates(directory, templateName, c);
    CandidatesUnfold(directory, templateName, c);
    if cs[0] in existing || c == Invariant {
      assert ps == cs[..1];
    } else {
      var qs := Probes(existing, directory, templateName, Parent(c));
      ProbesPrefix(existing, directory, templateName, Parent(c));
      assert ps == [cs[0]] + qs;
      assert cs == [cs[0]] + cs[1..];
    }
  }

  /**
   * Every probe but the last finds nothing, and a hit is the last probe: nothing is probed
   * after the first existing candidate.
   */
  lemma {:induction false} ProbesStopAtHit(existing: set<string>, directory: string, templateName: string, c: Culture)
    ensures (var ps := Probes(existing, directory, templateName, c);
      forall j :: 0 <= j < |ps| - 1 ==> ps[j] !in existing)
    ensures (var ps := Probes(existing, directory, templateName, c);
      var r := FindResource(existing, directory, templateName, c);
      |ps| >= 1 && (r.Success? ==> r.value == ps[|ps| - 1]))
    decreases |c.subtags|
  {
    var path := Candidate(directory, templateName, c);
    if path !in existing && c != Invariant {
      var qs := Probes(existing, directory, templateName, Parent(c));
      ProbesStopAtHit(existing, directory, templateName, Parent(c));
      assert Probes(existing, directory, templateName, c) == [path] + qs;
    }
  }

  /**
   * The lookup's result is read off its last probe: that path when it exists, and otherwise the
   * not-found error for the invariant culture's resource at that path.
   */
  lemma {:induction false} FindResourceByProbes(existing: set<string>, directory: string, templateName: string, c: Culture)
    ensures (var ps := Probes(existing, directory, templateName, c);
      var last := ps[|ps| - 1];
      FindResource(existing, directory, templateName, c) ==
        (if last in existing then Success(last)
         else Failure(ResourceNotFound(ResourceName(templateName, Invariant), last))))
    decreases |c.subtags|
  {
    var path := Candidate(directory, templateName, c);
    if path !in existing && c != Invariant {
      var qs := Probes(existing, directory, templateName, Parent(c));
      FindResourceByProbes(existing, directory, templateName, Parent(c));
      assert Probes(existing, directory, templateName, c) == [path] + qs;
    }
  }

  /** The text of the not-found exception names `{templateName}.template` and the path probed for it. */
  lemma NotFoundMessage(existing: set<string>, directory: string, templateName: string, c: Culture)
    ensures (var r := FindResource(existing, directory, templateName, c);
      r.Failure? ==>
        r.error.Message()
        == "Die Ressource " + templateName + ".template" + " wurde unter " + Candidate(directory, templateName, Invariant) + " nicht gefunden.")
  {
    FindResourceNotFoundError(existing, directory, templateName, c);
    ResourceNameCases(templateName, Invariant);
  }

  /** The candidate under a directory without a trailing separator, for a relative template name. */
  lemma CandidateUnder(directory: string, templateName: string, c: Culture)
    requires directory != "" && directory[|directory| - 1] != DirectorySeparator
    requires templateName == "" || templateName[0] != DirectorySeparator
    ensures Candidate(directory, templateName, c) == directory + "/" + templateName + CultureInfix(c) + ".template"
  {
    var name := ResourceName(templateName, c);
    CultureInfixOf(c);
    if templateName == "" {
      assert name == CultureInfix(c) + ".template";
      assert name[0] != DirectorySeparator by {
        if CultureInfix(c) == "" {
          assert name[0] == '.';
        }
      }
    } else {
      assert name[0] == templateName[0];
    }
  }

  /** The test resource directory, `Path.Combine("Resources", "MailTemplates")`. */
  const TestDirectory := "Resources/MailTemplates"

  /** The three infixes of the `de-DE` chain. */
  lemma GermanInfixes()
    ensures CultureInfix(GermanGermany) == ".de-DE"
    ensures CultureInfix(Parent(GermanGermany)) == ".de"
    ensures CultureInfix(Parent(Parent(GermanGermany))) == ""
    ensures Name(GermanGermany) != "" && Name(Parent(GermanGermany)) != ""
  {
    GermanGermanyChain();
    assert Parent(GermanGermany) == Culture(["de"]);
    assert Parent(Culture(["de"])) == Invariant;
  }

  /** The lookup under `de-DE` probes the `de-DE`, `de` and invariant candidates in this order. */
  lemma {:induction false} GermanLookup(existing: set<string>, directory: string, templateName: string)
    ensures (var c0, c1, c2 := GermanGermany, Parent(GermanGermany), Parent(Parent(GermanGermany));
      var p0, p1, p2 := Candidate(directory, templateName, c0), Candidate(directory, templateName, c1), Candidate(directory, templateName, c2);
      FindResource(existing, directory, templateName, c0) ==
        if p0 in existing then Success(p0)
        else if p1 in existing then Success(p1)
        else if p2 in existing then Success(p2)
        else Failure(ResourceNotFound(ResourceName(templateName, c2), p2)))
  {
    GermanInfixes();
  }

  /** The three candidates of the `de-DE` chain under a directory without a trailing separator. */
  lemma GermanCandidates(directory: string, templateName: string)
    requires directory != "" && directory[|directory| - 1] != DirectorySeparator
    requires templateName == "" || templateName[0] != DirectorySeparator
    ensures Candidate(directory, templateName, GermanGermany) == directory + "/" + templateName + ".de-DE" + ".template"
    ensures Candidate(directory, templateName, Parent(GermanGermany)) == directory + "/" + templateName + ".de" + ".template"
    ensures Candidate(directory, templateName, Parent(Parent(GermanGermany))) == directory + "/" + templateName + ".template"
    ensures ResourceName(templateName, Parent(Parent(GermanGermany))) == templateName + ".template"
  {
    GermanInfixes();
    CandidateUnder(directory, templateName, GermanGermany);
    CandidateUnder(directory, templateName, Parent(GermanGermany));
    CandidateUnder(directory, templateName, Parent(Parent(GermanGermany)));
  }

  /** Under `de-DE`, an existing `Test.de-DE.template` is the one returned. */
  lemma TestLoadResource(existing: set<string>)
    requires TestDirectory + "/" + "Test" + ".de-DE" + ".template" in existing
    ensures FindResource(existing, TestDirectory, "Test", GermanGermany) == Success(TestDirectory + "/" + "Test" + ".de-DE" + ".template")
  {
    GermanLookup(existing, TestDirectory, "Test");
    GermanCandidates(TestDirectory, "Test");
  }

  /** Under `de-DE`, a template present only for the invariant culture falls back to it. */
  lemma TestRenderMessageWithoutCulture(existing: set<string>)
    requires TestDirectory + "/" + "TestWithoutCulture" + ".de-DE" + ".template" !in existing
    requires TestDirectory + "/" + "TestWithoutCulture" + ".de" + ".template" !in existing
    requires TestDirectory + "/" + "TestWithoutCulture" + ".template" in existing
    ensures FindResource(existing, TestDirectory, "TestWithoutCulture", GermanGermany)
      == Success(TestDirectory + "/" + "TestWithoutCulture" + ".template")
  {
    var tn := "TestWithoutCulture";
    GermanLookup(existing, TestDirectory, tn);
    GermanCandidates(TestDirectory, tn);
  }

  /** Under `de-DE`, a template missing for every culture of the chain is not found. */
  lemma TestRenderNotExistingResource(existing: set<string>)
    requires TestDirectory + "/" + "TestNotExistingResource" + ".de-DE" + ".template" !in existing
    requires TestDirectory + "/" + "TestNotExistingResource" + ".de" + ".template" !in existing
    requires TestDirectory + "/" + "TestNotExistingResource" + ".template" !in existing
    ensures FindResource(existing, TestDirectory, "TestNotExistingResource", GermanGermany)
      == Failure(ResourceNotFound("TestNotExistingResource" + ".template", TestDirectory + "/" + "TestNotExistingResource" + ".template"))
  {
    var tn := "TestNotExistingResource";
    GermanLookup(existing, TestDirectory, tn);
    GermanCandidates(TestDirectory, tn);
  }

  /** `LoadMailMessageTemplate`: the contents of the located file. */
  function LoadTemplate(files: map<string, string>, directory: string, templateName: string, c: Culture): (r: Result<string, Error>)
    ensures r.Success? <==> FindResource(files.Keys, directory, templateName, c).Success?
    ensures r.Success? ==> r.value == files[FindResource(files.Keys, directory, templateName, c).value]
    ensures r.Failure? ==> r == Failure(FindResource(files.Keys, directory, templateName, c).error)
  {
    match FindResource(files.Keys, directory, templateName, c)
    case Success(path) => Success(files[path])
    case Failure(e) => Failure(e)
  }

  class FileMessageProvider {
    /** `RenderContext`: renders the located template. */
    var renderContext: PlaceholderRenderContext
    /** `ResourceRelativePath`: the template directory, relative to the base directory. */
    var resourceRelativePath: string

    constructor (renderContext: PlaceholderRenderContext, resourceRelativePath: string)
      requires resourceRelativePath != ""
      ensures this.renderContext == renderContext && this.resourceRelativePath == resourceRelativePath
    {
      this.renderContext := renderContext;
      this.resourceRelativePath := resourceRelativePath;
    }

    /**
     * `RenderMessage`: an empty template name is rejected; otherwise the template located for
     * the current culture is rendered by the render context, and a lookup failure or an empty
     * template file is passed on.
     */
    method RenderMessage(templateName: string, model: ModelMap, currentCulture: Culture, files: map<string, string>, f: Formatter)
      returns (r: Result<string, Error>)
      ensures templateName == "" ==> r == Failure(InvalidArgument("templateName"))
      ensures templateName != "" && LoadTemplate(files, resourceRelativePath, templateName, currentCulture).Failure? ==>
        r == LoadTemplate(files, resourceRelativePath, templateName, currentCulture)
      ensures templateName != "" && LoadTemplate(files, resourceRelativePath, templateName, currentCulture) == Success("") ==>
        r == Failure(InvalidArgument("template"))
      ensures (templateName != "" && LoadTemplate(files, resourceRelativePath, templateName, currentCulture).Success?
        && LoadTemplate(files, resourceRelativePath, templateName, currentCulture).value != "") ==>
        r == Success(Expand(LoadTemplate(files, resourceRelativePath, templateName, currentCulture).value, model, renderContext.Settings(), f))
    {
      if templateName == "" {
        return Failure(InvalidArgument("templateName"));
      }
      var loaded := LoadTemplate(files, resourceRelativePath, templateName, currentCulture);
      match loaded {
        case Failure(e) =>
          r := Failure(e);
        case Success(text) =>
          r := renderContext.ParseAndRender(text, model, f);
      }
    }
  }
}
