/**
 * Cultures as .NET's `CultureInfo` names them: a sequence of subtags ("de", "DE") whose name
 * joins them with '-' ("de-DE"). The parent of a culture drops its last subtag, and the
 * invariant culture, with the empty name, is its own parent.
 */
module Cultures {
  import opened Text

  /** One subtag of a culture name: non-empty and free of the '-' that separates subtags. */
  type Subtag = s: string | s != "" && '-' !in s witness "x"

  datatype Culture = Culture(subtags: seq<Subtag>)

  /** `CultureInfo.InvariantCulture`. */
  const Invariant := Culture([])

  /** `CultureInfo.Name`; only the invariant culture has the empty name. */
  function Name(c: Culture): (name: string)
    ensures name == "" <==> c == Invariant
  {
    Join(c.subtags, '-')
  }

  /** `CultureInfo.Parent`: "de-DE" has parent "de", "de" has the invariant culture. */
  function Parent(c: Culture): Culture
  {
    if c.subtags == [] then c else Culture(c.subtags[..|c.subtags| - 1])
  }

  /** The culture, its parent, its parent's parent, ..., down to the invariant culture. */
  function Chain(c: Culture): (chain: seq<Culture>)
    ensures |chain| == |c.subtags| + 1
    ensures chain[0] == c && chain[|chain| - 1] == Invariant
    ensures forall i :: 0 <= i < |chain| ==> chain[i].subtags == c.subtags[..|c.subtags| - i]
    decreases |c.subtags|
  {
    if c.subtags == [] then [c] else [c] + Chain(Parent(c))
  }

  /** The culture the message provider's tests run under. */
  const GermanGermany := Culture(["de", "DE"])

  lemma GermanGermanyChain()
    ensures Name(GermanGermany) == "de-DE"
    ensures Chain(GermanGermany) == [GermanGermany, Culture(["de"]), Invariant]
    ensures Name(Parent(GermanGermany)) == "de"
  {
    assert GermanGermany.subtags[..1] == ["de"];
    assert Parent(GermanGermany) == Culture(["de"]);
    assert Parent(Culture(["de"])) == Invariant;
  }
}
