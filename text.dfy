/** The ordinal string operations of the .NET base library that the renderer relies on. */
module Text {
  import opened Results

  /** `s.IndexOf(c, StringComparison.Ordinal)`: the position of the first `c` in `s`, if any. */
  function IndexOf(s: string, c: char): (r: Option<nat>)
    ensures r.None? <==> c !in s
    ensures r.Some? ==> r.value < |s| && s[r.value] == c && c !in s[..r.value]
  {
    if s == [] then None
    else if s[0] == c then Some(0)
    else
      match IndexOf(s[1..], c)
      case None => None
      case Some(k) =>
        assert s[..k + 1] == [s[0]] + s[1..][..k];
        Some(k + 1)
  }

  /** A `c` with no `c` before it is the one `IndexOf` finds. */
  lemma IndexOfFirst(s: string, c: char, k: nat)
    requires k < |s| && s[k] == c && c !in s[..k]
    ensures IndexOf(s, c) == Some(k)
  {
  }

  /** `s.Replace(c.ToString(), "")`: `s` with every `c` deleted and the other characters kept. */
  function Remove(s: string, c: char): (r: string)
    ensures c !in r
    ensures forall x :: x in r ==> x in s
    ensures |r| <= |s|
  {
    if s == [] then []
    else
      assert s == [s[0]] + s[1..];
      if s[0] == c then Remove(s[1..], c)
      else [s[0]] + Remove(s[1..], c)
  }

  /** Deleting a character distributes over concatenation, so it keeps the order of what is left. */
  lemma {:induction false} RemoveConcat(a: string, b: string, c: char)
    ensures Remove(a + b, c) == Remove(a, c) + Remove(b, c)
  {
    if a != [] {
      assert (a + b)[1..] == a[1..] + b;
      RemoveConcat(a[1..], b, c);
    } else {
      assert a + b == b;
    }
  }

  /** Deleting a character that does not occur changes nothing. */
  lemma {:induction false} RemoveAbsent(s: string, c: char)
    requires c !in s
    ensures Remove(s, c) == s
  {
    if s != [] {
      RemoveAbsent(s[1..], c);
    }
  }

  /** `s.Split(new[] { c }, 2)`: the text before the first `c` and, when there is a `c`, the text after it. */
  function SplitFirst(s: string, c: char): (r: (string, Option<string>))
    ensures r.1.None? ==> r.0 == s && c !in s
    ensures r.1.Some? ==> s == r.0 + [c] + r.1.value && c !in r.0
  {
    match IndexOf(s, c)
    case None => (s, None)
    case Some(i) =>
      assert s == s[..i] + [c] + s[i + 1..];
      (s[..i], Some(s[i + 1..]))
  }

  /** The split at the first `c` is the only split whose head is free of `c`. */
  lemma SplitFirstAt(head: string, c: char, tail: string)
    requires c !in head
    ensures SplitFirst(head + [c] + tail, c) == (head, Some(tail))
  {
    var s := head + [c] + tail;
    assert s[..|head|] == head;
    IndexOfFirst(s, c, |head|);
    assert s[|head| + 1..] == tail;
  }

  /** `string.Join(sep, parts)`. */
  function Join(parts: seq<string>, sep: char): string
  {
    if parts == [] then ""
    else if |parts| == 1 then parts[0]
    else parts[0] + [sep] + Join(parts[1..], sep)
  }

  /** `s.Split(new[] { c }, StringSplitOptions.None)`: the pieces between the occurrences of `c`. */
  function Split(s: string, c: char): (parts: seq<string>)
    ensures |parts| >= 1
    decreases |s|
  {
    match SplitFirst(s, c)
    case (head, None) => [head]
    case (head, Some(tail)) => [head] + Split(tail, c)
  }

  /** The pieces hold no `c`, and joining them with `c` gives the text back. */
  lemma {:induction false} JoinSplit(s: string, c: char)
    ensures forall i :: 0 <= i < |Split(s, c)| ==> c !in Split(s, c)[i]
    ensures Join(Split(s, c), c) == s
    decreases |s|
  {
    match SplitFirst(s, c)
    case (head, None) =>
    case (head, Some(tail)) =>
      JoinSplit(tail, c);
      var rest := Split(tail, c);
      assert Split(s, c) == [head] + rest;
      assert ([head] + rest)[1..] == rest;
  }

  /** Splitting a join of separator-free pieces gives the pieces back. */
  lemma {:induction false} SplitJoin(parts: seq<string>, c: char)
    requires |parts| >= 1
    requires forall i :: 0 <= i < |parts| ==> c !in parts[i]
    ensures Split(Join(parts, c), c) == parts
  {
    if |parts| == 1 {
      assert SplitFirst(parts[0], c) == (parts[0], None);
    } else {
      var rest := parts[1..];
      var tail := Join(rest, c);
      assert Join(parts, c) == parts[0] + [c] + tail;
      SplitFirstAt(parts[0], c, tail);
      assert Split(Join(parts, c), c) == [parts[0]] + Split(tail, c);
      forall i | 0 <= i < |rest|
        ensures c !in rest[i]
      {
        assert rest[i] == parts[i + 1];
      }
      SplitJoin(rest, c);
      assert parts == [parts[0]] + rest;
    }
  }
}
