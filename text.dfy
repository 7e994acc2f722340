/** The string operations the statement builders and the row reader rely on:
    list joining with a separator (the `count`-guarded `+= ", "` loops), .NET's
    `char.IsWhiteSpace`, `String.Trim` and `String.IsNullOrWhiteSpace`. */
module Text {
  import opened Wrappers

  /** .NET's `char.IsWhiteSpace`: the Unicode space separators, line and
      paragraph separators, and U+0009..U+000D, U+0085, U+00A0. */
  predicate IsWhiteSpace(c: char) {
    || ('\U{0009}' <= c <= '\U{000D}')
    || c == '\U{0020}'
    || c == '\U{0085}'
    || c == '\U{00A0}'
    || c == '\U{1680}'
    || ('\U{2000}' <= c <= '\U{200A}')
    || c == '\U{2028}'
    || c == '\U{2029}'
    || c == '\U{202F}'
    || c == '\U{205F}'
    || c == '\U{3000}'
  }

  predicate AllWhiteSpace(s: string) {
    forall i :: 0 <= i < |s| ==> IsWhiteSpace(s[i])
  }

  /** `String.IsNullOrWhiteSpace`: null, empty, or only white space. */
  predicate IsNullOrWhiteSpace(s: Option<string>) {
    s.None? || AllWhiteSpace(s.value)
  }

  /** Drops leading white space; what remains is a suffix of `s`. */
  function TrimStart(s: string): (r: string)
    ensures |r| <= |s| && r == s[|s| - |r|..]
    ensures forall i :: 0 <= i < |s| - |r| ==> IsWhiteSpace(s[i])
    ensures r == [] || !IsWhiteSpace(r[0])
  {
    if s == [] || !IsWhiteSpace(s[0]) then s else TrimStart(s[1..])
  }

  /** Drops trailing white space; what remains is a prefix of `s`. */
  function TrimEnd(s: string): (r: string)
    ensures |r| <= |s| && r == s[..|r|]
    ensures forall i :: |r| <= i < |s| ==> IsWhiteSpace(s[i])
    ensures r == [] || !IsWhiteSpace(r[|r| - 1])
  {
    if s == [] || !IsWhiteSpace(s[|s| - 1]) then s else TrimEnd(s[..|s| - 1])
  }

  /** `String.Trim()`: white space is removed from both ends, nothing else. */
  function Trim(s: string): (r: string)
    ensures r <= TrimStart(s)
    ensures forall i :: |r| <= i < |TrimStart(s)| ==> IsWhiteSpace(TrimStart(s)[i])
    ensures r == [] || (!IsWhiteSpace(r[0]) && !IsWhiteSpace(r[|r| - 1]))
  {
    TrimEnd(TrimStart(s))
  }

  /** A string that neither starts nor ends with white space is its own trim. */
  lemma TrimFixesTrimmed(s: string)
    requires s == [] || (!IsWhiteSpace(s[0]) && !IsWhiteSpace(s[|s| - 1]))
    ensures Trim(s) == s
  {
  }

  /** Trimming twice is trimming once. */
  lemma TrimIdempotent(s: string)
    ensures Trim(Trim(s)) == Trim(s)
  {
    TrimFixesTrimmed(Trim(s));
  }

  /** Joins `xs` with `sep` between consecutive elements and nowhere else. It is
      defined from the right end so that it follows the loops that append one
      element (and, before it, one separator) at a time. */
  function Join(xs: seq<string>, sep: string): string
    decreases |xs|
  {
    if |xs| == 0 then ""
    else if |xs| == 1 then xs[0]
    else Join(xs[..|xs| - 1], sep) + sep + xs[|xs| - 1]
  }

  /** Appending one element to a non-empty list appends one separator and the
      element: there is never a trailing separator. */
  lemma JoinSnoc(xs: seq<string>, x: string, sep: string)
    ensures Join(xs + [x], sep) == if xs == [] then x else Join(xs, sep) + sep + x
  {
    assert (xs + [x])[..|xs|] == xs;
  }

  /** A joined non-empty list starts with its first element and ends with its
      last one. */
  lemma {:induction false} JoinEnds(xs: seq<string>, sep: string)
    requires xs != []
    ensures xs[0] <= Join(xs, sep)
    ensures |xs[|xs| - 1]| <= |Join(xs, sep)|
    ensures Join(xs, sep)[|Join(xs, sep)| - |xs[|xs| - 1]|..] == xs[|xs| - 1]
    decreases |xs|
  {
    if |xs| > 1 {
      var init := xs[..|xs| - 1];
      JoinEnds(init, sep);
      assert init[0] == xs[0];
      assert Join(xs, sep) == Join(init, sep) + (sep + xs[|xs| - 1]);
    }
  }

  /** The length of a join: every element once, and one separator fewer than
      there are elements. */
  function TotalLength(xs: seq<string>): nat
    decreases |xs|
  {
    if xs == [] then 0 else TotalLength(xs[..|xs| - 1]) + |xs[|xs| - 1]|
  }

  lemma {:induction false} JoinLength(xs: seq<string>, sep: string)
    requires xs != []
    ensures |Join(xs, sep)| == TotalLength(xs) + (|xs| - 1) * |sep|
    decreases |xs|
  {
    if |xs| > 1 {
      JoinLength(xs[..|xs| - 1], sep);
    } else {
      assert xs[..0] == [];
    }
  }

  /** A string that contains a character other than white space is not
      null-or-white-space. */
  lemma NotWhiteSpaceWhenSomeCharIsNot(s: string, i: nat)
    requires i < |s| && !IsWhiteSpace(s[i])
    ensures !IsNullOrWhiteSpace(Some(s))
  {
  }

  /** C#'s `a += b` on a string variable that may be null: null reads as "". */
  function Append(a: Option<string>, b: string): (r: Option<string>)
    ensures r.Some? && r.value == if a.Some? then a.value + b else b
  {
    Some(a.GetOr("") + b)
  }

  /** A clause built by appending pieces to a variable that starts null:
      still null when no piece was appended. */
  function JoinOrNull(xs: seq<string>, sep: string): (r: Option<string>)
    ensures r.None? <==> xs == []
  {
    if xs == [] then None else Some(Join(xs, sep))
  }

  /** One more piece: the separator goes in only when the clause is not null. */
  lemma JoinOrNullSnoc(xs: seq<string>, x: string, sep: string)
    ensures JoinOrNull(xs + [x], sep)
         == Append(if JoinOrNull(xs, sep).Some? then Append(JoinOrNull(xs, sep), sep) else None, x)
  {
    JoinSnoc(xs, x, sep);
  }

  /** What a `count`-guarded loop has built after `i` of the elements of `xs`:
      each element is followed by the separator unless it is the last one. */
  function JoinedSoFar(xs: seq<string>, i: nat, sep: string): string
    requires i <= |xs|
  {
    if i == 0 then "" else Join(xs[..i], sep) + if i < |xs| then sep else ""
  }

  lemma JoinedSoFarStep(xs: seq<string>, i: nat, sep: string)
    requires i < |xs|
    ensures JoinedSoFar(xs, i + 1, sep) == JoinedSoFar(xs, i, sep) + xs[i] + if i + 1 < |xs| then sep else ""
  {
    assert xs[..i + 1] == xs[..i] + [xs[i]];
    JoinSnoc(xs[..i], xs[i], sep);
  }

  /** After the last element the loop has built the join. */
  lemma JoinedSoFarAll(xs: seq<string>, sep: string)
    ensures JoinedSoFar(xs, |xs|, sep) == Join(xs, sep)
  {
    assert xs[..|xs|] == xs;
  }
}
