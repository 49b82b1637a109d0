/** Trimming, as Rust's `str` does it: by the Unicode White_Space property. */
module Text {

  predicate IsWhitespace(c: char) {
    || '\t' <= c <= '\r' || c == ' '
    || c == '\U{0085}' || c == '\U{00A0}' || c == '\U{1680}'
    || '\U{2000}' <= c <= '\U{200A}'
    || c == '\U{2028}' || c == '\U{2029}' || c == '\U{202F}' || c == '\U{205F}' || c == '\U{3000}'
  }

  predicate Blank(s: string) {
    forall i :: 0 <= i < |s| ==> IsWhitespace(s[i])
  }

  /** How much of the front is white space. */
  function LeadingBlanks(s: string): (n: nat)
    ensures n <= |s|
  {
    if s == [] || !IsWhitespace(s[0]) then 0 else 1 + LeadingBlanks(s[1..])
  }

  function TrimStart(s: string): string {
    s[LeadingBlanks(s)..]
  }

  function TrimEnd(s: string): (t: string)
    ensures |t| <= |s| && t == s[..|t|]
  {
    if s == [] || !IsWhitespace(s[|s| - 1]) then s else TrimEnd(s[..|s| - 1])
  }

  function Trim(s: string): string {
    TrimEnd(TrimStart(s))
  }

  predicate Trimmed(s: string) {
    s == [] || (!IsWhitespace(s[0]) && !IsWhitespace(s[|s| - 1]))
  }

  lemma {:induction false} LeadingBlanksAre(s: string)
    ensures Blank(s[..LeadingBlanks(s)])
    ensures LeadingBlanks(s) < |s| ==> !IsWhitespace(s[LeadingBlanks(s)])
  {
    if s != [] && IsWhitespace(s[0]) {
      LeadingBlanksAre(s[1..]);
      assert s[..LeadingBlanks(s)] == [s[0]] + s[1..][..LeadingBlanks(s[1..])];
    }
  }

  lemma {:induction false} TrimEndIs(s: string)
    ensures Blank(s[|TrimEnd(s)|..])
    ensures TrimEnd(s) != [] ==> !IsWhitespace(TrimEnd(s)[|TrimEnd(s)| - 1])
  {
    if s != [] && IsWhitespace(s[|s| - 1]) {
      TrimEndIs(s[..|s| - 1]);
      assert s[|TrimEnd(s)|..] == s[..|s| - 1][|TrimEnd(s)|..] + [s[|s| - 1]];
    }
  }

  /** The result has no blank at either end, and only blanks were removed. */
  lemma TrimIs(s: string)
    ensures Trimmed(Trim(s))
    ensures LeadingBlanks(s) + |Trim(s)| <= |s|
    ensures Trim(s) == s[LeadingBlanks(s)..LeadingBlanks(s) + |Trim(s)|]
    ensures Blank(s[..LeadingBlanks(s)]) && Blank(s[LeadingBlanks(s) + |Trim(s)|..])
  {
    var n, t := LeadingBlanks(s), Trim(s);
    LeadingBlanksAre(s);
    TrimEndIs(s[n..]);
    if t != [] {
      assert t[0] == s[n];
    }
  }

  lemma TrimTrimmed(s: string)
    requires Trimmed(s)
    ensures Trim(s) == s
  {
  }
}
