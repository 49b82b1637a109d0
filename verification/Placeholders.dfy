/**
 * The {{placeholders}} of a text, and the comparison of two texts by their
 * sorted, joined placeholders. It is proved to compare multisets.
 */
module Placeholders {
  import opened Wrappers

  // ------------------------------------------------------------------- finding them

  /** How many characters stand before the first '}'. */
  function UntilBrace(s: string): (n: nat)
    ensures n <= |s| && forall i :: 0 <= i < n ==> s[i] != '}'
    ensures n < |s| ==> s[n] == '}'
  {
    if s == [] || s[0] == '}' then 0 else 1 + UntilBrace(s[1..])
  }

  /** Two opening braces, at least one character that is no closing brace, two closing braces. */
  ghost predicate IsPlaceholder(s: string) {
    && |s| >= 5 && s[0] == s[1] == '{' && s[|s| - 2] == s[|s| - 1] == '}'
    && forall i :: 2 <= i < |s| - 2 ==> s[i] != '}'
  }

  /** The length of the placeholder at the very start of `s`, if there is one. */
  function PlaceholderAt(s: string): (n: Option<nat>)
    ensures n.Some? ==> n.value <= |s| && IsPlaceholder(s[..n.value])
    ensures n.None? ==> forall m :: 0 <= m <= |s| ==> !IsPlaceholder(s[..m])
  {
    if |s| < 5 || s[0] != '{' || s[1] != '{' then None
    else
      var inner := UntilBrace(s[2..]);
      if inner == 0 || 2 + inner + 2 > |s| || s[2 + inner + 1] != '}' then
        assert forall m :: 5 <= m <= |s| && s[..m][m - 2] == '}' && m - 2 > 2 + inner ==> s[..m][2 + inner] == '}';
        None
      else Some(inner + 4)
  }

  /** All placeholders, left to right, each search going on where the last match ended. */
  function Find(s: string): (found: seq<string>)
    ensures forall i :: 0 <= i < |found| ==> IsPlaceholder(found[i])
    decreases |s|
  {
    if s == [] then []
    else
      match PlaceholderAt(s)
      case Some(n) => [s[..n]] + Find(s[n..])
      case None => Find(s[1..])
  }

  // ------------------------------------------------------------------------ sorting

  /** Order of the characters, a shorter text first. */
  predicate AtMost(a: string, b: string) {
    a == [] || (b != [] && (a[0] < b[0] || (a[0] == b[0] && AtMost(a[1..], b[1..]))))
  }

  lemma {:induction false} AtMostTotal(a: string, b: string)
    ensures AtMost(a, b) || AtMost(b, a)
  {
    if a != [] && b != [] {
      AtMostTotal(a[1..], b[1..]);
    }
  }

  lemma {:induction false} AtMostAntisymmetric(a: string, b: string)
    requires AtMost(a, b) && AtMost(b, a)
    ensures a == b
  {
    if a != [] {
      AtMostAntisymmetric(a[1..], b[1..]);
      assert a == [a[0]] + a[1..] && b == [b[0]] + b[1..];
    }
  }

  lemma {:induction false} AtMostTransitive(a: string, b: string, c: string)
    requires AtMost(a, b) && AtMost(b, c)
    ensures AtMost(a, c)
  {
    if a != [] && a[0] == b[0] == c[0] {
      AtMostTransitive(a[1..], b[1..], c[1..]);
    }
  }

  function Insert(x: string, s: seq<string>): (t: seq<string>)
    ensures multiset(t) == multiset(s) + multiset{x}
  {
    if s == [] then [x]
    else if AtMost(x, s[0]) then [x] + s
    else
      assert s == [s[0]] + s[1..];
      [s[0]] + Insert(x, s[1..])
  }

  function Sort(s: seq<string>): (t: seq<string>)
    ensures multiset(t) == multiset(s)
  {
    if s == [] then []
    else
      assert s == [s[0]] + s[1..];
      Insert(s[0], Sort(s[1..]))
  }

  ghost predicate Sorted(s: seq<string>) {
    forall x, i :: 0 <= i < |s| && x in s[i..] ==> AtMost(s[i], x)
  }

  lemma SortedCons(x: string, s: seq<string>)
    requires Sorted(s) && forall y :: y in s ==> AtMost(x, y)
    ensures Sorted([x] + s)
  {
    var t := [x] + s;
    AtMostTotal(x, x);
    assert t[0..] == t;
    assert forall i :: 1 <= i < |t| ==> t[i..] == s[i - 1..] && t[i] == s[i - 1];
  }

  lemma {:induction false} InsertSorted(x: string, s: seq<string>)
    requires Sorted(s)
    ensures Sorted(Insert(x, s))
  {
    if s == [] {
      SortedCons(x, s);
      assert [x] + s == [x];
    } else {
      assert s[0..] == s;
      if AtMost(x, s[0]) {
        forall y | y in s
          ensures AtMost(x, y)
        {
          AtMostTransitive(x, s[0], y);
        }
        SortedCons(x, s);
      } else {
        AtMostTotal(x, s[0]);
        InsertSorted(x, s[1..]);
        InsertElements(x, s[1..]);
        SortedCons(s[0], Insert(x, s[1..]));
      }
    }
  }

  lemma InsertElements(x: string, s: seq<string>)
    ensures forall y :: y in Insert(x, s) ==> y == x || y in s
  {
    forall y | y in Insert(x, s)
      ensures y == x || y in s
    {
      assert y in multiset(Insert(x, s));
    }
  }

  lemma {:induction false} SortSorted(s: seq<string>)
    ensures Sorted(Sort(s))
  {
    if s != [] {
      SortSorted(s[1..]);
      InsertSorted(s[0], Sort(s[1..]));
    }
  }

  /** Two sorted lists with the same elements are the same list. */
  lemma {:induction false} SortedUnique(a: seq<string>, b: seq<string>)
    requires Sorted(a) && Sorted(b) && multiset(a) == multiset(b)
    ensures a == b
  {
    if a == [] {
      assert |multiset(a)| == |multiset(b)|;
    } else {
      assert a[0] in multiset(b) && |multiset(a)| == |multiset(b)|;
      assert b[0] in multiset(a);
      assert a[0..] == a && b[0..] == b;
      AtMostAntisymmetric(a[0], b[0]);
      assert a == [a[0]] + a[1..] && b == [b[0]] + b[1..];
      assert multiset(a[1..]) == multiset(a) - multiset{a[0]};
      assert multiset(b[1..]) == multiset(b) - multiset{b[0]};
      SortedUnique(a[1..], b[1..]);
    }
  }

  // ------------------------------------------------------------------------ joining

  function Joined(s: seq<string>): string {
    if s == [] then []
    else if |s| == 1 then s[0]
    else s[0] + "|" + Joined(s[1..])
  }

  /** A placeholder ends at its first two closing braces, so it can be read off the front. */
  lemma SameFront(p: string, q: string, x: string, y: string)
    requires IsPlaceholder(p) && IsPlaceholder(q) && p + x == q + y
    ensures p == q && x == y
  {
    var all := p + x;
    assert forall i :: 0 <= i < |p| ==> all[i] == p[i];
    assert forall i :: 0 <= i < |q| ==> all[i] == q[i];
    assert |p| == |q|;
    assert p == all[..|p|] && q == all[..|q|];
    assert x == all[|p|..] && y == all[|q|..];
  }

  ghost predicate AllPlaceholders(s: seq<string>) {
    forall i :: 0 <= i < |s| ==> IsPlaceholder(s[i])
  }

  function AfterFirst(s: seq<string>): string {
    if |s| <= 1 then [] else "|" + Joined(s[1..])
  }

  lemma JoinedParts(s: seq<string>)
    requires s != []
    ensures Joined(s) == s[0] + AfterFirst(s)
    ensures |s| > 1 ==> AfterFirst(s) != [] && AfterFirst(s)[1..] == Joined(s[1..])
  {
  }

  /** Although a placeholder may itself contain the separator, joining loses nothing. */
  lemma {:induction false} JoinedInjective(a: seq<string>, b: seq<string>)
    requires AllPlaceholders(a) && AllPlaceholders(b) && Joined(a) == Joined(b)
    ensures a == b
  {
    if a == [] || b == [] {
    } else {
      JoinedStep(a, b, AfterFirst(a), AfterFirst(b));
      if |a| > 1 {
        JoinedInjective(a[1..], b[1..]);
      }
      assert a == [a[0]] + a[1..] && b == [b[0]] + b[1..];
    }
  }

  lemma JoinedStep(a: seq<string>, b: seq<string>, x: string, y: string)
    requires AllPlaceholders(a) && AllPlaceholders(b) && a != [] && b != [] && Joined(a) == Joined(b)
    requires x == AfterFirst(a) && y == AfterFirst(b)
    ensures a[0] == b[0] && (|a| > 1 <==> |b| > 1)
    ensures |a| > 1 ==> Joined(a[1..]) == Joined(b[1..])
  {
    JoinedParts(a);
    JoinedParts(b);
    SameFront(a[0], b[0], x, y);
  }

  /** The comparison the build makes for each translated text. */
  predicate SamePlaceholders(a: string, b: string) {
    Joined(Sort(Find(a))) == Joined(Sort(Find(b)))
  }

  lemma SortKeepsPlaceholders(s: seq<string>)
    requires AllPlaceholders(s)
    ensures AllPlaceholders(Sort(s))
  {
    forall i | 0 <= i < |Sort(s)|
      ensures IsPlaceholder(Sort(s)[i])
    {
      assert Sort(s)[i] in multiset(s);
    }
  }

  /** The texts compare equal exactly if they have the same placeholders equally often. */
  lemma SamePlaceholdersIsMultisetEquality(a: string, b: string)
    ensures SamePlaceholders(a, b) <==> multiset(Find(a)) == multiset(Find(b))
  {
    var p, q := Find(a), Find(b);
    if multiset(p) == multiset(q) {
      SortSorted(p);
      SortSorted(q);
      SortedUnique(Sort(p), Sort(q));
    }
    if SamePlaceholders(a, b) {
      SortKeepsPlaceholders(p);
      SortKeepsPlaceholders(q);
      JoinedInjective(Sort(p), Sort(q));
    }
  }
}
