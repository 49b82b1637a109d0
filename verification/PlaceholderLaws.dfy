/**
 * What finding placeholders means, told by the texts: every match is taken, each
 * the leftmost from where the one before it ended, and nothing else is. And what
 * that makes of the comparison of an English text with its translation.
 */
module PlaceholderLaws {
  import opened Wrappers
  import opened Placeholders
  import opened Locales
  import opened LocaleRoundTrip

  /** No placeholder begins at this position. */
  ghost predicate NoneAt(s: string, k: nat) {
    forall m :: k <= m <= |s| ==> !IsPlaceholder(s[k..m])
  }

  ghost predicate NoneBetween(s: string, from: nat, to: nat) {
    forall k :: from <= k < to ==> NoneAt(s, k)
  }

  ghost predicate StandsAt(s: string, k: nat, p: string) {
    k + |p| <= |s| && s[k..k + |p|] == p
  }

  /** From position `from` on, `found` are the leftmost placeholders that do not overlap; they begin at `starts`. */
  ghost predicate Leftmost(s: string, from: nat, found: seq<string>, starts: seq<nat>)
    decreases |found|
  {
    && |starts| == |found|
    && from <= |s|
    && if found == [] then NoneBetween(s, from, |s|)
       else
         && IsPlaceholder(found[0]) && from <= starts[0] && StandsAt(s, starts[0], found[0])
         && NoneBetween(s, from, starts[0])
         && Leftmost(s, starts[0] + |found[0]|, found[1..], starts[1..])
  }

  lemma AtStart(s: string, k: nat)
    requires k <= |s|
    ensures PlaceholderAt(s[k..]).None? ==> NoneAt(s, k)
    ensures PlaceholderAt(s[k..]).Some? ==>
              var p := s[k..][..PlaceholderAt(s[k..]).value];
              IsPlaceholder(p) && StandsAt(s, k, p)
  {
    forall m | k <= m <= |s|
      ensures s[k..m] == s[k..][..m - k]
    {
    }
  }

  lemma FoundFirst(s: string, k: nat, p: string, found: seq<string>, starts: seq<nat>)
    requires IsPlaceholder(p) && StandsAt(s, k, p) && Leftmost(s, k + |p|, found, starts)
    ensures Leftmost(s, k, [p] + found, [k] + starts)
  {
    assert ([p] + found)[1..] == found && ([k] + starts)[1..] == starts;
  }

  lemma NoneFirst(s: string, k: nat, found: seq<string>, starts: seq<nat>)
    requires k < |s| && NoneAt(s, k) && Leftmost(s, k + 1, found, starts)
    ensures Leftmost(s, k, found, starts)
  {
  }

  lemma StepNone(s: string, k: nat, starts: seq<nat>)
    requires k < |s| && PlaceholderAt(s[k..]).None? && Leftmost(s, k + 1, Find(s[k + 1..]), starts)
    ensures Leftmost(s, k, Find(s[k..]), starts)
  {
    assert s[k..][1..] == s[k + 1..];
    AtStart(s, k);
    NoneFirst(s, k, Find(s[k + 1..]), starts);
  }

  lemma StepSome(s: string, k: nat, n: nat, starts: seq<nat>)
    requires k < |s| && PlaceholderAt(s[k..]) == Some(n) && k + n <= |s| && Leftmost(s, k + n, Find(s[k + n..]), starts)
    ensures Leftmost(s, k, Find(s[k..]), [k] + starts)
  {
    assert s[k..][n..] == s[k + n..];
    AtStart(s, k);
    FoundFirst(s, k, s[k..][..n], Find(s[k + n..]), starts);
  }

  /** The search finds exactly these. */
  lemma {:induction false} FindIsLeftmost(s: string, k: nat) returns (starts: seq<nat>)
    requires k <= |s|
    ensures Leftmost(s, k, Find(s[k..]), starts)
    decreases |s| - k
  {
    if k == |s| {
      starts := [];
      assert s[k..] == "";
    } else {
      match PlaceholderAt(s[k..]) {
        case None =>
          starts := FindIsLeftmost(s, k + 1);
          StepNone(s, k, starts);
        case Some(n) =>
          starts := FindIsLeftmost(s, k + n);
          StepSome(s, k, n, starts);
          starts := [k] + starts;
      }
    }
  }

  /** At one position there is one placeholder at most. */
  lemma OneAt(s: string, k: nat, p: string, q: string)
    requires IsPlaceholder(p) && IsPlaceholder(q) && StandsAt(s, k, p) && StandsAt(s, k, q)
    ensures p == q
  {
    var t := s[k..];
    assert t == p + t[|p|..] && t == q + t[|q|..];
    SameFront(p, q, t[|p|..], t[|q|..]);
  }

  lemma StandsNotNone(s: string, k: nat, p: string)
    requires IsPlaceholder(p) && StandsAt(s, k, p)
    ensures !NoneAt(s, k)
  {
    assert IsPlaceholder(s[k..k + |p|]);
  }

  /** There is only one such list, so it says all about the search. */
  lemma {:induction false} LeftmostUnique(s: string, from: nat, a: seq<string>, x: seq<nat>, b: seq<string>,
                                          y: seq<nat>)
    requires Leftmost(s, from, a, x) && Leftmost(s, from, b, y)
    ensures a == b && x == y
    decreases |a|
  {
    if a == [] || b == [] {
      if a != [] { StandsNotNone(s, x[0], a[0]); }
      if b != [] { StandsNotNone(s, y[0], b[0]); }
      assert a == b == [] && x == y == [];
    } else {
      StandsNotNone(s, x[0], a[0]);
      StandsNotNone(s, y[0], b[0]);
      assert x[0] == y[0];
      OneAt(s, x[0], a[0], b[0]);
      LeftmostUnique(s, x[0] + |a[0]|, a[1..], x[1..], b[1..], y[1..]);
      assert a == [a[0]] + a[1..] && b == [b[0]] + b[1..] && x == [x[0]] + x[1..] && y == [y[0]] + y[1..];
    }
  }

  // ------------------------------------------------------------------ what follows

  /** A text without a placeholder has none found. */
  lemma NothingFound(s: string)
    requires forall i, j :: 0 <= i <= j <= |s| ==> !IsPlaceholder(s[i..j])
    ensures Find(s) == []
  {
    var starts := FindIsLeftmost(s, 0);
    assert s[0..] == s;
    assert Leftmost(s, 0, [], []);
    LeftmostUnique(s, 0, Find(s), starts, [], []);
  }

  lemma {:induction false} FoundBehind(a: string, p: string, b: string)
    requires '{' !in a && IsPlaceholder(p)
    ensures Find(a + p + b) == [p] + Find(b)
  {
    var s := a + p + b;
    if a == "" {
      assert s == p + b;
      var m := PlaceholderAt(s);
      assert s[..|p|] == p;
      assert m.Some?;
      SameFront(s[..m.value], p, s[m.value..], b);
      assert s == s[..m.value] + s[m.value..];
    } else {
      assert s[1..] == a[1..] + p + b && s[0] == a[0] != '{';
      FoundBehind(a[1..], p, b);
    }
  }

  /** The placeholder `p` stands in the text at `i`, and no other match begins before it or after its end. */
  ghost predicate OnlyAt(t: string, i: nat, p: string) {
    StandsAt(t, i, p) && NoneBetween(t, 0, i) && NoneBetween(t, i + |p|, |t|)
  }

  lemma OnlyOneFound(t: string, p: string)
    requires IsPlaceholder(p)
    ensures Find(t) == [p] <==> exists i: nat :: OnlyAt(t, i, p)
  {
    assert t[0..] == t;
    var starts := FindIsLeftmost(t, 0);
    if i: nat :| OnlyAt(t, i, p) {
      assert Leftmost(t, i + |p|, [], []);
      assert [p][1..] == [] && [i][1..] == [];
      assert Leftmost(t, 0, [p], [i]);
      LeftmostUnique(t, 0, Find(t), starts, [p], [i]);
    } else if Find(t) == [p] {
      assert OnlyAt(t, starts[0], p);
    }
  }

  lemma SingleMultiset(p: string, found: seq<string>)
    ensures multiset([p]) == multiset(found) <==> found == [p]
  {
    if multiset([p]) == multiset(found) {
      assert |multiset(found)| == 1;
      assert found[0] in multiset(found);
    }
  }

  /** A text with one placeholder compares equal exactly with the texts that have it once, and no other. */
  lemma OnePlaceholderKept(a: string, p: string, b: string, t: string)
    requires '{' !in a && '{' !in b && IsPlaceholder(p)
    ensures SamePlaceholders(a + p + b, t) <==> exists i: nat :: OnlyAt(t, i, p)
  {
    SamePlaceholdersIsMultisetEquality(a + p + b, t);
    FoundBehind(a, p, b);
    NoBraceNothing(b);
    SingleMultiset(p, Find(t));
    OnlyOneFound(t, p);
  }

  lemma NoBraceNothing(b: string)
    requires '{' !in b
    ensures Find(b) == []
  {
    forall i, j | 0 <= i <= j <= |b|
      ensures !IsPlaceholder(b[i..j])
    {
      if j > i { assert b[i..j][0] == b[i]; }
    }
    NothingFound(b);
  }

  /** So a file for an English leaf with one placeholder is accepted exactly if it has that placeholder once. */
  lemma LeafAccepted(key: string, a: string, p: string, b: string, flat: Flat)
    requires '{' !in a && '{' !in b && IsPlaceholder(p)
    ensures Outcome(Obj([(key, Leaf(a + p + b))]), flat).Ok?
       <==> flat.Keys == {key} && flat[key].Some? && exists i: nat :: OnlyAt(flat[key].value, i, p)
  {
    var text := a + p + b;
    var en := Obj([(key, Leaf(text))]);
    OneLeaf(key, text, en);
    AcceptedExactlyIfFits(en, flat);
    var ends := [End(key, Leaf(text))];
    assert LeafPaths(ends) == {key} by {
      assert ends[0].path == key;
    }
    if flat.Keys == {key} && flat[key].Some? {
      OnePlaceholderKept(a, p, b, flat[key].value);
      SamePlaceholdersIsMultisetEquality(text, flat[key].value);
    }
  }

  lemma OneLeaf(key: string, text: string, en: Node)
    requires en == Obj([(key, Leaf(text))])
    ensures Ends(en, "") == [End(key, Leaf(text))]
  {
    assert EndsUpTo(en, 1, "") == EndsUpTo(en, 0, "") + Ends(Leaf(text), Join("", key));
  }
}
