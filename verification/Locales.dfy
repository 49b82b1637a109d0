/**
 * The translation pipeline over a tree of texts: flattening it to dotted paths,
 * and building a translated tree from a flat map while keeping book of what is
 * missing, extra or has the wrong placeholders.
 */
module Locales {
  import opened Wrappers
  import Placeholders

  /** A value in a locale file; `Other` is whatever is neither text nor a plain object. */
  datatype Node = Leaf(text: string) | Obj(entries: seq<(string, Node)>) | Other(kind: string)

  /** A flat file: a value that is not a text is read as None. */
  type Flat = map<string, Option<string>>

  /** A value that is not an object, and the dotted path to it. */
  datatype End = End(path: string, node: Node)

  function Join(prefix: string, key: string): string {
    if prefix == "" then key else prefix + "." + key
  }

  /** All values of a tree that are not objects, in the order they are met. */
  function Ends(node: Node, prefix: string): seq<End>
    decreases node, 1, 0
  {
    if node.Obj? then EndsUpTo(node, |node.entries|, prefix) else [End(prefix, node)]
  }

  function EndsUpTo(node: Node, n: nat, prefix: string): seq<End>
    requires node.Obj? && n <= |node.entries|
    decreases node, 0, n
  {
    if n == 0 then []
    else
      var (key, value) := node.entries[n - 1];
      EndsUpTo(node, n - 1, prefix) + Ends(value, Join(prefix, key))
  }

  // ------------------------------------------------------------------- extraction

  const NON_STRING := "__NON_STRING__:"

  function TextFor(node: Node): string
    requires !node.Obj?
  {
    if node.Leaf? then node.text else NON_STRING + node.kind
  }

  ghost predicate NoObjects(ends: seq<End>) {
    forall i :: 0 <= i < |ends| ==> !ends[i].node.Obj?
  }

  lemma {:induction false} EndsAreNoObjects(node: Node, prefix: string)
    ensures NoObjects(Ends(node, prefix))
    decreases node, 1, 0
  {
    if node.Obj? {
      EndsUpToAreNoObjects(node, |node.entries|, prefix);
    }
  }

  lemma {:induction false} EndsUpToAreNoObjects(node: Node, n: nat, prefix: string)
    requires node.Obj? && n <= |node.entries|
    ensures NoObjects(EndsUpTo(node, n, prefix))
    decreases node, 0, n
  {
    if n > 0 {
      EndsUpToAreNoObjects(node, n - 1, prefix);
      EndsAreNoObjects(node.entries[n - 1].1, Join(prefix, node.entries[n - 1].0));
    }
  }

  /** Each end is assigned at its path; the later one stays. */
  function Written(out: map<string, string>, ends: seq<End>): map<string, string> {
    if ends == [] then out
    else
      var last := ends[|ends| - 1];
      Written(out, ends[..|ends| - 1])[last.path := if last.node.Obj? then "" else TextFor(last.node)]
  }

  lemma {:induction false} WrittenConcat(out: map<string, string>, a: seq<End>, b: seq<End>)
    ensures Written(out, a + b) == Written(Written(out, a), b)
  {
    if b == [] {
      assert a + b == a;
    } else {
      assert (a + b)[..|a + b| - 1] == a + b[..|b| - 1];
      WrittenConcat(out, a, b[..|b| - 1]);
    }
  }

  function DottedKeys(node: Node, prefix: string): seq<string>
    decreases node, 1, 0
  {
    if node.Obj? then DottedKeysUpTo(node, |node.entries|, prefix) else []
  }

  function DottedKeysUpTo(node: Node, n: nat, prefix: string): seq<string>
    requires node.Obj? && n <= |node.entries|
    decreases node, 0, n
  {
    if n == 0 then []
    else
      DottedKeysUpTo(node, n - 1, prefix) + DottedKeysAt(node, n - 1, prefix)
  }

  function DottedKeysAt(node: Node, i: nat, prefix: string): seq<string>
    requires node.Obj? && i < |node.entries|
    decreases node, 0, i
  {
    var (key, value) := node.entries[i];
    (if '.' in key then [prefix + ">" + key] else []) + DottedKeys(value, Join(prefix, key))
  }

  /** What an extraction has gathered. */
  datatype Gathered = Gathered(out: map<string, string>, dottedKeys: seq<string>)

  function With(g: Gathered, node: Node, prefix: string): Gathered {
    Gathered(Written(g.out, Ends(node, prefix)), g.dottedKeys + DottedKeys(node, prefix))
  }

  function WithUpTo(g: Gathered, node: Node, n: nat, prefix: string): Gathered
    requires node.Obj? && n <= |node.entries|
  {
    Gathered(Written(g.out, EndsUpTo(node, n, prefix)), g.dottedKeys + DottedKeysUpTo(node, n, prefix))
  }

  function WithEntry(g: Gathered, node: Node, i: nat, prefix: string): Gathered
    requires node.Obj? && i < |node.entries|
  {
    var (key, value) := node.entries[i];
    Gathered(Written(g.out, Ends(value, Join(prefix, key))), g.dottedKeys + DottedKeysAt(node, i, prefix))
  }

  lemma WrittenEnd(out: map<string, string>, node: Node, prefix: string)
    requires !node.Obj?
    ensures Written(out, Ends(node, prefix)) == out[prefix := TextFor(node)]
  {
    assert Ends(node, prefix) == [End(prefix, node)];
    assert [End(prefix, node)][..0] == [];
  }

  lemma WithNextEntry(g: Gathered, node: Node, i: nat, prefix: string)
    requires node.Obj? && i < |node.entries|
    ensures WithUpTo(g, node, i + 1, prefix) == WithEntry(WithUpTo(g, node, i, prefix), node, i, prefix)
  {
    WrittenConcat(g.out, EndsUpTo(node, i, prefix), Ends(node.entries[i].1, Join(prefix, node.entries[i].0)));
    var a, b := DottedKeysUpTo(node, i, prefix), DottedKeysAt(node, i, prefix);
    assert g.dottedKeys + (a + b) == g.dottedKeys + a + b;
  }

  class Extraction {
    var out: map<string, string>
    var dottedKeys: seq<string>

    ghost function Now(): Gathered
      reads this
    {
      Gathered(out, dottedKeys)
    }

    constructor ()
      ensures Now() == Gathered(map[], [])
    {
      out, dottedKeys := map[], [];
    }

    method Flatten(node: Node, prefix: string)
      modifies this
      ensures Now() == With(old(Now()), node, prefix)
      decreases node, 1, 0
    {
      match node
      case Leaf(text) =>
        WrittenEnd(out, node, prefix);
        out := out[prefix := text];
      case Other(kind) =>
        WrittenEnd(out, node, prefix);
        out := out[prefix := NON_STRING + kind];
      case Obj(_) =>
        FlattenEntries(node, prefix);
    }

    method FlattenEntries(node: Node, prefix: string)
      requires node.Obj?
      modifies this
      ensures Now() == WithUpTo(old(Now()), node, |node.entries|, prefix)
      decreases node, 0, 1
    {
      ghost var before := Now();
      for i := 0 to |node.entries|
        invariant Now() == WithUpTo(before, node, i, prefix)
      {
        FlattenNext(node, i, prefix, before);
      }
    }

    method FlattenNext(node: Node, i: nat, prefix: string, ghost before: Gathered)
      requires node.Obj? && i < |node.entries| && Now() == WithUpTo(before, node, i, prefix)
      modifies this
      ensures Now() == WithUpTo(before, node, i + 1, prefix)
      decreases node, 0, 0, 1
    {
      WithNextEntry(before, node, i, prefix);
      FlattenEntry(node, i, prefix);
    }

    method FlattenEntry(node: Node, i: nat, prefix: string)
      requires node.Obj? && i < |node.entries|
      modifies this
      ensures Now() == WithEntry(old(Now()), node, i, prefix)
      decreases node, 0, 0, 0
    {
      var (key, value) := node.entries[i];
      if '.' in key {
        dottedKeys := dottedKeys + [prefix + ">" + key];
      }
      Flatten(value, Join(prefix, key));

    }
  }

  // ------------------------------------------------------------------------ building

  predicate Translated(flat: Flat, path: string) {
    path in flat && flat[path].Some?
  }

  function BuiltLeaf(text: string, path: string, flat: Flat): Node {
    Leaf(if Translated(flat, path) then flat[path].value else text)
  }

  function Built(node: Node, path: string, flat: Flat): Node
    decreases node, 1, 0
  {
    match node
    case Leaf(text) => BuiltLeaf(text, path, flat)
    case Obj(entries) => Obj(BuiltUpTo(node, |entries|, path, flat))
    case Other(_) => node
  }

  function BuiltUpTo(node: Node, n: nat, path: string, flat: Flat): (entries: seq<(string, Node)>)
    requires node.Obj? && n <= |node.entries|
    ensures |entries| == n
    decreases node, 0, n
  {
    if n == 0 then []
    else
      BuiltUpTo(node, n - 1, path, flat) + [BuiltAt(node, n - 1, path, flat)]
  }

  function BuiltAt(node: Node, i: nat, path: string, flat: Flat): (string, Node)
    requires node.Obj? && i < |node.entries|
    decreases node, 0, i
  {
    var (key, value) := node.entries[i];
    (key, Built(value, Join(path, key), flat))
  }

  function LeafPaths(ends: seq<End>): set<string> {
    set i | 0 <= i < |ends| && ends[i].node.Leaf? :: ends[i].path
  }

  predicate IsMissing(e: End, flat: Flat) {
    e.node.Leaf? && !Translated(flat, e.path)
  }

  predicate IsBad(e: End, flat: Flat) {
    e.node.Leaf? && Translated(flat, e.path) && !Placeholders.SamePlaceholders(e.node.text, flat[e.path].value)
  }

  function Missing(ends: seq<End>, flat: Flat): seq<string> {
    if ends == [] then []
    else
      var last := ends[|ends| - 1];
      Missing(ends[..|ends| - 1], flat) + if IsMissing(last, flat) then [last.path] else []
  }

  function BadPlaceholders(ends: seq<End>, flat: Flat): seq<string> {
    if ends == [] then []
    else
      var last := ends[|ends| - 1];
      BadPlaceholders(ends[..|ends| - 1], flat) + if IsBad(last, flat) then [last.path] else []
  }

  lemma {:induction false} MissingConcat(a: seq<End>, b: seq<End>, flat: Flat)
    ensures Missing(a + b, flat) == Missing(a, flat) + Missing(b, flat)
    ensures BadPlaceholders(a + b, flat) == BadPlaceholders(a, flat) + BadPlaceholders(b, flat)
  {
    if b == [] {
      assert a + b == a;
    } else {
      assert (a + b)[..|a + b| - 1] == a + b[..|b| - 1];
      MissingConcat(a, b[..|b| - 1], flat);
    }
  }

  lemma LeafPathsConcat(a: seq<End>, b: seq<End>)
    ensures LeafPaths(a + b) == LeafPaths(a) + LeafPaths(b)
  {
    assert forall i :: 0 <= i < |a| ==> a[i] == (a + b)[i];
    assert forall i :: 0 <= i < |b| ==> b[i] == (a + b)[|a| + i];
  }

  /** The book of a build: what it has seen, and the two lists of complaints. */
  datatype Book = Book(seen: set<string>, missing: seq<string>, badPlaceholders: seq<string>)

  function Kept(book: Book, ends: seq<End>, flat: Flat): Book {
    Book(book.seen + LeafPaths(ends), book.missing + Missing(ends, flat),
         book.badPlaceholders + BadPlaceholders(ends, flat))
  }

  lemma KeptConcat(book: Book, a: seq<End>, b: seq<End>, flat: Flat)
    ensures Kept(book, a + b, flat) == Kept(Kept(book, a, flat), b, flat)
  {
    MissingConcat(a, b, flat);
    LeafPathsConcat(a, b);
    var m, n := Missing(a, flat), Missing(b, flat);
    assert book.missing + (m + n) == book.missing + m + n;
    var p, q := BadPlaceholders(a, flat), BadPlaceholders(b, flat);
    assert book.badPlaceholders + (p + q) == book.badPlaceholders + p + q;
  }

  lemma KeptEnd(book: Book, e: End, flat: Flat)
    ensures Kept(book, [e], flat)
         == Book(book.seen + (if e.node.Leaf? then {e.path} else {}),
                 book.missing + (if IsMissing(e, flat) then [e.path] else []),
                 book.badPlaceholders + (if IsBad(e, flat) then [e.path] else []))
  {
    assert [e][..0] == [] && [e][0] == e;
    assert LeafPaths([e]) == if e.node.Leaf? then {e.path} else {};
    assert Missing([e], flat) == Missing([], flat) + if IsMissing(e, flat) then [e.path] else [];
    assert BadPlaceholders([e], flat) == BadPlaceholders([], flat) + if IsBad(e, flat) then [e.path] else [];
  }

  lemma KeptEntry(book: Book, node: Node, i: nat, path: string, flat: Flat)
    requires node.Obj? && i < |node.entries|
    ensures Kept(book, EndsUpTo(node, i + 1, path), flat)
         == Kept(Kept(book, EndsUpTo(node, i, path), flat),
                 Ends(node.entries[i].1, Join(path, node.entries[i].0)), flat)
  {
    KeptConcat(book, EndsUpTo(node, i, path), Ends(node.entries[i].1, Join(path, node.entries[i].0)), flat);
  }

  class Builder {
    const flat: Flat
    var seen: set<string>
    var missing: seq<string>
    var badPlaceholders: seq<string>

    ghost function Now(): Book
      reads this
    {
      Book(seen, missing, badPlaceholders)
    }

    constructor (flat: Flat)
      ensures this.flat == flat && Now() == Book({}, [], [])
    {
      this.flat := flat;
      seen, missing, badPlaceholders := {}, [], [];
    }

    method BuildLeaf(text: string, path: string) returns (built: Node)
      modifies this
      ensures built == BuiltLeaf(text, path, flat)
      ensures Now() == Kept(old(Now()), [End(path, Leaf(text))], flat)
    {
      KeptEnd(Now(), End(path, Leaf(text)), flat);
      seen := seen + {path};
      if path !in flat || flat[path].None? {
        missing := missing + [path];
        return Leaf(text);
      }
      var translated := flat[path].value;
      if !Placeholders.SamePlaceholders(text, translated) {
        badPlaceholders := badPlaceholders + [path];
      }
      return Leaf(translated);
    }

    method Build(node: Node, path: string) returns (built: Node)
      modifies this
      ensures built == Built(node, path, flat)
      ensures Now() == Kept(old(Now()), Ends(node, path), flat)
      decreases node, 1, 0
    {
      match node
      case Leaf(text) =>
        built := BuildLeaf(text, path);
      case Obj(_) =>
        var out := BuildEntries(node, path);
        return Obj(out);
      case Other(_) =>
        KeptEnd(Now(), End(path, node), flat);
        return node;
    }

    method BuildEntries(node: Node, path: string) returns (out: seq<(string, Node)>)
      requires node.Obj?
      modifies this
      ensures out == BuiltUpTo(node, |node.entries|, path, flat)
      ensures Now() == Kept(old(Now()), EndsUpTo(node, |node.entries|, path), flat)
      decreases node, 0, 1
    {
      out := [];
      ghost var before := Now();
      for i := 0 to |node.entries|
        invariant out == BuiltUpTo(node, i, path, flat)
        invariant Now() == Kept(before, EndsUpTo(node, i, path), flat)
      {
        var entry := BuildEntry(node, i, path);
        out := out + [entry];
        KeptEntry(before, node, i, path, flat);
      }
    }

    method BuildEntry(node: Node, i: nat, path: string) returns (entry: (string, Node))
      requires node.Obj? && i < |node.entries|
      modifies this
      ensures entry == BuiltAt(node, i, path, flat)
      ensures Now() == Kept(old(Now()), Ends(node.entries[i].1, Join(path, node.entries[i].0)), flat)
      decreases node, 0, 0
    {
      var (key, value) := node.entries[i];
      var inner := Build(value, Join(path, key));
      return (key, inner);
    }
  }

  datatype Complaints = Complaints(missing: seq<string>, extra: set<string>, badPlaceholders: seq<string>)

  function Extra(en: Node, flat: Flat): set<string> {
    flat.Keys - LeafPaths(Ends(en, ""))
  }

  /** The outcome of a build: the locale, or everything that is wrong with its flat file. */
  function Outcome(en: Node, flat: Flat): Result<Node, Complaints> {
    var ends := Ends(en, "");
    var complaints := Complaints(Missing(ends, flat), Extra(en, flat), BadPlaceholders(ends, flat));
    if complaints == Complaints([], {}, []) then Ok(Built(en, "", flat)) else Err(complaints)
  }

  lemma OneNamespace(en: Node, i: nat, single: Node)
    requires en.Obj? && i < |en.entries| && single == Obj([en.entries[i]])
    ensures EndsUpTo(en, i + 1, "") == EndsUpTo(en, i, "") + Ends(single, "")
  {
    assert EndsUpTo(single, 1, "") == EndsUpTo(single, 0, "") + Ends(en.entries[i].1, Join("", en.entries[i].0));
  }

  lemma OneNamespaceBuilt(en: Node, i: nat, single: Node, flat: Flat)
    requires en.Obj? && i < |en.entries| && single == Obj([en.entries[i]])
    ensures Built(single, "", flat) == Obj([BuiltAt(en, i, "", flat)])
  {
    assert BuiltUpTo(single, 1, "", flat) == BuiltUpTo(single, 0, "", flat) + [BuiltAt(single, 0, "", flat)];
  }

  method BuildNamespace(builder: Builder, en: Node, i: nat, ghost flat: Flat) returns (entry: (string, Node))
    requires en.Obj? && i < |en.entries| && builder.flat == flat
    requires builder.Now() == Kept(Book({}, [], []), EndsUpTo(en, i, ""), flat)
    modifies builder
    ensures entry == BuiltAt(en, i, "", flat)
    ensures builder.Now() == Kept(Book({}, [], []), EndsUpTo(en, i + 1, ""), flat)
  {
    var single := Obj([en.entries[i]]);
    OneNamespace(en, i, single);
    OneNamespaceBuilt(en, i, single, flat);
    KeptConcat(Book({}, [], []), EndsUpTo(en, i, ""), Ends(single, ""), flat);
    var built := builder.Build(single, "");
    entry := built.entries[0];
  }

  /** One object per namespace is built, and the barrel file puts them together again. */
  method BuildLocale(en: Node, flat: Flat) returns (r: Result<Node, Complaints>)
    requires en.Obj?
    ensures r == Outcome(en, flat)
  {
    var builder := new Builder(flat);
    var locale: seq<(string, Node)> := [];
    for i := 0 to |en.entries|
      invariant locale == BuiltUpTo(en, i, "", flat) && fresh(builder) && builder.flat == flat
      invariant builder.Now() == Kept(Book({}, [], []), EndsUpTo(en, i, ""), flat)
    {
      var entry := BuildNamespace(builder, en, i, flat);
      locale := locale + [entry];
    }
    ghost var ends := Ends(en, "");
    assert builder.seen == LeafPaths(ends) && builder.missing == Missing(ends, flat);
    assert builder.badPlaceholders == BadPlaceholders(ends, flat);
    var extra := flat.Keys - builder.seen;
    if builder.missing == [] && extra == {} && builder.badPlaceholders == [] {
      return Ok(Obj(locale));
    }
    return Err(Complaints(builder.missing, extra, builder.badPlaceholders));
  }
}
