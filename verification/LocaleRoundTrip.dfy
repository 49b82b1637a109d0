/**
 * What the translation pipeline is for: a flat file is accepted exactly if it
 * has the keys and the placeholders of the English tree, an accepted locale
 * flattens back to its flat file, and a tree is rebuilt from its own flat form
 * exactly if its paths keep its texts apart.
 */
module LocaleRoundTrip {
  import opened Wrappers
  import opened LocaleEnds
  import opened Locales
  import Placeholders

  ghost predicate AllText(ends: seq<End>) {
    forall i :: 0 <= i < |ends| ==> ends[i].node.Leaf?
  }

  /** Ends with the same path hold the same value. */
  ghost predicate OnePerPath(ends: seq<End>) {
    forall i, j :: 0 <= i < |ends| && 0 <= j < |ends| && ends[i].path == ends[j].path ==> ends[i].node == ends[j].node
  }

  // --------------------------------------------------------- which files are accepted

  ghost predicate NoComplaintAbout(ends: seq<End>, flat: Flat) {
    forall i :: 0 <= i < |ends| ==> !IsMissing(ends[i], flat) && !IsBad(ends[i], flat)
  }

  lemma {:induction false} NoComplaints(ends: seq<End>, flat: Flat)
    ensures Missing(ends, flat) == [] && BadPlaceholders(ends, flat) == [] <==> NoComplaintAbout(ends, flat)
  {
    if ends != [] {
      var front := ends[..|ends| - 1];
      NoComplaints(front, flat);
      assert ends == front + [ends[|ends| - 1]];
    }
  }

  /** A leaf has a translated text with the very placeholders it needs. */
  ghost predicate EndFits(e: End, flat: Flat) {
    e.node.Leaf? ==>
      && Translated(flat, e.path)
      && multiset(Placeholders.Find(e.node.text)) == multiset(Placeholders.Find(flat[e.path].value))
  }

  ghost predicate AllFit(ends: seq<End>, flat: Flat) {
    forall i :: 0 <= i < |ends| ==> EndFits(ends[i], flat)
  }

  /** The file has exactly the keys of the leaves, each with a fitting text. */
  ghost predicate Fits(ends: seq<End>, flat: Flat) {
    flat.Keys == LeafPaths(ends) && AllFit(ends, flat)
  }

  lemma EndFitsIfNoComplaint(e: End, flat: Flat)
    ensures EndFits(e, flat) <==> !IsMissing(e, flat) && !IsBad(e, flat)
  {
    if e.node.Leaf? && Translated(flat, e.path) {
      Placeholders.SamePlaceholdersIsMultisetEquality(e.node.text, flat[e.path].value);
    }
  }

  lemma AllFitIfNoComplaint(ends: seq<End>, flat: Flat)
    ensures AllFit(ends, flat) <==> NoComplaintAbout(ends, flat)
  {
    forall i | 0 <= i < |ends|
      ensures EndFits(ends[i], flat) <==> !IsMissing(ends[i], flat) && !IsBad(ends[i], flat)
    {
      EndFitsIfNoComplaint(ends[i], flat);
    }
  }

  lemma DifferenceEmpty(a: set<string>, b: set<string>)
    ensures a - b == {} <==> a <= b
  {
    if a - b == {} {
      forall x | x in a
        ensures x in b
      {
        assert x !in a - b;
      }
    }
  }

  lemma NothingToComplain(ends: seq<End>, flat: Flat)
    ensures Missing(ends, flat) == [] && flat.Keys - LeafPaths(ends) == {} && BadPlaceholders(ends, flat) == []
       <==> Fits(ends, flat)
  {
    NoComplaints(ends, flat);
    AllFitIfNoComplaint(ends, flat);
    DifferenceEmpty(flat.Keys, LeafPaths(ends));
  }

  /** A flat file is accepted exactly if it fits the English tree. */
  lemma AcceptedExactlyIfFits(en: Node, flat: Flat)
    ensures Outcome(en, flat).Ok? <==> Fits(Ends(en, ""), flat)
  {
    NothingToComplain(Ends(en, ""), flat);
  }

  // ----------------------------------------------------- flattening what was built

  /** A map read back as a flat file. */
  function AsFlat(out: map<string, string>): Flat {
    map p | p in out :: Some(out[p])
  }

  function Flattened(node: Node): map<string, string> {
    Written(map[], Ends(node, ""))
  }

  lemma BuiltRecord(ends: seq<End>, flat: Flat, out: map<string, string>, p: string)
    requires AllText(ends) && Fits(ends, flat) && Records(out, BuiltEnds(ends, flat)) && p in out
    ensures p in flat && flat[p] == Some(out[p])
  {
    assert Holds(BuiltEnds(ends, flat), p, out[p]);
    var i :| 0 <= i < |ends| && BuiltEnd(ends[i], flat).path == p && TextFor(BuiltEnd(ends[i], flat).node) == out[p];
    assert EndFits(ends[i], flat);
  }

  lemma RecordBuilt(ends: seq<End>, flat: Flat, out: map<string, string>, p: string)
    requires Fits(ends, flat) && Records(out, BuiltEnds(ends, flat)) && p in flat
    ensures p in out
  {
    var i :| 0 <= i < |ends| && ends[i].node.Leaf? && ends[i].path == p;
    assert BuiltEnds(ends, flat)[i].path == p;
  }

  lemma BuiltRecords(ends: seq<End>, flat: Flat, out: map<string, string>)
    requires AllText(ends) && Fits(ends, flat) && Records(out, BuiltEnds(ends, flat))
    ensures AsFlat(out) == flat
  {
    forall p
      ensures p in out <==> p in flat
      ensures p in out ==> flat[p] == Some(out[p])
    {
      if p in out {
        BuiltRecord(ends, flat, out, p);
      }
      if p in flat {
        RecordBuilt(ends, flat, out, p);
      }
    }
  }

  /** An accepted locale flattens back to the very file it was built from. */
  lemma BuiltFlattensBack(en: Node, flat: Flat)
    requires AllText(Ends(en, "")) && Outcome(en, flat).Ok?
    ensures AsFlat(Flattened(Outcome(en, flat).value)) == flat
  {
    var ends := Ends(en, "");
    AcceptedExactlyIfFits(en, flat);
    EndsOfBuilt(en, "", flat);
    WrittenRecords(BuiltEnds(ends, flat));
    BuiltRecords(ends, flat, Written(map[], BuiltEnds(ends, flat)));
  }

  // --------------------------------------------------- building what was flattened

  ghost predicate Unchanged(ends: seq<End>, flat: Flat) {
    forall i :: 0 <= i < |ends| ==> BuiltEnd(ends[i], flat) == ends[i]
  }

  lemma UnchangedParts(a: seq<End>, b: seq<End>, flat: Flat)
    requires Unchanged(a + b, flat)
    ensures Unchanged(a, flat) && Unchanged(b, flat)
  {
    assert forall i :: 0 <= i < |a| ==> (a + b)[i] == a[i];
    assert forall i :: 0 <= i < |b| ==> (a + b)[|a| + i] == b[i];
  }

  lemma SameEntryAppended(node: Node, n: nat, path: string, flat: Flat)
    requires node.Obj? && 0 < n <= |node.entries| && BuiltUpTo(node, n - 1, path, flat) == node.entries[..n - 1]
    requires Built(node.entries[n - 1].1, Join(path, node.entries[n - 1].0), flat) == node.entries[n - 1].1
    ensures BuiltUpTo(node, n, path, flat) == node.entries[..n]
  {
    assert BuiltAt(node, n - 1, path, flat) == node.entries[n - 1];
  }

  lemma UnchangedEntry(node: Node, n: nat, path: string, flat: Flat)
    requires node.Obj? && 0 < n <= |node.entries| && Unchanged(EndsUpTo(node, n, path), flat)
    ensures Unchanged(EndsUpTo(node, n - 1, path), flat)
    ensures Unchanged(Ends(node.entries[n - 1].1, Join(path, node.entries[n - 1].0)), flat)
  {
    EndsAppended(node, n, path);
    UnchangedParts(EndsUpTo(node, n - 1, path), Ends(node.entries[n - 1].1, Join(path, node.entries[n - 1].0)), flat);
  }

  lemma {:induction false} SameEndsSameTree(node: Node, path: string, flat: Flat)
    requires Unchanged(Ends(node, path), flat)
    ensures Built(node, path, flat) == node
    decreases node, 1, 0
  {
    if node.Obj? {
      SameEndsSameEntries(node, |node.entries|, path, flat);
      assert node.entries[..|node.entries|] == node.entries;
    } else {
      assert BuiltEnd(Ends(node, path)[0], flat) == Ends(node, path)[0];
    }
  }

  lemma {:induction false} SameEndsSameEntries(node: Node, n: nat, path: string, flat: Flat)
    requires node.Obj? && n <= |node.entries| && Unchanged(EndsUpTo(node, n, path), flat)
    ensures BuiltUpTo(node, n, path, flat) == node.entries[..n]
    decreases node, 0, n
  {
    if n > 0 {
      var (key, value) := node.entries[n - 1];
      UnchangedEntry(node, n, path, flat);
      SameEndsSameEntries(node, n - 1, path, flat);
      SameEndsSameTree(value, Join(path, key), flat);
      SameEntryAppended(node, n, path, flat);
    }
  }

  /** Extracting and building again gives the same tree exactly if no path has two texts. */
  lemma RebuiltExactlyIfOnePerPath(en: Node)
    requires AllText(Ends(en, ""))
    ensures Built(en, "", AsFlat(Flattened(en))) == en <==> OnePerPath(Ends(en, ""))
  {
    var ends, flat := Ends(en, ""), AsFlat(Flattened(en));
    EndsAreNoObjects(en, "");
    WrittenRecords(ends);
    if Unchanged(ends, flat) {
      SameEndsSameTree(en, "", flat);
    }
    EndsOfBuilt(en, "", flat);
  }

  // ----------------------------------------------------- keys that keep paths apart

  /** With plain keys no two values share a path, so a tree of texts comes back from its flat form unchanged. */
  lemma PlainTreeRebuilt(en: Node)
    requires AllText(Ends(en, "")) && Plain(en)
    ensures Built(en, "", AsFlat(Flattened(en))) == en
  {
    PlainPathsDistinct(en, "");
    RebuiltExactlyIfOnePerPath(en);
  }

  /** A key with a dot can take the path of a nested one, and then a text is lost. */
  lemma DottedKeyLosesText()
    ensures var en := Obj([("a.b", Leaf("x")), ("a", Obj([("b", Leaf("y"))]))]);
            Built(en, "", AsFlat(Flattened(en))) != en
  {
    var inner := Obj([("b", Leaf("y"))]);
    var en := Obj([("a.b", Leaf("x")), ("a", inner)]);
    assert Join("a", "b") == "a.b";
    EndsAppended(inner, 1, "a");
    EndsAppended(en, 1, "");
    EndsAppended(en, 2, "");
    var ends := Ends(en, "");
    assert ends == [End("a.b", Leaf("x")), End("a.b", Leaf("y"))];
    assert ends[0].path == ends[1].path && ends[0].node != ends[1].node;
    RebuiltExactlyIfOnePerPath(en);
  }

  // ------------------------------------------------------- the checks of extraction

  ghost predicate DotFree(node: Node) {
    node.Obj? ==> forall i :: 0 <= i < |node.entries| ==> '.' !in node.entries[i].0 && DotFree(node.entries[i].1)
  }

  lemma OneEntry(key: string, value: Node, prefix: string)
    ensures Ends(Obj([(key, value)]), prefix) == Ends(value, Join(prefix, key))
    ensures DottedKeys(Obj([(key, value)]), prefix)
         == (if '.' in key then [prefix + ">" + key] else []) + DottedKeys(value, Join(prefix, key))
  {
    var node := Obj([(key, value)]);
    EndsAppended(node, 1, prefix);
    assert EndsUpTo(node, 0, prefix) == [];
    assert DottedKeysUpTo(node, 1, prefix) == DottedKeysUpTo(node, 0, prefix) + DottedKeysAt(node, 0, prefix);
    assert DottedKeysUpTo(node, 0, prefix) == [];
  }

  /** What two nested entries are written as, and which of their keys are listed. */
  lemma TwoLevels(k: string, l: string, node: Node)
    requires k != "" && !node.Obj?
    ensures var en := Obj([(k, Obj([(l, node)]))]);
            && Flattened(en)
            == map[k + "." + l := match node case Leaf(text) => text case Other(kind) => "__NON_STRING__:" + kind]
            && DottedKeys(en, "") == (if '.' in k then [">" + k] else []) + (if '.' in l then [k + ">" + l] else [])
  {
    var inner := Obj([(l, node)]);
    OneEntry(l, node, k);
    OneEntry(k, inner, "");
    assert Join("", k) == k && Join(k, l) == k + "." + l && "" + ">" + k == ">" + k;
    WrittenEnd(map[], node, k + "." + l);
    assert DottedKeys(node, k + "." + l) == [];
  }

  /** The list of dotted keys is empty exactly if no key anywhere has a dot. */
  lemma {:induction false} NoDottedKeys(node: Node, prefix: string)
    ensures DottedKeys(node, prefix) == [] <==> DotFree(node)
    decreases node, 1, 0
  {
    if node.Obj? {
      NoDottedKeysUpTo(node, |node.entries|, prefix);
    }
  }

  lemma {:induction false} NoDottedKeysUpTo(node: Node, n: nat, prefix: string)
    requires node.Obj? && n <= |node.entries|
    ensures DottedKeysUpTo(node, n, prefix) == []
       <==> forall i :: 0 <= i < n ==> '.' !in node.entries[i].0 && DotFree(node.entries[i].1)
    decreases node, 0, n
  {
    if n > 0 {
      NoDottedKeysUpTo(node, n - 1, prefix);
      NoDottedKeys(node.entries[n - 1].1, Join(prefix, node.entries[n - 1].0));
    }
  }

  lemma OwnTextsFit(ends: seq<End>, out: map<string, string>)
    requires AllText(ends) && OnePerPath(ends) && Records(out, ends)
    ensures Fits(ends, AsFlat(out))
  {
    forall i | 0 <= i < |ends|
      ensures EndFits(ends[i], AsFlat(out))
    {
      assert HasPath(ends, ends[i].path) && Holds(ends, ends[i].path, out[ends[i].path]);
    }
    forall p
      ensures p in AsFlat(out) <==> p in LeafPaths(ends)
    {
      assert p in out <==> HasPath(ends, p);
    }
  }

  lemma OtherIsExtra(ends: seq<End>, out: map<string, string>, i: nat)
    requires DistinctPaths(ends) && Records(out, ends) && i < |ends| && !ends[i].node.Leaf?
    ensures ends[i].path in AsFlat(out) && ends[i].path !in LeafPaths(ends)
  {
    assert HasPath(ends, ends[i].path);
  }

  /** A tree with plain keys is accepted with its own flat form exactly if it holds nothing but texts. */
  lemma OwnFlatAcceptedIfAllText(en: Node)
    requires Plain(en)
    ensures Outcome(en, AsFlat(Flattened(en))).Ok? <==> AllText(Ends(en, ""))
  {
    var ends, out := Ends(en, ""), Flattened(en);
    EndsAreNoObjects(en, "");
    WrittenRecords(ends);
    PlainPathsDistinct(en, "");
    AcceptedExactlyIfFits(en, AsFlat(out));
    if AllText(ends) {
      OwnTextsFit(ends, out);
    } else {
      var i: nat :| i < |ends| && !ends[i].node.Leaf?;
      OtherIsExtra(ends, out, i);
    }
  }
}
