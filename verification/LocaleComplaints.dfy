/**
 * What a build complains about, told by the English tree and the flat file: which
 * paths are missing, which are extra, and which have the wrong placeholders.
 */
module LocaleComplaints {
  import opened Wrappers
  import opened Locales
  import Placeholders

  /** The tree has a text at this path. */
  ghost predicate TextAt(ends: seq<End>, path: string, text: string) {
    exists i :: 0 <= i < |ends| && ends[i] == End(path, Leaf(text))
  }

  /** The file has a text for this path. */
  predicate TextIn(flat: Flat, path: string, text: string) {
    path in flat && flat[path] == Some(text)
  }

  ghost predicate SomeText(flat: Flat, path: string) {
    exists text :: TextIn(flat, path, text)
  }

  /** A text of the tree and one of the file for the same path do not have the same placeholders equally often. */
  ghost predicate Differ(ends: seq<End>, flat: Flat, path: string) {
    exists a, b :: TextAt(ends, path, a) && TextIn(flat, path, b)
                   && multiset(Placeholders.Find(a)) != multiset(Placeholders.Find(b))
  }

  lemma {:induction false} MissingAre(ends: seq<End>, flat: Flat, path: string)
    ensures path in Missing(ends, flat)
       <==> exists i :: 0 <= i < |ends| && ends[i].path == path && IsMissing(ends[i], flat)
  {
    if ends != [] {
      var front := ends[..|ends| - 1];
      MissingAre(front, flat, path);
      assert forall i :: 0 <= i < |front| ==> front[i] == ends[i];
    }
  }

  lemma {:induction false} BadAre(ends: seq<End>, flat: Flat, path: string)
    ensures path in BadPlaceholders(ends, flat)
       <==> exists i :: 0 <= i < |ends| && ends[i].path == path && IsBad(ends[i], flat)
  {
    if ends != [] {
      var front := ends[..|ends| - 1];
      BadAre(front, flat, path);
      assert forall i :: 0 <= i < |front| ==> front[i] == ends[i];
    }
  }

  lemma BadEnd(e: End, flat: Flat)
    ensures IsBad(e, flat)
       <==> (&& e.node.Leaf? && Translated(flat, e.path)
             && multiset(Placeholders.Find(e.node.text)) != multiset(Placeholders.Find(flat[e.path].value)))
  {
    if e.node.Leaf? && Translated(flat, e.path) {
      Placeholders.SamePlaceholdersIsMultisetEquality(e.node.text, flat[e.path].value);
    }
  }

  lemma MissingName(ends: seq<End>, flat: Flat, path: string)
    ensures path in Missing(ends, flat) <==> (exists text :: TextAt(ends, path, text)) && !SomeText(flat, path)
  {
    MissingAre(ends, flat, path);
    assert Translated(flat, path) ==> TextIn(flat, path, flat[path].value);
    if i :| 0 <= i < |ends| && ends[i].path == path && ends[i].node.Leaf? {
      assert TextAt(ends, path, ends[i].node.text);
    }
  }

  lemma BadName(ends: seq<End>, flat: Flat, path: string)
    ensures path in BadPlaceholders(ends, flat) <==> Differ(ends, flat, path)
  {
    BadAre(ends, flat, path);
    if i :| 0 <= i < |ends| && ends[i].path == path && IsBad(ends[i], flat) {
      BadEnd(ends[i], flat);
      assert TextAt(ends, path, ends[i].node.text) && TextIn(flat, path, flat[path].value);
    }
    if a, b :| TextAt(ends, path, a) && TextIn(flat, path, b)
               && multiset(Placeholders.Find(a)) != multiset(Placeholders.Find(b)) {
      var i :| 0 <= i < |ends| && ends[i] == End(path, Leaf(a));
      BadEnd(ends[i], flat);
    }
  }

  /** A build that is refused names exactly the paths that are at fault, each in its list. */
  lemma ComplaintsNameFaults(en: Node, flat: Flat, c: Complaints, path: string)
    requires Outcome(en, flat) == Err(c)
    ensures path in c.missing <==> (exists text :: TextAt(Ends(en, ""), path, text)) && !SomeText(flat, path)
    ensures path in c.extra <==> path in flat && !exists text :: TextAt(Ends(en, ""), path, text)
    ensures path in c.badPlaceholders <==> Differ(Ends(en, ""), flat, path)
  {
    var ends := Ends(en, "");
    MissingName(ends, flat, path);
    BadName(ends, flat, path);
    if path in LeafPaths(ends) {
      var i :| 0 <= i < |ends| && ends[i].node.Leaf? && ends[i].path == path;
      assert TextAt(ends, path, ends[i].node.text);
    }
  }
}
