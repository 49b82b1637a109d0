/**
 * The ends of a tree, the values at its leaves with their dotted paths: of a tree
 * that was built, of one that is written to a flat map, and of one whose keys
 * keep its paths apart.
 */
module LocaleEnds {
  import opened Locales

  // ----------------------------------------------------- flattening what was built

  function BuiltEnd(e: End, flat: Flat): End {
    if e.node.Leaf? then End(e.path, BuiltLeaf(e.node.text, e.path, flat)) else e
  }

  function BuiltEnds(ends: seq<End>, flat: Flat): seq<End> {
    seq(|ends|, i requires 0 <= i < |ends| => BuiltEnd(ends[i], flat))
  }

  lemma {:induction false} EndsOfBuilt(node: Node, path: string, flat: Flat)
    ensures Ends(Built(node, path, flat), path) == BuiltEnds(Ends(node, path), flat)
    decreases node, 1, 0
  {
    if node.Obj? {
      EndsOfBuiltUpTo(node, Built(node, path, flat), |node.entries|, path, flat);
    }
  }

  lemma {:induction false} BuiltEntriesPrefix(node: Node, i: nat, n: nat, path: string, flat: Flat)
    requires node.Obj? && i < n <= |node.entries|
    ensures BuiltUpTo(node, n, path, flat)[i] == BuiltAt(node, i, path, flat)
    decreases n
  {
    if i < n - 1 {
      BuiltEntriesPrefix(node, i, n - 1, path, flat);
    }
  }

  lemma EndsAppended(node: Node, n: nat, path: string)
    requires node.Obj? && 0 < n <= |node.entries|
    ensures EndsUpTo(node, n, path)
         == EndsUpTo(node, n - 1, path) + Ends(node.entries[n - 1].1, Join(path, node.entries[n - 1].0))
  {
  }

  lemma BuiltEndsConcat(a: seq<End>, b: seq<End>, flat: Flat)
    ensures BuiltEnds(a + b, flat) == BuiltEnds(a, flat) + BuiltEnds(b, flat)
  {
  }

  lemma BuiltEntry(node: Node, built: Node, i: nat, path: string, flat: Flat)
    requires node.Obj? && i < |node.entries| && built == Built(node, path, flat)
    ensures built.Obj? && |built.entries| == |node.entries| && built.entries[i] == BuiltAt(node, i, path, flat)
  {
    BuiltEntriesPrefix(node, i, |node.entries|, path, flat);
  }

  lemma EndsOfBuiltAppended(node: Node, built: Node, n: nat, path: string, flat: Flat, key: string, value: Node)
    requires node.Obj? && 0 < n <= |node.entries| == (if built.Obj? then |built.entries| else 0)
    requires node.entries[n - 1] == (key, value)
    requires built.entries[n - 1] == (key, Built(value, Join(path, key), flat))
    requires EndsUpTo(built, n - 1, path) == BuiltEnds(EndsUpTo(node, n - 1, path), flat)
    requires Ends(Built(value, Join(path, key), flat), Join(path, key)) == BuiltEnds(Ends(value, Join(path, key)), flat)
    ensures EndsUpTo(built, n, path) == BuiltEnds(EndsUpTo(node, n, path), flat)
  {
    EndsAppended(node, n, path);
    EndsAppended(built, n, path);
    BuiltEndsConcat(EndsUpTo(node, n - 1, path), Ends(value, Join(path, key)), flat);
  }

  lemma {:induction false} EndsOfBuiltUpTo(node: Node, built: Node, n: nat, path: string, flat: Flat)
    requires node.Obj? && n <= |node.entries| && built == Built(node, path, flat)
    ensures EndsUpTo(built, n, path) == BuiltEnds(EndsUpTo(node, n, path), flat)
    decreases node, 0, n
  {
    if n > 0 {
      var (key, value) := node.entries[n - 1];
      EndsOfBuiltUpTo(node, built, n - 1, path, flat);
      EndsOfBuilt(value, Join(path, key), flat);
      BuiltEntry(node, built, n - 1, path, flat);
      EndsOfBuiltAppended(node, built, n, path, flat, key, value);
    }
  }

  /** Some end has this path and this text. */
  ghost predicate Holds(ends: seq<End>, path: string, text: string) {
    exists i :: 0 <= i < |ends| && ends[i].path == path && !ends[i].node.Obj? && TextFor(ends[i].node) == text
  }

  ghost predicate HasPath(ends: seq<End>, path: string) {
    exists i :: 0 <= i < |ends| && ends[i].path == path
  }

  /** `out` has a text for each path, taken from some end with that path. */
  ghost predicate Records(out: map<string, string>, ends: seq<End>) {
    && (forall p :: p in out <==> HasPath(ends, p))
    && (forall p :: p in out ==> Holds(ends, p, out[p]))
  }

  lemma {:induction false} WrittenRecords(ends: seq<End>)
    requires NoObjects(ends)
    ensures Records(Written(map[], ends), ends)
  {
    if ends != [] {
      var front, last := ends[..|ends| - 1], ends[|ends| - 1];
      WrittenRecords(front);
      RecordOneMore(Written(map[], front), front, last);
      assert ends == front + [last];
    }
  }

  lemma RecordOneMore(out: map<string, string>, front: seq<End>, last: End)
    requires Records(out, front) && !last.node.Obj?
    ensures Records(out[last.path := TextFor(last.node)], front + [last])
  {
    var ends, after := front + [last], out[last.path := TextFor(last.node)];
    assert ends[|front|] == last && forall i :: 0 <= i < |front| ==> ends[i] == front[i];
    forall p
      ensures p in after <==> HasPath(ends, p)
      ensures p in after ==> Holds(ends, p, after[p])
    {
      assert p in out <==> HasPath(front, p);
    }
  }

  // ----------------------------------------------------- keys that keep paths apart

  predicate PlainKey(key: string) {
    key != "" && '.' !in key
  }

  /** An object never has a key twice; here its keys are also non-empty and free of dots. */
  ghost predicate Plain(node: Node) {
    node.Obj? ==>
      && (forall i, j :: 0 <= i < j < |node.entries| ==> node.entries[i].0 != node.entries[j].0)
      && (forall i :: 0 <= i < |node.entries| ==> PlainKey(node.entries[i].0) && Plain(node.entries[i].1))
  }

  /** `path` is `at`, or goes on from it with a dot. */
  predicate Under(at: string, path: string) {
    at <= path && (|path| == |at| || path[|at|] == '.')
  }

  ghost predicate AllUnder(at: string, ends: seq<End>) {
    forall i :: 0 <= i < |ends| ==> Under(at, ends[i].path)
  }

  lemma {:induction false} EndsUnder(node: Node, prefix: string)
    requires prefix != ""
    ensures AllUnder(prefix, Ends(node, prefix))
    decreases node, 1, 0
  {
    if node.Obj? {
      EndsUpToUnder(node, |node.entries|, prefix);
    }
  }

  lemma {:induction false} EndsUpToUnder(node: Node, n: nat, prefix: string)
    requires prefix != "" && node.Obj? && n <= |node.entries|
    ensures AllUnder(prefix, EndsUpTo(node, n, prefix))
    decreases node, 0, n
  {
    if n > 0 {
      var (key, value) := node.entries[n - 1];
      EndsUpToUnder(node, n - 1, prefix);
      EndsUnder(value, Join(prefix, key));
      EndsAppended(node, n, prefix);
    }
  }

  /** A path lies under only one of the keys of an object. */
  lemma OneKeyAbove(prefix: string, k: string, l: string, path: string)
    requires PlainKey(k) && PlainKey(l) && Under(Join(prefix, k), path) && Under(Join(prefix, l), path)
    ensures k == l
  {
    var from := if prefix == "" then 0 else |prefix| + 1;
    var p, q := Join(prefix, k), Join(prefix, l);
    assert p == path[..|p|] && q == path[..|q|];
    assert k == path[from..from + |k|] && l == path[from..from + |l|];
  }

  ghost predicate DistinctPaths(ends: seq<End>) {
    forall i, j :: 0 <= i < j < |ends| ==> ends[i].path != ends[j].path
  }

  /** Each path lies under one of the first `n` keys. */
  ghost predicate UnderSome(node: Node, n: nat, prefix: string, ends: seq<End>)
    requires node.Obj? && n <= |node.entries|
  {
    forall i :: 0 <= i < |ends| ==> UnderOneOf(node, n, prefix, ends[i].path)
  }

  ghost predicate UnderOneOf(node: Node, n: nat, prefix: string, path: string)
    requires node.Obj? && n <= |node.entries|
  {
    exists e :: 0 <= e < n && Under(Join(prefix, node.entries[e].0), path)
  }

  lemma {:induction false} EndsUnderKeys(node: Node, n: nat, prefix: string)
    requires node.Obj? && n <= |node.entries| && Plain(node)
    ensures UnderSome(node, n, prefix, EndsUpTo(node, n, prefix))
    decreases n
  {
    if n > 0 {
      var (key, value) := node.entries[n - 1];
      var front: seq<End>, last: seq<End> := EndsUpTo(node, n - 1, prefix), Ends(value, Join(prefix, key));
      EndsUnderKeys(node, n - 1, prefix);
      assert PlainKey(key);
      EndsUnder(value, Join(prefix, key));
      EndsAppended(node, n, prefix);
      forall i | 0 <= i < |front + last|
        ensures UnderOneOf(node, n, prefix, (front + last)[i].path)
      {
        if i < |front| {
          assert UnderOneOf(node, n - 1, prefix, front[i].path);
        } else {
          assert Under(Join(prefix, node.entries[n - 1].0), last[i - |front|].path);
        }
      }
    }
  }

  lemma ApartFromLast(node: Node, n: nat, prefix: string, p: string, q: string)
    requires node.Obj? && 0 < n <= |node.entries| && Plain(node)
    requires UnderOneOf(node, n - 1, prefix, p) && Under(Join(prefix, node.entries[n - 1].0), q)
    ensures p != q
  {
    var e :| 0 <= e < n - 1 && Under(Join(prefix, node.entries[e].0), p);
    if p == q {
      OneKeyAbove(prefix, node.entries[e].0, node.entries[n - 1].0, p);
    }
  }

  /** With such keys every value has a path of its own. */
  lemma {:induction false} PlainPathsDistinct(node: Node, prefix: string)
    requires Plain(node)
    ensures DistinctPaths(Ends(node, prefix))
    decreases node, 1, 0
  {
    if node.Obj? {
      PlainPathsDistinctUpTo(node, |node.entries|, prefix);
    }
  }

  lemma DistinctAppended(front: seq<End>, last: seq<End>)
    requires DistinctPaths(front) && DistinctPaths(last)
    requires forall i, j :: 0 <= i < |front| && 0 <= j < |last| ==> front[i].path != last[j].path
    ensures DistinctPaths(front + last)
  {
  }

  lemma PlainPathsAppended(node: Node, n: nat, prefix: string, front: seq<End>, last: seq<End>)
    requires node.Obj? && 0 < n <= |node.entries| && Plain(node)
    requires UnderSome(node, n - 1, prefix, front) && AllUnder(Join(prefix, node.entries[n - 1].0), last)
    requires DistinctPaths(front) && DistinctPaths(last)
    ensures DistinctPaths(front + last)
  {
    forall i, j | 0 <= i < |front| && 0 <= j < |last|
      ensures front[i].path != last[j].path
    {
      ApartFromLast(node, n, prefix, front[i].path, last[j].path);
    }
    DistinctAppended(front, last);
  }

  lemma PlainEntry(node: Node, i: nat)
    requires node.Obj? && Plain(node) && i < |node.entries|
    ensures PlainKey(node.entries[i].0) && Plain(node.entries[i].1)
  {
  }

  lemma PlainPathsStep(node: Node, n: nat, prefix: string, key: string, value: Node)
    requires node.Obj? && 0 < n <= |node.entries| && Plain(node) && node.entries[n - 1] == (key, value)
    requires PlainKey(key)
    requires DistinctPaths(EndsUpTo(node, n - 1, prefix)) && DistinctPaths(Ends(value, Join(prefix, key)))
    ensures DistinctPaths(EndsUpTo(node, n, prefix))
  {
    EndsUnderKeys(node, n - 1, prefix);
    EndsUnder(value, Join(prefix, key));
    PlainPathsAppended(node, n, prefix, EndsUpTo(node, n - 1, prefix), Ends(value, Join(prefix, key)));
    EndsAppended(node, n, prefix);
  }

  lemma {:induction false} PlainPathsDistinctUpTo(node: Node, n: nat, prefix: string)
    requires node.Obj? && n <= |node.entries| && Plain(node)
    ensures DistinctPaths(EndsUpTo(node, n, prefix))
    decreases node, 0, n
  {
    if n > 0 {
      var (key, value) := node.entries[n - 1];
      PlainEntry(node, n - 1);
      PlainPathsDistinctUpTo(node, n - 1, prefix);
      PlainPathsDistinct(value, Join(prefix, key));
      PlainPathsStep(node, n, prefix, key, value);
    }
  }
}
