/** A tree of directories and files, and a disk that changes such a tree in place. */
module FileTree {
  import opened Wrappers

  type Name = string
  type Path = seq<Name>

  datatype Tree = File(content: string) | Dir(entries: map<Name, Tree>)

  function Get(t: Tree, p: Path): Option<Tree> {
    if p == [] then Some(t)
    else if t.Dir? && p[0] in t.entries then Get(t.entries[p[0]], p[1..])
    else None
  }

  /** `v` stands at `p`; directories on the way are made where nothing is. */
  function Put(t: Tree, p: Path, v: Tree): Tree
    decreases p
  {
    if p == [] then v
    else
      var entries := if t.Dir? then t.entries else map[];
      var child := if p[0] in entries then entries[p[0]] else Dir(map[]);
      Dir(entries[p[0] := Put(child, p[1..], v)])
  }

  /** A file is in the way: it stands where a directory is needed to reach `p`. */
  predicate Blocked(t: Tree, p: Path) {
    p != [] && (t.File? || (p[0] in t.entries && Blocked(t.entries[p[0]], p[1..])))
  }

  predicate Apart(p: Path, q: Path) {
    !(p <= q) && !(q <= p)
  }

  lemma {:induction false} GetBlocked(t: Tree, p: Path)
    requires Blocked(t, p)
    ensures Get(t, p).None?
  {
    if t.Dir? && p[0] in t.entries {
      GetBlocked(t.entries[p[0]], p[1..]);
    }
  }

  lemma {:induction false} GetPut(t: Tree, p: Path, v: Tree)
    ensures Get(Put(t, p, v), p) == Some(v)
    decreases p
  {
    if p != [] {
      var child := if t.Dir? && p[0] in t.entries then t.entries[p[0]] else Dir(map[]);
      GetPut(child, p[1..], v);
    }
  }

  lemma {:induction false} GetPutApart(t: Tree, p: Path, v: Tree, q: Path)
    requires Apart(p, q) && !Blocked(t, p)
    ensures Get(Put(t, p, v), q) == Get(t, q)
    decreases p
  {
    if p[0] == q[0] {
      assert p == [p[0]] + p[1..] && q == [q[0]] + q[1..];
      assert Apart(p[1..], q[1..]);
      var child := if p[0] in t.entries then t.entries[p[0]] else Dir(map[]);
      assert p[0] !in t.entries ==> Get(child, q[1..]).None?;
      GetPutApart(child, p[1..], v, q[1..]);
    }
  }

  lemma {:induction false} PutSame(t: Tree, p: Path)
    requires Get(t, p).Some?
    ensures Put(t, p, Get(t, p).value) == t
  {
    if p != [] {
      PutSame(t.entries[p[0]], p[1..]);
      assert t.entries[p[0] := t.entries[p[0]]] == t.entries;
    }
  }

  lemma {:induction false} PutPut(t: Tree, p: Path, u: Tree, v: Tree)
    ensures Put(Put(t, p, u), p, v) == Put(t, p, v)
    decreases p
  {
    if p != [] {
      var entries := if t.Dir? then t.entries else map[];
      var child := if p[0] in entries then entries[p[0]] else Dir(map[]);
      PutPut(child, p[1..], u, v);
      assert entries[p[0] := Put(child, p[1..], u)][p[0] := Put(child, p[1..], v)]
          == entries[p[0] := Put(child, p[1..], v)];
    }
  }

  /** Putting something into a directory that has been put. */
  lemma {:induction false} PutInside(t: Tree, p: Path, d: map<Name, Tree>, k: Name, v: Tree)
    ensures Put(Put(t, p, Dir(d)), p + [k], v) == Put(t, p, Dir(d[k := v]))
    decreases p
  {
    if p == [] {
      assert p + [k] == [k];
      assert [k][1..] == [];
    } else {
      assert (p + [k])[1..] == p[1..] + [k];
      var entries := if t.Dir? then t.entries else map[];
      var child := if p[0] in entries then entries[p[0]] else Dir(map[]);
      PutInside(child, p[1..], d, k, v);
      var x, y := Put(child, p[1..], Dir(d)), Put(child, p[1..], Dir(d[k := v]));
      assert entries[p[0] := x][p[0] := y] == entries[p[0] := y];
    }
  }

  lemma {:induction false} GetChild(t: Tree, p: Path, k: Name)
    requires Get(t, p).Some?
    ensures Get(t, p + [k]) == Get(Get(t, p).value, [k])
  {
    if p == [] {
      assert p + [k] == [k];
    } else {
      assert (p + [k])[1..] == p[1..] + [k];
      GetChild(t.entries[p[0]], p[1..], k);
    }
  }

  lemma {:induction false} NotBlockedBelow(t: Tree, p: Path, k: Name)
    requires Get(t, p).Some? && Get(t, p).value.Dir?
    ensures !Blocked(t, p + [k])
  {
    if p == [] {
      assert p + [k] == [k];
      assert [k][1..] == [];
    } else {
      assert (p + [k])[1..] == p[1..] + [k];
      NotBlockedBelow(t.entries[p[0]], p[1..], k);
    }
  }

  lemma ApartBelow(p: Path, q: Path, k: Name)
    requires Apart(p, q)
    ensures Apart(p + [k], q) && Apart(p, q + [k]) && Apart(p + [k], q + [k])
  {
    assert (p + [k])[..|p|] == p && (q + [k])[..|q|] == q;
  }

  lemma {:induction false} BlockedBelow(t: Tree, p: Path, k: Name)
    ensures Blocked(t, p + [k]) <==> Blocked(t, p) || (Get(t, p).Some? && Get(t, p).value.File?)
  {
    if p == [] {
      assert p + [k] == [k];
      assert [k][1..] == [];
    } else {
      assert (p + [k])[1..] == p[1..] + [k];
      if t.Dir? && p[0] in t.entries {
        BlockedBelow(t.entries[p[0]], p[1..], k);
      }
    }
  }

  /** Making the parent first changes nothing. */
  lemma {:induction false} PutMakesParent(t: Tree, p: Path, k: Name, v: Tree)
    requires Get(t, p).None?
    ensures Put(t, p + [k], v) == Put(t, p, Dir(map[k := v]))
    decreases p
  {
    var entries := if t.Dir? then t.entries else map[];
    var child := if p[0] in entries then entries[p[0]] else Dir(map[]);
    assert (p + [k])[1..] == p[1..] + [k];
    if |p| == 1 {
      assert p[1..] == [] && [k][1..] == [];
      assert Put(child, [k], v) == Dir(map[k := v]);
      assert p[1..] + [k] == [k];
    } else {
      PutMakesParent(child, p[1..], k, v);
    }
  }

  class Disk {
    var root: Tree

    constructor (root: Tree)
      ensures this.root == root
    {
      this.root := root;
    }

    predicate Exists(p: Path)
      reads this
    {
      Get(root, p).Some?
    }

    /** Makes the directory and whatever is missing above it; fails if a file is in the way. */
    method CreateDirAll(p: Path) returns (ok: bool)
      modifies this
      ensures ok <==> !Blocked(old(root), p) && (Get(old(root), p).Some? ==> Get(old(root), p).value.Dir?)
      ensures !ok ==> root == old(root)
      ensures ok ==> root == if Get(old(root), p).Some? then old(root) else Put(old(root), p, Dir(map[]))
    {
      if Blocked(root, p) {
        GetBlocked(root, p);
        return false;
      }
      var there := Get(root, p);
      if there.Some? {
        return there.value.Dir?;
      }
      root := Put(root, p, Dir(map[]));
      return true;
    }

    /** The names in a directory, in whatever order the system lists them. */
    method ReadDir(p: Path) returns (names: seq<Name>)
      requires Get(root, p).Some? && Get(root, p).value.Dir?
      ensures forall k :: k in names <==> k in Get(root, p).value.entries
      ensures forall i, j :: 0 <= i < j < |names| ==> names[i] != names[j]
    {
      var left := Get(root, p).value.entries.Keys;
      names := [];
      while left != {}
        invariant forall k :: k in names || k in left <==> k in Get(root, p).value.entries
        invariant forall k :: k in names ==> k !in left
        invariant forall i, j :: 0 <= i < j < |names| ==> names[i] != names[j]
        decreases left
      {
        var k :| k in left;
        left := left - {k};
        names := names + [k];
      }
    }
  }
}
