/**
 * The recursive copy that brings old application data to a new place, where
 * whatever is there already wins. In place and step by step it is proved to be
 * the overlay of two trees.
 */
module MigrationCopy {
  import opened Wrappers
  import opened FileTree

  function Lookup(d: map<Name, Tree>, k: Name): Option<Tree> {
    if k in d then Some(d[k]) else None
  }

  /** The entries that are there already. */
  function Kept(dst: Option<Tree>): map<Name, Tree> {
    if dst.Some? && dst.value.Dir? then dst.value.entries else map[]
  }

  /** `src` laid under `dst`: what `dst` has stays, what it lacks is added. */
  function Overlay(src: Tree, dst: Option<Tree>): Tree {
    match src
    case File(_) => if dst.Some? then dst.value else src
    case Dir(entries) => Dir(Kept(dst) + map k | k in entries :: Overlay(entries[k], Lookup(Kept(dst), k)))
  }

  /** A directory of the source meets a file of the destination. */
  predicate Clash(src: Tree, dst: Option<Tree>) {
    src.Dir? && dst.Some? &&
    (|| dst.value.File?
     || exists k :: k in src.entries && k in dst.value.entries && Clash(src.entries[k], Some(dst.value.entries[k])))
  }

  lemma {:induction false} NoClashWithNothing(src: Tree)
    ensures !Clash(src, None)
  {
  }

  // -------------------------------------------------------------------- in place

  lemma PutKeepsApart(t: Tree, p: Path, v: Tree)
    requires !Blocked(t, p)
    ensures forall q :: Apart(p, q) ==> Get(Put(t, p, v), q) == Get(t, q)
  {
    forall q | Apart(p, q)
      ensures Get(Put(t, p, v), q) == Get(t, q)
    {
      GetPutApart(t, p, v, q);
    }
  }

  method CopyFile(disk: Disk, content: string, dst: Path) returns (ok: bool)
    modifies disk
    ensures ok <==> !Blocked(old(disk.root), dst)
    ensures ok ==> disk.root == Put(old(disk.root), dst, Overlay(File(content), Get(old(disk.root), dst)))
    ensures forall q :: Apart(dst, q) ==> Get(disk.root, q) == Get(old(disk.root), q)
  {
    if disk.Exists(dst) {
      PutSame(disk.root, dst);
      if Blocked(disk.root, dst) {
        GetBlocked(disk.root, dst);
      }
      return true;
    }
    var parent, name := dst[..|dst| - 1], dst[|dst| - 1];
    assert dst == parent + [name];
    BlockedBelow(disk.root, parent, name);
    ok := disk.CreateDirAll(parent);
    if !ok {
      return;
    }
    ghost var before := old(disk.root);
    if Get(before, parent).None? {
      PutInside(before, parent, map[], name, File(content));
      PutMakesParent(before, parent, name, File(content));
      assert map[][name := File(content)] == map[name := File(content)];
    }
    disk.root := Put(disk.root, dst, File(content));
    PutKeepsApart(before, dst, File(content));
  }

  /** The destination after the entries named so far have been copied. */
  function Partial(entries: map<Name, Tree>, kept: map<Name, Tree>, names: seq<Name>): map<Name, Tree>
    requires forall k :: k in names ==> k in entries
  {
    if names == [] then kept
    else
      var k := names[|names| - 1];
      Partial(entries, kept, names[..|names| - 1])[k := Overlay(entries[k], Lookup(kept, k))]
  }

  lemma {:induction false} PartialIs(entries: map<Name, Tree>, kept: map<Name, Tree>, names: seq<Name>, k: Name)
    requires forall k :: k in names ==> k in entries
    ensures Lookup(Partial(entries, kept, names), k)
         == if k in names then Some(Overlay(entries[k], Lookup(kept, k))) else Lookup(kept, k)
  {
    if names != [] {
      var front, last := names[..|names| - 1], names[|names| - 1];
      PartialIs(entries, kept, front, k);
      assert names == front + [last];
    }
  }

  lemma OverlayEntry(entries: map<Name, Tree>, dst: Option<Tree>, k: Name)
    ensures Lookup(Overlay(Dir(entries), dst).entries, k)
         == if k in entries then Some(Overlay(entries[k], Lookup(Kept(dst), k))) else Lookup(Kept(dst), k)
  {
  }

  lemma SameLookups(a: map<Name, Tree>, b: map<Name, Tree>)
    requires forall k :: Lookup(a, k) == Lookup(b, k)
    ensures a == b
  {
    assert forall k :: k in a <==> Lookup(a, k).Some?;
    assert forall k :: k in b <==> Lookup(b, k).Some?;
    assert forall k :: k in a ==> Lookup(a, k) == Lookup(b, k);
  }

  /** The order in which a directory is listed makes no difference. */
  lemma PartialAll(entries: map<Name, Tree>, dst: Option<Tree>, names: seq<Name>)
    requires forall k :: k in names <==> k in entries
    ensures Dir(Partial(entries, Kept(dst), names)) == Overlay(Dir(entries), dst)
  {
    var all, overlay := Partial(entries, Kept(dst), names), Overlay(Dir(entries), dst);
    forall k
      ensures Lookup(all, k) == Lookup(overlay.entries, k)
    {
      PartialIs(entries, Kept(dst), names, k);
      OverlayEntry(entries, dst, k);
    }
    SameLookups(all, overlay.entries);
  }

  ghost predicate NoClashAmong(entries: map<Name, Tree>, kept: map<Name, Tree>, names: seq<Name>)
    requires forall k :: k in names ==> k in entries
  {
    forall k :: k in names ==> !Clash(entries[k], Lookup(kept, k))
  }

  lemma OneClash(entries: map<Name, Tree>, dst: Option<Tree>, k: Name)
    requires k in entries && Clash(entries[k], Lookup(Kept(dst), k))
    ensures Clash(Dir(entries), dst)
  {
    NoClashWithNothing(entries[k]);
  }

  /** Where the copy stands: all but `dst` is as before, and `dst` has what was copied so far. */
  ghost predicate CopiedSoFar(now: Tree, before: Tree, dst: Path, entries: map<Name, Tree>, names: seq<Name>)
    requires forall k :: k in names ==> k in entries
  {
    && !Blocked(before, dst)
    && now == Put(before, dst, Dir(Partial(entries, Kept(Get(before, dst)), names)))
  }

  lemma EntryPlaces(now: Tree, before: Tree, src: Path, dst: Path, entries: map<Name, Tree>, names: seq<Name>, k: Name)
    requires forall k :: k in names ==> k in entries
    requires CopiedSoFar(now, before, dst, entries, names) && Apart(dst, src) && Get(before, src) == Some(Dir(entries))
    requires k in entries && k !in names
    ensures Apart(dst + [k], src + [k]) && !Blocked(now, dst + [k])
    ensures Get(now, src + [k]) == Some(entries[k])
    ensures Get(now, dst + [k]) == Lookup(Kept(Get(before, dst)), k)
  {
    var d := Partial(entries, Kept(Get(before, dst)), names);
    ApartBelow(dst, src, k);
    GetPutApart(before, dst, Dir(d), src);
    GetChild(now, src, k);
    GetPut(before, dst, Dir(d));
    GetChild(now, dst, k);
    NotBlockedBelow(now, dst, k);
    PartialIs(entries, Kept(Get(before, dst)), names, k);
    assert [k][1..] == [];
  }

  lemma EntryCopied(now: Tree, before: Tree, dst: Path, entries: map<Name, Tree>, names: seq<Name>, k: Name)
    requires forall k :: k in names ==> k in entries
    requires CopiedSoFar(now, before, dst, entries, names) && k in entries
    ensures CopiedSoFar(Put(now, dst + [k], Overlay(entries[k], Lookup(Kept(Get(before, dst)), k))),
                        before, dst, entries, names + [k])
  {
    var kept := Kept(Get(before, dst));
    PutInside(before, dst, Partial(entries, kept, names), k, Overlay(entries[k], Lookup(kept, k)));
    assert (names + [k])[..|names|] == names;
  }

  lemma NothingCopied(now: Tree, before: Tree, dst: Path, entries: map<Name, Tree>)
    requires !Blocked(before, dst) && (Get(before, dst).Some? ==> Get(before, dst).value.Dir?)
    requires now == if Get(before, dst).Some? then before else Put(before, dst, Dir(map[]))
    ensures CopiedSoFar(now, before, dst, entries, [])
  {
    if Get(before, dst).Some? {
      PutSame(before, dst);
    }
  }

  lemma ApartFromBelow(dst: Path, q: Path, k: Name)
    requires Apart(dst, q)
    ensures Apart(dst + [k], q)
  {
    ApartBelow(dst, q, k);
  }

  /**
   * The copy succeeds exactly if no file is in its way, and then it is the overlay; whether or not it
   * succeeds, nothing outside the destination changes, so neither does the source.
   */
  method CopyDirRecursive(disk: Disk, src: Path, dst: Path) returns (ok: bool)
    requires Apart(dst, src) && Get(disk.root, src).Some?
    modifies disk
    ensures var was, to := Get(old(disk.root), src).value, Get(old(disk.root), dst);
            && (ok <==> !Blocked(old(disk.root), dst) && !Clash(was, to))
            && (ok ==> disk.root == Put(old(disk.root), dst, Overlay(was, to)))
    ensures forall q :: Apart(dst, q) ==> Get(disk.root, q) == Get(old(disk.root), q)
    decreases Get(disk.root, src).value
  {
    ghost var before := disk.root;
    var source := Get(disk.root, src).value;
    if source.File? {
      ok := CopyFile(disk, source.content, dst);
      return;
    }
    ok := disk.CreateDirAll(dst);
    if !ok {
      return;
    }
    NothingCopied(disk.root, before, dst, source.entries);
    PutKeepsApart(before, dst, Dir(Kept(Get(before, dst))));
    assert Get(disk.root, src) == Get(before, src);
    var names := disk.ReadDir(src);
    for i := 0 to |names|
      invariant CopiedSoFar(disk.root, before, dst, source.entries, names[..i])
      invariant NoClashAmong(source.entries, Kept(Get(before, dst)), names[..i])
    {
      var k := names[i];
      EntryPlaces(disk.root, before, src, dst, source.entries, names[..i], k);
      EntryCopied(disk.root, before, dst, source.entries, names[..i], k);
      PutKeepsApart(before, dst, Dir(Partial(source.entries, Kept(Get(before, dst)), names[..i])));
      ok := CopyDirRecursive(disk, src + [k], dst + [k]);
      if !ok {
        OneClash(source.entries, Get(before, dst), k);
        forall q | Apart(dst, q)
          ensures Apart(dst + [k], q)
        {
          ApartFromBelow(dst, q, k);
        }
        return;
      }
      assert names[..i + 1] == names[..i] + [k];
    }
    assert names[..|names|] == names;
    PartialAll(source.entries, Get(before, dst), names);
    PutKeepsApart(before, dst, Overlay(source, Get(before, dst)));
    return true;
  }

  // ------------------------------------------------------------ what an overlay is

  datatype Shape = Nothing | IsFile(content: string) | IsDir

  /** What stands at a path, without what is below it. */
  function ShapeAt(t: Option<Tree>, p: Path): Shape {
    var at := if t.Some? then Get(t.value, p) else None;
    match at
    case None => Nothing
    case Some(File(content)) => IsFile(content)
    case Some(Dir(_)) => IsDir
  }

  /** At every path the destination wins, and the source fills the gaps. */
  lemma {:induction false} OverlayShape(src: Tree, dst: Option<Tree>, p: Path)
    requires !Clash(src, dst)
    ensures ShapeAt(Some(Overlay(src, dst)), p)
         == if ShapeAt(dst, p) != Nothing then ShapeAt(dst, p) else ShapeAt(Some(src), p)
    decreases p
  {
    if p != [] {
      var k, rest := p[0], p[1..];
      assert p == [k] + rest;
      if src.Dir? {
        OverlayEntry(src.entries, dst, k);
        if k in src.entries {
          NoClashBelow(src, dst, k);
          OverlayShape(src.entries[k], Lookup(Kept(dst), k), rest);
        }
      }
    }
  }

  lemma NoClashBelow(src: Tree, dst: Option<Tree>, k: Name)
    requires !Clash(src, dst) && src.Dir? && k in src.entries
    ensures !Clash(src.entries[k], Lookup(Kept(dst), k))
  {
    NoClashWithNothing(src.entries[k]);
  }

  /** Copying to where nothing is copies exactly. */
  lemma {:induction false} OverlayNothing(src: Tree)
    ensures Overlay(src, None) == src
  {
    if src.Dir? {
      forall k
        ensures Lookup(Overlay(src, None).entries, k) == Lookup(src.entries, k)
      {
        OverlayEntry(src.entries, None, k);
        if k in src.entries {
          OverlayNothing(src.entries[k]);
        }
      }
      SameLookups(Overlay(src, None).entries, src.entries);
    }
  }

  /** Copying again meets no obstacle and changes nothing. */
  lemma {:induction false} OverlayTwice(src: Tree, dst: Option<Tree>)
    requires !Clash(src, dst)
    ensures !Clash(src, Some(Overlay(src, dst)))
    ensures Overlay(src, Some(Overlay(src, dst))) == Overlay(src, dst)
    decreases src
  {
    if src.Dir? {
      var once := Overlay(src, dst);
      forall k
        ensures k in src.entries ==> !Clash(src.entries[k], Lookup(once.entries, k))
        ensures Lookup(Overlay(src, Some(once)).entries, k) == Lookup(once.entries, k)
      {
        OverlayEntry(src.entries, dst, k);
        OverlayEntry(src.entries, Some(once), k);
        if k in src.entries {
          NoClashBelow(src, dst, k);
          OverlayTwice(src.entries[k], Lookup(Kept(dst), k));
        }
      }
      SameLookups(Overlay(src, Some(once)).entries, once.entries);
      NoClashInto(src, once);
    }
  }

  lemma NoClashInto(src: Tree, dst: Tree)
    requires src.Dir? && dst.Dir?
    requires forall k :: k in src.entries ==> !Clash(src.entries[k], Lookup(dst.entries, k))
    ensures !Clash(src, Some(dst))
  {
    forall k | k in src.entries && k in dst.entries
      ensures !Clash(src.entries[k], Some(dst.entries[k]))
    {
      assert Lookup(dst.entries, k) == Some(dst.entries[k]);
    }
  }
}
