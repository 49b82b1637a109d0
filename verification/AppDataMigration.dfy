/**
 * Taking over the data directory of an earlier application name: when it
 * happens, what it leaves behind, and when it happens again.
 */
module AppDataMigration {
  import opened Wrappers
  import opened FileTree
  import opened MigrationCopy
  import opened AppPaths

  /** What counts as data: a directory of this name, or a file of it that is valid JSON. */
  datatype Marker = JsonFile(name: Name) | Folder(name: Name)

  const MARKERS: seq<Marker> :=
    [JsonFile("workspaces.json"), JsonFile("settings.json"), Folder("workspaces"), Folder("models")]

  predicate Counts(there: Option<Tree>, isJson: string -> bool, m: Marker) {
    there.Some? && if m.Folder? then there.value.Dir? else there.value.File? && isJson(there.value.content)
  }

  predicate Marks(t: Option<Tree>, isJson: string -> bool, m: Marker) {
    Counts(Lookup(Kept(t), m.name), isJson, m)
  }

  predicate HasData(t: Option<Tree>, isJson: string -> bool, markers: seq<Marker>) {
    exists m :: m in markers && Marks(t, isJson, m)
  }

  method HasExistingAppData(disk: Disk, dir: Path, isJson: string -> bool, markers: seq<Marker>) returns (r: bool)
    ensures r == HasData(Get(disk.root, dir), isJson, markers)
  {
    for i := 0 to |markers|
      invariant forall m :: m in markers[..i] ==> !Marks(Get(disk.root, dir), isJson, m)
    {
      var there := Get(disk.root, dir + [markers[i].name]);
      MarkerAt(disk.root, dir, isJson, markers[i]);
      if Counts(there, isJson, markers[i]) {
        return true;
      }
    }
    return false;
  }

  lemma MarkerAt(t: Tree, dir: Path, isJson: string -> bool, m: Marker)
    ensures Marks(Get(t, dir), isJson, m) <==> Counts(Get(t, dir + [m.name]), isJson, m)
  {
    if Get(t, dir).Some? {
      GetChild(t, dir, m.name);
      assert [m.name][1..] == [];
    } else {
      NothingBelow(t, dir, m.name);
    }
  }

  lemma {:induction false} NothingBelow(t: Tree, p: Path, k: Name)
    requires Get(t, p).None?
    ensures Get(t, p + [k]).None?
  {
    assert (p + [k])[1..] == p[1..] + [k];
    if t.Dir? && p[0] in t.entries {
      NothingBelow(t.entries[p[0]], p[1..], k);
    }
  }

  function FirstWithData(root: Tree, legacy: seq<Path>, isJson: string -> bool, markers: seq<Marker>)
    : (found: Option<Path>)
    ensures found.Some? ==> found.value in legacy && HasData(Get(root, found.value), isJson, markers)
  {
    if legacy == [] then None
    else if HasData(Get(root, legacy[0]), isJson, markers) then Some(legacy[0])
    else FirstWithData(root, legacy[1..], isJson, markers)
  }

  /** What one call does: nothing, or the overlay of the first legacy directory with data, and the sentinel. */
  ghost predicate Prepared(before: Tree, after: Tree, ok: bool, current: Path, legacy: seq<Path>, payload: string,
                           isJson: string -> bool, markers: seq<Marker>) {
    var found := FirstWithData(before, legacy, isJson, markers);
    if HasData(Get(before, current), isJson, markers) || found.None? then ok && after == before
    else
      var was, to := Get(before, found.value).value, Get(before, current);
      && (ok <==> !Blocked(before, current) && !Clash(was, to) && SentinelFitsIn(Some(Overlay(was, to))))
      && (ok ==> after == Put(before, current, WithSentinel(Some(Overlay(was, to)), payload)))
  }

  method PrepareAppDataDir(disk: Disk, current: Path, legacyNames: seq<Name>, payload: string,
                           isJson: string -> bool, markers: seq<Marker>) returns (ok: bool)
    modifies disk
    ensures current == [] ==> ok && disk.root == old(disk.root)
    ensures current != [] ==>
              Prepared(old(disk.root), disk.root, ok, current, Siblings(current, legacyNames), payload, isJson, markers)
    ensures forall q :: Apart(current, q) ==> Get(disk.root, q) == Get(old(disk.root), q)
  {
    var has := HasExistingAppData(disk, current, isJson, markers);
    if has || current == [] {
      return true;
    }
    ghost var before := disk.root;
    var legacy := Siblings(current, legacyNames);
    for i := 0 to |legacy|
      invariant disk.root == before
      invariant FirstWithData(before, legacy, isJson, markers) == FirstWithData(before, legacy[i..], isJson, markers)
    {
      has := HasExistingAppData(disk, legacy[i], isJson, markers);
      if !disk.Exists(legacy[i]) || !has {
        continue;
      }
      ok := TakeOver(disk, legacy[i], current, payload);
      return;
    }
    return true;
  }

  function Siblings(current: Path, names: seq<Name>): (paths: seq<Path>)
    requires current != []
    ensures |paths| == |names| && forall p :: p in paths ==> p != current ==> Apart(current, p)
  {
    seq(|names|, i requires 0 <= i < |names| => current[..|current| - 1] + [names[i]])
  }

  method TakeOver(disk: Disk, legacy: Path, current: Path, payload: string) returns (ok: bool)
    requires Apart(current, legacy) && Get(disk.root, legacy).Some?
    modifies disk
    ensures var was, to := Get(old(disk.root), legacy).value, Get(old(disk.root), current);
            && (ok <==> !Blocked(old(disk.root), current) && !Clash(was, to) && SentinelFitsIn(Some(Overlay(was, to))))
            && (ok ==> disk.root == Put(old(disk.root), current, WithSentinel(Some(Overlay(was, to)), payload)))
    ensures forall q :: Apart(current, q) ==> Get(disk.root, q) == Get(old(disk.root), q)
  {
    ghost var before := disk.root;
    ghost var was, to := Get(before, legacy).value, Get(before, current);
    ok := CopyDirRecursive(disk, legacy, current);
    if !ok {
      return;
    }
    GetPut(before, current, Overlay(was, to));
    if Blocked(disk.root, current) {
      GetBlocked(disk.root, current);
    }
    ok := WriteMigrationSentinel(disk, current, payload);
    PutPut(before, current, Overlay(was, to), WithSentinel(Some(Overlay(was, to)), payload));
  }

  const LEGACY_DATA_DIRS: seq<Name> :=
    ["com.zhukunpenglinyutong.ccgui", "com.zhukunpenglinyutong.codemoss", "com.zhukunpenglinyutong.mossx",
     "com.dimillian.codemoss"]

  method PrepareAppDataDirFromPath(disk: Disk, current: Path, payload: string, isJson: string -> bool)
    returns (ok: bool)
    modifies disk
    ensures current == [] ==> ok && disk.root == old(disk.root)
    ensures current != [] ==>
              Prepared(old(disk.root), disk.root, ok, current, Siblings(current, LEGACY_DATA_DIRS), payload, isJson,
                       MARKERS)
    ensures forall q :: Apart(current, q) ==> Get(disk.root, q) == Get(old(disk.root), q)
  {
    ok := PrepareAppDataDir(disk, current, LEGACY_DATA_DIRS, payload, isJson, MARKERS);
  }

  // ------------------------------------------------------- which data, and whose

  predicate FileOf(entries: map<Name, Tree>, name: Name, isJson: string -> bool) {
    name in entries && entries[name].File? && isJson(entries[name].content)
  }

  predicate DirOf(entries: map<Name, Tree>, name: Name) {
    name in entries && entries[name].Dir?
  }

  /** The application's data: one of two files with valid JSON, or one of two directories. */
  lemma AppDataIs(entries: map<Name, Tree>, isJson: string -> bool)
    ensures HasData(Some(Dir(entries)), isJson, MARKERS)
       <==> (|| FileOf(entries, "workspaces.json", isJson) || FileOf(entries, "settings.json", isJson)
             || DirOf(entries, "workspaces") || DirOf(entries, "models"))
  {
    var t := Some(Dir(entries));
    assert MARKERS[0] == JsonFile("workspaces.json") && MARKERS[1] == JsonFile("settings.json");
    assert MARKERS[2] == Folder("workspaces") && MARKERS[3] == Folder("models");
    assert HasData(t, isJson, MARKERS) <==> exists i :: 0 <= i < 4 && Marks(t, isJson, MARKERS[i]);
  }

  /** Neither a file nor a missing directory has any. */
  lemma NoDirNoData(t: Option<Tree>, isJson: string -> bool, markers: seq<Marker>)
    requires t.None? || t.value.File?
    ensures !HasData(t, isJson, markers)
  {
  }

  lemma {:induction false} FirstWithDataIs(root: Tree, legacy: seq<Path>, isJson: string -> bool, markers: seq<Marker>,
                                           i: nat)
    requires i < |legacy| && HasData(Get(root, legacy[i]), isJson, markers)
    requires forall j :: 0 <= j < i ==> !HasData(Get(root, legacy[j]), isJson, markers)
    ensures FirstWithData(root, legacy, isJson, markers) == Some(legacy[i])
  {
    if i > 0 {
      FirstWithDataIs(root, legacy[1..], isJson, markers, i - 1);
    }
  }

  /**
   * Of several legacy directories with data the first in the list is taken, whatever the later ones hold: its
   * entries that the directory did not have are there, those it had are as they were, and the sentinel is written.
   */
  lemma FirstDataTaken(before: Tree, after: Tree, current: Path, legacy: seq<Path>, payload: string,
                       isJson: string -> bool, markers: seq<Marker>, i: nat, k: Name)
    requires Prepared(before, after, true, current, legacy, payload, isJson, markers)
    requires !HasData(Get(before, current), isJson, markers) && i < |legacy|
    requires HasData(Get(before, legacy[i]), isJson, markers)
    requires forall j :: 0 <= j < i ==> !HasData(Get(before, legacy[j]), isJson, markers)
    ensures Get(after, current).Some? && Get(after, current).value.Dir?
    ensures var was, to, now := Kept(Get(before, legacy[i])), Kept(Get(before, current)), Kept(Get(after, current));
            && ".migration.json" in now && now[".migration.json"] == File(payload)
            && (k != ".migration.json" ==> (k in now <==> k in was || k in to))
            && (k != ".migration.json" && k in was && k !in to ==> now[k] == was[k])
            && (k != ".migration.json" && k in to && k !in was ==> now[k] == to[k])
            && (k != ".migration.json" && k in to && to[k].File? ==> now[k] == to[k])
  {
    FirstWithDataIs(before, legacy, isJson, markers, i);
    var was, to := Get(before, legacy[i]).value, Get(before, current);
    GetPut(before, current, WithSentinel(Some(Overlay(was, to)), payload));
    OverlayEntry(was.entries, to, k);
    if k in was.entries && k !in Kept(to) {
      OverlayNothing(was.entries[k]);
    }
    if k in was.entries && k in Kept(to) {
      NoClashBelow(was, to, k);
    }
  }

  // ------------------------------------------------------------- whether it took

  /** No marker is the sentinel, so writing the sentinel neither adds nor removes data. */
  ghost predicate SentinelApart(markers: seq<Marker>) {
    forall m :: m in markers ==> m.name != SENTINEL
  }

  lemma MarkersAreNotTheSentinel()
    ensures SentinelApart(MARKERS)
  {
    forall m | m in MARKERS
      ensures m.name != SENTINEL
    {
      assert SENTINEL[0] == '.';
    }
  }

  lemma MarksAfter(was: Tree, to: Option<Tree>, payload: string, isJson: string -> bool, m: Marker)
    requires was.Dir? && !Clash(was, to) && m.name != SENTINEL && !Marks(to, isJson, m)
    ensures Marks(Some(WithSentinel(Some(Overlay(was, to)), payload)), isJson, m)
       <==> Marks(Some(was), isJson, m) && m.name !in Kept(to)
  {
    OverlayEntry(was.entries, to, m.name);
    if m.name in was.entries {
      NoClashBelow(was, to, m.name);
      OverlayShape(was.entries[m.name], Lookup(Kept(to), m.name), []);
    }
  }

  /**
   * A directory without data has data after the take-over exactly if some marker that makes the legacy directory
   * count has a name the directory did not have yet: an invalid file of that name stays and keeps it from counting.
   */
  lemma TookExactlyIf(before: Tree, after: Tree, current: Path, legacy: seq<Path>, payload: string,
                      isJson: string -> bool, markers: seq<Marker>, found: Path)
    requires Prepared(before, after, true, current, legacy, payload, isJson, markers) && SentinelApart(markers)
    requires !HasData(Get(before, current), isJson, markers)
    requires FirstWithData(before, legacy, isJson, markers) == Some(found)
    ensures HasData(Get(after, current), isJson, markers)
       <==> exists m :: m in markers && Marks(Get(before, found), isJson, m) && m.name !in Kept(Get(before, current))
  {
    var was, to := Get(before, found).value, Get(before, current);
    var result := WithSentinel(Some(Overlay(was, to)), payload);
    GetPut(before, current, result);
    forall m | m in markers
      ensures Marks(Some(result), isJson, m) <==> Marks(Some(was), isJson, m) && m.name !in Kept(to)
    {
      MarksAfter(was, to, payload, isJson, m);
    }
  }

  /** For the app's own markers, none of which is the sentinel, this holds of every take-over. */
  lemma AppTookExactlyIf(before: Tree, after: Tree, current: Path, payload: string, isJson: string -> bool, found: Path)
    requires current != []
    requires Prepared(before, after, true, current, Siblings(current, LEGACY_DATA_DIRS), payload, isJson, MARKERS)
    requires !HasData(Get(before, current), isJson, MARKERS)
    requires FirstWithData(before, Siblings(current, LEGACY_DATA_DIRS), isJson, MARKERS) == Some(found)
    ensures HasData(Get(after, current), isJson, MARKERS)
       <==> exists m :: m in MARKERS && Marks(Get(before, found), isJson, m) && m.name !in Kept(Get(before, current))
  {
    MarkersAreNotTheSentinel();
    TookExactlyIf(before, after, current, Siblings(current, LEGACY_DATA_DIRS), payload, isJson, MARKERS, found);
  }

  // ------------------------------------------------------------------ a second call

  /** An entry that the overlay was copied from is copied again without effect, also where one file was rewritten. */
  lemma EntryOnResult(was: map<Name, Tree>, once: map<Name, Tree>, k: Name, payload: string, result: map<Name, Tree>)
    requires result == once[SENTINEL := File(payload)]
    requires k in was && SENTINEL in was ==> was[SENTINEL].File?
    requires k in was ==> k in once && !Clash(was[k], Some(once[k])) && Overlay(was[k], Some(once[k])) == once[k]
    ensures k in was ==> !Clash(was[k], Lookup(result, k)) && Overlay(was[k], Lookup(result, k)) == result[k]
  {
  }

  lemma EntryOnce(was: Tree, to: Option<Tree>, k: Name)
    requires was.Dir? && !Clash(was, to) && k in was.entries
    ensures var once := Overlay(was, to).entries;
            k in once && !Clash(was.entries[k], Some(once[k])) && Overlay(was.entries[k], Some(once[k])) == once[k]
  {
    OverlayEntry(was.entries, to, k);
    NoClashBelow(was, to, k);
    OverlayTwice(was.entries[k], Lookup(Kept(to), k));
  }

  lemma NoSentinelFolder(was: Tree, to: Option<Tree>)
    requires was.Dir? && !Clash(was, to) && SentinelFitsIn(Some(Overlay(was, to)))
    ensures SENTINEL in was.entries ==> was.entries[SENTINEL].File?
  {
    if SENTINEL in was.entries {
      OverlayEntry(was.entries, to, SENTINEL);
      NoClashBelow(was, to, SENTINEL);
    }
  }

  lemma OverlayOnResult(was: Tree, to: Option<Tree>, result: Tree, p: string)
    requires was.Dir? && !Clash(was, to) && SentinelFitsIn(Some(Overlay(was, to)))
    requires result == WithSentinel(Some(Overlay(was, to)), p)
    ensures !Clash(was, Some(result)) && Overlay(was, Some(result)) == result
  {
    var once := Overlay(was, to).entries;
    NoSentinelFolder(was, to);
    forall k
      ensures k in was.entries ==> !Clash(was.entries[k], Lookup(result.entries, k))
      ensures Lookup(Overlay(was, Some(result)).entries, k) == Lookup(result.entries, k)
    {
      if k in was.entries {
        EntryOnce(was, to, k);
      }
      EntryOnResult(was.entries, once, k, p, result.entries);
      OverlayEntry(was.entries, Some(result), k);
    }
    SameLookups(Overlay(was, Some(result)).entries, result.entries);
    NoClashInto(was, result);
  }

  lemma {:induction false} SameFirst(a: Tree, b: Tree, current: Path, legacy: seq<Path>, isJson: string -> bool,
                                     markers: seq<Marker>)
    requires forall p :: p in legacy && p != current ==> Get(b, p) == Get(a, p)
    requires !HasData(Get(a, current), isJson, markers) && !HasData(Get(b, current), isJson, markers)
    ensures FirstWithData(b, legacy, isJson, markers) == FirstWithData(a, legacy, isJson, markers)
  {
    if legacy != [] {
      SameFirst(a, b, current, legacy[1..], isJson, markers);
      assert legacy[0] == current || Get(b, legacy[0]) == Get(a, legacy[0]);
    }
  }

  /** After a call that succeeded, a second one changes nothing, or nothing but the sentinel's text. */
  lemma SecondPrepare(a: Tree, b: Tree, c: Tree, second: bool, current: Path, legacy: seq<Path>, p: string, q: string,
                      isJson: string -> bool, markers: seq<Marker>)
    requires Prepared(a, b, true, current, legacy, p, isJson, markers)
    requires Prepared(b, c, second, current, legacy, q, isJson, markers)
    requires forall l :: l in legacy && l != current ==> Apart(current, l)
    ensures second && (c == b || c == Put(b, current, WithSentinel(Get(b, current), q)))
  {
    var found := FirstWithData(a, legacy, isJson, markers);
    if !HasData(Get(a, current), isJson, markers) && found.Some? {
      var was, to := Get(a, found.value).value, Get(a, current);
      var result := WithSentinel(Some(Overlay(was, to)), p);
      assert b == Put(a, current, result);
      GetPut(a, current, result);
      PutKeepsApart(a, current, result);
      if !HasData(Get(b, current), isJson, markers) {
        SameFirst(a, b, current, legacy, isJson, markers);
        OverlayOnResult(was, to, result, p);
        if Blocked(b, current) {
          GetBlocked(b, current);
        }
      }
    }
  }
}
