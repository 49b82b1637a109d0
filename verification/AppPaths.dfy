/**
 * Where the application keeps its data, and how data of earlier names is taken
 * over once: what the first call leaves behind, and what a second call does.
 */
module AppPaths {
  import opened Wrappers
  import opened FileTree
  import opened MigrationCopy

  const SENTINEL: Name := ".migration.json"

  method WriteMigrationSentinel(disk: Disk, dst: Path, payload: string) returns (ok: bool)
    modifies disk
    ensures ok <==> SentinelFits(old(disk.root), dst)
    ensures ok ==> disk.root == Put(old(disk.root), dst, WithSentinel(Get(old(disk.root), dst), payload))
    ensures Get(old(disk.root), dst).Some? && !ok ==> disk.root == old(disk.root)
    ensures forall q :: Apart(dst, q) ==> Get(disk.root, q) == Get(old(disk.root), q)
  {
    ghost var before := disk.root;
    ok := disk.CreateDirAll(dst);
    if !ok {
      return;
    }
    NothingCopied(disk.root, before, dst, map[]);
    PutKeepsApart(before, dst, Dir(Kept(Get(before, dst))));
    GetPut(before, dst, Dir(Kept(Get(before, dst))));
    GetChild(disk.root, dst, SENTINEL);
    var there := Get(disk.root, dst + [SENTINEL]);
    if there.Some? && there.value.Dir? {
      return false;
    }
    PutInside(before, dst, Kept(Get(before, dst)), SENTINEL, File(payload));
    disk.root := Put(disk.root, dst + [SENTINEL], File(payload));
    PutKeepsApart(before, dst, WithSentinel(Get(before, dst), payload));
  }

  function WithSentinel(t: Option<Tree>, payload: string): Tree {
    Dir(Kept(t)[SENTINEL := File(payload)])
  }

  predicate SentinelFits(root: Tree, dst: Path) {
    !Blocked(root, dst) && SentinelFitsIn(Get(root, dst))
  }

  predicate SentinelFitsIn(t: Option<Tree>) {
    && (t.Some? ==> t.value.Dir?)
    && (SENTINEL in Kept(t) ==> Kept(t)[SENTINEL].File?)
  }

  // ------------------------------------------------------- the home and project data

  function FirstExisting(root: Tree, legacy: seq<Path>): (found: Option<Path>)
    ensures found.Some? ==> found.value in legacy && Get(root, found.value).Some?
  {
    if legacy == [] then None
    else if Get(root, legacy[0]).Some? then Some(legacy[0])
    else FirstExisting(root, legacy[1..])
  }

  /** What one call that ensures the directory does to the disk. */
  ghost predicate Ensured(before: Tree, after: Tree, ok: bool, current: Path, legacy: seq<Path>, payload: string) {
    var found := FirstExisting(before, legacy);
    if Get(before, current).Some? || found.None? then ok && after == before
    else
      var was := Get(before, found.value).value;
      && (ok <==> !Blocked(before, current) && SentinelFitsIn(Some(was)))
      && (ok ==> after == Put(before, current, WithSentinel(Some(was), payload)))
      && (!Blocked(before, current) && !ok ==> after == Put(before, current, was))
  }

  method EnsureDataDir(disk: Disk, current: Path, legacy: seq<Path>, payload: string) returns (ok: bool)
    requires forall p :: p in legacy ==> Apart(current, p)
    modifies disk
    ensures Ensured(old(disk.root), disk.root, ok, current, legacy, payload)
    ensures forall q :: Apart(current, q) ==> Get(disk.root, q) == Get(old(disk.root), q)
  {
    if disk.Exists(current) {
      return true;
    }
    ghost var before := disk.root;
    for i := 0 to |legacy|
      invariant disk.root == before
      invariant FirstExisting(before, legacy) == FirstExisting(before, legacy[i..])
    {
      if !disk.Exists(legacy[i]) {
        continue;
      }
      var was := Get(disk.root, legacy[i]).value;
      NoClashWithNothing(was);
      OverlayNothing(was);
      ok := CopyDirRecursive(disk, legacy[i], current);
      if !ok {
        return;
      }
      GetPut(before, current, was);
      if Blocked(disk.root, current) {
        GetBlocked(disk.root, current);
      }
      ok := WriteMigrationSentinel(disk, current, payload);
      PutPut(before, current, was, WithSentinel(Some(was), payload));
      return;
    }
    return true;
  }

  lemma {:induction false} FirstExistingIs(root: Tree, legacy: seq<Path>, i: nat)
    requires i < |legacy| && Get(root, legacy[i]).Some? && forall j :: 0 <= j < i ==> Get(root, legacy[j]).None?
    ensures FirstExisting(root, legacy) == Some(legacy[i])
  {
    if i > 0 {
      FirstExistingIs(root, legacy[1..], i - 1);
    }
  }

  lemma {:induction false} NoneExisting(root: Tree, legacy: seq<Path>)
    requires forall p :: p in legacy ==> Get(root, p).None?
    ensures FirstExisting(root, legacy).None?
  {
    if legacy != [] {
      NoneExisting(root, legacy[1..]);
    }
  }

  /**
   * Of several legacy homes the first in the list is taken, whatever the later ones hold: the new home has its
   * entries and the sentinel.
   */
  lemma FirstHomeTaken(before: Tree, after: Tree, current: Path, legacy: seq<Path>, payload: string, i: nat)
    requires Ensured(before, after, true, current, legacy, payload) && Get(before, current).None?
    requires i < |legacy| && Get(before, legacy[i]).Some? && forall j :: 0 <= j < i ==> Get(before, legacy[j]).None?
    ensures Get(before, legacy[i]).value.Dir?
    ensures Get(after, current) == Some(Dir(Get(before, legacy[i]).value.entries[".migration.json" := File(payload)]))
  {
    FirstExistingIs(before, legacy, i);
    GetPut(before, current, WithSentinel(Get(before, legacy[i]), payload));
  }

  /** A second call changes nothing and succeeds, unless a file blocks the way. */
  lemma SecondEnsureChangesNothing(a: Tree, b: Tree, c: Tree, first: bool, second: bool, current: Path,
                                   legacy: seq<Path>, p: string, q: string)
    requires Ensured(a, b, first, current, legacy, p) && Ensured(b, c, second, current, legacy, q)
    requires !Blocked(a, current)
    ensures second && c == b
  {
    var found := FirstExisting(a, legacy);
    if Get(a, current).None? && found.Some? {
      var was := Get(a, found.value).value;
      GetPut(a, current, was);
      GetPut(a, current, WithSentinel(Some(was), p));
    }
  }

  /**
   * The first call fails and the second one nevertheless takes what was copied for the home exactly if no sentinel
   * fits into the legacy home: because that is a plain file, or has a directory of the sentinel's name. The home is
   * then an unmarked copy, a file exactly if the legacy home is one.
   */
  lemma FailedCopyTakenForHome(a: Tree, b: Tree, c: Tree, first: bool, second: bool, current: Path,
                               legacy: seq<Path>, p: string, q: string)
    requires Ensured(a, b, first, current, legacy, p) && Ensured(b, c, second, current, legacy, q)
    requires !Blocked(a, current) && Get(a, current).None? && FirstExisting(a, legacy).Some?
    ensures !first && second <==> !SentinelFitsIn(Get(a, FirstExisting(a, legacy).value))
    ensures !first && second ==> Get(c, current) == Get(a, FirstExisting(a, legacy).value)
    ensures Get(c, current).Some?
    ensures Get(c, current).value.File? <==> Get(a, FirstExisting(a, legacy).value).value.File?
  {
    var was := Get(a, FirstExisting(a, legacy).value).value;
    SecondEnsureChangesNothing(a, b, c, first, second, current, legacy, p, q);
    GetPut(a, current, was);
    GetPut(a, current, WithSentinel(Some(was), p));
  }

  /** A plain file as legacy home is such a case. */
  lemma FileTakenForHome(a: Tree, b: Tree, c: Tree, first: bool, second: bool, current: Path,
                         legacy: seq<Path>, p: string, q: string)
    requires Ensured(a, b, first, current, legacy, p) && Ensured(b, c, second, current, legacy, q)
    requires !Blocked(a, current) && Get(a, current).None? && FirstExisting(a, legacy).Some?
    requires Get(a, FirstExisting(a, legacy).value).value.File?
    ensures !first && second && Get(c, current) == Get(a, FirstExisting(a, legacy).value)
  {
    FailedCopyTakenForHome(a, b, c, first, second, current, legacy, p, q);
  }

  const HOME: Name := ".doge"
  const LEGACY_HOMES: seq<Name> := [".ccgui", ".mossx", ".codemoss"]

  function Below(base: Path, name: Name, relative: Path): Path {
    base + [name] + relative
  }

  lemma OtherNameApart(base: Path, m: Name, n: Name, relative: Path)
    requires m != n
    ensures Apart(Below(base, m, relative), Below(base, n, relative))
  {
    assert Below(base, m, relative)[|base|] == m && Below(base, n, relative)[|base|] == n;
  }

  /** The data of a project; with an empty `relative`, the application home itself. */
  method ProjectLocalDataDir(disk: Disk, base: Path, relative: Path, payload: string) returns (dir: Option<Path>)
    modifies disk
    ensures var legacy := [Below(base, LEGACY_HOMES[0], relative), Below(base, LEGACY_HOMES[1], relative),
                           Below(base, LEGACY_HOMES[2], relative)];
            && Ensured(old(disk.root), disk.root, dir.Some?, Below(base, HOME, relative), legacy, payload)
            && (dir.Some? ==> dir.value == Below(base, HOME, relative))
    ensures forall q :: Apart(Below(base, HOME, relative), q) ==> Get(disk.root, q) == Get(old(disk.root), q)
  {
    var current := Below(base, HOME, relative);
    OtherNameApart(base, HOME, LEGACY_HOMES[0], relative);
    OtherNameApart(base, HOME, LEGACY_HOMES[1], relative);
    OtherNameApart(base, HOME, LEGACY_HOMES[2], relative);
    var legacy := [Below(base, LEGACY_HOMES[0], relative), Below(base, LEGACY_HOMES[1], relative),
                   Below(base, LEGACY_HOMES[2], relative)];
    var ok := EnsureDataDir(disk, current, legacy, payload);
    return if ok then Some(current) else None;
  }
}
