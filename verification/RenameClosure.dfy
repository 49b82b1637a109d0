/**
 * Which paths belong to one file's diff: everything a chain of renames connects
 * it to. The loop that grows the set is proved to reach exactly the connected
 * component of the target in the undirected graph of rename pairs.
 */
module RenameClosure {
  import opened Sequences

  type Path = string
  type Pairs = seq<(Path, Path)>

  // ---------------------------------------------------------------- connectedness

  predicate Renamed(pairs: Pairs, a: Path, b: Path) {
    (a, b) in pairs || (b, a) in pairs
  }

  /** `walk` goes from `a` to `b` along renames, in either direction. */
  ghost predicate Walk(pairs: Pairs, walk: seq<Path>, a: Path, b: Path) {
    && walk != []
    && walk[0] == a && walk[|walk| - 1] == b
    && forall i :: 0 <= i < |walk| - 1 ==> Renamed(pairs, walk[i], walk[i + 1])
  }

  ghost predicate Connected(pairs: Pairs, a: Path, b: Path) {
    exists walk :: Walk(pairs, walk, a, b)
  }

  lemma ConnectedSelf(pairs: Pairs, a: Path)
    ensures Connected(pairs, a, a)
  {
    assert Walk(pairs, [a], a, a);
  }

  lemma ConnectedStep(pairs: Pairs, a: Path, b: Path, c: Path)
    requires Connected(pairs, a, b) && Renamed(pairs, b, c)
    ensures Connected(pairs, a, c)
  {
    var walk :| Walk(pairs, walk, a, b);
    assert Walk(pairs, walk + [c], a, c);
  }

  lemma ConnectedBack(pairs: Pairs, a: Path, b: Path)
    requires Connected(pairs, a, b)
    ensures Connected(pairs, b, a)
  {
    var walk :| Walk(pairs, walk, a, b);
    var back := seq(|walk|, i requires 0 <= i < |walk| => walk[|walk| - 1 - i]);
    forall i | 0 <= i < |back| - 1
      ensures Renamed(pairs, back[i], back[i + 1])
    {
      assert Renamed(pairs, walk[|walk| - 2 - i], walk[|walk| - 2 - i + 1]);
    }
    assert Walk(pairs, back, b, a);
  }

  lemma ConnectedThrough(pairs: Pairs, a: Path, b: Path, c: Path)
    requires Connected(pairs, a, b) && Connected(pairs, b, c)
    ensures Connected(pairs, a, c)
  {
    var walk :| Walk(pairs, walk, b, c);
    WalkOn(pairs, a, walk, b, c);
  }

  lemma {:induction false} WalkOn(pairs: Pairs, a: Path, walk: seq<Path>, b: Path, c: Path)
    requires Connected(pairs, a, b) && Walk(pairs, walk, b, c)
    ensures Connected(pairs, a, c)
    decreases |walk|
  {
    if |walk| > 1 {
      var front := walk[..|walk| - 1];
      var last := walk[|walk| - 2];
      assert Walk(pairs, front, b, last);
      WalkOn(pairs, a, front, b, last);
      assert Renamed(pairs, walk[|walk| - 2], walk[|walk| - 2 + 1]);
      ConnectedStep(pairs, a, last, c);
    }
  }

  /** A set closed under the pairs holds all that is connected to any of its members. */
  ghost predicate Closed(pairs: Pairs, paths: set<Path>) {
    forall i :: 0 <= i < |pairs| ==> (pairs[i].0 in paths <==> pairs[i].1 in paths)
  }

  lemma {:induction false} ClosedHoldsWalk(pairs: Pairs, paths: set<Path>, walk: seq<Path>, a: Path, b: Path)
    requires Closed(pairs, paths) && a in paths && Walk(pairs, walk, a, b)
    ensures b in paths
    decreases |walk|
  {
    if |walk| > 1 {
      var last := walk[|walk| - 2];
      assert Walk(pairs, walk[..|walk| - 1], a, last);
      ClosedHoldsWalk(pairs, paths, walk[..|walk| - 1], a, last);
      assert Renamed(pairs, walk[|walk| - 2], walk[|walk| - 2 + 1]);
    }
  }

  /** A closed set of things connected to its member `target` is the component of `target`. */
  ghost predicate IsComponent(pairs: Pairs, target: Path, paths: set<Path>) {
    forall p :: p in paths <==> Connected(pairs, target, p)
  }

  lemma ClosedIsComponent(pairs: Pairs, target: Path, paths: set<Path>)
    requires Closed(pairs, paths) && target in paths && forall p :: p in paths ==> Connected(pairs, target, p)
    ensures IsComponent(pairs, target, paths)
  {
    forall p | Connected(pairs, target, p)
      ensures p in paths
    {
      var walk :| Walk(pairs, walk, target, p);
      ClosedHoldsWalk(pairs, paths, walk, target, p);
    }
  }

  lemma WalkInside(pairs: Pairs, walk: seq<Path>, a: Path, b: Path)
    requires Walk(pairs, walk, a, b) && a != b
    ensures exists i :: 0 <= i < |pairs| && (pairs[i].0 == b || pairs[i].1 == b)
    ensures exists i :: 0 <= i < |pairs| && (pairs[i].0 == a || pairs[i].1 == a)
  {
    assert Renamed(pairs, walk[0], walk[0 + 1]);
    assert Renamed(pairs, walk[|walk| - 2], walk[|walk| - 2 + 1]);
  }

  ghost function Component(pairs: Pairs, target: Path): set<Path> {
    set p | p in Endpoints(pairs) + {target} && Connected(pairs, target, p)
  }

  lemma ComponentExists(pairs: Pairs, target: Path)
    ensures IsComponent(pairs, target, Component(pairs, target))
  {
    forall p | Connected(pairs, target, p)
      ensures p in Component(pairs, target)
    {
      var walk :| Walk(pairs, walk, target, p);
      if p != target {
        WalkInside(pairs, walk, target, p);
      }
    }
  }

  lemma ComponentIs(pairs: Pairs, target: Path, paths: set<Path>)
    requires IsComponent(pairs, target, paths)
    ensures paths == Component(pairs, target)
  {
    ComponentExists(pairs, target);
  }

  // ------------------------------------------------------------------ the listing

  function Endpoints(pairs: Pairs): set<Path> {
    (set i | 0 <= i < |pairs| :: pairs[i].0) + (set i | 0 <= i < |pairs| :: pairs[i].1)
  }

  function Pushed(paths: seq<Path>, p: Path): seq<Path> {
    if p in paths then paths else paths + [p]
  }

  /** The paths of the set that occur in a pair inside the set, in order of first occurrence. */
  function Listing(pairs: Pairs, chosen: set<Path>): seq<Path> {
    if pairs == [] then []
    else
      var front := Listing(pairs[..|pairs| - 1], chosen);
      var (oldPath, newPath) := pairs[|pairs| - 1];
      if oldPath in chosen && newPath in chosen then Pushed(Pushed(front, oldPath), newPath) else front
  }

  /** The pair is inside the set and has this path. */
  predicate Lists(pair: (Path, Path), chosen: set<Path>, p: Path) {
    pair.0 in chosen && pair.1 in chosen && (pair.0 == p || pair.1 == p)
  }

  lemma {:induction false} ListingDistinct(pairs: Pairs, chosen: set<Path>)
    ensures Distinct(Listing(pairs, chosen))
  {
    if pairs != [] {
      ListingDistinct(pairs[..|pairs| - 1], chosen);
    }
  }

  lemma {:induction false} ListingMembers(pairs: Pairs, chosen: set<Path>, p: Path)
    ensures p in Listing(pairs, chosen) <==> exists i :: 0 <= i < |pairs| && Lists(pairs[i], chosen, p)
  {
    if pairs != [] {
      var front, last := pairs[..|pairs| - 1], pairs[|pairs| - 1];
      ListingMembers(front, chosen, p);
      assert forall i :: 0 <= i < |front| ==> front[i] == pairs[i];
      assert p in Listing(pairs, chosen) <==> p in Listing(front, chosen) || Lists(last, chosen, p);
    }
  }

  // ---------------------------------------------------------------- the algorithm

  /** Grows the connected set until a whole pass over the pairs adds nothing. */
  method ConnectedPaths(pairs: Pairs, target: Path) returns (connected: set<Path>)
    ensures IsComponent(pairs, target, connected)
  {
    connected := {target};
    ConnectedSelf(pairs, target);
    ghost var bound := Endpoints(pairs) + {target};
    while true
      invariant target in connected && connected <= bound
      invariant forall p :: p in connected ==> Connected(pairs, target, p)
      decreases bound - connected
    {
      var expanded := false;
      ghost var before := connected;
      for i := 0 to |pairs|
        invariant before <= connected <= bound
        invariant expanded <==> connected != before
        invariant forall p :: p in connected ==> Connected(pairs, target, p)
        invariant !expanded ==> forall j :: 0 <= j < i ==> (pairs[j].0 in connected <==> pairs[j].1 in connected)
      {
        var (oldPath, newPath) := pairs[i];
        if oldPath !in connected && newPath !in connected {
          continue;
        }
        assert pairs[i] in pairs;
        if oldPath in connected {
          ConnectedStep(pairs, target, oldPath, newPath);
        } else {
          ConnectedStep(pairs, target, newPath, oldPath);
        }
        assert oldPath in Endpoints(pairs) && newPath in Endpoints(pairs);
        if oldPath !in connected {
          connected := connected + {oldPath};
          expanded := true;
        }
        if newPath !in connected {
          connected := connected + {newPath};
          expanded := true;
        }
      }
      if !expanded {
        break;
      }
      assert bound - connected < bound - before;
    }
    ClosedIsComponent(pairs, target, connected);
  }

  /** Tests for the target and lists the paths; `pairs` is None when the repository or its status cannot be read. */
  method DiffPathsForFile(readPairs: Repository, target: Path) returns (paths: seq<Path>)
    ensures target == [] ==> paths == []
    ensures target != [] && readPairs.Unreadable? ==> paths == [target]
    ensures target != [] && readPairs.Readable? && target !in Endpoints(readPairs.pairs) ==> paths == [target]
    ensures target != [] && readPairs.Readable? && target in Endpoints(readPairs.pairs) ==>
              && Distinct(paths)
              && (forall p :: p in paths <==> Connected(readPairs.pairs, target, p))
    ensures target != [] && readPairs.Readable? ==> paths == DiffPaths(readPairs.pairs, target)
  {
    if target == [] {
      return [];
    }
    if readPairs.Unreadable? {
      return [target];
    }
    var pairs := readPairs.pairs;
    var connected := ConnectedPaths(pairs, target);
    paths := [];
    for i := 0 to |pairs|
      invariant paths == Listing(pairs[..i], connected)
    {
      var (oldPath, newPath) := pairs[i];
      assert pairs[..i + 1][..i] == pairs[..i];
      if oldPath in connected && newPath in connected {
        if oldPath !in paths {
          paths := paths + [oldPath];
        }
        if newPath !in paths {
          paths := paths + [newPath];
        }
      }
    }
    assert pairs[..|pairs|] == pairs;
    ListingIsComponent(pairs, target, connected);
    ComponentIs(pairs, target, connected);
    if paths == [] {
      paths := [target];
    }
  }

  datatype Repository = Unreadable | Readable(pairs: Pairs)

  lemma ListedIfConnected(pairs: Pairs, target: Path, component: set<Path>, p: Path)
    requires IsComponent(pairs, target, component)
    ensures p in Listing(pairs, component) <==> p in Endpoints(pairs) && Connected(pairs, target, p)
  {
    ListingMembers(pairs, component, p);
    if p in Endpoints(pairs) && Connected(pairs, target, p) {
      var i :| 0 <= i < |pairs| && (pairs[i].0 == p || pairs[i].1 == p);
      assert pairs[i] in pairs;
      ConnectedStep(pairs, target, p, if pairs[i].0 == p then pairs[i].1 else pairs[i].0);
      assert Lists(pairs[i], component, p);
    }
  }

  /** Only a renamed path is connected with another. */
  lemma ConnectedOnlyIfRenamed(pairs: Pairs, target: Path, p: Path)
    requires Connected(pairs, target, p) && (target in Endpoints(pairs) || p in Endpoints(pairs))
    ensures target in Endpoints(pairs) && p in Endpoints(pairs)
  {
    if p != target {
      var walk :| Walk(pairs, walk, target, p);
      WalkInside(pairs, walk, target, p);
    }
  }

  /** With the component chosen, the listing is the component itself, unless the target was never renamed. */
  lemma ListingIsComponent(pairs: Pairs, target: Path, component: set<Path>)
    requires IsComponent(pairs, target, component)
    ensures Distinct(Listing(pairs, component))
    ensures target in Endpoints(pairs) ==> forall p :: p in Listing(pairs, component) <==> Connected(pairs, target, p)
    ensures target in Endpoints(pairs) ==> Listing(pairs, component) != []
    ensures target !in Endpoints(pairs) ==> Listing(pairs, component) == []
  {
    ListingDistinct(pairs, component);
    if target in Endpoints(pairs) {
      forall p
        ensures p in Listing(pairs, component) <==> Connected(pairs, target, p)
      {
        ListedIfConnected(pairs, target, component, p);
        if Connected(pairs, target, p) {
          ConnectedOnlyIfRenamed(pairs, target, p);
        }
      }
      ConnectedSelf(pairs, target);
      assert target in Listing(pairs, component);
    } else if Listing(pairs, component) != [] {
      var p := Listing(pairs, component)[0];
      ListedIfConnected(pairs, target, component, p);
      ConnectedOnlyIfRenamed(pairs, target, p);
    }
  }

  /** The paths to diff for `target`, as a function of the rename pairs. */
  ghost function DiffPaths(pairs: Pairs, target: Path): seq<Path> {
    var listing := Listing(pairs, Component(pairs, target));
    if listing == [] then [target] else listing
  }

  /** Asking for any path of a component gives the identical list, and paths of different components share nothing. */
  lemma SameListForWholeComponent(pairs: Pairs, a: Path, b: Path)
    ensures Connected(pairs, a, b) ==> DiffPaths(pairs, a) == DiffPaths(pairs, b)
    ensures !Connected(pairs, a, b) ==> forall p :: !(p in DiffPaths(pairs, a) && p in DiffPaths(pairs, b))
  {
    ComponentExists(pairs, a);
    ComponentExists(pairs, b);
    ListingIsComponent(pairs, a, Component(pairs, a));
    ListingIsComponent(pairs, b, Component(pairs, b));
    ConnectedSelf(pairs, a);
    ConnectedSelf(pairs, b);
    if Connected(pairs, a, b) {
      ConnectedBack(pairs, a, b);
      forall p
        ensures p in Component(pairs, a) <==> p in Component(pairs, b)
      {
        if p in Component(pairs, a) { ConnectedThrough(pairs, b, a, p); }
        if p in Component(pairs, b) { ConnectedThrough(pairs, a, b, p); }
      }
      assert Component(pairs, a) == Component(pairs, b);
      if a != b {
        var walk :| Walk(pairs, walk, a, b);
        WalkInside(pairs, walk, a, b);
      }
    } else {
      forall p | p in DiffPaths(pairs, a)
        ensures Connected(pairs, a, p)
      {
      }
      if p :| p in DiffPaths(pairs, a) && p in DiffPaths(pairs, b) {
        ConnectedBack(pairs, b, p);
        ConnectedThrough(pairs, a, p, b);
      }
    }
  }
}
