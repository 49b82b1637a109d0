/**
 * The scan cache: lookup and insert take its lock, the computation in between
 * does not. Steps of any number of calls are interleaved with invalidations.
 */
module ScanCache {
  import opened Sequences
  import opened Wrappers
  import Runs

  type Key = nat
  type Signature = nat
  type Value = nat

  datatype Entry = Entry(signature: Signature, value: Value)

  datatype CacheState = Hit | Miss | Invalidated

  /** Where a call is; `found` is the entry its lookup saw. */
  datatype Call =
    | Entered(key: Key, signature: Signature)
    | Scanning(key: Key, signature: Signature, found: Option<Entry>)
    | Storing(key: Key, signature: Signature, found: Option<Entry>, value: Value)
    | Returned(key: Key, signature: Signature, value: Value, state: CacheState)

  datatype World = World(entries: map<Key, Entry>, calls: map<nat, Call>)

  function EntryOf(entries: map<Key, Entry>, key: Key): Option<Entry> {
    if key in entries then Some(entries[key]) else None
  }

  /** The cache as one caller sees it who is alone. */
  class Cache {
    var entries: map<Key, Entry>

    constructor ()
      ensures entries == map[]
    {
      entries := map[];
    }

    method GetOrCompute(key: Key, signature: Signature, scan: () -> Value) returns (value: Value, state: CacheState)
      modifies this
      ensures state == Hit <==> key in old(entries) && old(entries)[key].signature == signature
      ensures state == Miss <==> key !in old(entries)
      ensures state == Hit ==> entries == old(entries) && entries[key] == Entry(signature, value)
      ensures state != Hit ==> value == scan() && entries == old(entries)[key := Entry(signature, value)]
    {
      var existing := EntryOf(entries, key);
      if existing.Some? && existing.value.signature == signature {
        return existing.value.value, Hit;
      }
      state := if existing.Some? then Invalidated else Miss;
      value := scan();
      entries := entries[key := Entry(signature, value)];
    }

    method Invalidate(key: Key) returns (removed: bool)
      modifies this
      ensures removed == (key in old(entries)) && entries == old(entries) - {key}
    {
      removed := key in entries;
      entries := entries - {key};
    }

    method InvalidateMatching(matching: Key -> bool) returns (removed: nat)
      modifies this
      ensures entries == map k | k in old(entries) && !matching(k) :: old(entries)[k]
      ensures removed == |old(entries)| - |entries|
    {
      var before := entries;
      entries := map k | k in before && !matching(k) :: before[k];
      assert entries.Keys <= before.Keys;
      SubsetCardinality(entries.Keys, before.Keys);
      removed := |before| - |entries|;
    }
  }

  datatype Step =
    | Enter(id: nat, key: Key, signature: Signature)
    | Look(id: nat)
    | Compute(id: nat)
    | Insert(id: nat)
    | Invalidate(key: Key)
    | InvalidateMatching(keys: set<Key>)

  function Looked(w: World, call: Call): Call
    requires call.Entered?
  {
    var found := EntryOf(w.entries, call.key);
    if found.Some? && found.value.signature == call.signature then
      Returned(call.key, call.signature, found.value.value, Hit)
    else Scanning(call.key, call.signature, found)
  }

  /** `truth` is what a scan for a key gives under a signature. */
  function Scanned(call: Call, truth: (Key, Signature) -> Value): Call
    requires call.Scanning?
  {
    Storing(call.key, call.signature, call.found, truth(call.key, call.signature))
  }

  function Stored(call: Call): Call
    requires call.Storing?
  {
    Returned(call.key, call.signature, call.value, if call.found.Some? then Invalidated else Miss)
  }

  ghost predicate Next(w: World, w': World, step: Step, truth: (Key, Signature) -> Value) {
    match step
    case Enter(id, key, signature) =>
      id !in w.calls && w' == w.(calls := w.calls[id := Entered(key, signature)])
    case Look(id) =>
      id in w.calls && w.calls[id].Entered? && w' == w.(calls := w.calls[id := Looked(w, w.calls[id])])
    case Compute(id) =>
      id in w.calls && w.calls[id].Scanning? && w' == w.(calls := w.calls[id := Scanned(w.calls[id], truth)])
    case Insert(id) =>
      id in w.calls && w.calls[id].Storing?
      && w' == World(w.entries[w.calls[id].key := Entry(w.calls[id].signature, w.calls[id].value)],
                     w.calls[id := Stored(w.calls[id])])
    case Invalidate(key) => w' == w.(entries := w.entries - {key})
    case InvalidateMatching(keys) => w' == w.(entries := w.entries - keys)
  }

  /** Worlds, and the step taken in each but the last. */
  ghost predicate IsPath(run: seq<World>, steps: seq<Step>, truth: (Key, Signature) -> Value) {
    && |run| == |steps| + 1
    && forall i, j :: 0 <= i && j == i + 1 < |run| ==> Next(run[i], run[j], steps[i], truth)
  }

  /** A run is a path from the empty cache. */
  ghost predicate IsRun(run: seq<World>, steps: seq<Step>, truth: (Key, Signature) -> Value) {
    IsPath(run, steps, truth) && run[0] == World(map[], map[])
  }

  // -------------------------------------------------------------------- the values
  /** Whatever is stored or about to be returned is what a scan would give. */
  ghost predicate Truthful(w: World, truth: (Key, Signature) -> Value) {
    && (forall k: Key :: k in w.entries ==> w.entries[k].value == truth(k, w.entries[k].signature))
    && (forall id: nat :: id in w.calls ==> CallTruthful(w.calls[id], truth))
  }

  ghost predicate CallTruthful(call: Call, truth: (Key, Signature) -> Value) {
    call.Storing? || call.Returned? ==> call.value == truth(call.key, call.signature)
  }

  lemma {:induction false} RunTruthful(run: seq<World>, steps: seq<Step>, truth: (Key, Signature) -> Value, n: nat)
    requires IsRun(run, steps, truth) && n < |run|
    ensures Truthful(run[n], truth)
  {
    if n > 0 {
      RunTruthful(run, steps, truth, n - 1);
    }
  }

  /** In every interleaving a call returns what its own computation would have given. */
  lemma ReturnsTheScan(run: seq<World>, steps: seq<Step>, truth: (Key, Signature) -> Value, n: nat, id: nat)
    requires IsRun(run, steps, truth) && n < |run| && id in run[n].calls && run[n].calls[id].Returned?
    ensures run[n].calls[id].value == truth(run[n].calls[id].key, run[n].calls[id].signature)
  {
    RunTruthful(run, steps, truth, n);
    assert CallTruthful(run[n].calls[id], truth);
  }

  // ---------------------------------------------------------------- what is reported

  /** The entry that a call saw when it looked, which is what its report must be about. */
  ghost predicate ReportFits(call: Call, seen: Option<Entry>) {
    match call
    case Entered(_, _) => true
    case Scanning(_, signature, found) => found == seen && !(seen.Some? && seen.value.signature == signature)
    case Storing(_, signature, found, _) => found == seen && !(seen.Some? && seen.value.signature == signature)
    case Returned(_, signature, value, state) =>
      && (state == Hit <==> seen.Some? && seen.value.signature == signature)
      && (state == Miss <==> seen.None?)
      && (state == Hit ==> seen == Some(Entry(signature, value)))
  }

  /** The call took its lookup in the m-th step, and what it says fits the cache of that moment. */
  ghost predicate LookedAt(run: seq<World>, steps: seq<Step>, m: nat, id: nat, call: Call) {
    m < |steps| && m < |run| && steps[m] == Look(id) && ReportFits(call, EntryOf(run[m].entries, call.key))
  }

  /**
   * A call reports a hit exactly if a matching entry was there when it looked, a miss exactly if there was none,
   * and an invalidation exactly if there was one of another signature.
   */
  lemma {:induction false} ReportsWhatItSaw(run: seq<World>, steps: seq<Step>, truth: (Key, Signature) -> Value,
                                            n: nat, id: nat)
    returns (m: nat)
    requires IsRun(run, steps, truth) && n < |run| && id in run[n].calls && !run[n].calls[id].Entered?
    ensures m < n && LookedAt(run, steps, m, id, run[n].calls[id])
  {
    assert n > 0;
    assert Next(run[n - 1], run[n], steps[n - 1], truth);
    if steps[n - 1] == Look(id) {
      m := n - 1;
    } else {
      m := ReportsWhatItSaw(run, steps, truth, n - 1, id);
    }
  }

  // ------------------------------------------------------- what an invalidation is not

  /** Some call for the key has looked and not found a match, and will store what it scans. */
  ghost predicate UnderWay(w: World, key: Key) {
    exists id: nat :: id in w.calls && (w.calls[id].Scanning? || w.calls[id].Storing?) && w.calls[id].key == key
  }

  ghost predicate Gone(w: World, key: Key) {
    key !in w.entries && !UnderWay(w, key)
  }

  predicate IsLookFor(w: World, step: Step, key: Key) {
    step.Look? && step.id in w.calls && w.calls[step.id].key == key
  }

  predicate Invalidates(step: Step, key: Key) {
    (step.Invalidate? && step.key == key) || (step.InvalidateMatching? && key in step.keys)
  }

  lemma StepStaysGone(w: World, w': World, step: Step, truth: (Key, Signature) -> Value, key: Key)
    requires Gone(w, key) && Next(w, w', step, truth) && !IsLookFor(w, step, key)
    ensures Gone(w', key)
  {
    if id: nat :| id in w'.calls && (w'.calls[id].Scanning? || w'.calls[id].Storing?) && w'.calls[id].key == key {
      assert id in w.calls && w.calls[id].key == key;
    }
  }

  lemma PathStaysGone(run: seq<World>, steps: seq<Step>, truth: (Key, Signature) -> Value, i: nat, j: nat, key: Key)
    requires IsPath(run, steps, truth) && i <= j < |run| && Gone(run[i], key)
    requires forall m :: i <= m < j ==> !IsLookFor(run[m], steps[m], key)
    ensures Gone(run[j], key)
  {
    forall m: nat, n | i <= m && n == m + 1 <= j && Gone(run[m], key)
      ensures Gone(run[n], key)
    {
      StepStaysGone(run[m], run[n], steps[m], truth, key);
    }
    Runs.Stays(run, i, j, (w: World) => Gone(w, key));
  }

  lemma AfterInvalidation(w: World, w': World, step: Step, truth: (Key, Signature) -> Value, key: Key)
    requires Next(w, w', step, truth) && Invalidates(step, key)
    ensures key !in w'.entries && w'.calls == w.calls && (UnderWay(w', key) <==> UnderWay(w, key))
  {
  }

  /** With no call under way, an invalidated entry is back only after some call has looked again. */
  lemma BackOnlyAfterLook(run: seq<World>, steps: seq<Step>, truth: (Key, Signature) -> Value,
                          i: nat, j: nat, key: Key)
    requires IsRun(run, steps, truth) && i < j < |run| && Invalidates(steps[i], key)
    requires !UnderWay(run[i], key) && key in run[j].entries
    ensures exists m :: i < m < j && IsLookFor(run[m], steps[m], key)
  {
    AfterInvalidation(run[i], run[i + 1], steps[i], truth, key);
    if forall m :: i < m < j ==> !IsLookFor(run[m], steps[m], key) {
      PathStaysGone(run, steps, truth, i + 1, j, key);
    }
  }

  /** From `w` on the entry can be back without any call for the key looking again. */
  ghost predicate CanComeBack(w: World, key: Key, truth: (Key, Signature) -> Value) {
    exists run, steps :: ComesBack(run, steps, w, key, truth)
  }

  ghost predicate ComesBack(run: seq<World>, steps: seq<Step>, w: World, key: Key,
                            truth: (Key, Signature) -> Value) {
    && IsPath(run, steps, truth) && run[0] == w && key in run[|run| - 1].entries
    && forall m :: 0 <= m < |steps| ==> !IsLookFor(run[m], steps[m], key)
  }

  lemma StoringComesBack(w: World, id: nat, key: Key, truth: (Key, Signature) -> Value)
    requires id in w.calls && w.calls[id].Storing? && w.calls[id].key == key
    ensures CanComeBack(w, key, truth)
  {
    var call := w.calls[id];
    var w' := World(w.entries[key := Entry(call.signature, call.value)], w.calls[id := Stored(call)]);
    assert ComesBack([w, w'], [Insert(id)], w, key, truth);
  }

  lemma ScanningComesBack(w: World, id: nat, key: Key, truth: (Key, Signature) -> Value)
    requires id in w.calls && w.calls[id].Scanning? && w.calls[id].key == key
    ensures CanComeBack(w, key, truth)
  {
    var w1 := w.(calls := w.calls[id := Scanned(w.calls[id], truth)]);
    var call := w1.calls[id];
    var w2 := World(w1.entries[key := Entry(call.signature, call.value)], w1.calls[id := Stored(call)]);
    assert Next(w, w1, Compute(id), truth) && Next(w1, w2, Insert(id), truth);
    assert ComesBack([w, w1, w2], [Compute(id), Insert(id)], w, key, truth);
  }

  /**
   * An invalidation is no barrier: the entry can be back without a new look exactly if a call for the key was
   * under way, which then stores what it had scanned, or scans only now, for the signature it came with.
   */
  lemma InvalidationHoldsIff(run: seq<World>, steps: seq<Step>, truth: (Key, Signature) -> Value, i: nat, key: Key)
    requires IsRun(run, steps, truth) && i < |steps| && Invalidates(steps[i], key)
    ensures CanComeBack(run[i + 1], key, truth) <==> UnderWay(run[i], key)
  {
    var w := run[i + 1];
    AfterInvalidation(run[i], w, steps[i], truth, key);
    if UnderWay(w, key) {
      var id: nat :| id in w.calls && (w.calls[id].Scanning? || w.calls[id].Storing?) && w.calls[id].key == key;
      if w.calls[id].Storing? {
        StoringComesBack(w, id, key, truth);
      } else {
        ScanningComesBack(w, id, key, truth);
      }
    } else if CanComeBack(w, key, truth) {
      var path, taken :| ComesBack(path, taken, w, key, truth);
      PathStaysGone(path, taken, truth, 0, |taken|, key);
    }
  }

  /** An entry can be back right after its invalidation: a call under way stores what it had scanned before. */
  lemma InvalidationIsNoBarrier(truth: (Key, Signature) -> Value) returns (run: seq<World>, steps: seq<Step>)
    ensures IsRun(run, steps, truth) && |steps| == 5
    ensures steps[3] == Invalidate(0) && 0 !in run[4].entries
    ensures 0 in run[5].entries && run[5].entries[0] == Entry(7, truth(0, 7))
  {
    var none: Option<Entry> := None;
    var entries: map<Key, Entry> := map[];
    steps := [Enter(1, 0, 7), Look(1), Compute(1), Invalidate(0), Insert(1)];
    var storing := World(entries, map[1 := Storing(0, 7, none, truth(0, 7))]);
    run := [World(entries, map[]),
            World(entries, map[1 := Entered(0, 7)]),
            World(entries, map[1 := Scanning(0, 7, none)]),
            storing,
            storing,
            World(map[0 := Entry(7, truth(0, 7))], map[1 := Returned(0, 7, truth(0, 7), Miss)])];
    assert Next(run[3], run[4], steps[3], truth) by {
      assert entries - {0} == entries;
    }
  }
}
