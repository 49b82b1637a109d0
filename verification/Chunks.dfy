/**
 * Splitting the flat file into numbered chunk files, and merging chunk files
 * into one map again, whatever the order they are read in.
 */
module Chunks {
  import opened Wrappers
  import opened Sequences
  import opened Locales
  import Decimal
  import LocaleEnds
  import RoundTrip = LocaleRoundTrip

  /** The properties of a JSON object, in order. */
  type Entries = seq<(string, string)>

  /** A directory of chunk files, by name. */
  type Directory = map<string, Entries>

  ghost predicate DistinctKeys(entries: Entries) {
    forall i, j :: 0 <= i < j < |entries| ==> entries[i].0 != entries[j].0
  }

  function AsMap(entries: Entries): map<string, string> {
    if entries == [] then map[]
    else AsMap(entries[..|entries| - 1])[entries[|entries| - 1].0 := entries[|entries| - 1].1]
  }

  function Slices(entries: Entries, size: nat): (slices: seq<Entries>)
    requires size > 0
    decreases |entries|
  {
    if entries == [] then []
    else if |entries| <= size then [entries]
    else [entries[..size]] + Slices(entries[size..], size)
  }

  lemma {:induction false} SlicesTogether(entries: Entries, size: nat)
    requires size > 0
    ensures Flatten(Slices(entries, size)) == entries
    decreases |entries|
  {
    if 0 < |entries| <= size {
      FlattenSingle(entries);
    } else if entries != [] {
      SlicesTogether(entries[size..], size);
      assert entries == entries[..size] + entries[size..];
      assert Slices(entries, size)[1..] == Slices(entries[size..], size);
    }
  }

  lemma {:induction false} SliceFrom(entries: Entries, size: nat, k: nat, from: nat)
    requires size > 0 && from == k * size && k < |Slices(entries, size)|
    ensures from < |entries|
    ensures Slices(entries, size)[k] == entries[from..if from + size <= |entries| then from + size else |entries|]
    decreases |entries|
  {
    if k > 0 {
      var rest := entries[size..];
      assert (k - 1) * size == from - size;
      assert Slices(entries, size) == [entries[..size]] + Slices(rest, size);
      SliceFrom(rest, size, k - 1, from - size);
    }
  }

  /** Slice `k` is the run of `size` entries that begins at `k * size`; the last one may be shorter. */
  lemma {:induction false} SliceIs(entries: Entries, size: nat, k: nat)
    requires size > 0 && k < |Slices(entries, size)|
    ensures k * size < |entries|
    ensures Slices(entries, size)[k]
         == entries[k * size..if k * size + size <= |entries| then k * size + size else |entries|]
  {
    SliceFrom(entries, size, k, k * size);
  }

  // ------------------------------------------------------------------- file names

  function PaddedNumber(n: nat): string {
    var digits := Decimal.Print(n);
    if |digits| < 2 then "0" + digits else digits
  }

  lemma PaddedNumberRead(n: nat)
    ensures Decimal.Parse(PaddedNumber(n)) == Some(n)
  {
    var digits := Decimal.Print(n);
    Decimal.ParsePrint(n);
    if |digits| < 2 {
      assert ("0" + digits)[..1] == "0";
      assert Decimal.Parse("0") == Some(0);
    }
  }

  lemma {:induction false} PrintLength(n: nat)
    ensures |Decimal.Print(n)| == 1 <==> n < 10
    ensures |Decimal.Print(n)| <= 2 <==> n < 100
  {
    if n >= 10 {
      PrintLength(n / 10);
    }
  }

  /** Up to a hundred chunks, all names have two digits. */
  lemma TwoDigits(n: nat)
    requires n < 100
    ensures |ChunkName(n)| == |"chunk-00.json"|
    ensures ChunkName(n)[..6] == "chunk-" && ChunkName(n)[8..] == ".json"
  {
    PrintLength(n);
  }

  const PREFIX := "chunk-"
  const SUFFIX := ".json"

  function ChunkName(n: nat): string {
    PREFIX + PaddedNumber(n) + SUFFIX
  }

  lemma MiddleInjective(prefix: string, x: string, y: string, suffix: string)
    requires prefix + x + suffix == prefix + y + suffix
    ensures x == y
  {
    assert x == (prefix + x + suffix)[|prefix|..|prefix + x + suffix| - |suffix|];
    assert y == (prefix + y + suffix)[|prefix|..|prefix + y + suffix| - |suffix|];
  }

  /** No chunk file overwrites another. */
  lemma ChunkNamesDiffer(m: nat, n: nat)
    requires ChunkName(m) == ChunkName(n)
    ensures m == n
  {
    MiddleInjective(PREFIX, PaddedNumber(m), PaddedNumber(n), SUFFIX);
    PaddedNumberRead(m);
    PaddedNumberRead(n);
  }

  ghost predicate Injective(name: nat -> string) {
    forall m: nat, n: nat :: name(m) == name(n) ==> m == n
  }

  lemma ChunkNamesInjective()
    ensures Injective(ChunkName)
  {
    forall m: nat, n: nat | ChunkName(m) == ChunkName(n)
      ensures m == n
    {
      ChunkNamesDiffer(m, n);
    }
  }

  /** The directory holds the slices, each under the name of its number. */
  ghost predicate HoldsSlices(dir: Directory, slices: seq<Entries>, name: nat -> string) {
    && (forall f :: f in dir ==> exists c: nat :: c < |slices| && f == name(c))
    && (forall c: nat :: c < |slices| ==> name(c) in dir && dir[name(c)] == slices[c])
  }

  lemma HoldsOneMore(dir: Directory, written: seq<Entries>, slice: Entries, name: nat -> string)
    requires Injective(name) && HoldsSlices(dir, written, name)
    ensures HoldsSlices(dir[name(|written|) := slice], written + [slice], name)
  {
  }

  lemma NextSlice(entries: Entries, size: nat, i: nat, end: nat)
    requires size > 0 && i < |entries| && end == if i + size <= |entries| then i + size else |entries|
    ensures Slices(entries[i..], size) == [entries[i..end]] + Slices(entries[end..], size)
  {
    var rest := entries[i..];
    if i + size < |entries| {
      assert rest[..size] == entries[i..end] && rest[size..] == entries[end..];
    } else {
      assert rest == entries[i..end] && entries[end..] == [];
    }
  }

  lemma OneMoreSlice(entries: Entries, size: nat, written: seq<Entries>, i: nat, end: nat)
    requires size > 0 && i < |entries| && end == if i + size <= |entries| then i + size else |entries|
    ensures written + Slices(entries[i..], size) == written + [entries[i..end]] + Slices(entries[end..], size)
  {
    NextSlice(entries, size, i, end);
  }

  /** The size as the command line gives it; a fraction is no size of this model. */
  datatype Size = NotANumber | Whole(n: int)

  /** The counter, before step `k` of the loop, is below the number of entries; past one step `NotANumber` never is. */
  predicate GoesOn(entries: Entries, size: Size, k: nat) {
    match size
    case NotANumber => k == 0 && entries != []
    case Whole(n) => k * n < |entries|
  }

  predicate LoopEnds(entries: Entries, size: Size) {
    entries == [] || size.NotANumber? || size.n > 0
  }

  lemma CounterGrows(size: int, k: nat)
    ensures size > 0 ==> k * size >= k
    ensures size <= 0 ==> k * size <= 0
  {
  }

  /** The loop ends exactly if there is nothing to write or the size is positive or no number. */
  lemma LoopEndsExactlyIf(entries: Entries, size: Size)
    ensures LoopEnds(entries, size) <==> exists k: nat :: !GoesOn(entries, size, k)
  {
    var enough := if size.NotANumber? then 1 else |entries|;
    if LoopEnds(entries, size) {
      if size.Whole? { CounterGrows(size.n, enough); }
      assert entries == [] && size.Whole? ==> !GoesOn(entries, size, 0);
      assert entries != [] || size.NotANumber? ==> !GoesOn(entries, size, enough);
    } else {
      forall k: nat
        ensures GoesOn(entries, size, k)
      {
        CounterGrows(size.n, k);
      }
    }
  }

  method Chunk(entries: Entries, size: Size) returns (dir: Directory, n: nat)
    requires LoopEnds(entries, size)
    ensures size.Whole? && size.n > 0 ==>
              n == |Slices(entries, size.n)| && HoldsSlices(dir, Slices(entries, size.n), ChunkName)
    ensures size.NotANumber? && entries != [] ==> n == 1 && dir == map[ChunkName(0) := []]
    ensures entries == [] ==> n == 0 && dir == map[]
  {
    dir, n := map[], 0;
    if entries != [] {
      if size.NotANumber? {
        return map[ChunkName(0) := []], 1;
      }
      ChunkNamesInjective();
      dir, n := WriteChunks(entries, size.n, ChunkName);
    }
  }

  method WriteChunks(entries: Entries, size: nat, name: nat -> string) returns (dir: Directory, n: nat)
    requires size > 0 && Injective(name)
    ensures n == |Slices(entries, size)| && HoldsSlices(dir, Slices(entries, size), name)
  {
    dir, n := map[], 0;
    var i := 0;
    ghost var written, rest := [], entries;
    while i < |entries|
      invariant |written| == n && HoldsSlices(dir, written, name)
      invariant rest == if i <= |entries| then entries[i..] else []
      invariant Slices(entries, size) == written + Slices(rest, size)
      decreases |entries| - i
    {
      var end := if i + size <= |entries| then i + size else |entries|;
      var slice := entries[i..end];
      OneMoreSlice(entries, size, written, i, end);
      HoldsOneMore(dir, written, slice, name);
      dir := dir[name(n) := slice];
      written, rest := written + [slice], entries[end..];
      n := n + 1;
      i := i + size;
    }
  }

  // ---------------------------------------------------------------------- merging

  function Merged(dir: Directory, files: seq<string>): map<string, string>
    requires forall f :: f in files ==> f in dir
  {
    if files == [] then map[]
    else Merged(dir, files[..|files| - 1]) + AsMap(dir[files[|files| - 1]])
  }

  method MergePart(part: Entries, before: map<string, string>) returns (merged: map<string, string>)
    ensures merged == before + AsMap(part)
  {
    merged := before;
    for i := 0 to |part|
      invariant merged == before + AsMap(part[..i])
    {
      merged := merged[part[i].0 := part[i].1];
      assert part[..i + 1][..i] == part[..i];
    }
    assert part[..|part|] == part;
  }

  method Merge(dir: Directory, files: seq<string>) returns (merged: map<string, string>)
    requires forall f :: f in files ==> f in dir
    ensures merged == Merged(dir, files)
  {
    merged := map[];
    for i := 0 to |files|
      invariant merged == Merged(dir, files[..i])
    {
      merged := MergePart(dir[files[i]], merged);
      assert files[..i + 1][..i] == files[..i];
    }
    assert files[..|files|] == files;
  }

  /** Every key of the merged map is a key of some file, and the other way round. */
  lemma {:induction false} MergedKeys(dir: Directory, files: seq<string>, k: string)
    requires forall f :: f in files ==> f in dir
    ensures k in Merged(dir, files) <==> exists f :: f in files && k in AsMap(dir[f])
  {
    if files != [] {
      var front, last := files[..|files| - 1], files[|files| - 1];
      MergedKeys(dir, front, k);
      assert files == front + [last];
    }
  }

  lemma {:induction false} MergedValue(dir: Directory, files: seq<string>, k: string, v: string)
    requires forall f :: f in files ==> f in dir
    requires forall f :: f in files && k in AsMap(dir[f]) ==> AsMap(dir[f])[k] == v
    ensures k in Merged(dir, files) ==> Merged(dir, files)[k] == v
  {
    if files != [] {
      var front, last := files[..|files| - 1], files[|files| - 1];
      MergedValue(dir, front, k, v);
      assert files == front + [last];
    }
  }

  ghost predicate HasEntry(entries: Entries, k: string, v: string) {
    (k, v) in entries
  }

  lemma {:induction false} AsMapIs(entries: Entries, k: string)
    ensures k in AsMap(entries) <==> exists v :: HasEntry(entries, k, v)
    ensures k in AsMap(entries) ==> HasEntry(entries, k, AsMap(entries)[k])
  {
    if entries != [] {
      var front, last := entries[..|entries| - 1], entries[|entries| - 1];
      AsMapIs(front, k);
      assert entries == front + [last];
      assert forall v :: HasEntry(entries, k, v) <==> HasEntry(front, k, v) || (k, v) == last;
      if k == last.0 {
        assert HasEntry(entries, k, last.1);
      }
    }
  }

  lemma OneValuePerKey(entries: Entries, k: string, v: string, w: string)
    requires DistinctKeys(entries) && HasEntry(entries, k, v) && HasEntry(entries, k, w)
    ensures v == w
  {
    var i :| 0 <= i < |entries| && entries[i] == (k, v);
    var j :| 0 <= j < |entries| && entries[j] == (k, w);
  }

  lemma {:induction false} InSomeSlice<T>(ss: seq<seq<T>>, x: T)
    ensures x in Flatten(ss) <==> exists c :: 0 <= c < |ss| && x in ss[c]
  {
    if ss != [] {
      InSomeSlice(ss[1..], x);
      if x in Flatten(ss[1..]) {
        var c :| 0 <= c < |ss[1..]| && x in ss[1..][c];
        assert x in ss[c + 1];
      }
      forall c | 0 < c < |ss| && x in ss[c]
        ensures x in Flatten(ss[1..])
      {
        assert x in ss[1..][c - 1];
      }
    }
  }

  /** An entry is in some chunk file exactly if it is in the flat file. */
  lemma InSomeFile(dir: Directory, slices: seq<Entries>, name: nat -> string, k: string, v: string)
    requires HoldsSlices(dir, slices, name)
    ensures HasEntry(Flatten(slices), k, v) <==> exists f :: f in dir && HasEntry(dir[f], k, v)
  {
    InSomeSlice(slices, (k, v));
    if HasEntry(Flatten(slices), k, v) {
      var c: nat :| c < |slices| && (k, v) in slices[c];
      assert HasEntry(dir[name(c)], k, v);
    }
    if f :| f in dir && HasEntry(dir[f], k, v) {
      var c: nat :| c < |slices| && f == name(c);
      assert (k, v) in slices[c];
    }
  }

  ghost predicate Lists(files: seq<string>, dir: Directory) {
    forall f :: f in files <==> f in dir
  }

  lemma MergedEntry(dir: Directory, files: seq<string>, slices: seq<Entries>, name: nat -> string, k: string)
    requires HoldsSlices(dir, slices, name) && Lists(files, dir) && DistinctKeys(Flatten(slices))
    ensures k in Merged(dir, files) <==> k in AsMap(Flatten(slices))
    ensures k in AsMap(Flatten(slices)) ==> Merged(dir, files)[k] == AsMap(Flatten(slices))[k]
  {
    var entries := Flatten(slices);
    MergedKeys(dir, files, k);
    AsMapIs(entries, k);
    forall f | f in dir && k in AsMap(dir[f])
      ensures k in AsMap(entries) && AsMap(entries)[k] == AsMap(dir[f])[k]
    {
      AsMapIs(dir[f], k);
      var v := AsMap(dir[f])[k];
      InSomeFile(dir, slices, name, k, v);
      OneValuePerKey(entries, k, v, AsMap(entries)[k]);
    }
    if k in AsMap(entries) {
      var v := AsMap(entries)[k];
      InSomeFile(dir, slices, name, k, v);
      var f :| f in dir && HasEntry(dir[f], k, v);
      AsMapIs(dir[f], k);
      MergedValue(dir, files, k, v);
    }
  }

  /** Chunk files merge to the flat file they were cut from, whatever order they are read in. */
  lemma MergeOfChunks(dir: Directory, files: seq<string>, entries: Entries, size: nat, name: nat -> string)
    requires size > 0 && HoldsSlices(dir, Slices(entries, size), name) && Lists(files, dir) && DistinctKeys(entries)
    ensures Merged(dir, files) == AsMap(entries)
  {
    SlicesTogether(entries, size);
    forall k
      ensures k in Merged(dir, files) <==> k in AsMap(entries)
      ensures k in AsMap(entries) ==> Merged(dir, files)[k] == AsMap(entries)[k]
    {
      MergedEntry(dir, files, Slices(entries, size), name, k);
    }
  }

  /** Translating the values of every chunk file neither loses nor adds a key of the merged file. */
  lemma TranslatedChunksKeepKeys(dir: Directory, translated: Directory, files: seq<string>)
    requires Lists(files, dir) && translated.Keys == dir.Keys
    requires forall f :: f in dir ==> AsMap(translated[f]).Keys == AsMap(dir[f]).Keys
    ensures Merged(translated, files).Keys == Merged(dir, files).Keys
  {
    forall k
      ensures k in Merged(translated, files) <==> k in Merged(dir, files)
    {
      MergedKeys(dir, files, k);
      MergedKeys(translated, files, k);
      assert forall f :: f in dir ==> (k in AsMap(dir[f]) <==> k in AsMap(dir[f]).Keys);
      assert forall f :: f in dir ==> (k in AsMap(translated[f]) <==> k in AsMap(translated[f]).Keys);
    }
  }

  /** The whole pipeline, without a translation in between, gives the tree it started from. */
  lemma PipelineIdentity(en: Node, entries: Entries, size: nat, dir: Directory, files: seq<string>)
    requires RoundTrip.AllText(Ends(en, "")) && RoundTrip.OnePerPath(Ends(en, ""))
    requires DistinctKeys(entries) && AsMap(entries) == RoundTrip.Flattened(en)
    requires size > 0 && HoldsSlices(dir, Slices(entries, size), ChunkName) && Lists(files, dir)
    ensures Outcome(en, RoundTrip.AsFlat(Merged(dir, files))) == Ok(en)
  {
    var flat := RoundTrip.AsFlat(RoundTrip.Flattened(en));
    MergeOfChunks(dir, files, entries, size, ChunkName);
    EndsAreNoObjects(en, "");
    LocaleEnds.WrittenRecords(Ends(en, ""));
    RoundTrip.OwnTextsFit(Ends(en, ""), RoundTrip.Flattened(en));
    RoundTrip.AcceptedExactlyIfFits(en, flat);
    RoundTrip.RebuiltExactlyIfOnePerPath(en);
  }
}
