/**
 * The cached client store: reads come from a cache, a patch compares key by key
 * and skips the write when nothing changed. It is compared with a store that
 * always reads, overlays and writes its file.
 */
module ClientStore {
  import opened Wrappers

  type Path = string

  datatype Json = Null | Scalar(text: string) | Object(fields: map<string, Json>)

  /** What a file holds; `Garbage` cannot be read or is not JSON. */
  datatype Content = Text(json: Json) | Garbage

  /** A JSON object in the order in which its keys are listed. */
  type Patch = seq<(string, Json)>

  /** What the system grants a command. */
  datatype Luck = NoLock | NoWrite | Fine

  datatype Store = Store(cache: map<Path, Json>, files: map<Path, Content>)

  ghost predicate DistinctKeys(patch: Patch) {
    forall i, j :: 0 <= i < j < |patch| ==> patch[i].0 != patch[j].0
  }

  /** The value of a file; a missing one reads as null. */
  function OnDisk(files: map<Path, Content>, path: Path): Option<Json> {
    if path !in files then Some(Null)
    else if files[path].Text? then Some(files[path].json)
    else None
  }

  function Current(s: Store, path: Path): Option<Json> {
    if path in s.cache then Some(s.cache[path]) else OnDisk(s.files, path)
  }

  /** Whatever is no object counts as the empty object. */
  function Fields(json: Json): map<string, Json> {
    if json.Object? then json.fields else map[]
  }

  function Overlaid(fields: map<string, Json>, patch: Patch): map<string, Json> {
    if patch == [] then fields
    else Overlaid(fields, patch[..|patch| - 1])[patch[|patch| - 1].0 := patch[|patch| - 1].1]
  }

  // -------------------------------------------------------------------- the commands

  function Patched(s: Store, path: Path, patch: Patch, luck: Luck): (Store, bool) {
    var current := Current(s, path);
    if luck == NoLock || current.None? then (s, false)
    else
      var before := Fields(current.value);
      var after := Overlaid(before, patch);
      var cache := s.cache[path := Object(after)];
      if after == before then (Store(cache, s.files), true)
      else if luck == NoWrite then (Store(cache, s.files), false)
      else (Store(cache, s.files[path := Text(Object(after))]), true)
  }

  function Written(s: Store, path: Path, value: Json, luck: Luck): (Store, bool) {
    if luck == NoLock then (s, false)
    else if luck == NoWrite then (Store(s.cache[path := value], s.files), false)
    else (Store(s.cache[path := value], s.files[path := Text(value)]), true)
  }

  function Looked(s: Store, path: Path): (Store, Option<Json>) {
    var current := Current(s, path);
    (if current.Some? then s.(cache := s.cache[path := current.value]) else s, current)
  }

  lemma {:induction false} OverlaidIs(fields: map<string, Json>, patch: Patch, k: string)
    requires DistinctKeys(patch)
    ensures (forall i :: 0 <= i < |patch| ==> patch[i].0 != k) ==>
              && (k in Overlaid(fields, patch) <==> k in fields)
              && (k in fields ==> Overlaid(fields, patch)[k] == fields[k])
    ensures forall i :: 0 <= i < |patch| && patch[i].0 == k ==>
              k in Overlaid(fields, patch) && Overlaid(fields, patch)[k] == patch[i].1
  {
    if patch != [] {
      OverlaidIs(fields, patch[..|patch| - 1], k);
    }
  }

  lemma Changes(fields: map<string, Json>, patch: Patch, i: nat)
    requires DistinctKeys(patch) && i < |patch|
    requires patch[i].0 !in fields || fields[patch[i].0] != patch[i].1
    ensures Overlaid(fields, patch) != fields
  {
    OverlaidIs(fields, patch, patch[i].0);
  }

  class CachedStore {
    var cache: map<Path, Json>
    var files: map<Path, Content>

    ghost function Now(): Store
      reads this
    {
      Store(cache, files)
    }

    constructor (files: map<Path, Content>)
      ensures Now() == Store(map[], files)
    {
      this.cache := map[];
      this.files := files;
    }

    method ReadStore(path: Path) returns (r: Option<Json>)
      modifies this`cache
      ensures (Now(), r) == Looked(old(Now()), path)
    {
      if path in cache {
        assert cache[path := cache[path]] == cache;
        return Some(cache[path]);
      }
      r := OnDisk(files, path);
      if r.Some? {
        cache := cache[path := r.value];
      }
    }

    /** The cache takes the value before the file does, and keeps it when the file cannot be written. */
    method WriteStore(path: Path, value: Json, luck: Luck) returns (ok: bool)
      modifies this
      ensures (Now(), ok) == Written(old(Now()), path, value, luck)
    {
      if luck == NoLock {
        return false;
      }
      cache := cache[path := value];
      if luck == NoWrite {
        return false;
      }
      files := files[path := Text(value)];
      return true;
    }

    method PatchStore(path: Path, patch: Patch, luck: Luck) returns (ok: bool)
      requires DistinctKeys(patch)
      modifies this
      ensures (Now(), ok) == Patched(old(Now()), path, patch, luck)
    {
      if luck == NoLock {
        return false;
      }
      var entry := if path in cache then Some(cache[path]) else OnDisk(files, path);
      if entry.None? {
        return false;
      }
      var fields, changed := Fields(entry.value), false;
      ghost var before := fields;
      for i := 0 to |patch|
        invariant Now() == old(Now()) && fields == Overlaid(before, patch[..i])
        invariant changed ==> exists j :: 0 <= j < i && (patch[j].0 !in before || before[patch[j].0] != patch[j].1)
        invariant !changed ==> fields == before
      {
        var (key, value) := patch[i];
        OverlaidIs(before, patch[..i], key);
        if key !in fields || fields[key] != value {
          fields := fields[key := value];
          changed := true;
        } else {
          assert fields[key := value] == fields;
        }
        assert patch[..i + 1][..i] == patch[..i];
      }
      assert patch[..|patch|] == patch;
      cache := cache[path := Object(fields)];
      if !changed {
        return true;
      }
      ghost var j :| 0 <= j < |patch| && (patch[j].0 !in before || before[patch[j].0] != patch[j].1);
      Changes(before, patch, j);
      if luck == NoWrite {
        return false;
      }
      files := files[path := Text(Object(fields))];
      return true;
    }
  }

  // ------------------------------------------------- a store without cache or skipping

  datatype Command = Read(path: Path) | Write(path: Path, value: Json) | Change(path: Path, patch: Patch)

  datatype Answer = Value(json: Option<Json>) | Done(ok: bool)

  function Step(s: Store, command: Command, luck: Luck): (Store, Answer) {
    match command
    case Read(path) => var (s', r) := Looked(s, path); (s', Value(r))
    case Write(path, value) => var (s', ok) := Written(s, path, value, luck); (s', Done(ok))
    case Change(path, patch) => var (s', ok) := Patched(s, path, patch, luck); (s', Done(ok))
  }

  /** The plain store: read the file, overlay the patch, write the file. */
  function PlainStep(files: map<Path, Content>, command: Command, luck: Luck): (map<Path, Content>, Answer) {
    match command
    case Read(path) => (files, Value(OnDisk(files, path)))
    case Write(path, value) => if luck != Fine then (files, Done(false)) else (files[path := Text(value)], Done(true))
    case Change(path, patch) =>
      var current := OnDisk(files, path);
      if luck != Fine || current.None? then (files, Done(false))
      else (files[path := Text(Object(Overlaid(Fields(current.value), patch)))], Done(true))
  }

  /** Cached or not, a path has the value the plain store has. */
  ghost predicate Refines(s: Store, plain: map<Path, Content>) {
    forall path :: Current(s, path) == OnDisk(plain, path)
  }

  /** Both can be read and have the same fields, or neither can. */
  predicate SameFields(a: Option<Json>, b: Option<Json>) {
    a.Some? == b.Some? && (a.Some? ==> Fields(a.value) == Fields(b.value))
  }

  /** The cache and the file agree about a path, up to what is no object. */
  predicate InSyncAt(s: Store, path: Path) {
    path in s.cache ==>
      && OnDisk(s.files, path).Some?
      && Fields(s.cache[path]) == Fields(OnDisk(s.files, path).value)
  }

  ghost predicate InSync(s: Store) {
    forall path :: InSyncAt(s, path)
  }

  lemma StepKeepsInSync(s: Store, command: Command, luck: Luck)
    requires InSync(s) && luck != NoWrite
    ensures InSync(Step(s, command, luck).0)
  {
    var s' := Step(s, command, luck).0;
    forall path
      ensures InSyncAt(s', path)
    {
      assert InSyncAt(s, path);
    }
  }

  /** A write that fails is kept in the cache, as if it had been written. */
  function Grant(luck: Luck): Luck {
    if luck == NoWrite then Fine else luck
  }

  lemma StepRefines(s: Store, plain: map<Path, Content>, command: Command, luck: Luck)
    requires Refines(s, plain)
    ensures Refines(Step(s, command, luck).0, PlainStep(plain, command, Grant(luck)).0)
    ensures luck != NoWrite || command.Read? ==>
              Step(s, command, luck).1 == PlainStep(plain, command, Grant(luck)).1
  {
    var s', plain' := Step(s, command, luck).0, PlainStep(plain, command, Grant(luck)).0;
    assert Current(s, command.path) == OnDisk(plain, command.path);
    forall path
      ensures Current(s', path) == OnDisk(plain', path)
    {
      assert Current(s, path) == OnDisk(plain, path);
    }
  }

  // --------------------------------------------------------------------- whole runs

  type Session = seq<(Command, Luck)>

  function Run(s: Store, session: Session): (Store, seq<Answer>) {
    if session == [] then (s, [])
    else
      var (before, answers) := Run(s, session[..|session| - 1]);
      var (after, answer) := Step(before, session[|session| - 1].0, session[|session| - 1].1);
      (after, answers + [answer])
  }

  function PlainRun(files: map<Path, Content>, session: Session): (map<Path, Content>, seq<Answer>) {
    if session == [] then (files, [])
    else
      var (before, answers) := PlainRun(files, session[..|session| - 1]);
      var (after, answer) := PlainStep(before, session[|session| - 1].0, session[|session| - 1].1);
      (after, answers + [answer])
  }

  ghost predicate WritesSucceed(session: Session) {
    forall i :: 0 <= i < |session| ==> session[i].1 != NoWrite
  }

  /** The session in which every write that the system refuses is granted. */
  function Granted(session: Session): (granted: Session)
    ensures |granted| == |session|
    ensures forall i :: 0 <= i < |session| ==> granted[i] == (session[i].0, Grant(session[i].1))
  {
    if session == [] then []
    else
      var last := session[|session| - 1];
      Granted(session[..|session| - 1]) + [(last.0, Grant(last.1))]
  }

  lemma {:induction false} StateAsIfWritten(files: map<Path, Content>, session: Session)
    ensures Refines(Run(Store(map[], files), session).0, PlainRun(files, Granted(session)).0)
  {
    if session != [] {
      var front, last := session[..|session| - 1], session[|session| - 1];
      StateAsIfWritten(files, front);
      assert Granted(session)[..|session| - 1] == Granted(front);
      StepRefines(Run(Store(map[], files), front).0, PlainRun(files, Granted(front)).0, last.0, last.1);
    }
  }

  /** Command number `i` reads, or nothing refuses its write, and then both answer the same. */
  ghost predicate AnswersMatch(session: Session, mine: seq<Answer>, plain: seq<Answer>) {
    && |mine| == |session| == |plain|
    && forall i :: 0 <= i < |session| && (session[i].0.Read? || session[i].1 != NoWrite) ==> mine[i] == plain[i]
  }

  lemma MoreAnswersMatch(front: Session, last: (Command, Luck), session: Session, mine: seq<Answer>,
                         plain: seq<Answer>, m: Answer, p: Answer)
    requires session == front + [last] && AnswersMatch(front, mine, plain)
    requires last.0.Read? || last.1 != NoWrite ==> m == p
    ensures AnswersMatch(session, mine + [m], plain + [p])
  {
  }

  /**
   * Whatever fails, commands see the values of a plain store whose writes all succeed: every read answers what it
   * would there, and so does every command whose write does not fail.
   */
  lemma {:induction false} RunAsIfWritten(files: map<Path, Content>, session: Session)
    ensures Refines(Run(Store(map[], files), session).0, PlainRun(files, Granted(session)).0)
    ensures AnswersMatch(session, Run(Store(map[], files), session).1, PlainRun(files, Granted(session)).1)
  {
    StateAsIfWritten(files, session);
    if session != [] {
      var front, last := session[..|session| - 1], session[|session| - 1];
      RunAsIfWritten(files, front);
      assert Granted(session)[..|session| - 1] == Granted(front);
      var (s, mine) := Run(Store(map[], files), front);
      var (plain, answers) := PlainRun(files, Granted(front));
      StepRefines(s, plain, last.0, last.1);
      MoreAnswersMatch(front, last, session, mine, answers, Step(s, last.0, last.1).1,
                       PlainStep(plain, last.0, Grant(last.1)).1);
    }
  }

  /** As long as files can be written, the cached store answers every command as the plain one would. */
  lemma RunRefines(files: map<Path, Content>, session: Session)
    requires WritesSucceed(session)
    ensures Run(Store(map[], files), session).1 == PlainRun(files, session).1
    ensures Refines(Run(Store(map[], files), session).0, PlainRun(files, session).0)
  {
    RunAsIfWritten(files, session);
    assert Granted(session) == session;
  }

  /** And cache and files agree after every such run. */
  lemma {:induction false} RunKeepsInSync(files: map<Path, Content>, session: Session)
    requires WritesSucceed(session)
    ensures InSync(Run(Store(map[], files), session).0)
  {
    if session != [] {
      var front, last := session[..|session| - 1], session[|session| - 1];
      RunKeepsInSync(files, front);
      StepKeepsInSync(Run(Store(map[], files), front).0, last.0, last.1);
    }
  }

  /** Skipping never loses anything: each file then has the fields of the plain store's file. */
  lemma FilesMatchPlain(files: map<Path, Content>, session: Session, path: Path)
    requires WritesSucceed(session)
    ensures SameFields(OnDisk(Run(Store(map[], files), session).0.files, path),
                       OnDisk(PlainRun(files, session).0, path))
  {
    RunRefines(files, session);
    RunKeepsInSync(files, session);
    var s := Run(Store(map[], files), session).0;
    assert Current(s, path) == OnDisk(PlainRun(files, session).0, path) && InSyncAt(s, path);
  }

  // ------------------------------------------------------------- when a write fails

  /** The value of a path in a plain store whose writes all succeed. */
  function AsIfWritten(files: map<Path, Content>, session: Session, path: Path): Option<Json> {
    OnDisk(PlainRun(files, Granted(session)).0, path)
  }

  /** The command writes the file, if `current` is what it finds for its path. */
  predicate WritesFile(current: Option<Json>, command: Command, luck: Luck) {
    && luck == Fine
    && match command
       case Read(_) => false
       case Write(_, _) => true
       case Change(_, patch) => current.Some? && Overlaid(Fields(current.value), patch) != Fields(current.value)
  }

  /** Command number `i` of a session writes the file of this path. */
  predicate WritesAt(files: map<Path, Content>, session: Session, path: Path, i: nat)
    requires i < |session|
  {
    session[i].0.path == path && WritesFile(AsIfWritten(files, session[..i], path), session[i].0, session[i].1)
  }

  lemma StepWrites(s: Store, command: Command, luck: Luck, path: Path)
    ensures var files := Step(s, command, luck).0.files;
            OnDisk(files, path) ==
            if command.path == path && WritesFile(Current(s, path), command, luck)
            then Current(Step(s, command, luck).0, path)
            else OnDisk(s.files, path)
  {
  }

  /** No command from number `i` on writes the file. */
  ghost predicate NoWriteFrom(files: map<Path, Content>, session: Session, path: Path, i: nat) {
    forall k :: i <= k < |session| ==> !WritesAt(files, session, path, k)
  }

  /** No command after the first `i` writes the file, so it stays what it was. */
  lemma {:induction false} FileStays(files: map<Path, Content>, session: Session, path: Path, i: nat)
    requires i <= |session|
    requires NoWriteFrom(files, session, path, i)
    ensures OnDisk(Run(Store(map[], files), session).0.files, path)
         == OnDisk(Run(Store(map[], files), session[..i]).0.files, path)
    decreases |session|
  {
    if i == |session| {
      assert session[..i] == session;
    } else {
      var n := |session| - 1;
      var front, last := session[..n], session[n];
      forall k | i <= k < n
        ensures !WritesAt(files, front, path, k)
      {
        assert front[..k] == session[..k] && !WritesAt(files, session, path, k);
      }
      FileStays(files, front, path, i);
      assert front[..i] == session[..i];
      SeenAsIfWritten(files, front, path);
      assert !WritesAt(files, session, path, n);
      StepWrites(Run(Store(map[], files), front).0, last.0, last.1, path);
    }
  }

  lemma SeenAsIfWritten(files: map<Path, Content>, session: Session, path: Path)
    ensures Current(Run(Store(map[], files), session).0, path) == AsIfWritten(files, session, path)
  {
    StateAsIfWritten(files, session);
  }

  lemma InSyncBySameFields(s: Store, path: Path)
    ensures InSyncAt(s, path) <==> SameFields(Current(s, path), OnDisk(s.files, path))
  {
  }

  lemma RunOneMore(s: Store, session: Session, i: nat)
    requires i < |session|
    ensures Run(s, session[..i + 1]).0 == Step(Run(s, session[..i]).0, session[i].0, session[i].1).0
  {
    assert session[..i + 1][..i] == session[..i];
  }

  /** A command that writes the file puts there what a plain store without failures would have. */
  lemma WriteCatchesUp(files: map<Path, Content>, session: Session, path: Path, i: nat)
    requires i < |session| && WritesAt(files, session, path, i)
    ensures OnDisk(Run(Store(map[], files), session[..i + 1]).0.files, path)
         == AsIfWritten(files, session[..i + 1], path)
  {
    RunOneMore(Store(map[], files), session, i);
    SeenAsIfWritten(files, session[..i], path);
    SeenAsIfWritten(files, session[..i + 1], path);
    StepWrites(Run(Store(map[], files), session[..i]).0, session[i].0, session[i].1, path);
  }

  lemma FileWrittenAt(files: map<Path, Content>, session: Session, path: Path, i: nat)
    requires i <= |session| && (i == 0 || WritesAt(files, session, path, i - 1))
    ensures OnDisk(Run(Store(map[], files), session[..i]).0.files, path) == AsIfWritten(files, session[..i], path)
  {
    if i == 0 {
      assert session[..i] == [];
    } else {
      var n := i - 1;
      WriteCatchesUp(files, session, path, n);
      assert n + 1 == i;
    }
  }

  /**
   * Over every session, failures or not: the file holds what its path had in a plain store without failures when
   * the file was last written.
   */
  lemma FileIsOfLastWrite(files: map<Path, Content>, session: Session, path: Path, i: nat)
    requires i <= |session| && (i == 0 || WritesAt(files, session, path, i - 1))
    requires NoWriteFrom(files, session, path, i)
    ensures OnDisk(Run(Store(map[], files), session).0.files, path) == AsIfWritten(files, session[..i], path)
  {
    FileStays(files, session, path, i);
    FileWrittenAt(files, session, path, i);
  }

  /** So cache and file agree exactly if the path has the fields it had when the file was last written. */
  lemma InSyncIffAsLastWritten(files: map<Path, Content>, session: Session, path: Path, i: nat)
    requires i <= |session| && (i == 0 || WritesAt(files, session, path, i - 1))
    requires NoWriteFrom(files, session, path, i)
    ensures InSyncAt(Run(Store(map[], files), session).0, path)
       <==> SameFields(AsIfWritten(files, session, path), AsIfWritten(files, session[..i], path))
  {
    FileIsOfLastWrite(files, session, path, i);
    SeenAsIfWritten(files, session, path);
    InSyncBySameFields(Run(Store(map[], files), session).0, path);
  }

  lemma {:induction false} OverlaidAgain(fields: map<string, Json>, patch: Patch)
    requires DistinctKeys(patch)
    ensures Overlaid(Overlaid(fields, patch), patch) == Overlaid(fields, patch)
  {
    var once := Overlaid(fields, patch);
    forall k
      ensures k in Overlaid(once, patch) <==> k in once
      ensures k in once ==> Overlaid(once, patch)[k] == once[k]
    {
      OverlaidIs(fields, patch, k);
      OverlaidIs(once, patch, k);
    }
  }

  /** Commands on the path only read it or try the same patch again; others may do anything. */
  ghost predicate OnlyRetries(session: Session, path: Path, patch: Patch) {
    forall i :: 0 <= i < |session| && session[i].0.path == path ==>
      session[i].0 == Command.Read(path) || session[i].0 == Change(path, patch)
  }

  lemma StepRetries(s: Store, fields: map<string, Json>, path: Path, patch: Patch, command: Command, luck: Luck)
    requires DistinctKeys(patch) && path in s.cache && s.cache[path] == Object(Overlaid(fields, patch))
    requires command.path == path ==> command == Command.Read(path) || command == Change(path, patch)
    ensures var (s', answer) := Step(s, command, luck);
            && path in s'.cache && s'.cache[path] == s.cache[path] && OnDisk(s'.files, path) == OnDisk(s.files, path)
            && (command == Change(path, patch) ==> answer == Done(luck != NoLock))
  {
    OverlaidAgain(fields, patch);
  }

  lemma {:induction false} RunRetries(s: Store, fields: map<string, Json>, path: Path, patch: Patch, session: Session)
    requires DistinctKeys(patch) && path in s.cache && s.cache[path] == Object(Overlaid(fields, patch))
    requires OnlyRetries(session, path, patch)
    ensures var (s', answers) := Run(s, session);
            && path in s'.cache && s'.cache[path] == s.cache[path] && OnDisk(s'.files, path) == OnDisk(s.files, path)
            && |answers| == |session|
            && forall i :: 0 <= i < |session| && session[i].0 == Change(path, patch) ==>
                 answers[i] == Done(session[i].1 != NoLock)
  {
    if session != [] {
      var front, last := session[..|session| - 1], session[|session| - 1];
      RunRetries(s, fields, path, patch, front);
      StepRetries(Run(s, front).0, fields, path, patch, last.0, last.1);
    }
  }

  /**
   * A patch whose write failed is never written by trying it again: as long as its path is only read and the same
   * patch tried, each try that gets the lock succeeds and the file stays as it was before the first one.
   */
  lemma RetriesDoNotWrite(s: Store, path: Path, patch: Patch, session: Session)
    requires DistinctKeys(patch) && Current(s, path).Some? && !Patched(s, path, patch, NoWrite).1
    requires OnlyRetries(session, path, patch)
    ensures var (s', answers) := Run(Patched(s, path, patch, NoWrite).0, session);
            && OnDisk(s'.files, path) == OnDisk(s.files, path) && |answers| == |session|
            && forall i :: 0 <= i < |session| && session[i].0 == Change(path, patch) ==>
                 answers[i] == Done(session[i].1 != NoLock)
  {
    RunRetries(Patched(s, path, patch, NoWrite).0, Fields(Current(s, path).value), path, patch, session);
  }
}
