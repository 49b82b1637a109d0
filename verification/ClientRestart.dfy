/**
 * What a client store finds in files that an earlier run left, or that nobody
 * wrote: the first command on a path, told by the file alone.
 */
module ClientRestart {
  import opened Wrappers
  import opened ClientStore

  /** A new store has nothing cached. */
  function Fresh(files: map<Path, Content>): Store {
    Store(map[], files)
  }

  /** A first read gives the file's value; a missing file reads as null, and one that is not JSON cannot be read. */
  lemma FirstRead(files: map<Path, Content>, path: Path, luck: Luck)
    ensures Run(Fresh(files), [(Command.Read(path), luck)]).1
         == [Value(if path !in files then Some(Null)
                   else match files[path] case Text(json) => Some(json) case Garbage => None)]
  {
    OneCommand(Fresh(files), Command.Read(path), luck);
  }

  lemma OneCommand(s: Store, command: Command, luck: Luck)
    ensures Run(s, [(command, luck)]) == (Step(s, command, luck).0, [Step(s, command, luck).1])
  {
    var session, answer := [(command, luck)], Step(s, command, luck).1;
    assert session[..|session| - 1] == [] && [] + [answer] == [answer];
    assert Run(s, []) == (s, []);
  }

  /** The fields a file has by itself: none if it is missing or holds anything but an object. */
  function FieldsIn(files: map<Path, Content>, path: Path): map<string, Json> {
    if path in files && files[path].Text? && files[path].json.Object? then files[path].json.fields else map[]
  }

  /** `now` has the patch's entries, and what `before` has under other names. */
  ghost predicate PatchedFields(before: map<string, Json>, patch: Patch, now: map<string, Json>) {
    && (forall i :: 0 <= i < |patch| ==> patch[i].0 in now && now[patch[i].0] == patch[i].1)
    && (forall k :: (forall i :: 0 <= i < |patch| ==> patch[i].0 != k) ==>
          (k in now <==> k in before) && (k in before ==> now[k] == before[k]))
  }

  lemma OverlaidFields(before: map<string, Json>, patch: Patch)
    requires DistinctKeys(patch)
    ensures PatchedFields(before, patch, Overlaid(before, patch))
  {
    forall i | 0 <= i < |patch|
      ensures patch[i].0 in Overlaid(before, patch) && Overlaid(before, patch)[patch[i].0] == patch[i].1
    {
      OverlaidIs(before, patch, patch[i].0);
    }
    forall k | forall i :: 0 <= i < |patch| ==> patch[i].0 != k
      ensures k in Overlaid(before, patch) <==> k in before
      ensures k in before ==> Overlaid(before, patch)[k] == before[k]
    {
      OverlaidIs(before, patch, k);
    }
  }

  /**
   * A first patch that can be written leaves in the file an object with the patch's entries and the file's other
   * fields, and creates a missing file, unless it changes nothing; a file that is not JSON is left alone.
   */
  lemma FirstPatch(files: map<Path, Content>, path: Path, patch: Patch)
    requires DistinctKeys(patch)
    ensures var (s, answers) := Run(Fresh(files), [(Change(path, patch), Fine)]);
            if path in files && files[path].Garbage? then s.files == files && answers == [Done(false)]
            else
              && answers == [Done(true)]
              && (s.files == files ==> PatchedFields(FieldsIn(files, path), patch, FieldsIn(files, path)))
              && (s.files != files ==>
                    && path in s.files && s.files[path].Text? && s.files[path].json.Object?
                    && s.files == files[path := s.files[path]]
                    && PatchedFields(FieldsIn(files, path), patch, s.files[path].json.fields))
  {
    OneCommand(Fresh(files), Change(path, patch), Fine);
    OverlaidFields(FieldsIn(files, path), patch);
  }

  /** And what a write left is what a store started afterwards reads. */
  lemma WrittenIsReadAgain(s: Store, path: Path, value: Json, luck: Luck)
    ensures var left := Run(s, [(Write(path, value), Fine)]).0.files;
            Run(Fresh(left), [(Command.Read(path), luck)]).1 == [Value(Some(value))]
  {
    OneCommand(s, Write(path, value), Fine);
    FirstRead(Run(s, [(Write(path, value), Fine)]).0.files, path, luck);
  }
}
