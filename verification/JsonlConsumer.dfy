/**
 * A consumer of incremental reads over a whole run: it appends what an
 * append-only read returns and replaces what it holds otherwise.
 */
module JsonlConsumer {
  import opened Wrappers
  import opened Jsonl

  datatype Consumer<R> = Consumer(cursor: Option<Cursor>, held: seq<R>)

  function Absorb<R>(c: Consumer<R>, r: Result<Read<R>, Error>): Consumer<R> {
    match r
    case Err(_) => c
    case Ok(read) =>
      Consumer(Some(read.cursor), if read.state == AppendOnly then c.held + read.records else read.records)
  }

  /** The consumer after reading each of these snapshots in turn. */
  function After<R>(files: seq<Option<File>>, classify: seq<Byte> -> Line<R>): Consumer<R> {
    if files == [] then Consumer(None, [])
    else
      var c := After(files[..|files| - 1], classify);
      Absorb(c, CursorRead(files[|files| - 1], c.cursor, classify))
  }

  /** The snapshot of the last read that succeeded. */
  function LastRead<R>(files: seq<Option<File>>, classify: seq<Byte> -> Line<R>): Option<File> {
    if files == [] then None
    else
      var front, last := files[..|files| - 1], files[|files| - 1];
      if CursorRead(last, After(front, classify).cursor, classify).Ok? then last else LastRead(front, classify)
  }

  /** The consumer holds what a full parse of the snapshot gives, and its cursor is at its end. */
  ghost predicate InStep<R>(c: Consumer<R>, seen: Option<File>, classify: seq<Byte> -> Line<R>) {
    if seen.None? then c == Consumer(None, [])
    else c.cursor == Some(EndOf(seen.value)) && Parse(seen.value.bytes, classify) == Good(c.held)
  }

  /** What happens to a file between two reads: complete lines are appended, or it shrinks, or it is replaced. */
  ghost predicate Continues(seen: Option<File>, file: Option<File>) {
    seen.Some? && file.Some? ==>
      || (&& file.value.sourceId == seen.value.sourceId
          && seen.value.bytes <= file.value.bytes && AtLineEnd(seen.value.bytes))
      || |file.value.bytes| < |seen.value.bytes|
      || file.value.sourceId != seen.value.sourceId
  }

  lemma PrefixAndTail(front: seq<Byte>, now: seq<Byte>)
    requires front <= now
    ensures now == front + now[|front|..]
  {
  }

  lemma TailParse<R>(front: seq<Byte>, now: seq<Byte>, classify: seq<Byte> -> Line<R>)
    requires front <= now && AtLineEnd(front)
    ensures Parse(now, classify) == Then(Parse(front, classify), Parse(now[|front|..], classify))
  {
    ParseConcat(front, now[|front|..], classify);
    PrefixAndTail(front, now);
  }

  /** The read succeeds and fails as a full read does, without its fallback, and leaves the consumer in step. */
  ghost predicate ReadAgrees<R>(c: Consumer<R>, file: Option<File>, r: Result<Read<R>, Error>,
                                full: Result<Read<R>, Error>, classify: seq<Byte> -> Line<R>) {
    && (r.Ok? <==> full.Ok?)
    && (r.Err? ==> r == full)
    && (r.Ok? ==> r.value.state != CorruptFallback && InStep(Absorb(c, r), file, classify))
    && (r.Ok? ==> Absorb(c, r).held == full.value.records)
  }

  lemma AppendedReadAgrees<R>(c: Consumer<R>, f: File, g: File, classify: seq<Byte> -> Line<R>)
    requires InStep(c, Some(f), classify) && f.sourceId == g.sourceId && f.bytes <= g.bytes && AtLineEnd(f.bytes)
    ensures ReadAgrees(c, Some(g), CursorRead(Some(g), c.cursor, classify), FullRead(Some(g), classify), classify)
  {
    TailParse(f.bytes, g.bytes, classify);
  }

  /** One read keeps in step, fails exactly when a full read fails, and never needs its fallback. */
  lemma ReadKeepsInStep<R>(c: Consumer<R>, seen: Option<File>, file: Option<File>, classify: seq<Byte> -> Line<R>)
    requires InStep(c, seen, classify) && Continues(seen, file)
    ensures ReadAgrees(c, file, CursorRead(file, c.cursor, classify), FullRead(file, classify), classify)
  {
    if file.Some? && seen.Some? && Compatible(EndOf(seen.value), |file.value.bytes|, file.value.sourceId) {
      AppendedReadAgrees(c, seen.value, file.value, classify);
    }
  }

  /** Over every run the consumer holds the records of a full parse of what it read last. */
  lemma {:induction false} RunKeepsInStep<R>(files: seq<Option<File>>, classify: seq<Byte> -> Line<R>)
    requires forall i :: 0 <= i < |files| ==> Continues(LastRead(files[..i], classify), files[i])
    ensures InStep(After(files, classify), LastRead(files, classify), classify)
  {
    if files != [] {
      var front, last := files[..|files| - 1], files[|files| - 1];
      assert forall i :: 0 <= i < |front| ==> front[..i] == files[..i];
      RunKeepsInStep(front, classify);
      ReadKeepsInStep(After(front, classify), LastRead(front, classify), last, classify);
    }
  }

  lemma NextReadAgrees<R>(files: seq<Option<File>>, next: Option<File>, c: Consumer<R>, classify: seq<Byte> -> Line<R>)
    requires forall i :: 0 <= i < |files| ==> Continues(LastRead(files[..i], classify), files[i])
    requires Continues(LastRead(files, classify), next) && c == After(files, classify)
    ensures ReadAgrees(c, next, CursorRead(next, c.cursor, classify), FullRead(next, classify), classify)
  {
    RunKeepsInStep(files, classify);
    ReadKeepsInStep(c, LastRead(files, classify), next, classify);
  }

  /** After each further read of such a run, incremental and full reading cannot be told apart. */
  lemma HoldsFullParse<R>(files: seq<Option<File>>, next: Option<File>, classify: seq<Byte> -> Line<R>)
    requires forall i :: 0 <= i < |files| ==> Continues(LastRead(files[..i], classify), files[i])
    requires Continues(LastRead(files, classify), next)
    ensures CursorRead(next, After(files, classify).cursor, classify).Ok? <==> FullRead(next, classify).Ok?
    ensures FullRead(next, classify).Ok? ==>
              After(files + [next], classify).held == FullRead(next, classify).value.records
  {
    NextReadAgrees(files, next, After(files, classify), classify);
  }

  // ------------------------------------------------------- where it does not agree

  /** Where the line ends that position `n` is in: `n` itself if a line begins there, or the end of the text. */
  function LineEndFrom(b: seq<Byte>, n: nat): (cut: nat)
    requires n <= |b|
    ensures n <= cut <= |b|
    ensures cut < |b| ==> AtLineEnd(b[..cut]) && AtLineEnd(b[n..cut])
    ensures AtLineEnd(b[..n]) ==> cut == n
  {
    if AtLineEnd(b[..n]) then n
    else
      var m := n + LineLength(b[n..]);
      if m < |b| then
        assert b[..m + 1][m] == b[n..][m - n] == LF && b[n..m + 1][m - n] == LF;
        m + 1
      else m
  }

  /** Parsing splits at a line end, and at the end of the text. */
  lemma SplitParse<R>(front: seq<Byte>, back: seq<Byte>, all: seq<Byte>, classify: seq<Byte> -> Line<R>)
    requires all == front + back && (AtLineEnd(front) || back == [])
    ensures Parse(all, classify) == Then(Parse(front, classify), Parse(back, classify))
  {
    if back == [] {
      assert all == front;
      var p := Parse(front, classify);
      assert p.Good? ==> p.records + [] == p.records;
    } else {
      ParseConcat(front, back, classify);
    }
  }

  lemma SameFront<R>(a: seq<R>, b: seq<R>, t: seq<R>)
    requires a + t == b + t
    ensures a == b
  {
    assert |a| == |b|;
    assert a == (a + t)[..|a|] && b == (b + t)[..|b|];
  }

  /** What is read right: `before` is the part a full read has before `tail`, where a consumer has `held` and `half`. */
  lemma FrontsAgree<R>(before: Parsed<R>, half: Parsed<R>, tail: Parsed<R>, held: seq<R>)
    requires Then(half, tail).Good?
    ensures Then(before, tail) == Good(held + Then(half, tail).records) <==> before == Then(Good(held), half)
  {
    var mine := held + half.records;
    assert held + (half.records + tail.records) == mine + tail.records;
    if before.Good? && before.records + tail.records == mine + tail.records {
      SameFront(before.records, mine, tail.records);
    }
  }

  lemma RewrittenParts<R>(front: seq<Byte>, half: seq<Byte>, tail: seq<Byte>, all: seq<Byte>, rest: seq<Byte>,
                          held: seq<R>, classify: seq<Byte> -> Line<R>)
    requires all == front + tail && rest == half + tail && ((AtLineEnd(front) && AtLineEnd(half)) || tail == [])
    requires Parse(rest, classify).Good?
    ensures Parse(all, classify) == Good(held + Parse(rest, classify).records)
       <==> Parse(front, classify) == Then(Good(held), Parse(half, classify))
  {
    SplitParse(front, tail, all, classify);
    SplitParse(half, tail, rest, classify);
    FrontsAgree(Parse(front, classify), Parse(half, classify), Parse(tail, classify), held);
  }

  lemma CutInParts(all: seq<Byte>, n: nat, cut: nat)
    requires n <= cut <= |all|
    ensures all == all[..cut] + all[cut..] && all[n..] == all[n..cut] + all[cut..]
  {
  }

  /** Up to `cut` the text parses to what is held and what the part from `n` on gives. */
  ghost predicate FrontHolds<R>(all: seq<Byte>, n: nat, cut: nat, held: seq<R>, classify: seq<Byte> -> Line<R>)
    requires n <= cut <= |all|
  {
    Parse(all[..cut], classify) == Then(Good(held), Parse(all[n..cut], classify))
  }

  lemma RewrittenParse<R>(all: seq<Byte>, n: nat, held: seq<R>, classify: seq<Byte> -> Line<R>)
    requires n <= |all| && Parse(all[n..], classify).Good?
    ensures var cut := LineEndFrom(all, n);
            Parse(all, classify) == Good(held + Parse(all[n..], classify).records)
            <==> FrontHolds(all, n, cut, held, classify)
  {
    var cut := LineEndFrom(all, n);
    CutInParts(all, n, cut);
    RewrittenParts(all[..cut], all[n..cut], all[cut..], all, all[n..], held, classify);
  }

  /**
   * Any file that was rewritten in place and not shortened: the read goes right exactly if its fallback was needed,
   * or if the file up to the end of the line that the cursor is in parses to what was held and what the reader
   * takes from the rest of that line.
   */
  lemma RewriteAgreesIff<R>(c: Consumer<R>, f: File, g: File, r: Result<Read<R>, Error>, classify: seq<Byte> -> Line<R>)
    requires InStep(c, Some(f), classify) && Compatible(EndOf(f), |g.bytes|, g.sourceId)
    requires r == CursorRead(Some(g), c.cursor, classify) && r.Ok?
    ensures InStep(Absorb(c, r), Some(g), classify)
       <==> (|| Parse(g.bytes[|f.bytes|..], classify) == Corrupt
             || FrontHolds(g.bytes, |f.bytes|, LineEndFrom(g.bytes, |f.bytes|), c.held, classify))
  {
    if Parse(g.bytes[|f.bytes|..], classify).Good? {
      RewrittenParse(g.bytes, |f.bytes|, c.held, classify);
      AppendedInStep(c, f, g, r, classify);
    }
  }

  lemma AppendedInStep<R>(c: Consumer<R>, f: File, g: File, r: Result<Read<R>, Error>, classify: seq<Byte> -> Line<R>)
    requires c.cursor == Some(EndOf(f)) && Compatible(EndOf(f), |g.bytes|, g.sourceId)
    requires r == CursorRead(Some(g), c.cursor, classify) && Parse(g.bytes[|f.bytes|..], classify).Good?
    ensures InStep(Absorb(c, r), Some(g), classify)
       <==> Parse(g.bytes, classify) == Good(c.held + Parse(g.bytes[|f.bytes|..], classify).records)
  {
  }

  /** An unterminated line with something appended: only its end belongs to the rest. */
  lemma OpenLine(p: seq<Byte>, rest: seq<Byte>)
    requires LF !in p && p != []
    ensures FirstLine(p) == p && AfterLine(p) == []
    ensures LineLength(p + rest) == |p| + LineLength(rest) && AfterLine(p + rest) == AfterLine(rest)
  {
    OpenLineLength(p, rest);
    OpenLineLength(p, []);
    assert p + [] == p;
    var n := LineLength(rest);
    if n < |rest| {
      assert (p + rest)[|p| + n + 1..] == rest[n + 1..];
    }
  }

  lemma {:induction false} OpenLineLength(p: seq<Byte>, rest: seq<Byte>)
    requires LF !in p
    ensures LineLength(p + rest) == |p| + LineLength(rest)
  {
    if p == [] {
      assert p + rest == rest;
    } else {
      assert (p + rest)[1..] == p[1..] + rest && (p + rest)[0] == p[0] && p[0] != LF;
      OpenLineLength(p[1..], rest);
    }
  }

  lemma ParseOpenLine<R>(a: seq<Byte>, p: seq<Byte>, rest: seq<Byte>, classify: seq<Byte> -> Line<R>)
    requires AtLineEnd(a) && LF !in p && p != []
    ensures Parse(a + p, classify) == Then(Parse(a, classify), ParseLine(classify(p)))
    ensures Parse(a + (p + rest), classify)
         == Then(Parse(a, classify), Then(ParseLine(classify(FirstLine(p + rest))), Parse(AfterLine(rest), classify)))
  {
    OpenLine(p, rest);
    ParseConcat(a, p, classify);
    ParseConcat(a, p + rest, classify);
    var one := ParseLine(classify(p));
    assert one.Good? ==> one.records + [] == one.records;
  }

  /** The records of the front and of the back, with one line between them or its two halves. */
  lemma HalvesOrWhole<R>(a: seq<R>, p: seq<R>, q: seq<R>, whole: seq<R>, t: seq<R>)
    ensures a + p + (q + t) == a + (whole + t) <==> p + q == whole
  {
    var halves := p + q;
    assert a + p + (q + t) == a + (halves + t);
    if a + (halves + t) == a + (whole + t) {
      assert halves + t == (a + (halves + t))[|a|..] && whole + t == (a + (whole + t))[|a|..];
      SameFront(halves, whole, t);
    }
  }

  lemma HalvesParsed<R>(front: Parsed<R>, half: Parsed<R>, more: Parsed<R>, whole: Parsed<R>, tail: Parsed<R>)
    requires Then(front, half).Good? && Then(more, tail).Good?
    ensures Then(front, Then(whole, tail)) == Good(Then(front, half).records + Then(more, tail).records)
       <==> whole == Then(half, more)
  {
    if whole.Good? {
      HalvesOrWhole(front.records, half.records, more.records, whole.records, tail.records);
    }
  }

  /** The completed line gives just what its two halves give as lines of their own. */
  ghost predicate HalvesMakeWhole<R>(p: seq<Byte>, rest: seq<Byte>, classify: seq<Byte> -> Line<R>) {
    var whole := ParseLine(classify(FirstLine(p + rest)));
    whole == Then(ParseLine(classify(p)), ParseLine(classify(FirstLine(rest))))
  }

  lemma HalfLineParse<R>(held: seq<R>, a: seq<Byte>, p: seq<Byte>, rest: seq<Byte>, all: seq<Byte>,
                         classify: seq<Byte> -> Line<R>)
    requires AtLineEnd(a) && LF !in p && p != [] && rest != [] && all == a + (p + rest)
    requires Parse(a + p, classify) == Good(held) && Parse(rest, classify).Good?
    ensures Parse(all, classify) == Good(held + Parse(rest, classify).records)
       <==> HalvesMakeWhole(p, rest, classify)
  {
    ParseOpenLine(a, p, rest, classify);
    HalvesParsed(Parse(a, classify), ParseLine(classify(p)), ParseLine(classify(FirstLine(rest))),
                 ParseLine(classify(FirstLine(p + rest))), Parse(AfterLine(rest), classify));
  }

  /**
   * A cursor inside a line: what is appended completes the line, but the reader takes its two halves for two
   * lines. The consumer keeps in step exactly if what was appended is
   * not JSON, which makes it read everything again, or the halves give the whole line's records.
   */
  lemma HalfLineAgreesIff<R>(c: Consumer<R>, a: seq<Byte>, p: seq<Byte>, rest: seq<Byte>, f: File, g: File,
                             r: Result<Read<R>, Error>, classify: seq<Byte> -> Line<R>)
    requires AtLineEnd(a) && LF !in p && p != [] && rest != []
    requires f.bytes == a + p && g.bytes == f.bytes + rest && g.sourceId == f.sourceId
    requires InStep(c, Some(f), classify) && r == CursorRead(Some(g), c.cursor, classify) && r.Ok?
    ensures InStep(Absorb(c, r), Some(g), classify)
       <==> Parse(rest, classify) == Corrupt || HalvesMakeWhole(p, rest, classify)
  {
    var c' := Absorb(c, r);
    assert g.bytes[|f.bytes|..] == rest;
    if Parse(rest, classify).Good? {
      InStepOnly(c.held, a, p, rest, f.bytes, g, c', classify);
    }
  }

  lemma Regroup(a: seq<Byte>, p: seq<Byte>, rest: seq<Byte>, before: seq<Byte>, all: seq<Byte>)
    requires before == a + p && all == before + rest
    ensures all == a + (p + rest)
  {
  }

  lemma InStepOnly<R>(held: seq<R>, a: seq<Byte>, p: seq<Byte>, rest: seq<Byte>, before: seq<Byte>, g: File,
                      c: Consumer<R>, classify: seq<Byte> -> Line<R>)
    requires AtLineEnd(a) && LF !in p && p != [] && rest != [] && before == a + p && g.bytes == before + rest
    requires Parse(before, classify) == Good(held) && Parse(rest, classify).Good?
    requires c == Consumer(Some(EndOf(g)), held + Parse(rest, classify).records)
    ensures InStep(c, Some(g), classify) <==> HalvesMakeWhole(p, rest, classify)
  {
    Regroup(a, p, rest, before, g.bytes);
    HalfLineParse(held, a, p, rest, g.bytes, classify);
  }

  lemma {:induction false} EveryLineGood<R>(b: seq<Byte>, classify: seq<Byte> -> Line<R>)
    requires forall line :: classify(line).Record?
    ensures Parse(b, classify).Good?
    decreases |b|
  {
    if b != [] {
      EveryLineGood(AfterLine(b), classify);
    }
  }

  /** Where every line is a record: "1" and then "2" with a newline are read as 1 and 2, not as 12. */
  lemma HalfLineReadWrong(classify: seq<Byte> -> Line<seq<Byte>>, c: Consumer<seq<Byte>>, g: File)
    requires forall line :: classify(line) == Record(line)
    requires c == Absorb(Consumer(None, []), CursorRead(Some(File([49], 0)), None, classify))
    requires g == File([49] + [50, 10], 0)
    ensures CursorRead(Some(g), c.cursor, classify).Ok?
    ensures !InStep(Absorb(c, CursorRead(Some(g), c.cursor, classify)), Some(g), classify)
  {
    var one: seq<Byte>, two: seq<Byte> := [49], [50, 10];
    EveryLineGood(one, classify);
    ReadKeepsInStep(Consumer(None, []), None, Some(File(one, 0)), classify);
    assert g.bytes[1..] == two;
    EveryLineGood(two, classify);
    assert one == [] + one;
    HalfLineAgreesIff(c, [], one, two, File(one, 0), g, CursorRead(Some(g), c.cursor, classify), classify);
  }
}
