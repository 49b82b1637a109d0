/**
 * Reading a whole JSONL file, told by its lines: each line is read once, as it
 * stands without its newline, up to the first one that cannot be read.
 */
module JsonlTexts {
  import opened Wrappers
  import opened Jsonl

  /** A line and how it ends: with a line feed, with a carriage return and a line feed. */
  datatype Ending = Feed | ReturnFeed

  type TextLine = (seq<Byte>, Ending)

  function EndOfLine(e: Ending): seq<Byte> {
    match e
    case Feed => [LF]
    case ReturnFeed => [CR, LF]
  }

  /** A line holds no line feed; one that ends with a carriage return of its own ends with two bytes. */
  ghost predicate IsLine(l: TextLine) {
    LF !in l.0 && (l.1.Feed? && l.0 != [] ==> l.0[|l.0| - 1] != CR)
  }

  ghost predicate AreLines(lines: seq<TextLine>) {
    forall i :: 0 <= i < |lines| ==> IsLine(lines[i])
  }

  function Joined(lines: seq<TextLine>): seq<Byte> {
    if lines == [] then [] else lines[0].0 + EndOfLine(lines[0].1) + Joined(lines[1..])
  }

  // ----------------------------------------------------------- what a reader is to find

  predicate IsGood<R>(line: Line<R>) {
    line.Blank? || line.Record?
  }

  /** The records of these lines, in order; blank lines have none. */
  function RecordsOf<R>(lines: seq<Line<R>>): seq<R> {
    if lines == [] then []
    else (match lines[0] case Record(record) => [record] case _ => []) + RecordsOf(lines[1..])
  }

  /** Line `i` is the first that is neither blank nor a record. */
  ghost predicate FirstBad<R>(lines: seq<Line<R>>, i: nat) {
    i < |lines| && !IsGood(lines[i]) && forall j :: 0 <= j < i ==> IsGood(lines[j])
  }

  ghost predicate AllGood<R>(lines: seq<Line<R>>) {
    forall i :: 0 <= i < |lines| ==> IsGood(lines[i])
  }

  function Classified<R>(lines: seq<TextLine>, classify: seq<Byte> -> Line<R>): seq<Line<R>> {
    seq(|lines|, i requires 0 <= i < |lines| => classify(lines[i].0))
  }

  // ---------------------------------------------------------------------------- proofs

  lemma {:induction false} LengthToFeed(line: seq<Byte>, rest: seq<Byte>)
    requires LF !in line
    ensures LineLength(line + [LF] + rest) == |line|
  {
    var b := line + [LF] + rest;
    if line != [] {
      assert b[1..] == line[1..] + [LF] + rest;
      LengthToFeed(line[1..], rest);
    }
  }

  lemma FirstOf(l: TextLine, rest: seq<Byte>, b: seq<Byte>)
    requires IsLine(l) && b == l.0 + EndOfLine(l.1) + rest
    ensures FirstLine(b) == l.0 && AfterLine(b) == rest && b != []
  {
    var body := if l.1.Feed? then l.0 else l.0 + [CR];
    assert b == body + [LF] + rest;
    LengthToFeed(body, rest);
    assert b[..|body|] == body && b[|body| + 1..] == rest;
    assert l.1.ReturnFeed? ==> body[..|body| - 1] == l.0;
  }

  /** The parse of lines: their records if all are good, or the complaint about line `bad`, the first that is not. */
  ghost predicate Holds<R>(lines: seq<Line<R>>, p: Parsed<R>, bad: nat) {
    if p.Good? then AllGood(lines) && p.records == RecordsOf(lines)
    else FirstBad(lines, bad) && p == if lines[bad].BadJson? then Corrupt else Unreadable
  }

  lemma OneMoreGood<R>(first: Line<R>, rest: seq<Line<R>>, p: Parsed<R>, bad: nat)
    requires Holds(rest, p, bad) && IsGood(first)
    ensures Holds([first] + rest, Then(ParseLine(first), p), bad + 1)
  {
    var lines := [first] + rest;
    assert lines[1..] == rest;
    assert forall i :: 1 <= i < |lines| ==> lines[i] == rest[i - 1];
    if p.Good? && first.Blank? {
      assert [] + p.records == p.records;
    }
  }

  lemma BadFirst<R>(first: Line<R>, rest: seq<Line<R>>, p: Parsed<R>)
    requires !IsGood(first)
    ensures Holds([first] + rest, Then(ParseLine(first), p), 0)
  {
  }

  lemma OneMoreHeld<R>(first: Line<R>, rest: seq<Line<R>>, p: Parsed<R>, bad: nat) returns (bad': nat)
    requires Holds(rest, p, bad)
    ensures Holds([first] + rest, Then(ParseLine(first), p), bad')
  {
    if IsGood(first) {
      OneMoreGood(first, rest, p, bad);
      bad' := bad + 1;
    } else {
      BadFirst(first, rest, p);
      bad' := 0;
    }
  }

  /** The lines of a text, with the unterminated last one if there is one. */
  function LinesIn<R>(lines: seq<TextLine>, last: seq<Byte>, classify: seq<Byte> -> Line<R>): seq<Line<R>> {
    Classified(lines, classify) + if last == [] then [] else [classify(last)]
  }

  lemma LinesInFrom<R>(lines: seq<TextLine>, last: seq<Byte>, classify: seq<Byte> -> Line<R>)
    requires lines != []
    ensures LinesIn(lines, last, classify) == [classify(lines[0].0)] + LinesIn(lines[1..], last, classify)
  {
  }

  lemma LastLineAlone<R>(last: seq<Byte>, classify: seq<Byte> -> Line<R>)
    requires LF !in last && last != []
    ensures Parse(last, classify) == Then(ParseLine(classify(last)), Good([]))
  {
    NoFeed(last);
  }

  lemma {:induction false} NoFeed(b: seq<Byte>)
    requires LF !in b
    ensures LineLength(b) == |b|
  {
    if b != [] {
      NoFeed(b[1..]);
    }
  }

  lemma {:induction false} TextParsed<R>(lines: seq<TextLine>, last: seq<Byte>, b: seq<Byte>,
                                         classify: seq<Byte> -> Line<R>) returns (bad: nat)
    requires AreLines(lines) && LF !in last && b == Joined(lines) + last
    ensures Holds(LinesIn(lines, last, classify), Parse(b, classify), bad)
    decreases |lines|
  {
    if lines != [] {
      var rest := Joined(lines[1..]) + last;
      FirstOf(lines[0], rest, b);
      bad := TextParsed(lines[1..], last, rest, classify);
      LinesInFrom(lines, last, classify);
      bad := OneMoreHeld(classify(lines[0].0), LinesIn(lines[1..], last, classify), Parse(rest, classify), bad);
    } else if last != [] {
      assert b == last;
      LastLineAlone(last, classify);
      bad := OneMoreHeld(classify(last), [], Good([]), 0);
      assert LinesIn(lines, last, classify) == [classify(last)] + [];
    } else {
      assert b == [] && LinesIn(lines, last, classify) == [];
      bad := 0;
    }
  }

  /** A full read of lines: all their records, blank ones skipped, or the error of the first that cannot be read. */
  ghost predicate ReadsLines<R>(r: Result<Read<R>, Error>, f: File, all: seq<Line<R>>) {
    && (AllGood(all) ==> r == Ok(Read(FullRescan, Cursor(|f.bytes|, |f.bytes|, f.sourceId), RecordsOf(all))))
    && (forall bad: nat :: FirstBad(all, bad) ==> r == Err(if all[bad].BadJson? then BadRecord else BadEncoding))
  }

  /**
   * Read without a cursor, a text gives in order what its lines hold: each without its line feed and a carriage
   * return in front of it, and an unterminated last one, if there is one, as it stands.
   */
  lemma TextRead<R>(lines: seq<TextLine>, last: seq<Byte>, f: File, classify: seq<Byte> -> Line<R>)
    requires AreLines(lines) && LF !in last && f.bytes == Joined(lines) + last
    ensures ReadsLines(CursorRead(Some(f), None, classify), f, LinesIn(lines, last, classify))
  {
    var all := LinesIn(lines, last, classify);
    var bad := TextParsed(lines, last, f.bytes, classify);
    ReadAsHeld(f, all, Parse(f.bytes, classify), bad, CursorRead(Some(f), None, classify));
  }

  lemma ReadAsHeld<R>(f: File, all: seq<Line<R>>, p: Parsed<R>, bad: nat, r: Result<Read<R>, Error>)
    requires Holds(all, p, bad)
    requires r == match p
                  case Good(records) => Ok(Read(FullRescan, EndOf(f), records))
                  case Corrupt => Err(BadRecord)
                  case Unreadable => Err(BadEncoding)
    ensures ReadsLines(r, f, all)
  {
    forall i: nat | FirstBad(all, i)
      ensures !p.Good? && i == bad
    {
    }
  }

  /** And one of the two is always the case. */
  lemma GoodOrFirstBad<R>(lines: seq<Line<R>>) returns (bad: nat)
    ensures AllGood(lines) <==> !FirstBad(lines, bad)
  {
    bad := 0;
    while bad < |lines| && IsGood(lines[bad])
      invariant bad <= |lines| && forall j :: 0 <= j < bad ==> IsGood(lines[j])
    {
      bad := bad + 1;
    }
  }
}
