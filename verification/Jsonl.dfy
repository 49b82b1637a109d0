/**
 * Reading a file of JSON lines, where a cursor lets a reader go on where the
 * last read ended. The incremental reader is compared with one that always
 * parses the whole file.
 */
module Jsonl {
  import opened Wrappers
  import Utf8

  type Byte = Utf8.Byte

  const LF: Byte := 10
  const CR: Byte := 13

  /** One snapshot of a file; a replaced file has another source id. */
  datatype File = File(bytes: seq<Byte>, sourceId: nat)

  datatype Cursor = Cursor(offset: nat, len: nat, sourceId: nat)

  datatype State = AppendOnly | FullRescan | CorruptFallback

  datatype Error = NoFile | BadEncoding | BadRecord

  datatype Read<R> = Read(state: State, cursor: Cursor, records: seq<R>)

  // ------------------------------------------------------------------------- lines

  /** What one line turns out to be; UTF-8 and JSON are read by a function of their own. */
  datatype Line<R> = Blank | Record(record: R) | BadJson | BadUtf8

  /** Bytes before the first newline. */
  function LineLength(b: seq<Byte>): (n: nat)
    ensures n <= |b| && LF !in b[..n]
    ensures n < |b| ==> b[n] == LF
  {
    if b == [] || b[0] == LF then 0
    else
      assert forall n :: 0 <= n <= |b[1..]| ==> b[..n + 1] == [b[0]] + b[1..][..n];
      1 + LineLength(b[1..])
  }

  function StripCr(b: seq<Byte>): seq<Byte> {
    if b != [] && b[|b| - 1] == CR then b[..|b| - 1] else b
  }

  /** A line without its newline; a carriage return is part of a newline only. */
  function FirstLine(b: seq<Byte>): seq<Byte> {
    var n := LineLength(b);
    if n < |b| then StripCr(b[..n]) else b
  }

  function AfterLine(b: seq<Byte>): (rest: seq<Byte>)
    ensures b != [] ==> |rest| < |b|
  {
    var n := LineLength(b);
    if n < |b| then b[n + 1..] else []
  }

  datatype Parsed<R> = Good(records: seq<R>) | Corrupt | Unreadable

  /** Parsing goes on after good records until the first bad line. */
  function Then<R>(first: Parsed<R>, second: Parsed<R>): Parsed<R> {
    if first.Good? && second.Good? then Good(first.records + second.records)
    else if first.Good? then second
    else first
  }

  function ParseLine<R>(line: Line<R>): Parsed<R> {
    match line
    case Blank => Good([])
    case Record(record) => Good([record])
    case BadJson => Corrupt
    case BadUtf8 => Unreadable
  }

  function Parse<R>(b: seq<Byte>, classify: seq<Byte> -> Line<R>): Parsed<R>
    decreases |b|
  {
    if b == [] then Good([])
    else Then(ParseLine(classify(FirstLine(b))), Parse(AfterLine(b), classify))
  }

  predicate AtLineEnd(b: seq<Byte>) {
    b == [] || b[|b| - 1] == LF
  }

  lemma ThenAssociative<R>(a: Parsed<R>, b: Parsed<R>, c: Parsed<R>)
    ensures Then(Then(a, b), c) == Then(a, Then(b, c))
  {
    if a.Good? && b.Good? && c.Good? {
      assert a.records + b.records + c.records == a.records + (b.records + c.records);
    }
  }

  /** A first line that is complete does not change when more is appended. */
  lemma {:induction false} SameFirstLine(a: seq<Byte>, b: seq<Byte>)
    requires LineLength(a) < |a|
    ensures LineLength(a + b) == LineLength(a)
    ensures FirstLine(a + b) == FirstLine(a) && AfterLine(a + b) == AfterLine(a) + b
  {
    SameLineLength(a, b);
    var n := LineLength(a);
    assert (a + b)[..n] == a[..n];
    assert (a + b)[n + 1..] == a[n + 1..] + b;
  }

  lemma {:induction false} SameLineLength(a: seq<Byte>, b: seq<Byte>)
    requires LineLength(a) < |a|
    ensures LineLength(a + b) == LineLength(a)
  {
    if a[0] != LF {
      SameLineLength(a[1..], b);
      assert (a + b)[1..] == a[1..] + b;
    }
  }

  /** Parsing splits at a line end. */
  lemma {:induction false} ParseConcat<R>(a: seq<Byte>, b: seq<Byte>, classify: seq<Byte> -> Line<R>)
    requires AtLineEnd(a)
    ensures Parse(a + b, classify) == Then(Parse(a, classify), Parse(b, classify))
    decreases |a|
  {
    if a == [] {
      assert a + b == b;
      assert Parse(b, classify).Good? ==> [] + Parse(b, classify).records == Parse(b, classify).records;
    } else {
      SameFirstLine(a, b);
      ParseConcat(AfterLine(a), b, classify);
      ThenAssociative(ParseLine(classify(FirstLine(a))), Parse(AfterLine(a), classify), Parse(b, classify));
    }
  }

  // --------------------------------------------------------------------- the reader

  predicate Compatible(cursor: Cursor, len: nat, sourceId: nat) {
    cursor.offset <= len && cursor.len <= len && cursor.sourceId == sourceId
  }

  function EndOf(file: File): Cursor {
    Cursor(|file.bytes|, |file.bytes|, file.sourceId)
  }

  /** A read of the whole file. */
  function FullRead<R>(file: Option<File>, classify: seq<Byte> -> Line<R>): Result<Read<R>, Error> {
    if file.None? then Err(NoFile)
    else
      match Parse(file.value.bytes, classify)
      case Good(records) => Ok(Read(FullRescan, EndOf(file.value), records))
      case Corrupt => Err(BadRecord)
      case Unreadable => Err(BadEncoding)
  }

  function Fallback<R>(full: Result<Read<R>, Error>): Result<Read<R>, Error> {
    if full.Ok? then Ok(full.value.(state := CorruptFallback)) else full
  }

  /** A read from a cursor: only the new part, unless the file or that part does not fit. */
  function CursorRead<R>(file: Option<File>, previous: Option<Cursor>, classify: seq<Byte> -> Line<R>)
    : Result<Read<R>, Error>
  {
    if file.None? || previous.None? || !Compatible(previous.value, |file.value.bytes|, file.value.sourceId) then
      FullRead(file, classify)
    else
      var offset := previous.value.offset;
      match Parse(file.value.bytes[offset..], classify)
      case Good(records) => Ok(Read(AppendOnly, EndOf(file.value), records))
      case Corrupt => if offset > 0 then Fallback(FullRead(file, classify)) else Err(BadRecord)
      case Unreadable => Err(BadEncoding)
  }

  lemma ThenNothing<R>(p: Parsed<R>)
    ensures Then(Good([]), p) == p && Then(p, Good([])) == p
  {
    if p.Good? {
      assert [] + p.records == p.records && p.records + [] == p.records;
    }
  }

  /** What reading one more line makes of the records read so far. */
  lemma OneLine<R>(records: seq<R>, rest: seq<Byte>, classify: seq<Byte> -> Line<R>)
    requires rest != []
    ensures Then(Good(records), Parse(rest, classify))
         == match classify(FirstLine(rest))
            case Blank => Then(Good(records), Parse(AfterLine(rest), classify))
            case Record(record) => Then(Good(records + [record]), Parse(AfterLine(rest), classify))
            case BadJson => Corrupt
            case BadUtf8 => Unreadable
  {
    ThenAssociative(Good(records), ParseLine(classify(FirstLine(rest))), Parse(AfterLine(rest), classify));
    ThenNothing(Good(records));
  }

  method ReadJsonl<R>(file: Option<File>, previous: Option<Cursor>, classify: seq<Byte> -> Line<R>)
    returns (r: Result<Read<R>, Error>)
    ensures r == CursorRead(file, previous, classify)
    decreases if previous.Some? then 1 else 0
  {
    if file.None? {
      return Err(NoFile);
    }
    var bytes, len := file.value.bytes, |file.value.bytes|;
    var state, startOffset := FullRescan, 0;
    if previous.Some? && Compatible(previous.value, len, file.value.sourceId) {
      state, startOffset := AppendOnly, previous.value.offset;
    }
    var rest := bytes[startOffset..];
    var records: seq<R> := [];
    assert bytes[0..] == bytes;
    ghost var parsed := Parse(bytes[startOffset..], classify);
    ThenNothing(parsed);
    while rest != []
      invariant parsed == Then(Good(records), Parse(rest, classify))
      decreases |rest|
    {
      OneLine(records, rest, classify);
      match classify(FirstLine(rest)) {
        case BadUtf8 => return Err(BadEncoding);
        case Blank =>
        case Record(record) => records := records + [record];
        case BadJson =>
          if startOffset > 0 {
            var full := ReadJsonl(file, None, classify);
            return match full case Ok(read) => Ok(read.(state := CorruptFallback)) case Err(e) => Err(e);
          }
          return Err(BadRecord);
      }
      rest := AfterLine(rest);
    }
    ThenNothing(Good(records));
    return Ok(Read(state, Cursor(len, len, file.value.sourceId), records));
  }
}
