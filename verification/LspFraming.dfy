/**
 * The length-prefixed framing of language-server messages (Language Server
 * Protocol, base protocol, header part and content part): how a payload is
 * written, and how the reader finds payloads in a byte stream.
 */
module LspFraming {
  import opened Wrappers
  import opened Text
  import opened Utf8
  import Decimal

  const USIZE_MAX: nat := 0xFFFF_FFFF_FFFF_FFFF
  const LF: Byte := 10
  const FIELD := "Content-Length:"

  /** An opaque JSON value; `Json` decides which payloads are JSON and what they mean. */
  type Value = nat
  type Json = seq<Byte> -> Option<Value>

  datatype ReadError =
    | BadHeader        // header line is not UTF-8
    | BadLength
    | EndInHeader
    | MissingLength
    | EndInPayload
    | BadJson

  /** None is a clean end of stream. */
  datatype ReadResult = Message(value: Option<Value>) | Failed(error: ReadError)

  // --------------------------------------------------------------------- writing

  function Header(length: nat): string {
    FIELD + " " + Decimal.Print(length) + "\r\n\r\n"
  }

  function Frame(payload: seq<Byte>): seq<Byte> {
    Encode(Header(|payload|)) + payload
  }

  // --------------------------------------------------------------------- reading

  /** Up to and including the first line feed, or all there is. */
  function LineLength(stream: seq<Byte>): (n: nat)
    ensures n <= |stream| && (stream != [] ==> n > 0)
  {
    if stream == [] then 0
    else if stream[0] == LF then 1
    else 1 + LineLength(stream[1..])
  }

  /** `trim_end_matches(['\r', '\n'])`. */
  function TrimLineEnd(s: string): string {
    if s != [] && (s[|s| - 1] == '\r' || s[|s| - 1] == '\n') then TrimLineEnd(s[..|s| - 1]) else s
  }

  /** `str::parse::<usize>`: an optional plus sign, digits, and no overflow. */
  function ParseUsize(s: string): Option<nat> {
    var digits := if s != [] && s[0] == '+' then s[1..] else s;
    match Decimal.Parse(digits)
    case Some(n) => if n <= USIZE_MAX then Some(n) else None
    case None => None
  }

  datatype HeaderLine = Blank | Length(length: nat) | Ignored | Unreadable(error: ReadError)

  function ReadHeaderLine(line: seq<Byte>): HeaderLine {
    match Decode(line)
    case None => Unreadable(BadHeader)
    case Some(text) =>
      var header := TrimLineEnd(text);
      if header == [] then Blank
      else if FIELD <= header then
        match ParseUsize(Trim(header[|FIELD|..]))
        case Some(n) => Length(n)
        case None => Unreadable(BadLength)
      else Ignored
  }

  /** The result of one read, and what is left of the stream. */
  function Read(stream: seq<Byte>, length: Option<nat>, json: Json): (r: (ReadResult, seq<Byte>))
    ensures |r.1| <= |stream|
    ensures r.0.Message? && r.0.value.Some? ==> |r.1| < |stream|
    decreases |stream|
  {
    var n := LineLength(stream);
    var rest := stream[n..];
    if n == 0 then ((if length.None? then Message(None) else Failed(EndInHeader)), rest)
    else
      match ReadHeaderLine(stream[..n])
      case Unreadable(error) => (Failed(error), rest)
      case Ignored => Read(rest, length, json)
      case Length(l) => Read(rest, Some(l), json)
      case Blank => ReadPayload(rest, length, json)
  }

  function ReadPayload(stream: seq<Byte>, length: Option<nat>, json: Json): (r: (ReadResult, seq<Byte>))
    ensures |r.1| <= |stream|
  {
    match length
    case None => (Failed(MissingLength), stream)
    case Some(l) =>
      if |stream| < l then (Failed(EndInPayload), [])
      else
        match json(stream[..l])
        case Some(value) => (Message(Some(value)), stream[l..])
        case None => (Failed(BadJson), stream[l..])
  }

  /** The stream the reader consumes. */
  class Reader {
    var stream: seq<Byte>

    constructor (bytes: seq<Byte>)
      ensures stream == bytes
    {
      stream := bytes;
    }

    method ReadLine() returns (line: seq<Byte>)
      modifies this
      ensures line == old(stream)[..LineLength(old(stream))]
      ensures stream == old(stream)[LineLength(old(stream))..]
    {
      var i := 0;
      ghost var n := LineLength(stream);
      while i < |stream| && stream[i] != LF
        invariant i <= |stream|
        invariant n == i + LineLength(stream[i..])
      {
        assert stream[i..][1..] == stream[i + 1..];
        i := i + 1;
      }
      if i < |stream| {
        i := i + 1;
      }
      line, stream := stream[..i], stream[i..];
    }

    method ReadLspMessage(json: Json) returns (result: ReadResult)
      modifies this
      ensures (result, stream) == Read(old(stream), None, json)
    {
      var contentLength: Option<nat> := None;
      while true
        invariant Read(stream, contentLength, json) == Read(old(stream), None, json)
        decreases |stream|
      {
        var line := ReadLine();
        if |line| == 0 {
          return if contentLength.None? then Message(None) else Failed(EndInHeader);
        }
        match ReadHeaderLine(line) {
          case Unreadable(error) => return Failed(error);
          case Ignored =>
          case Length(l) => contentLength := Some(l);
          case Blank => break;
        }
      }
      if contentLength.None? {
        return Failed(MissingLength);
      }
      var length := contentLength.value;
      if |stream| < length {
        stream := [];
        return Failed(EndInPayload);
      }
      var payload := stream[..length];
      stream := stream[length..];
      var value := json(payload);
      result := if value.Some? then Message(value) else Failed(BadJson);
    }
  }

  predicate IsMessage(r: ReadResult) {
    r.Message? && r.value.Some?
  }

  /** The reader task: all messages up to the end of the stream or the first failure, and which of the two it was. */
  function ReadAll(stream: seq<Byte>, json: Json): (seq<Value>, ReadResult)
    decreases |stream|
  {
    var (result, rest) := Read(stream, None, json);
    if result.Message? && result.value.Some? then
      var (values, end) := ReadAll(rest, json);
      ([result.value.value] + values, end)
    else ([], result)
  }

  // ------------------------------------------------------------- one frame, whole

  lemma {:induction false} LineEndsAtFeed(line: seq<Byte>, rest: seq<Byte>)
    requires LF !in line
    ensures LineLength(line + [LF] + rest) == |line| + 1
  {
    var stream := line + [LF] + rest;
    if line != [] {
      assert stream[1..] == line[1..] + [LF] + rest;
      LineEndsAtFeed(line[1..], rest);
    }
  }

  lemma {:induction false} UnfinishedLine(stream: seq<Byte>)
    requires LF !in stream
    ensures LineLength(stream) == |stream|
  {
    if stream != [] {
      UnfinishedLine(stream[1..]);
    }
  }

  function LengthLine(length: nat): string {
    FIELD + " " + Decimal.Print(length) + "\r"
  }

  const BLANK_LINE := "\r"

  lemma LineEncoded(line: string)
    requires IsAscii(line) && '\n' !in line
    ensures Encode(line + "\n") == Encode(line) + [LF] && LF !in Encode(line)
  {
    EncodeConcat(line, "\n");
    EncodeAscii(line);
  }

  lemma LengthLineAscii(length: nat)
    ensures IsAscii(LengthLine(length)) && '\n' !in LengthLine(length)
  {
    var digits := Decimal.Print(length);
    forall i | 0 <= i < |digits|
      ensures digits[i] as nat < 0x80 && digits[i] != '\n'
    {
      assert Decimal.IsDigit(digits[i]);
    }
  }

  /** The header is two lines: the length and an empty one. */
  lemma HeaderLines(length: nat)
    ensures Encode(Header(length)) == Encode(LengthLine(length)) + [LF] + Encode(BLANK_LINE) + [LF]
    ensures LF !in Encode(LengthLine(length)) && LF !in Encode(BLANK_LINE)
  {
    var line := LengthLine(length);
    assert Header(length) == (line + "\n") + (BLANK_LINE + "\n");
    EncodeConcat(line + "\n", BLANK_LINE + "\n");
    LengthLineAscii(length);
    LineEncoded(line);
    LineEncoded(BLANK_LINE);
  }

  lemma TrimLineEndOne(s: string, c: char)
    requires c == '\r' || c == '\n'
    ensures TrimLineEnd(s + [c]) == TrimLineEnd(s)
  {
    assert (s + [c])[..|s|] == s;
  }

  lemma LengthLineTrimmed(digits: string, header: string)
    requires digits != [] && forall i :: 0 <= i < |digits| ==> Decimal.IsDigit(digits[i])
    requires header == FIELD + " " + digits
    ensures TrimLineEnd((header + "\r") + "\n") == header
    ensures Trim(" " + digits) == digits
  {
    TrimLineEndOne(header + "\r", '\n');
    TrimLineEndOne(header, '\r');
    assert Decimal.IsDigit(digits[|digits| - 1]) && Decimal.IsDigit(digits[0]);
    assert header[|header| - 1] == digits[|digits| - 1];
    BlankThenTrimmed(digits);
  }

  lemma BlankThenTrimmed(digits: string)
    requires digits != [] && Trimmed(digits)
    ensures Trim(" " + digits) == digits
  {
    assert (" " + digits)[1..] == digits;
    assert LeadingBlanks(digits) == 0;
    assert LeadingBlanks(" " + digits) == 1;
  }

  lemma LengthLineRead(length: nat)
    requires length <= USIZE_MAX
    ensures ReadHeaderLine(Encode(LengthLine(length)) + [LF]) == Length(length)
  {
    var digits := Decimal.Print(length);
    var header := FIELD + " " + digits;
    LengthLineAscii(length);
    LineEncoded(LengthLine(length));
    DecodeEncode(LengthLine(length) + "\n");
    LengthLineTrimmed(digits, header);
    assert LengthLine(length) == header + "\r";
    assert FIELD <= header && header[|FIELD|..] == " " + digits;
    Decimal.ParsePrint(length);
    assert Decimal.IsDigit(digits[0]);
  }

  lemma BlankLineRead()
    ensures ReadHeaderLine(Encode(BLANK_LINE) + [LF]) == Blank
    ensures ReadHeaderLine(Encode(BLANK_LINE)) == Blank
    ensures |Encode(BLANK_LINE)| == 1
  {
    LineEncoded(BLANK_LINE);
    EncodeAscii(BLANK_LINE);
    DecodeEncode(BLANK_LINE + "\n");
    DecodeEncode(BLANK_LINE);
    assert (BLANK_LINE + "\n")[..1] == BLANK_LINE;
    assert BLANK_LINE[..0] == [];
    assert TrimLineEnd(BLANK_LINE) == [];
  }

  lemma ReadPastLine(line: seq<Byte>, after: seq<Byte>, length: Option<nat>, json: Json)
    requires LF !in line
    ensures Read(line + [LF] + after, length, json)
         == match ReadHeaderLine(line + [LF])
            case Unreadable(error) => (Failed(error), after)
            case Ignored => Read(after, length, json)
            case Length(l) => Read(after, Some(l), json)
            case Blank => ReadPayload(after, length, json)
  {
    var stream := line + [LF] + after;
    LineEndsAtFeed(line, after);
    assert stream[..|line| + 1] == line + [LF] && stream[|line| + 1..] == after;
  }

  lemma TwoLines(first: seq<Byte>, second: seq<Byte>, tail: seq<Byte>)
    ensures first + [LF] + second + [LF] + tail == first + [LF] + (second + [LF] + tail)
  {
  }

  lemma ReadTwoLines(first: seq<Byte>, second: seq<Byte>, tail: seq<Byte>, length: nat, json: Json)
    requires LF !in first && LF !in second
    requires ReadHeaderLine(first + [LF]) == Length(length) && ReadHeaderLine(second + [LF]) == Blank
    ensures Read(first + [LF] + second + [LF] + tail, None, json) == ReadPayload(tail, Some(length), json)
  {
    var after := second + [LF] + tail;
    ReadPastLine(first, after, None, json);
    ReadPastLine(second, tail, Some(length), json);
    TwoLines(first, second, tail);
  }

  lemma ReadHeader(length: nat, tail: seq<Byte>, json: Json)
    requires length <= USIZE_MAX
    ensures Read(Encode(Header(length)) + tail, None, json) == ReadPayload(tail, Some(length), json)
  {
    HeaderLines(length);
    LengthLineRead(length);
    BlankLineRead();
    ReadTwoLines(Encode(LengthLine(length)), Encode(BLANK_LINE), tail, length, json);
  }

  /** Reading a frame gives back its payload and leaves what follows it. */
  lemma ReadFrame(payload: seq<Byte>, rest: seq<Byte>, json: Json)
    requires |payload| <= USIZE_MAX && json(payload).Some?
    ensures Read(Frame(payload) + rest, None, json) == (Message(json(payload)), rest)
  {
    assert Frame(payload) + rest == Encode(Header(|payload|)) + (payload + rest);
    ReadHeader(|payload|, payload + rest, json);
    assert (payload + rest)[..|payload|] == payload && (payload + rest)[|payload|..] == rest;
  }

  // --------------------------------------------------------------- one frame, cut

  lemma CutInBlankLine(length: nat, part: seq<Byte>, json: Json)
    requires 0 < length <= USIZE_MAX && (part == [] || part == Encode(BLANK_LINE))
    ensures !IsMessage(Read(Encode(LengthLine(length)) + [LF] + part, None, json).0)
  {
    HeaderLines(length);
    LengthLineRead(length);
    ReadPastLine(Encode(LengthLine(length)), part, None, json);
    if part != [] {
      BlankLineRead();
      UnfinishedLine(part);
      assert part[..|part|] == part && part[|part|..] == [];
    }
  }

  lemma CutInFirstLine(part: seq<Byte>, json: Json)
    requires LF !in part
    ensures !IsMessage(Read(part, None, json).0)
  {
    UnfinishedLine(part);
    assert part[|part|..] == [];
  }

  /** Where a cut falls in a frame: in its first line, in the blank line, or in the payload. */
  lemma CutPlaces(first: seq<Byte>, blank: seq<Byte>, header: seq<Byte>, payload: seq<Byte>, cut: nat)
    requires header == first + [LF] + blank + [LF] && |blank| == 1 && cut <= |header| + |payload|
    ensures cut <= |first| ==> (header + payload)[..cut] == first[..cut]
    ensures |first| < cut < |header| ==>
              var tail := blank[..cut - |first| - 1];
              (header + payload)[..cut] == first + [LF] + tail && (tail == [] || tail == blank)
    ensures cut >= |header| ==> (header + payload)[..cut] == header + payload[..cut - |header|]
  {
  }

  /** A frame cut anywhere yields no message at all. */
  lemma ReadCutFrame(payload: seq<Byte>, cut: nat, json: Json)
    requires 0 < |payload| <= USIZE_MAX && cut < |Frame(payload)|
    ensures !IsMessage(Read(Frame(payload)[..cut], None, json).0)
  {
    var part := Frame(payload)[..cut];
    var first, header := Encode(LengthLine(|payload|)), Encode(Header(|payload|));
    HeaderLines(|payload|);
    BlankLineRead();
    CutPlaces(first, Encode(BLANK_LINE), header, payload, cut);
    if cut <= |first| {
      CutInFirstLine(part, json);
    } else if cut < |header| {
      CutInBlankLine(|payload|, Encode(BLANK_LINE)[..cut - |first| - 1], json);
    } else {
      ReadHeader(|payload|, payload[..cut - |header|], json);
    }
  }

  // ----------------------------------------------------------------- whole streams

  function Wire(payloads: seq<seq<Byte>>): seq<Byte> {
    if payloads == [] then [] else Frame(payloads[0]) + Wire(payloads[1..])
  }

  function Values(payloads: seq<seq<Byte>>, json: Json): seq<Value>
    requires forall i :: 0 <= i < |payloads| ==> json(payloads[i]).Some?
  {
    if payloads == [] then [] else [json(payloads[0]).value] + Values(payloads[1..], json)
  }

  ghost predicate Sendable(payloads: seq<seq<Byte>>, json: Json) {
    && (forall i :: 0 <= i < |payloads| ==> |payloads[i]| <= USIZE_MAX && json(payloads[i]).Some?)
    && json([]).None? // the empty payload is not JSON
  }

  /** Any list of written frames reads back as exactly those messages in order, then a clean end. */
  lemma {:induction false} StreamRoundTrip(payloads: seq<seq<Byte>>, json: Json)
    requires Sendable(payloads, json)
    ensures ReadAll(Wire(payloads), json) == (Values(payloads, json), Message(None))
  {
    if payloads != [] {
      ReadFrame(payloads[0], Wire(payloads[1..]), json);
      StreamRoundTrip(payloads[1..], json);
    }
  }

  lemma ReadAllFrame(payload: seq<Byte>, part: seq<Byte>, json: Json)
    requires |payload| <= USIZE_MAX && json(payload).Some?
    ensures ReadAll(Frame(payload) + part, json).0 == [json(payload).value] + ReadAll(part, json).0
    ensures ReadAll(Frame(payload) + part, json).1 == ReadAll(part, json).1
  {
    ReadFrame(payload, part, json);
  }

  /** The cut stream after its first whole frame, once the rest is known to be read right. */
  lemma FirstFrameWhole(payloads: seq<seq<Byte>>, k: nat, part: seq<Byte>, json: Json)
    requires Sendable(payloads, json) && k < |payloads|
    requires ReadAll(part, json).0 == Values(payloads[1..][..k], json) && !IsMessage(ReadAll(part, json).1)
    ensures ReadAll(Frame(payloads[0]) + part, json).0 == Values(payloads[..k + 1], json)
    ensures !IsMessage(ReadAll(Frame(payloads[0]) + part, json).1)
  {
    ReadAllFrame(payloads[0], part, json);
    WholeFramesGrow(payloads, k, json);
  }

  lemma CutAfterFrame(frame: seq<Byte>, rest: seq<Byte>, cut: nat)
    requires |frame| <= cut <= |frame + rest|
    ensures (frame + rest)[..cut] == frame + rest[..cut - |frame|]
  {
  }

  /**
   * A stream cut anywhere reads as exactly the messages that lie wholly before the cut;
   * nothing is added and nothing altered.
   */
  lemma {:induction false} CutStreamReadsWholeFrames(payloads: seq<seq<Byte>>, cut: nat, json: Json) returns (k: nat)
    requires Sendable(payloads, json) && cut <= |Wire(payloads)|
    ensures k <= |payloads| && |Wire(payloads[..k])| <= cut
    ensures k < |payloads| ==> cut < |Wire(payloads[..k + 1])|
    ensures ReadAll(Wire(payloads)[..cut], json).0 == Values(payloads[..k], json)
    ensures !IsMessage(ReadAll(Wire(payloads)[..cut], json).1)
  {
    if payloads == [] {
      k := 0;
      assert Wire(payloads)[..cut] == [];
    } else if cut < |Frame(payloads[0])| {
      k := 0;
      CutFirstFrame(payloads, cut, json);
    } else {
      var frame, later := Frame(payloads[0]), payloads[1..];
      var part := Wire(later)[..cut - |frame|];
      CutAfterFrame(frame, Wire(later), cut);
      k := CutStreamReadsWholeFrames(later, cut - |frame|, json);
      FirstFrameWhole(payloads, k, part, json);
      WholeFramesGrow(payloads, k, json);
      k := k + 1;
    }
  }

  lemma CutFirstFrame(payloads: seq<seq<Byte>>, cut: nat, json: Json)
    requires Sendable(payloads, json) && payloads != [] && cut < |Frame(payloads[0])|
    ensures cut < |Wire(payloads[..1])| && cut <= |Wire(payloads)|
    ensures ReadAll(Wire(payloads)[..cut], json).0 == [] && !IsMessage(ReadAll(Wire(payloads)[..cut], json).1)
  {
    var part := Frame(payloads[0])[..cut];
    assert Wire(payloads)[..cut] == part;
    ReadCutFrame(payloads[0], cut, json);
    WireFirst(payloads, 1);
  }

  lemma WholeFramesGrow(payloads: seq<seq<Byte>>, k: nat, json: Json)
    requires Sendable(payloads, json) && k < |payloads|
    ensures |Wire(payloads[..k + 1])| == |Frame(payloads[0])| + |Wire(payloads[1..][..k])|
    ensures k + 1 < |payloads| ==> |Wire(payloads[..k + 2])| == |Frame(payloads[0])| + |Wire(payloads[1..][..k + 1])|
    ensures Values(payloads[..k + 1], json) == [json(payloads[0]).value] + Values(payloads[1..][..k], json)
  {
    WireFirst(payloads, k + 1);
    if k + 1 < |payloads| {
      WireFirst(payloads, k + 2);
    }
    assert payloads[..k + 1][1..] == payloads[1..][..k];
  }

  lemma WireFirst(payloads: seq<seq<Byte>>, k: nat)
    requires 0 < k <= |payloads|
    ensures Wire(payloads[..k]) == Frame(payloads[0]) + Wire(payloads[1..][..k - 1])
  {
    assert payloads[..k][1..] == payloads[1..][..k - 1];
  }
}
