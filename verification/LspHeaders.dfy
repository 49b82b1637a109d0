/**
 * What else a header may hold (Language Server Protocol, base protocol, header
 * part): other fields are passed over wherever they stand, the last length
 * counts, and a header without a usable length fails.
 */
module LspHeaders {
  import opened Wrappers
  import opened Text
  import opened Utf8
  import opened LspFraming
  import Decimal

  /** One line of text that is no length field: something before its end, and not that name in front. */
  ghost predicate OtherField(field: string) {
    && field != "" && '\n' !in field && field[|field| - 1] != '\r'
    && !("Content-Length:" <= field)
  }

  function Line(text: string): seq<Byte> {
    Encode(text + "\r\n")
  }

  function AllFields(fields: seq<string>): seq<Byte> {
    if fields == [] then [] else Line(fields[0]) + AllFields(fields[1..])
  }

  lemma {:induction false} NoFeedEncoded(s: string)
    requires '\n' !in s
    ensures LF !in Encode(s)
  {
    if s != "" {
      NoFeedEncoded(s[1..]);
      NoFeedInChar(s[0]);
    }
  }

  lemma NoFeedInChar(c: char)
    requires c != '\n'
    ensures LF !in EncodeChar(c)
  {
    assert c as nat != 10;
  }

  /** A line as the reader meets it. */
  lemma LineParts(text: string)
    requires '\n' !in text
    ensures Line(text) == Encode(text + "\r") + [LF] && LF !in Encode(text + "\r")
    ensures Decode(Line(text)) == Some(text + "\r" + "\n")
  {
    assert text + "\r\n" == (text + "\r") + "\n";
    EncodeConcat(text + "\r", "\n");
    EncodeAscii("\n");
    NoFeedEncoded(text + "\r");
    DecodeEncode(text + "\r\n");
  }

  lemma TrimmedLine(text: string)
    requires text == "" || (text[|text| - 1] != '\r' && text[|text| - 1] != '\n')
    ensures TrimLineEnd(text + "\r" + "\n") == text
  {
    TrimLineEndOne(text + "\r", '\n');
    TrimLineEndOne(text, '\r');
  }

  /** Reading goes on behind a line in the way its text says. */
  lemma ReadLineOf(text: string, rest: seq<Byte>, length: Option<nat>, json: Json)
    requires '\n' !in text
    ensures Read(Line(text) + rest, length, json)
         == match ReadHeaderLine(Line(text))
            case Unreadable(error) => (Failed(error), rest)
            case Ignored => Read(rest, length, json)
            case Length(l) => Read(rest, Some(l), json)
            case Blank => ReadPayload(rest, length, json)
  {
    LineParts(text);
    ReadPastLine(Encode(text + "\r"), rest, length, json);
  }

  lemma HeaderOf(text: string)
    requires '\n' !in text && (text == "" || text[|text| - 1] != '\r')
    ensures ReadHeaderLine(Line(text))
         == if text == "" then Blank
            else if FIELD <= text then
              match ParseUsize(Trim(text[|FIELD|..]))
              case Some(n) => Length(n)
              case None => Unreadable(BadLength)
            else Ignored
  {
    LineParts(text);
    TrimmedLine(text);
  }

  /** Another field makes no difference. */
  lemma FieldPassedOver(field: string, rest: seq<Byte>, length: Option<nat>, json: Json)
    requires OtherField(field)
    ensures Read(Line(field) + rest, length, json) == Read(rest, length, json)
  {
    ReadLineOf(field, rest, length, json);
    HeaderOf(field);
  }

  lemma {:induction false} FieldsPassedOver(fields: seq<string>, rest: seq<Byte>, length: Option<nat>, json: Json)
    requires forall i :: 0 <= i < |fields| ==> OtherField(fields[i])
    ensures Read(AllFields(fields) + rest, length, json) == Read(rest, length, json)
  {
    if fields == [] {
      assert AllFields(fields) + rest == rest;
    } else {
      var more := AllFields(fields[1..]) + rest;
      assert AllFields(fields) + rest == Line(fields[0]) + more;
      FieldPassedOver(fields[0], more, length, json);
      FieldsPassedOver(fields[1..], rest, length, json);
    }
  }

  lemma LengthText(sign: string, digits: string, number: string, text: string)
    requires digits != "" && forall i :: 0 <= i < |digits| ==> Decimal.IsDigit(digits[i])
    requires (sign == "" || sign == "+") && number == sign + digits && text == FIELD + " " + number
    ensures '\n' !in text && text[|text| - 1] != '\r' && FIELD <= text && Trim(text[|FIELD|..]) == number
  {
    assert text[|text| - 1] == number[|number| - 1] == digits[|digits| - 1];
    assert text[|FIELD|..] == " " + number;
    assert Decimal.IsDigit(digits[0]) && Decimal.IsDigit(digits[|digits| - 1]);
    BlankThenTrimmed(number);
  }

  lemma NumberParsed(n: nat, sign: string, number: string)
    requires (sign == "" || sign == "+") && number == sign + Decimal.Print(n)
    ensures ParseUsize(number) == if n <= USIZE_MAX then Some(n) else None
  {
    Decimal.ParsePrint(n);
    var digits := Decimal.Print(n);
    assert Decimal.IsDigit(digits[0]);
    assert sign == "+" ==> number[1..] == digits;
    assert sign == "" ==> number == digits;
  }

  /** A length counts whatever length was read before it; one that is too large for the machine is an error. */
  lemma LengthCounts(n: nat, sign: string, rest: seq<Byte>, length: Option<nat>, json: Json)
    requires sign == "" || sign == "+"
    ensures Read(Line("Content-Length: " + (sign + Decimal.Print(n))) + rest, length, json)
         == if n <= USIZE_MAX then Read(rest, Some(n), json) else (Failed(BadLength), rest)
  {
    var number := sign + Decimal.Print(n);
    var text := "Content-Length: " + number;
    assert text == FIELD + " " + number;
    LengthText(sign, Decimal.Print(n), number, text);
    ReadLineOf(text, rest, length, json);
    HeaderOf(text);
    NumberParsed(n, sign, number);
  }

  /** The empty line ends the header; without a length that is an error. */
  lemma BlankEnds(rest: seq<Byte>, length: Option<nat>, json: Json)
    ensures Read(Line("") + rest, length, json) == ReadPayload(rest, length, json)
  {
    ReadLineOf("", rest, length, json);
    HeaderOf("");
  }

  /** A length that is not a number is an error: something in it is neither a digit nor a plus sign in front. */
  lemma BadLengthFails(value: string, rest: seq<Byte>, length: Option<nat>, json: Json, i: nat)
    requires '\n' !in value && Trimmed(value) && i < |value|
    requires !Decimal.IsDigit(value[i]) && (i == 0 ==> value[i] != '+')
    ensures Read(Line("Content-Length:" + value) + rest, length, json) == (Failed(BadLength), rest)
  {
    var text := FIELD + value;
    assert text[|FIELD|..] == value && text[|text| - 1] == value[|value| - 1];
    TrimTrimmed(value);
    ReadLineOf(text, rest, length, json);
    HeaderOf(text);
    if value[0] == '+' {
      assert value[1..][i - 1] == value[i];
      OnlyDigitsParse(value[1..], i - 1);
    } else {
      OnlyDigitsParse(value, i);
    }
  }

  lemma {:induction false} OnlyDigitsParse(s: string, i: nat)
    requires i < |s| && !Decimal.IsDigit(s[i])
    ensures Decimal.Parse(s).None?
  {
    if i < |s| - 1 {
      OnlyDigitsParse(s[..|s| - 1], i);
    }
  }

  function Headed(before: seq<string>, n: nat, after: seq<string>, body: seq<Byte>): seq<Byte> {
    AllFields(before) + (Line("Content-Length: " + Decimal.Print(n)) + (AllFields(after) + (Line("") + body)))
  }

  /** A frame with any other fields in its header reads back like one with the length alone. */
  lemma ReadHeadedFrame(before: seq<string>, after: seq<string>, payload: seq<Byte>, rest: seq<Byte>, json: Json)
    requires forall i :: 0 <= i < |before| ==> OtherField(before[i])
    requires forall i :: 0 <= i < |after| ==> OtherField(after[i])
    requires |payload| <= USIZE_MAX && json(payload).Some?
    ensures Read(Headed(before, |payload|, after, payload + rest), None, json) == (Message(json(payload)), rest)
  {
    var n, body := |payload|, payload + rest;
    var end := Line("") + body;
    FieldsPassedOver(before, Line("Content-Length: " + Decimal.Print(n)) + (AllFields(after) + end), None, json);
    assert "" + Decimal.Print(n) == Decimal.Print(n);
    LengthCounts(n, "", AllFields(after) + end, None, json);
    FieldsPassedOver(after, end, Some(n), json);
    BlankEnds(body, Some(n), json);
    assert body[..n] == payload && body[n..] == rest;
  }

  /** And without a length it is an error. */
  lemma NoLengthFails(fields: seq<string>, rest: seq<Byte>, json: Json)
    requires forall i :: 0 <= i < |fields| ==> OtherField(fields[i])
    ensures Read(AllFields(fields) + (Line("") + rest), None, json) == (Failed(MissingLength), rest)
  {
    FieldsPassedOver(fields, Line("") + rest, None, json);
    BlankEnds(rest, None, json);
  }
}
