/**
 * Which texts the YAML scan takes for keys, told by how such lines are written:
 * spaces, perhaps a list dash, the key with or without quotes, a colon, a value.
 */
module YamlTexts {
  import opened Wrappers
  import opened Text
  import opened YamlKeys
  import Utf8

  function Spaces(n: nat): (s: string)
    ensures |s| == n && forall i :: 0 <= i < n ==> s[i] == ' '
  {
    if n == 0 then "" else " " + Spaces(n - 1)
  }

  ghost predicate KeyText(key: string) {
    && key != ""
    && forall c :: c in key ==>
         'a' <= c <= 'z' || 'A' <= c <= 'Z' || '0' <= c <= '9' || c == '_' || c == '-' || c == '.'
  }

  ghost predicate Quote(quote: string) {
    quote == "" || quote == "\"" || quote == "'"
  }

  datatype TextLine =
    | KeyLineText(spaces: nat, dash: bool, quote: string, key: string, gap: nat, value: string)
    | Comment(spaces: nat, dash: bool, text: string)
    | Plain(spaces: nat, text: string) // no colon

  function Dash(dash: bool): string {
    if dash then "- " else ""
  }

  function Written(l: TextLine): string {
    match l
    case KeyLineText(n, dash, quote, key, gap, value) =>
      Spaces(n) + (Dash(dash) + (quote + key + quote + ":" + (Spaces(gap) + value)))
    case Comment(n, dash, text) => Spaces(n) + (Dash(dash) + ("#" + text))
    case Plain(n, text) => Spaces(n) + text
  }

  ghost predicate WellWritten(l: TextLine) {
    match l
    case KeyLineText(_, _, quote, key, _, value) =>
      Quote(quote) && KeyText(key) && Trimmed(value) && '\n' !in value
    case Comment(_, _, text) => '\n' !in text && '\r' !in text
    case Plain(_, text) => '\n' !in text && ':' !in text && (text != "" ==> text[0] != ' ')
  }

  function Indent(l: TextLine): nat {
    l.spaces + if !l.Plain? && l.dash then 2 else 0
  }

  /** A key that opens a block: its value is missing, a comment, or stands on the lines below. */
  predicate Opens(value: string) {
    value == "" || value[0] == '#' || value == "|" || value == ">"
  }

  // ---------------------------------------------------------------------- one line

  lemma {:induction false} LeadingSpacesOf(n: nat, rest: string)
    requires rest == "" || rest[0] != ' '
    ensures LeadingSpaces(Spaces(n) + rest) == n
  {
    if n > 0 {
      assert (Spaces(n) + rest)[1..] == Spaces(n - 1) + rest;
      LeadingSpacesOf(n - 1, rest);
    } else {
      assert Spaces(0) + rest == rest;
    }
  }

  lemma {:induction false} KeyCharsAre(key: string)
    ensures AllKeyChars(key) <==> forall i :: 0 <= i < |key| ==> IsKeyChar(key[i])
  {
    if key != "" {
      KeyCharsAre(key[1..]);
      assert forall i :: 1 <= i < |key| ==> key[1..][i - 1] == key[i];
    }
  }

  lemma {:induction false} FirstIndex(a: string, c: char, b: string)
    requires c !in a
    ensures IndexOf(a + [c] + b, c) == Some(|a|)
  {
    if a == "" {
      assert (a + [c] + b)[0] == c;
    } else {
      assert (a + [c] + b)[1..] == a[1..] + [c] + b;
      FirstIndex(a[1..], c, b);
    }
  }

  lemma {:induction false} NoIndex(s: string, c: char)
    requires c !in s
    ensures IndexOf(s, c) == None
  {
    if s != "" {
      NoIndex(s[1..], c);
    }
  }

  lemma {:induction false} TrimSpaces(n: nat, value: string)
    requires Trimmed(value)
    ensures Trim(Spaces(n) + value) == value
  {
    if n == 0 {
      assert Spaces(0) + value == value;
      TrimTrimmed(value);
    } else {
      var s := Spaces(n) + value;
      assert s[1..] == Spaces(n - 1) + value;
      TrimSpaces(n - 1, value);
      TrimOneBlank(s);
    }
  }

  lemma TrimOneBlank(s: string)
    requires s != "" && IsWhitespace(s[0])
    ensures Trim(s) == Trim(s[1..])
  {
    assert s[LeadingBlanks(s)..] == s[1..][LeadingBlanks(s[1..])..];
  }

  lemma OneKeyChar(c: char)
    ensures IsKeyChar(c) <==> KeyText([c])
  {
    assert c in [c];
  }

  lemma KeyTextIsKey(key: string)
    requires KeyText(key)
    ensures IsKey(key) && ':' !in key && '\n' !in key
    ensures !IsWhitespace(key[0]) && !IsWhitespace(key[|key| - 1]) && key[0] != '#' && !IsQuoted(key) && !("- " <= key)
  {
    KeyCharsAre(key);
    forall i | 0 <= i < |key|
      ensures IsKeyChar(key[i])
    {
      assert key[i] in key;
    }
    assert "- " <= key ==> IsKeyChar(key[1]);
    assert ':' in key ==> IsKeyChar(':');
    assert '\n' in key ==> IsKeyChar('\n');
  }

  lemma QuotedKey(quote: string, key: string, zone: string)
    requires Quote(quote) && KeyText(key) && zone == quote + key + quote
    ensures Trimmed(zone) && zone != "" && ':' !in zone && '\n' !in zone
    ensures zone[0] != ' ' && zone[0] != '#' && !("- " <= zone)
    ensures Unquoted(zone) == key && QuotesBefore(zone) == |quote|
  {
    KeyTextIsKey(key);
    if quote == "" {
      assert zone == key;
    } else {
      assert zone[0] == quote[0] == zone[|zone| - 1];
      assert zone[1..|zone| - 1] == key;
    }
  }

  lemma ZoneAndValue(segment: string, zone: string, after: string)
    requires segment == zone + ":" + after && ':' !in zone
    ensures IndexOf(segment, ':') == Some(|zone|) && segment[..|zone|] == zone && segment[|zone| + 1..] == after
  {
    FirstIndex(zone, ':', after);
  }

  lemma ZoneColumn(zone: string)
    requires Trimmed(zone) && zone != ""
    ensures Trim(zone) == zone && KeyColumn(zone, zone) == QuotesBefore(zone)
  {
    TrimTrimmed(zone);
    assert zone[..0] == "";
    assert Find(zone, zone) == 0;
  }

  lemma ReadKeyIs(segment: string, indent: nat, colon: nat, zone: string, key: string, value: string)
    requires colon < |segment| && segment[..colon] == zone && Trim(segment[colon + 1..]) == value
    requires Trim(zone) == zone && Unquoted(zone) == key && IsKey(key)
    ensures var start := indent + KeyColumn(zone, zone);
            ReadKey(segment, indent, colon) == Some(KeyLine(indent, key, Opens(value), start, start + |key|))
  {
  }

  /** How a zone in front of a colon reads. */
  ghost predicate ZoneGives(zone: string, key: string, quotes: nat) {
    && ':' !in zone && Trim(zone) == zone && Unquoted(zone) == key && IsKey(key)
    && KeyColumn(zone, zone) == quotes
  }

  lemma WrittenZone(quote: string, key: string, zone: string)
    requires Quote(quote) && KeyText(key) && zone == quote + key + quote
    ensures ZoneGives(zone, key, |quote|)
  {
    QuotedKey(quote, key, zone);
    KeyTextIsKey(key);
    ZoneColumn(zone);
  }

  lemma KeyRead(segment: string, indent: nat, zone: string, key: string, quotes: nat, after: string, value: string)
    requires ZoneGives(zone, key, quotes) && segment == zone + ":" + after && Trim(after) == value
    ensures IndexOf(segment, ':') == Some(|zone|)
    ensures ReadKey(segment, indent, |zone|)
         == Some(KeyLine(indent, key, Opens(value), indent + quotes, indent + quotes + |key|))
  {
    ZoneAndValue(segment, zone, after);
    ReadKeyIs(segment, indent, |zone|, zone, key, value);
  }

  // ------------------------------------------------------------------- whole lines

  /** What stands in front of a line's text: spaces, and perhaps one dash. */
  ghost predicate Front(front: string, n: nat, start: nat) {
    (front == Spaces(n) && start == n) || (front == Spaces(n) + "- " && start == n + 2)
  }

  lemma FrontRead(front: string, n: nat, start: nat, segment: string, line: string)
    requires Front(front, n, start) && line == front + segment
    requires segment != "" && segment[0] != ' ' && !("- " <= segment)
    ensures LeadingSpaces(line) == n && TextStart(line) == start == |front| && line[start..] == segment
    ensures line[n] == if start == n then segment[0] else '-'
  {
    if start == n {
      LeadingSpacesOf(n, segment);
      assert line[n..] == segment;
    } else {
      var rest := "- " + segment;
      assert line == Spaces(n) + rest;
      LeadingSpacesOf(n, rest);
      assert line[n..] == rest && rest[..2] == "- ";
    }
  }

  lemma NotBlank(s: string, i: nat)
    requires i < |s| && !IsWhitespace(s[i])
    ensures Trim(s) != ""
  {
    TrimIs(s);
    assert s[i] in s[..LeadingBlanks(s)] + s[LeadingBlanks(s)..];
    assert Trim(s) == "" ==> Blank(s[..LeadingBlanks(s)]) && Blank(s[LeadingBlanks(s)..]);
  }

  lemma ReadLineIs(line: string, start: nat, segment: string)
    requires TrimCarriageReturns(line) == line && Trim(line) != "" && TextStart(line) == start
    requires LeadingSpaces(line) < |line| && line[LeadingSpaces(line)] != '#'
    requires line[start..] == segment && segment != "" && segment[0] != '#'
    ensures ReadLine(line)
         == match IndexOf(segment, ':')
            case None => None
            case Some(colon) => ReadKey(segment, start, colon)
  {
  }

  /** A line that does not end with a carriage return is read as it stands. */
  lemma SegmentRead(front: string, n: nat, start: nat, segment: string, line: string)
    requires Front(front, n, start) && segment != "" && line == front + segment && line[|line| - 1] != '\r'
    requires !IsWhitespace(segment[0]) && segment[0] != '#' && !("- " <= segment)
    ensures ReadLine(line)
         == match IndexOf(segment, ':')
            case None => None
            case Some(colon) => ReadKey(segment, start, colon)
  {
    FrontRead(front, n, start, segment, line);
    NotBlank(line, |front|);
    ReadLineIs(line, start, segment);
  }

  lemma SegmentEnd(zone: string, gap: nat, value: string, segment: string)
    requires segment == zone + ":" + (Spaces(gap) + value) && Trimmed(value)
    ensures segment[|segment| - 1] != '\r'
  {
    if value != "" {
      assert segment[|segment| - 1] == value[|value| - 1];
    } else if gap > 0 {
      assert segment[|segment| - 1] == Spaces(gap)[gap - 1];
    }
  }

  lemma KeySegmentRead(front: string, n: nat, start: nat, zone: string, key: string, quotes: nat, gap: nat,
                       value: string, segment: string, line: string)
    requires Front(front, n, start) && line == front + segment && segment == zone + ":" + (Spaces(gap) + value)
    requires ZoneGives(zone, key, quotes) && Trimmed(value)
    requires zone != "" && !IsWhitespace(zone[0]) && zone[0] != '#' && !("- " <= zone)
    ensures ReadLine(line) == Some(KeyLine(start, key, Opens(value), start + quotes, start + quotes + |key|))
  {
    TrimSpaces(gap, value);
    KeyRead(segment, start, zone, key, quotes, Spaces(gap) + value, value);
    SegmentEnd(zone, gap, value, segment);
    NoDash(zone, segment, Spaces(gap) + value);
    SegmentRead(front, n, start, segment, line);
  }

  lemma NoDash(zone: string, segment: string, after: string)
    requires segment == zone + ":" + after && zone != "" && !("- " <= zone)
    ensures segment[0] == zone[0] && !("- " <= segment)
  {
    assert |zone| == 1 ==> segment[1] == ':';
    assert |zone| >= 2 ==> segment[1] == zone[1];
  }

  lemma FrontOf(l: TextLine)
    requires !l.Plain?
    ensures Front(Spaces(l.spaces) + Dash(l.dash), l.spaces, Indent(l))
  {
    assert Spaces(l.spaces) + "" == Spaces(l.spaces);
  }

  lemma Regrouped(a: string, b: string, c: string)
    ensures a + (b + c) == (a + b) + c
  {
  }

  lemma WrittenLine(l: TextLine, line: string) returns (front: string, segment: string, zone: string)
    requires l.KeyLineText? && line == Written(l)
    ensures zone == l.quote + l.key + l.quote && segment == zone + ":" + (Spaces(l.gap) + l.value)
    ensures Front(front, l.spaces, Indent(l)) && line == front + segment
  {
    zone := l.quote + l.key + l.quote;
    segment := zone + ":" + (Spaces(l.gap) + l.value);
    front := Spaces(l.spaces) + Dash(l.dash);
    FrontOf(l);
    Regrouped(Spaces(l.spaces), Dash(l.dash), segment);
  }

  /** The key line `l` tells: its key at its indent and columns, opening a block or not. */
  predicate Told(l: TextLine, k: Option<KeyLine>) {
    && l.KeyLineText? && k.Some? && k.value.indent == Indent(l) && k.value.key == l.key
    && k.value.opens == Opens(l.value)
    && k.value.keyStart == Indent(l) + |l.quote| && k.value.keyEnd == k.value.keyStart + |l.key|
  }

  lemma KeyPartsRead(l: TextLine, front: string, zone: string, segment: string, line: string, k: Option<KeyLine>)
    requires l.KeyLineText? && Quote(l.quote) && KeyText(l.key) && Trimmed(l.value) && zone == l.quote + l.key + l.quote
    requires Front(front, l.spaces, Indent(l)) && segment == zone + ":" + (Spaces(l.gap) + l.value)
    requires line == front + segment && k == ReadLine(line)
    ensures Told(l, k)
  {
    WrittenZone(l.quote, l.key, zone);
    QuotedKey(l.quote, l.key, zone);
    KeySegmentRead(front, l.spaces, Indent(l), zone, l.key, |l.quote|, l.gap, l.value, segment, line);
  }

  /** A line of this form is that key, at that indent, at those columns, and opens or does not open a block. */
  lemma WrittenKeyRead(l: TextLine, line: string)
    requires l.KeyLineText? && WellWritten(l) && line == Written(l)
    ensures Told(l, ReadLine(line))
  {
    var front, segment, zone := WrittenLine(l, line);
    KeyPartsRead(l, front, zone, segment, line, ReadLine(line));
  }

  /** A carriage return at the end makes no difference. */
  lemma CarriageReturnIgnored(line: string)
    ensures ReadLine(line + "\r") == ReadLine(line)
  {
    assert (line + "\r")[..|line|] == line;
  }

  /** A line without a colon is no key. */
  lemma NoColonNoKey(line: string)
    requires ':' !in line
    ensures ReadLine(line).None?
  {
    var trimmed := TrimCarriageReturns(line);
    NoIndex(trimmed[TextStart(trimmed)..], ':');
  }

  /** A comment is no key, with or without a list dash in front of it. */
  lemma CommentNoKey(front: string, n: nat, start: nat, text: string, line: string)
    requires Front(front, n, start) && line == front + ("#" + text) && '\r' !in text
    ensures ReadLine(line).None?
  {
    assert line[|line| - 1] == if text == "" then '#' else text[|text| - 1];
    FrontRead(front, n, start, "#" + text, line);
  }

  /** What stands in front of the first colon must be a key: a zone with any other character is none. */
  lemma OddZoneNoKey(front: string, n: nat, start: nat, zone: string, after: string, line: string, i: nat)
    requires Front(front, n, start) && line == front + (zone + ":" + after) && line[|line| - 1] != '\r'
    requires ':' !in zone && Trimmed(zone) && i < |zone| && !IsQuoted(zone) && zone[0] != '#' && !("- " <= zone)
    requires !KeyText([zone[i]])
    ensures ReadLine(line).None?
  {
    var segment := zone + ":" + after;
    NoDash(zone, segment, after);
    ZoneAndValue(segment, zone, after);
    TrimTrimmed(zone);
    KeyCharsAre(zone);
    OneKeyChar(zone[i]);
    SegmentRead(front, n, start, segment, line);
  }

  // ------------------------------------------------------------------- whole texts

  function TextOf(lines: seq<TextLine>): string {
    if lines == [] then "" else Written(lines[0]) + "\n" + TextOf(lines[1..])
  }

  ghost predicate AllWellWritten(lines: seq<TextLine>) {
    forall i :: 0 <= i < |lines| ==> WellWritten(lines[i])
  }

  lemma NoBreakIn(l: TextLine)
    requires WellWritten(l)
    ensures '\n' !in Written(l)
  {
    match l
    case KeyLineText(_, _, quote, key, _, _) => KeyTextIsKey(key);
    case Comment(_, _, _) =>
    case Plain(_, _) =>
  }

  function AllWritten(lines: seq<TextLine>): seq<string> {
    seq(|lines|, i requires 0 <= i < |lines| => Written(lines[i]))
  }

  lemma AllWrittenFrom(lines: seq<TextLine>)
    requires lines != []
    ensures AllWritten(lines) == [Written(lines[0])] + AllWritten(lines[1..])
  {
  }

  lemma {:induction false} LinesOfText(lines: seq<TextLine>)
    requires AllWellWritten(lines)
    ensures Lines(TextOf(lines)) == AllWritten(lines)
  {
    if lines != [] {
      NoBreakIn(lines[0]);
      LinesOfText(lines[1..]);
      FirstLineOf(Written(lines[0]), TextOf(lines[1..]));
      AllWrittenFrom(lines);
    }
  }

  lemma FirstLineOf(first: string, rest: string)
    requires '\n' !in first
    ensures Lines(first + "\n" + rest) == [first] + Lines(rest)
  {
    FirstIndex(first, '\n', rest);
    var content := first + "\n" + rest;
    assert content[..|first|] == first && content[|first| + 1..] == rest;
  }

  /** The key lines are found as told, and nothing else is. */
  ghost predicate FoundAsTold(lines: seq<TextLine>, found: seq<Option<KeyLine>>) {
    && |found| == |lines|
    && forall i :: 0 <= i < |lines| ==> if lines[i].KeyLineText? then Told(lines[i], found[i]) else found[i].None?
  }

  lemma LineReadAsTold(l: TextLine)
    requires WellWritten(l)
    ensures if l.KeyLineText? then Told(l, ReadLine(Written(l))) else ReadLine(Written(l)).None?
  {
    match l
    case KeyLineText(_, _, _, _, _, _) => WrittenKeyRead(l, Written(l));
    case Comment(n, dash, text) =>
      FrontOf(l);
      Regrouped(Spaces(n), Dash(dash), "#" + text);
      CommentNoKey(Spaces(n) + Dash(dash), n, Indent(l), text, Written(l));
    case Plain(n, text) => NoColonNoKey(Written(l));
  }

  lemma TextReadAsTold(lines: seq<TextLine>)
    requires AllWellWritten(lines)
    ensures FoundAsTold(lines, ReadLines(TextOf(lines)))
  {
    LinesOfText(lines);
    var found := ReadLines(TextOf(lines));
    forall i | 0 <= i < |lines|
      ensures if lines[i].KeyLineText? then Told(lines[i], found[i]) else found[i].None?
    {
      LineReadAsTold(lines[i]);
      assert found[i] == ReadLine(Written(lines[i]));
    }
  }

  // ------------------------------------------------------- the names a text gives

  /** Line `p` opens a block that line `i` is in: all key lines from there to `i` are deeper. */
  predicate EnclosesLine(lines: seq<TextLine>, p: nat, i: nat) {
    && p < i < |lines| && lines[p].KeyLineText? && lines[i].KeyLineText? && Opens(lines[p].value)
    && forall m :: p < m <= i && lines[m].KeyLineText? ==> Indent(lines[m]) > Indent(lines[p])
  }

  /** And no later line does. */
  ghost predicate IsParentLine(lines: seq<TextLine>, p: nat, i: nat) {
    EnclosesLine(lines, p, i) && forall q: nat :: p < q ==> !EnclosesLine(lines, q, i)
  }

  /** The numbers of the key lines, in order. */
  ghost predicate NumbersOf(found: seq<Option<KeyLine>>, keys: seq<KeyLine>, numbers: seq<nat>) {
    && |keys| == |numbers|
    && (forall a :: 0 <= a < |numbers| ==> numbers[a] < |found| && found[numbers[a]] == Some(keys[a]))
    && (forall a, b :: 0 <= a < b < |numbers| ==> numbers[a] < numbers[b])
    && (forall i :: 0 <= i < |found| && found[i].Some? ==> i in numbers)
  }

  lemma {:induction false} KeyNumbers(found: seq<Option<KeyLine>>)
    ensures NumbersOf(found, KeyLines(found), LineNumbers(found))
  {
    if found != [] {
      var front, last := found[..|found| - 1], found[|found| - 1];
      KeyNumbers(front);
      assert found == front + [last];
      OneMoreNumber(front, last, KeyLines(front), LineNumbers(front));
    }
  }

  lemma OneMoreNumber(front: seq<Option<KeyLine>>, last: Option<KeyLine>, keys: seq<KeyLine>, numbers: seq<nat>)
    requires NumbersOf(front, keys, numbers)
    ensures last.None? ==> NumbersOf(front + [last], keys, numbers)
    ensures last.Some? ==> NumbersOf(front + [last], keys + [last.value], numbers + [|front|])
  {
    var found := front + [last];
    assert forall i :: 0 <= i < |front| ==> found[i] == front[i];
    if last.Some? {
      var more := numbers + [|front|];
      assert more[|numbers|] == |front|;
      assert forall a :: 0 <= a < |numbers| ==> more[a] == numbers[a];
    }
  }

  lemma EnclosesAsLines(lines: seq<TextLine>, found: seq<Option<KeyLine>>, keys: seq<KeyLine>, numbers: seq<nat>,
                        b: nat, a: nat)
    requires FoundAsTold(lines, found) && NumbersOf(found, keys, numbers) && a < |keys| && b < |keys|
    ensures Encloses(keys, b, a) <==> EnclosesLine(lines, numbers[b], numbers[a])
  {
    if Encloses(keys, b, a) {
      forall m | numbers[b] < m <= numbers[a] && lines[m].KeyLineText?
        ensures Indent(lines[m]) > Indent(lines[numbers[b]])
      {
        var c :| 0 <= c < |numbers| && numbers[c] == m;
        assert b < c <= a;
      }
    }
    if EnclosesLine(lines, numbers[b], numbers[a]) {
      forall c | b < c <= a
        ensures keys[c].indent > keys[b].indent
      {
        assert Indent(lines[numbers[c]]) > Indent(lines[numbers[b]]);
      }
    }
  }

  /** What the scan of a text makes of it. */
  ghost predicate ScanOf(lines: seq<TextLine>, entries: seq<Entry>) {
    && |entries| == |KeyLines(ReadLines(TextOf(lines)))|
    && EntriesFor(entries, KeyLines(ReadLines(TextOf(lines))), LineNumbers(ReadLines(TextOf(lines))))
  }

  lemma ParentAsLine(lines: seq<TextLine>, found: seq<Option<KeyLine>>, keys: seq<KeyLine>, numbers: seq<nat>,
                     b: nat, a: nat)
    requires FoundAsTold(lines, found) && NumbersOf(found, keys, numbers) && a < |keys| && b < |keys|
    requires IsParentLine(lines, numbers[b], numbers[a])
    ensures Parent(keys, a) == Some(b)
  {
    EnclosesAsLines(lines, found, keys, numbers, b, a);
    forall q | b < q < a
      ensures !Encloses(keys, q, a)
    {
      EnclosesAsLines(lines, found, keys, numbers, q, a);
    }
    ParentIs(keys, a);
  }

  lemma NoParentAsLine(lines: seq<TextLine>, found: seq<Option<KeyLine>>, keys: seq<KeyLine>, numbers: seq<nat>, a: nat)
    requires FoundAsTold(lines, found) && NumbersOf(found, keys, numbers) && a < |keys|
    requires forall p: nat :: !EnclosesLine(lines, p, numbers[a])
    ensures Parent(keys, a).None?
  {
    forall q | 0 <= q < a
      ensures !Encloses(keys, q, a)
    {
      EnclosesAsLines(lines, found, keys, numbers, q, a);
    }
    ParentIs(keys, a);
  }

  /** Each entry is of a key line, with the line's number and columns; in order. */
  lemma EntriesAreKeyLines(lines: seq<TextLine>, entries: seq<Entry>, a: nat)
    requires AllWellWritten(lines) && ScanOf(lines, entries) && a < |entries|
    ensures var e := entries[a];
            && e.line < |lines| && lines[e.line].KeyLineText?
            && e.keyStart == Indent(lines[e.line]) + |lines[e.line].quote|
            && e.keyEnd == e.keyStart + |lines[e.line].key|
    ensures a > 0 ==> entries[a - 1].line < entries[a].line
  {
    TextReadAsTold(lines);
    KeyNumbers(ReadLines(TextOf(lines)));
  }

  /** And each key line has its entry. */
  lemma KeyLinesHaveEntries(lines: seq<TextLine>, entries: seq<Entry>, i: nat) returns (a: nat)
    requires AllWellWritten(lines) && ScanOf(lines, entries) && i < |lines| && lines[i].KeyLineText?
    ensures a < |entries| && entries[a].line == i
  {
    TextReadAsTold(lines);
    var found := ReadLines(TextOf(lines));
    KeyNumbers(found);
    assert found[i].Some?;
    a :| a < |LineNumbers(found)| && LineNumbers(found)[a] == i;
  }

  lemma NamedIn(lines: seq<TextLine>, found: seq<Option<KeyLine>>, keys: seq<KeyLine>, numbers: seq<nat>,
                entries: seq<Entry>, a: nat)
    requires FoundAsTold(lines, found) && NumbersOf(found, keys, numbers)
    requires |entries| == |keys| && EntriesFor(entries, keys, numbers) && a < |entries|
    ensures entries[a].line == numbers[a] < |lines| && lines[numbers[a]].KeyLineText?
    ensures keys[a].key == lines[numbers[a]].key && entries[a].fullKey == FullKey(keys, a)
  {
  }

  /** A key is named under the line it is in the block of, or alone if it is in none. */
  lemma NamedUnderParent(lines: seq<TextLine>, entries: seq<Entry>, b: nat, a: nat)
    requires AllWellWritten(lines) && ScanOf(lines, entries) && a < |entries| && b < |entries|
    requires IsParentLine(lines, entries[b].line, entries[a].line)
    ensures entries[a].fullKey == entries[b].fullKey + "." + lines[entries[a].line].key
  {
    var found := ReadLines(TextOf(lines));
    var keys, numbers := KeyLines(found), LineNumbers(found);
    TextReadAsTold(lines);
    KeyNumbers(found);
    NamedIn(lines, found, keys, numbers, entries, a);
    NamedIn(lines, found, keys, numbers, entries, b);
    ParentAsLine(lines, found, keys, numbers, b, a);
  }

  lemma NamedAlone(lines: seq<TextLine>, entries: seq<Entry>, a: nat, l: TextLine)
    requires AllWellWritten(lines) && ScanOf(lines, entries) && a < |entries|
    requires entries[a].line < |lines| && lines[entries[a].line] == l && l.KeyLineText?
    requires forall p: nat :: !EnclosesLine(lines, p, entries[a].line)
    ensures entries[a].fullKey == l.key
  {
    var found := ReadLines(TextOf(lines));
    var keys, numbers := KeyLines(found), LineNumbers(found);
    TextReadAsTold(lines);
    KeyNumbers(found);
    NamedIn(lines, found, keys, numbers, entries, a);
    NoParentAsLine(lines, found, keys, numbers, a);
  }

  /** A deeper key under a key that opens a block, and the same key where it is not deeper or nothing opens. */
  lemma TwoKeys(one: TextLine, two: TextLine, entries: seq<Entry>)
    requires one.KeyLineText? && two.KeyLineText? && WellWritten(one) && WellWritten(two)
    requires ScanOf([one, two], entries)
    ensures |entries| == 2 && entries[0].fullKey == one.key
    ensures entries[1].fullKey
         == if Opens(one.value) && Indent(two) > Indent(one) then one.key + "." + two.key else two.key
  {
    var lines, found := [one, two], ReadLines(TextOf([one, two]));
    TextReadAsTold(lines);
    TwoNumbers(found);
    assert entries[0].line == 0 && entries[1].line == 1;
    NamedAlone(lines, entries, 0, one);
    if Opens(one.value) && Indent(two) > Indent(one) {
      assert EnclosesLine(lines, 0, 1);
      NamedUnderParent(lines, entries, 0, 1);
    } else {
      assert lines[0] == one && lines[1] == two;
      NamedAlone(lines, entries, 1, two);
    }
  }

  lemma TwoNumbers(found: seq<Option<KeyLine>>)
    requires |found| == 2 && found[0].Some? && found[1].Some?
    ensures KeyLines(found) == [found[0].value, found[1].value] && LineNumbers(found) == [0, 1]
  {
    assert found[..1] == [found[0]] && found[..1][..0] == [];
    assert KeyLines(found[..1]) == [found[0].value] && LineNumbers(found[..1]) == [0];
  }
}
