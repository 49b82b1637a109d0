/**
 * The YAML property scan: one pass over the lines with a stack of open keys.
 * It is proved to give every key the parent that a reader of the indentation
 * would name, and a column range that really spells the key.
 */
module YamlKeys {
  import opened Wrappers
  import opened Text
  import Utf8

  // -------------------------------------------------------------------- one line

  /** A line that names a key; columns count bytes. */
  datatype KeyLine = KeyLine(indent: nat, key: string, opens: bool, keyStart: nat, keyEnd: nat)

  function TrimCarriageReturns(s: string): (t: string)
    ensures |t| <= |s| && t == s[..|t|]
  {
    if s != [] && s[|s| - 1] == '\r' then TrimCarriageReturns(s[..|s| - 1]) else s
  }

  function LeadingSpaces(s: string): (n: nat)
    ensures n <= |s|
  {
    if s == [] || s[0] != ' ' then 0 else 1 + LeadingSpaces(s[1..])
  }

  function IndexOf(s: string, c: char): (i: Option<nat>)
    ensures i.Some? ==> i.value < |s| && s[i.value] == c
  {
    if s == [] then None
    else if s[0] == c then Some(0)
    else
      match IndexOf(s[1..], c)
      case None => None
      case Some(i) => Some(i + 1)
  }

  /** First place where `part` occurs in `s`; the length of `s` when it does not. */
  function Find(s: string, part: string): (i: nat)
    ensures i <= |s|
  {
    if part <= s || s == [] then 0 else 1 + Find(s[1..], part)
  }

  predicate IsQuoted(s: string) {
    |s| >= 2 && s[0] == s[|s| - 1] && (s[0] == '"' || s[0] == '\'')
  }

  predicate IsKeyChar(c: char) {
    'a' <= c <= 'z' || 'A' <= c <= 'Z' || '0' <= c <= '9' || c == '_' || c == '-' || c == '.'
  }

  predicate AllKeyChars(s: string) {
    s == [] || (IsKeyChar(s[0]) && AllKeyChars(s[1..]))
  }

  predicate IsKey(s: string) {
    s != [] && AllKeyChars(s)
  }

  predicate OpensBlock(value: string) {
    value == [] || value[0] == '#' || value == "|" || value == ">"
  }

  /** Where the text proper starts: after the spaces, and after one list dash. */
  function TextStart(line: string): (start: nat)
    ensures start <= |line|
  {
    var indent := LeadingSpaces(line);
    if "- " <= line[indent..] then indent + 2 else indent
  }

  /** A key without its quotes, and how many quotes stand in front of it. */
  function Unquoted(s: string): (key: string) {
    if IsQuoted(s) then s[1..|s| - 1] else s
  }

  function QuotesBefore(s: string): nat {
    if IsQuoted(s) then 1 else 0
  }

  function KeyColumn(zone: string, trimmed: string): nat {
    Utf8.ByteLength(zone[..Find(zone, trimmed)]) + QuotesBefore(trimmed)
  }

  function ReadKey(segment: string, indent: nat, colon: nat): Option<KeyLine>
    requires colon < |segment|
  {
    var zone := segment[..colon];
    var key := Unquoted(Trim(zone));
    if !IsKey(key) then None
    else
      var start := indent + KeyColumn(zone, Trim(zone));
      Some(KeyLine(indent, key, OpensBlock(Trim(segment[colon + 1..])), start, start + |key|))
  }

  function ReadLine(raw: string): Option<KeyLine> {
    var line := TrimCarriageReturns(raw);
    if Trim(line) == [] || (LeadingSpaces(line) < |line| && line[LeadingSpaces(line)] == '#') then None
    else
      var indent := TextStart(line);
      var segment := line[indent..];
      if segment == [] || segment[0] == '#' then None
      else
        match IndexOf(segment, ':')
        case None => None
        case Some(colon) => ReadKey(segment, indent, colon)
  }

  // ------------------------------------------------ what the scan is to find

  /** `p` opens a block that the i-th key is in: it and all keys since are deeper. */
  predicate Encloses(keys: seq<KeyLine>, p: nat, i: nat)
    requires i < |keys|
  {
    p < i && keys[p].opens && forall m :: p < m <= i ==> keys[m].indent > keys[p].indent
  }

  /** The latest enclosing key among the first `n`. */
  function ParentAmong(keys: seq<KeyLine>, n: nat, i: nat): (p: Option<nat>)
    requires n <= i < |keys|
    ensures p.Some? ==> p.value < n
  {
    if n == 0 then None
    else if Encloses(keys, n - 1, i) then Some(n - 1)
    else ParentAmong(keys, n - 1, i)
  }

  lemma {:induction false} ParentAmongIs(keys: seq<KeyLine>, n: nat, i: nat)
    requires n <= i < |keys|
    ensures ParentAmong(keys, n, i).Some? ==>
              var p := ParentAmong(keys, n, i).value;
              Encloses(keys, p, i) && forall q :: p < q < n ==> !Encloses(keys, q, i)
    ensures ParentAmong(keys, n, i).None? ==> forall q :: 0 <= q < n ==> !Encloses(keys, q, i)
  {
    if n > 0 && !Encloses(keys, n - 1, i) {
      ParentAmongIs(keys, n - 1, i);
    }
  }

  /** The parent is the one enclosing key that no later enclosing key comes after. */
  lemma ParentIs(keys: seq<KeyLine>, i: nat)
    requires i < |keys|
    ensures forall p :: 0 <= p < i ==>
              (Parent(keys, i) == Some(p) <==> Encloses(keys, p, i) && forall q :: p < q < i ==> !Encloses(keys, q, i))
    ensures Parent(keys, i).None? <==> forall q :: 0 <= q < i ==> !Encloses(keys, q, i)
  {
    ParentAmongIs(keys, i, i);
  }

  function Parent(keys: seq<KeyLine>, i: nat): (p: Option<nat>)
    requires i < |keys|
    ensures p.Some? ==> p.value < i
  {
    ParentAmong(keys, i, i)
  }

  function FullKey(keys: seq<KeyLine>, i: nat): string
    requires i < |keys|
  {
    match Parent(keys, i)
    case None => keys[i].key
    case Some(p) => FullKey(keys, p) + "." + keys[i].key
  }

  /** The keys among the lines read, and the numbers of their lines. */
  function KeyLines(found: seq<Option<KeyLine>>): seq<KeyLine> {
    if found == [] then []
    else
      KeyLines(found[..|found| - 1])
      + match found[|found| - 1] case None => [] case Some(key) => [key]
  }

  function LineNumbers(found: seq<Option<KeyLine>>): (numbers: seq<nat>)
    ensures |numbers| == |KeyLines(found)|
  {
    if found == [] then []
    else LineNumbers(found[..|found| - 1]) + if found[|found| - 1].None? then [] else [|found| - 1]
  }

  lemma {:induction false} KeyLinesPrefix(found: seq<Option<KeyLine>>, n: nat)
    requires n <= |found|
    ensures KeyLines(found[..n]) <= KeyLines(found)
    ensures LineNumbers(found[..n]) <= LineNumbers(found)
  {
    if n < |found| {
      KeyLinesPrefix(found[..|found| - 1], n);
      assert found[..|found| - 1][..n] == found[..n];
    } else {
      assert found[..n] == found;
    }
  }

  datatype Entry = Entry(fullKey: string, line: nat, keyStart: nat, keyEnd: nat)

  function Lines(content: string): seq<string> {
    if content == [] then []
    else
      match IndexOf(content, '\n')
      case None => [content]
      case Some(i) => [content[..i]] + Lines(content[i + 1..])
  }

  function ReadLines(content: string): seq<Option<KeyLine>> {
    var lines := Lines(content);
    seq(|lines|, i requires 0 <= i < |lines| => ReadLine(lines[i]))
  }

  // -------------------------------------------------------------------- the scan

  /** An open key: nothing since has been as shallow. */
  predicate StillOpen(keys: seq<KeyLine>, p: nat, n: nat)
    requires n <= |keys|
  {
    p < n && keys[p].opens && forall m :: p < m < n ==> keys[m].indent > keys[p].indent
  }

  ghost predicate AllOpen(open: seq<nat>, keys: seq<KeyLine>, n: nat)
    requires n <= |keys|
  {
    forall j :: 0 <= j < |open| ==> StillOpen(keys, open[j], n)
  }

  ghost predicate Increasing(open: seq<nat>) {
    forall j, k :: 0 <= j < k < |open| ==> open[j] < open[k]
  }

  /** Exactly the open keys, outermost first. */
  ghost predicate OpenAre(open: seq<nat>, keys: seq<KeyLine>, n: nat)
    requires n <= |keys|
  {
    && AllOpen(open, keys, n)
    && Increasing(open)
    && (forall p :: 0 <= p < n && StillOpen(keys, p, n) ==> p in open)
  }

  /** Innermost keys may have been popped, none of which encloses the n-th key. */
  ghost predicate PoppedTo(open: seq<nat>, keys: seq<KeyLine>, n: nat)
    requires n < |keys|
  {
    && AllOpen(open, keys, n)
    && Increasing(open)
    && (forall p :: 0 <= p < n && StillOpen(keys, p, n) && keys[p].indent < keys[n].indent ==> p in open)
  }

  /** The stack as the code keeps it: an indent and a full name for each open key. */
  ghost predicate StackFor(stack: seq<(nat, string)>, open: seq<nat>, keys: seq<KeyLine>) {
    && |stack| == |open|
    && forall j :: 0 <= j < |open| ==>
         open[j] < |keys| && stack[j].0 == keys[open[j]].indent && stack[j].1 == FullKey(keys, open[j])
  }

  /** The indents on the stack strictly increase. */
  lemma IndentsIncrease(stack: seq<(nat, string)>, open: seq<nat>, keys: seq<KeyLine>, n: nat, j: nat, k: nat)
    requires n <= |keys| && OpenAre(open, keys, n) && StackFor(stack, open, keys)
    requires j < k < |stack|
    ensures stack[j].0 < stack[k].0
  {
    assert StillOpen(keys, open[j], n) && StillOpen(keys, open[k], n);
  }

  ghost predicate TopIsShallower(open: seq<nat>, keys: seq<KeyLine>, n: nat)
    requires n < |keys|
  {
    open != [] ==> open[|open| - 1] < |keys| && keys[open[|open| - 1]].indent < keys[n].indent
  }

  lemma TopEncloses(open: seq<nat>, keys: seq<KeyLine>, n: nat, top: nat)
    requires n < |keys| && PoppedTo(open, keys, n) && TopIsShallower(open, keys, n)
    requires open != [] && top == open[|open| - 1]
    ensures Encloses(keys, top, n)
  {
    assert StillOpen(keys, top, n);
  }

  /** The innermost of them is the parent. */
  lemma ParentIsTop(open: seq<nat>, keys: seq<KeyLine>, n: nat)
    requires n < |keys| && PoppedTo(open, keys, n) && TopIsShallower(open, keys, n)
    ensures Parent(keys, n) == if open == [] then None else Some(open[|open| - 1])
  {
    ParentIs(keys, n);
    if open != [] {
      TopEncloses(open, keys, n, open[|open| - 1]);
    }
  }

  lemma PushedIncrease(open: seq<nat>, n: nat)
    requires Increasing(open) && forall j :: 0 <= j < |open| ==> open[j] < n
    ensures Increasing(open + [n])
  {
  }

  lemma OpenIsPushed(open: seq<nat>, keys: seq<KeyLine>, n: nat, p: nat)
    requires n < |keys| && p <= n && StillOpen(keys, p, n + 1)
    requires forall q :: 0 <= q < n && Encloses(keys, q, n) ==> q in open
    ensures p in if keys[n].opens then open + [n] else open
  {
  }

  /** The n-th key goes on top when it opens a block. */
  lemma PushOne(open: seq<nat>, keys: seq<KeyLine>, n: nat)
    requires n < |keys| && PoppedTo(open, keys, n) && TopIsShallower(open, keys, n)
    ensures OpenAre(if keys[n].opens then open + [n] else open, keys, n + 1)
  {
    forall j | 0 <= j < |open|
      ensures open[j] < n && Encloses(keys, open[j], n)
    {
      assert StillOpen(keys, open[j], n) && open[j] in open;
    }
    PushedIncrease(open, n);
    var next := n + 1;
    forall p: nat | p < next && StillOpen(keys, p, next)
      ensures p in if keys[n].opens then open + [n] else open
    {
      OpenIsPushed(open, keys, n, p);
    }
  }

  lemma NextLine(found: seq<Option<KeyLine>>, i: nat)
    requires i < |found|
    ensures found[i].None? ==> KeyLines(found[..i + 1]) == KeyLines(found[..i])
    ensures found[i].Some? ==>
              var n := |KeyLines(found[..i])|;
              && |KeyLines(found[..i + 1])| == n + 1 <= |KeyLines(found)|
              && KeyLines(found)[n] == found[i].value
              && LineNumbers(found)[n] == i
  {
    assert found[..i + 1][..i] == found[..i];
    KeyLinesPrefix(found, i + 1);
  }

  /** Each key's entry, in order: its full name, its line and its columns. */
  ghost predicate EntriesFor(entries: seq<Entry>, keys: seq<KeyLine>, numbers: seq<nat>)
    requires |entries| <= |keys| == |numbers|
  {
    forall i :: 0 <= i < |entries| ==> entries[i] == EntryFor(keys, numbers, i)
  }

  function EntryFor(keys: seq<KeyLine>, numbers: seq<nat>, i: nat): Entry
    requires i < |keys| == |numbers|
  {
    Entry(FullKey(keys, i), numbers[i], keys[i].keyStart, keys[i].keyEnd)
  }

  /** The name the scan gives a key, from the top of its stack. */
  function NameUnder(stack: seq<(nat, string)>, key: string): string {
    if stack != [] then stack[|stack| - 1].1 + "." + key else key
  }

  lemma TopIsNamed(stack: seq<(nat, string)>, open: seq<nat>, keys: seq<KeyLine>, top: nat)
    requires StackFor(stack, open, keys) && open != [] && top == open[|open| - 1]
    ensures top < |keys| && stack != [] && stack[|stack| - 1].1 == FullKey(keys, top)
  {
    assert stack[|open| - 1].1 == FullKey(keys, open[|open| - 1]);
  }

  lemma NameIsFull(stack: seq<(nat, string)>, open: seq<nat>, keys: seq<KeyLine>, n: nat)
    requires n < |keys| && PoppedTo(open, keys, n) && TopIsShallower(open, keys, n) && StackFor(stack, open, keys)
    ensures NameUnder(stack, keys[n].key) == FullKey(keys, n)
  {
    ParentIsTop(open, keys, n);
    if open != [] {
      var top := open[|open| - 1];
      TopIsNamed(stack, open, keys, top);
    }
  }

  lemma StackPushed(stack: seq<(nat, string)>, open: seq<nat>, keys: seq<KeyLine>, n: nat)
    requires n < |keys| && StackFor(stack, open, keys)
    ensures StackFor(stack + [(keys[n].indent, FullKey(keys, n))], open + [n], keys)
  {
  }

  /** One key met by the scan: pop to its parent, name it, push it if it opens a block. */
  method PlaceKey(stack: seq<(nat, string)>, key: KeyLine, ghost open: seq<nat>, ghost keys: seq<KeyLine>, ghost n: nat)
    returns (fullKey: string, stack': seq<(nat, string)>, ghost open': seq<nat>)
    requires n < |keys| && keys[n] == key
    requires OpenAre(open, keys, n) && StackFor(stack, open, keys)
    ensures fullKey == FullKey(keys, n)
    ensures OpenAre(open', keys, n + 1) && StackFor(stack', open', keys)
  {
    stack', open' := stack, open;
    while stack' != [] && key.indent <= stack'[|stack'| - 1].0
      invariant PoppedTo(open', keys, n) && StackFor(stack', open', keys)
      decreases |stack'|
    {
      open' := open'[..|open'| - 1];
      stack' := stack'[..|stack'| - 1];
    }
    NameIsFull(stack', open', keys, n);
    PushOne(open', keys, n);
    StackPushed(stack', open', keys, n);
    fullKey := NameUnder(stack', key.key);
    if key.opens {
      stack' := stack' + [(key.indent, fullKey)];
      open' := open' + [n];
    }
  }

  method ScanKeys(found: seq<Option<KeyLine>>) returns (entries: seq<Entry>)
    ensures |entries| == |KeyLines(found)|
    ensures EntriesFor(entries, KeyLines(found), LineNumbers(found))
  {
    ghost var keys, numbers := KeyLines(found), LineNumbers(found);
    ghost var open: seq<nat> := [];
    var stack: seq<(nat, string)> := [];
    entries := [];
    for lineIndex := 0 to |found|
      invariant |entries| == |KeyLines(found[..lineIndex])| <= |keys|
      invariant EntriesFor(entries, keys, numbers)
      invariant OpenAre(open, keys, |entries|) && StackFor(stack, open, keys)
    {
      NextLine(found, lineIndex);
      if found[lineIndex].None? {
        continue;
      }
      var key, fullKey := found[lineIndex].value, "";
      fullKey, stack, open := PlaceKey(stack, key, open, keys, |entries|);
      assert EntryFor(keys, numbers, |entries|) == Entry(fullKey, lineIndex, key.keyStart, key.keyEnd);
      entries := entries + [Entry(fullKey, lineIndex, key.keyStart, key.keyEnd)];
    }
    assert found[..|found|] == found;
  }

  method ParseYamlPropertyEntries(content: string) returns (entries: seq<Entry>)
    ensures |entries| == |KeyLines(ReadLines(content))|
    ensures EntriesFor(entries, KeyLines(ReadLines(content)), LineNumbers(ReadLines(content)))
  {
    entries := ScanKeys(ReadLines(content));
  }

  // ------------------------------------------------------- the columns are the key's

  lemma {:induction false} LeadingSpacesAscii(s: string)
    ensures forall i :: 0 <= i < LeadingSpaces(s) ==> s[i] == ' '
  {
    if s != [] && s[0] == ' ' {
      LeadingSpacesAscii(s[1..]);
    }
  }

  /** A trimmed text occurs first right after the blanks in front of it. */
  lemma {:induction false} FindTrimmed(s: string)
    requires Trim(s) != []
    ensures Find(s, Trim(s)) == LeadingBlanks(s)
  {
    TrimIs(s);
    FindAfterBlanks(s, Trim(s), LeadingBlanks(s));
  }

  lemma {:induction false} FindAfterBlanks(s: string, part: string, n: nat)
    requires n <= |s| && Blank(s[..n]) && part <= s[n..] && part != [] && !IsWhitespace(part[0])
    ensures Find(s, part) == n
  {
    if n > 0 {
      assert s[0] == s[..n][0];
      assert s[1..][n - 1..] == s[n..];
      assert s[1..][..n - 1] == s[..n][1..];
      FindAfterBlanks(s[1..], part, n - 1);
    }
  }

  lemma TextStartBytes(line: string)
    ensures Utf8.ByteLength(line[..TextStart(line)]) == TextStart(line)
  {
    LeadingSpacesAscii(line);
    var front := line[..TextStart(line)];
    assert Utf8.IsAscii(front);
    Utf8.ByteLengthAscii(front);
  }

  ghost predicate SpelledAt(line: string, c: nat, k: KeyLine) {
    && c + |k.key| <= |line|
    && line[c..c + |k.key|] == k.key
    && Utf8.ByteLength(line[..c]) == k.keyStart
    && Utf8.ByteLength(line[..c + |k.key|]) == k.keyEnd
  }

  lemma SliceOfSlice(s: string, a: nat, b: nat, i: nat, j: nat)
    requires a <= b <= |s| && i <= j <= b - a
    ensures s[a..b][i..j] == s[a + i..a + j]
  {
    var x, y := s[a..b][i..j], s[a + i..a + j];
    assert |x| == |y| && forall k :: 0 <= k < |x| ==> x[k] == y[k];
  }

  lemma QuotedZone(zone: string, trimmed: string, b: nat)
    requires b + |trimmed| <= |zone| && zone[b..b + |trimmed|] == trimmed && IsQuoted(trimmed)
    ensures zone[b + 1..b + |trimmed| - 1] == trimmed[1..|trimmed| - 1]
    ensures Utf8.ByteLength(zone[..b + 1]) == Utf8.ByteLength(zone[..b]) + 1
  {
    SliceOfSlice(zone, b, b + |trimmed|, 1, |trimmed| - 1);
    assert zone[b] == trimmed[0];
    assert zone[..b + 1] == zone[..b] + [trimmed[0]];
    Utf8.ByteLengthConcat(zone[..b], [trimmed[0]]);
    Utf8.ByteLengthAscii([trimmed[0]]);
  }

  /** The key stands in its zone right where its column says. */
  lemma KeyInZone(zone: string, trimmed: string) returns (c: nat)
    requires trimmed == Trim(zone) && trimmed != []
    ensures c + |Unquoted(trimmed)| <= |zone| && zone[c..c + |Unquoted(trimmed)|] == Unquoted(trimmed)
    ensures Utf8.ByteLength(zone[..c]) == KeyColumn(zone, trimmed)
  {
    var b := LeadingBlanks(zone);
    TrimIs(zone);
    FindTrimmed(zone);
    c := b + QuotesBefore(trimmed);
    if IsQuoted(trimmed) {
      QuotedZone(zone, trimmed, b);
    }
  }

  lemma {:induction false} KeyBytes(key: string)
    requires AllKeyChars(key)
    ensures Utf8.ByteLength(key) == |key|
  {
    if key != [] {
      KeyBytes(key[1..]);
    }
  }

  /** The key stands in the segment `d` characters in, and its columns say so. */
  ghost predicate InSegment(segment: string, indent: nat, d: nat, k: KeyLine) {
    && d + |k.key| <= |segment| && segment[d..d + |k.key|] == k.key && Utf8.ByteLength(k.key) == |k.key|
    && k.keyStart == indent + Utf8.ByteLength(segment[..d]) && k.keyEnd == k.keyStart + |k.key|
  }

  lemma SegmentInLine(line: string, segment: string, indent: nat, d: nat, k: KeyLine)
    requires indent <= |line| && Utf8.ByteLength(line[..indent]) == indent && segment == line[indent..]
    requires InSegment(segment, indent, d, k)
    ensures SpelledAt(line, indent + d, k)
  {
    var c := indent + d;
    assert line[..c] == line[..indent] + segment[..d];
    Utf8.ByteLengthConcat(line[..indent], segment[..d]);
    assert line[..c + |k.key|] == line[..c] + k.key;
    Utf8.ByteLengthConcat(line[..c], k.key);
  }

  lemma ZoneInSegment(segment: string, colon: nat, d: nat, n: nat)
    requires d + n <= colon < |segment|
    ensures segment[..colon][d..d + n] == segment[d..d + n]
    ensures segment[..colon][..d] == segment[..d]
  {
    assert segment[..colon] == segment[0..colon];
    SliceOfSlice(segment, 0, colon, d, d + n);
  }

  lemma ZoneKeyInSegment(segment: string, indent: nat, colon: nat, d: nat, k: KeyLine)
    requires colon < |segment| && Utf8.ByteLength(k.key) == |k.key|
    requires d + |k.key| <= colon && segment[..colon][d..d + |k.key|] == k.key
    requires k.keyStart == indent + Utf8.ByteLength(segment[..colon][..d]) && k.keyEnd == k.keyStart + |k.key|
    ensures InSegment(segment, indent, d, k)
  {
    ZoneInSegment(segment, colon, d, |k.key|);
  }

  lemma ReadKeyInZone(segment: string, indent: nat, colon: nat, zone: string, k: KeyLine) returns (d: nat)
    requires colon < |segment| && ReadKey(segment, indent, colon) == Some(k) && zone == segment[..colon]
    ensures d + |k.key| <= |zone| && zone[d..d + |k.key|] == k.key && Utf8.ByteLength(k.key) == |k.key|
    ensures k.keyStart == indent + Utf8.ByteLength(zone[..d]) && k.keyEnd == k.keyStart + |k.key|
  {
    var trimmed := Trim(zone);
    d := KeyInZone(zone, trimmed);
    KeyBytes(k.key);
  }

  lemma ReadKeyInSegment(segment: string, indent: nat, colon: nat, k: KeyLine) returns (d: nat)
    requires colon < |segment| && ReadKey(segment, indent, colon) == Some(k)
    ensures InSegment(segment, indent, d, k)
  {
    d := ReadKeyInZone(segment, indent, colon, segment[..colon], k);
    ZoneKeyInSegment(segment, indent, colon, d, k);
  }

  lemma ReadLineParts(raw: string) returns (line: string, indent: nat, colon: nat)
    requires ReadLine(raw).Some?
    ensures line == TrimCarriageReturns(raw) && indent == TextStart(line) && colon < |line[indent..]|
    ensures ReadKey(line[indent..], indent, colon) == ReadLine(raw)
  {
    line := TrimCarriageReturns(raw);
    indent := TextStart(line);
    colon := IndexOf(line[indent..], ':').value;
  }

  lemma LineKeySpelled(line: string, segment: string, indent: nat, d: nat, k: KeyLine) returns (c: nat)
    requires indent == TextStart(line) && segment == line[indent..] && InSegment(segment, indent, d, k)
    ensures SpelledAt(line, c, k)
  {
    TextStartBytes(line);
    SegmentInLine(line, segment, indent, d, k);
    c := indent + d;
  }

  lemma ReadLineInSegment(raw: string) returns (line: string, indent: nat, d: nat)
    requires ReadLine(raw).Some?
    ensures line == TrimCarriageReturns(raw) && indent == TextStart(line)
    ensures InSegment(line[indent..], indent, d, ReadLine(raw).value)
  {
    var colon;
    line, indent, colon := ReadLineParts(raw);
    d := ReadKeyInSegment(line[indent..], indent, colon, ReadLine(raw).value);
  }

  /** The byte columns of a key cut exactly the key out of its line. */
  lemma ColumnsSpellTheKey(raw: string) returns (c: nat)
    requires ReadLine(raw).Some?
    ensures SpelledAt(TrimCarriageReturns(raw), c, ReadLine(raw).value)
  {
    var line, indent, d := ReadLineInSegment(raw);
    c := LineKeySpelled(line, line[indent..], indent, d, ReadLine(raw).value);
  }
}
