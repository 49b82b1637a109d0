/**
 * Lines and columns of byte offsets into a text. The two conversions are proved
 * against what a line is, and against each other where a match is cut out of
 * its line.
 */
module Lines {
  import opened Wrappers
  import opened Utf8

  function Newlines(s: string): nat {
    if s == [] then 0
    else Newlines(s[..|s| - 1]) + if s[|s| - 1] == '\n' then 1 else 0
  }

  /** Characters since the last newline. */
  function Column(s: string): (c: nat)
    ensures c <= |s|
  {
    if s == [] || s[|s| - 1] == '\n' then 0 else Column(s[..|s| - 1]) + 1
  }

  ghost predicate NoNewline(s: string) {
    forall i :: 0 <= i < |s| ==> s[i] != '\n'
  }

  /** Line `line` of the text is content[a..b], without its newline. */
  ghost predicate LineSpan(content: string, line: nat, a: nat, b: nat) {
    && a <= b <= |content|
    && (a == 0 || content[a - 1] == '\n')
    && Newlines(content[..a]) == line
    && NoNewline(content[a..b])
    && (b == |content| || content[b] == '\n')
  }

  predicate Unterminated(content: string) {
    content != [] && content[|content| - 1] != '\n'
  }

  // ------------------------------------------------------------- counting newlines

  lemma {:induction false} NewlinesConcat(a: string, b: string)
    ensures Newlines(a + b) == Newlines(a) + Newlines(b)
  {
    if b == [] {
      assert a + b == a;
    } else {
      assert (a + b)[..|a + b| - 1] == a + b[..|b| - 1];
      NewlinesConcat(a, b[..|b| - 1]);
    }
  }

  lemma {:induction false} NoNewlines(s: string)
    ensures NoNewline(s) <==> Newlines(s) == 0
  {
    if s != [] {
      NoNewlines(s[..|s| - 1]);
      assert s == s[..|s| - 1] + [s[|s| - 1]];
    }
  }

  /** Newlines between two places of a text. */
  lemma NewlinesBetween(content: string, a: nat, b: nat)
    requires a <= b <= |content|
    ensures Newlines(content[..b]) == Newlines(content[..a]) + Newlines(content[a..b])
  {
    assert content[..b] == content[..a] + content[a..b];
    NewlinesConcat(content[..a], content[a..b]);
  }

  lemma BytesBetween(content: string, a: nat, b: nat)
    requires a <= b <= |content|
    ensures ByteLength(content[..b]) == ByteLength(content[..a]) + ByteLength(content[a..b])
  {
    assert content[..b] == content[..a] + content[a..b];
    ByteLengthConcat(content[..a], content[a..b]);
  }

  // ------------------------------------------------------------- the bounds of a line

  /** The first piece of a text that is split after each newline. */
  function SegmentLength(s: string): (n: nat)
    requires s != []
    ensures 1 <= n <= |s| && NoNewline(s[..n - 1])
    ensures n < |s| ==> s[n - 1] == '\n'
  {
    if s[0] == '\n' || |s| == 1 then 1
    else
      assert forall i :: 1 <= i <= SegmentLength(s[1..]) ==> s[..i] == [s[0]] + s[1..][..i - 1];
      1 + SegmentLength(s[1..])
  }

  /** `n` segments end at `p`; only the last of all may lack its newline. */
  ghost predicate SegmentsEndAt(content: string, p: nat, n: nat)
    requires p <= |content|
  {
    if p == 0 || content[p - 1] == '\n' then Newlines(content[..p]) == n
    else p == |content| && Newlines(content) + 1 == n
  }

  /** What the search for a line is to give. */
  ghost predicate IsBounds(content: string, line: nat, r: Option<(nat, nat)>) {
    if line <= Newlines(content) then
      exists a: nat, b: nat ::
        LineSpan(content, line, a, b) && r == Some((ByteLength(content[..a]), ByteLength(content[..b])))
    else if line == Newlines(content) + 1 && Unterminated(content) then
      r == Some((ByteLength(content), ByteLength(content)))
    else r == None
  }

  lemma SegmentIsLine(content: string, p: nat, n: nat, line: nat, b: nat)
    requires p < p + n <= |content| && SegmentsEndAt(content, p, line)
    requires NoNewline(content[p..p + n - 1]) && (p + n < |content| ==> content[p + n - 1] == '\n')
    requires b == if content[p + n - 1] == '\n' then p + n - 1 else p + n
    ensures line <= Newlines(content) && LineSpan(content, line, p, b)
  {
    NewlinesBetween(content, p, |content|);
    assert content[..|content|] == content;
    assert NoNewline(content[p..b]) by {
      assert forall i :: 0 <= i < b - p && i < n - 1 ==> content[p..b][i] == content[p..p + n - 1][i];
    }
  }

  lemma SegmentBytes(content: string, p: nat, n: nat, b: nat)
    requires p < p + n <= |content|
    requires b == if content[p + n - 1] == '\n' then p + n - 1 else p + n
    ensures ByteLength(content[..p + n]) == ByteLength(content[..p]) + ByteLength(content[p..p + n])
    ensures ByteLength(content[..b]) == ByteLength(content[..p + n]) - if content[p + n - 1] == '\n' then 1 else 0
  {
    var last := p + n - 1;
    BytesBetween(content, p, p + n);
    assert content[..p + n] == content[..last] + [content[last]];
    ByteLengthConcat(content[..last], [content[last]]);
    if content[last] == '\n' {
      ByteLengthAscii([content[last]]);
    }
  }

  lemma NextSegmentEnd(content: string, p: nat, n: nat, line: nat)
    requires p < p + n <= |content| && SegmentsEndAt(content, p, line)
    requires NoNewline(content[p..p + n - 1]) && (p + n < |content| ==> content[p + n - 1] == '\n')
    ensures SegmentsEndAt(content, p + n, line + 1)
  {
    var last := p + n - 1;
    NewlinesBetween(content, p, last);
    NoNewlines(content[p..last]);
    assert content[..p + n][..last] == content[..last];
    assert content[..|content|] == content;
  }

  lemma AfterLastSegment(content: string, line: nat, target: nat)
    requires SegmentsEndAt(content, |content|, line) && line <= target
    ensures IsBounds(content, target, if line == target then Some((ByteLength(content), ByteLength(content))) else None)
  {
    assert content[..|content|] == content;
    if line == target && !Unterminated(content) {
      assert LineSpan(content, line, |content|, |content|);
    }
  }

  /** The search has passed `line` segments, which end at character `p` and byte `start`. */
  ghost predicate Passed(content: string, p: nat, rest: string, start: nat, line: nat) {
    p <= |content| && rest == content[p..] && start == ByteLength(content[..p]) && SegmentsEndAt(content, p, line)
  }

  lemma RestIsContent(content: string, p: nat, rest: string, n: nat)
    requires p <= |content| && rest == content[p..] && 0 < n <= |rest|
    ensures rest[..n] == content[p..p + n] && rest[..n - 1] == content[p..p + n - 1]
    ensures rest[n..] == content[p + n..] && rest[n - 1] == content[p + n - 1]
  {
  }

  /** One segment: where it ends in bytes, the bounds it gives, and where the next one starts. */
  lemma SegmentStep(content: string, p: nat, rest: string, n: nat, line: nat, start: nat, end: nat, lineEnd: nat)
    requires Passed(content, p, rest, start, line) && 0 < n <= |rest|
    requires NoNewline(rest[..n - 1]) && (n < |rest| ==> rest[n - 1] == '\n')
    requires end == start + ByteLength(rest[..n])
    requires lineEnd == if rest[n - 1] == '\n' && end > 0 then end - 1 else end
    ensures IsBounds(content, line, Some((start, lineEnd)))
    ensures Passed(content, p + n, rest[n..], end, line + 1)
  {
    RestIsContent(content, p, rest, n);
    var b := if rest[n - 1] == '\n' then p + n - 1 else p + n;
    SegmentBytes(content, p, n, b);
    SegmentIsLine(content, p, n, line, b);
    NextSegmentEnd(content, p, n, line);
  }

  method NextSegment(content: string, rest: string, start: nat, ghost p: nat, ghost line: nat)
    returns (lineEnd: nat, end: nat, rest': string, ghost p': nat)
    requires Passed(content, p, rest, start, line) && rest != []
    ensures IsBounds(content, line, Some((start, lineEnd)))
    ensures Passed(content, p', rest', end, line + 1) && |rest'| < |rest|
  {
    var n := SegmentLength(rest);
    end := start + ByteLength(rest[..n]);
    lineEnd := if rest[n - 1] == '\n' && end > 0 then end - 1 else end;
    SegmentStep(content, p, rest, n, line, start, end, lineEnd);
    rest', p' := rest[n..], p + n;
  }

  lemma AllPassed(content: string, p: nat, start: nat, line: nat, target: nat)
    requires Passed(content, p, [], start, line) && line <= target
    ensures start == ByteLength(content)
    ensures IsBounds(content, target, if line == target then Some((start, start)) else None)
  {
    assert p == |content| && content[..p] == content;
    AfterLastSegment(content, line, target);
  }

  method FindLineBounds(content: string, targetLine: nat) returns (r: Option<(nat, nat)>)
    ensures IsBounds(content, targetLine, r)
  {
    var start: nat, lineIndex: nat, rest := 0, 0, content;
    ghost var p := 0;
    while rest != []
      invariant Passed(content, p, rest, start, lineIndex) && lineIndex <= targetLine
      decreases |rest|
    {
      var lineEnd, end;
      lineEnd, end, rest, p := NextSegment(content, rest, start, p, lineIndex);
      if lineIndex == targetLine {
        return Some((start, lineEnd));
      }
      start, lineIndex := end, lineIndex + 1;
    }
    AllPassed(content, p, start, lineIndex, targetLine);
    if lineIndex == targetLine && start <= ByteLength(content) {
      return Some((start, ByteLength(content)));
    }
    return None;
  }

  // ------------------------------------------------------- the position of an offset

  /** `k` characters start before the offset. */
  ghost predicate StartBefore(content: string, offset: nat, k: nat) {
    && k <= |content|
    && (forall i :: 0 <= i < k ==> ByteLength(content[..i]) < offset)
    && (k < |content| ==> ByteLength(content[..k]) >= offset)
  }

  method OffsetToLineCharacter(content: string, offset: nat) returns (line: nat, character: nat)
    ensures exists k: nat ::
              StartBefore(content, offset, k) && line == Newlines(content[..k]) && character == Column(content[..k])
  {
    line, character := 0, 0;
    var idx := 0;
    for k := 0 to |content|
      invariant idx == ByteLength(content[..k])
      invariant forall i :: 0 <= i < k ==> ByteLength(content[..i]) < offset
      invariant line == Newlines(content[..k]) && character == Column(content[..k])
    {
      if idx >= offset {
        assert StartBefore(content, offset, k);
        return;
      }
      var ch := content[k];
      assert content[..k + 1] == content[..k] + [ch];
      ByteLengthConcat(content[..k], [ch]);
      assert content[..k + 1][..k] == content[..k];
      if ch == '\n' {
        line, character := line + 1, 0;
      } else {
        character := character + 1;
      }
      idx := idx + CharLength(ch);
    }
    assert StartBefore(content, offset, |content|);
  }

  /** At the start of a character, exactly the characters in front of it start before. */
  lemma BoundaryIsExact(content: string, j: nat, k: nat)
    requires j <= |content| && StartBefore(content, ByteLength(content[..j]), k)
    ensures k == j
  {
    if k < j {
      assert content[k..j] != [];
      BytesBetween(content, k, j);
    }
  }

  // --------------------------------------------------------- a match within its line

  lemma {:induction false} ColumnFrom(content: string, a: nat, k: nat)
    requires a <= k <= |content| && (a == 0 || content[a - 1] == '\n') && NoNewline(content[a..k])
    ensures Column(content[..k]) == k - a
  {
    if k > a {
      assert content[a..k][k - 1 - a] == content[k - 1];
      assert content[a..k - 1] == content[a..k][..k - 1 - a];
      assert content[..k][..k - 1] == content[..k - 1];
      ColumnFrom(content, a, k - 1);
    }
  }

  /** The line that an offset is counted to be in contains it, and starts `Column` characters before it. */
  lemma LineContains(content: string, k: nat, a: nat, b: nat)
    requires k <= |content| && LineSpan(content, Newlines(content[..k]), a, b)
    ensures a <= k <= b && Column(content[..k]) == k - a
  {
    if k < a {
      assert content[k..a][a - 1 - k] == '\n';
      NoNewlines(content[k..a]);
      NewlinesBetween(content, k, a);
    } else {
      assert b < k ==> content[a..k][b - a] == content[b];
      NoNewlines(content[a..k]);
      NewlinesBetween(content, a, k);
      ColumnFrom(content, a, k);
    }
  }

  datatype Match = Match(line: nat, character: nat, lineText: seq<Byte>, relativeStart: nat)

  /** The match starts `character` characters into `lineText`, which is its whole line. */
  ghost predicate InItsLine(content: string, k: nat, m: Match) {
    exists a: nat, b: nat ::
      && LineSpan(content, m.line, a, b) && a <= k <= b && m.character == k - a
      && m.lineText == Encode(content[a..b])
      && m.relativeStart <= |m.lineText| && m.lineText[..m.relativeStart] == Encode(content[a..k])
  }

  lemma EncodedLine(content: string, a: nat, b: nat, from: nat, to: nat)
    requires a <= b <= |content| && from == ByteLength(content[..a]) && to == ByteLength(content[..b])
    ensures from <= to <= |Encode(content)| && Encode(content)[from..to] == Encode(content[a..b])
  {
    var x, y, z := content[..a], content[a..b], content[b..];
    assert content[..b] == x + y && content == x + y + z;
    EncodeConcat(x, y);
    EncodeConcat(x + y, z);
    EncodedLength(x);
    EncodedLength(content[..b]);
  }

  lemma EncodedFront(content: string, a: nat, k: nat, b: nat, n: nat)
    requires a <= k <= b <= |content| && n == ByteLength(content[..k]) - ByteLength(content[..a])
    ensures n <= |Encode(content[a..b])| && Encode(content[a..b])[..n] == Encode(content[a..k])
  {
    BytesBetween(content, a, k);
    EncodedLength(content[a..k]);
    assert content[a..b] == content[a..k] + content[k..b];
    EncodeConcat(content[a..k], content[k..b]);
  }

  /** The steps taken for each match, which starts at character `k`; the slice never fails. */
  method LocateMatch(content: string, start: nat, ghost k: nat) returns (found: Option<Match>)
    requires k <= |content| && start == ByteLength(content[..k])
    ensures found.Some? && InItsLine(content, k, found.value)
    ensures found.value.line == Newlines(content[..k]) && found.value.character == Column(content[..k])
  {
    var line, character := OffsetToLineCharacter(content, start);
    ghost var k': nat :| StartBefore(content, start, k')
      && line == Newlines(content[..k']) && character == Column(content[..k']);
    BoundaryIsExact(content, k, k');
    NewlinesBetween(content, k, |content|);
    assert content[..|content|] == content;
    var bounds := FindLineBounds(content, line);
    match bounds
    case None => return None;
    case Some((lineStart, lineEnd)) =>
      ghost var a: nat, b: nat :| LineSpan(content, line, a, b)
        && bounds == Some((ByteLength(content[..a]), ByteLength(content[..b])));
      LineContains(content, k, a, b);
      BytesBetween(content, a, k);
      EncodedLine(content, a, b, lineStart, lineEnd);
      var lineText := Encode(content)[lineStart..lineEnd];
      var relativeStart := if start >= lineStart then start - lineStart else 0;
      var m := Match(line, character, lineText, relativeStart);
      EncodedFront(content, a, k, b, relativeStart);
      return Some(m);
  }

  /** A text without a final newline has one line too many: the one after its end is found, empty. */
  lemma PhantomLine(content: string, line: nat, r: Option<(nat, nat)>)
    requires line == Newlines(content) + 1 && IsBounds(content, line, r)
    ensures r.Some? <==> Unterminated(content)
    ensures r.Some? ==> r.value.0 == r.value.1 == ByteLength(content)
    ensures !exists a: nat, b: nat :: LineSpan(content, line, a, b)
  {
    forall a: nat, b: nat
      ensures !LineSpan(content, line, a, b)
    {
      if LineSpan(content, line, a, b) {
        assert content[..|content|] == content;
        NewlinesBetween(content, a, |content|);
      }
    }
  }
}
