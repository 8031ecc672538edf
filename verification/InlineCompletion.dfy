/** Inline completion: the text around the cursor sent with a request, and what accepting an item
    of the response makes of the document. */
module InlineCompletion {
  import opened Wrappers

  datatype Position = Position(line: nat, character: nat)

  datatype Range = Range(start: Position, end: Position)

  datatype SelectedCompletionInfo = SelectedCompletionInfo(range: Range, text: string)

  predicate IsLineBreak(c: char) {
    c == '\r' || c == '\n'
  }

  /** A document with the offsets at which its lines start. */
  datatype TextDocument = TextDocument(text: string, lineOffsets: seq<nat>) {
    /** Line breaks stand only at the end of a line. */
    predicate Valid() {
      && Ordered()
      && forall line: nat, k: nat :: line < |lineOffsets| && lineOffsets[line] <= k < ContentEnd(line) ==>
           !IsLineBreak(text[k])
    }

    predicate Ordered() {
      && lineOffsets != [] && lineOffsets[0] == 0
      && (forall i, j :: 0 <= i <= j < |lineOffsets| ==> lineOffsets[i] <= lineOffsets[j])
      && lineOffsets[|lineOffsets| - 1] <= |text|
    }

    function LineEnd(line: nat): (r: nat)
      requires Ordered() && line < |lineOffsets|
      ensures lineOffsets[line] <= r <= |text|
    {
      if line + 1 < |lineOffsets| then lineOffsets[line + 1] else |text|
    }

    /** Steps back over the line break before an offset. */
    function BeforeLineBreak(offset: nat, lineStart: nat): (r: nat)
      requires lineStart <= offset <= |text|
      ensures lineStart <= r <= offset
    {
      if offset > lineStart && IsLineBreak(text[offset - 1]) then BeforeLineBreak(offset - 1, lineStart) else offset
    }

    /** The end of a line without its line break. */
    function ContentEnd(line: nat): (r: nat)
      requires Ordered() && line < |lineOffsets|
      ensures lineOffsets[line] <= r <= |text|
    {
      BeforeLineBreak(LineEnd(line), lineOffsets[line])
    }

    function OffsetAt(p: Position): (r: nat)
      requires Valid()
      ensures r <= |text|
    {
      if p.line >= |lineOffsets| then |text| else
      var start, end := lineOffsets[p.line], LineEnd(p.line);
      BeforeLineBreak(if start + p.character > end then end else start + p.character, start)
    }

    /** The text of a range, whichever end comes first. */
    function GetText(range: Range): string
      requires Valid()
    {
      var a, b := OffsetAt(range.start), OffsetAt(range.end);
      if a <= b then text[a..b] else text[b..a]
    }

    /** The position lies in the document, not behind the last character of its line. */
    predicate Contains(p: Position)
      requires Valid()
    {
      p.line < |lineOffsets| && lineOffsets[p.line] + p.character <= ContentEnd(p.line)
    }

    /** The offset of a position in the document is the plain sum; one behind its line means the end of
        its line, before the line break. */
    lemma {:induction false} OffsetIs(p: Position)
      requires Valid() && p.line < |lineOffsets|
      ensures OffsetAt(p) == if Contains(p) then lineOffsets[p.line] + p.character else ContentEnd(p.line)
    {
      BreakIsSkipped(p.line, if lineOffsets[p.line] + p.character > LineEnd(p.line) then LineEnd(p.line)
                             else lineOffsets[p.line] + p.character);
    }

    lemma {:induction false} BreakIsSkipped(line: nat, offset: nat)
      requires Valid() && line < |lineOffsets| && lineOffsets[line] <= offset <= LineEnd(line)
      ensures BeforeLineBreak(offset, lineOffsets[line])
              == if offset <= ContentEnd(line) then offset else ContentEnd(line)
    {
      BreakStepsBack(offset, LineEnd(line), lineOffsets[line]);
    }

    lemma {:induction false} BreakStepsBack(offset: nat, end: nat, lineStart: nat)
      requires lineStart <= offset <= end <= |text|
      ensures offset > BeforeLineBreak(end, lineStart) ==>
        BeforeLineBreak(offset, lineStart) == BeforeLineBreak(end, lineStart)
    {
      if offset < end {
        BreakStepsBack(offset, end - 1, lineStart);
      }
    }
  }

  /** `s.substring(from)` */
  function SubstringFrom(s: string, from: int): string {
    if from < 0 then s else if from > |s| then "" else s[from..]
  }

  /** The prefix and suffix of `getDocContext`. */
  function DocContext(document: TextDocument, position: Position, selected: Option<SelectedCompletionInfo>)
    : (string, string)
    requires document.Valid()
  {
    var prefix := match selected
      case Some(info) => document.text[..document.OffsetAt(info.range.start)] + info.text
      case None => document.text[..document.OffsetAt(position)];
    (prefix, document.text[document.OffsetAt(position)..])
  }

  datatype Suggestion = Text(text: string) | Stream(streamId: string)

  datatype InlineItem = InlineItem(insertText: string, range: Option<Range>)

  function MapOption(position: Position, selected: Option<SelectedCompletionInfo>, option: Suggestion): InlineItem {
    match option
    case Stream(_) => InlineItem("", None)
    case Text(text) =>
      var rangeDiff := match selected
        case Some(info) => info.range.end.character - info.range.start.character
        case None => 0;
      InlineItem(match selected
                 case Some(info) => SubstringFrom(info.text, rangeDiff) + text
                 case None => text,
                 Some(Range(position, position)))
  }

  /** What the editor does with an accepted item. */
  function Accept(document: TextDocument, item: InlineItem): string
    requires document.Valid()
  {
    match item.range
    case None => document.text
    case Some(range) =>
      var at := document.OffsetAt(range.start);
      document.text[..at] + item.insertText + document.text[at..]
  }

  function RejectedForMismatch(selected: Option<SelectedCompletionInfo>, document: TextDocument): bool
    requires document.Valid()
  {
    selected.Some? && !(document.GetText(selected.value.range) <= selected.value.text)
  }

  /** Accepting the item gives the document the request described, with the suggestion in between. */
  ghost predicate AcceptedAsRequested(document: TextDocument, position: Position,
                                      selected: Option<SelectedCompletionInfo>, text: string)
    requires document.Valid()
  {
    var (prefix, suffix) := DocContext(document, position, selected);
    Accept(document, MapOption(position, selected, Text(text))) == prefix + text + suffix
  }

  // ----- where a position is

  datatype Line = Line(content: string, lineBreak: string)

  function TextOf(lines: seq<Line>): string {
    if lines == [] then "" else
    var n := |lines| - 1;
    TextOf(lines[..n]) + lines[n].content + lines[n].lineBreak
  }

  /** Lines without line breaks inside, ended by `\n`, `\r\n` or `\r`, except the last. */
  ghost predicate AreLines(lines: seq<Line>) {
    && lines != []
    && (forall i :: 0 <= i < |lines| ==> '\r' !in lines[i].content && '\n' !in lines[i].content)
    && (forall i :: 0 <= i < |lines| - 1 ==>
          lines[i].lineBreak == "\n" || lines[i].lineBreak == "\r\n" || lines[i].lineBreak == "\r")
    && lines[|lines| - 1].lineBreak == ""
  }

  function DocumentOf(lines: seq<Line>): TextDocument {
    TextDocument(TextOf(lines), seq(|lines|, i requires 0 <= i < |lines| => |TextOf(lines[..i])|))
  }

  lemma {:induction false} TextSplits(lines: seq<Line>, i: nat)
    requires i < |lines|
    ensures TextOf(lines[..i + 1]) == TextOf(lines[..i]) + lines[i].content + lines[i].lineBreak
    ensures TextOf(lines[..i + 1]) <= TextOf(lines)
  {
    assert lines[..i + 1][..i] == lines[..i];
    var n := |lines| - 1;
    if i == n {
      assert lines[..i + 1] == lines;
    } else {
      TextSplits(lines[..n], i);
      assert lines[..n][..i + 1] == lines[..i + 1];
    }
  }

  lemma {:induction false} StartsGrow(lines: seq<Line>, i: nat, j: nat)
    requires i <= j <= |lines|
    ensures |TextOf(lines[..i])| <= |TextOf(lines[..j])|
  {
    if i < j {
      StartsGrow(lines, i, j - 1);
      TextSplits(lines, j - 1);
    }
  }

  /** The line from `start` to `end` consists of `content` and `lineBreak`. */
  lemma LineBreakIsSkipped(document: TextDocument, start: nat, content: string, lineBreak: string, k: nat)
    requires start + |content| + |lineBreak| <= |document.text| && k <= |lineBreak|
    requires document.text[start..start + |content| + |lineBreak|] == content + lineBreak
    requires '\r' !in content && '\n' !in content
    requires lineBreak == "" || lineBreak == "\n" || lineBreak == "\r\n" || lineBreak == "\r"
    ensures document.BeforeLineBreak(start + |content| + k, start) == start + |content|
  {
    var s := document.text[start..start + |content| + |lineBreak|];
    if k > 0 {
      assert document.text[start + |content| + k - 1] == s[|content| + k - 1] == lineBreak[k - 1];
      LineBreakIsSkipped(document, start, content, lineBreak, k - 1);
    } else if content != "" {
      assert document.text[start + |content| - 1] == s[|content| - 1] == content[|content| - 1];
    }
  }

  lemma DocumentIsOrdered(lines: seq<Line>)
    requires lines != []
    ensures DocumentOf(lines).Ordered()
  {
    hide TextOf;
    assert TextOf([]) == "" by { NoText(); }
    assert lines[..0] == [];
    forall a, b | 0 <= a <= b < |lines| ensures |TextOf(lines[..a])| <= |TextOf(lines[..b])| {
      StartsGrow(lines, a, b);
    }
    StartsGrow(lines, |lines| - 1, |lines|);
    assert lines[..|lines|] == lines;
  }

  lemma NoText()
    ensures TextOf([]) == ""
  {
  }

  lemma LineEndIs(lines: seq<Line>, i: nat)
    requires lines != [] && i < |lines| && DocumentOf(lines).Ordered()
    ensures DocumentOf(lines).LineEnd(i) == |TextOf(lines[..i + 1])|
  {
    hide TextOf;
    assert lines[..|lines|] == lines;
  }

  lemma LineIs(lines: seq<Line>, i: nat)
    requires AreLines(lines) && i < |lines|
    ensures var document := DocumentOf(lines); var start := |TextOf(lines[..i])|;
      && document.Ordered() && document.lineOffsets[i] == start
      && document.LineEnd(i) == start + |lines[i].content| + |lines[i].lineBreak|
      && document.text[start..document.LineEnd(i)] == lines[i].content + lines[i].lineBreak
      && document.ContentEnd(i) == start + |lines[i].content|
  {
    hide TextOf, TextDocument.Ordered, TextDocument.LineEnd, TextDocument.BeforeLineBreak;
    var document, line := DocumentOf(lines), lines[i];
    DocumentIsOrdered(lines);
    LineEndIs(lines, i);
    TextSplits(lines, i);
    PrefixSlice(document.text, TextOf(lines[..i]), line.content + line.lineBreak);
    assert TextOf(lines[..i]) + line.content + line.lineBreak == TextOf(lines[..i]) + (line.content + line.lineBreak);
    LineBreakIsSkipped(document, document.lineOffsets[i], line.content, line.lineBreak, |line.lineBreak|);
  }

  lemma PrefixSlice(text: string, before: string, line: string)
    requires before + line <= text
    ensures text[|before|..|before| + |line|] == line
  {
    assert text[..|before| + |line|] == before + line;
  }

  lemma DocumentIsValid(lines: seq<Line>)
    requires AreLines(lines)
    ensures DocumentOf(lines).Valid()
  {
    var document := DocumentOf(lines);
    LineIs(lines, 0);
    forall line: nat, k: nat | line < |lines| && document.lineOffsets[line] <= k < document.ContentEnd(line)
      ensures !IsLineBreak(document.text[k])
    {
      LineIs(lines, line);
      var start := document.lineOffsets[line];
assert document.text[k] == document.text[start..document.LineEnd(line)][k - start];
      assert document.text[k] == lines[line].content[k - start];
      assert lines[line].content[k - start] in lines[line].content;
    }
  }

  /** A position means that many characters into its line, at most to the end of its content; below the
      last line it means the end of the text. */
  lemma PositionIs(lines: seq<Line>, p: Position)
    requires AreLines(lines)
    ensures DocumentOf(lines).Valid()
    ensures DocumentOf(lines).OffsetAt(p) ==
      if p.line >= |lines| then |TextOf(lines)|
      else |TextOf(lines[..p.line])|
           + if p.character < |lines[p.line].content| then p.character else |lines[p.line].content|
  {
    DocumentIsValid(lines);
    if p.line < |lines| {
      LineIs(lines, p.line);
      DocumentOf(lines).OffsetIs(p);
    }
  }

  /** A range means the same text whichever end comes first: what stands between its ends. */
  lemma RangeText(document: TextDocument, range: Range)
    requires document.Valid()
    ensures document.GetText(range) == document.GetText(Range(range.end, range.start))
    ensures var a, b := document.OffsetAt(range.start), document.OffsetAt(range.end);
      a <= b ==> document.text[..a] + document.GetText(range) + document.text[b..] == document.text
  {
    var a, b := document.OffsetAt(range.start), document.OffsetAt(range.end);
    if a <= b {
      assert document.text == document.text[..a] + document.text[a..b] + document.text[b..];
    }
  }

  /** Starting a stream does not change the document. */
  lemma StreamsInsertNothing(document: TextDocument, position: Position, selected: Option<SelectedCompletionInfo>,
                             streamId: string)
    requires document.Valid()
    ensures Accept(document, MapOption(position, selected, Stream(streamId))) == document.text
  {
  }

  lemma SameTail(a: string, b: string, tail: string)
    ensures a + tail == b + tail <==> a == b
  {
    if a + tail == b + tail {
      assert |a| == |b|;
      assert a == (a + tail)[..|a|] == (b + tail)[..|b|] == b;
    }
  }

  lemma WithoutSelection(document: TextDocument, position: Position, text: string)
    requires document.Valid()
    ensures AcceptedAsRequested(document, position, None, text)
  {
  }

  lemma SameHead(head: string, a: string, b: string)
    ensures head + a == head + b <==> a == b
  {
    if head + a == head + b {
      assert a == (head + a)[|head|..] == (head + b)[|head|..] == b;
    }
  }

  /** How many characters of the selected text the mapper drops. */
  function Dropped(info: SelectedCompletionInfo): (r: nat)
    ensures r <= |info.text|
  {
    var diff := info.range.end.character - info.range.start.character;
    if diff < 0 then 0 else if diff > |info.text| then |info.text| else diff
  }

  /** With a selected completion the two agree exactly if the text between the start of the range and
      the cursor is what the selected text begins with and as long as what the mapper drops. */
  lemma WithSelection(document: TextDocument, position: Position, info: SelectedCompletionInfo, text: string)
    requires document.Valid()
    ensures var start, at := document.OffsetAt(info.range.start), document.OffsetAt(position);
      AcceptedAsRequested(document, position, Some(info), text) <==>
      at - start == Dropped(info) && document.text[start..at] <= info.text
  {
    var start, at := document.OffsetAt(info.range.start), document.OffsetAt(position);
    var rest := info.text[Dropped(info)..];
    var head, before, after := document.text[..start], document.text[..at], document.text[at..];
    assert AcceptedAsRequested(document, position, Some(info), text) <==>
      before + (rest + text) + after == head + info.text + text + after;
    hide AcceptedAsRequested, TextDocument.OffsetAt, Dropped;
    Regroup(before, rest, text, after);
    Regroup(head, info.text, text, after);
    SameTail(before + rest, head + info.text, text + after);
    CompletedExactly(document.text, start, at, info.text, Dropped(info));
  }

  lemma Regroup(a: string, b: string, c: string, d: string)
    ensures a + (b + c) + d == a + b + c + d == (a + b) + (c + d)
  {
  }

  lemma CompletedExactly(s: string, start: nat, at: nat, text: string, dropped: nat)
    requires start <= |s| && at <= |s| && dropped <= |text|
    ensures s[..at] + text[dropped..] == s[..start] + text <==> at - start == dropped && s[start..at] <= text
  {
    var head, rest := s[..start], text[dropped..];
    assert |s[..at] + rest| == |head + text| <==> at - start == dropped;
    if at - start == dropped {
      var typed := s[start..at];
      assert s[..at] == head + typed;
      assert (head + typed) + rest == head + (typed + rest);
      SameHead(head, typed + rest, text);
      assert text == text[..dropped] + rest;
      SameTail(typed, text[..dropped], rest);
    }
  }

  /** For a range on one line of the document and any cursor: a request the mismatch filter lets
      through is accepted as requested exactly if the range ends at the cursor, and one that it rejects
      would be exactly if the selected text is a proper part of what the range holds and ends at the
      cursor. */
  lemma FilterIsExact(document: TextDocument, position: Position, info: SelectedCompletionInfo, text: string)
    requires document.Valid() && document.Contains(info.range.end)
    requires info.range.start.line == info.range.end.line && info.range.start.character <= info.range.end.character
    ensures var start, end := document.OffsetAt(info.range.start), document.OffsetAt(info.range.end);
      var at := document.OffsetAt(position);
      && (!RejectedForMismatch(Some(info), document) ==>
            (AcceptedAsRequested(document, position, Some(info), text) <==> at == end))
      && (RejectedForMismatch(Some(info), document) ==>
            (AcceptedAsRequested(document, position, Some(info), text) <==>
               info.text < document.text[start..end] && at == start + |info.text|))
  {
    hide AcceptedAsRequested;
    WithSelection(document, position, info, text);
    document.OffsetIs(info.range.start);
    document.OffsetIs(info.range.end);
    var start, end := document.OffsetAt(info.range.start), document.OffsetAt(info.range.end);
    var at := document.OffsetAt(position);
    assert end - start == info.range.end.character - info.range.start.character;
    if start <= at <= end {
      assert document.text[start..at] == document.text[start..end][..at - start];
    }
  }

  /** So at the end of the range the filter decides. */
  lemma FilterDecidesAtCursor(document: TextDocument, position: Position, info: SelectedCompletionInfo, text: string)
    requires document.Valid() && document.Contains(position) && info.range.end == position
    requires info.range.start.line == position.line && info.range.start.character <= position.character
    ensures AcceptedAsRequested(document, position, Some(info), text)
            <==> !RejectedForMismatch(Some(info), document)
  {
    hide AcceptedAsRequested;
    FilterIsExact(document, position, info, text);
  }

  /** A range that ends before the cursor can pass the filter and still change the text around it. */
  lemma RangeShortOfCursor()
    ensures var document := TextDocument("fo ", [0]);
      var info := SelectedCompletionInfo(Range(Position(0, 0), Position(0, 2)), "foo");
      && document.Valid() && document.Contains(Position(0, 3))
      && !RejectedForMismatch(Some(info), document)
      && !AcceptedAsRequested(document, Position(0, 3), Some(info), "x")
  {
  }
}
