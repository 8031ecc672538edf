/** The content of merge requests attached to a prompt, and the budget they share. */
module MergeRequests {
  import opened ByteSize
  import opened Text

  datatype Diff = Diff(oldPath: string, newPath: string, clean: string)  // without its git markers

  datatype Note = Note(createdAt: int, body: string)

  datatype MergeRequest = MergeRequest(diffs: seq<Diff>, notes: seq<Note>)

  const MAX_BYTES: real := (0.8 * 100000.0).Floor as real * 3.0
  const CONTENT_SIZE: real := MAX_BYTES * 0.6

  /** `getAdvancedContextContentLimit` */
  function ContentLimit(splitBetween: nat): nat
    requires splitBetween > 0
  {
    LimitIsNatural(splitBetween);
    (CONTENT_SIZE / splitBetween as real).Floor
  }

  lemma LimitIsNatural(n: nat)
    requires n > 0
    ensures (CONTENT_SIZE / n as real).Floor >= 0
  {
  }

  /** The shares of `n` items never add up to more than 144000 bytes, and the next larger share would. */
  lemma ContentLimitShares(n: nat)
    requires n > 0
    ensures n * ContentLimit(n) <= 144000 < n * (ContentLimit(n) + 1)
  {
    assert CONTENT_SIZE == 144000.0;
    var share := 144000.0 / n as real;
    var q := share.Floor;
    assert q as real <= share < (q + 1) as real;
    AtMostShare(q, share, n, 144000);
    if n * (q + 1) <= 144000 {
      ShareAtLeast(q + 1, share, n, 144000);
    }
  }

  lemma AtMostShare(q: int, share: real, n: nat, total: int)
    requires n > 0 && share == total as real / n as real && q as real <= share
    ensures n * q <= total
  {
  }

  lemma ShareAtLeast(q: int, share: real, n: nat, total: int)
    requires n > 0 && share == total as real / n as real && n * q <= total
    ensures q as real <= share
  {
  }

  function FormatDiff(diff: Diff): string {
    "--- " + diff.oldPath + "\n+++ " + diff.newPath + "\n" + diff.clean
  }

  function JoinDiffs(diffs: seq<Diff>): string {
    if diffs == [] then "" else FormatDiff(diffs[0]) + JoinDiffs(diffs[1..])
  }

  function FormatDiffs(diffs: seq<Diff>, byteLimit: int): string {
    Truncate(JoinDiffs(diffs), byteLimit)
  }

  /** A stable sort by creation time. */
  function SortNotes(notes: seq<Note>): seq<Note> {
    if notes == [] then [] else InsertNote(SortNotes(notes[..|notes| - 1]), notes[|notes| - 1])
  }

  function InsertNote(sorted: seq<Note>, note: Note): seq<Note> {
    if sorted == [] || sorted[|sorted| - 1].createdAt <= note.createdAt then sorted + [note]
    else InsertNote(sorted[..|sorted| - 1], note) + [sorted[|sorted| - 1]]
  }

  function NotesAt(notes: seq<Note>, time: int): seq<Note> {
    if notes == [] then [] else
    var n := |notes| - 1;
    NotesAt(notes[..n], time) + if notes[n].createdAt == time then [notes[n]] else []
  }

  ghost predicate Chronological(notes: seq<Note>) {
    forall i, j :: 0 <= i < j < |notes| ==> notes[i].createdAt <= notes[j].createdAt
  }

  lemma {:induction false} InsertNoteKeepsOrder(sorted: seq<Note>, note: Note)
    requires Chronological(sorted)
    ensures Chronological(InsertNote(sorted, note))
    ensures InsertNote(sorted, note) != []
    ensures var last := InsertNote(sorted, note)[|InsertNote(sorted, note)| - 1].createdAt;
      last == note.createdAt || (sorted != [] && last == sorted[|sorted| - 1].createdAt)
  {
    if sorted != [] && sorted[|sorted| - 1].createdAt > note.createdAt {
      InsertNoteKeepsOrder(sorted[..|sorted| - 1], note);
    }
  }

  lemma NotesAtAppend(notes: seq<Note>, note: Note, time: int)
    ensures NotesAt(notes + [note], time) == NotesAt(notes, time) + if note.createdAt == time then [note] else []
  {
  }

  lemma {:induction false} InsertNoteGoesLast(sorted: seq<Note>, note: Note, time: int)
    ensures NotesAt(InsertNote(sorted, note), time) ==
      NotesAt(sorted, time) + if note.createdAt == time then [note] else []
  {
    hide NotesAt;
    if sorted == [] || sorted[|sorted| - 1].createdAt <= note.createdAt {
      NotesAtAppend(sorted, note, time);
    } else {
      var n := |sorted| - 1;
      var last := sorted[n];
      InsertNoteGoesLast(sorted[..n], note, time);
      NotesAtAppend(InsertNote(sorted[..n], note), last, time);
      NotesAtAppend(sorted[..n], last, time);
      assert sorted == sorted[..n] + [last];
      assert InsertNote(sorted, note) == InsertNote(sorted[..n], note) + [last];
      assert NotesAt(sorted, time) + [] == NotesAt(sorted, time);
    }
  }

  /** The notes end up in chronological order, those of one moment in their original order. */
  lemma {:induction false} SortNotesIsStable(notes: seq<Note>, time: int)
    ensures Chronological(SortNotes(notes))
    ensures NotesAt(SortNotes(notes), time) == NotesAt(notes, time)
  {
    if notes != [] {
      var n := |notes| - 1;
      SortNotesIsStable(notes[..n], time);
      InsertNoteKeepsOrder(SortNotes(notes[..n]), notes[n]);
      InsertNoteGoesLast(SortNotes(notes[..n]), notes[n], time);
    }
  }

  function Bodies(notes: seq<Note>): (r: seq<string>)
    ensures |r| == |notes| && forall i :: 0 <= i < |r| ==> r[i] == notes[i].body
  {
    seq(|notes|, i requires 0 <= i < |notes| => notes[i].body)
  }

  function JoinNotes(notes: seq<Note>): string {
    Join(Bodies(notes), "\n\n")
  }

  function FormatNotes(notes: seq<Note>, byteLimit: int): string {
    Truncate(JoinNotes(SortNotes(notes)), byteLimit)
  }

  /** The diff and note sections of one of `splitBetween` merge requests. */
  function Sections(mr: MergeRequest, splitBetween: nat): (string, string)
    requires splitBetween > 0
  {
    var limit := ContentLimit(splitBetween) / 2;
    (FormatDiffs(mr.diffs, limit), FormatNotes(mr.notes, limit))
  }

  function FormatMergeRequestContent(header: string, mr: MergeRequest, splitBetween: nat): string
    requires splitBetween > 0
  {
    var (diffs, notes) := Sections(mr, splitBetween);
    header + "\n\nChanges:\n" + diffs + "\n\nComments:\n" + notes
  }

  /** The content line by line: the header, the diffs under their heading, then the notes under theirs. */
  lemma ContentLines(header: string, mr: MergeRequest, splitBetween: nat)
    requires splitBetween > 0
    ensures var limit := ContentLimit(splitBetween) / 2;
      Split(FormatMergeRequestContent(header, mr, splitBetween), '\n')
      == Split(header, '\n') + ["", "Changes:"] + Split(FormatDiffs(mr.diffs, limit), '\n')
         + ["", "Comments:"] + Split(FormatNotes(mr.notes, limit), '\n')
  {
    hide Split, FormatDiffs, FormatNotes, ContentLimit;
    var limit := ContentLimit(splitBetween) / 2;
    var diffs, notes := FormatDiffs(mr.diffs, limit), FormatNotes(mr.notes, limit);
    UnderHeading(header, "Changes:", diffs + "\n\nComments:\n" + notes);
    UnderHeading(diffs, "Comments:", notes);
    assert FormatMergeRequestContent(header, mr, splitBetween)
           == header + "\n\n" + "Changes:" + "\n" + (diffs + "\n\nComments:\n" + notes) by {
      assert header + "\n\nChanges:\n" == header + "\n\n" + "Changes:" + "\n";
    }
    assert diffs + "\n\nComments:\n" + notes == diffs + "\n\n" + "Comments:" + "\n" + notes;
  }

  lemma UnderHeading(above: string, heading: string, below: string)
    requires '\n' !in heading
    ensures Split(above + "\n\n" + heading + "\n" + below, '\n')
            == Split(above, '\n') + ["", heading] + Split(below, '\n')
  {
    hide Split;
    var rest := heading + "\n" + below;
    assert above + "\n\n" + heading + "\n" + below == above + ['\n'] + ("" + ['\n'] + rest);
    assert rest == heading + ['\n'] + below;
    SplitConcat(above, "" + ['\n'] + rest, '\n');
    SplitConcat("", rest, '\n');
    SplitConcat(heading, below, '\n');
    SplitWhole("", '\n');
    SplitWhole(heading, '\n');
  }

  /** A diff line by line. */
  lemma DiffLines(diff: Diff)
    requires '\n' !in diff.oldPath && '\n' !in diff.newPath
    ensures Split(FormatDiff(diff), '\n')
            == ["--- " + diff.oldPath, "+++ " + diff.newPath] + Split(diff.clean, '\n')
  {
    hide Split;
    var first, second := "--- " + diff.oldPath, "+++ " + diff.newPath;
    assert FormatDiff(diff) == first + ['\n'] + (second + ['\n'] + diff.clean);
    SplitConcat(first, second + ['\n'] + diff.clean, '\n');
    SplitConcat(second, diff.clean, '\n');
    SplitWhole(first, '\n');
    SplitWhole(second, '\n');
  }

  /** Diffs follow each other directly. */
  lemma {:induction false} JoinDiffsConcat(a: seq<Diff>, b: seq<Diff>)
    ensures JoinDiffs(a + b) == JoinDiffs(a) + JoinDiffs(b)
  {
    hide FormatDiff;
    if a == [] {
      assert a + b == b;
    } else {
      JoinDiffsConcat(a[1..], b);
      assert (a + b)[1..] == a[1..] + b && (a + b)[0] == a[0];
      var first, middle, last := FormatDiff(a[0]), JoinDiffs(a[1..]), JoinDiffs(b);
      assert JoinDiffs(a + b) == first + JoinDiffs(a[1..] + b);
      assert first + (middle + last) == (first + middle) + last;
    }
  }

  lemma OneDiff(diff: Diff)
    ensures JoinDiffs([diff]) == FormatDiff(diff)
  {
    hide FormatDiff;
    assert JoinDiffs([diff]) == FormatDiff(diff) + JoinDiffs([diff][1..]);
  }

  /** Sections that fit are complete: all diffs in order, and all notes in chronological order with a
      blank line between two of them. */
  lemma FittingSectionsAreComplete(mr: MergeRequest, byteLimit: int)
    ensures GetByteSize(JoinDiffs(mr.diffs)) <= byteLimit ==> FormatDiffs(mr.diffs, byteLimit) == JoinDiffs(mr.diffs)
    ensures var notes := SortNotes(mr.notes);
      GetByteSize(Join(Bodies(notes), "\n\n")) <= byteLimit ==>
        FormatNotes(mr.notes, byteLimit) == Join(Bodies(notes), "\n\n")
  {
    hide GetByteSize, SortNotes, Join, JoinDiffs, TruncateToByteLimit;
    if GetByteSize(JoinDiffs(mr.diffs)) <= byteLimit {
      FittingTextIsKept(JoinDiffs(mr.diffs), byteLimit, LastWhitespaceRun);
    }
    if GetByteSize(JoinNotes(SortNotes(mr.notes))) <= byteLimit {
      FittingTextIsKept(JoinNotes(SortNotes(mr.notes)), byteLimit, LastWhitespaceRun);
    }
  }

  lemma {:induction false} AsciiSize(s: string)
    requires forall i :: 0 <= i < |s| ==> s[i] < '\U{80}'
    ensures GetByteSize(s) == |s|
  {
    if s != "" {
      AsciiSize(s[1..]);
    }
  }

  /** Besides its header and its two sections the content has 23 bytes of headings. */
  lemma ContentSize(header: string, mr: MergeRequest, splitBetween: nat)
    requires splitBetween > 0
    ensures var (diffs, notes) := Sections(mr, splitBetween);
      GetByteSize(FormatMergeRequestContent(header, mr, splitBetween))
      == GetByteSize(header) + GetByteSize(diffs) + GetByteSize(notes) + 23
  {
    hide GetByteSize, FormatDiffs, FormatNotes, ContentLimit;
    var (diffs, notes) := Sections(mr, splitBetween);
    var changes, comments := "\n\nChanges:\n", "\n\nComments:\n";
    AsciiSize(changes);
    AsciiSize(comments);
    SizeConcat(header, changes);
    SizeConcat(header + changes, diffs);
    SizeConcat(header + changes + diffs, comments);
    SizeConcat(header + changes + diffs + comments, notes);
  }

  /** The diffs and notes of all merge requests. */
  ghost function BodySize(mrs: seq<MergeRequest>, splitBetween: nat): nat
    requires splitBetween > 0
  {
    if mrs == [] then 0 else
    var n := |mrs| - 1;
    var (diffs, notes) := Sections(mrs[n], splitBetween);
    BodySize(mrs[..n], splitBetween) + GetByteSize(diffs) + GetByteSize(notes)
  }

  /** What the contents take besides their headers. */
  ghost function ContentsSize(headers: seq<string>, mrs: seq<MergeRequest>, splitBetween: nat): int
    requires splitBetween > 0 && |headers| == |mrs|
  {
    if mrs == [] then 0 else
    var n := |mrs| - 1;
    ContentsSize(headers[..n], mrs[..n], splitBetween)
    + GetByteSize(FormatMergeRequestContent(headers[n], mrs[n], splitBetween)) - GetByteSize(headers[n])
  }

  lemma {:induction false} ContentsSizeIs(headers: seq<string>, mrs: seq<MergeRequest>, splitBetween: nat)
    requires splitBetween > 0 && |headers| == |mrs|
    ensures ContentsSize(headers, mrs, splitBetween) == BodySize(mrs, splitBetween) + 23 * |mrs|
  {
    hide GetByteSize, FormatMergeRequestContent, Sections;
    if mrs != [] {
      var n := |mrs| - 1;
      ContentsSizeIs(headers[..n], mrs[..n], splitBetween);
      ContentSize(headers[n], mrs[n], splitBetween);
    }
  }

  /** How many of the sections broke their limit by cutting a character. */
  ghost function Overshootings(mrs: seq<MergeRequest>, splitBetween: nat): nat
    requires splitBetween > 0
  {
    if mrs == [] then 0 else
    var n := |mrs| - 1;
    var limit := ContentLimit(splitBetween) / 2;
    Overshootings(mrs[..n], splitBetween)
    + (if Overshoots(JoinDiffs(mrs[n].diffs), limit) then 1 else 0)
    + (if Overshoots(JoinNotes(SortNotes(mrs[n].notes)), limit) then 1 else 0)
  }

  lemma {:induction false} BodySizeBound(mrs: seq<MergeRequest>, splitBetween: nat)
    requires splitBetween > 0
    ensures BodySize(mrs, splitBetween)
            <= |mrs| * (2 * (ContentLimit(splitBetween) / 2)) + 2 * Overshootings(mrs, splitBetween)
    ensures Overshootings(mrs, splitBetween) <= 2 * |mrs|
  {
    hide Truncate, GetByteSize, Overshoots, ContentLimit, SortNotes, JoinNotes, JoinDiffs;
    if mrs != [] {
      var n := |mrs| - 1;
      var limit := ContentLimit(splitBetween) / 2;
      BodySizeBound(mrs[..n], splitBetween);
      TruncateExactly(JoinDiffs(mrs[n].diffs), limit);
      TruncateExactly(JoinNotes(SortNotes(mrs[n].notes)), limit);
      assert |mrs| * (2 * limit) == n * (2 * limit) + 2 * limit;
    }
  }

  /** All attached merge requests together stay within 144000 bytes of diffs and notes, plus two
      bytes for each section that was cut through a character; headers and headings come on top. */
  lemma MergeRequestsShareTheBudget(headers: seq<string>, mrs: seq<MergeRequest>)
    requires mrs != [] && |headers| == |mrs|
    ensures BodySize(mrs, |mrs|) <= 144000 + 2 * Overshootings(mrs, |mrs|)
    ensures BodySize(mrs, |mrs|) <= 144000 + 4 * |mrs|
    ensures ContentsSize(headers, mrs, |mrs|) == BodySize(mrs, |mrs|) + 23 * |mrs|
  {
    var n := |mrs|;
    var q := ContentLimit(n);
    BodySizeBound(mrs, n);
    ContentLimitShares(n);
    Shares(n, 2 * (q / 2), q);
    ContentsSizeIs(headers, mrs, n);
  }

  lemma Shares(n: nat, a: nat, b: nat)
    requires a <= b
    ensures n * a <= n * b
  {
  }
}
