/** The cache of code suggestions: what it is keyed by, how typed-ahead text trims what it returns,
    and how often it returns an entry. */
module SuggestionsCaches {
  import opened Wrappers
  import opened Text

  datatype Suggestion = Suggestion(text: string, trackingId: nat, details: nat)

  datatype Request = Request(
    uri: string, line: nat, character: nat, prefix: string, suffix: string, additionalContexts: nat)

  datatype Config = Config(enabled: bool, prefixLines: nat, suffixLines: nat)

  datatype Entry = Entry(
    character: nat, suggestions: seq<Suggestion>, currentLine: string,
    timesRetrieved: map<nat, nat>, additionalContexts: nat)

  datatype Served = Served(options: seq<Suggestion>, additionalContexts: nat)

  // ----- the key

  function Digit(n: nat): char
    requires n < 10
  {
    ['0', '1', '2', '3', '4', '5', '6', '7', '8', '9'][n]
  }

  function Decimal(n: nat): string {
    if n < 10 then [Digit(n)] else Decimal(n / 10) + [Digit(n % 10)]
  }

  lemma DecimalIsInjective(m: nat, n: nat)
    ensures Decimal(m) == Decimal(n) ==> m == n
  {
    DecimalRoundTrip(m);
    DecimalRoundTrip(n);
  }

  /** The number a numeral stands for. */
  function ValueOf(numeral: string): int {
    if numeral == "" then 0 else
    var n := |numeral| - 1;
    10 * ValueOf(numeral[..n]) + (numeral[n] as int - '0' as int)
  }

  lemma {:induction false} DecimalRoundTrip(n: nat)
    ensures ValueOf(Decimal(n)) == n
  {
    if n >= 10 {
      DecimalRoundTrip(n / 10);
      var numeral := Decimal(n);
      assert numeral[..|numeral| - 1] == Decimal(n / 10);
    }
  }

  function CurrentLine(prefix: string): string {
    var lines := Split(prefix, '\n');
    lines[|lines| - 1]
  }

  /** How many whitespace characters the line starts with. */
  function Indentation(line: string): nat {
    if line == "" || !IsWhitespace(line[0]) then 0 else 1 + Indentation(line[1..])
  }

  function NonEmptyLines(lines: seq<string>): seq<string> {
    if lines == [] then []
    else (if HasVisible(lines[0]) then [lines[0]] else []) + NonEmptyLines(lines[1..])
  }

  /** `lines.slice(-n)`, which for `n == 0` is the whole array. */
  function LastLines(lines: seq<string>, n: nat): seq<string> {
    if n == 0 || n >= |lines| then lines else lines[|lines| - n..]
  }

  function FirstLines(lines: seq<string>, n: nat): seq<string> {
    if n >= |lines| then lines else lines[..n]
  }

  /** The non-blank lines above the current one. */
  function KeptAbove(prefix: string): seq<string> {
    var lines := Split(prefix, '\n');
    NonEmptyLines(lines[..|lines| - 1])
  }

  function LinesBefore(config: Config, r: Request): seq<string> {
    LastLines(KeptAbove(r.prefix), config.prefixLines)
  }

  function LinesAfter(config: Config, r: Request): seq<string> {
    FirstLines(NonEmptyLines(Split(r.suffix, '\n')), config.suffixLines)
  }

  /** Everything in the key but the indentation. */
  function KeyBase(config: Config, r: Request): string {
    var before, after := Join(LinesBefore(config, r), "\n"), Join(LinesAfter(config, r), "\n");
    r.uri + ":" + Decimal(r.line) + ":" + before + ":" + after + ":"
  }

  function SuggestionKey(config: Config, r: Request): string {
    KeyBase(config, r) + Decimal(Indentation(CurrentLine(r.prefix)))
  }

  lemma VisibleFirst(s: string)
    requires s != ""
    ensures HasVisible(s) <==> !IsWhitespace(s[0]) || HasVisible(s[1..])
  {
    assert forall i :: 0 <= i < |s[1..]| ==> s[1..][i] == s[i + 1];
    if HasVisible(s) && IsWhitespace(s[0]) {
      var i :| 0 <= i < |s| && !IsWhitespace(s[i]);
      assert s[1..][i - 1] == s[i];
    }
  }

  lemma {:induction false} IndentationExtended(line: string, typed: string)
    ensures Indentation(line + typed) == Indentation(line) <==>
      HasVisible(line) || typed == "" || !IsWhitespace(typed[0])
  {
    if line == "" {
      assert line + typed == typed;
    } else {
      IndentationExtended(line[1..], typed);
      assert (line + typed)[1..] == line[1..] + typed;
      VisibleFirst(line);
    }
  }

  /** Typing on in the same line finds the same entry, exactly unless it adds to the indentation. */
  lemma TypingKeepsKey(config: Config, r: Request, typed: string, character: nat)
    requires '\n' !in typed
    ensures var later := r.(prefix := r.prefix + typed, character := character);
      && CurrentLine(later.prefix) == CurrentLine(r.prefix) + typed
      && (SuggestionKey(config, later) == SuggestionKey(config, r) <==>
            HasVisible(CurrentLine(r.prefix)) || typed == "" || !IsWhitespace(typed[0]))
  {
    hide Split, Join, Decimal, Indentation, HasVisible, NonEmptyLines, FirstLines, LastLines;
    var line := CurrentLine(r.prefix);
    TypingExtends(r.prefix, typed);
    var base := KeyBase(config, r);
    var a, b := Decimal(Indentation(line)), Decimal(Indentation(line + typed));
    assert base + a == base + b <==> a == b by {
      assert (base + a)[|base|..] == a && (base + b)[|base|..] == b;
    }
    DecimalIsInjective(Indentation(line), Indentation(line + typed));
    IndentationExtended(line, typed);
  }

  lemma TypingExtends(prefix: string, typed: string)
    requires '\n' !in typed
    ensures CurrentLine(prefix + typed) == CurrentLine(prefix) + typed
    ensures KeptAbove(prefix + typed) == KeptAbove(prefix)
  {
    hide Split;
    SplitExtended(prefix, typed, '\n');
    var lines, more := Split(prefix, '\n'), Split(prefix + typed, '\n');
    assert more[..|more| - 1] == lines[..|lines| - 1];
  }

  lemma {:induction false} NonEmptyLinesConcat(a: seq<string>, b: seq<string>)
    ensures NonEmptyLines(a + b) == NonEmptyLines(a) + NonEmptyLines(b)
  {
    if a == [] {
      assert a + b == b;
    } else {
      hide HasVisible;
      var head := if HasVisible(a[0]) then [a[0]] else [];
      var first, second := NonEmptyLines(a[1..]), NonEmptyLines(b);
      NonEmptyLinesConcat(a[1..], b);
      assert (a + b)[1..] == a[1..] + b && (a + b)[0] == a[0];
      assert (head + first) + second == head + (first + second);
    }
  }

  /** Lines outside the configured window do not matter: with enough non-blank lines around the
      cursor, text above and below them leaves the key unchanged. */
  lemma FarLinesDoNotMatter(config: Config, r: Request, above: string, below: string)
    requires var lines := Split(r.prefix, '\n');
      0 < config.prefixLines <= |NonEmptyLines(lines[..|lines| - 1])|
    requires config.suffixLines <= |NonEmptyLines(Split(r.suffix, '\n'))|
    ensures SuggestionKey(config, r.(prefix := above + "\n" + r.prefix, suffix := r.suffix + "\n" + below))
            == SuggestionKey(config, r)
  {
    hide Split, Join, NonEmptyLines, LastLines, FirstLines, Decimal, Indentation;
    SplitConcat(above, r.prefix, '\n');
    SplitConcat(r.suffix, below, '\n');
    var lines, more := Split(r.prefix, '\n'), Split(above, '\n');
    assert (more + lines)[..|more + lines| - 1] == more + lines[..|lines| - 1];
    NonEmptyLinesConcat(more, lines[..|lines| - 1]);
    NonEmptyLinesConcat(Split(r.suffix, '\n'), Split(below, '\n'));
    LastOfConcat(NonEmptyLines(more), NonEmptyLines(lines[..|lines| - 1]), config.prefixLines);
    FirstOfConcat(NonEmptyLines(Split(r.suffix, '\n')), NonEmptyLines(Split(below, '\n')), config.suffixLines);
  }

  /** A text has a line that is kept exactly if it has a visible character. */
  lemma {:induction false} KeptLines(s: string)
    ensures NonEmptyLines(Split(s, '\n')) == [] <==> !HasVisible(s)
  {
    if s != "" {
      var rest := Split(s[1..], '\n');
      KeptLines(s[1..]);
      VisibleFirst(s);
      VisibleFirst([s[0]] + rest[0]);
      assert ([s[0]] + rest[0])[1..] == rest[0];
      assert Split(s, '\n')[1..] == if s[0] == '\n' then rest else rest[1..];
    }
  }

  lemma {:induction false} NoEmptyLineKept(lines: seq<string>)
    ensures "" !in NonEmptyLines(lines)
  {
    if lines != [] {
      NoEmptyLineKept(lines[1..]);
    }
  }

  /** More lines join to a longer text. */
  lemma {:induction false} JoinGrows(more: seq<string>, lines: seq<string>)
    requires more != [] && "" !in more
    ensures |Join(more + lines, "\n")| > |Join(lines, "\n")|
  {
    assert (more + lines)[1..] == more[1..] + lines;
    assert more[0] in more;
    if |more| > 1 {
      assert forall line :: line in more[1..] ==> line in more;
      JoinGrows(more[1..], lines);
    } else {
      assert more[1..] + lines == lines;
    }
  }

  lemma {:induction false} KeptLinesAreLines(lines: seq<string>)
    requires forall line :: line in lines ==> '\n' !in line
    ensures forall line :: line in NonEmptyLines(lines) ==> '\n' !in line
  {
    if lines != [] {
      assert lines[0] in lines && forall line :: line in lines[1..] ==> line in lines;
      KeptLinesAreLines(lines[1..]);
    }
  }

  /** Joined lines tell which lines they were. */
  lemma JoinIsInjective(a: seq<string>, b: seq<string>)
    requires "" !in a && "" !in b
    requires (forall line :: line in a ==> '\n' !in line) && forall line :: line in b ==> '\n' !in line
    ensures Join(a, "\n") == Join(b, "\n") ==> a == b
  {
    hide Split;
    if Join(a, "\n") == Join(b, "\n") {
      assert a + [] == a && b + [] == b;
      if a != [] && b != [] {
        SplitJoin(a, '\n');
        SplitJoin(b, '\n');
      } else if a != [] {
        JoinGrows(a, []);
      } else if b != [] {
        JoinGrows(b, []);
      }
    }
  }

  lemma MiddlesAgree(before: string, a: string, b: string, after: string)
    ensures before + a + after == before + b + after <==> a == b
  {
    if before + a + after == before + b + after {
      var x, y := before + a + after, before + b + after;
      assert x[|before|..|before| + |a|] == a && y[|before|..|before| + |b|] == b;
    }
  }

  lemma {:induction false} DecimalHasNoColon(n: nat)
    ensures ':' !in Decimal(n)
  {
    if n >= 10 {
      DecimalHasNoColon(n / 10);
    }
  }

  lemma LastColon(a: string, x: string)
    requires ':' !in x
    ensures var s := a + ":" + x; s[|a|] == ':' && forall i :: |a| < i < |s| ==> s[i] != ':'
  {
    var s := a + ":" + x;
    assert forall i :: |a| < i < |s| ==> s[i] == x[i - |a| - 1] && x[i - |a| - 1] in x;
  }

  /** The last field of a text can be told from the rest. */
  lemma LastFieldIsUnique(a: string, b: string, x: string, y: string)
    requires ':' !in x && ':' !in y
    ensures a + ":" + x == b + ":" + y <==> a == b && x == y
  {
    var s, t := a + ":" + x, b + ":" + y;
    LastColon(a, x);
    LastColon(b, y);
    if s == t {
      assert s[..|a|] == a && t[..|b|] == b && s[|a| + 1..] == x && t[|b| + 1..] == y;
    }
  }

  lemma KeptAreVisible(prefix: string)
    ensures "" !in KeptAbove(prefix) && forall line :: line in KeptAbove(prefix) ==> '\n' !in line
  {
    hide NonEmptyLines;
    var lines := Split(prefix, '\n');
    JoinSplit(prefix, '\n');
    forall line | line in lines[..|lines| - 1] ensures '\n' !in line {
      var k :| 0 <= k < |lines| - 1 && lines[k] == line;
      assert Free(lines[k], '\n');
    }
    KeptLinesAreLines(lines[..|lines| - 1]);
    NoEmptyLineKept(lines[..|lines| - 1]);
  }

  lemma KeptConcat(above: string, prefix: string)
    ensures KeptAbove(above + "\n" + prefix) == NonEmptyLines(Split(above, '\n')) + KeptAbove(prefix)
    ensures CurrentLine(above + "\n" + prefix) == CurrentLine(prefix)
  {
    hide Split, NonEmptyLines;
    SplitConcat(above, prefix, '\n');
    var lines, more := Split(prefix, '\n'), Split(above, '\n');
    assert (more + lines)[..|more + lines| - 1] == more + lines[..|lines| - 1];
    NonEmptyLinesConcat(more, lines[..|lines| - 1]);
  }

  function KeyStart(r: Request): string {
    r.uri + ":" + Decimal(r.line) + ":"
  }

  function KeyAfter(config: Config, r: Request): string {
    ":" + Join(FirstLines(NonEmptyLines(Split(r.suffix, '\n')), config.suffixLines), "\n")
  }

  lemma ZeroPrefixKey(config: Config, r: Request)
    requires config.prefixLines == 0
    ensures SuggestionKey(config, r)
            == KeyStart(r) + Join(KeptAbove(r.prefix), "\n") + KeyAfter(config, r) + ":"
               + Decimal(Indentation(CurrentLine(r.prefix)))
  {
    hide Split, Join, NonEmptyLines, FirstLines, Decimal, Indentation;
    var after := Join(FirstLines(NonEmptyLines(Split(r.suffix, '\n')), config.suffixLines), "\n");
    Reassociate(KeyStart(r) + Join(KeptAbove(r.prefix), "\n"), after);
  }

  lemma Reassociate(start: string, after: string)
    ensures start + ":" + after == start + (":" + after)
  {
  }

  /** A window of no prefix lines is not empty but the whole prefix, since `slice(-0)` is `slice(0)`:
      two prefixes lead to the same key exactly if all their non-blank lines above the cursor and the
      indentation at it are the same. */
  lemma ZeroPrefixLinesMeansAll(config: Config, r: Request, prefix: string, other: string)
    requires config.prefixLines == 0
    ensures SuggestionKey(config, r.(prefix := prefix)) == SuggestionKey(config, r.(prefix := other)) <==>
      KeptAbove(prefix) == KeptAbove(other) && Indentation(CurrentLine(prefix)) == Indentation(CurrentLine(other))
  {
    hide Split, Join, FirstLines, Decimal, Indentation, CurrentLine, SuggestionKey, KeptAbove;
    var m, n := Indentation(CurrentLine(prefix)), Indentation(CurrentLine(other));
    var start, after := KeyStart(r), KeyAfter(config, r);
    ZeroPrefixKey(config, r.(prefix := prefix));
    ZeroPrefixKey(config, r.(prefix := other));
    DecimalHasNoColon(m);
    DecimalHasNoColon(n);
    LastFieldIsUnique(start + Join(KeptAbove(prefix), "\n") + after, start + Join(KeptAbove(other), "\n") + after,
                      Decimal(m), Decimal(n));
    DecimalIsInjective(m, n);
    MiddlesAgree(start, Join(KeptAbove(prefix), "\n"), Join(KeptAbove(other), "\n"), after);
    KeptAreVisible(prefix);
    KeptAreVisible(other);
    JoinIsInjective(KeptAbove(prefix), KeptAbove(other));
  }

  /** So text further up leaves the key unchanged exactly if it is blank. */
  lemma BlankTextAboveIsFree(config: Config, r: Request, above: string)
    requires config.prefixLines == 0
    ensures SuggestionKey(config, r.(prefix := above + "\n" + r.prefix)) == SuggestionKey(config, r) <==>
      !HasVisible(above)
  {
    hide SuggestionKey, KeptAbove, CurrentLine, HasVisible, Split;
    KeptConcat(above, r.prefix);
    ZeroPrefixLinesMeansAll(config, r, above + "\n" + r.prefix, r.prefix);
    assert r.(prefix := r.prefix) == r;
    KeptLines(above);
    if NonEmptyLines(Split(above, '\n')) == [] {
      assert [] + KeptAbove(r.prefix) == KeptAbove(r.prefix);
    } else {
      assert |KeptAbove(above + "\n" + r.prefix)| > |KeptAbove(r.prefix)|;
    }
  }

  lemma EarlierLineMatters(config: Config, r: Request)
    requires config.prefixLines == 0
    ensures SuggestionKey(config, r.(prefix := "a\n")) != SuggestionKey(config, r.(prefix := "b\n"))
  {
    hide SuggestionKey;
    assert !IsWhitespace("a"[0]) && !IsWhitespace("b"[0]);
    OneLineAbove("a");
    OneLineAbove("b");
    ZeroPrefixLinesMeansAll(config, r, "a\n", "b\n");
    assert ["a"][0] != ["b"][0];
  }

  lemma OneLineAbove(line: string)
    requires '\n' !in line && HasVisible(line)
    ensures KeptAbove(line + "\n") == [line] && CurrentLine(line + "\n") == ""
  {
    SplitConcat(line, "", '\n');
    SplitWhole(line, '\n');
    assert line + ['\n'] + "" == line + "\n";
    assert [line, ""][..1] == [line];
    assert NonEmptyLines([line]) == [line] + NonEmptyLines([line][1..]);
  }

  ghost predicate NoColon(lines: seq<string>) {
    forall line :: line in lines ==> ':' !in line
  }

  lemma {:induction false} JoinHasNoColon(lines: seq<string>)
    requires NoColon(lines)
    ensures ':' !in Join(lines, "\n")
  {
    if lines != [] {
      assert lines[0] in lines && forall line :: line in lines[1..] ==> line in lines;
      JoinHasNoColon(lines[1..]);
    }
  }

  lemma WindowsAreVisible(config: Config, r: Request)
    ensures "" !in LinesBefore(config, r) && forall line :: line in LinesBefore(config, r) ==> '\n' !in line
    ensures "" !in LinesAfter(config, r) && forall line :: line in LinesAfter(config, r) ==> '\n' !in line
  {
    hide Split, NonEmptyLines, KeptAbove;
    KeptAreVisible(r.prefix);
    var lines := Split(r.suffix, '\n');
    JoinSplit(r.suffix, '\n');
    forall line | line in lines ensures '\n' !in line {
      var k :| 0 <= k < |lines| && lines[k] == line;
      assert Free(lines[k], '\n');
    }
    KeptLinesAreLines(lines);
    NoEmptyLineKept(lines);
  }

  /** Two requests whose kept lines hold no colon lead to the same key exactly if they agree in URI,
      line number, kept lines and indentation. */
  lemma KeyIsUnique(config: Config, r: Request, q: Request)
    requires NoColon(LinesBefore(config, r)) && NoColon(LinesAfter(config, r))
    requires NoColon(LinesBefore(config, q)) && NoColon(LinesAfter(config, q))
    ensures SuggestionKey(config, r) == SuggestionKey(config, q) <==>
      && r.uri == q.uri && r.line == q.line
      && LinesBefore(config, r) == LinesBefore(config, q) && LinesAfter(config, r) == LinesAfter(config, q)
      && Indentation(CurrentLine(r.prefix)) == Indentation(CurrentLine(q.prefix))
  {
    hide Split, Join, Decimal, Indentation, CurrentLine, LinesBefore, LinesAfter, NoColon;
    var m, n := Indentation(CurrentLine(r.prefix)), Indentation(CurrentLine(q.prefix));
    FieldsAreUnique(config, r, q, Decimal(m), Decimal(n));
    DecimalIsInjective(m, n);
    DecimalIsInjective(r.line, q.line);
    WindowsAreVisible(config, r);
    WindowsAreVisible(config, q);
    JoinIsInjective(LinesBefore(config, r), LinesBefore(config, q));
    JoinIsInjective(LinesAfter(config, r), LinesAfter(config, q));
  }

  lemma FieldsAreUnique(config: Config, r: Request, q: Request, x: string, y: string)
    requires NoColon(LinesBefore(config, r)) && NoColon(LinesAfter(config, r))
    requires NoColon(LinesBefore(config, q)) && NoColon(LinesAfter(config, q))
    requires x == Decimal(Indentation(CurrentLine(r.prefix))) && y == Decimal(Indentation(CurrentLine(q.prefix)))
    ensures SuggestionKey(config, r) == SuggestionKey(config, q) <==>
      && r.uri == q.uri && Decimal(r.line) == Decimal(q.line)
      && Join(LinesBefore(config, r), "\n") == Join(LinesBefore(config, q), "\n")
      && Join(LinesAfter(config, r), "\n") == Join(LinesAfter(config, q), "\n")
      && x == y
  {
    DecimalHasNoColon(Indentation(CurrentLine(r.prefix)));
    DecimalHasNoColon(Indentation(CurrentLine(q.prefix)));
    DecimalHasNoColon(r.line);
    DecimalHasNoColon(q.line);
    JoinHasNoColon(LinesBefore(config, r));
    JoinHasNoColon(LinesAfter(config, r));
    JoinHasNoColon(LinesBefore(config, q));
    JoinHasNoColon(LinesAfter(config, q));
    hide Split, Join, Decimal, Indentation, CurrentLine, LinesBefore, LinesAfter, NoColon;
    var a, b := Decimal(r.line), Decimal(q.line);
    var c, d := Join(LinesBefore(config, r), "\n"), Join(LinesBefore(config, q), "\n");
    var e, f := Join(LinesAfter(config, r), "\n"), Join(LinesAfter(config, q), "\n");
    LastFieldIsUnique(r.uri + ":" + a + ":" + c + ":" + e, q.uri + ":" + b + ":" + d + ":" + f, x, y);
    LastFieldIsUnique(r.uri + ":" + a + ":" + c, q.uri + ":" + b + ":" + d, e, f);
    LastFieldIsUnique(r.uri + ":" + a, q.uri + ":" + b, c, d);
    LastFieldIsUnique(r.uri, q.uri, a, b);
  }

  /** A colon in a kept line can pass for the one between two fields: with windows of one line these
      different surroundings share a key. */
  lemma ColonsCollide(config: Config, r: Request)
    requires config.prefixLines == 1 && config.suffixLines == 1
    ensures var q, other := r.(prefix := "a:b\n", suffix := "c"), r.(prefix := "a\n", suffix := "b:c");
      && SuggestionKey(config, q) == SuggestionKey(config, other)
      && LinesBefore(config, q) != LinesBefore(config, other)
      && LinesAfter(config, q) != LinesAfter(config, other)
  {
    hide Decimal, Indentation, SuggestionKey, LinesBefore, LinesAfter;
    var q, other := r.(prefix := "a:b\n", suffix := "c"), r.(prefix := "a\n", suffix := "b:c");
    OneLineEachSide(config, q, "a:b");
    OneLineEachSide(config, other, "a");
    assert ["a:b"][0] != ["a"][0] && ["c"][0] != ["b:c"][0];
    ColonMoves(r.uri + ":" + Decimal(r.line) + ":", "a", "b", "c");
    assert "a" + ":" + "b" == "a:b" && "b" + ":" + "c" == "b:c";
  }

  lemma ColonMoves(start: string, x: string, y: string, z: string)
    ensures start + (x + ":" + y) + ":" + z == start + x + ":" + (y + ":" + z)
  {
  }

  lemma OneLineEachSide(config: Config, r: Request, above: string)
    requires config.prefixLines == 1 && config.suffixLines == 1
    requires r.prefix == above + "\n" && above != "" && '\n' !in above && !IsWhitespace(above[0])
    requires '\n' !in r.suffix && r.suffix != "" && !IsWhitespace(r.suffix[0])
    ensures LinesBefore(config, r) == [above] && LinesAfter(config, r) == [r.suffix]
    ensures SuggestionKey(config, r)
            == r.uri + ":" + Decimal(r.line) + ":" + above + ":" + r.suffix + ":" + Decimal(Indentation(""))
  {
    OneLineAbove(above);
    SplitWhole(r.suffix, '\n');
    assert NonEmptyLines([r.suffix]) == [r.suffix] + NonEmptyLines([r.suffix][1..]);
    assert Join([above], "\n") == above && Join([r.suffix], "\n") == r.suffix;
  }

  lemma LastOfConcat(a: seq<string>, b: seq<string>, n: nat)
    requires 0 < n <= |b|
    ensures LastLines(a + b, n) == LastLines(b, n)
  {
  }

  lemma FirstOfConcat(a: seq<string>, b: seq<string>, n: nat)
    requires n <= |a|
    ensures FirstLines(a + b, n) == FirstLines(a, n)
  {
  }

  /** The windows hold as many lines as configured, or all there are: those nearest to the cursor. */
  lemma WindowsAreNearest(lines: seq<string>, n: nat)
    ensures n > 0 ==> |LastLines(lines, n)| == if n < |lines| then n else |lines|
    ensures |FirstLines(lines, n)| == if n < |lines| then n else |lines|
    ensures LastLines(lines, n) == lines[|lines| - |LastLines(lines, n)|..]
    ensures FirstLines(lines, n) <= lines
  {
  }

  /** The indentation is where the first visible character of a line stands. */
  lemma {:induction false} IndentationIs(line: string)
    ensures Indentation(line) <= |line|
    ensures forall i :: 0 <= i < Indentation(line) ==> IsWhitespace(line[i])
    ensures Indentation(line) < |line| ==> !IsWhitespace(line[Indentation(line)])
  {
    if line != "" && IsWhitespace(line[0]) {
      hide IsWhitespace;
      IndentationIs(line[1..]);
      assert forall i :: 0 < i < |line| ==> line[i] == line[1..][i - 1];
    }
  }

  /** The current line is what stands behind the last line break. */
  lemma CurrentLineIs(above: string, line: string)
    requires '\n' !in line
    ensures CurrentLine(line) == line && CurrentLine(above + "\n" + line) == line
  {
    hide Split;
    SplitWhole(line, '\n');
    SplitConcat(above, line, '\n');
  }

  lemma NonEmptyLinesOf(line: string)
    ensures NonEmptyLines([line]) == if HasVisible(line) then [line] else []
  {
    assert NonEmptyLines([line][1..]) == [];
    assert [line] + [] == [line];
  }

  // ----- what an entry offers at a later position

  /** The callback of `map`: what is left of a suggestion, or nothing. */
  function Remainder(cachedLine: string, currentLine: string, text: string): Option<string> {
    var diff := |currentLine| - |cachedLine|;
    if diff < 0 then None
    else if diff >= |text| then None
    else if currentLine[..|cachedLine|] != cachedLine || text[..diff] != currentLine[|cachedLine|..] then None
    else Some(text[diff..])
  }

  /** The map and filter over all suggestions; each option kept gets a fresh tracking id. */
  function Remainders(cachedLine: string, currentLine: string, suggestions: seq<Suggestion>, id: nat): seq<Suggestion> {
    if suggestions == [] then [] else
    var n := |suggestions| - 1;
    var kept := Remainders(cachedLine, currentLine, suggestions[..n], id);
    match Remainder(cachedLine, currentLine, suggestions[n].text)
    case None => kept
    case Some(text) => kept + [suggestions[n].(text := text, trackingId := id + |kept|)]
  }

  /** The user has typed a proper prefix of the suggestion since it was cached. */
  ghost predicate TypedAhead(cachedLine: string, currentLine: string, text: string) {
    exists typed :: currentLine == cachedLine + typed && typed < text
  }

  /** `option` is what is left of `suggestion`: accepting it gives the line the suggestion was made for. */
  ghost predicate Continues(cachedLine: string, currentLine: string, suggestion: Suggestion, option: Suggestion) {
    && option.text != ""
    && currentLine + option.text == cachedLine + suggestion.text
    && option.details == suggestion.details
  }

  lemma RemainderExactly(cachedLine: string, currentLine: string, suggestion: Suggestion)
    ensures var r := Remainder(cachedLine, currentLine, suggestion.text);
      && (r.Some? <==> TypedAhead(cachedLine, currentLine, suggestion.text))
      && forall id :: r.Some? ==>
           Continues(cachedLine, currentLine, suggestion, suggestion.(text := r.value, trackingId := id))
  {
    var text := suggestion.text;
    if |currentLine| >= |cachedLine| {
      var typed := currentLine[|cachedLine|..];
      assert currentLine == currentLine[..|cachedLine|] + typed;
      if |typed| < |text| {
        assert text == text[..|typed|] + text[|typed|..];
      }
    }
  }

  /** The options are, in stored order, exactly the suggestions of which the user has typed a proper
      prefix, each with its own tracking id. */
  lemma {:induction false} OptionsExactly(cachedLine: string, currentLine: string, suggestions: seq<Suggestion>,
                                          id: nat)
    returns (kept: seq<nat>)
    ensures |kept| == |Remainders(cachedLine, currentLine, suggestions, id)|
    ensures forall i :: 0 <= i < |kept| ==>
      var option := Remainders(cachedLine, currentLine, suggestions, id)[i];
      && kept[i] < |suggestions| && Continues(cachedLine, currentLine, suggestions[kept[i]], option)
      && option.trackingId == id + i
    ensures forall i, j :: 0 <= i < j < |kept| ==> kept[i] < kept[j]
    ensures forall k :: 0 <= k < |suggestions| ==>
      (k in kept <==> TypedAhead(cachedLine, currentLine, suggestions[k].text))
  {
    hide Continues, TypedAhead, Remainder;
    if suggestions == [] {
      kept := [];
    } else {
      var n := |suggestions| - 1;
      kept := OptionsExactly(cachedLine, currentLine, suggestions[..n], id);
      RemainderExactly(cachedLine, currentLine, suggestions[n]);
      if Remainder(cachedLine, currentLine, suggestions[n].text).Some? {
        kept := kept + [n];
      }
    }
  }

  // ----- runs

  datatype State = State(cache: map<string, Entry>, nextTrackingId: nat)

  datatype Event =
    | Add(config: Config, request: Request, suggestions: seq<Suggestion>)
    | Get(config: Config, request: Request, expires: bool)  // the entry may expire while it is read
    | Vanish(keys: set<string>)                             // the LRU cache drops entries at any time

  const EMPTY := State(map[], 0)

  function NewEntry(r: Request, suggestions: seq<Suggestion>): Entry {
    Entry(r.character, suggestions, CurrentLine(r.prefix), map[], r.additionalContexts)
  }

  predicate WasServed(entry: Entry, character: nat) {
    character in entry.timesRetrieved && entry.timesRetrieved[character] > 0
  }

  function CountUp(entry: Entry, character: nat): Entry {
    var times := if character in entry.timesRetrieved then entry.timesRetrieved[character] else 0;
    entry.(timesRetrieved := entry.timesRetrieved[character := times + 1])
  }

  /** What `getCachedSuggestions` returns. */
  function Answer(s: State, config: Config, r: Request): Option<Served> {
    var key := SuggestionKey(config, r);
    if !config.enabled || key !in s.cache || WasServed(s.cache[key], r.character) then None else
    var entry := s.cache[key];
    Some(Served(Remainders(entry.currentLine, CurrentLine(r.prefix), entry.suggestions, s.nextTrackingId),
                entry.additionalContexts))
  }

  function Next(s: State, e: Event): State {
    match e
    case Add(config, r, suggestions) =>
      if !config.enabled then s else
      s.(cache := s.cache[SuggestionKey(config, r) := NewEntry(r, suggestions)])
    case Get(config, r, expires) =>
      var key := SuggestionKey(config, r);
      var answer := Answer(s, config, r);
      if !config.enabled || key !in s.cache then s
      else if answer.None? then s.(cache := s.cache - {key})
      else State(if expires then s.cache - {key} else s.cache[key := CountUp(s.cache[key], r.character)],
                 s.nextTrackingId + |answer.value.options|)
    case Vanish(keys) => s.(cache := s.cache - keys)
  }

  function Run(s: State, events: seq<Event>): State {
    if events == [] then s else Next(Run(s, events[..|events| - 1]), events[|events| - 1])
  }

  ghost predicate CountersSmall(s: State) {
    forall key, c :: key in s.cache && c in s.cache[key].timesRetrieved ==> s.cache[key].timesRetrieved[c] == 1
  }

  /** Over any run every stored retrieval counter is 1. */
  lemma {:induction false} CountersStaySmall(events: seq<Event>)
    ensures CountersSmall(Run(EMPTY, events))
  {
    if events != [] {
      hide SuggestionKey, Remainders, CurrentLine;
      CountersStaySmall(events[..|events| - 1]);
    }
  }

  /** The entry at `key`, if there is one, was already served at this position. */
  ghost predicate Spent(s: State, key: string, character: nat) {
    key in s.cache ==> WasServed(s.cache[key], character)
  }

  ghost predicate NeverStores(events: seq<Event>, key: string) {
    forall e :: e in events && e.Add? && e.config.enabled ==> SuggestionKey(e.config, e.request) != key
  }

  lemma {:induction false} SpentLasts(s: State, events: seq<Event>, key: string, character: nat)
    requires Spent(s, key, character) && NeverStores(events, key)
    ensures Spent(Run(s, events), key, character)
  {
    if events != [] {
      hide SuggestionKey, Remainders, CurrentLine;
      var n := |events| - 1;
      assert events[n] in events;
      SpentLasts(s, events[..n], key, character);
    }
  }

  /** A stored entry is served at most once per position: whatever happens in between, short of
      storing a new entry under its key, the next query at that position finds nothing and leaves
      the key empty. */
  lemma {:induction false} ServedOncePerPosition(s: State, first: Event, events: seq<Event>, second: Event)
    requires first.Get? && Answer(s, first.config, first.request).Some?
    requires second.Get? && second.config.enabled
    requires SuggestionKey(second.config, second.request) == SuggestionKey(first.config, first.request)
    requires second.request.character == first.request.character
    requires NeverStores(events, SuggestionKey(first.config, first.request))
    ensures var t := Run(Next(s, first), events);
      && Answer(t, second.config, second.request) == None
      && SuggestionKey(second.config, second.request) !in Next(t, second).cache
  {
    hide SuggestionKey, Remainders, CurrentLine;
    SpentLasts(Next(s, first), events, SuggestionKey(first.config, first.request), first.request.character);
  }

  predicate Asks(e: Event, key: string, character: nat) {
    e.Get? && e.config.enabled && SuggestionKey(e.config, e.request) == key && e.request.character == character
  }

  predicate AskedAt(events: seq<Event>, key: string, character: nat) {
    exists i :: 0 <= i < |events| && Asks(events[i], key, character)
  }

  ghost predicate AskedTwice(events: seq<Event>, key: string) {
    exists i, c :: 0 <= i < |events| && Asks(events[i], key, c) && AskedAt(events[..i], key, c)
  }

  /** Nothing stores under the key, drops its entry, or lets it expire. */
  ghost predicate LeavesAlone(e: Event, key: string) {
    match e
    case Add(config, r, _) => config.enabled ==> SuggestionKey(config, r) != key
    case Get(config, r, expires) => config.enabled && expires ==> SuggestionKey(config, r) != key
    case Vanish(keys) => key !in keys
  }

  lemma AskedAppend(events: seq<Event>, e: Event, key: string)
    ensures forall c :: AskedAt(events + [e], key, c) <==> AskedAt(events, key, c) || Asks(e, key, c)
    ensures AskedTwice(events + [e], key) <==>
      AskedTwice(events, key) || exists c :: Asks(e, key, c) && AskedAt(events, key, c)
  {
    hide Asks;
    var more, n := events + [e], |events|;
    assert forall i :: 0 <= i < n ==> more[..i] == events[..i] && more[i] == events[i];
    assert more[..n] == events && more[n] == e;
  }

  /** The entry at the key is `entry`, with each position of `asked` counted once. */
  ghost predicate Holds(s: State, key: string, entry: Entry, asked: iset<nat>) {
    && key in s.cache && s.cache[key] == entry.(timesRetrieved := s.cache[key].timesRetrieved)
    && (forall c :: c in s.cache[key].timesRetrieved <==> c in asked)
    && (forall c :: c in asked ==> s.cache[key].timesRetrieved[c] == 1)
  }

  lemma HoldsStep(s: State, e: Event, key: string, entry: Entry, asked: iset<nat>)
    requires Holds(s, key, entry, asked) && LeavesAlone(e, key)
    ensures if exists c :: Asks(e, key, c) && c in asked then key !in Next(s, e).cache
            else Holds(Next(s, e), key, entry, iset c | c in asked || Asks(e, key, c))
  {
    hide SuggestionKey, Remainders, CurrentLine;
    if e.Get? && e.config.enabled && SuggestionKey(e.config, e.request) == key {
      assert Asks(e, key, e.request.character);
    }
  }

  lemma AbsentStays(s: State, e: Event, key: string)
    requires key !in s.cache && LeavesAlone(e, key)
    ensures key !in Next(s, e).cache
  {
    hide SuggestionKey, Remainders, CurrentLine;
  }

  /** What holds of the key after some events. */
  ghost predicate HoldsAfter(s: State, events: seq<Event>, key: string, entry: Entry) {
    if AskedTwice(events, key) then key !in s.cache
    else Holds(s, key, entry, iset c | AskedAt(events, key, c))
  }

  lemma HoldsAfterStep(s: State, events: seq<Event>, e: Event, key: string, entry: Entry)
    requires HoldsAfter(s, events, key, entry) && LeavesAlone(e, key)
    ensures HoldsAfter(Next(s, e), events + [e], key, entry)
  {
    hide Holds, LeavesAlone, Asks, Next, AskedTwice, AskedAt;
    AskedAppend(events, e, key);
    var asked := iset c | AskedAt(events, key, c);
    if AskedTwice(events, key) {
      AbsentStays(s, e, key);
    } else {
      HoldsStep(s, e, key, entry, asked);
      assert (iset c | c in asked || Asks(e, key, c)) == iset c | AskedAt(events + [e], key, c);
    }
  }

  lemma HoldsAtFirst(s: State, key: string, entry: Entry)
    requires Holds(s, key, entry, iset{})
    ensures HoldsAfter(s, [], key, entry)
  {
    assert (iset c | AskedAt([], key, c)) == iset{};
  }

  lemma {:induction false} EntryHolds(s: State, events: seq<Event>, key: string, entry: Entry)
    requires Holds(s, key, entry, iset{}) && forall e :: e in events ==> LeavesAlone(e, key)
    ensures HoldsAfter(Run(s, events), events, key, entry)
  {
    hide Holds, HoldsAfter, LeavesAlone, Next;
    if events == [] {
      HoldsAtFirst(s, key, entry);
    } else {
      var n := |events| - 1;
      EntryHolds(s, events[..n], key, entry);
      assert events[n] in events && events == events[..n] + [events[n]];
      HoldsAfterStep(Run(s, events[..n]), events[..n], events[n], key, entry);
    }
  }

  lemma {:induction false} AbsentLasts(s: State, events: seq<Event>, key: string)
    requires key !in s.cache && NeverStores(events, key)
    ensures key !in Run(s, events).cache
  {
    if events != [] {
      hide SuggestionKey, Remainders, CurrentLine;
      var n := |events| - 1;
      assert events[n] in events;
      AbsentLasts(s, events[..n], key);
    }
  }

  /** An entry that was dropped by the cache, or expired while it was read, is not served any more. */
  lemma LostIsNotServed(s: State, lost: Event, events: seq<Event>, config: Config, r: Request)
    requires var key := SuggestionKey(config, r);
      && NeverStores(events, key)
      && match lost
         case Add(_, _, _) => false
         case Get(c, q, expires) => c.enabled && expires && SuggestionKey(c, q) == key
         case Vanish(keys) => key in keys
    ensures Answer(Run(Next(s, lost), events), config, r) == None
  {
    hide SuggestionKey, Remainders, CurrentLine, NeverStores;
    AbsentLasts(Next(s, lost), events, SuggestionKey(config, r));
  }

  /** Over any run that neither stores again under the key of a stored entry nor loses it, a question at
      that key is answered exactly if no position was asked twice since, this one included; the answer
      is what the suggestions leave to be typed. */
  lemma ServedAtEveryPosition(s: State, stored: Event, events: seq<Event>, config: Config, r: Request)
    requires stored.Add? && stored.config.enabled && config.enabled
    requires SuggestionKey(config, r) == SuggestionKey(stored.config, stored.request)
    requires forall e :: e in events ==> LeavesAlone(e, SuggestionKey(config, r))
    ensures var t := Run(Next(s, stored), events); var key := SuggestionKey(config, r);
      Answer(t, config, r) ==
      if AskedTwice(events, key) || AskedAt(events, key, r.character) then None
      else Some(Served(Remainders(CurrentLine(stored.request.prefix), CurrentLine(r.prefix), stored.suggestions,
                                  t.nextTrackingId),
                       stored.request.additionalContexts))
  {
    hide SuggestionKey, Remainders, CurrentLine, AskedTwice, AskedAt, LeavesAlone, Run;
    EntryHolds(Next(s, stored), events, SuggestionKey(config, r), NewEntry(stored.request, stored.suggestions));
  }

  /** A suggestion is stored, the user types on without adding to the indentation, and asks again:
      the answer holds exactly the suggestions that continue what was typed. */
  lemma StoreTypeAsk(s: State, config: Config, r: Request, suggestions: seq<Suggestion>, typed: string, character: nat)
    requires config.enabled && '\n' !in typed
    requires HasVisible(CurrentLine(r.prefix)) || typed == "" || !IsWhitespace(typed[0])
    ensures var later := r.(prefix := r.prefix + typed, character := character);
      var line := CurrentLine(r.prefix);
      Answer(Next(s, Add(config, r, suggestions)), config, later)
      == Some(Served(Remainders(line, line + typed, suggestions, s.nextTrackingId), r.additionalContexts))
  {
    TypingKeepsKey(config, r, typed, character);
  }

  class SuggestionsCache {
    var cache: map<string, Entry>
    var nextTrackingId: nat

    ghost function View(): State reads this {
      State(cache, nextTrackingId)
    }

    constructor ()
      ensures View() == EMPTY
    {
      cache, nextTrackingId := map[], 0;
    }

    method AddToSuggestionCache(config: Config, request: Request, suggestions: seq<Suggestion>)
      modifies this`cache
      ensures View() == Next(old(View()), Add(config, request, suggestions))
    {
      if !config.enabled {
        return;
      }
      var key := SuggestionKey(config, request);
      cache := cache[key := Entry(request.character, suggestions, CurrentLine(request.prefix), map[],
                                  request.additionalContexts)];
    }

    method GetCachedSuggestions(config: Config, request: Request, expires: bool) returns (served: Option<Served>)
      modifies this
      ensures served == old(Answer(View(), config, request))
      ensures View() == Next(old(View()), Get(config, request, expires))
    {
      hide SuggestionKey, CurrentLine;
      if !config.enabled {
        return None;
      }
      var key := SuggestionKey(config, request);
      if key !in cache {
        return None;
      }
      var candidate := cache[key];
      if WasServed(candidate, request.character) {
        cache := cache - {key};
        return None;
      }
      if expires {
        cache := cache - {key};
      }
      IncreaseCacheEntryRetrievedCount(key, request.character);
      var options := TrimSuggestions(candidate, CurrentLine(request.prefix));
      return Some(Served(options, candidate.additionalContexts));
    }

    method IncreaseCacheEntryRetrievedCount(key: string, character: nat)
      modifies this`cache
      ensures cache == if key in old(cache) then old(cache)[key := CountUp(old(cache)[key], character)] else old(cache)
    {
      if key in cache {
        cache := cache[key := CountUp(cache[key], character)];
      }
    }

    /** The map and filter of the suggestions, with a tracking id generated for each one kept. */
    method TrimSuggestions(candidate: Entry, currentLine: string) returns (options: seq<Suggestion>)
      modifies this`nextTrackingId
      ensures options == Remainders(candidate.currentLine, currentLine, candidate.suggestions, old(nextTrackingId))
      ensures nextTrackingId == old(nextTrackingId) + |options|
    {
      options := [];
      var suggestions := candidate.suggestions;
      for i := 0 to |suggestions|
        invariant options == Remainders(candidate.currentLine, currentLine, suggestions[..i], old(nextTrackingId))
        invariant nextTrackingId == old(nextTrackingId) + |options|
      {
        assert suggestions[..i + 1][..i] == suggestions[..i];
        var text := Remainder(candidate.currentLine, currentLine, suggestions[i].text);
        if text.Some? {
          options := options + [suggestions[i].(text := text.value, trackingId := nextTrackingId)];
          nextTrackingId := nextTrackingId + 1;
        }
      }
      assert suggestions[..|suggestions|] == suggestions;
    }
  }
}
