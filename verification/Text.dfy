/** Strings as the source's regular expressions and `trim` see them. */
module Text {

  /** The characters matched by `\s` and removed by `trim` in JavaScript. */
  predicate IsWhitespace(c: char) {
    c in " \t\n\r" || c == '\U{B}' || c == '\U{C}' || c == '\U{A0}' || c == '\U{1680}'
    || '\U{2000}' <= c <= '\U{200A}' || c == '\U{2028}' || c == '\U{2029}' || c == '\U{202F}'
    || c == '\U{205F}' || c == '\U{3000}' || c == '\U{FEFF}'
  }

  /** `s.replace(/\s/g, '').length` is not zero. */
  predicate HasVisible(s: string) {
    exists i :: 0 <= i < |s| && !IsWhitespace(s[i])
  }

  /** Its code points in the Unicode tables: tab, line feed, vertical tab, form feed, carriage return, and
      the space and line separators. */
  lemma WhitespaceIs(c: char)
    ensures IsWhitespace(c) <==>
      c as int in {9, 10, 11, 12, 13, 32, 160, 5760, 8232, 8233, 8239, 8287, 12288, 65279} || 8192 <= c as int <= 8202
  {
  }

  lemma VisibleConcat(a: string, b: string, c: char)
    ensures !HasVisible("")
    ensures HasVisible([c]) <==> !IsWhitespace(c)
    ensures HasVisible(a + b) <==> HasVisible(a) || HasVisible(b)
  {
    hide IsWhitespace;
    assert forall i :: 0 <= i < |a| ==> (a + b)[i] == a[i];
    assert forall i :: 0 <= i < |b| ==> (a + b)[|a| + i] == b[i];
    if !IsWhitespace(c) {
      assert [c][0] == c;
    }
  }

  function Join(parts: seq<string>, separator: string): string {
    if parts == [] then "" else
    if |parts| == 1 then parts[0] else parts[0] + separator + Join(parts[1..], separator)
  }

  /** `s.split(separator)` for a one-character separator. */
  function Split(s: string, separator: char): (r: seq<string>)
    ensures r != []
  {
    if s == "" then [""] else
    var rest := Split(s[1..], separator);
    if s[0] == separator then [""] + rest else rest[0 := [s[0]] + rest[0]]
  }

  predicate Free(part: string, separator: char) {
    separator !in part
  }

  /** The parts are free of the separator, and joining them gives the string back. */
  lemma {:induction false} JoinSplit(s: string, separator: char)
    ensures forall k :: 0 <= k < |Split(s, separator)| ==> Free(Split(s, separator)[k], separator)
    ensures Join(Split(s, separator), [separator]) == s
  {
    if s != "" {
      JoinSplit(s[1..], separator);
      var rest, r := Split(s[1..], separator), Split(s, separator);
      if s[0] == separator {
        assert r[1..] == rest;
      } else {
        assert r[1..] == rest[1..];
      }
    }
  }

  /** Splitting undoes joining, so a string has only one such decomposition. */
  lemma {:induction false} SplitJoin(parts: seq<string>, separator: char)
    requires parts != [] && forall part :: part in parts ==> separator !in part
    ensures Split(Join(parts, [separator]), separator) == parts
  {
    var s := Join(parts, [separator]);
    if |parts| == 1 {
      SplitWhole(parts[0], separator);
      assert parts == [parts[0]];
    } else {
      SplitJoin(parts[1..], separator);
      SplitConcat(parts[0], Join(parts[1..], [separator]), separator);
      SplitWhole(parts[0], separator);
      assert s == parts[0] + [separator] + Join(parts[1..], [separator]);
    }
  }

  lemma SplitWhole(s: string, separator: char)
    requires separator !in s
    ensures Split(s, separator) == [s]
  {
    if s != "" {
      SplitWhole(s[1..], separator);
      assert s[0] in s && s == [s[0]] + s[1..];
    }
  }

  /** Splitting at a separator gives the parts on both sides of it. */
  lemma {:induction false} SplitConcat(a: string, b: string, separator: char)
    ensures Split(a + [separator] + b, separator) == Split(a, separator) + Split(b, separator)
  {
    var s := a + [separator] + b;
    if a == "" {
      assert s[1..] == b;
    } else {
      SplitConcat(a[1..], b, separator);
      assert s[1..] == a[1..] + [separator] + b && s[0] == a[0];
      var first, second := Split(a[1..], separator), Split(b, separator);
      assert [""] + (first + second) == ([""] + first) + second;
      assert (first + second)[0 := [a[0]] + first[0]] == first[0 := [a[0]] + first[0]] + second;
    }
  }

  function ExtendLast(parts: seq<string>, more: string): seq<string>
    requires parts != []
  {
    parts[|parts| - 1 := parts[|parts| - 1] + more]
  }

  /** Text without a separator only makes the last part longer. */
  lemma {:induction false} SplitExtended(s: string, more: string, separator: char)
    requires separator !in more
    ensures Split(s + more, separator) == ExtendLast(Split(s, separator), more)
  {
    if s == "" {
      SplitWhole(more, separator);
      assert s + more == more;
    } else {
      SplitExtended(s[1..], more, separator);
      assert (s + more)[1..] == s[1..] + more && (s + more)[0] == s[0];
      hide ExtendLast;
      ExtendLastLater(Split(s[1..], separator), s[0], more);
    }
  }

  lemma ExtendLastLater(rest: seq<string>, c: char, more: string)
    requires rest != []
    ensures ExtendLast([""] + rest, more) == [""] + ExtendLast(rest, more)
    ensures ExtendLast(rest, more) != []
    ensures ExtendLast(rest, more)[0 := [c] + ExtendLast(rest, more)[0]] == ExtendLast(rest[0 := [c] + rest[0]], more)
  {
    assert [c] + (rest[0] + more) == ([c] + rest[0]) + more;
  }
}
