/** Byte sizes and truncation to a byte limit. */
module ByteSize {
  import opened Wrappers
  import opened Text
  import opened Utf8

  function GetByteSize(s: string): nat {
    |Encode(s)|
  }

  lemma SizeConcat(a: string, b: string)
    ensures GetByteSize(a + b) == GetByteSize(a) + GetByteSize(b)
  {
    EncodeConcat(a, b);
  }

  /** `buffer.slice(0, end)`: a negative end counts from the back, and both are clamped. */
  function Slice(bytes: seq<Byte>, end: int): seq<Byte> {
    if end > |bytes| then bytes
    else if end >= 0 then bytes[..end]
    else if |bytes| + end >= 0 then bytes[..|bytes| + end]
    else []
  }

  /** The text of the first `n` bytes. */
  function Cut(s: string, n: nat): string {
    Decode(Slice(Encode(s), n))
  }

  /** Cutting keeps the characters that fit; a character cut in two becomes a replacement character,
      which takes three bytes where `LeftOver` were kept. */
  lemma CutSize(s: string, n: nat)
    requires n <= GetByteSize(s)
    ensures Cut(s, n) == s[..WholeChars(s, n)] + if LeftOver(s, n) > 0 then [REPLACEMENT] else []
    ensures GetByteSize(Cut(s, n)) == if LeftOver(s, n) == 0 then n else n - LeftOver(s, n) + 3
    ensures GetByteSize(s[..WholeChars(s, n)]) == n - LeftOver(s, n)
  {
    hide EncodeChar;
    DecodeCut(s, n);
    CutSplits(s, n);
    ReplacementSize();
    SizeConcat(s[..WholeChars(s, n)], [REPLACEMENT]);
    assert s[..WholeChars(s, n)] + [] == s[..WholeChars(s, n)];
  }

  lemma ReplacementSize()
    ensures GetByteSize([REPLACEMENT]) == 3
  {
    assert Encode([REPLACEMENT]) == EncodeChar(REPLACEMENT) + Encode([]);
  }

  /** The start of the last run of whitespace: the index of the last match of the default separator. */
  function LastWhitespaceRun(s: string): Option<nat> {
    if s == "" then None else
    var n := |s| - 1;
    if IsWhitespace(s[n]) && (n == 0 || !IsWhitespace(s[n - 1])) then Some(n) else LastWhitespaceRun(s[..n])
  }

  /** A run of whitespace starts at `i`. */
  predicate RunStarts(s: string, i: nat)
    requires i < |s|
  {
    IsWhitespace(s[i]) && (i == 0 || !IsWhitespace(s[i - 1]))
  }

  lemma {:induction false} LastWhitespaceRunIs(s: string)
    ensures var index := LastWhitespaceRun(s);
      && (index.None? <==> forall i :: 0 <= i < |s| ==> !IsWhitespace(s[i]))
      && (index.Some? ==>
            && index.value < |s| && RunStarts(s, index.value)
            && forall j :: index.value < j < |s| ==> !RunStarts(s, j))
  {
    hide IsWhitespace;
    if s != "" {
      var n := |s| - 1;
      LastWhitespaceRunIs(s[..n]);
      assert forall j :: 0 <= j < n ==> RunStarts(s[..n], j) == RunStarts(s, j);
    }
  }

  /** `truncateToByteLimit`; `lastMatch` gives the index of the separator's last match. */
  function TruncateToByteLimit(s: string, byteLimit: int, lastMatch: string -> Option<nat>): string {
    if GetByteSize(s) <= byteLimit then s else
    var truncated := Decode(Slice(Encode(s), byteLimit));
    match lastMatch(truncated)
    case None => truncated
    case Some(index) => if index <= |truncated| then truncated[..index] else truncated
  }

  function Truncate(s: string, byteLimit: int): string {
    TruncateToByteLimit(s, byteLimit, LastWhitespaceRun)
  }

  /** Dropping the end of a string does not make it larger. */
  lemma PrefixSize(s: string, k: nat)
    requires k <= |s|
    ensures GetByteSize(s[..k]) + GetByteSize(s[k..]) == GetByteSize(s)
    ensures k < |s| ==> GetByteSize(s[..k]) < GetByteSize(s)
  {
    SizeConcat(s[..k], s[k..]);
    assert s[..k] + s[k..] == s;
  }

  /** A text that fits is left alone. */
  lemma FittingTextIsKept(s: string, byteLimit: int, lastMatch: string -> Option<nat>)
    requires GetByteSize(s) <= byteLimit
    ensures TruncateToByteLimit(s, byteLimit, lastMatch) == s
  {
  }

  /** The limit a truncation cuts at: a negative one counts from the end of the string. */
  function EffectiveLimit(s: string, byteLimit: int): nat {
    if byteLimit >= 0 then byteLimit
    else if GetByteSize(s) + byteLimit >= 0 then GetByteSize(s) + byteLimit
    else 0
  }

  /** A negative limit is the one that many bytes below the size of the string. */
  lemma NegativeLimitCountsFromEnd(s: string, byteLimit: int, lastMatch: string -> Option<nat>)
    ensures TruncateToByteLimit(s, byteLimit, lastMatch)
            == TruncateToByteLimit(s, EffectiveLimit(s, byteLimit), lastMatch)
  {
    if s != "" {
      SomeBytes(s);
    }
  }

  lemma SomeBytes(s: string)
    requires s != ""
    ensures GetByteSize(s) > 0
  {
    PrefixSize(s, 0);
  }

  /** Whatever the separator, the result takes at most two bytes more than the effective limit. */
  lemma TruncateNearLimit(s: string, byteLimit: int, lastMatch: string -> Option<nat>)
    ensures GetByteSize(TruncateToByteLimit(s, byteLimit, lastMatch)) <= EffectiveLimit(s, byteLimit) + 2
  {
    NegativeLimitCountsFromEnd(s, byteLimit, lastMatch);
    var limit := EffectiveLimit(s, byteLimit);
    if GetByteSize(s) > limit {
      CutSize(s, limit);
      var truncated := Cut(s, limit);
      var index := lastMatch(truncated);
      if index.Some? && index.value <= |truncated| {
        PrefixSize(truncated, index.value);
      }
    }
  }

  /** Truncation breaks the limit exactly when no whitespace fits under it and the cut leaves one or
      two bytes of a character. */
  ghost predicate Overshoots(s: string, byteLimit: nat) {
    && GetByteSize(s) > byteLimit
    && !HasWhitespace(s[..WholeChars(s, byteLimit)])
    && 1 <= LeftOver(s, byteLimit) <= 2
  }

  ghost predicate HasWhitespace(s: string) {
    exists i :: 0 <= i < |s| && IsWhitespace(s[i])
  }

  lemma CutRuns(s: string, byteLimit: nat)
    requires GetByteSize(s) >= byteLimit
    ensures var fits := s[..WholeChars(s, byteLimit)]; var truncated := Cut(s, byteLimit);
      LastWhitespaceRun(truncated) == LastWhitespaceRun(fits)
  {
    CutSize(s, byteLimit);
    var fits := s[..WholeChars(s, byteLimit)];
    assert !IsWhitespace(REPLACEMENT);
    assert fits + [] == fits && (fits + [REPLACEMENT])[..|fits|] == fits;
  }

  /** Where the default truncation ends a string that is too large: at the start of the last run of
      whitespace that fits, if there is one. */
  lemma TruncateAtWhitespace(s: string, byteLimit: int)
    requires GetByteSize(s) > byteLimit
    ensures var limit := EffectiveLimit(s, byteLimit);
      var fits := s[..WholeChars(s, limit)]; var r := Truncate(s, byteLimit);
      if !HasWhitespace(fits) then r == Cut(s, limit) else
      && |r| < |fits| && r == s[..|r|] && RunStarts(s, |r|)
      && (forall j :: |r| < j < |fits| ==> !RunStarts(s, j))
      && GetByteSize(r) < limit
  {
    hide IsWhitespace, Encode, Decode, LastWhitespaceRun;
    NegativeLimitCountsFromEnd(s, byteLimit, LastWhitespaceRun);
    var limit := EffectiveLimit(s, byteLimit);
    CutSize(s, limit);
    CutRuns(s, limit);
    var fits := s[..WholeChars(s, limit)];
    LastWhitespaceRunIs(fits);
    assert forall j :: 0 <= j < |fits| ==> RunStarts(fits, j) == RunStarts(s, j);
    if HasWhitespace(fits) {
      var index := LastWhitespaceRun(fits).value;
      assert Cut(s, limit)[..index] == fits[..index] == s[..index];
      PrefixSize(fits, index);
    }
  }

  /** The effective limit holds except in exactly that case; no result can keep to a negative limit. */
  lemma TruncateExactly(s: string, byteLimit: int)
    ensures var limit := EffectiveLimit(s, byteLimit); var size := GetByteSize(Truncate(s, byteLimit));
      && (size > limit <==> Overshoots(s, limit))
      && size <= limit + if Overshoots(s, limit) then 2 else 0
    ensures GetByteSize(Truncate(s, byteLimit)) <= byteLimit <==> byteLimit >= 0 && !Overshoots(s, byteLimit)
  {
    hide HasWhitespace, Encode, Decode, RunStarts;
    var limit := EffectiveLimit(s, byteLimit);
    NegativeLimitCountsFromEnd(s, byteLimit, LastWhitespaceRun);
    if GetByteSize(s) > limit {
      TruncateAtWhitespace(s, limit);
      CutSize(s, limit);
    }
  }

  /** A negative limit keeps text instead of giving nothing. */
  lemma NegativeLimitKeepsText()
    ensures Truncate("abc", -1) == "ab"
  {
    assert Encode("abc") == [97, 98, 99] by {
      assert "abc"[1..] == "bc" && "bc"[1..] == "c" && "c"[1..] == "";
    }
    RoundTrip("ab");
    assert Encode("ab") == [97, 98] by {
      assert "ab"[1..] == "b" && "b"[1..] == "";
    }
    assert Slice(Encode("abc"), -1) == Encode("ab");
  }

  lemma OvershootExample()
    ensures Truncate("é", 1) == [REPLACEMENT] && GetByteSize([REPLACEMENT]) == 3
  {
  }
}
