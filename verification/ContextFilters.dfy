/** The filters applied to the context items of a request. */
module ContextFilters {
  import opened Wrappers
  import opened Text
  import opened Utf8
  import opened ByteSize

  /** A context item; `languageId` is what its metadata may hold, if it is a file. */
  datatype Item = Item(id: nat, content: Option<string>, isFile: bool, languageId: Option<string>)

  datatype Document = Document(prefix: string, suffix: string, inWorkspace: bool)

  function ContentOf(item: Item): string {
    if item.content.Some? then item.content.value else ""
  }

  /** The elements that satisfy `keep`, in order. */
  function Select(items: seq<Item>, keep: Item -> bool): seq<Item> {
    if items == [] then [] else
    var n := |items| - 1;
    Select(items[..n], keep) + if keep(items[n]) then [items[n]] else []
  }

  /** `at` lists, in increasing order, the positions of `items` that satisfy `keep`; `r` is what
      stands there. */
  ghost predicate Selection(items: seq<Item>, keep: Item -> bool, r: seq<Item>, at: seq<nat>) {
    && |at| == |r|
    && (forall i :: 0 <= i < |at| ==> at[i] < |items| && keep(items[at[i]]) && r[i] == items[at[i]])
    && (forall i, j :: 0 <= i < j < |at| ==> at[i] < at[j])
    && (forall k :: 0 <= k < |items| && keep(items[k]) ==> k in at)
  }

  lemma SelectionGrows(items: seq<Item>, keep: Item -> bool, r: seq<Item>, at: seq<nat>, item: Item)
    requires Selection(items, keep, r, at)
    ensures keep(item) ==> Selection(items + [item], keep, r + [item], at + [|items|])
    ensures !keep(item) ==> Selection(items + [item], keep, r, at)
  {
  }

  lemma {:induction false} SelectIsSubsequence(items: seq<Item>, keep: Item -> bool) returns (at: seq<nat>)
    ensures Selection(items, keep, Select(items, keep), at)
  {
    if items == [] {
      at := [];
    } else {
      hide Selection;
      var n := |items| - 1;
      at := SelectIsSubsequence(items[..n], keep);
      SelectionGrows(items[..n], keep, Select(items[..n], keep), at, items[n]);
      assert items == items[..n] + [items[n]];
      if keep(items[n]) {
        at := at + [n];
      } else {
        assert Select(items, keep) == Select(items[..n], keep);
      }
    }
  }

  lemma {:induction false} SelectTwice(items: seq<Item>, first: Item -> bool, second: Item -> bool, both: Item -> bool)
    requires forall item :: both(item) == (first(item) && second(item))
    ensures Select(Select(items, first), second) == Select(items, both)
  {
    if items != [] {
      var n := |items| - 1;
      SelectTwice(items[..n], first, second, both);
      var kept := Select(items[..n], first);
      assert (kept + [items[n]])[..|kept|] == kept;
      assert kept + [] == kept;
    }
  }

  // ----- the byte size limit

  function TotalSize(items: seq<Item>): nat {
    if items == [] then 0 else
    var n := |items| - 1;
    TotalSize(items[..n]) + GetByteSize(ContentOf(items[n]))
  }

  lemma TotalSizeAppend(items: seq<Item>, item: Item)
    ensures TotalSize(items + [item]) == TotalSize(items) + GetByteSize(ContentOf(item))
  {
  }

  lemma {:induction false} TotalSizeGrows(items: seq<Item>, j: nat, k: nat)
    requires j <= k <= |items|
    ensures TotalSize(items[..j]) <= TotalSize(items[..k])
  {
    if j < k {
      TotalSizeGrows(items, j, k - 1);
      TotalSizeAppend(items[..k - 1], items[k - 1]);
      assert items[..k] == items[..k - 1] + [items[k - 1]];
    }
  }

  /** The part of an item that fits into `room` bytes, unless nothing of it does. */
  function Trimmed(item: Item, room: int): (r: seq<Item>)
    ensures |r| <= 1
  {
    var text := Decode(Slice(Encode(ContentOf(item)), if room < 0 then 0 else room));
    if text == "" then [] else [item.(content := Some(text))]
  }

  /** `k` is how many items fit completely, next to a document of `size` bytes. */
  ghost predicate FitExactly(items: seq<Item>, size: nat, limit: int, k: nat) {
    && k <= |items|
    && (k > 0 ==> size + TotalSize(items[..k]) <= limit)
    && (k < |items| ==> size + TotalSize(items[..k + 1]) > limit)
  }

  lemma FitIsUnique(items: seq<Item>, size: nat, limit: int, j: nat, k: nat)
    requires FitExactly(items, size, limit, j) && FitExactly(items, size, limit, k)
    ensures j == k
  {
    var a, b := if j < k then j else k, if j < k then k else j;
    if a < b {
      TotalSizeGrows(items, a + 1, b);
    }
  }

  /** Counts the items that fit, given that `k` do. */
  function FitCount(items: seq<Item>, size: nat, limit: int, k: nat): (n: nat)
    requires k <= |items| && (k > 0 ==> size + TotalSize(items[..k]) <= limit)
    ensures FitExactly(items, size, limit, n)
    decreases |items| - k
  {
    if k < |items| && size + TotalSize(items[..k + 1]) <= limit then FitCount(items, size, limit, k + 1) else k
  }

  /** The items that fit next to a document of `size` bytes, then what fits of the next one. */
  function Limited(items: seq<Item>, size: nat, limit: int): seq<Item> {
    var k := FitCount(items, size, limit, 0);
    items[..k] + if k < |items| then Trimmed(items[k], limit - size - TotalSize(items[..k])) else []
  }

  /** A slice that ends `over` bytes before the end, where `over` is by how much the total is too
      large, keeps what the limit has room for. */
  lemma NegativeSliceKeepsRoom(bytes: seq<Byte>, before: int, limit: int)
    requires before + |bytes| > limit
    ensures Slice(bytes, limit - (before + |bytes|)) == Slice(bytes, if limit < before then 0 else limit - before)
  {
  }

  method ByteSizeLimitFilter(items: seq<Item>, document: Document, byteSizeLimit: int)
    returns (filtered: seq<Item>)
    ensures filtered == Limited(items, GetByteSize(document.prefix + document.suffix), byteSizeLimit)
  {
    hide Encode, Decode;
    var documentSize := GetByteSize(document.prefix + document.suffix);
    var currentTotalSize := documentSize;
    filtered := [];
    for i := 0 to |items|
      invariant filtered == items[..i]
      invariant currentTotalSize == documentSize + TotalSize(items[..i])
      invariant i > 0 ==> currentTotalSize <= byteSizeLimit
    {
      ghost var before := currentTotalSize;
      assert items[..i + 1] == items[..i] + [items[i]];
      TotalSizeAppend(items[..i], items[i]);
      currentTotalSize := currentTotalSize + GetByteSize(ContentOf(items[i]));
      if currentTotalSize > byteSizeLimit {
        FitIsUnique(items, documentSize, byteSizeLimit, i, FitCount(items, documentSize, byteSizeLimit, 0));
        NegativeSliceKeepsRoom(Encode(ContentOf(items[i])), before, byteSizeLimit);
        var trimmedContent := Decode(Slice(Encode(ContentOf(items[i])), byteSizeLimit - currentTotalSize));
        if |trimmedContent| > 0 {
          filtered := filtered + [items[i].(content := Some(trimmedContent))];
        }
        return;
      }
      filtered := filtered + [items[i]];
    }
    FitIsUnique(items, documentSize, byteSizeLimit, |items|, FitCount(items, documentSize, byteSizeLimit, 0));
    assert items[..|items|] == items;
  }

  /** The item after the ones that fit is cut through a character, one or two bytes of which remain. */
  ghost predicate CutsCharacter(items: seq<Item>, size: nat, limit: int)
    requires size <= limit
  {
    var k := FitCount(items, size, limit, 0);
    k < |items| && 0 <= limit - size - TotalSize(items[..k]) &&
    1 <= LeftOver(ContentOf(items[k]), limit - size - TotalSize(items[..k])) <= 2
  }

  /** The result is a prefix of the items with at most one trimmed item after it. It is empty if the
      document alone is too large; otherwise the document and the result together keep to the limit,
      except for one or two bytes, exactly when a character was cut. */
  lemma LimitIsKept(items: seq<Item>, size: nat, limit: int)
    ensures var k := FitCount(items, size, limit, 0); var r := Limited(items, size, limit);
      && items[..k] <= r && |r| <= k + 1
      && (|r| == k + 1 ==> k < |items| && r[k] == items[k].(content := r[k].content))
    ensures size > limit ==> Limited(items, size, limit) == []
    ensures size <= limit ==>
      var total := size + TotalSize(Limited(items, size, limit));
      && total <= limit + 2
      && (total > limit <==> CutsCharacter(items, size, limit))
  {
    hide Encode, Decode, Slice, TotalSize, WholeChars, LeftOver, FitCount;
    var k := FitCount(items, size, limit, 0);
    if size > limit {
      OversizedDocumentLeavesNothing(items, size, limit, k);
    } else if k < |items| {
      var room := limit - size - TotalSize(items[..k]);
      FitLeavesRoom(items, size, limit, k);
      TrimmedSize(items[k], room);
      var trimmed := Trimmed(items[k], room);
      if trimmed == [] {
        assert items[..k] + trimmed == items[..k];
      } else {
        assert trimmed == [trimmed[0]];
        TotalSizeAppend(items[..k], trimmed[0]);
      }
    } else {
      NothingTooMuch(items, size, limit);
    }
  }

  /** An item of two bytes, cut to one, takes three. */
  lemma CutItemOvershoots()
    ensures var item := Item(0, Some("é"), false, None);
      var r := Limited([item], 0, 1);
      CutsCharacter([item], 0, 1) && r == [item.(content := Some([REPLACEMENT]))] && TotalSize(r) == 3
  {
    var item := Item(0, Some("é"), false, None);
    var cut := item.(content := Some([REPLACEMENT]));
    TotalSizeAppend([], item);
    TotalSizeAppend([], cut);
    assert [] + [item] == [item] && [] + [cut] == [cut] && [item][..1] == [item] && [item][..0] == [];
    ReplacementSize();
    OvershootExample();
    assert "é"[1..] == "";
    assert LeftOver("é", 1) == 1;
    FitIsUnique([item], 0, 1, 0, FitCount([item], 0, 1, 0));
  }

  lemma NothingTooMuch(items: seq<Item>, size: nat, limit: int)
    requires FitExactly(items, size, limit, |items|) && size <= limit
    ensures items[..|items|] + [] == items && size + TotalSize(items) <= limit
  {
    assert items[..|items|] == items;
  }

  lemma FitLeavesRoom(items: seq<Item>, size: nat, limit: int, k: nat)
    requires FitExactly(items, size, limit, k) && k < |items| && size <= limit
    ensures 0 <= limit - size - TotalSize(items[..k]) < GetByteSize(ContentOf(items[k]))
  {
    assert items[..k + 1] == items[..k] + [items[k]];
    TotalSizeAppend(items[..k], items[k]);
    assert k == 0 ==> items[..k] == [];
  }

  lemma OversizedDocumentLeavesNothing(items: seq<Item>, size: nat, limit: int, k: nat)
    requires FitExactly(items, size, limit, k) && size > limit
    ensures k == 0
    ensures items != [] ==> Trimmed(items[0], limit - size - TotalSize(items[..0])) == []
  {
  }

  /** The size of what is left of an item that does not fit. */
  lemma TrimmedSize(item: Item, room: nat)
    requires room < GetByteSize(ContentOf(item))
    ensures var r := Trimmed(item, room); var p := LeftOver(ContentOf(item), room);
      && (r == [] <==> room == 0)
      && (r != [] ==> GetByteSize(ContentOf(r[0])) == if p == 0 then room else room - p + 3)
      && (room == 0 ==> p == 0) && p < 4
  {
    hide Encode, Decode, LeftOver, WholeChars, GetByteSize;
    var s := ContentOf(item);
    CutSize(s, room);
    SmallLeftOver(s, room);
    EmptyOnlyIfNoBytes(Cut(s, room));
  }

  /** A trimmed item keeps the characters that fit, with a replacement character for a cut one. */
  lemma TrimmedItemIs(item: Item, room: nat)
    requires room < GetByteSize(ContentOf(item))
    ensures var s := ContentOf(item);
      Trimmed(item, room) ==
      if room == 0 then []
      else [item.(content := Some(s[..WholeChars(s, room)] + if LeftOver(s, room) > 0 then [REPLACEMENT] else []))]
  {
    hide Encode, Decode, LeftOver, WholeChars, GetByteSize;
    CutSize(ContentOf(item), room);
    TrimmedSize(item, room);
  }

  lemma SmallLeftOver(s: string, n: nat)
    requires n <= GetByteSize(s)
    ensures LeftOver(s, n) < 4 && LeftOver(s, n) <= n
  {
  }

  lemma EmptyOnlyIfNoBytes(s: string)
    ensures s == "" <==> GetByteSize(s) == 0
  {
  }

  // ----- the whole pipeline

  predicate HasContent(item: Item) {
    HasVisible(ContentOf(item))
  }

  method EmptyContentFilter(items: seq<Item>) returns (results: seq<Item>)
    ensures results == Select(items, HasContent)
  {
    results := [];
    for i := 0 to |items|
      invariant results == Select(items[..i], HasContent)
    {
      assert items[..i + 1][..i] == items[..i];
      if HasContent(items[i]) {
        results := results + [items[i]];
      }
    }
    assert items[..|items|] == items;
  }

  /** Items of disabled projects are dropped, but only if the document is in a workspace. */
  function DuoProjectAccessFilter(items: seq<Item>, document: Document, disabled: Item -> bool): seq<Item> {
    if !document.inWorkspace then items else Select(items, item => !disabled(item))
  }

  predicate LanguageAllowed(item: Item, enabled: string -> bool) {
    // an absent or empty language id cannot be checked
    !item.isFile || item.languageId.None? || item.languageId.value == "" || enabled(item.languageId.value)
  }

  function SupportedLanguageFilter(items: seq<Item>, enabled: string -> bool): seq<Item> {
    Select(items, item => LanguageAllowed(item, enabled))
  }

  /** An item passes the first three filters. */
  predicate Passes(item: Item, document: Document, disabled: Item -> bool, enabled: string -> bool) {
    HasContent(item) && (document.inWorkspace ==> !disabled(item)) && LanguageAllowed(item, enabled)
  }

  /** The items that pass the first three filters, in order, limited in size. */
  method FilterContextResolutions(items: seq<Item>, document: Document, byteSizeLimit: int,
                                  disabled: Item -> bool, enabled: string -> bool)
    returns (filtered: seq<Item>)
    ensures filtered == Limited(Select(items, item => Passes(item, document, disabled, enabled)),
                                GetByteSize(document.prefix + document.suffix), byteSizeLimit)
  {
    hide Limited, GetByteSize;
    var results := EmptyContentFilter(items);
    results := DuoProjectAccessFilter(results, document, disabled);
    results := SupportedLanguageFilter(results, enabled);
    PassingItems(items, document, disabled, enabled);
    filtered := ByteSizeLimitFilter(results, document, byteSizeLimit);
  }

  lemma OpenProjects(items: seq<Item>, document: Document, disabled: Item -> bool, open: Item -> bool)
    requires forall item :: open(item) == (document.inWorkspace ==> !disabled(item))
    ensures DuoProjectAccessFilter(items, document, disabled) == Select(items, open)
  {
  }

  lemma PassingItems(items: seq<Item>, document: Document, disabled: Item -> bool, enabled: string -> bool)
    ensures SupportedLanguageFilter(
              DuoProjectAccessFilter(Select(items, HasContent), document, disabled), enabled)
            == Select(items, item => Passes(item, document, disabled, enabled))
  {
    hide Select, HasContent, LanguageAllowed;
    var open := item => document.inWorkspace ==> !disabled(item);
    var both := item => HasContent(item) && open(item);
    OpenProjects(Select(items, HasContent), document, disabled, open);
    SelectTwice(items, HasContent, open, both);
    SelectTwice(items, both, item => LanguageAllowed(item, enabled),
                item => Passes(item, document, disabled, enabled));
  }

  /** An item is dropped before the size limit exactly if it is blank, belongs to a disabled project while
      the document is in a workspace, or is a file whose known language is not enabled. */
  lemma DroppedExactly(item: Item, document: Document, disabled: Item -> bool, enabled: string -> bool)
    ensures !Passes(item, document, disabled, enabled) <==>
      || item.content.None? || (forall i :: 0 <= i < |item.content.value| ==> IsWhitespace(item.content.value[i]))
      || (document.inWorkspace && disabled(item))
      || (item.isFile && item.languageId.Some? && item.languageId.value != "" && !enabled(item.languageId.value))
  {
  }
}
