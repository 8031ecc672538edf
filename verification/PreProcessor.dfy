/** The pre-processor that limits the size of a code suggestion request. */
module PreProcessors {
  import opened Wrappers
  import opened Utf8
  import opened ByteSize
  import opened ContextFilters

  /** What is sent: the text around the cursor and the context items. */
  datatype Input = Input(document: Document, items: seq<Item>)

  function DocumentSize(document: Document): nat {
    GetByteSize(document.prefix + document.suffix)
  }

  function RequestSize(input: Input): nat {
    DocumentSize(input.document) + TotalSize(input.items)
  }

  /** An oversized document loses the end of its suffix and all context items; otherwise the items
      have to fit next to it. */
  function Processed(input: Input, limit: int): Input {
    var document, size := input.document, DocumentSize(input.document);
    if size > limit then Input(document.(suffix := Truncate(document.suffix, limit - size)), [])
    else Input(document, Limited(input.items, size, limit))
  }

  lemma LimitedStops(items: seq<Item>, size: nat, limit: int, i: nat)
    requires i < |items|
    requires size + TotalSize(items[..i]) <= limit < size + TotalSize(items[..i + 1])
    ensures Limited(items, size, limit) == items[..i] + Trimmed(items[i], limit - size - TotalSize(items[..i]))
  {
    hide Encode, Decode, TotalSize, Trimmed;
    FitIsUnique(items, size, limit, i, FitCount(items, size, limit, 0));
  }

  lemma LimitedKeepsAll(items: seq<Item>, size: nat, limit: int)
    requires size + TotalSize(items[..|items|]) <= limit
    ensures Limited(items, size, limit) == items[..|items|] == items
  {
    FitIsUnique(items, size, limit, |items|, FitCount(items, size, limit, 0));
    assert items[..|items|] == items;
  }

  lemma NoRoom(item: Item, room: int)
    requires room <= 0
    ensures Trimmed(item, room) == []
  {
    assert Decode([]) == "";
  }

  class ByteSizeLimitPreProcessor {
    const byteSizeLimit: int            // 50000 in the source

    constructor (byteSizeLimit: int)
      ensures this.byteSizeLimit == byteSizeLimit
    {
      this.byteSizeLimit := byteSizeLimit;
    }

    method Process(input: Input) returns (r: Input)
      ensures r == Processed(input, byteSizeLimit)
    {
      hide Encode, Decode, Slice, TotalSize, Limited, Truncate;
      var document, items := input.document, input.items;
      var documentSize := DocumentSize(document);
      var currentTotalSize := documentSize;
      if currentTotalSize > byteSizeLimit {
        var trimmedDocument := Truncate(document.suffix, byteSizeLimit - documentSize);
        return Input(document.(suffix := trimmedDocument), []);
      }
      var kept: seq<Item> := [];
      NothingKept();
      for i := 0 to |items|
        invariant kept == items[..i]
        invariant currentTotalSize == documentSize + TotalSize(items[..i]) <= byteSizeLimit
      {
        assert items[..i + 1] == items[..i] + [items[i]];
        TotalSizeAppend(items[..i], items[i]);
        var resolutionBuffer := Encode(ContentOf(items[i]));
        if currentTotalSize + |resolutionBuffer| > byteSizeLimit {
          LimitedStops(items, documentSize, byteSizeLimit, i);
          var remainingSpace := byteSizeLimit - currentTotalSize;
          if remainingSpace <= 0 {
            NoRoom(items[i], remainingSpace);
            return Input(document, kept);
          }
          var trimmedContent := Decode(Slice(resolutionBuffer, remainingSpace));
          if |trimmedContent| > 0 {
            kept := kept + [items[i].(content := Some(trimmedContent))];
          }
          return Input(document, kept);
        }
        currentTotalSize := currentTotalSize + |resolutionBuffer|;
        kept := kept + [items[i]];
      }
      LimitedKeepsAll(items, documentSize, byteSizeLimit);
      return Input(document, kept);
    }
  }

  lemma NothingKept()
    ensures TotalSize([]) == 0
  {
  }

  lemma NothingOvershootsZero(s: string)
    ensures !Overshoots(s, 0)
    ensures GetByteSize(s) == 0 ==> s == ""
  {
    CutSize(s, 0);
    if s != "" {
      SomeBytes(s);
    }
  }

  /** The suffix of an oversized document is truncated to what the prefix leaves of the limit. */
  lemma TrimmedSuffixIs(document: Document, limit: int)
    requires DocumentSize(document) > limit
    ensures var left := limit - GetByteSize(document.prefix);
      Truncate(document.suffix, limit - DocumentSize(document))
      == Truncate(document.suffix, if left < 0 then 0 else left)
  {
    hide TruncateToByteLimit, Encode;
    SizeConcat(document.prefix, document.suffix);
    NegativeLimitCountsFromEnd(document.suffix, limit - DocumentSize(document), LastWhitespaceRun);
  }

  /** A trimmed document keeps to the limit exactly if the prefix does and the cut through the suffix
      does not overshoot what the prefix leaves of the limit. */
  lemma TrimmedDocumentSize(document: Document, limit: int)
    requires DocumentSize(document) > limit
    ensures var r := document.(suffix := Truncate(document.suffix, limit - DocumentSize(document)));
      var left := limit - GetByteSize(document.prefix);
      && (DocumentSize(r) <= limit <==> left >= 0 && !Overshoots(document.suffix, left))
      && (if left >= 0 then DocumentSize(r) <= limit + 2 else r.suffix == "")
  {
    hide Overshoots, Encode, Decode;
    var r := document.(suffix := Truncate(document.suffix, limit - DocumentSize(document)));
    SizeConcat(document.prefix, document.suffix);
    SizeConcat(r.prefix, r.suffix);
    TruncateExactly(document.suffix, limit - DocumentSize(document));
    NothingOvershootsZero(document.suffix);
    NothingOvershootsZero(r.suffix);
  }

  /** The processed request keeps to the limit exactly if no cut leaves one or two bytes of a
      character and, in an oversized document, the prefix alone fits. It exceeds the limit by more
      than two bytes only if the prefix alone does, and then nothing but the prefix is sent. */
  lemma RequestKeepsToLimit(input: Input, limit: int)
    ensures var r := Processed(input, limit); var document, size := input.document, DocumentSize(input.document);
      var left := limit - GetByteSize(document.prefix);
      && r.document.prefix == document.prefix
      && (if size > limit then r.document.suffix == Truncate(document.suffix, if left < 0 then 0 else left)
          else r.document == document)
      && (RequestSize(r) <= limit <==>
            if size > limit then left >= 0 && !Overshoots(document.suffix, left)
            else !CutsCharacter(input.items, size, limit))
      && (if left >= 0 then RequestSize(r) <= limit + 2 else r.document.suffix == "" && r.items == [])
  {
    hide Overshoots, CutsCharacter, Limited, Encode, Decode, Truncate;
    NothingKept();
    SizeConcat(input.document.prefix, input.document.suffix);
    if DocumentSize(input.document) > limit {
      TrimmedDocumentSize(input.document, limit);
      TrimmedSuffixIs(input.document, limit);
    } else {
      LimitIsKept(input.items, DocumentSize(input.document), limit);
    }
  }

  /** A prefix of two bytes is sent whole under a limit of one. */
  lemma LargePrefixIsSent()
    ensures var r := Processed(Input(Document("ab", "c", true), []), 1);
      r == Input(Document("ab", "", true), []) && RequestSize(r) == 2
  {
    assert "ab"[1..] == "b" && "b"[1..] == "";
    assert GetByteSize("ab") == 2;
    var input := Input(Document("ab", "c", true), []);
    SizeConcat("ab", "c");
    RequestKeepsToLimit(input, 1);
    SizeConcat("ab", "");
  }
}
