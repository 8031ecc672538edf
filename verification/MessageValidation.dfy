/** Validation of RPC message definitions: naming convention, duplicates, and the service that
    combines the validators. */
module MessageValidation {
  import opened Text

  datatype Message = Message(methodName: string, details: nat)

  datatype Error =
    | InvalidCharacters(methodName: string)
    | InvalidCamelCase(methodName: string, segment: string)
    | EmptySegment(methodName: string)
    | DuplicateMethod(methodName: string)

  predicate IsLower(c: char) {
    'a' <= c <= 'z'
  }

  predicate IsLetter(c: char) {
    IsLower(c) || 'A' <= c <= 'Z'
  }

  /** `/^[a-z][a-zA-Z]*$/` */
  predicate IsCamelCase(segment: string) {
    segment != "" && IsLower(segment[0]) && forall i :: 0 <= i < |segment| ==> IsLetter(segment[i])
  }

  predicate LettersAndSlashes(s: string) {
    s != "" && forall i :: 0 <= i < |s| ==> IsLetter(s[i]) || s[i] == '/'
  }

  /** `/^(\$\/)?[a-zA-Z/]+$/` */
  predicate AllowedCharacters(name: string) {
    LettersAndSlashes(name) || ("$/" <= name && LettersAndSlashes(name[2..]))
  }

  function PathOf(name: string): string {
    if "$/" <= name then name[2..] else name
  }

  function SegmentError(name: string, segment: string): seq<Error> {
    if segment == "" then [EmptySegment(name)]
    else if !IsCamelCase(segment) then [InvalidCamelCase(name, segment)]
    else []
  }

  function SegmentErrors(name: string, segments: seq<string>): seq<Error> {
    if segments == [] then [] else
    var n := |segments| - 1;
    SegmentErrors(name, segments[..n]) + SegmentError(name, segments[n])
  }

  function NamingErrors(message: Message): seq<Error> {
    var name := message.methodName;
    (if AllowedCharacters(name) then [] else [InvalidCharacters(name)])
    + SegmentErrors(name, Split(PathOf(name), '/'))
  }

  class NamingConventionValidator {
    constructor () {
    }

    method Validate(message: Message) returns (errors: seq<Error>)
      ensures errors == NamingErrors(message)
    {
      var characters := ValidateCharacters(message);
      var segments := ValidateSegments(message);
      errors := characters + segments;
    }

    method ValidateCharacters(message: Message) returns (errors: seq<Error>)
      ensures errors == if AllowedCharacters(message.methodName) then [] else [InvalidCharacters(message.methodName)]
    {
      errors := [];
      if !AllowedCharacters(message.methodName) {
        errors := errors + [InvalidCharacters(message.methodName)];
      }
    }

    method ValidateSegments(message: Message) returns (errors: seq<Error>)
      ensures errors == SegmentErrors(message.methodName, Split(PathOf(message.methodName), '/'))
    {
      errors := [];
      var segments := Split(PathOf(message.methodName), '/');
      for i := 0 to |segments|
        invariant errors == SegmentErrors(message.methodName, segments[..i])
      {
        assert segments[..i + 1][..i] == segments[..i];
        if segments[i] == "" {
          errors := errors + [EmptySegment(message.methodName)];
        } else if !IsCamelCase(segments[i]) {
          errors := errors + [InvalidCamelCase(message.methodName, segments[i])];
        }
      }
      assert segments[..|segments|] == segments;
    }
  }

  // ----- the grammar of method names

  /** An optional `$/`, then one or more camel-case segments joined by `/`. */
  ghost predicate IsMethodName(name: string) {
    exists segments :: NamedBy(name, segments)
  }

  ghost predicate NamedBy(name: string, segments: seq<string>) {
    && segments != [] && (forall i :: 0 <= i < |segments| ==> IsCamelCase(segments[i]))
    && (name == Join(segments, "/") || name == "$/" + Join(segments, "/"))
  }

  lemma {:induction false} NoSegmentErrors(name: string, segments: seq<string>)
    ensures SegmentErrors(name, segments) == [] <==> forall i :: 0 <= i < |segments| ==> IsCamelCase(segments[i])
  {
    if segments != [] {
      NoSegmentErrors(name, segments[..|segments| - 1]);
    }
  }

  lemma {:induction false} JoinedSegmentsAreAllowed(segments: seq<string>)
    requires segments != [] && forall i :: 0 <= i < |segments| ==> IsCamelCase(segments[i])
    ensures LettersAndSlashes(Join(segments, "/")) && IsLower(Join(segments, "/")[0])
  {
    if |segments| > 1 {
      JoinedSegmentsAreAllowed(segments[1..]);
    }
  }

  lemma CamelSegmentsSplit(segments: seq<string>)
    requires segments != [] && forall i :: 0 <= i < |segments| ==> IsCamelCase(segments[i])
    ensures Split(Join(segments, "/"), '/') == segments
  {
    forall part | part in segments ensures '/' !in part {
    }
    SplitJoin(segments, '/');
  }

  /** A name passes the segment check exactly if it follows the grammar, and then it passes the
      character check as well. */
  lemma SegmentsDecide(message: Message)
    ensures var name := message.methodName;
      && (SegmentErrors(name, Split(PathOf(name), '/')) == [] <==> IsMethodName(name))
      && (SegmentErrors(name, Split(PathOf(name), '/')) == [] ==> AllowedCharacters(name))
      && (NamingErrors(message) == [] <==> IsMethodName(name))
  {
    hide IsCamelCase, LettersAndSlashes;
    var name := message.methodName;
    var segments := Split(PathOf(name), '/');
    NoSegmentErrors(name, segments);
    JoinSplit(PathOf(name), '/');
    if SegmentErrors(name, segments) == [] {
      JoinedSegmentsAreAllowed(segments);
      assert name == Join(segments, "/") || name == "$/" + Join(segments, "/");
      assert NamedBy(name, segments);
    }
    if IsMethodName(name) {
      var parts :| NamedBy(name, parts);
      JoinedSegmentsAreAllowed(parts);
      CamelSegmentsSplit(parts);
      assert PathOf(name) == Join(parts, "/");
    }
  }

  // ----- which errors a name gets

  lemma LettersAre(c: char)
    ensures IsLower(c) <==> c in "abcdefghijklmnopqrstuvwxyz"
    ensures IsLetter(c) <==> c in "abcdefghijklmnopqrstuvwxyz" || c in "ABCDEFGHIJKLMNOPQRSTUVWXYZ"
  {
  }

  lemma CamelCaseGrows(segment: string, c: char)
    ensures !IsCamelCase("")
    ensures IsCamelCase([c]) <==> IsLower(c)
    ensures segment != "" ==> (IsCamelCase(segment + [c]) <==> IsCamelCase(segment) && IsLetter(c))
  {
    if segment != "" && IsCamelCase(segment + [c]) {
      assert (segment + [c])[|segment|] == c && forall i :: 0 <= i < |segment| ==> (segment + [c])[i] == segment[i];
    }
  }

  /** The characters of a name are valid exactly if, apart from a leading `$/`, there are some and all are
      letters or slashes. */
  lemma CharactersExactly(name: string)
    ensures AllowedCharacters(name) <==>
      PathOf(name) != "" && forall c :: c in PathOf(name) ==> IsLetter(c) || c == '/'
  {
    var path := PathOf(name);
    assert LettersAndSlashes(path) <==> path != "" && forall c :: c in path ==> IsLetter(c) || c == '/';
    if "$/" <= name {
      assert name[0] == '$' && !IsLetter('$');
    }
  }

  lemma {:induction false} SegmentErrorsAre(name: string, segments: seq<string>, segment: string)
    ensures InvalidCharacters(name) !in SegmentErrors(name, segments)
    ensures EmptySegment(name) in SegmentErrors(name, segments) <==> "" in segments
    ensures InvalidCamelCase(name, segment) in SegmentErrors(name, segments) <==>
      segment in segments && segment != "" && !IsCamelCase(segment)
  {
    if segments != [] {
      var n := |segments| - 1;
      hide IsCamelCase;
      SegmentErrorsAre(name, segments[..n], segment);
      assert segments == segments[..n] + [segments[n]];
    }
  }

  /** Each kind of error is reported exactly for its reason. */
  lemma ErrorsHaveReasons(message: Message, segment: string)
    ensures var name := message.methodName; var segments := Split(PathOf(name), '/');
      && (InvalidCharacters(name) in NamingErrors(message) <==>
            PathOf(name) == "" || exists c :: c in PathOf(name) && !IsLetter(c) && c != '/')
      && (EmptySegment(name) in NamingErrors(message) <==> "" in segments)
      && (InvalidCamelCase(name, segment) in NamingErrors(message) <==>
            segment in segments && segment != "" && !IsCamelCase(segment))
  {
    hide AllowedCharacters, SegmentErrors, IsCamelCase, IsLetter;
    CharactersExactly(message.methodName);
    SegmentErrorsAre(message.methodName, Split(PathOf(message.methodName), '/'), segment);
  }

  /** A leading `$/` is no part of the path. */
  lemma PathIs(name: string)
    ensures if exists rest :: name == "$/" + rest then name == "$/" + PathOf(name) else PathOf(name) == name
  {
    if "$/" <= name {
      assert name == "$/" + name[2..];
    }
  }

  // ----- duplicates

  function Names(messages: seq<Message>): set<string> {
    set m | m in messages :: m.methodName
  }

  function DuplicateErrors(messages: seq<Message>): seq<Error> {
    if messages == [] then [] else
    var n := |messages| - 1;
    DuplicateErrors(messages[..n])
    + if messages[n].methodName in Names(messages[..n]) then [DuplicateMethod(messages[n].methodName)] else []
  }

  ghost predicate AllDistinct(messages: seq<Message>) {
    forall i, j :: 0 <= i < j < |messages| ==> messages[i].methodName != messages[j].methodName
  }

  lemma NameSeen(messages: seq<Message>, name: string)
    ensures name in Names(messages) <==> exists i :: 0 <= i < |messages| && messages[i].methodName == name
  {
  }

  lemma DistinctStep(messages: seq<Message>, last: Message)
    ensures AllDistinct(messages + [last]) <==> AllDistinct(messages) && last.methodName !in Names(messages)
    ensures Names(messages + [last]) == Names(messages) + {last.methodName}
  {
    NameSeen(messages, last.methodName);
    var more := messages + [last];
    assert forall i :: 0 <= i < |messages| ==> more[i] == messages[i];
    if AllDistinct(more) {
      assert forall i, j :: 0 <= i < j < |messages| ==> more[i].methodName != more[j].methodName;
      assert forall i :: 0 <= i < |messages| ==> more[i].methodName != more[|messages|].methodName;
    }
  }

  lemma DuplicateStep(messages: seq<Message>, i: nat)
    requires i < |messages|
    ensures DuplicateErrors(messages[..i + 1]) == DuplicateErrors(messages[..i])
      + if messages[i].methodName in Names(messages[..i]) then [DuplicateMethod(messages[i].methodName)] else []
    ensures Names(messages[..i + 1]) == Names(messages[..i]) + {messages[i].methodName}
    ensures AllDistinct(messages[..i + 1]) <==>
      AllDistinct(messages[..i]) && messages[i].methodName !in Names(messages[..i])
  {
    hide AllDistinct, Names;
    DistinctStep(messages[..i], messages[i]);
    assert messages[..i + 1] == messages[..i] + [messages[i]];
    assert messages[..i + 1][..i] == messages[..i];
  }

  lemma AddOne(names: set<string>, name: string)
    ensures |names + {name}| == |names| + if name in names then 0 else 1
  {
    if name in names {
      assert names + {name} == names;
    }
  }

  lemma {:induction false} DuplicatesCountedUpTo(messages: seq<Message>, i: nat)
    requires i <= |messages|
    ensures |DuplicateErrors(messages[..i])| == i - |Names(messages[..i])|
    ensures DuplicateErrors(messages[..i]) == [] <==> AllDistinct(messages[..i])
  {
    hide DuplicateErrors, AllDistinct, Names;
    if i == 0 {
      assert messages[..0] == [];
      NothingDuplicated();
    } else {
      DuplicatesCountedUpTo(messages, i - 1);
      DuplicateStep(messages, i - 1);
      AddOne(Names(messages[..i - 1]), messages[i - 1].methodName);
    }
  }

  lemma NothingDuplicated()
    ensures DuplicateErrors([]) == [] && Names([]) == {} && AllDistinct([])
  {
  }

  /** There is one duplicate error for each message beyond the first of its name. */
  lemma {:induction false} DuplicatesCounted(messages: seq<Message>)
    ensures |DuplicateErrors(messages)| == |messages| - |Names(messages)|
    ensures DuplicateErrors(messages) == [] <==> AllDistinct(messages)
  {
    hide DuplicateErrors, AllDistinct, Names;
    DuplicatesCountedUpTo(messages, |messages|);
    assert messages[..|messages|] == messages;
  }

  predicate SeenBefore(messages: seq<Message>, k: nat)
    requires k < |messages|
  {
    exists j :: 0 <= j < k && messages[j].methodName == messages[k].methodName
  }

  /** The errors stand, in order, for the messages whose name occurred before. */
  lemma {:induction false} DuplicatesInOrder(messages: seq<Message>) returns (at: seq<nat>)
    ensures |at| == |DuplicateErrors(messages)|
    ensures forall i :: 0 <= i < |at| ==>
      at[i] < |messages| && DuplicateErrors(messages)[i] == DuplicateMethod(messages[at[i]].methodName)
    ensures forall i, j :: 0 <= i < j < |at| ==> at[i] < at[j]
    ensures forall k :: 0 <= k < |messages| ==> (k in at <==> SeenBefore(messages, k))
  {
    hide SeenBefore, Names;
    if messages == [] {
      at := [];
    } else {
      var n := |messages| - 1;
      at := DuplicatesInOrder(messages[..n]);
      SeenBeforeEarlier(messages);
      if messages[n].methodName in Names(messages[..n]) {
        at := at + [n];
      }
    }
  }

  lemma SeenBeforeEarlier(messages: seq<Message>)
    requires messages != []
    ensures var n := |messages| - 1;
      && (SeenBefore(messages, n) <==> messages[n].methodName in Names(messages[..n]))
      && forall k :: 0 <= k < n ==> (SeenBefore(messages, k) <==> SeenBefore(messages[..n], k))
  {
    var n := |messages| - 1;
    NameSeen(messages[..n], messages[n].methodName);
  }

  class DuplicateMethodValidator {
    constructor () {
    }

    method Validate(messages: seq<Message>) returns (errors: seq<Error>)
      ensures errors == DuplicateErrors(messages)
    {
      var seenMethods: set<string> := {};
      errors := [];
      assert messages[..0] == [];
      for i := 0 to |messages|
        invariant seenMethods == Names(messages[..i])
        invariant errors == DuplicateErrors(messages[..i])
      {
        hide DuplicateErrors, Names;
        DuplicateStep(messages, i);
        if messages[i].methodName in seenMethods {
          errors := errors + [DuplicateMethod(messages[i].methodName)];
        }
        seenMethods := seenMethods + {messages[i].methodName};
      }
      assert messages[..|messages|] == messages;
    }
  }

  // ----- the composite service

  type MessageValidator = Message -> seq<Error>
  type CollectionValidator = seq<Message> -> seq<Error>

  function CollectionErrors(validators: seq<CollectionValidator>, messages: seq<Message>): seq<Error> {
    if validators == [] then [] else
    var n := |validators| - 1;
    CollectionErrors(validators[..n], messages) + validators[n](messages)
  }

  function ErrorsOf(validators: seq<MessageValidator>, message: Message): seq<Error> {
    if validators == [] then [] else
    var n := |validators| - 1;
    ErrorsOf(validators[..n], message) + validators[n](message)
  }

  function MessageErrors(validators: seq<MessageValidator>, messages: seq<Message>): seq<Error> {
    if messages == [] then [] else
    var n := |messages| - 1;
    MessageErrors(validators, messages[..n]) + ErrorsOf(validators, messages[n])
  }

  class CompositeMessageValidationService {
    const validators: seq<MessageValidator>
    const collectionValidators: seq<CollectionValidator>

    constructor (validators: seq<MessageValidator>, collectionValidators: seq<CollectionValidator>)
      ensures this.validators == validators && this.collectionValidators == collectionValidators
    {
      this.validators := validators;
      this.collectionValidators := collectionValidators;
    }

    method Validate(messages: seq<Message>) returns (errors: seq<Error>, isValid: bool)
      ensures errors == CollectionErrors(collectionValidators, messages) + MessageErrors(validators, messages)
      ensures isValid <==> errors == []
    {
      errors := [];
      for i := 0 to |collectionValidators|
        invariant errors == CollectionErrors(collectionValidators[..i], messages)
      {
        assert collectionValidators[..i + 1][..i] == collectionValidators[..i];
        errors := errors + collectionValidators[i](messages);
      }
      assert collectionValidators[..|collectionValidators|] == collectionValidators;
      ghost var collected := errors;
      for i := 0 to |messages|
        invariant errors == collected + MessageErrors(validators, messages[..i])
      {
        ghost var before := errors;
        for j := 0 to |validators|
          invariant errors == before + ErrorsOf(validators[..j], messages[i])
        {
          assert validators[..j + 1][..j] == validators[..j];
          errors := errors + validators[j](messages[i]);
        }
        assert validators[..|validators|] == validators;
        assert messages[..i + 1][..i] == messages[..i];
      }
      assert messages[..|messages|] == messages;
      isValid := |errors| == 0;
    }
  }

  lemma OneValidator(validator: MessageValidator, message: Message)
    ensures ErrorsOf([validator], message) == validator(message)
  {
  }

  lemma BothEmpty(a: seq<Error>, b: seq<Error>)
    ensures a + b == [] <==> a == [] && b == []
  {
  }

  lemma {:induction false} NoErrorsInAny(validator: MessageValidator, messages: seq<Message>)
    ensures MessageErrors([validator], messages) == [] <==>
      forall i :: 0 <= i < |messages| ==> validator(messages[i]) == []
  {
    hide ErrorsOf;
    if messages != [] {
      var n := |messages| - 1;
      NoErrorsInAny(validator, messages[..n]);
      assert forall i :: 0 <= i < n ==> messages[..n][i] == messages[i];
      OneValidator(validator, messages[n]);
      BothEmpty(MessageErrors([validator], messages[..n]), ErrorsOf([validator], messages[n]));
    }
  }

  /** The service with its two validators accepts exactly the lists of distinct, well-formed names. */
  lemma {:induction false} AcceptedExactly(messages: seq<Message>)
    ensures CollectionErrors([DuplicateErrors], messages) + MessageErrors([NamingErrors], messages) == []
      <==> AllDistinct(messages) && forall i :: 0 <= i < |messages| ==> IsMethodName(messages[i].methodName)
  {
    hide IsMethodName, NamingErrors, DuplicateErrors, AllDistinct;
    DuplicatesCounted(messages);
    NoErrorsInAny(NamingErrors, messages);
    forall i | 0 <= i < |messages| {
      SegmentsDecide(messages[i]);
    }
    assert CollectionErrors([DuplicateErrors], messages) == CollectionErrors([], messages) + DuplicateErrors(messages);
  }
}
