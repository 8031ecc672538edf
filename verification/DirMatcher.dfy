/** The directory matcher: a heap-allocated trie that agrees with a flat map from paths to URIs. */
module DirMatcher {
  import opened Text
  import opened Wrappers

  /** A path as the list of its segments. */
  type Path = seq<string>

  predicate IsSeparator(c: char) {
    c == '/' || c == '\\'
  }

  /** The parts of a string between its separators, empty ones included. */
  function Pieces(s: string): (r: seq<string>)
    ensures r != []
  {
    if s == "" then [""] else
    var rest := Pieces(s[1..]);
    if IsSeparator(s[0]) then [""] + rest else [[s[0]] + rest[0]] + rest[1..]
  }

  function NonEmpty(parts: seq<string>): seq<string> {
    if parts == [] then []
    else (if parts[0] == "" then [] else [parts[0]]) + NonEmpty(parts[1..])
  }

  /** `splitPath` of an already decoded URI. */
  function SplitPath(decoded: string): Path {
    NonEmpty(Pieces(decoded))
  }

  predicate FreeOfSeparators(part: string) {
    forall i :: 0 <= i < |part| ==> !IsSeparator(part[i])
  }

  predicate IsSegment(part: string) {
    part != "" && FreeOfSeparators(part)
  }

  lemma {:induction false} PiecesAreFree(s: string)
    ensures forall k :: 0 <= k < |Pieces(s)| ==> FreeOfSeparators(Pieces(s)[k])
  {
    if s != "" {
      PiecesAreFree(s[1..]);
    }
  }

  lemma {:induction false} NonEmptySelects(parts: seq<string>)
    requires forall k :: 0 <= k < |parts| ==> FreeOfSeparators(parts[k])
    ensures forall k :: 0 <= k < |NonEmpty(parts)| ==> IsSegment(NonEmpty(parts)[k])
  {
    if parts != [] {
      NonEmptySelects(parts[1..]);
    }
  }

  lemma SegmentIs(part: string)
    ensures IsSegment(part) <==> part != "" && '/' !in part && '\\' !in part
  {
  }

  /** No segment is empty or contains a separator. */
  lemma SplitPathGivesSegments(decoded: string)
    ensures forall k :: 0 <= k < |SplitPath(decoded)| ==> IsSegment(SplitPath(decoded)[k])
  {
    PiecesAreFree(decoded);
    NonEmptySelects(Pieces(decoded));
  }

  lemma {:induction false} PiecesConcat(a: string, c: char, b: string)
    requires IsSeparator(c)
    ensures Pieces(a + [c] + b) == Pieces(a) + Pieces(b)
  {
    var s := a + [c] + b;
    if a == "" {
      assert s[1..] == b;
    } else {
      PiecesConcat(a[1..], c, b);
      assert s[1..] == a[1..] + [c] + b && s[0] == a[0];
      var first, second := Pieces(a[1..]), Pieces(b);
      assert [""] + (first + second) == ([""] + first) + second;
      var joined := [a[0]] + first[0];
      assert [joined] + (first + second)[1..] == ([joined] + first[1..]) + second;
    }
  }

  lemma {:induction false} NonEmptyConcat(a: seq<string>, b: seq<string>)
    ensures NonEmpty(a + b) == NonEmpty(a) + NonEmpty(b)
  {
    if a == [] {
      assert a + b == b;
    } else {
      var head := if a[0] == "" then [] else [a[0]];
      var first, second := NonEmpty(a[1..]), NonEmpty(b);
      NonEmptyConcat(a[1..], b);
      assert (a + b)[1..] == a[1..] + b && (a + b)[0] == a[0];
      assert NonEmpty(a + b) == head + NonEmpty(a[1..] + b);
      assert (head + first) + second == head + (first + second);
    }
  }

  /** Paths compose, so a directory's segments are a prefix of those of everything below it, and a
      trailing separator makes no difference. */
  lemma SplitPathComposes(directory: string, c: char, rest: string)
    requires c == '/' || c == '\\'
    ensures SplitPath(directory + [c] + rest) == SplitPath(directory) + SplitPath(rest)
    ensures SplitPath(directory + [c]) == SplitPath(directory)
  {
    PiecesConcat(directory, c, rest);
    NonEmptyConcat(Pieces(directory), Pieces(rest));
    PiecesConcat(directory, c, "");
    NonEmptyConcat(Pieces(directory), Pieces(""));
    assert directory + [c] + "" == directory + [c];
  }

  lemma {:induction false} PiecesOfFree(s: string)
    requires FreeOfSeparators(s)
    ensures Pieces(s) == [s]
  {
    if s != "" {
      assert forall i :: 0 <= i < |s[1..]| ==> s[1..][i] == s[i + 1];
      PiecesOfFree(s[1..]);
      assert s == [s[0]] + s[1..];
    }
  }

  /** A segment survives the split whole. */
  lemma SplitPathOfSegment(s: string)
    ensures SplitPath("") == []
    ensures IsSegment(s) ==> SplitPath(s) == [s]
  {
    if IsSegment(s) {
      PiecesOfFree(s);
      assert NonEmpty([s]) == [s] + NonEmpty([s][1..]);
    }
  }

  /** Splitting undoes joining, whichever separator joined the segments. */
  lemma {:induction false} SplitPathJoin(parts: seq<string>, c: char)
    requires c == '/' || c == '\\'
    requires forall part :: part in parts ==> part != "" && '/' !in part && '\\' !in part
    ensures SplitPath(Join(parts, [c])) == parts
  {
    hide SplitPath;
    if parts == [] {
      SplitPathOfSegment("");
    } else {
      assert parts[0] in parts && forall part :: part in parts[1..] ==> part in parts;
      SegmentIs(parts[0]);
      SplitPathOfSegment(parts[0]);
      if |parts| == 1 {
        assert parts == [parts[0]];
      } else {
        SplitPathJoin(parts[1..], c);
        SplitPathComposes(parts[0], c, Join(parts[1..], [c]));
        assert Join(parts, [c]) == parts[0] + [c] + Join(parts[1..], [c]);
      }
    }
  }

  // ----- the flat map a history of operations stands for

  datatype Operation = Add(path: Path, uri: string) | Reset

  function Replay(history: seq<Operation>): map<Path, string> {
    if history == [] then map[] else
    var n := |history| - 1;
    match history[n]
    case Add(path, uri) => Replay(history[..n])[path := uri]
    case Reset => map[]
  }

  lemma RecordAdd(history: seq<Operation>, path: Path, uri: string)
    ensures Replay(history + [Add(path, uri)]) == Replay(history)[path := uri]
  {
  }

  /** `uri` was the last one added for `path` since the last reset. */
  ghost predicate LastWriter(history: seq<Operation>, path: Path, uri: string) {
    exists i :: 0 <= i < |history| && history[i] == Add(path, uri) &&
      forall j :: i < j < |history| ==> history[j].Add? && history[j].path != path
  }

  lemma LastWriterAppend(history: seq<Operation>, last: Operation, path: Path, uri: string)
    ensures LastWriter(history + [last], path, uri) <==>
      last == Add(path, uri) || (last.Add? && last.path != path && LastWriter(history, path, uri))
  {
    var more, n := history + [last], |history|;
    assert more[n] == last && forall i :: 0 <= i < n ==> more[i] == history[i];
    if LastWriter(history, path, uri) && last.Add? && last.path != path {
      var i :| 0 <= i < n && history[i] == Add(path, uri) &&
        forall j :: i < j < n ==> history[j].Add? && history[j].path != path;
      assert more[i] == Add(path, uri);
    }
  }

  lemma {:induction false} ReplayIsLastWriter(history: seq<Operation>, path: Path, uri: string)
    ensures path in Replay(history) && Replay(history)[path] == uri <==> LastWriter(history, path, uri)
  {
    if history != [] {
      var n := |history| - 1;
      ReplayIsLastWriter(history[..n], path, uri);
      LastWriterAppend(history[..n], history[n], path, uri);
      hide LastWriter;
      assert history == history[..n] + [history[n]];
    }
  }

  /** The URIs of the non-empty prefixes of `query` up to length `k`, shortest first. */
  function Matches(contents: map<Path, string>, query: Path, k: nat): seq<string>
    requires k <= |query|
  {
    if k == 0 then [] else
    Matches(contents, query, k - 1) + if query[..k] in contents then [contents[query[..k]]] else []
  }

  /** The matches are exactly the stored prefixes of the query, in order of increasing length. */
  lemma {:induction false} MatchesAreThePrefixes(contents: map<Path, string>, query: Path, k: nat)
    returns (lengths: seq<nat>)
    requires k <= |query|
    ensures |lengths| == |Matches(contents, query, k)|
    ensures forall i :: 0 <= i < |lengths| ==>
      && 0 < lengths[i] <= k && query[..lengths[i]] in contents
      && Matches(contents, query, k)[i] == contents[query[..lengths[i]]]
    ensures forall i, j :: 0 <= i < j < |lengths| ==> lengths[i] < lengths[j]
    ensures forall n :: 0 < n <= k && query[..n] in contents ==> n in lengths
  {
    if k == 0 {
      lengths := [];
    } else {
      lengths := MatchesAreThePrefixes(contents, query, k - 1);
      if query[..k] in contents {
        lengths := lengths + [k];
      }
    }
  }

  /** A directory is found exactly if it was the last one added, since the last reset, for some
      non-empty prefix of the query. */
  lemma {:induction false} FoundExactly(history: seq<Operation>, query: Path, uri: string)
    ensures uri in Matches(Replay(history), query, |query|) <==>
      exists n :: 0 < n <= |query| && LastWriter(history, query[..n], uri)
  {
    var contents := Replay(history);
    var lengths := MatchesAreThePrefixes(contents, query, |query|);
    forall n | 0 < n <= |query| {
      ReplayIsLastWriter(history, query[..n], uri);
    }
  }

  lemma NoLongerMatches(contents: map<Path, string>, query: Path, k: nat, n: nat)
    requires k <= n <= |query|
    requires forall i :: k < i <= n ==> query[..i] !in contents
    ensures Matches(contents, query, n) == Matches(contents, query, k)
  {
  }

  // ----- the trie

  class TrieNode {
    const pathSegment: string
    var children: map<string, TrieNode>
    var dirToMatch: Option<string>

    constructor (dirPart: string)
      ensures pathSegment == dirPart && children == map[] && dirToMatch == None
    {
      pathSegment := dirPart;
      children := map[];
      dirToMatch := None;
    }

    method Dispose()
      modifies this
      ensures children == map[] && dirToMatch == None
    {
      children := map[];
      dirToMatch := None;
    }
  }

  type Nodes = map<Path, TrieNode>

  /** The fields of one node, as a value. */
  datatype Cell = Cell(children: map<string, TrieNode>, dir: Option<string>)

  type Cells = map<Path, Cell>

  /** Different paths lead to different nodes. */
  ghost predicate Injective(nodes: Nodes) {
    forall p, q :: p in nodes && q in nodes && nodes[p] == nodes[q] ==> p == q
  }

  ghost predicate HasParent(nodes: Nodes, p: Path) {
    p != [] ==> p[..|p| - 1] in nodes
  }

  /** The children of the node at `p` are the nodes one segment below it. */
  ghost predicate Linked(nodes: Nodes, p: Path, children: map<string, TrieNode>) {
    && (forall s :: s in children <==> p + [s] in nodes)
    && (forall s :: s in children ==> children[s] == nodes[p + [s]])
  }

  /** `nodes` and `cells` describe a tree rooted at the empty path. */
  ghost predicate Tree(nodes: Nodes, cells: Cells) {
    && [] in nodes && nodes.Keys == cells.Keys
    && (forall p :: p in nodes ==> HasParent(nodes, p))
    && (forall p :: p in nodes ==> Linked(nodes, p, cells[p].children))
  }

  /** The directory stored at each path. */
  ghost function Stored(cells: Cells): map<Path, string> {
    map p | p in cells && cells[p].dir.Some? :: cells[p].dir.value
  }

  lemma ParentOf(p: Path, s: string)
    ensures p + [s] != [] && (p + [s])[..|p + [s]| - 1] == p
  {
  }

  lemma AncestorsExist(nodes: Nodes, p: Path, k: nat)
    requires (forall q :: q in nodes ==> HasParent(nodes, q)) && p in nodes && k <= |p|
    ensures p[..k] in nodes
    decreases |p|
  {
    if k < |p| {
      assert HasParent(nodes, p);
      AncestorsExist(nodes, p[..|p| - 1], k);
      assert p[..|p| - 1][..k] == p[..k];
    } else {
      assert p[..k] == p;
    }
  }

  /** A missing child means that no path through it exists either. */
  lemma NothingBelow(nodes: Nodes, cells: Cells, p: Path, s: string)
    requires Tree(nodes, cells) && p in nodes && s !in cells[p].children
    ensures p + [s] !in nodes
    ensures forall q :: q in nodes ==> !(p + [s] <= q)
  {
    assert Linked(nodes, p, cells[p].children);
    forall q | q in nodes ensures !(p + [s] <= q) {
      if p + [s] <= q {
        assert q[..|p| + 1] == p + [s];
        AncestorsExist(nodes, q, |p| + 1);
      }
    }
  }

  lemma AppendIsInjective(q: Path, t: string, p: Path, s: string)
    ensures q + [t] == p + [s] <==> q == p && t == s
  {
    ParentOf(q, t);
    ParentOf(p, s);
    assert (q + [t])[|q|] == t && (p + [s])[|p|] == s;
  }

  lemma GrowLinks(nodes: Nodes, p: Path, s: string, child: TrieNode, q: Path, children: map<string, TrieNode>)
    requires p + [s] !in nodes && Linked(nodes, q, children)
    ensures Linked(nodes[p + [s] := child], q, if q == p then children[s := child] else children)
  {
    forall t {
      AppendIsInjective(q, t, p, s);
    }
  }

  lemma LeafLinked(nodes: Nodes, path: Path, child: TrieNode)
    requires forall q :: q in nodes ==> !(path <= q)
    ensures Linked(nodes[path := child], path, map[])
  {
    forall t ensures path + [t] !in nodes[path := child] {
      assert path <= path + [t];
    }
  }

  lemma GrowStored(cells: Cells, p: Path, s: string, child: TrieNode)
    requires p in cells && p + [s] !in cells
    ensures Stored(cells[p := Cell(cells[p].children[s := child], cells[p].dir)][p + [s] := Cell(map[], None)])
            == Stored(cells)
  {
  }

  /** Hanging a new leaf under the node at `p` gives a tree that stores the same directories. */
  lemma GrowTree(nodes: Nodes, cells: Cells, p: Path, s: string, child: TrieNode)
    requires Tree(nodes, cells) && p in nodes && s !in cells[p].children
    ensures var path := p + [s];
      var grown := cells[p := Cell(cells[p].children[s := child], cells[p].dir)][path := Cell(map[], None)];
      Tree(nodes[path := child], grown) && Stored(grown) == Stored(cells)
  {
    hide Linked, Stored;
    var path := p + [s];
    var grownNodes := nodes[path := child];
    var grown := cells[p := Cell(cells[p].children[s := child], cells[p].dir)][path := Cell(map[], None)];
    NothingBelow(nodes, cells, p, s);
    GrowStored(cells, p, s, child);
    LeafLinked(nodes, path, child);
    ParentOf(p, s);
    forall q | q in nodes
      ensures HasParent(grownNodes, q) && Linked(grownNodes, q, grown[q].children)
    {
      assert HasParent(nodes, q);
      GrowLinks(nodes, p, s, child, q, cells[q].children);
    }
  }

  lemma InjectiveGrows(nodes: Nodes, path: Path, child: TrieNode)
    requires Injective(nodes) && child !in nodes.Values
    ensures Injective(nodes[path := child])
  {
  }

  lemma StoreAt(nodes: Nodes, cells: Cells, p: Path, uri: string)
    requires Tree(nodes, cells) && p in nodes
    ensures var stored := cells[p := Cell(cells[p].children, Some(uri))];
      Tree(nodes, stored) && Stored(stored) == Stored(cells)[p := uri]
  {
  }

  lemma Descend(nodes: Nodes, cells: Cells, p: Path, s: string)
    requires Tree(nodes, cells) && p in nodes && s in cells[p].children
    ensures p + [s] in nodes && cells[p].children[s] == nodes[p + [s]]
  {
  }

  lemma StoredAt(cells: Cells, p: Path)
    ensures p in Stored(cells) <==> p in cells && cells[p].dir.Some?
    ensures p in Stored(cells) ==> Stored(cells)[p] == cells[p].dir.value
  {
  }

  class FastDirectoryMatcher {
    const decode: string -> string      // decodeURIComponent
    const dirname: string -> string
    var root: TrieNode
    ghost var nodes: Nodes              // the node at the end of each path
    ghost var history: seq<Operation>

    ghost predicate Valid()
      reads this, nodes.Values
    {
      && decode("") == ""
      && Tree(nodes, Snapshot()) && Injective(nodes) && nodes[[]] == root
      && Stored(Snapshot()) == Replay(history)
      && (forall op :: op in history && op.Add? ==> op.path == SplitPath(decode(op.uri)))
    }

    /** What the heap holds at each path. */
    ghost function Snapshot(): Cells
      reads this`nodes, nodes.Values
    {
      map p | p in nodes :: Cell(nodes[p].children, nodes[p].dirToMatch)
    }

    constructor (decode: string -> string, dirname: string -> string)
      requires decode("") == ""
      ensures Valid() && history == [] && fresh(nodes.Values)
      ensures this.decode == decode && this.dirname == dirname
    {
      this.decode := decode;
      this.dirname := dirname;
      var r := new TrieNode("");
      root := r;
      nodes := map[[] := r];
      history := [];
      new;
      EmptyTree(nodes, Snapshot());
    }

    method AddPath(dirUri: string)
      requires Valid()
      modifies this`nodes, this`history, nodes.Values
      ensures Valid() && fresh(nodes.Values - old(nodes.Values))
      ensures history == old(history) + [Add(SplitPath(decode(dirUri)), dirUri)]
    {
      hide Tree, Stored, Replay, Injective, SplitPath;
      var pathSegments := SplitPath(decode(dirUri));
      var node := root;
      RootExists(nodes, Snapshot());
      for i := 0 to |pathSegments|
        invariant Valid() && history == old(history) && fresh(nodes.Values - old(nodes.Values))
        invariant pathSegments[..i] in nodes && node == nodes[pathSegments[..i]]
      {
        assert pathSegments[..i + 1] == pathSegments[..i] + [pathSegments[i]];
        node := ChildAt(node, pathSegments[i], pathSegments[..i]);
      }
      assert pathSegments[..|pathSegments|] == pathSegments;
      SetDirectory(node, pathSegments, dirUri);
    }

    /** The child for a segment, added if there is none. */
    method ChildAt(node: TrieNode, segment: string, ghost here: Path) returns (child: TrieNode)
      requires Valid() && here in nodes && nodes[here] == node
      modifies this`nodes, node
      ensures Valid() && history == old(history) && fresh(nodes.Values - old(nodes.Values))
      ensures here + [segment] in nodes && child == nodes[here + [segment]]
    {
      hide Tree, Stored, Replay, Injective, SplitPath;
      if segment in node.children {
        Descend(nodes, Snapshot(), here, segment);
        child := node.children[segment];
      } else {
        child := AddChild(node, segment, here);
      }
    }

    method SetDirectory(node: TrieNode, ghost path: Path, dirUri: string)
      requires Valid() && path in nodes && nodes[path] == node && path == SplitPath(decode(dirUri))
      modifies this`history, node
      ensures Valid() && history == old(history) + [Add(path, dirUri)]
    {
      hide Tree, Stored, Replay;
      ghost var before := Snapshot();
      StoreAt(nodes, before, path, dirUri);
      node.dirToMatch := Some(dirUri);
      assert Snapshot() == before[path := Cell(before[path].children, Some(dirUri))];
      RecordAdd(history, path, dirUri);
      history := history + [Add(path, dirUri)];
    }

    method AddChild(node: TrieNode, segment: string, ghost here: Path) returns (child: TrieNode)
      requires Valid() && here in nodes && nodes[here] == node && segment !in node.children
      modifies this`nodes, node
      ensures Valid() && history == old(history)
      ensures fresh(child) && nodes == old(nodes)[here + [segment] := child]
    {
      hide Tree, Stored, Replay, SplitPath, Injective;
      ghost var path := here + [segment];
      child := new TrieNode(segment);
      GrowTree(nodes, Snapshot(), here, segment, child);
      NothingBelow(nodes, Snapshot(), here, segment);
      InjectiveGrows(nodes, path, child);
      LinkChild(node, segment, child, here);
      EnterNode(path, child);
    }

    method LinkChild(node: TrieNode, segment: string, child: TrieNode, ghost here: Path)
      requires Injective(nodes) && here in nodes && nodes[here] == node && child !in nodes.Values
      modifies node
      ensures node.children == old(node.children)[segment := child] && node.dirToMatch == old(node.dirToMatch)
      ensures Snapshot() == old(Snapshot())[here := Cell(node.children, node.dirToMatch)]
    {
      node.children := node.children[segment := child];
    }

    ghost method EnterNode(path: Path, child: TrieNode)
      modifies this`nodes
      ensures nodes == old(nodes)[path := child]
      ensures Snapshot() == old(Snapshot())[path := Cell(child.children, child.dirToMatch)]
    {
      nodes := nodes[path := child];
    }

    method AddFileToMatch(uri: string)
      requires Valid()
      modifies this`nodes, this`history, nodes.Values
      ensures Valid() && fresh(nodes.Values - old(nodes.Values))
      ensures history == old(history) + [Add(SplitPath(decode(dirname(uri))), dirname(uri))]
    {
      AddPath(dirname(uri));
    }

    method AddDirectoryToMatch(directoryUri: string)
      requires Valid()
      modifies this`nodes, this`history, nodes.Values
      ensures Valid() && fresh(nodes.Values - old(nodes.Values))
      ensures history == old(history) + [Add(SplitPath(decode(directoryUri)), directoryUri)]
    {
      AddPath(directoryUri);
    }

    /** The stored directories on the way to `uri`, least specific first. */
    method FindMatchingDirectories(uri: string) returns (matches: seq<string>)
      requires Valid()
      ensures var query := SplitPath(decode(uri)); matches == Matches(Replay(history), query, |query|)
    {
      hide Tree, Stored, Replay, SplitPath;
      var parts := SplitPath(decode(uri));
      ghost var cells, contents := Snapshot(), Replay(history);
      matches := [];
      var node := root;
      RootExists(nodes, cells);
      for i := 0 to |parts|
        invariant parts[..i] in nodes && node == nodes[parts[..i]]
        invariant matches == Matches(contents, parts, i)
      {
        ghost var here := parts[..i];
        assert parts[..i + 1] == here + [parts[i]];
        if parts[i] !in node.children {
          NoMatchBelow(nodes, cells, parts, i);
          NoLongerMatches(contents, parts, i, |parts|);
          return;
        }
        Descend(nodes, cells, here, parts[i]);
        node := node.children[parts[i]];
        StoredAt(cells, parts[..i + 1]);
        StoredUriIsNotEmpty(history, decode, parts[..i + 1]);
        if node.dirToMatch.Some? && node.dirToMatch.value != "" {
          matches := matches + [node.dirToMatch.value];
        }
      }
    }

    /** Empties every node, children first, then starts a new trie. */
    method Dispose()
      requires Valid()
      modifies this, nodes.Values
      ensures Valid() && history == old(history) + [Reset] && fresh(nodes.Values)
      ensures forall p :: p in old(nodes) ==>
        old(nodes)[p].children == map[] && old(nodes)[p].dirToMatch == None
    {
      hide Tree, Stored, Replay, SplitPath, Injective;
      RootExists(nodes, Snapshot());
      ClearRoot();
      Restart();
      RecordReset(history);
      history := history + [Reset];
    }

    method ClearRoot()
      requires Tree(nodes, Snapshot()) && Injective(nodes) && [] in nodes && nodes[[]] == root
      modifies nodes.Values
      ensures forall p :: p in nodes ==> nodes[p].children == map[] && nodes[p].dirToMatch == None
    {
      hide Tree, Injective, Cleared;
      ghost var before := Snapshot();
      ClearNode(root, [], before);
      EverythingCleared(before);
      forall p | p in nodes ensures nodes[p].children == map[] && nodes[p].dirToMatch == None {
        assert Snapshot()[p] == Cell(map[], None);
      }
    }

    method Restart()
      modifies this`root, this`nodes
      ensures Tree(nodes, Snapshot()) && Injective(nodes) && nodes[[]] == root
      ensures Stored(Snapshot()) == map[] && fresh(nodes.Values)
    {
      root := new TrieNode("");
      nodes := map[[] := root];
      EmptyTree(nodes, Snapshot());
    }

    /** Clears the subtree at `path`. It ends because every child's subtree is strictly smaller.
        `tree` is the trie as it was before any clearing. */
    method ClearNode(node: TrieNode, ghost path: Path, ghost tree: Cells)
      requires Injective(nodes) && Tree(nodes, tree) && path in nodes && nodes[path] == node
      requires AgreeBelow(Snapshot(), tree, path)
      modifies nodes.Values
      ensures Snapshot() == Cleared(old(Snapshot()), {path})
      decreases Subtree(nodes, path), 1
    {
      hide Tree, Cleared, AgreeBelow, ChildPaths, Injective;
      ghost var start := Snapshot();
      ghost var done: set<string> := {};
      NothingCleared(start, path);
      ChildrenAgree(nodes, start, tree, path, done);
      ghost var children := node.children;
      var remaining := node.children.Keys;
      while remaining != {}
        invariant remaining <= children.Keys && node.children == children == tree[path].children
        invariant done == children.Keys - remaining
        invariant Snapshot() == Cleared(start, ChildPaths(path, done))
        decreases remaining
      {
        var segment :| segment in remaining;
        ClearChild(node, segment, path, tree, start, done);
        done := done + {segment};
        remaining := remaining - {segment};
      }
      assert done == tree[path].children.Keys;
      ClearSelf(nodes, tree, start, path);
      DisposeNode(node, path);
    }

    /** One round of the loop. */
    method ClearChild(node: TrieNode, segment: string,
                      ghost path: Path, ghost tree: Cells, ghost start: Cells, ghost done: set<string>)
      requires Injective(nodes) && Tree(nodes, tree) && path in nodes && nodes[path] == node
      requires AgreeBelow(start, tree, path) && Snapshot() == Cleared(start, ChildPaths(path, done))
      requires path in tree && node.children == tree[path].children && segment in node.children && segment !in done
      modifies nodes.Values
      ensures Snapshot() == Cleared(start, ChildPaths(path, done + {segment}))
      ensures node.children == old(node.children)
      decreases Subtree(nodes, path), 0
    {
      hide Tree, Cleared, AgreeBelow, ChildPaths, Injective;
      ChildrenAgree(nodes, start, tree, path, done);
      Descend(nodes, tree, path, segment);
      ChildSubtreeIsSmaller(nodes, path, segment);
      ClearNode(node.children[segment], path + [segment], tree);
      ClearOneMore(start, path, done, segment);
      ChildrenAgree(nodes, start, tree, path, done + {segment});
      assert node.children == Snapshot()[path].children;
    }

    method DisposeNode(node: TrieNode, ghost path: Path)
      requires Injective(nodes) && path in nodes && nodes[path] == node
      modifies node
      ensures Snapshot() == old(Snapshot())[path := Cell(map[], None)]
    {
      node.Dispose();
    }
  }

  ghost function Subtree(nodes: Nodes, path: Path): set<Path> {
    set p | p in nodes && path <= p
  }

  lemma ChildSubtreeIsSmaller(nodes: Nodes, path: Path, s: string)
    requires path in nodes
    ensures Subtree(nodes, path + [s]) < Subtree(nodes, path)
  {
    assert path in Subtree(nodes, path) && !(path + [s] <= path);
  }

  ghost predicate Covered(tops: set<Path>, p: Path) {
    exists top :: top in tops && top <= p
  }

  /** The cells with the subtrees at `tops` emptied. */
  ghost function Cleared(cells: Cells, tops: set<Path>): Cells {
    map p | p in cells :: if Covered(tops, p) then Cell(map[], None) else cells[p]
  }

  ghost function ChildPaths(path: Path, segments: set<string>): set<Path> {
    set s | s in segments :: path + [s]
  }

  ghost predicate AgreeBelow(cells: Cells, tree: Cells, path: Path) {
    forall p :: p in tree && path <= p ==> p in cells && cells[p] == tree[p]
  }

  lemma NothingCleared(cells: Cells, path: Path)
    ensures Cleared(cells, ChildPaths(path, {})) == cells
  {
  }

  lemma ClearOneMore(cells: Cells, path: Path, done: set<string>, s: string)
    ensures Cleared(Cleared(cells, ChildPaths(path, done)), {path + [s]})
            == Cleared(cells, ChildPaths(path, done + {s}))
  {
    assert ChildPaths(path, done + {s}) == ChildPaths(path, done) + {path + [s]};
  }

  /** Clearing some children leaves the node itself and its other children alone. */
  lemma ChildrenAgree(nodes: Nodes, start: Cells, tree: Cells, path: Path, done: set<string>)
    requires Tree(nodes, tree) && path in nodes && AgreeBelow(start, tree, path)
    ensures path in start && path in tree && Cleared(start, ChildPaths(path, done))[path] == tree[path]
    ensures forall s :: s !in done ==> AgreeBelow(Cleared(start, ChildPaths(path, done)), tree, path + [s])
  {
    var tops := ChildPaths(path, done);
    assert !Covered(tops, path);
    forall s, p | s !in done && p in tree && path + [s] <= p
      ensures p in start && Cleared(start, tops)[p] == tree[p]
    {
      assert p[|path|] == s;
      assert forall t :: t in done && path + [t] <= p ==> p[|path|] == t;
      assert path <= p;
    }
  }

  lemma ChildTowards(nodes: Nodes, tree: Cells, path: Path, p: Path) returns (s: string)
    requires Tree(nodes, tree) && path in nodes && p in nodes && path <= p && p != path
    ensures s in tree[path].children && path + [s] <= p
  {
    s := p[|path|];
    AncestorsExist(nodes, p, |path| + 1);
    assert p[..|path| + 1] == path + [s];
    assert Linked(nodes, path, tree[path].children);
  }

  lemma CoveredByChildren(nodes: Nodes, tree: Cells, path: Path, p: Path)
    requires Tree(nodes, tree) && path in nodes && path in tree && p in nodes
    ensures Covered({path}, p) <==> p == path || Covered(ChildPaths(path, tree[path].children.Keys), p)
  {
    hide Tree;
    var tops := ChildPaths(path, tree[path].children.Keys);
    if path <= p {
      assert path in {path};
      if p != path {
        var s := ChildTowards(nodes, tree, path, p);
        assert path + [s] in tops;
      }
    }
  }

  /** Once all its children are cleared, clearing the node itself clears its subtree. */
  lemma ClearSelf(nodes: Nodes, tree: Cells, start: Cells, path: Path)
    requires Tree(nodes, tree) && path in nodes && path in tree && start.Keys == nodes.Keys
    ensures Cleared(start, ChildPaths(path, tree[path].children.Keys))[path := Cell(map[], None)]
            == Cleared(start, {path})
  {
    hide Tree, Covered, ChildPaths;
    forall p | p in start {
      CoveredByChildren(nodes, tree, path, p);
    }
  }

  lemma EmptyTree(nodes: Nodes, cells: Cells)
    requires nodes.Keys == {[]} && cells == map[[] := Cell(map[], None)]
    ensures Tree(nodes, cells) && Injective(nodes) && Stored(cells) == map[]
  {
  }

  lemma EverythingCleared(cells: Cells)
    ensures forall p :: p in cells ==> Cleared(cells, {[]})[p] == Cell(map[], None)
  {
  }

  lemma RecordReset(history: seq<Operation>)
    ensures Replay(history + [Reset]) == map[]
  {
  }

  lemma NoMatchBelow(nodes: Nodes, cells: Cells, parts: Path, i: nat)
    requires Tree(nodes, cells) && i < |parts| && parts[..i] in nodes
    requires parts[i] !in cells[parts[..i]].children
    ensures forall n :: i < n <= |parts| ==> parts[..n] !in Stored(cells)
  {
    NothingBelow(nodes, cells, parts[..i], parts[i]);
    forall n | i < n <= |parts| ensures parts[..n] !in Stored(cells) {
      assert parts[..i] + [parts[i]] == parts[..n][..i + 1];
    }
  }

  /** The empty URI has no segments, so what is stored at a longer path is a truthy string. */
  lemma StoredUriIsNotEmpty(history: seq<Operation>, decode: string -> string, path: Path)
    requires decode("") == "" && path != []
    requires forall op :: op in history && op.Add? ==> op.path == SplitPath(decode(op.uri))
    ensures path in Replay(history) ==> Replay(history)[path] != ""
  {
  }

  lemma RootExists(nodes: Nodes, cells: Cells)
    requires Tree(nodes, cells)
    ensures [] in nodes
  {
  }
}
