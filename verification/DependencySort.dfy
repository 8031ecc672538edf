/** The recursive topological sort of the classes to instantiate. */
module DependencySort {
  import opened Wrappers
  import opened DependencyGraph

  /** The metadata of a class is looked up by the class itself, so a class listed twice has the
      same id and dependencies both times. */
  ghost predicate Consistent(classes: seq<ClassWithDependencies>) {
    forall c, d :: c in classes && d in classes && c.cls == d.cls ==> c == d
  }

  /** Every class that provides a dependency of an element stands before that element. */
  ghost predicate ProvidersFirst(sorted: seq<ClassWithDependencies>, classes: seq<ClassWithDependencies>) {
    forall k :: 0 <= k < |sorted| ==> ProvidedBy(sorted[..k], classes, sorted[k].dependencies)
  }

  ghost predicate ProvidedBy(earlier: seq<ClassWithDependencies>, classes: seq<ClassWithDependencies>,
                             dependencies: seq<Dependency>)
  {
    forall dep, c :: dep in dependencies && c in classes && c.id == dep.symbol ==> c in earlier
  }

  /** As `ProvidersFirst`, counting a class listed twice as two. */
  ghost predicate CompleteBlocksFirst(sorted: seq<ClassWithDependencies>, classes: seq<ClassWithDependencies>) {
    forall k, dep :: 0 <= k < |sorted| && dep in sorted[k].dependencies ==>
      ById(sorted[..k], dep.symbol) == ById(classes, dep.symbol)
  }

  lemma PushKeepsProvidersFirst(sorted: seq<ClassWithDependencies>, classes: seq<ClassWithDependencies>,
                                c: ClassWithDependencies)
    requires ProvidersFirst(sorted, classes) && ProvidedBy(sorted, classes, c.dependencies)
    ensures ProvidersFirst(sorted + [c], classes)
  {
    var pushed := sorted + [c];
    forall k | 0 <= k < |pushed| ensures ProvidedBy(pushed[..k], classes, pushed[k].dependencies) {
      assert pushed[..k] == sorted[..k];
      assert k == |sorted| ==> pushed[..k] == sorted;
    }
  }

  lemma PushKeepsBlocks(sorted: seq<ClassWithDependencies>, classes: seq<ClassWithDependencies>,
                        c: ClassWithDependencies)
    requires CompleteBlocksFirst(sorted, classes)
    requires AllComplete(sorted, classes, c.dependencies)
    ensures CompleteBlocksFirst(sorted + [c], classes)
  {
    var pushed := sorted + [c];
    forall k, dep | 0 <= k < |pushed| && dep in pushed[k].dependencies
      ensures ById(pushed[..k], dep.symbol) == ById(classes, dep.symbol)
    {
      assert pushed[..k] == sorted[..k];
      assert k == |sorted| ==> pushed[..k] == sorted;
    }
  }

  /** On an acyclic graph a path visits every interface once, and only its end may have no class. */
  lemma StackIsShort(g: Graph, path: seq<Symbol>)
    requires IsPath(g, path)
    ensures Acyclic(g) ==> |path| <= |g| + 1
  {
    if !Acyclic(g) {
      return;
    }
    var n := |path| - 1;
    var q := path[..n];
    AcyclicPathsDoNotRepeat(g, path);
    assert forall i :: 0 <= i < n ==> q[i] == path[i];
    NoDuplicatesCardinality(q);
    forall i | 0 <= i < n ensures q[i] in g.Keys {
      assert Edge(g, path[i], path[i + 1]);
    }
    SubsetCardinality(ToSet(q), g.Keys);
  }

  function SelectUnprocessed(cwds: seq<ClassWithDependencies>, processed: set<ClassRef>)
    : (r: seq<ClassWithDependencies>)
    ensures forall c :: c in r <==> c in cwds && c.cls !in processed
    ensures (forall c :: c in cwds ==> c.cls !in processed) ==> r == cwds
  {
    if cwds == [] then [] else
    (if cwds[0].cls in processed then [] else [cwds[0]]) + SelectUnprocessed(cwds[1..], processed)
  }

  ghost predicate Untouched(sorted: seq<ClassWithDependencies>, symbol: Symbol) {
    ById(sorted, symbol) == []
  }

  ghost predicate Complete(sorted: seq<ClassWithDependencies>, classes: seq<ClassWithDependencies>, symbol: Symbol) {
    ById(sorted, symbol) == ById(classes, symbol)
  }

  ghost predicate AllComplete(sorted: seq<ClassWithDependencies>, classes: seq<ClassWithDependencies>,
                              dependencies: seq<Dependency>)
  {
    forall dep :: dep in dependencies ==> Complete(sorted, classes, dep.symbol)
  }

  /** `b` is needed, directly or not, by some class of `a`. */
  ghost predicate Below(g: Graph, a: Symbol, b: Symbol) {
    exists x :: Edge(g, a, x) && Reaches(g, x, b)
  }

  lemma BelowAcyclic(g: Graph, a: Symbol, b: Symbol)
    requires Below(g, a, b)
    ensures Reaches(g, a, b)
    ensures Acyclic(g) ==> a != b
  {
    var x :| Edge(g, a, x) && Reaches(g, x, b);
    ReachesThroughEdge(g, a, x, b);
  }

  /** Every interface below `symbol` is still untouched or already complete. */
  ghost predicate ReadyBelow(g: Graph, classes: seq<ClassWithDependencies>, symbol: Symbol,
                             sorted: seq<ClassWithDependencies>)
  {
    forall t :: Below(g, symbol, t) ==> Untouched(sorted, t) || Complete(sorted, classes, t)
  }

  /** From `before` to `after` some untouched interfaces below `symbol` were completed; no other
      interface changed. */
  ghost predicate GrewBelow(g: Graph, classes: seq<ClassWithDependencies>, symbol: Symbol,
                            before: seq<ClassWithDependencies>, after: seq<ClassWithDependencies>)
  {
    forall t :: ById(after, t) == ById(before, t)
      || (Below(g, symbol, t) && Untouched(before, t) && Complete(after, classes, t))
  }

  /** As `GrewBelow`, allowing `symbol` itself to be completed too. */
  ghost predicate GrewFrom(g: Graph, classes: seq<ClassWithDependencies>, symbol: Symbol,
                           before: seq<ClassWithDependencies>, after: seq<ClassWithDependencies>)
  {
    forall t :: ById(after, t) == ById(before, t)
      || (Reaches(g, symbol, t) && Untouched(before, t) && Complete(after, classes, t))
  }

  lemma ReadyAfterGrowth(g: Graph, classes: seq<ClassWithDependencies>, symbol: Symbol, target: Symbol,
                         before: seq<ClassWithDependencies>, after: seq<ClassWithDependencies>)
    requires ReadyBelow(g, classes, symbol, before) && GrewBelow(g, classes, symbol, before, after)
    requires Edge(g, symbol, target)
    ensures ReadyBelow(g, classes, target, after)
    ensures Untouched(after, target) || Complete(after, classes, target)
  {
    forall t | Below(g, target, t) || t == target
      ensures Untouched(after, t) || Complete(after, classes, t)
    {
      if t == target {
        ReachesItself(g, t);
      } else {
        BelowAcyclic(g, target, t);
      }
      assert Below(g, symbol, t);
    }
  }

  lemma GrowthStep(g: Graph, classes: seq<ClassWithDependencies>, symbol: Symbol, target: Symbol,
                   before: seq<ClassWithDependencies>, mid: seq<ClassWithDependencies>,
                   after: seq<ClassWithDependencies>)
    requires GrewBelow(g, classes, symbol, before, mid) && Edge(g, symbol, target)
    requires GrewFrom(g, classes, target, mid, after)
    ensures GrewBelow(g, classes, symbol, before, after)
    ensures forall t :: Complete(mid, classes, t) ==> Complete(after, classes, t)
  {
  }

  /** The state of the sort while the classes of `symbol` are being handled, `done` of them already:
      the loop invariant of `TopologicalSort` on an acyclic graph. */
  ghost predicate Progress(g: Graph, classes: seq<ClassWithDependencies>, symbol: Symbol,
                           before: seq<ClassWithDependencies>, sorted: seq<ClassWithDependencies>,
                           done: seq<ClassWithDependencies>)
  {
    && CompleteBlocksFirst(sorted, classes)
    && ReadyBelow(g, classes, symbol, sorted)
    && ById(sorted, symbol) == ById(before, symbol) + done
    && forall t :: t != symbol ==>
         ById(sorted, t) == ById(before, t)
         || (Below(g, symbol, t) && Untouched(before, t) && Complete(sorted, classes, t))
  }

  lemma ProgressStart(g: Graph, classes: seq<ClassWithDependencies>, symbol: Symbol,
                      before: seq<ClassWithDependencies>, cwds: seq<ClassWithDependencies>)
    ensures CompleteBlocksFirst(before, classes) && ReadyBelow(g, classes, symbol, before) ==>
      Progress(g, classes, symbol, before, before, cwds[..0])
  {
  }

  lemma ProgressFacts(g: Graph, classes: seq<ClassWithDependencies>, symbol: Symbol,
                      before: seq<ClassWithDependencies>, sorted: seq<ClassWithDependencies>,
                      done: seq<ClassWithDependencies>)
    ensures Progress(g, classes, symbol, before, sorted, done) ==>
      CompleteBlocksFirst(sorted, classes) && ReadyBelow(g, classes, symbol, sorted)
  {
  }

  lemma ProgressStep(g: Graph, classes: seq<ClassWithDependencies>, symbol: Symbol,
                     before: seq<ClassWithDependencies>, sorted: seq<ClassWithDependencies>,
                     after: seq<ClassWithDependencies>, cwds: seq<ClassWithDependencies>, i: nat)
    requires i < |cwds| && cwds[i].id == symbol
    requires Acyclic(g) ==>
      && Progress(g, classes, symbol, before, sorted, cwds[..i])
      && GrewBelow(g, classes, symbol, sorted, after) && CompleteBlocksFirst(after, classes)
      && AllComplete(after, classes, cwds[i].dependencies)
    ensures Acyclic(g) ==> Progress(g, classes, symbol, before, after + [cwds[i]], cwds[..i + 1])
  {
    if Acyclic(g) {
      ProgressDependencies(g, classes, symbol, before, sorted, after, cwds[..i]);
      ProgressPush(g, classes, symbol, before, after, cwds[..i], cwds[i]);
      assert cwds[..i + 1] == cwds[..i] + [cwds[i]];
    }
  }

  lemma ProgressDependencies(g: Graph, classes: seq<ClassWithDependencies>, symbol: Symbol,
                             before: seq<ClassWithDependencies>, sorted: seq<ClassWithDependencies>,
                             after: seq<ClassWithDependencies>, done: seq<ClassWithDependencies>)
    requires Acyclic(g) && Progress(g, classes, symbol, before, sorted, done)
    requires GrewBelow(g, classes, symbol, sorted, after) && CompleteBlocksFirst(after, classes)
    ensures Progress(g, classes, symbol, before, after, done)
  {
    if Below(g, symbol, symbol) {
      BelowAcyclic(g, symbol, symbol);
    }
  }

  lemma ProgressPush(g: Graph, classes: seq<ClassWithDependencies>, symbol: Symbol,
                     before: seq<ClassWithDependencies>, sorted: seq<ClassWithDependencies>,
                     done: seq<ClassWithDependencies>, c: ClassWithDependencies)
    requires Acyclic(g) && Progress(g, classes, symbol, before, sorted, done) && c.id == symbol
    requires AllComplete(sorted, classes, c.dependencies)
    ensures Progress(g, classes, symbol, before, sorted + [c], done + [c])
  {
    PushKeepsBlocks(sorted, classes, c);
    forall t ensures ById(sorted + [c], t) == ById(sorted, t) + if c.id == t then [c] else [] {
      ByIdAppend(sorted, c, t);
    }
    if Below(g, symbol, symbol) {
      BelowAcyclic(g, symbol, symbol);
    }
    assert ById(before, symbol) + done + [c] == ById(before, symbol) + (done + [c]);
  }

  lemma ProgressEnd(g: Graph, classes: seq<ClassWithDependencies>, symbol: Symbol,
                    before: seq<ClassWithDependencies>, sorted: seq<ClassWithDependencies>,
                    done: seq<ClassWithDependencies>)
    requires Untouched(before, symbol) ==> done == ById(classes, symbol)
    requires Complete(before, classes, symbol) ==> done == []
    ensures Progress(g, classes, symbol, before, sorted, done[..|done|]) &&
            (Untouched(before, symbol) || Complete(before, classes, symbol)) ==>
      && CompleteBlocksFirst(sorted, classes)
      && Complete(sorted, classes, symbol)
      && GrewFrom(g, classes, symbol, before, sorted)
  {
    hide CompleteBlocksFirst, Acyclic, Edge, IsPath, ById;
    assert done[..|done|] == done;
    ReachesItself(g, symbol);
    forall t | Below(g, symbol, t) ensures Reaches(g, symbol, t) {
      BelowAcyclic(g, symbol, t);
    }
    assert ById(before, symbol) + [] == ById(before, symbol);
  }

  /** What holds of the two variables of the sort between any two steps. */
  ghost predicate SortState(classes: seq<ClassWithDependencies>, sorted: seq<ClassWithDependencies>,
                            processed: set<ClassRef>)
  {
    && Consistent(classes)
    && (forall c :: c in sorted ==> c in classes)
    && processed == (set c | c in sorted :: c.cls)
    && ProvidersFirst(sorted, classes)
  }

  lemma PushKeepsState(classes: seq<ClassWithDependencies>, sorted: seq<ClassWithDependencies>,
                       processed: set<ClassRef>, c: ClassWithDependencies)
    requires SortState(classes, sorted, processed) && c in classes
    requires ProvidedBy(sorted, classes, c.dependencies)
    ensures SortState(classes, sorted + [c], processed + {c.cls})
  {
    PushKeepsProvidersFirst(sorted, classes, c);
  }

  lemma ProcessedIsSorted(classes: seq<ClassWithDependencies>, sorted: seq<ClassWithDependencies>,
                          processed: set<ClassRef>, c: ClassWithDependencies)
    requires SortState(classes, sorted, processed) && c in classes
    ensures c.cls in processed <==> c in sorted
  {
  }

  lemma UnprocessedBlock(classes: seq<ClassWithDependencies>, sorted: seq<ClassWithDependencies>,
                         processed: set<ClassRef>, symbol: Symbol)
    requires SortState(classes, sorted, processed)
    ensures var r := SelectUnprocessed(ById(classes, symbol), processed);
      && (Complete(sorted, classes, symbol) ==> r == [])
      && (Untouched(sorted, symbol) ==> r == ById(classes, symbol))
      && (forall c :: c in classes && c.id == symbol ==> c in sorted || c in r)
      && (forall c :: c in r ==> c in classes && c.id == symbol)
  {
    hide SortState;
    ByIdMembers(classes, symbol);
    ByIdMembers(sorted, symbol);
    var block := ById(classes, symbol);
    var done := ById(sorted, symbol);
    var r := SelectUnprocessed(block, processed);
    forall c | c in block ensures c.cls in processed <==> c in done {
      ProcessedIsSorted(classes, sorted, processed, c);
    }
    assert r != [] ==> r[0] in r;
  }

  ghost predicate AllSorted(cwds: seq<ClassWithDependencies>, sorted: seq<ClassWithDependencies>) {
    forall c :: c in cwds ==> c in sorted
  }

  /** All classes of an interface have been sorted. */
  ghost predicate BlockSorted(classes: seq<ClassWithDependencies>, symbol: Symbol,
                              sorted: seq<ClassWithDependencies>)
  {
    AllSorted(ById(classes, symbol), sorted)
  }

  lemma NothingToSort(cwds: seq<ClassWithDependencies>, sorted: seq<ClassWithDependencies>)
    ensures AllSorted(cwds[..0], sorted)
  {
  }

  lemma StillSorted(cwds: seq<ClassWithDependencies>, i: nat, sorted: seq<ClassWithDependencies>,
                    after: seq<ClassWithDependencies>)
    requires i < |cwds| && AllSorted(cwds[..i], sorted) && sorted <= after
    ensures AllSorted(cwds[..i + 1], after + [cwds[i]])
  {
    assert cwds[..i + 1] == cwds[..i] + [cwds[i]];
    assert forall c :: c in sorted ==> c in after;
  }

  lemma BlockIsSorted(classes: seq<ClassWithDependencies>, symbol: Symbol, cwds: seq<ClassWithDependencies>,
                      before: seq<ClassWithDependencies>, sorted: seq<ClassWithDependencies>)
    requires before <= sorted && AllSorted(cwds[..|cwds|], sorted)
    requires forall c :: c in classes && c.id == symbol ==> c in before || c in cwds
    ensures BlockSorted(classes, symbol, sorted)
  {
    ByIdMembers(classes, symbol);
    assert cwds[..|cwds|] == cwds;
    assert forall c :: c in before ==> c in sorted;
  }

  lemma StillProvided(classes: seq<ClassWithDependencies>, sorted: seq<ClassWithDependencies>,
                      after: seq<ClassWithDependencies>, dependencies: seq<Dependency>, j: nat)
    requires j < |dependencies| && sorted <= after
    requires ProvidedBy(sorted, classes, dependencies[..j])
    requires BlockSorted(classes, dependencies[j].symbol, after)
    ensures ProvidedBy(after, classes, dependencies[..j + 1])
  {
    ByIdMembers(classes, dependencies[j].symbol);
    assert dependencies[..j + 1] == dependencies[..j] + [dependencies[j]];
    assert forall c :: c in sorted ==> c in after;
  }

  lemma StillComplete(classes: seq<ClassWithDependencies>, sorted: seq<ClassWithDependencies>,
                      after: seq<ClassWithDependencies>, dependencies: seq<Dependency>, j: nat)
    requires j < |dependencies| && AllComplete(sorted, classes, dependencies[..j])
    requires Complete(after, classes, dependencies[j].symbol)
    requires forall t :: Complete(sorted, classes, t) ==> Complete(after, classes, t)
    ensures AllComplete(after, classes, dependencies[..j + 1])
  {
  }

  lemma ProviderEdge(classes: seq<ClassWithDependencies>, c: ClassWithDependencies, dep: Dependency)
    requires c in classes && dep in c.dependencies
    ensures Edge(ProviderGraph(classes), c.id, dep.symbol)
  {
  }

  class Sorter {
    const classes: seq<ClassWithDependencies>
    var sortedClasses: seq<ClassWithDependencies>
    var processedClasses: set<ClassRef>

    ghost predicate Valid() reads this {
      SortState(classes, sortedClasses, processedClasses)
    }

    constructor (classes: seq<ClassWithDependencies>)
      requires Consistent(classes)
      ensures this.classes == classes && sortedClasses == [] && Valid()
    {
      this.classes := classes;
      sortedClasses := [];
      processedClasses := {};
    }

    /** Sorts everything `symbol` depends on, then the classes of `symbol`. `frames` is the room
        left on the call stack; running out of it is JavaScript's RangeError and gives `ok == false`.
        The ghost `path` leads from the root of the sort to `symbol`, one interface per call. */
    method TopologicalSort(symbol: Symbol, frames: nat, ghost path: seq<Symbol>) returns (ok: bool)
      requires Valid()
      requires path != [] && path[|path| - 1] == symbol && IsPath(ProviderGraph(classes), path)
      requires Acyclic(ProviderGraph(classes)) ==>
        && CompleteBlocksFirst(sortedClasses, classes)
        && ReadyBelow(ProviderGraph(classes), classes, symbol, sortedClasses)
        && (Untouched(sortedClasses, symbol) || Complete(sortedClasses, classes, symbol))
      modifies this`sortedClasses, this`processedClasses
      ensures Valid() && old(sortedClasses) <= sortedClasses
      ensures ok ==> BlockSorted(classes, symbol, sortedClasses)
      ensures Acyclic(ProviderGraph(classes)) && frames + |path| > |ProviderGraph(classes)| + 1 ==> ok
      ensures ok && Acyclic(ProviderGraph(classes)) ==>
        && CompleteBlocksFirst(sortedClasses, classes) && Complete(sortedClasses, classes, symbol)
        && GrewFrom(ProviderGraph(classes), classes, symbol, old(sortedClasses), sortedClasses)
      decreases frames, 1
    {
      hide SortState, Progress, CompleteBlocksFirst, ReadyBelow, GrewFrom, GrewBelow, ProvidedBy,
        ProviderGraph, Acyclic, IsPath, Complete, Untouched, AllSorted;
      ghost var g := ProviderGraph(classes);
      if frames == 0 {
        StackIsShort(g, path);
        return false;
      }
      ghost var before := sortedClasses;
      UnprocessedBlock(classes, sortedClasses, processedClasses, symbol);
      var cwds := SelectUnprocessed(ById(classes, symbol), processedClasses);
      assert AllSorted(cwds[..0], sortedClasses) by { NothingToSort(cwds, sortedClasses); }
      ProgressStart(g, classes, symbol, before, cwds);
      for i := 0 to |cwds|
        invariant Valid() && before <= sortedClasses
        invariant AllSorted(cwds[..i], sortedClasses)
        invariant Acyclic(g) ==> Progress(g, classes, symbol, before, sortedClasses, cwds[..i])
      {
        ghost var mid := sortedClasses;
        ProgressFacts(g, classes, symbol, before, mid, cwds[..i]);
        var done := SortDependenciesOf(cwds[i], frames - 1, path);
        if !done {
          return false;
        }
        PushKeepsState(classes, sortedClasses, processedClasses, cwds[i]);
        StillSorted(cwds, i, mid, sortedClasses);
        ProgressStep(g, classes, symbol, before, mid, sortedClasses, cwds, i);
        sortedClasses := sortedClasses + [cwds[i]];
        processedClasses := processedClasses + {cwds[i].cls};
      }
      BlockIsSorted(classes, symbol, cwds, before, sortedClasses);
      ProgressEnd(g, classes, symbol, before, sortedClasses, cwds);
      return true;
    }

    /** The inner loop of the sort: visits the dependencies of one class in order. */
    method SortDependenciesOf(cwd: ClassWithDependencies, frames: nat, ghost path: seq<Symbol>) returns (ok: bool)
      requires Valid() && cwd in classes
      requires path != [] && path[|path| - 1] == cwd.id && IsPath(ProviderGraph(classes), path)
      requires Acyclic(ProviderGraph(classes)) ==>
        && CompleteBlocksFirst(sortedClasses, classes)
        && ReadyBelow(ProviderGraph(classes), classes, cwd.id, sortedClasses)
      modifies this`sortedClasses, this`processedClasses
      ensures Valid() && old(sortedClasses) <= sortedClasses
      ensures ok ==> ProvidedBy(sortedClasses, classes, cwd.dependencies)
      ensures Acyclic(ProviderGraph(classes)) && frames + |path| > |ProviderGraph(classes)| ==> ok
      ensures ok && Acyclic(ProviderGraph(classes)) ==>
        && CompleteBlocksFirst(sortedClasses, classes)
        && AllComplete(sortedClasses, classes, cwd.dependencies)
        && GrewBelow(ProviderGraph(classes), classes, cwd.id, old(sortedClasses), sortedClasses)
      decreases frames, 2
    {
      hide SortState, CompleteBlocksFirst, ReadyBelow, GrewFrom, GrewBelow, Complete, Untouched,
        ProviderGraph, Acyclic, IsPath, ProvidedBy, AllComplete, BlockSorted;
      ghost var g := ProviderGraph(classes);
      ghost var before := sortedClasses;
      GrowthStart(g, classes, cwd.id, before, cwd.dependencies);
      for j := 0 to |cwd.dependencies|
        invariant Valid() && before <= sortedClasses
        invariant ProvidedBy(sortedClasses, classes, cwd.dependencies[..j])
        invariant Acyclic(g) ==>
          && CompleteBlocksFirst(sortedClasses, classes)
          && AllComplete(sortedClasses, classes, cwd.dependencies[..j])
          && GrewBelow(g, classes, cwd.id, before, sortedClasses)
      {
        var target := cwd.dependencies[j].symbol;
        ProviderEdge(classes, cwd, cwd.dependencies[j]);
        ExtendPath(g, path, target);
        ghost var mid := sortedClasses;
        if Acyclic(g) {
          ReadyAfterGrowth(g, classes, cwd.id, target, before, mid);
        }
        var done := TopologicalSort(target, frames, path + [target]);
        if !done {
          return false;
        }
        StillProvided(classes, mid, sortedClasses, cwd.dependencies, j);
        if Acyclic(g) {
          GrowthStep(g, classes, cwd.id, target, before, mid, sortedClasses);
          StillComplete(classes, mid, sortedClasses, cwd.dependencies, j);
        }
      }
      assert cwd.dependencies[..|cwd.dependencies|] == cwd.dependencies;
      return true;
    }
  }

  lemma GrowthStart(g: Graph, classes: seq<ClassWithDependencies>, symbol: Symbol,
                    sorted: seq<ClassWithDependencies>, dependencies: seq<Dependency>)
    ensures GrewBelow(g, classes, symbol, sorted, sorted)
    ensures ProvidedBy(sorted, classes, dependencies[..0])
    ensures AllComplete(sorted, classes, dependencies[..0])
  {
  }

  /** If every class stands after all classes it needs, the provider relation has no cycle. */
  lemma ProvidersFirstIsAcyclic(sorted: seq<ClassWithDependencies>, classes: seq<ClassWithDependencies>)
    requires ProvidersFirst(sorted, classes) && forall c :: c in classes ==> c in sorted
    ensures Acyclic(ProviderGraph(classes))
  {
    var g := ProviderGraph(classes);
    forall p | IsPath(g, p) && |p| >= 2 ensures p[0] != p[|p| - 1] {
      assert Edge(g, p[0], p[0 + 1]);
      var c, dep :| c in classes && c.id == p[0] && dep in c.dependencies && dep.symbol == p[1];
      var k := FirstOccurrence(sorted, c);
      PathDescends(sorted, classes, p, k);
      assert c !in sorted[..k];
    }
  }

  lemma FirstOccurrence(sorted: seq<ClassWithDependencies>, c: ClassWithDependencies) returns (k: nat)
    requires c in sorted
    ensures k < |sorted| && sorted[k] == c && c !in sorted[..k]
  {
    k := 0;
    while sorted[k] != c
      invariant k < |sorted| && c !in sorted[..k]
      decreases |sorted| - k
    {
      assert sorted[..k + 1] == sorted[..k] + [sorted[k]];
      assert c in sorted[..k + 1] + sorted[k + 1..];
      k := k + 1;
    }
  }

  /** Following a path from the class at position `k` leads to classes that stand before `k`. */
  lemma {:induction false} PathDescends(sorted: seq<ClassWithDependencies>, classes: seq<ClassWithDependencies>,
                                        p: seq<Symbol>, k: nat)
    requires ProvidersFirst(sorted, classes)
    requires IsPath(ProviderGraph(classes), p) && |p| >= 2
    requires k < |sorted| && sorted[k].id == p[0]
    requires exists dep :: dep in sorted[k].dependencies && dep.symbol == p[1]
    ensures forall c :: c in classes && c.id == p[|p| - 1] ==> c in sorted[..k]
    decreases |p|
  {
    var g := ProviderGraph(classes);
    assert ProvidedBy(sorted[..k], classes, sorted[k].dependencies);
    if |p| > 2 {
      assert Edge(g, p[1], p[1 + 1]);
      var c, dep :| c in classes && c.id == p[1] && dep in c.dependencies && dep.symbol == p[2];
      var j :| 0 <= j < k && sorted[j] == c;
      SubPath(g, p, 1, |p|);
      PathDescends(sorted, classes, p[1..|p|], j);
    }
  }

  /** The whole sort. It succeeds exactly when the provider relation over all classes is acyclic,
      given a call stack with more frames than there are interfaces; the result then holds the
      classes of every interface in their original order, and every class after all that it needs. */
  method SortDependencies(classes: seq<ClassWithDependencies>, frames: nat)
    returns (sorted: Option<seq<ClassWithDependencies>>)
    requires Consistent(classes)
    ensures sorted.Some? ==> Acyclic(ProviderGraph(classes))
    ensures Acyclic(ProviderGraph(classes)) && frames > |Ids(classes)| ==> sorted.Some?
    ensures sorted.Some? ==>
      && ProvidersFirst(sorted.value, classes)
      && CompleteBlocksFirst(sorted.value, classes)
      && (forall t :: ById(sorted.value, t) == ById(classes, t))
      && multiset(sorted.value) == multiset(classes)
  {
    hide CompleteBlocksFirst, ProvidersFirst, Acyclic, ProviderGraph, ReadyBelow, SortState,
      AllReady, Complete, Untouched, GrewFrom, Edge;
    var sorter := new Sorter(classes);
    ghost var g := ProviderGraph(classes);
    EverythingUntouched(classes);
    GraphSize(classes);
    for i := 0 to |classes|
      invariant sorter.classes == classes && sorter.Valid() && fresh(sorter)
      invariant AllSorted(classes[..i], sorter.sortedClasses)
      invariant Acyclic(g) ==>
        && CompleteBlocksFirst(sorter.sortedClasses, classes)
        && AllReady(classes, sorter.sortedClasses)
        && forall k :: 0 <= k < i ==> Complete(sorter.sortedClasses, classes, classes[k].id)
    {
      ghost var before := sorter.sortedClasses;
      if Acyclic(g) {
        ReadyEverywhere(g, classes, classes[i].id, before);
      }
      var ok := sorter.TopologicalSort(classes[i].id, frames, [classes[i].id]);
      if !ok {
        return None;
      }
      RootIsSorted(classes, i, before, sorter.sortedClasses);
      if Acyclic(g) {
        StillReady(g, classes, classes[i].id, before, sorter.sortedClasses);
      }
    }
    assert classes[..|classes|] == classes;
    SortStateMeans(classes, sorter.sortedClasses, sorter.processedClasses);
    ProvidersFirstIsAcyclic(sorter.sortedClasses, classes);
    EveryBlockComplete(classes, sorter.sortedClasses);
    SameBlocksSameMultiset(sorter.sortedClasses, classes);
    return Some(sorter.sortedClasses);
  }

  /** Between two roots no interface is half done. */
  ghost predicate AllReady(classes: seq<ClassWithDependencies>, sorted: seq<ClassWithDependencies>) {
    forall t :: Untouched(sorted, t) || Complete(sorted, classes, t)
  }

  lemma RootIsSorted(classes: seq<ClassWithDependencies>, i: nat, sorted: seq<ClassWithDependencies>,
                     after: seq<ClassWithDependencies>)
    requires i < |classes| && AllSorted(classes[..i], sorted) && sorted <= after
    requires BlockSorted(classes, classes[i].id, after)
    ensures AllSorted(classes[..i + 1], after)
  {
    assert classes[..i + 1] == classes[..i] + [classes[i]];
    assert forall c :: c in sorted ==> c in after;
    ByIdMembers(classes, classes[i].id);
  }

  lemma EverythingUntouched(classes: seq<ClassWithDependencies>)
    ensures AllReady(classes, []) && CompleteBlocksFirst([], classes)
  {
  }

  lemma ReadyEverywhere(g: Graph, classes: seq<ClassWithDependencies>, symbol: Symbol,
                        sorted: seq<ClassWithDependencies>)
    requires AllReady(classes, sorted)
    ensures ReadyBelow(g, classes, symbol, sorted)
    ensures Untouched(sorted, symbol) || Complete(sorted, classes, symbol)
  {
  }

  lemma StillReady(g: Graph, classes: seq<ClassWithDependencies>, symbol: Symbol,
                   before: seq<ClassWithDependencies>, after: seq<ClassWithDependencies>)
    requires AllReady(classes, before) && GrewFrom(g, classes, symbol, before, after)
    ensures AllReady(classes, after)
    ensures forall t :: Complete(before, classes, t) ==> Complete(after, classes, t)
  {
    forall t ensures Untouched(after, t) || Complete(after, classes, t) {
      assert Untouched(before, t) || Complete(before, classes, t);
    }
  }

  lemma GraphSize(classes: seq<ClassWithDependencies>)
    ensures |ProviderGraph(classes)| == |Ids(classes)|
  {
    assert ProviderGraph(classes).Keys == Ids(classes);
  }

  lemma SortStateMeans(classes: seq<ClassWithDependencies>, sorted: seq<ClassWithDependencies>,
                       processed: set<ClassRef>)
    requires SortState(classes, sorted, processed)
    ensures ProvidersFirst(sorted, classes) && forall c :: c in sorted ==> c in classes
  {
  }

  lemma EveryBlockComplete(classes: seq<ClassWithDependencies>, sorted: seq<ClassWithDependencies>)
    requires forall c :: c in sorted ==> c in classes
    requires forall k :: 0 <= k < |classes| ==> Complete(sorted, classes, classes[k].id)
    ensures forall t :: ById(sorted, t) == ById(classes, t)
  {
    forall t ensures ById(sorted, t) == ById(classes, t) {
      if t in Ids(classes) {
        var c :| c in classes && c.id == t;
        var k :| 0 <= k < |classes| && classes[k] == c;
        assert Complete(sorted, classes, classes[k].id);
      } else {
        NoBlock(sorted, t);
        NoBlock(classes, t);
      }
    }
  }

  lemma NoBlock(cwds: seq<ClassWithDependencies>, t: Symbol)
    requires forall c :: c in cwds ==> c.id != t
    ensures ById(cwds, t) == []
  {
  }
}
