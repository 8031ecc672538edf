/** The container: validates a batch of classes, sorts it and creates one instance per class. */
module Containers {
  import opened Wrappers
  import opened DependencyGraph
  import opened CircularityCheck
  import opened DependencySort

  /** An object handed to `addInstances`, or one created from a class and its constructor arguments. */
  datatype Instance = Provided(key: nat) | Created(cls: ClassRef, arguments: seq<Argument>)

  datatype Argument = One(instance: Instance) | Many(instances: seq<Instance>)

  /** What the `@Injectable` decorator recorded about a class. */
  datatype Metadata = Metadata(id: Symbol, dependencies: seq<Dependency>)

  type Instances = map<Symbol, seq<Instance>>

  datatype BatchResult =
    | Done
    | Undecorated(classes: seq<ClassRef>)
    | UnmetDependencies(report: seq<(ClassRef, seq<Symbol>)>)
    | CircularDependency(stack: seq<Symbol>)
    | MissingId(symbol: Symbol)
    | StackOverflow
    | NoInstance(symbol: Symbol)
    | MultipleInstances(symbol: Symbol)

  datatype Resolution = Resolved(argument: Argument) | Absent | Ambiguous

  datatype Lookup = Found(instance: Instance) | NotInContainer | SeveralInContainer

  function All(instances: Instances, symbol: Symbol): seq<Instance> {
    if symbol in instances then instances[symbol] else []
  }

  function Resolve(instances: Instances, dep: Dependency): Resolution {
    var found := All(instances, dep.symbol);
    if dep.Collection? then Resolved(Many(found))
    else if found == [] then Absent
    else if |found| > 1 then Ambiguous
    else Resolved(One(found[0]))
  }

  function Undecorateds(metadata: map<ClassRef, Metadata>, classes: seq<ClassRef>): (r: seq<ClassRef>)
    ensures forall c :: c in r <==> c in classes && c !in metadata
  {
    if classes == [] then []
    else (if classes[0] in metadata then [] else [classes[0]]) + Undecorateds(metadata, classes[1..])
  }

  function DescribeAll(metadata: map<ClassRef, Metadata>, classes: seq<ClassRef>): (r: seq<ClassWithDependencies>)
    requires forall c :: c in classes ==> c in metadata
    ensures |r| == |classes|
    ensures forall i :: 0 <= i < |r| ==>
      && r[i].cls == classes[i] && r[i].id == metadata[classes[i]].id
      && r[i].dependencies == metadata[classes[i]].dependencies
    ensures Consistent(r)
  {
    seq(|classes|, i requires 0 <= i < |classes| =>
      ClassWithDependencies(classes[i], metadata[classes[i]].id, metadata[classes[i]].dependencies))
  }

  function UnmetSymbols(dependencies: seq<Dependency>, known: set<Symbol>): (r: seq<Symbol>)
    ensures forall s :: s in r <==> Single(s) in dependencies && s !in known
    ensures r == [] <==> forall dep :: dep in dependencies && dep.Single? ==> dep.symbol in known
  {
    if dependencies == [] then [] else
    (if dependencies[0].Single? && dependencies[0].symbol !in known then [dependencies[0].symbol] else [])
    + UnmetSymbols(dependencies[1..], known)
  }

  /** The presence validator: the classes with unmet dependencies. Collections always count as met. */
  function UnmetReport(cwds: seq<ClassWithDependencies>, known: set<Symbol>): (r: seq<(ClassRef, seq<Symbol>)>)
    ensures r == [] <==> forall c, dep :: c in cwds && dep in c.dependencies && dep.Single? ==> dep.symbol in known
  {
    if cwds == [] then [] else
    var unmet := UnmetSymbols(cwds[0].dependencies, known);
    (if unmet == [] then [] else [(cwds[0].cls, unmet)]) + UnmetReport(cwds[1..], known)
  }

  /** The report names exactly the classes with unmet dependencies, each with those dependencies. */
  lemma {:induction false} ReportNamesUnmet(cwds: seq<ClassWithDependencies>, known: set<Symbol>)
    ensures forall entry :: entry in UnmetReport(cwds, known) <==>
      entry.1 != [] && exists c :: c in cwds && entry == (c.cls, UnmetSymbols(c.dependencies, known))
  {
    if cwds != [] {
      ReportNamesUnmet(cwds[1..], known);
      hide UnmetSymbols;
      assert forall c :: c in cwds <==> c == cwds[0] || c in cwds[1..];
    }
  }

  ghost predicate Present(cwds: seq<ClassWithDependencies>, instantiated: set<Symbol>) {
    forall c, dep :: c in cwds && dep in c.dependencies && dep.Single? ==>
      dep.symbol in Ids(cwds) + instantiated
  }

  /** Every dependency on a single instance will find exactly one. */
  ghost predicate Unambiguous(cwds: seq<ClassWithDependencies>, instances: Instances) {
    forall c, dep :: c in cwds && dep in c.dependencies && dep.Single? ==>
      |All(instances, dep.symbol)| + |ById(cwds, dep.symbol)| == 1
  }

  /** The constructor argument for a collection is all instances of its interface, the one for a single
      dependency is the only instance. */
  ghost predicate Supplied(instances: Instances, dep: Dependency, argument: Argument) {
    match dep
    case Collection(s) => argument == Many(All(instances, s))
    case Single(s) => argument.One? && All(instances, s) == [argument.instance]
  }

  lemma ResolveSupplies(instances: Instances, dep: Dependency)
    ensures var r := Resolve(instances, dep);
      && (r.Resolved? ==> Supplied(instances, dep, r.argument))
      && (r.Resolved? <==> Resolvable(instances, dep))
      && (r.Absent? <==> dep.Single? && All(instances, dep.symbol) == [])
      && (r.Ambiguous? <==> dep.Single? && |All(instances, dep.symbol)| > 1)
  {
  }

  ghost predicate Resolvable(instances: Instances, dep: Dependency) {
    dep.Single? ==> |All(instances, dep.symbol)| == 1
  }

  /** `instance` is what the constructor of `c` makes of the contents of the container. */
  ghost predicate BuiltFrom(instances: Instances, c: ClassWithDependencies, instance: Instance) {
    && instance.Created? && instance.cls == c.cls
    && |instance.arguments| == |c.dependencies|
    && forall i :: 0 <= i < |c.dependencies| ==>
         Supplied(instances, c.dependencies[i], instance.arguments[i])
  }

  /** `after` holds, for each interface, its instances from `before` followed by one new instance per
      class of `cwds` in list order, each built from the contents of `after` itself. */
  ghost predicate Instantiated(before: Instances, after: Instances, cwds: seq<ClassWithDependencies>) {
    forall s :: InstantiatedOne(before, after, cwds, s)
  }

  ghost predicate InstantiatedOne(before: Instances, after: Instances, cwds: seq<ClassWithDependencies>, s: Symbol) {
    && |All(after, s)| == |All(before, s)| + |ById(cwds, s)|
    && All(before, s) <= All(after, s)
    && forall j :: 0 <= j < |ById(cwds, s)| ==>
         BuiltFrom(after, ById(cwds, s)[j], All(after, s)[|All(before, s)| + j])
  }

  ghost predicate FirstUnresolved(instances: Instances, dependencies: seq<Dependency>, dep: Dependency) {
    && !Resolvable(instances, dep)
    && exists k ::
         && 0 <= k < |dependencies| && dependencies[k] == dep
         && forall j :: 0 <= j < k ==> Resolvable(instances, dependencies[j])
  }

  /** The first dependency of `c` that cannot be resolved is on `symbol`, which has several instances. */
  ghost predicate Blocks(instances: Instances, c: ClassWithDependencies, symbol: Symbol) {
    FirstUnresolved(instances, c.dependencies, Single(symbol)) && |All(instances, symbol)| > 1
  }

  /** The classes of `sorted` were instantiated in order up to the first one that `symbol` blocks. */
  ghost predicate StoppedAt(before: Instances, after: Instances, sorted: seq<ClassWithDependencies>, symbol: Symbol) {
    exists i :: 0 <= i < |sorted| && Instantiated(before, after, sorted[..i]) && Blocks(after, sorted[i], symbol)
  }

  ghost predicate SortOf(sorted: seq<ClassWithDependencies>, cwds: seq<ClassWithDependencies>) {
    && ProvidersFirst(sorted, cwds)
    && multiset(sorted) == multiset(cwds)
    && forall t :: ById(sorted, t) == ById(cwds, t)
  }

  ghost predicate NoEmptyEntry(instances: Instances) {
    forall s :: s in instances ==> instances[s] != []
  }

  lemma {:induction false} ByIdConcat(a: seq<ClassWithDependencies>, b: seq<ClassWithDependencies>, s: Symbol)
    ensures ById(a + b, s) == ById(a, s) + ById(b, s)
  {
    if b == [] {
      assert a + b == a;
    } else {
      hide ById;
      var n := |b| - 1;
      var most, last := b[..n], b[n];
      ByIdConcat(a, most, s);
      ByIdAppend(a + most, last, s);
      ByIdAppend(most, last, s);
      assert b == most + [last] && a + b == (a + most) + [last];
      var first, middle, end := ById(a, s), ById(most, s), if last.id == s then [last] else [];
      assert (first + middle) + end == first + (middle + end);
    }
  }

  /** Once all classes of an interface are sorted, no later class has that id. */
  lemma CompleteMeansNoMore(sorted: seq<ClassWithDependencies>, classes: seq<ClassWithDependencies>,
                            k: nat, i: nat, s: Symbol)
    requires k <= i < |sorted|
    requires ById(sorted, s) == ById(classes, s) && ById(sorted[..k], s) == ById(classes, s)
    ensures sorted[i].id != s
  {
    var rest := sorted[k..];
    assert sorted == sorted[..k] + rest && sorted[i] == rest[i - k];
    ByIdConcat(sorted[..k], rest, s);
    hide ById;
    assert ById(rest, s) == [];
    ByIdMembers(rest, s);
    assert rest[i - k] in rest;
  }

  /** A built instance is not affected by new instances of interfaces its class does not need. */
  lemma StillBuilt(now: Instances, after: Instances, d: ClassWithDependencies, made: Instance)
    requires BuiltFrom(now, d, made)
    requires forall dep :: dep in d.dependencies ==> All(after, dep.symbol) == All(now, dep.symbol)
    ensures BuiltFrom(after, d, made)
  {
  }

  function Appended(now: Instances, s: Symbol, instance: Instance): (after: Instances)
    ensures forall t :: All(after, t) == All(now, t) + if t == s then [instance] else []
  {
    now[s := All(now, s) + [instance]]
  }

  lemma PushInstanceOne(before: Instances, now: Instances, done: seq<ClassWithDependencies>,
                        c: ClassWithDependencies, instance: Instance, s: Symbol)
    requires InstantiatedOne(before, now, done, s)
    requires BuiltFrom(now, c, instance)
    requires forall d, dep :: (d in done || d == c) && dep in d.dependencies ==> dep.symbol != c.id
    ensures InstantiatedOne(before, Appended(now, c.id, instance), done + [c], s)
  {
    hide BuiltFrom, Appended, All, ById;
    var after := Appended(now, c.id, instance);
    var was, block := ById(done, s), ById(done + [c], s);
    var base := |All(before, s)|;
    StillBuilt(now, after, c, instance);
    ByIdAppend(done, c, s);
    ByIdMembers(done, s);
    forall j | 0 <= j < |block| ensures BuiltFrom(after, block[j], All(after, s)[base + j]) {
      if j < |was| {
        assert was[j] in was;
        StillBuilt(now, after, was[j], All(now, s)[base + j]);
      }
    }
  }

  /** Adding an instance of an interface that nothing built so far depends on. */
  lemma PushInstance(before: Instances, now: Instances, done: seq<ClassWithDependencies>,
                     c: ClassWithDependencies, instance: Instance)
    requires Instantiated(before, now, done)
    requires BuiltFrom(now, c, instance)
    requires forall d, dep :: (d in done || d == c) && dep in d.dependencies ==> dep.symbol != c.id
    ensures Instantiated(before, Appended(now, c.id, instance), done + [c])
  {
    forall s ensures InstantiatedOne(before, Appended(now, c.id, instance), done + [c], s) {
      PushInstanceOne(before, now, done, c, instance, s);
    }
  }

  /** Every single dependency of the first `i` sorted classes finds exactly one instance. */
  ghost predicate UnambiguousSoFar(sorted: seq<ClassWithDependencies>, classes: seq<ClassWithDependencies>,
                                   before: Instances, i: nat)
    requires i <= |sorted|
  {
    forall k, dep :: 0 <= k < i && dep in sorted[k].dependencies && dep.Single? ==>
      |All(before, dep.symbol)| + |ById(classes, dep.symbol)| == 1
  }

  /** When a class is reached, all instances of what it needs exist already. */
  lemma ResolutionIsFinal(before: Instances, now: Instances, sorted: seq<ClassWithDependencies>,
                          classes: seq<ClassWithDependencies>, i: nat)
    requires i < |sorted| && Instantiated(before, now, sorted[..i]) && NoEmptyEntry(before)
    requires CompleteBlocksFirst(sorted, classes) && Present(classes, before.Keys) && sorted[i] in classes
    ensures forall dep :: dep in sorted[i].dependencies ==>
      |All(now, dep.symbol)| == |All(before, dep.symbol)| + |ById(classes, dep.symbol)|
    ensures forall dep :: dep in sorted[i].dependencies && dep.Single? ==> All(now, dep.symbol) != []
  {
    forall dep | dep in sorted[i].dependencies
      ensures |All(now, dep.symbol)| == |All(before, dep.symbol)| + |ById(classes, dep.symbol)|
      ensures dep.Single? ==> All(now, dep.symbol) != []
    {
      assert InstantiatedOne(before, now, sorted[..i], dep.symbol);
      if dep.Single? && dep.symbol in Ids(classes) {
        var c :| c in classes && c.id == dep.symbol;
        ByIdMembers(classes, dep.symbol);
      }
    }
  }

  lemma NothingAmbiguousYet(sorted: seq<ClassWithDependencies>, classes: seq<ClassWithDependencies>,
                            before: Instances)
    ensures UnambiguousSoFar(sorted, classes, before, 0)
  {
  }

  lemma AmbiguousClass(classes: seq<ClassWithDependencies>, before: Instances, c: ClassWithDependencies,
                       dep: Dependency)
    requires c in classes && dep in c.dependencies && dep.Single?
    requires |All(before, dep.symbol)| + |ById(classes, dep.symbol)| != 1
    ensures !Unambiguous(classes, before)
  {
  }

  /** A class that could be built found exactly one instance for each single dependency. */
  lemma StillUnambiguous(before: Instances, now: Instances, sorted: seq<ClassWithDependencies>,
                         classes: seq<ClassWithDependencies>, i: nat, instance: Instance)
    requires i < |sorted| && UnambiguousSoFar(sorted, classes, before, i)
    requires instance.Created? && instance.cls == sorted[i].cls
    requires |instance.arguments| == |sorted[i].dependencies|
    requires forall j :: 0 <= j < |sorted[i].dependencies| ==>
      Supplied(now, sorted[i].dependencies[j], instance.arguments[j])
    requires forall dep :: dep in sorted[i].dependencies ==>
      |All(now, dep.symbol)| == |All(before, dep.symbol)| + |ById(classes, dep.symbol)|
    ensures UnambiguousSoFar(sorted, classes, before, i + 1)
    ensures BuiltFrom(now, sorted[i], instance)
  {
  }

  lemma AllUnambiguous(before: Instances, sorted: seq<ClassWithDependencies>, classes: seq<ClassWithDependencies>)
    requires UnambiguousSoFar(sorted, classes, before, |sorted|) && multiset(sorted) == multiset(classes)
    ensures Unambiguous(classes, before)
  {
    forall c | c in classes ensures c in sorted {
      assert c in multiset(classes);
    }
  }

  lemma NothingBuiltNeeds(sorted: seq<ClassWithDependencies>, classes: seq<ClassWithDependencies>, i: nat)
    requires i < |sorted| && CompleteBlocksFirst(sorted, classes)
    requires forall t :: ById(sorted, t) == ById(classes, t)
    ensures forall d, dep :: (d in sorted[..i] || d == sorted[i]) && dep in d.dependencies ==>
      dep.symbol != sorted[i].id
  {
    forall d, dep | (d in sorted[..i] || d == sorted[i]) && dep in d.dependencies
      ensures dep.symbol != sorted[i].id
    {
      var k :| 0 <= k <= i && sorted[k] == d;
      CompleteMeansNoMore(sorted, classes, k, i, dep.symbol);
    }
  }

  lemma SameBlocks(before: Instances, after: Instances, a: seq<ClassWithDependencies>, b: seq<ClassWithDependencies>)
    requires Instantiated(before, after, a) && forall t :: ById(a, t) == ById(b, t)
    ensures Instantiated(before, after, b)
  {
    forall s ensures InstantiatedOne(before, after, b, s) {
      assert InstantiatedOne(before, after, a, s);
    }
  }

  lemma NothingInstantiated(before: Instances)
    ensures Instantiated(before, before, [])
  {
  }

  lemma InstantiatedGrows(before: Instances, after: Instances, cwds: seq<ClassWithDependencies>)
    requires Instantiated(before, after, cwds)
    ensures forall s :: All(before, s) <= All(after, s)
  {
    forall s ensures All(before, s) <= All(after, s) {
      assert InstantiatedOne(before, after, cwds, s);
    }
  }

  lemma FirstGraphAcyclicToo(cwds: seq<ClassWithDependencies>)
    ensures Acyclic(ProviderGraph(cwds)) ==> Acyclic(FirstGraph(cwds))
  {
  }

  lemma IdsAreFew(cwds: seq<ClassWithDependencies>)
    ensures |Ids(cwds)| <= |cwds|
  {
    if cwds != [] {
      var n := |cwds| - 1;
      IdsAreFew(cwds[..n]);
      assert Ids(cwds) == Ids(cwds[..n]) + {cwds[n].id};
    }
  }

  /** The objects of `added` branded with one interface, in order. */
  function Branded(added: seq<Instance>, brands: map<Instance, Symbol>, s: Symbol): seq<Instance>
    requires forall x :: x in added ==> x in brands
  {
    if added == [] then [] else
    var n := |added| - 1;
    Branded(added[..n], brands, s) + if brands[added[n]] == s then [added[n]] else []
  }

  lemma NothingBranded(brands: map<Instance, Symbol>)
    ensures forall s :: Branded([], brands, s) == []
  {
  }

  lemma BrandedAppend(added: seq<Instance>, brands: map<Instance, Symbol>, x: Instance, s: Symbol)
    requires forall y :: y in added + [x] ==> y in brands
    ensures x in added + [x] && forall y :: y in added ==> y in added + [x]
    ensures Branded(added + [x], brands, s) == Branded(added, brands, s) + if brands[x] == s then [x] else []
  {
    assert (added + [x])[|added|] == x && (added + [x])[..|added|] == added;
  }

  lemma AppendedIs(now: Instances, s: Symbol, x: Instance)
    ensures s !in now ==> now[s := [x]] == Appended(now, s, x)
    ensures s in now ==> now[s := now[s] + [x]] == Appended(now, s, x)
  {
    assert [] + [x] == [x];
  }

  /** One more branded object. */
  lemma AddOne(before: Instances, now: Instances, added: seq<Instance>, x: Instance, brands: map<Instance, Symbol>)
    requires NoEmptyEntry(now) && forall y :: y in added ==> y in brands
    requires forall s :: All(now, s) == All(before, s) + Branded(added, brands, s)
    requires x in brands
    ensures NoEmptyEntry(Appended(now, brands[x], x))
    ensures forall s :: All(Appended(now, brands[x], x), s) == All(before, s) + Branded(added + [x], brands, s)
  {
    hide All, Branded;
    var after := Appended(now, brands[x], x);
    forall s ensures All(after, s) == All(before, s) + Branded(added + [x], brands, s) {
      BrandedAppend(added, brands, x, s);
    }
  }

  /** The objects before the first one without a brand. */
  function BrandedPrefix(added: seq<Instance>, brands: map<Instance, Symbol>): (r: seq<Instance>)
    ensures r <= added && forall x :: x in r ==> x in brands
    ensures r == added || added[|r|] !in brands
  {
    if added == [] || added[0] !in brands then [] else [added[0]] + BrandedPrefix(added[1..], brands)
  }

  lemma BrandedPrefixIs(added: seq<Instance>, brands: map<Instance, Symbol>, n: nat)
    requires n <= |added| && forall x :: x in added[..n] ==> x in brands
    requires n == |added| || added[n] !in brands
    ensures BrandedPrefix(added, brands) == added[..n]
  {
  }

  lemma NoChainNoCycle(g: Graph)
    requires forall a, b, c :: Edge(g, a, b) ==> !Edge(g, b, c)
    ensures Acyclic(g)
  {
    forall p | IsPath(g, p) && |p| >= 2 ensures p[0] != p[|p| - 1] {
      var n := |p| - 2;
      assert Edge(g, p[0], p[0 + 1]) && Edge(g, p[n], p[n + 1]);
    }
  }

  const S := Symbol(0)
  const T := Symbol(1)

  /** Two classes of `S`, the second of which needs all of `S` through `T`. */
  const TANGLED_CLASSES := [
    ClassWithDependencies(ClassRef(0), S, []),
    ClassWithDependencies(ClassRef(1), S, [Single(T)]),
    ClassWithDependencies(ClassRef(2), T, [Collection(S)])
  ]

  lemma TangledFirstGraph()
    ensures forall a, b :: Edge(FirstGraph(TANGLED_CLASSES), a, b) ==> a == T && b == S
    ensures AllKnown(FirstGraph(TANGLED_CLASSES), {})
  {
    var cwds := TANGLED_CLASSES;
    assert Find(cwds, S) == Some(cwds[0]);
    var rest := cwds[1..];
    assert rest[0] == cwds[1] && rest[1..][0] == cwds[2];
    assert Find(cwds, T) == Find(rest, T) == Find(rest[1..], T) == Some(cwds[2]);
    assert cwds[0].id == S;
  }

  lemma TangledProviderGraph()
    ensures !Acyclic(ProviderGraph(TANGLED_CLASSES))
  {
    var cwds := TANGLED_CLASSES;
    ProviderEdge(cwds, cwds[1], Single(T));
    ProviderEdge(cwds, cwds[2], Collection(S));
    assert IsPath(ProviderGraph(cwds), [S, T, S]);
  }

  /** Both validators accept the tangled classes although their provider relation is cyclic. */
  lemma AcceptedButCyclic()
    ensures Consistent(TANGLED_CLASSES) && Present(TANGLED_CLASSES, {})
    ensures Acyclic(FirstGraph(TANGLED_CLASSES)) && AllKnown(FirstGraph(TANGLED_CLASSES), {})
    ensures !Acyclic(ProviderGraph(TANGLED_CLASSES))
  {
    hide Acyclic, AllKnown, Edge, FirstGraph, ProviderGraph;
    TangledFirstGraph();
    TangledProviderGraph();
    NoChainNoCycle(FirstGraph(TANGLED_CLASSES));
  }

  const LONELY_COLLECTION := [ClassWithDependencies(ClassRef(0), S, [Collection(T)])]

  /** A collection of an interface nobody provides: the presence validator accepts it as empty, the
      cycle check takes its base id for missing. */
  lemma EmptyCollectionIsReportedMissing()
    ensures Consistent(LONELY_COLLECTION) && Present(LONELY_COLLECTION, {})
    ensures Acyclic(ProviderGraph(LONELY_COLLECTION))
    ensures !AllKnown(FirstGraph(LONELY_COLLECTION), {})
  {
    var cwds := LONELY_COLLECTION;
    assert Find(cwds, S) == Some(cwds[0]);
    assert Collection(T) in cwds[0].dependencies;
    assert Edge(FirstGraph(cwds), S, T);
    assert forall a, b :: Edge(ProviderGraph(cwds), a, b) ==> a == S && b == T;
    NoChainNoCycle(ProviderGraph(cwds));
  }

  class Container {
    const metadata: map<ClassRef, Metadata>
    const brands: map<Instance, Symbol>
    var instances: Instances

    ghost predicate Valid() reads this {
      NoEmptyEntry(instances)
    }

    constructor (metadata: map<ClassRef, Metadata>, brands: map<Instance, Symbol>)
      ensures Valid() && instances == map[] && this.metadata == metadata && this.brands == brands
    {
      this.metadata := metadata;
      this.brands := brands;
      instances := map[];
    }

    /** Appends branded objects; stops at the first object that is not branded. */
    method AddInstances(added: seq<Instance>) returns (ok: bool)
      requires Valid()
      modifies this`instances
      ensures Valid()
      ensures ok <==> forall x :: x in added ==> x in brands
      ensures forall s :: All(instances, s) == old(All(instances, s)) + Branded(BrandedPrefix(added, brands), brands, s)
    {
      hide Branded, BrandedPrefix, All, Appended, NoEmptyEntry;
      ghost var before := instances;
      NothingBranded(brands);
      for i := 0 to |added|
        invariant Valid()
        invariant forall j :: 0 <= j < i ==> added[j] in brands
        invariant forall s :: All(instances, s) == All(before, s) + Branded(added[..i], brands, s)
      {
        if added[i] !in brands {
          BrandedPrefixIs(added, brands, i);
          return false;
        }
        var symbol := brands[added[i]];
        assert added[..i + 1] == added[..i] + [added[i]];
        AddOne(before, instances, added[..i], added[i], brands);
        AppendedIs(instances, symbol, added[i]);
        if symbol !in instances {
          instances := instances[symbol := [added[i]]];
        } else {
          instances := instances[symbol := instances[symbol] + [added[i]]];
        }
      }
      assert added[..|added|] == added;
      BrandedPrefixIs(added, brands, |added|);
      return true;
    }

    /** Validates, sorts and instantiates a batch of classes. `frames` is the depth of the call stack;
        one frame more than there are classes is enough for any batch that can be sorted at all. */
    method Instantiate(classes: seq<ClassRef>, frames: nat) returns (outcome: BatchResult)
      requires Valid()
      modifies this`instances
      ensures Valid()
      ensures !outcome.NoInstance?
      ensures outcome.Undecorated? <==> exists c :: c in classes && c !in metadata
      ensures outcome.Undecorated? ==> forall c :: c in outcome.classes <==> c in classes && c !in metadata
      ensures !outcome.Undecorated? ==>
        var cwds := DescribeAll(metadata, classes);
        var first := FirstGraph(cwds);
        var before := old(instances);
        var accepted := Present(cwds, before.Keys) && Acyclic(first) && AllKnown(first, before.Keys);
        && (outcome.UnmetDependencies? <==> !Present(cwds, before.Keys))
        && (outcome.UnmetDependencies? ==> outcome.report == UnmetReport(cwds, Ids(cwds) + before.Keys))
        && (outcome.CircularDependency? ==> Lasso(first, outcome.stack))
        && (outcome.MissingId? ==> !Known(first, before.Keys, outcome.symbol))
        && (outcome.CircularDependency? || outcome.MissingId? <==>
              Present(cwds, before.Keys) && !(Acyclic(first) && AllKnown(first, before.Keys)))
        && (accepted && !Acyclic(ProviderGraph(cwds)) ==> outcome.StackOverflow?)
        && (frames > |classes| ==> (outcome.StackOverflow? ==> accepted && !Acyclic(ProviderGraph(cwds))))
        && (outcome.MultipleInstances? ==>
              && accepted && Acyclic(ProviderGraph(cwds)) && !Unambiguous(cwds, before)
              && exists sorted :: SortOf(sorted, cwds) && StoppedAt(before, instances, sorted, outcome.symbol))
        && (outcome.Done? ==>
              && Present(cwds, before.Keys) && AllKnown(first, before.Keys)
              && Acyclic(ProviderGraph(cwds)) && Unambiguous(cwds, before)
              && Instantiated(before, instances, cwds))
        && (frames > |classes| && Present(cwds, before.Keys) && AllKnown(first, before.Keys)
            && Acyclic(ProviderGraph(cwds)) ==>
              if Unambiguous(cwds, before) then outcome.Done? else outcome.MultipleInstances?)
      ensures !outcome.Done? && !outcome.MultipleInstances? ==> instances == old(instances)
      ensures forall s :: old(All(instances, s)) <= All(instances, s)
    {
      hide Instantiated, StoppedAt, Acyclic, ProviderGraph, FirstGraph, AllKnown, Known, Lasso, Unambiguous,
        CompleteBlocksFirst, ProvidersFirst, ById, All, Present;
      var undecorated := Undecorateds(metadata, classes);
      if undecorated != [] {
        assert undecorated[0] in undecorated;
        return Undecorated(undecorated);
      }
      var cwds := DescribeAll(metadata, classes);
      var rejection := Validate(cwds);
      if rejection.Some? {
        return rejection.value;
      }
      IdsAreFew(cwds);
      var sorted := SortDependencies(cwds, frames);
      if sorted.None? {
        return StackOverflow;
      }
      assert SortOf(sorted.value, cwds);
      outcome := InstantiateSorted(sorted.value, cwds);
      if outcome.Done? {
        SameBlocks(old(instances), instances, sorted.value, cwds);
      }
    }

    /** The two validators, in order. */
    method Validate(cwds: seq<ClassWithDependencies>) returns (rejection: Option<BatchResult>)
      requires Valid()
      ensures Acyclic(ProviderGraph(cwds)) ==> Acyclic(FirstGraph(cwds))
      ensures rejection.None? <==>
        Present(cwds, instances.Keys) && Acyclic(FirstGraph(cwds)) && AllKnown(FirstGraph(cwds), instances.Keys)
      ensures rejection.Some? ==>
        match rejection.value
        case UnmetDependencies(report) =>
          !Present(cwds, instances.Keys) && report == UnmetReport(cwds, Ids(cwds) + instances.Keys)
        case CircularDependency(stack) => Present(cwds, instances.Keys) && Lasso(FirstGraph(cwds), stack)
        case MissingId(symbol) => Present(cwds, instances.Keys) && !Known(FirstGraph(cwds), instances.Keys, symbol)
        case _ => false
    {
      hide Acyclic, ProviderGraph, FirstGraph, AllKnown, Known, Lasso;
      FirstGraphAcyclicToo(cwds);
      var unmet := UnmetReport(cwds, Ids(cwds) + instances.Keys);
      if unmet != [] {
        return Some(UnmetDependencies(unmet));
      }
      var search := new Search(cwds, instances.Keys);
      var verdict := search.NoCircularDependencies();
      match verdict {
        case Circular => return Some(CircularDependency(search.inStack));
        case MissingId(symbol) => return Some(BatchResult.MissingId(symbol));
        case Clear => return None;
      }
    }

    /** The loop that runs the constructors. */
    method InstantiateSorted(sorted: seq<ClassWithDependencies>, ghost classes: seq<ClassWithDependencies>)
      returns (outcome: BatchResult)
      requires Valid()
      requires CompleteBlocksFirst(sorted, classes) && forall t :: ById(sorted, t) == ById(classes, t)
      requires Present(classes, instances.Keys) && multiset(sorted) == multiset(classes)
      modifies this`instances
      ensures Valid()
      ensures outcome.Done? || outcome.MultipleInstances?
      ensures outcome.Done? <==> Unambiguous(classes, old(instances))
      ensures outcome.Done? ==> Instantiated(old(instances), instances, sorted)
      ensures outcome.MultipleInstances? ==> StoppedAt(old(instances), instances, sorted, outcome.symbol)
      ensures forall s :: old(All(instances, s)) <= All(instances, s)
    {
      hide Instantiated, CompleteBlocksFirst, Present, Unambiguous, UnambiguousSoFar, BuiltFrom, ById;
      ghost var before := instances;
      NothingInstantiated(before);
      NothingAmbiguousYet(sorted, classes, before);
      for i := 0 to |sorted|
        invariant NoEmptyEntry(instances)
        invariant Instantiated(before, instances, sorted[..i])
        invariant UnambiguousSoFar(sorted, classes, before, i)
      {
        assert sorted[i] in multiset(classes);
        ResolutionIsFinal(before, instances, sorted, classes, i);
        var resolved, failed := ResolveArguments(sorted[i].dependencies);
        InstantiatedGrows(before, instances, sorted[..i]);
        if failed.Some? {
          var dep := failed.value;
          AmbiguousClass(classes, before, sorted[i], dep);
          assert Blocks(instances, sorted[i], dep.symbol);
          ResolveSupplies(instances, dep);
          var absent := Resolve(instances, dep).Absent?;
          return if absent then NoInstance(dep.symbol) else MultipleInstances(dep.symbol);
        }
        var instance := Created(sorted[i].cls, resolved);
        StillUnambiguous(before, instances, sorted, classes, i, instance);
        NothingBuiltNeeds(sorted, classes, i);
        PushInstance(before, instances, sorted[..i], sorted[i], instance);
        assert sorted[..i + 1] == sorted[..i] + [sorted[i]];
        ghost var after := Appended(instances, sorted[i].id, instance);
        if sorted[i].id !in instances {
          instances := instances[sorted[i].id := []];
        }
        instances := instances[sorted[i].id := instances[sorted[i].id] + [instance]];
        assert instances == after;
      }
      assert sorted[..|sorted|] == sorted;
      InstantiatedGrows(before, instances, sorted);
      AllUnambiguous(before, sorted, classes);
      return Done;
    }

    /** Looks up the constructor arguments in order; `failed` is the first dependency that has none. */
    method ResolveArguments(dependencies: seq<Dependency>) returns (resolved: seq<Argument>, failed: Option<Dependency>)
      ensures failed.Some? ==> FirstUnresolved(instances, dependencies, failed.value)
      ensures failed.None? ==> |resolved| == |dependencies|
      ensures failed.None? ==>
        forall i :: 0 <= i < |dependencies| ==> Supplied(instances, dependencies[i], resolved[i])
    {
      resolved := [];
      for i := 0 to |dependencies|
        invariant |resolved| == i
        invariant forall j :: 0 <= j < i ==>
          Supplied(instances, dependencies[j], resolved[j]) && Resolvable(instances, dependencies[j])
      {
        ResolveSupplies(instances, dependencies[i]);
        var r := Resolve(instances, dependencies[i]);
        if !r.Resolved? {
          return resolved, Some(dependencies[i]);
        }
        resolved := resolved + [r.argument];
      }
      return resolved, None;
    }

    /** The single instance of an interface. */
    method Get(symbol: Symbol) returns (lookup: Lookup)
      ensures lookup.Found? ==> All(instances, symbol) == [lookup.instance]
      ensures lookup.SeveralInContainer? <==> |All(instances, symbol)| > 1
      ensures lookup.NotInContainer? <==> All(instances, symbol) == []
    {
      var found := All(instances, symbol);
      if found == [] {
        return NotInContainer;
      }
      if |found| > 1 {
        return SeveralInContainer;
      }
      return Found(found[0]);
    }
  }
}
