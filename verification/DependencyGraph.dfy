/** The vocabulary of the dependency-injection container: classes with the interfaces they provide
    and need, and paths in the graph of interfaces. */
module DependencyGraph {
  import opened Wrappers

  /** An interface id; the source identifies interfaces by unique JavaScript symbols. */
  datatype Symbol = Symbol(key: nat)

  /** The identity of a class constructor. */
  datatype ClassRef = ClassRef(key: nat)

  /** What a class asks for: the single instance of an interface, or all instances of one. */
  datatype Dependency = Single(symbol: Symbol) | Collection(symbol: Symbol)

  datatype ClassWithDependencies =
    ClassWithDependencies(cls: ClassRef, id: Symbol, dependencies: seq<Dependency>)

  /** Edges from an interface to the interfaces its provider needs. */
  type Graph = map<Symbol, set<Symbol>>

  function Targets(dependencies: seq<Dependency>): set<Symbol> {
    set dep | dep in dependencies :: dep.symbol
  }

  function Ids(cwds: seq<ClassWithDependencies>): set<Symbol> {
    set cwd | cwd in cwds :: cwd.id
  }

  /** The classes registered for one interface, in list order. */
  function ById(cwds: seq<ClassWithDependencies>, symbol: Symbol): seq<ClassWithDependencies> {
    if cwds == [] then [] else
    var n := |cwds| - 1;
    ById(cwds[..n], symbol) + if cwds[n].id == symbol then [cwds[n]] else []
  }

  lemma ByIdMembers(cwds: seq<ClassWithDependencies>, symbol: Symbol)
    ensures forall c :: c in ById(cwds, symbol) <==> c in cwds && c.id == symbol
  {
  }

  /** The first class registered for an interface. */
  function Find(cwds: seq<ClassWithDependencies>, symbol: Symbol): (r: Option<ClassWithDependencies>)
    ensures r.None? <==> symbol !in Ids(cwds)
    ensures r.Some? ==> r.value in cwds && r.value.id == symbol
  {
    if cwds == [] then None
    else if cwds[0].id == symbol then Some(cwds[0])
    else Find(cwds[1..], symbol)
  }

  lemma {:induction false} FindIsFirst(cwds: seq<ClassWithDependencies>, symbol: Symbol, i: nat)
    requires i < |cwds| && cwds[i].id == symbol && forall j :: 0 <= j < i ==> cwds[j].id != symbol
    ensures Find(cwds, symbol) == Some(cwds[i])
  {
    if i > 0 {
      assert forall j :: 0 <= j < i - 1 ==> cwds[1..][j] == cwds[j + 1];
      FindIsFirst(cwds[1..], symbol, i - 1);
    }
  }

  /** The graph the cycle check walks: only the first class of each interface counts. */
  ghost function FirstGraph(cwds: seq<ClassWithDependencies>): Graph {
    map s | s in Ids(cwds) :: Targets(Find(cwds, s).value.dependencies)
  }

  ghost function AllTargets(cwds: seq<ClassWithDependencies>, symbol: Symbol): set<Symbol> {
    set cwd, dep | cwd in cwds && cwd.id == symbol && dep in cwd.dependencies :: dep.symbol
  }

  /** The full provider relation: every class of an interface counts. */
  ghost function ProviderGraph(cwds: seq<ClassWithDependencies>): Graph {
    map s | s in Ids(cwds) :: AllTargets(cwds, s)
  }

  ghost predicate Edge(g: Graph, a: Symbol, b: Symbol) {
    a in g && b in g[a]
  }

  ghost predicate IsPath(g: Graph, p: seq<Symbol>) {
    p != [] && forall i :: 0 <= i < |p| - 1 ==> Edge(g, p[i], p[i + 1])
  }

  ghost predicate Reaches(g: Graph, a: Symbol, b: Symbol) {
    exists p :: IsPath(g, p) && p[0] == a && p[|p| - 1] == b
  }

  ghost predicate Acyclic(g: Graph) {
    forall p :: IsPath(g, p) && |p| >= 2 ==> p[0] != p[|p| - 1]
  }

  ghost predicate NoDuplicates<T(!new)>(p: seq<T>) {
    forall i, j :: 0 <= i < j < |p| ==> p[i] != p[j]
  }

  lemma SubPath(g: Graph, p: seq<Symbol>, lo: nat, hi: nat)
    requires IsPath(g, p) && lo < hi <= |p|
    ensures IsPath(g, p[lo..hi])
  {
  }

  lemma ExtendPath(g: Graph, p: seq<Symbol>, s: Symbol)
    requires IsPath(g, p) && Edge(g, p[|p| - 1], s)
    ensures IsPath(g, p + [s])
  {
  }

  lemma AcyclicPathsDoNotRepeat(g: Graph, p: seq<Symbol>)
    requires Acyclic(g) && IsPath(g, p)
    ensures NoDuplicates(p)
  {
    forall i, j | 0 <= i < j < |p| ensures p[i] != p[j] {
      SubPath(g, p, i, j + 1);
    }
  }

  lemma ReachesItself(g: Graph, a: Symbol)
    ensures Reaches(g, a, a)
  {
    assert IsPath(g, [a]);
  }

  lemma ReachesThroughEdge(g: Graph, a: Symbol, b: Symbol, c: Symbol)
    requires Edge(g, a, b) && Reaches(g, b, c)
    ensures Reaches(g, a, c)
    ensures Acyclic(g) ==> a != c
  {
    var p :| IsPath(g, p) && p[0] == b && p[|p| - 1] == c;
    assert IsPath(g, [a] + p);
  }

  ghost predicate OneClassPerId(cwds: seq<ClassWithDependencies>) {
    forall c, d :: c in cwds && d in cwds && c.id == d.id ==> c == d
  }

  /** With one class per interface the cycle check sees the whole provider relation. */
  lemma OneClassPerIdGraphsAgree(cwds: seq<ClassWithDependencies>)
    requires OneClassPerId(cwds)
    ensures FirstGraph(cwds) == ProviderGraph(cwds)
  {
    forall s | s in Ids(cwds) ensures FirstGraph(cwds)[s] == ProviderGraph(cwds)[s] {
      var c := Find(cwds, s).value;
      assert forall d :: d in cwds && d.id == s ==> d == c;
    }
  }

  ghost function ToSet<T>(s: seq<T>): set<T> {
    set x | x in s
  }

  lemma NoDuplicatesCardinality<T(!new)>(p: seq<T>)
    requires NoDuplicates(p)
    ensures |ToSet(p)| == |p|
  {
    if p != [] {
      var n := |p| - 1;
      NoDuplicatesCardinality(p[..n]);
      assert ToSet(p) == ToSet(p[..n]) + {p[n]};
    }
  }

  lemma SubsetCardinality<T>(a: set<T>, b: set<T>)
    requires a <= b
    ensures |a| <= |b|
  {
    if a != {} {
      var x :| x in a;
      SubsetCardinality(a - {x}, b - {x});
    }
  }

  lemma ByIdAppend(cwds: seq<ClassWithDependencies>, c: ClassWithDependencies, symbol: Symbol)
    ensures ById(cwds + [c], symbol) == ById(cwds, symbol) + if c.id == symbol then [c] else []
  {
  }

  /** Two lists that agree interface by interface are permutations of each other. */
  lemma SameBlocksSameMultiset(a: seq<ClassWithDependencies>, b: seq<ClassWithDependencies>)
    requires forall s :: ById(a, s) == ById(b, s)
    ensures multiset(a) == multiset(b)
  {
    forall c: ClassWithDependencies ensures multiset(a)[c] == multiset(b)[c] {
      BlockMultiplicity(a, c);
      BlockMultiplicity(b, c);
    }
  }

  lemma BlockMultiplicity(cwds: seq<ClassWithDependencies>, c: ClassWithDependencies)
    ensures multiset(ById(cwds, c.id))[c] == multiset(cwds)[c]
  {
    if cwds != [] {
      var n := |cwds| - 1;
      BlockMultiplicity(cwds[..n], c);
      assert cwds == cwds[..n] + [cwds[n]];
    }
  }
}
