/** The depth-first search that rejects circular dependencies. */
module CircularityCheck {
  import opened DependencyGraph

  datatype Verdict =
    | Clear
    | Circular
    | MissingId(symbol: Symbol)  // the source's "dependency ID missing" assertion error

  ghost predicate Known(g: Graph, instantiated: set<Symbol>, s: Symbol) {
    s in g || s in instantiated
  }

  /** Every interface named by a class the check looks at is provided by a class or an instance. */
  ghost predicate AllKnown(g: Graph, instantiated: set<Symbol>) {
    forall a, b :: Edge(g, a, b) ==> Known(g, instantiated, b)
  }

  /** Nothing on a path out of `s` repeats, lies on the stack, or is unknown. */
  ghost predicate SafeFrom(g: Graph, instantiated: set<Symbol>, s: Symbol, stack: seq<Symbol>) {
    forall p :: IsPath(g, p) && p[0] == s ==>
      NoDuplicates(p) && forall x :: x in p ==> x !in stack && Known(g, instantiated, x)
  }

  lemma SafeStep(g: Graph, instantiated: set<Symbol>, s: Symbol, stack: seq<Symbol>)
    requires s !in stack && Known(g, instantiated, s)
    requires forall t :: Edge(g, s, t) ==> SafeFrom(g, instantiated, t, stack + [s])
    ensures SafeFrom(g, instantiated, s, stack)
  {
    forall p | IsPath(g, p) && p[0] == s
      ensures NoDuplicates(p) && forall x :: x in p ==> x !in stack && Known(g, instantiated, x)
    {
      if |p| > 1 {
        var q := p[1..];
        assert Edge(g, p[0], p[0 + 1]);
        SubPath(g, p, 1, |p|);
        assert IsPath(g, q) && q[0] == p[1];
        assert s in stack + [s] && forall x :: x in stack ==> x in stack + [s];
        assert p == [s] + q;
      }
    }
  }

  /** A path whose last node leads back into it: what the error message prints. */
  ghost predicate Lasso(g: Graph, p: seq<Symbol>) {
    IsPath(g, p) && exists x :: x in p && Edge(g, p[|p| - 1], x)
  }

  lemma LassoIsCycle(g: Graph, p: seq<Symbol>)
    requires Lasso(g, p)
    ensures !Acyclic(g)
  {
    var x :| x in p && Edge(g, p[|p| - 1], x);
    var k :| 0 <= k < |p| && p[k] == x;
    SubPath(g, p, k, |p|);
    ExtendPath(g, p[k..], x);
  }

  lemma LastEdge(g: Graph, p: seq<Symbol>, s: Symbol)
    requires p != [] && IsPath(g, p + [s])
    ensures IsPath(g, p) && Edge(g, p[|p| - 1], s)
  {
    var q := p + [s];
    var n := |p| - 1;
    assert Edge(g, q[n], q[n + 1]);
    SubPath(g, q, 0, |p|);
    assert q[0..|p|] == p;
  }

  class Search {
    const cwds: seq<ClassWithDependencies>
    const instantiated: set<Symbol>
    var inStack: seq<Symbol>  // a JavaScript Set keeps insertion order

    constructor (cwds: seq<ClassWithDependencies>, instantiated: set<Symbol>)
      ensures this.cwds == cwds && this.instantiated == instantiated && inStack == []
    {
      this.cwds := cwds;
      this.instantiated := instantiated;
      inStack := [];
    }

    method HasCircularDependency(symbol: Symbol) returns (verdict: Verdict)
      requires NoDuplicates(inStack)
      requires inStack != [] ==> IsPath(FirstGraph(cwds), inStack + [symbol])
      modifies this`inStack
      ensures verdict.Clear? ==>
        inStack == old(inStack) && SafeFrom(FirstGraph(cwds), instantiated, symbol, inStack)
      ensures !verdict.Clear? ==> old(inStack) <= inStack
      ensures verdict.Circular? ==> Lasso(FirstGraph(cwds), inStack) && (old(inStack) == [] ==> inStack[0] == symbol)
      ensures verdict.MissingId? ==>
        && inStack != [] && inStack[|inStack| - 1] == verdict.symbol
        && IsPath(FirstGraph(cwds), inStack) && (old(inStack) == [] ==> inStack[0] == symbol)
        && !Known(FirstGraph(cwds), instantiated, verdict.symbol)
      decreases FirstGraph(cwds).Keys - ToSet(inStack)
    {
      ghost var g := FirstGraph(cwds);
      if symbol in inStack {
        LastEdge(g, inStack, symbol);
        return Circular;
      }
      ghost var stack := inStack;
      inStack := inStack + [symbol];
      assert IsPath(g, inStack);
      var cwd := Find(cwds, symbol);
      if cwd.None? && symbol in instantiated {
        inStack := Without(inStack, symbol);
        DeleteLast(stack, symbol);
        SafeStep(g, instantiated, symbol, stack);
        return Clear;
      }
      if cwd.None? {
        return MissingId(symbol);
      }
      var dependencies := cwd.value.dependencies;
      for i := 0 to |dependencies|
        invariant inStack == stack + [symbol]
        invariant forall j :: 0 <= j < i ==>
          SafeFrom(g, instantiated, dependencies[j].symbol, stack + [symbol])
      {
        var target := dependencies[i].symbol;
        assert Edge(g, symbol, target);
        ExtendPath(g, inStack, target);
        assert symbol in ToSet(inStack) && symbol !in ToSet(stack) && symbol in g;
        verdict := HasCircularDependency(target);
        if !verdict.Clear? {
          return;
        }
      }
      SafeStep(g, instantiated, symbol, stack);
      inStack := Without(inStack, symbol);
      DeleteLast(stack, symbol);
      return Clear;
    }

    /** Runs the search from every class. All classes pass exactly when the graph of first
        providers has no cycle and names no unknown interface. */
    method NoCircularDependencies() returns (verdict: Verdict)
      requires inStack == []
      modifies this`inStack
      ensures verdict.Clear? <==>
        Acyclic(FirstGraph(cwds)) && AllKnown(FirstGraph(cwds), instantiated)
      ensures AllKnown(FirstGraph(cwds), instantiated) ==>
        (verdict.Circular? <==> !Acyclic(FirstGraph(cwds)))
      ensures verdict.Clear? ==> inStack == []
      ensures verdict.Circular? ==> Lasso(FirstGraph(cwds), inStack) && inStack[0] in Ids(cwds)
      ensures verdict.MissingId? ==>
        && !Known(FirstGraph(cwds), instantiated, verdict.symbol)
        && exists s :: Edge(FirstGraph(cwds), s, verdict.symbol)
    {
      ghost var g := FirstGraph(cwds);
      for i := 0 to |cwds|
        invariant inStack == []
        invariant forall j :: 0 <= j < i ==> SafeFrom(g, instantiated, cwds[j].id, [])
      {
        verdict := HasCircularDependency(cwds[i].id);
        if verdict.Circular? {
          LassoIsCycle(g, inStack);
          return;
        }
        if verdict.MissingId? {
          assert |inStack| > 1 by {
            assert cwds[i].id in g;
          }
          var n := |inStack|;
          LastEdge(g, inStack[..n - 1], inStack[n - 1]);
          assert inStack[..n - 1] + [inStack[n - 1]] == inStack;
          return;
        }
      }
      assert forall s :: s in g ==> SafeFrom(g, instantiated, s, []);
      SafeEverywhere(g, instantiated);
      return Clear;
    }
  }

  lemma SafeEverywhere(g: Graph, instantiated: set<Symbol>)
    requires forall s :: s in g ==> SafeFrom(g, instantiated, s, [])
    ensures Acyclic(g) && AllKnown(g, instantiated)
  {
    forall p | IsPath(g, p) && |p| >= 2 ensures p[0] != p[|p| - 1] {
      assert Edge(g, p[0], p[0 + 1]);
    }
    forall a, b | Edge(g, a, b) ensures Known(g, instantiated, b) {
      assert IsPath(g, [a, b]) && b in [a, b];
    }
  }

  /** Deleting a value from an insertion-ordered set. */
  function Without(s: seq<Symbol>, x: Symbol): (r: seq<Symbol>)
    ensures x !in r
    ensures x !in s ==> r == s
  {
    if s == [] then []
    else if s[|s| - 1] == x then Without(s[..|s| - 1], x)
    else Without(s[..|s| - 1], x) + [s[|s| - 1]]
  }

  lemma DeleteLast(s: seq<Symbol>, x: Symbol)
    requires x !in s
    ensures Without(s + [x], x) == s
  {
  }
}
