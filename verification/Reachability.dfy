/** Reachability in a call graph by depth-first search, with a cache that later queries use. */
module Reachability {
  type Fn = nat

  /** A function with a body, or the node that stands for every callee that could not be resolved. */
  datatype Node = Function(f: Fn) | Unknown

  /** The callees of each function. */
  type Graph = seq<seq<Node>>

  predicate InGraph(g: Graph, n: Node) { n.Function? ==> n.f < |g| }

  predicate WellFormed(g: Graph) { forall f, k :: 0 <= f < |g| && 0 <= k < |g[f]| ==> InGraph(g, g[f][k]) }

  function Callees(g: Graph, n: Node): seq<Node> { if n.Function? && n.f < |g| then g[n.f] else [] }

  // ---------- paths ----------

  ghost predicate IsPath(g: Graph, path: seq<Fn>) {
    && (forall i :: 0 <= i < |path| ==> path[i] < |g|)
    && (forall i :: 0 <= i < |path| - 1 ==> Function(path[i + 1]) in g[path[i]])
  }

  ghost predicate PathFrom(g: Graph, path: seq<Fn>, a: Fn, b: Fn) {
    path != [] && path[0] == a && path[|path| - 1] == b && IsPath(g, path)
  }

  ghost predicate Reaches(g: Graph, a: Fn, b: Fn) { exists path: seq<Fn> :: PathFrom(g, path, a, b) }

  lemma ReachesSelf(g: Graph, a: Fn)
    requires a < |g|
    ensures Reaches(g, a, a)
  {
    assert PathFrom(g, [a], a, a);
  }

  lemma ReachesOn(g: Graph, a: Fn, b: Fn, c: Fn)
    requires Reaches(g, a, b) && Reaches(g, b, c)
    ensures Reaches(g, a, c)
  {
    var p: seq<Fn> :| PathFrom(g, p, a, b);
    var q: seq<Fn> :| PathFrom(g, q, b, c);
    var path := p + q[1..];
    forall i | 0 <= i < |path| - 1 ensures Function(path[i + 1]) in g[path[i]] {
      if i >= |p| - 1 {
        var j := i - (|p| - 1);
        assert path[i] == q[j] && path[i + 1] == q[j + 1];
      }
    }
    assert PathFrom(g, path, a, c);
  }

  lemma ReachesCallee(g: Graph, a: Fn, b: Fn)
    requires a < |g| && b < |g| && Function(b) in g[a]
    ensures Reaches(g, a, b)
  {
    assert PathFrom(g, [a, b], a, b);
  }

  // ---------- the search ----------

  /** A node on the stack and the number of its callees looked at. */
  datatype Frame = Frame(node: Node, next: nat)

  ghost predicate OnStack(stack: seq<Frame>, n: Node) { exists i :: 0 <= i < |stack| && stack[i].node == n }

  /** Each node on the stack calls the one above it. */
  ghost predicate StackPath(g: Graph, stack: seq<Frame>, visited: set<Node>) {
    && (forall i ::
      0 <= i < |stack| ==>
      InGraph(g, stack[i].node) && stack[i].node in visited && stack[i].next <= |Callees(g, stack[i].node)|)
    && (forall i :: 0 <= i < |stack| - 1 ==> stack[i].node.Function? && stack[i + 1].node in Callees(g, stack[i].node))
  }

  /** What has been left is finished, what is on the stack is finished up to the next callee. */
  ghost predicate Searched(g: Graph, stack: seq<Frame>, visited: set<Node>) {
    && (forall n :: n in visited ==> InGraph(g, n))
    && (forall n, k :: n in visited && !OnStack(stack, n) && 0 <= k < |Callees(g, n)| ==> Callees(g, n)[k] in visited)
    && (forall i, k ::
      0 <= i < |stack| && 0 <= k < stack[i].next && k < |Callees(g, stack[i].node)| ==>
      Callees(g, stack[i].node)[k] in visited)
  }

  ghost predicate Closed(g: Graph, visited: set<Node>) {
    forall n, k :: n in visited && 0 <= k < |Callees(g, n)| ==> Callees(g, n)[k] in visited
  }

  lemma {:induction false} ClosedReaches(g: Graph, visited: set<Node>, path: seq<Fn>, i: nat)
    requires Closed(g, visited) && IsPath(g, path) && path != [] && Function(path[0]) in visited && i < |path|
    ensures Function(path[i]) in visited
  {
    if i == 0 {
    } else {
      var j := i - 1;
      ClosedReaches(g, visited, path, j);
      assert Function(path[j + 1]) in g[path[j]];
      var k :| 0 <= k < |g[path[j]]| && g[path[j]][k] == Function(path[j + 1]);
      assert Callees(g, Function(path[j]))[k] == Function(path[i]);
    }
  }

  lemma {:induction false} StackReaches(g: Graph, stack: seq<Frame>, visited: set<Node>, i: nat, j: nat)
    requires StackPath(g, stack, visited) && i <= j < |stack| && stack[j].node.Function? && stack[i].node.Function?
    ensures Reaches(g, stack[i].node.f, stack[j].node.f)
    decreases j - i
  {
    if i == j {
      ReachesSelf(g, stack[i].node.f);
    } else {
      var m := i + 1;
      assert stack[m].node in Callees(g, stack[i].node);
      assert m < j ==> stack[m].node.Function?;
      ReachesCallee(g, stack[i].node.f, stack[m].node.f);
      StackReaches(g, stack, visited, m, j);
      ReachesOn(g, stack[i].node.f, stack[m].node.f, stack[j].node.f);
    }
  }

  /** Every cached pair is a real path. */
  ghost predicate CacheTrue(g: Graph, cache: map<Fn, set<Fn>>) {
    forall a, b :: a in cache && b in cache[a] ==> Reaches(g, a, b)
  }

  predicate Cached(cache: map<Fn, set<Fn>>, a: Fn, b: Fn) { a in cache && b in cache[a] }

  function Insert(cache: map<Fn, set<Fn>>, a: Fn, b: Fn): map<Fn, set<Fn>> {
    cache[a := (if a in cache then cache[a] else {}) + {b}]
  }

  /** The nodes the search can come to. */
  function Nodes(g: Graph): set<Node> { (set f | 0 <= f < |g| :: Function(f)) + {Unknown} }

  /** Nothing visited is, or was cached to reach, the target. */
  ghost predicate NotFound(g: Graph, visited: set<Node>, b: Fn) { forall n :: n in visited && n.Function? ==> n.f != b }

  lemma PushStep(g: Graph, stack: seq<Frame>, visited: set<Node>, n: Node)
    requires StackPath(g, stack, visited) && Searched(g, stack, visited) && stack != [] && WellFormed(g)
    requires var top := stack[|stack| - 1];
        top.next < |Callees(g, top.node)| && n == Callees(g, top.node)[top.next] && n !in visited
    ensures var top := stack[|stack| - 1];
            var stack' := stack[|stack| - 1 := Frame(top.node, top.next + 1)] + [Frame(n, 0)];
            StackPath(g, stack', visited + {n}) && Searched(g, stack', visited + {n})
  {
    var m := |stack| - 1;
    var top := stack[m];
    var advanced := stack[m := Frame(top.node, top.next + 1)];
    PushedNodes(stack, advanced, n);
    PushPath(g, stack, advanced, visited, n);
    PushSearched(g, stack, advanced, visited, n);
  }

  lemma PushedNodes(stack: seq<Frame>, advanced: seq<Frame>, n: Node)
    requires |advanced| == |stack| && forall i :: 0 <= i < |stack| ==> advanced[i].node == stack[i].node
    ensures forall x :: OnStack(advanced + [Frame(n, 0)], x) <==> OnStack(stack, x) || x == n
  {
    var stack' := advanced + [Frame(n, 0)];
    forall x | OnStack(stack, x) || x == n ensures OnStack(stack', x) {
      if x == n {
        assert stack'[|stack|].node == n;
      } else {
        var i :| 0 <= i < |stack| && stack[i].node == x;
        assert stack'[i].node == x;
      }
    }
  }

  lemma PushPath(g: Graph, stack: seq<Frame>, advanced: seq<Frame>, visited: set<Node>, n: Node)
    requires StackPath(g, stack, visited) && stack != [] && WellFormed(g)
    requires var top := stack[|stack| - 1];
        top.next < |Callees(g, top.node)| && n == Callees(g, top.node)[top.next] &&
        advanced == stack[|stack| - 1 := Frame(top.node, top.next + 1)]
    ensures StackPath(g, advanced + [Frame(n, 0)], visited + {n})
  {}

  lemma PushSearched(g: Graph, stack: seq<Frame>, advanced: seq<Frame>, visited: set<Node>, n: Node)
    requires Searched(g, stack, visited) && stack != [] && InGraph(g, n)
    requires forall x :: OnStack(advanced + [Frame(n, 0)], x) <==> OnStack(stack, x) || x == n
    requires var top := stack[|stack| - 1];
        top.next < |Callees(g, top.node)| && n == Callees(g, top.node)[top.next] &&
        advanced == stack[|stack| - 1 := Frame(top.node, top.next + 1)]
    ensures Searched(g, advanced + [Frame(n, 0)], visited + {n})
  {
    hide Callees;
  }

  lemma SkipStep(g: Graph, stack: seq<Frame>, visited: set<Node>)
    requires StackPath(g, stack, visited) && Searched(g, stack, visited) && stack != []
    requires var top := stack[|stack| - 1];
        top.next < |Callees(g, top.node)| && Callees(g, top.node)[top.next] in visited
    ensures var top := stack[|stack| - 1];
            var stack' := stack[|stack| - 1 := Frame(top.node, top.next + 1)];
            StackPath(g, stack', visited) && Searched(g, stack', visited)
  {
    var top := stack[|stack| - 1];
    SkipPath(g, stack, stack[|stack| - 1 := Frame(top.node, top.next + 1)], visited);
    SkipSearched(g, stack, stack[|stack| - 1 := Frame(top.node, top.next + 1)], visited);
  }

  lemma SkipPath(g: Graph, stack: seq<Frame>, advanced: seq<Frame>, visited: set<Node>)
    requires StackPath(g, stack, visited) && stack != []
    requires var top := stack[|stack| - 1];
        top.next < |Callees(g, top.node)| && advanced == stack[|stack| - 1 := Frame(top.node, top.next + 1)]
    ensures StackPath(g, advanced, visited)
  {
    hide Callees;
  }

  lemma SkipSearched(g: Graph, stack: seq<Frame>, advanced: seq<Frame>, visited: set<Node>)
    requires Searched(g, stack, visited) && stack != []
    requires var top := stack[|stack| - 1];
        top.next < |Callees(g, top.node)| && Callees(g, top.node)[top.next] in visited &&
        advanced == stack[|stack| - 1 := Frame(top.node, top.next + 1)]
    ensures Searched(g, advanced, visited)
  {
    hide Callees;
    forall m | OnStack(stack, m) ensures OnStack(advanced, m) {
      var i :| 0 <= i < |stack| && stack[i].node == m;
      assert advanced[i].node == m;
    }
  }

  lemma BelowOrTop(stack: seq<Frame>, m: Node)
    requires OnStack(stack, m)
    ensures OnStack(stack[..|stack| - 1], m) || stack[|stack| - 1].node == m
  {
    var i :| 0 <= i < |stack| && stack[i].node == m;
    if i < |stack| - 1 { assert stack[..|stack| - 1][i].node == m; }
  }

  lemma PopStep(g: Graph, stack: seq<Frame>, visited: set<Node>)
    requires StackPath(g, stack, visited) && Searched(g, stack, visited) && stack != []
    requires var top := stack[|stack| - 1]; top.next == |Callees(g, top.node)|
    ensures var stack' := stack[..|stack| - 1]; StackPath(g, stack', visited) && Searched(g, stack', visited)
  {
    var n := |stack| - 1;
    var stack' := stack[..n];
    forall m, k | m in visited && !OnStack(stack', m) && 0 <= k < |Callees(g, m)| ensures Callees(g, m)[k] in visited {
      if OnStack(stack, m) { BelowOrTop(stack, m); }
    }
  }

  lemma DoneClosed(g: Graph, visited: set<Node>)
    requires Searched(g, [], visited)
    ensures Closed(g, visited)
  {
    assert forall n :: !OnStack([], n);
  }

  // ---------- the analysis ----------

  class Analysis {
    const callGraph: Graph
    var reachabilityMap: map<Fn, set<Fn>>

    constructor (g: Graph)
      requires WellFormed(g)
      ensures callGraph == g && Valid()
    {
      callGraph := g;
      reachabilityMap := map[];
    }

    ghost predicate Valid()
      reads this
    {
      WellFormed(callGraph) && CacheTrue(callGraph, reachabilityMap)
    }

    /** Caches that everything on the path reaches the node at its end. */
    method CachePath(stack: seq<Frame>, ghost visited: set<Node>)
      requires Valid() && StackPath(callGraph, stack, visited) && stack != [] && stack[|stack| - 1].node.Function?
      modifies this
      ensures Valid() && Cached(reachabilityMap, stack[|stack| - 1].node.f, stack[|stack| - 1].node.f)
    {
      hide StackPath;
      var current := stack[|stack| - 1].node.f;
      var i := 0;
      while i < |stack|
        invariant i <= |stack| && Valid() && (i == |stack| ==> Cached(reachabilityMap, current, current))
      {
        StackFunctions(callGraph, stack, visited, i);
        var ancestor := stack[i].node.f;
        StackReaches(callGraph, stack, visited, i, |stack| - 1);
        InsertTrue(callGraph, reachabilityMap, ancestor, current);
        reachabilityMap := Insert(reachabilityMap, ancestor, current);
        i := i + 1;
      }
    }

    /** Whether there is a path from `a` to `b`, after any queries before. */
    method IsReachable(a: Fn, b: Fn) returns (result: bool)
      requires Valid() && a < |callGraph|
      modifies this
      ensures Valid() && (result <==> Reaches(callGraph, a, b))
    {
      hide StackPath, Searched, Closed, Reaches, Callees;
      if Cached(reachabilityMap, a, b) { return true; }
      var stack := [Frame(Function(a), 0)];
      var visited := {Function(a)};
      StartSearch(callGraph, a);
      var found := Visit(stack, visited, a, b);
      if found { return true; }
      while stack != []
        invariant Valid() && StackPath(callGraph, stack, visited) && Searched(callGraph, stack, visited)
        invariant visited <= Nodes(callGraph)
        invariant Function(a) in visited && NotFound(callGraph, visited, b)
        invariant (stack != [] ==> stack[0].node == Function(a))
        decreases Nodes(callGraph) - visited, |stack|, if stack == [] then 0 else Left(callGraph, stack[|stack| - 1])
      {
        var top := |stack| - 1;
        TopFacts(callGraph, stack, visited);
        var node, next := stack[top].node, stack[top].next;
        if next == |Callees(callGraph, node)| {
          PopStep(callGraph, stack, visited);
          stack := stack[..top];
        } else {
          var callee := Callees(callGraph, node)[next];
          if callee in visited {
            SkipStep(callGraph, stack, visited);
            stack := stack[top := Frame(node, next + 1)];
          } else {
            PushStep(callGraph, stack, visited, callee);
            CalleeNode(callGraph, node, next);
            assert callee in Nodes(callGraph) - visited;
            stack, visited := stack[top := Frame(node, next + 1)] + [Frame(callee, 0)], visited + {callee};
            found := Visit(stack, visited, a, b);
            if found { return true; }
          }
        }
      }
      NeverFound(callGraph, visited, a, b);
      return false;
    }

    /** The node just come to: cached along the path, and asked for what is cached of it. */
    method Visit(stack: seq<Frame>, visited: set<Node>, a: Fn, b: Fn) returns (found: bool)
      requires Valid() && a < |callGraph| && StackPath(callGraph, stack, visited) && stack != []
      requires stack[0].node == Function(a)
      requires NotFound(callGraph, visited - {stack[|stack| - 1].node}, b)
      modifies this
      ensures Valid() && (found ==> Reaches(callGraph, a, b)) && (!found ==> NotFound(callGraph, visited, b))
    {
      hide StackPath, Reaches;
      var node := stack[|stack| - 1].node;
      if node.Unknown? { return false; }
      CachePath(stack, visited);
      found := Cached(reachabilityMap, node.f, b);
      if found {
        StackReaches(callGraph, stack, visited, 0, |stack| - 1);
        ReachesOn(callGraph, a, node.f, b);
      }
    }
  }

  function Left(g: Graph, frame: Frame): nat {
    if frame.next <= |Callees(g, frame.node)| then |Callees(g, frame.node)| - frame.next else 0
  }

  lemma CalleeNode(g: Graph, n: Node, k: nat)
    requires WellFormed(g) && k < |Callees(g, n)|
    ensures Callees(g, n)[k] in Nodes(g)
  {}

  lemma StackFunctions(g: Graph, stack: seq<Frame>, visited: set<Node>, i: nat)
    requires StackPath(g, stack, visited) && i < |stack| && stack[|stack| - 1].node.Function?
    ensures stack[i].node.Function? && stack[i].node.f < |g|
  {}

  lemma InsertTrue(g: Graph, cache: map<Fn, set<Fn>>, a: Fn, b: Fn)
    requires CacheTrue(g, cache) && Reaches(g, a, b)
    ensures CacheTrue(g, Insert(cache, a, b)) && Cached(Insert(cache, a, b), a, b)
  {}

  lemma StartSearch(g: Graph, a: Fn)
    requires a < |g|
    ensures StackPath(g, [Frame(Function(a), 0)], {Function(a)}) && Searched(g, [Frame(Function(a), 0)], {Function(a)})
  {
    assert [Frame(Function(a), 0)][0].node == Function(a);
  }

  lemma TopFacts(g: Graph, stack: seq<Frame>, visited: set<Node>)
    requires StackPath(g, stack, visited) && stack != []
    ensures var top := stack[|stack| - 1]; InGraph(g, top.node) && top.next <= |Callees(g, top.node)|
  {}

  lemma NeverFound(g: Graph, visited: set<Node>, a: Fn, b: Fn)
    requires Searched(g, [], visited) && Function(a) in visited && NotFound(g, visited, b)
    ensures !Reaches(g, a, b)
  {
    DoneClosed(g, visited);
    if Reaches(g, a, b) {
      var path: seq<Fn> :| PathFrom(g, path, a, b);
      ClosedReaches(g, visited, path, |path| - 1);
    }
  }
}
