/** The worklist that walks the blocks of a region: every block once, behind all its predecessors. */
module RegionWorklist {
  /** Blocks are numbered; block 0 is the entry. */
  datatype Graph = Graph(succs: seq<seq<nat>>, preds: seq<seq<nat>>)

  ghost predicate Valid(g: Graph) {
    && |g.succs| == |g.preds| > 0
    && (forall b, s :: 0 <= b < |g.succs| && s in g.succs[b] ==> s < |g.succs|)
    && (forall b, p :: 0 <= b < |g.preds| && p in g.preds[b] ==> p < |g.preds|)
    && (forall b, s :: 0 <= b < |g.succs| && 0 <= s < |g.succs| ==> (s in g.succs[b] <==> b in g.preds[s]))
  }

  /** `rank` grows along every edge. */
  ghost predicate Ranks(g: Graph, rank: seq<nat>)
    requires Valid(g)
  {
    |rank| == |g.succs| && forall b, s :: 0 <= b < |g.succs| && s in g.succs[b] ==> rank[b] < rank[s]
  }

  ghost predicate Acyclic(g: Graph)
    requires Valid(g)
  {
    exists rank :: Ranks(g, rank)
  }

  ghost predicate IsPath(g: Graph, path: seq<nat>)
    requires Valid(g)
  {
    path != [] && path[0] == 0 && (forall i :: 0 <= i < |path| ==> path[i] < |g.succs|) &&
      forall i :: 0 < i < |path| ==> path[i] in g.succs[path[i - 1]]
  }

  ghost predicate AllReachable(g: Graph)
    requires Valid(g)
  {
    forall b :: 0 <= b < |g.succs| ==> Reached(g, b)
  }

  ghost predicate Reached(g: Graph, b: nat)
    requires Valid(g)
  {
    exists path :: IsPath(g, path) && path[|path| - 1] == b
  }

  /** What is known where a block starts: the initial state at the entry, elsewhere what all predecessors end with. */
  function Meet<S>(meet: (S, S) -> S, ends: map<nat, S>, preds: seq<nat>): S
    requires preds != [] && forall p :: p in preds ==> p in ends
  {
    if |preds| == 1 then assert preds[0] in preds; ends[preds[0]]
    else
      assert preds[|preds| - 1] in preds;
      meet(Meet(meet, ends, preds[..|preds| - 1]), ends[preds[|preds| - 1]])
  }

  ghost predicate Ready<S>(g: Graph, ends: map<nat, S>, b: nat) {
    b < |g.preds| && forall p :: p in g.preds[b] ==> p in ends
  }

  /** Block `b` was run from the meet of its predecessors' end states. */
  ghost predicate RunFrom<S>(g: Graph, init: S, transfer: (nat, S) -> S, meet: (S, S) -> S, ends: map<nat, S>, b: nat)
    requires b < |g.preds| && b in ends
  {
    Ready(g, ends, b) && ends[b] == transfer(b, if g.preds[b] == [] then init else Meet(meet, ends, g.preds[b]))
  }

  lemma {:induction false} MeetKept<S>(meet: (S, S) -> S, ends: map<nat, S>, ends': map<nat, S>, preds: seq<nat>)
    requires preds != [] && forall p :: p in preds ==> p in ends && p in ends' && ends'[p] == ends[p]
    ensures Meet(meet, ends, preds) == Meet(meet, ends', preds)
  {
    assert preds[|preds| - 1] in preds;
    if |preds| == 1 {
    } else {
      MeetKept(meet, ends, ends', preds[..|preds| - 1]);
    }
  }

  // ---------- progress ----------

  ghost predicate NoRepeat(xs: seq<nat>) { forall i, j :: 0 <= i < j < |xs| ==> xs[i] != xs[j] }

  /** Everything seen so far is processed or queued: the queue holds exactly the unprocessed successors of processed
      blocks. */
  ghost predicate Frontier<S>(g: Graph, ends: map<nat, S>, frontier: seq<nat>)
    requires Valid(g)
  {
    && NoRepeat(frontier) && (forall b :: b in frontier ==> b < |g.succs| && b !in ends)
    && (forall b :: b in ends ==> b < |g.succs|)
    && (if ends.Keys == {} then frontier == [0] else 0 in ends)
    && (forall b, s :: b in ends && s in g.succs[b] ==> s in ends || s in frontier)
  }

  /** Some queued block is ready: on the way to an unprocessed block, the first unprocessed one is queued, and
      the queued block of least rank has no unprocessed predecessor. */
  lemma SomeReady<S>(g: Graph, rank: seq<nat>, ends: map<nat, S>, frontier: seq<nat>) returns (j: nat)
    requires Valid(g) && Ranks(g, rank) && AllReachable(g) && Frontier(g, ends, frontier) && frontier != []
    ensures j < |frontier| && Ready(g, ends, frontier[j])
  {
    assert forall i :: 0 <= i < |frontier| ==> frontier[i] in frontier;
    j := LeastRank(rank, frontier);
    var b := frontier[j];
    assert b in frontier;
    forall p | p in g.preds[b] ensures p in ends {
      if p !in ends {
        assert Reached(g, p);
        var path :| IsPath(g, path) && path[|path| - 1] == p;
        assert p in g.preds[b] && b in g.succs[p] && rank[p] < rank[b];
        var r := FirstOut(g, rank, ends, frontier, path);
      }
    }
  }

  lemma {:induction false} LeastRank(rank: seq<nat>, frontier: seq<nat>) returns (j: nat)
    requires frontier != [] && forall i :: 0 <= i < |frontier| ==> frontier[i] < |rank|
    ensures j < |frontier| && forall i :: 0 <= i < |frontier| ==> rank[frontier[j]] <= rank[frontier[i]]
  {
    j := 0;
    if |frontier| == 1 {
    } else {
      var n := |frontier| - 1;
      var k := LeastRank(rank, frontier[..n]);
      j := if rank[frontier[n]] < rank[frontier[k]] then n else k;
      assert forall i :: 0 <= i < n ==> frontier[..n][i] == frontier[i];
    }
  }

  /** On a path to an unprocessed block there is a queued block of no greater rank. */
  lemma {:induction false} FirstOut<S>(g: Graph, rank: seq<nat>, ends: map<nat, S>, frontier: seq<nat>, path: seq<nat>)
    returns (r: nat)
    requires Valid(g) && Ranks(g, rank) && Frontier(g, ends, frontier) && IsPath(g, path) && path[|path| - 1] !in ends
    ensures r in frontier && rank[r] <= rank[path[|path| - 1]]
  {
    var n := |path| - 1;
    if n == 0 {
      assert ends.Keys == {};
      r := 0;
    } else {
      var q := path[n - 1];
      assert path[n] in g.succs[q];
      if q in ends {
        r := path[n];
      } else {
        r := FirstOut(g, rank, ends, frontier, path[..n]);
      }
    }
  }

  // ---------- the walk ----------

  ghost function Blocks(n: nat): (s: set<nat>)
    ensures forall b :: b in s <==> 0 <= b < n
  {
    if n == 0 then {} else Blocks(n - 1) + {n - 1}
  }

  /** All blocks, each once, each behind its predecessors. */
  ghost predicate VisitOrder(g: Graph, visits: seq<nat>)
    requires Valid(g)
  {
    && NoRepeat(visits) && (forall b :: b in visits <==> 0 <= b < |g.succs|)
    && (forall i, p :: 0 <= i < |visits| && visits[i] < |g.preds| && p in g.preds[visits[i]] ==> p in visits[..i])
  }

  /** The meet of the end states of the blocks without successors, in the order they were run. */
  ghost function Terminals(g: Graph, visits: seq<nat>): seq<nat> {
    if visits == [] then []
    else
      var rest, b := Terminals(g, visits[..|visits| - 1]), visits[|visits| - 1];
      if b < |g.succs| && g.succs[b] == [] then rest + [b] else rest
  }

  method RunOnRegion<S(0)>(g: Graph, init: S, transfer: (nat, S) -> S, meet: (S, S) -> S)
    returns (final: S, ends: map<nat, S>, ghost visits: seq<nat>)
    requires Valid(g) && Acyclic(g) && AllReachable(g)
    ensures VisitOrder(g, visits) && (forall b :: b in ends <==> 0 <= b < |g.succs|)
    ensures forall b :: b in ends ==> RunFrom(g, init, transfer, meet, ends, b)
    ensures Terminals(g, visits) != [] && (forall b :: b in Terminals(g, visits) ==> b in ends)
    ensures final == Meet(meet, ends, Terminals(g, visits))
  {
    hide Frontier, Walked, Ranks, Acyclic, AllReachable, Ready, Meet, NoRepeat, RunFrom, VisitOrder, Valid;
    ghost var rank := SomeRanking(g);
    BlocksInRange(g);
    ends, visits := map[], [];
    var frontier := [0];
    var terminals: seq<nat> := [];
    var deferralsWithoutProgress := 0;
    WalkStart(g, init, transfer, meet);
    while frontier != []
      invariant Frontier(g, ends, frontier) && Walked(g, init, transfer, meet, ends, visits, terminals)
      invariant deferralsWithoutProgress <= |frontier|
      invariant forall i :: |frontier| - deferralsWithoutProgress <= i < |frontier| ==> !Ready(g, ends, frontier[i])
      decreases Blocks(|g.succs|) - ends.Keys, |frontier| - deferralsWithoutProgress
    {
      ghost var j := SomeReady(g, rank, ends, frontier);
      var currentBlock := frontier[0];
      ghost var before := frontier;
      Queued(g, ends, frontier, currentBlock);
      frontier := frontier[1..];
      var ready := IsReady(g, currentBlock, ends);
      if !ready {
        deferralsWithoutProgress := deferralsWithoutProgress + 1;
        // otherwise there would be an unsupported backedge
        assert deferralsWithoutProgress <= |frontier|;
        frontier := frontier + [currentBlock];
        Rotated(g, ends, before, frontier);
        continue;
      }
      PredsKnown(g, ends, currentBlock);
      var currentState := if g.preds[currentBlock] == [] then init else Meet(meet, ends, g.preds[currentBlock]);
      deferralsWithoutProgress := 0;
      WalkStep(g, rank, init, transfer, meet, ends, visits, terminals, currentBlock);
      ghost var ends0, rest := ends, frontier;
      ends := ends[currentBlock := transfer(currentBlock, currentState)];
      visits := visits + [currentBlock];
      if g.succs[currentBlock] == [] {
        terminals := terminals + [currentBlock];
      }
      frontier := Enqueue(frontier, g.succs[currentBlock], ends);
      Advanced(g, rank, ends0, ends, before, rest, frontier, currentBlock);
    }
    EveryBlock(g, rank, ends);
    WalkEnd(g, rank, init, transfer, meet, ends, visits, terminals);
    final := Meet(meet, ends, terminals);
  }

  /** What has been walked so far: in order, each block from its predecessors' end states. */
  ghost predicate Walked<S>(g: Graph, init: S, transfer: (nat, S) -> S, meet: (S, S) -> S, ends: map<nat, S>,
          visits: seq<nat>, terminals: seq<nat>)
    requires Valid(g)
  {
    && NoRepeat(visits) && (forall b :: b in visits <==> b in ends) && terminals == Terminals(g, visits)
    && (forall i, p :: 0 <= i < |visits| && visits[i] < |g.preds| && p in g.preds[visits[i]] ==> p in visits[..i])
    && (forall b :: b in ends ==> b < |g.succs| && RunFrom(g, init, transfer, meet, ends, b))
  }

  lemma WalkStart<S>(g: Graph, init: S, transfer: (nat, S) -> S, meet: (S, S) -> S)
    requires Valid(g)
    ensures Walked(g, init, transfer, meet, map[], [], []) && Frontier<S>(g, map[], [0])
  {}

  lemma SomeRanking(g: Graph) returns (rank: seq<nat>)
    requires Valid(g) && Acyclic(g)
    ensures Ranks(g, rank)
  {
    rank :| Ranks(g, rank);
  }

  lemma BlocksInRange(g: Graph)
    requires Valid(g)
    ensures |g.succs| == |g.preds| > 0
  {}

  lemma PredsKnown<S>(g: Graph, ends: map<nat, S>, b: nat)
    requires Ready(g, ends, b)
    ensures b < |g.preds| && forall p :: p in g.preds[b] ==> p in ends
  {}

  lemma Queued<S>(g: Graph, ends: map<nat, S>, frontier: seq<nat>, b: nat)
    requires Valid(g) && Frontier(g, ends, frontier) && frontier != [] && b == frontier[0]
    ensures b < |g.succs| && b !in ends && b in Blocks(|g.succs|) - ends.Keys && (ends.Keys == {} ==> |frontier| == 1)
    ensures NoRepeat(frontier[1..]) && frontier == [b] + frontier[1..]
  {
    assert b in frontier;
  }

  lemma WalkStep<S>(g: Graph, rank: seq<nat>, init: S, transfer: (nat, S) -> S, meet: (S, S) -> S, ends: map<nat, S>,
          visits: seq<nat>, terminals: seq<nat>, b: nat)
    requires Valid(g) && Ranks(g, rank) && Walked(g, init, transfer, meet, ends, visits, terminals) && b < |g.succs|
    requires b !in ends && Ready(g, ends, b)
    ensures var ends' := ends[b := transfer(b, if g.preds[b] == [] then init else Meet(meet, ends, g.preds[b]))];
            Walked(g, init, transfer, meet, ends', visits + [b], if g.succs[b] == [] then terminals + [b]
              else terminals)
  {
    var ends', visits' := ends[b := transfer(b, if g.preds[b] == [] then init else Meet(meet, ends, g.preds[b]))],
        visits + [b];
    NotItsOwnPred(g, rank, b);
    forall c | c in ends' ensures RunFrom(g, init, transfer, meet, ends', c) {
      if g.preds[c] != [] { MeetKept(meet, ends, ends', g.preds[c]); }
    }
    assert b !in visits;
    assert visits'[..|visits|] == visits && forall i :: 0 <= i < |visits| ==> visits'[..i] == visits[..i];
  }

  lemma WalkEnd<S>(g: Graph, rank: seq<nat>, init: S, transfer: (nat, S) -> S, meet: (S, S) -> S, ends: map<nat, S>,
          visits: seq<nat>, terminals: seq<nat>)
    requires Valid(g) && Ranks(g, rank) && Walked(g, init, transfer, meet, ends, visits, terminals)
    requires forall b :: b in ends <==> 0 <= b < |g.succs|
    ensures VisitOrder(g, visits) && terminals == Terminals(g, visits) != []
    ensures (forall b :: b in terminals ==> b in ends)
    ensures forall b :: b in ends ==> RunFrom(g, init, transfer, meet, ends, b)
  {
    TerminalExists(g, rank, visits);
    TerminalsAreVisits(g, visits);
  }

  method IsReady<S>(g: Graph, b: nat, ends: map<nat, S>) returns (ready: bool)
    requires b < |g.preds|
    ensures ready <==> Ready(g, ends, b)
  {
    var preds := g.preds[b];
    ready := true;
    var i := 0;
    while i < |preds|
      invariant 0 <= i <= |preds|
      invariant ready <==> forall k :: 0 <= k < i ==> preds[k] in ends
    {
      ready := ready && preds[i] in ends;
      i := i + 1;
    }
  }

  /** Queue the blocks of `more` that are neither processed nor queued. */
  method Enqueue<S>(frontier: seq<nat>, more: seq<nat>, ends: map<nat, S>) returns (r: seq<nat>)
    requires NoRepeat(frontier)
    ensures NoRepeat(r) && frontier <= r
    ensures forall b :: b in r <==> b in frontier || (b in more && b !in ends)
  {
    r := frontier;
    var i := 0;
    while i < |more|
      invariant 0 <= i <= |more| && NoRepeat(r) && frontier <= r
      invariant forall b :: b in r <==> b in frontier || (b in more[..i] && b !in ends)
    {
      assert more[..i + 1] == more[..i] + [more[i]];
      if more[i] !in ends && more[i] !in r {
        r := r + [more[i]];
      }
      i := i + 1;
    }
    assert more[..i] == more;
  }

  lemma Rotated<S>(g: Graph, ends: map<nat, S>, before: seq<nat>, frontier: seq<nat>)
    requires Valid(g) && Frontier(g, ends, before) && before != [] && frontier == before[1..] + [before[0]]
    requires ends.Keys == {} ==> |before| == 1
    ensures Frontier(g, ends, frontier)
  {
    assert before == [before[0]] + before[1..];
    assert forall b :: b in frontier <==> b in before;
    assert ends.Keys == {} ==> before[1..] == [];
  }

  lemma Rises(g: Graph, rank: seq<nat>, b: nat, s: nat)
    requires Valid(g) && Ranks(g, rank) && b < |g.succs| && s < |g.succs| && (s in g.succs[b] || b in g.preds[s])
    ensures rank[b] < rank[s]
  {
    assert s in g.succs[b];
  }

  lemma NotItsOwnPred(g: Graph, rank: seq<nat>, b: nat)
    requires Valid(g) && Ranks(g, rank) && b < |g.succs|
    ensures b !in g.preds[b]
  {
    if b in g.preds[b] { Rises(g, rank, b, b); }
  }

  lemma Advanced<S>(g: Graph, rank: seq<nat>, ends: map<nat, S>, ends': map<nat, S>, before: seq<nat>, rest: seq<nat>,
          frontier: seq<nat>, b: nat)
    requires Valid(g) && Ranks(g, rank) && Frontier(g, ends, before) && before == [b] + rest
    requires ends'.Keys == ends.Keys + {b}
    requires NoRepeat(frontier) && rest <= frontier
    requires forall x :: x in frontier <==> x in rest || (x in g.succs[b] && x !in ends')
    ensures Frontier(g, ends', frontier)
  {
    assert before[0] == b && b in before;
    assert forall i :: 0 <= i < |rest| ==> before[i + 1] == rest[i];
    forall x | x in rest ensures x in before && x != b {
      var i :| 0 <= i < |rest| && rest[i] == x;
      assert before[i + 1] == x;
    }
  }

  /** With an empty queue every block has been processed. */
  lemma EveryBlock<S>(g: Graph, rank: seq<nat>, ends: map<nat, S>)
    requires Valid(g) && Ranks(g, rank) && AllReachable(g) && Frontier(g, ends, [])
    ensures forall b :: b in ends <==> 0 <= b < |g.succs|
  {
    forall b | 0 <= b < |g.succs| ensures b in ends {
      if b !in ends {
        assert Reached(g, b);
        var path :| IsPath(g, path) && path[|path| - 1] == b;
        var r := FirstOut(g, rank, ends, [], path);
      }
    }
  }

  /** A block of greatest rank has no successors. */
  lemma TerminalExists(g: Graph, rank: seq<nat>, visits: seq<nat>)
    requires Valid(g) && Ranks(g, rank) && forall b :: b in visits <==> 0 <= b < |g.succs|
    ensures Terminals(g, visits) != []
  {
    var b := GreatestRank(rank);
    if g.succs[b] != [] {
      assert g.succs[b][0] in g.succs[b];
      Rises(g, rank, b, g.succs[b][0]);
    }
    assert b in visits;
    var i :| 0 <= i < |visits| && visits[i] == b;
    TerminalKept(g, visits, i);
  }

  lemma {:induction false} GreatestRank(rank: seq<nat>) returns (b: nat)
    requires rank != []
    ensures b < |rank| && forall c :: 0 <= c < |rank| ==> rank[c] <= rank[b]
  {
    b := 0;
    if |rank| == 1 {
    } else {
      var c := GreatestRank(rank[..|rank| - 1]);
      b := if rank[|rank| - 1] > rank[c] then |rank| - 1 else c;
    }
  }

  lemma {:induction false} TerminalKept(g: Graph, visits: seq<nat>, i: nat)
    requires i < |visits| && visits[i] < |g.succs| && g.succs[visits[i]] == []
    ensures visits[i] in Terminals(g, visits)
  {
    if i < |visits| - 1 { TerminalKept(g, visits[..|visits| - 1], i); }
  }

  lemma {:induction false} TerminalsAreVisits(g: Graph, visits: seq<nat>)
    ensures forall b :: b in Terminals(g, visits) ==> b in visits && b < |g.succs| && g.succs[b] == []
  {
    if visits == [] {
    } else {
      TerminalsAreVisits(g, visits[..|visits| - 1]);
    }
  }
}
