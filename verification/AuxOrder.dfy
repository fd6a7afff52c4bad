/** The order in which generated members are written: every prerequisite first. */
module AuxOrder {
  import opened Ir
  import opened LoweringState
  import opened PolyLowering

  /** Every value the value `x` is built from, itself included. */
  ghost function Reach(ops: map<Id, Op>, order: seq<Id>, x: Id): set<Id>
    requires WellFormed(ops, order) && x in ops && ops[x].IsValue()
    decreases Pos(order, x)
  {
    match ops[x]
    case Bin(_, l, r) =>
      assert UsesBefore(ops, order, x, l) && UsesBefore(ops, order, x, r);
      {x} + Reach(ops, order, l) + Reach(ops, order, r)
    case Neg(y) =>
      assert UsesBefore(ops, order, x, y);
      {x} + Reach(ops, order, y)
    case _ => {x}
  }

  /** The generated members that must be written before member `idx` can be computed. */
  ghost function AuxDeps(c: Config, s: State, idx: nat): set<nat>
    requires Inv(c, s) && idx < |s.aux|
  {
    assert AuxEntryOk(c, s, idx);
    set k | 0 <= k < |s.aux| && k != idx && s.aux[k].auxValue in Reach(s.ops, s.order, s.aux[idx].computed)
  }

  ghost function Rank(c: Config, s: State, idx: nat): nat
    requires Inv(c, s) && idx < |s.aux|
  {
    assert AuxEntryOk(c, s, idx);
    Size(s.tree[s.aux[idx].computed])
  }

  lemma {:induction false} ReachShrinks(c: Config, s: State, x: Id, y: Id)
    requires Inv(c, s) && x in s.ops && s.ops[x].IsValue() && y in Reach(s.ops, s.order, x)
    ensures y in s.ops && s.ops[y].IsValue() && y in s.tree && x in s.tree
    ensures (y == x || Size(s.tree[y]) < Size(s.tree[x]))
    decreases Pos(s.order, x)
  {
    OperandFacts(c, s, x);
    match s.ops[x] {
      case Bin(_, l, r) =>
        assert l in Operands(s.ops[x]) && r in Operands(s.ops[x]);
        hide Inv;
        OperandFacts(c, s, l);
        OperandFacts(c, s, r);
        if y in Reach(s.ops, s.order, l) { ReachShrinks(c, s, l, y); }
        if y in Reach(s.ops, s.order, r) { ReachShrinks(c, s, r, y); }
      case Neg(z) =>
        assert z in Operands(s.ops[x]);
        hide Inv;
        OperandFacts(c, s, z);
        if y in Reach(s.ops, s.order, z) { ReachShrinks(c, s, z, y); }
      case _ =>
    }
  }

  /** The dependencies between generated members have no cycle: each leads to a smaller source expression. */
  lemma DependenciesDescend(c: Config, s: State, idx: nat, dep: nat)
    requires Inv(c, s) && idx < |s.aux| && dep in AuxDeps(c, s, idx)
    ensures dep < |s.aux| && Rank(c, s, dep) < Rank(c, s, idx)
  {
    assert AuxEntryOk(c, s, idx) && AuxEntryOk(c, s, dep);
    ReachShrinks(c, s, s.aux[idx].computed, s.aux[dep].auxValue);
  }

  // ---------- collecting dependencies ----------

  /** The two lookup tables of the ordering, value to index and name to index. */
  ghost predicate Tables(c: Config, s: State, byValue: map<Id, nat>, byName: map<nat, nat>) {
    && (forall x :: x in byValue ==> byValue[x] < |s.aux| && s.aux[byValue[x]].auxValue == x)
    && (forall k :: 0 <= k < |s.aux| ==> s.aux[k].auxValue in byValue && byValue[s.aux[k].auxValue] == k)
    && (forall n :: n in byName <==> c.base <= n < c.base + |s.aux|)
    && (forall n :: n in byName ==> byName[n] == n - c.base)
  }

  /** The generated members among the values of `vs`, other than `owner`. */
  ghost function AuxIn(s: State, vs: set<Id>, owner: nat): set<nat> {
    set k | 0 <= k < |s.aux| && k != owner && s.aux[k].auxValue in vs
  }

  method AddAuxDependency(dep: nat, owner: nat, deps: seq<nat>) returns (deps': seq<nat>)
    ensures forall d :: d in deps' <==> d in deps || (d == dep && d != owner)
    ensures NoDup(deps) ==> NoDup(deps')
  {
    if dep == owner || dep in deps {
      return deps;
    }
    deps' := deps + [dep];
    assert forall i :: 0 <= i < |deps| ==> deps'[i] == deps[i];
    assert NoDup(deps) ==> NoDup(deps') by {
      if NoDup(deps) {
        forall i | 0 <= i < |deps'| ensures Pos(deps', deps'[i]) == i {
          var j := Pos(deps', deps'[i]);
          if i < |deps| && j < |deps| { assert deps[i] == deps[j]; }
        }
      }
    }
  }

  /** Everything in `vs` brings its operands along. */
  ghost predicate Closed(ops: map<Id, Op>, vs: set<Id>, within: set<Id>) {
    forall n :: n in vs && n in ops ==> forall y :: y in Operands(ops[n]) ==> y in within
  }

  method CollectAuxDependencies(ops: map<Id, Op>, val: Id, owner: nat, byValue: map<Id, nat>, byName: map<nat, nat>,
                                visited: set<Id>, deps: seq<nat>, ghost c: Config, ghost s: State)
    returns (visited': set<Id>, deps': seq<nat>)
    requires Inv(c, s) && s.ops == ops && val in ops && ops[val].IsValue() && Tables(c, s, byValue, byName)
    ensures visited <= visited' <= visited + Reach(ops, s.order, val) && val in visited'
    ensures Closed(ops, visited' - visited, visited')
    ensures forall d :: d in deps' <==> d in deps || d in AuxIn(s, visited' - visited, owner)
    decreases Pos(s.order, val)
  {
    OperandFacts(c, s, val);
    if val in visited {
      return visited, deps;
    }
    visited', deps' := visited + {val}, deps;
    if val in byValue {
      deps' := AddAuxDependency(byValue[val], owner, deps');
    }
    if ops[val].Leaf? && IsAux(ops[val].src) && ops[val].src.name.k in byName {
      deps' := AddAuxDependency(byName[ops[val].src.name.k], owner, deps');
    }
    assert forall d :: d in deps' <==> d in deps || d in AuxIn(s, {val}, owner);
    var operands := Operands(ops[val]);
    var i := 0;
    while i < |operands|
      invariant 0 <= i <= |operands|
      invariant visited + {val} <= visited' <= visited + Reach(ops, s.order, val)
      invariant forall j :: 0 <= j < i ==> operands[j] in visited'
      invariant Closed(ops, visited' - visited - {val}, visited')
      invariant forall d :: d in deps' <==> d in deps || d in AuxIn(s, visited' - visited, owner)
    {
      assert operands[i] in Operands(ops[val]);
      ghost var before := visited';
      visited', deps' := CollectAuxDependencies(ops, operands[i], owner, byValue, byName, visited', deps', c, s);
      i := i + 1;
    }
  }

  lemma {:induction false} ClosedReach(ops: map<Id, Op>, order: seq<Id>, x: Id, vs: set<Id>)
    requires WellFormed(ops, order) && x in ops && ops[x].IsValue() && x in vs && Closed(ops, vs, vs)
    ensures Reach(ops, order, x) <= vs
    decreases Pos(order, x)
  {
    match ops[x] {
      case Bin(_, l, r) =>
        assert l in Operands(ops[x]) && r in Operands(ops[x]);
        assert UsesBefore(ops, order, x, l) && UsesBefore(ops, order, x, r);
        ClosedReach(ops, order, l, vs);
        ClosedReach(ops, order, r, vs);
      case Neg(y) =>
        assert y in Operands(ops[x]);
        assert UsesBefore(ops, order, x, y);
        ClosedReach(ops, order, y, vs);
      case _ =>
    }
  }

  // ---------- the write order ----------

  datatype VisitState = Unvisited | Visiting | Done

  /** `ordered` lists members without repetition, each behind everything it depends on. */
  ghost predicate Topological(deps: seq<seq<nat>>, ordered: seq<nat>) {
    && NoDup(ordered)
    && (forall i :: i in ordered ==> i < |deps|)
    && (forall i, d :: i in ordered && d in deps[i] ==> d in ordered && Pos(ordered, d) < Pos(ordered, i))
  }

  /** The members done so far are exactly those in `ordered`. */
  ghost predicate Consistent(deps: seq<seq<nat>>, states: seq<VisitState>, ordered: seq<nat>) {
    && |states| == |deps| && Topological(deps, ordered)
    && (forall i :: 0 <= i < |deps| ==> (states[i] == Done <==> i in ordered))
  }

  lemma TopologicalAppend(deps: seq<seq<nat>>, ordered: seq<nat>, idx: nat)
    requires Topological(deps, ordered) && idx < |deps| && idx !in ordered
    requires forall d :: d in deps[idx] ==> d in ordered
    ensures Topological(deps, ordered + [idx])
  {
    var o := ordered + [idx];
    forall i | 0 <= i < |o| ensures Pos(o, o[i]) == i {
      var j := Pos(o, o[i]);
      if i < |ordered| && j < |ordered| { assert ordered[i] == ordered[j]; }
    }
    assert forall x :: x in ordered ==> o[Pos(ordered, x)] == x;
    assert o[|ordered|] == idx;
  }

  ghost predicate Descends(deps: seq<seq<nat>>, rank: seq<nat>) {
    |rank| == |deps| && forall i: nat, d: nat :: i < |deps| && d in deps[i] ==> d < |deps| && rank[d] < rank[i]
  }

  /** Depth-first visit; the cycle error is never reported when `rank` falls along dependencies. */
  method VisitAuxAssignment(idx: nat, deps: seq<seq<nat>>, states: seq<VisitState>, ordered: seq<nat>,
          ghost rank: seq<nat>)
    returns (ok: bool, states': seq<VisitState>, ordered': seq<nat>)
    requires idx < |deps| && Consistent(deps, states, ordered)
    requires Descends(deps, rank) && forall i :: 0 <= i < |deps| && states[i] == Visiting ==> rank[i] > rank[idx]
    ensures ok && Consistent(deps, states', ordered') && idx in ordered'
    ensures forall i :: i in ordered ==> i in ordered'
    ensures forall i :: 0 <= i < |deps| ==> (states'[i] == Visiting <==> states[i] == Visiting)
    decreases rank[idx]
  {
    if states[idx] == Done {
      return true, states, ordered;
    }
    if states[idx] == Visiting {
      return false, states, ordered;
    }
    states' := states[idx := Visiting];
    ordered' := ordered;
    var j := 0;
    while j < |deps[idx]|
      invariant 0 <= j <= |deps[idx]| && Consistent(deps, states', ordered')
      invariant forall i :: i in ordered ==> i in ordered'
      invariant forall k :: 0 <= k < j ==> deps[idx][k] in ordered'
      invariant forall i :: 0 <= i < |deps| ==> (states'[i] == Visiting <==> states[i] == Visiting || i == idx)
    {
      assert deps[idx][j] in deps[idx];
      ok, states', ordered' := VisitAuxAssignment(deps[idx][j], deps, states', ordered', rank);
      j := j + 1;
    }
    assert idx !in ordered';
    TopologicalAppend(deps, ordered', idx);
    states' := states'[idx := Done];
    ordered' := ordered' + [idx];
    ok := true;
  }

  /** Every generated member exactly once, each behind all the members its value is built from. */
  ghost predicate WriteOrder(c: Config, s: State, ordered: seq<nat>)
    requires Inv(c, s)
  {
    && NoDup(ordered)
    && (forall i :: i in ordered <==> 0 <= i < |s.aux|)
    && (forall i, d :: i in ordered && d in AuxDeps(c, s, i) ==> d in ordered && Pos(ordered, d) < Pos(ordered, i))
  }

  /** Look-up tables from a generated read, and from a name, to the assignment. */
  method AuxTables(aux: seq<AuxAssignment>, ghost c: Config, ghost s: State)
    returns (byValue: map<Id, nat>, byName: map<nat, nat>)
    requires Inv(c, s) && s.aux == aux
    ensures Tables(c, s, byValue, byName)
  {
    hide Inv, AuxEntryOk;
    byValue, byName := map[], map[];
    var i := 0;
    while i < |aux|
      invariant 0 <= i <= |aux|
      invariant forall x :: x in byValue ==> byValue[x] < i && aux[byValue[x]].auxValue == x
      invariant forall k :: 0 <= k < i ==> aux[k].auxValue in byValue && byValue[aux[k].auxValue] == k
      invariant forall n :: n in byName <==> c.base <= n < c.base + i
      invariant forall n :: n in byName ==> byName[n] == n - c.base
    {
      AuxNameIs(c, s, i);
      DistinctValues(c, s, i);
      byValue := byValue[aux[i].auxValue := i];
      byName := byName[aux[i].name := i];
      i := i + 1;
    }
  }

  lemma AuxNameIs(c: Config, s: State, k: nat)
    requires Inv(c, s) && k < |s.aux|
    ensures s.aux[k].name == c.base + k && s.aux[k].computed in s.ops && s.ops[s.aux[k].computed].IsValue()
  {
    assert AuxEntryOk(c, s, k);
  }

  /** What each assignment has to wait for. */
  method AllDependencies(ops: map<Id, Op>, aux: seq<AuxAssignment>, byValue: map<Id, nat>, byName: map<nat, nat>,
          ghost c: Config, ghost s: State)
    returns (deps: seq<seq<nat>>)
    requires Inv(c, s) && s.ops == ops && s.aux == aux && Tables(c, s, byValue, byName)
    ensures |deps| == |aux| && forall k: nat, d: nat :: k < |deps| ==> (d in deps[k] <==> d in AuxDeps(c, s, k))
  {
    hide Inv, Tables, AuxDeps;
    deps := [];
    var i := 0;
    while i < |aux|
      invariant 0 <= i <= |aux| && |deps| == i
      invariant forall k: nat, d: nat :: k < i ==> (d in deps[k] <==> d in AuxDeps(c, s, k))
    {
      AuxNameIs(c, s, i);
      var visited, ds := CollectAuxDependencies(ops, aux[i].computed, i, byValue, byName, {}, [], c, s);
      CollectedAll(c, s, i, visited);
      AuxDepsIs(c, s, i);
      deps := deps + [ds];
      i := i + 1;
    }
  }

  method OrderAuxAssignments(ops: map<Id, Op>, aux: seq<AuxAssignment>, ghost c: Config, ghost s: State)
    returns (ok: bool, ordered: seq<nat>)
    requires Inv(c, s) && s.ops == ops && s.aux == aux
    ensures ok && WriteOrder(c, s, ordered)
  {
    hide Inv, Tables, AuxDeps, Rank;
    var byValue, byName := AuxTables(aux, c, s);
    var deps := AllDependencies(ops, aux, byValue, byName, c, s);
    ghost var rank: seq<nat> := seq(|s.aux|, k requires 0 <= k < |s.aux| => Rank(c, s, k));
    DepsDescend(c, s, deps, rank);
    var states := seq(|aux|, _ => Unvisited);
    ok, ordered := true, [];
    var i := 0;
    while i < |aux|
      invariant 0 <= i <= |aux| && ok && Consistent(deps, states, ordered)
      invariant forall k :: 0 <= k < |deps| ==> states[k] != Visiting
      invariant forall k :: 0 <= k < i ==> k in ordered
    {
      ok, states, ordered := VisitAuxAssignment(i, deps, states, ordered, rank);
      if !ok {
        return;
      }
      i := i + 1;
    }
  }

  lemma DepsDescend(c: Config, s: State, deps: seq<seq<nat>>, rank: seq<nat>)
    requires Inv(c, s) && |deps| == |rank| == |s.aux| && forall k :: 0 <= k < |rank| ==> rank[k] == Rank(c, s, k)
    requires forall k: nat, d: nat :: k < |deps| ==> (d in deps[k] <==> d in AuxDeps(c, s, k))
    ensures Descends(deps, rank)
  {
    hide Inv, AuxDeps, Rank;
    forall k: nat, d: nat {:trigger d in deps[k]}
      ensures k < |deps| && d in deps[k] ==> d < |deps| && rank[d] < rank[k]
    {
      if k < |deps| && d in deps[k] {
        DependenciesDescend(c, s, k, d);
      }
    }
  }

  lemma AuxDepsIs(c: Config, s: State, k: nat)
    requires Inv(c, s) && k < |s.aux|
    ensures s.aux[k].computed in s.ops && s.ops[s.aux[k].computed].IsValue() && WellFormed(s.ops, s.order)
    ensures forall d ::
        d in AuxDeps(c, s, k) <==>
        0 <= d < |s.aux| && d != k && s.aux[d].auxValue in Reach(s.ops, s.order, s.aux[k].computed)
  {
    AuxNameIs(c, s, k);
  }

  lemma DistinctValues(c: Config, s: State, i: nat)
    requires Inv(c, s) && i < |s.aux|
    ensures forall k :: 0 <= k < |s.aux| && k != i ==> s.aux[k].auxValue != s.aux[i].auxValue
  {
    assert AuxEntryOk(c, s, i);
    forall k | 0 <= k < |s.aux| && k != i ensures s.aux[k].auxValue != s.aux[i].auxValue {
      assert AuxEntryOk(c, s, k);
    }
  }

  /** A full visit from the value of member `i` has collected exactly its dependencies. */
  lemma CollectedAll(c: Config, s: State, i: nat, visited: set<Id>)
    requires Inv(c, s) && i < |s.aux| && s.aux[i].computed in s.ops && s.ops[s.aux[i].computed].IsValue()
    requires visited <= Reach(s.ops, s.order, s.aux[i].computed) && s.aux[i].computed in visited
    requires Closed(s.ops, visited, visited)
    ensures AuxIn(s, visited, i) == AuxDeps(c, s, i)
  {
    ClosedReach(s.ops, s.order, s.aux[i].computed, visited);
  }
}
