/** Duplicate elimination over a whole module, from the bottom of the call graph up: calls to functions that
    have become purposeless disappear, and every function keeps its meaning. */
module DupModule {
  import opened DupIr
  import opened DupElim
  import opened DupSound
  import opened DupRewrite
  import opened DupSteps
  import opened DupFound
  import opened DupPass

  /** What a function does: whether its constraints hold, the memory it leaves, the values it returns. */
  ghost function Meaning(w: World, fns: seq<Fn>, f: nat, vals: seq<int>, mem: int, it: seq<nat>): (bool, int, seq<int>)
    requires f < |fns|
  {
    var m := ExecBlock(w, fns, fns[f].rank, fns[f].body,
        Machine(Bind((v: Id) => 0, fns[f].params, At(vals)), mem, true, it));
    (m.acc, m.mem, Vals(m.env, fns[f].rets))
  }

  ghost predicate SameCall(w: World, fns: seq<Fn>, fns': seq<Fn>, bound: nat, f: nat, vals: seq<int>, mem: int,
          it: seq<nat>)
  {
    var r, r' := CallFn(w, fns, bound, f, vals, mem, it), CallFn(w, fns', bound, f, vals, mem, it);
    r'.acc == r.acc && r'.mem == r.mem
  }

  /** Calls to functions below `bound` do the same in both modules. */
  ghost predicate SameCalls(w: World, fns: seq<Fn>, fns': seq<Fn>, bound: nat) {
    forall f, vals, mem, it :: SameCall(w, fns, fns', bound, f, vals, mem, it)
  }

  lemma {:induction false} StmtSame(w: World, fns: seq<Fn>, fns': seq<Fn>, bound: nat, s: Stmt, m: Machine)
    requires SameCalls(w, fns, fns', bound)
    ensures Exec(w, fns', bound, s, m) == Exec(w, fns, bound, s, m)
    decreases StmtSize(s), 0
  {
    match s {
      case Do(op) =>
        if op.kind.CallK? {
          assert SameCall(w, fns, fns', bound, op.kind.callee, Vals(m.env, op.operands), m.mem, m.it + [op.id]);
        }
      case If(cond, thenB, _, elseB, _, _) =>
        if m.env(cond) != 0 {
          BlockSame(w, fns, fns', bound, thenB, m);
        } else {
          BlockSame(w, fns, fns', bound, elseB, m);
        }
      case For(bounds, _, _, _, _, _, _) => LoopSame(w, fns, fns', bound, s, w.trips(Vals(m.env, bounds)), m);
    }
  }

  lemma {:induction false} BlockSame(w: World, fns: seq<Fn>, fns': seq<Fn>, bound: nat, b: Block, m: Machine)
    requires SameCalls(w, fns, fns', bound)
    ensures ExecBlock(w, fns', bound, b, m) == ExecBlock(w, fns, bound, b, m)
    decreases Size(b), 0
  {
    if b.Nil? {
    } else {
      StmtSame(w, fns, fns', bound, b.head, m);
      BlockSame(w, fns, fns', bound, b.tail, Exec(w, fns, bound, b.head, m));
    }
  }

  lemma {:induction false} LoopSame(w: World, fns: seq<Fn>, fns': seq<Fn>, bound: nat, s: Stmt, n: nat, m: Machine)
    requires s.For? && SameCalls(w, fns, fns', bound)
    ensures ExecLoop(w, fns', bound, s, n, m) == ExecLoop(w, fns, bound, s, n, m)
    decreases StmtSize(s) - 1, 1, n
  {
    if n == 0 {
    } else {
      LoopSame(w, fns, fns', bound, s, n - 1, m);
      BlockSame(w, fns, fns', bound, s.body, IterStart(w, s, n - 1, m, ExecLoop(w, fns, bound, s, n - 1, m)));
    }
  }

  /** `f` was replaced by a function that, among the others, does the same. */
  ghost predicate Swapped(w: World, fns: seq<Fn>, fns': seq<Fn>, f: nat) {
    && f < |fns| == |fns'| && fns' == fns[f := fns'[f]] && fns'[f].rank == fns[f].rank
    && fns'[f].params == fns[f].params
    && forall vals, mem, it :: SameRun(w, fns, fns[f], fns'[f], vals, mem, it)
  }

  lemma {:induction false} SwapCalls(w: World, fns: seq<Fn>, fns': seq<Fn>, f: nat, bound: nat)
    requires Swapped(w, fns, fns', f)
    ensures SameCalls(w, fns, fns', bound)
    decreases bound
  {
    forall g: nat, vals, mem, it ensures SameCall(w, fns, fns', bound, g, vals, mem, it) {
      if g < |fns| && fns[g].rank < bound {
        var start := Machine(Bind((v: Id) => 0, fns[g].params, At(vals)), mem, true, it);
        SwapCalls(w, fns, fns', f, fns[g].rank);
        BlockSame(w, fns, fns', fns[g].rank, fns'[g].body, start);
        if g == f { assert SameRun(w, fns, fns[f], fns'[f], vals, mem, it); }
      }
    }
  }

  lemma SwapMeaning(w: World, fns: seq<Fn>, fns': seq<Fn>, f: nat, g: nat, vals: seq<int>, mem: int, it: seq<nat>)
    requires Swapped(w, fns, fns', f) && g < |fns|
    ensures Meaning(w, fns', g, vals, mem, it) == Meaning(w, fns, g, vals, mem, it)
  {
    var start := Machine(Bind((v: Id) => 0, fns[g].params, At(vals)), mem, true, it);
    SwapCalls(w, fns, fns', f, fns[g].rank);
    BlockSame(w, fns, fns', fns[g].rank, fns'[g].body, start);
    if g == f { assert SameRun(w, fns, fns[f], fns'[f], vals, mem, it); }
  }

  /** Every function of the module means what it meant. */
  ghost predicate SameModule(w: World, fns: seq<Fn>, fns': seq<Fn>) {
    |fns'| == |fns| && forall f, vals, mem, it ::
      0 <= f < |fns| ==> Meaning(w, fns', f, vals, mem, it) == Meaning(w, fns, f, vals, mem, it)
  }

  lemma ModuleStep(w: World, fns: seq<Fn>, before: seq<Fn>, after: seq<Fn>, f: nat)
    requires SameModule(w, fns, before) && Swapped(w, before, after, f)
    ensures SameModule(w, fns, after)
  {
    forall g, vals, mem, it | 0 <= g < |fns|
      ensures Meaning(w, after, g, vals, mem, it) == Meaning(w, fns, g, vals, mem, it)
    {
      SwapMeaning(w, before, after, f, g, vals, mem, it);
    }
  }

  // ---------- nothing redundant is left ----------

  /** `fn` without its unnecessary operations and duplicates, as the functions stood in `fns`. */
  ghost predicate Eliminated(fns: seq<Fn>, comm: set<nat>, fn: Fn, fn': Fn) {
    fn'.rank == fn.rank && exists map_, gone ::
      fn'.body == Rewrite(fn.body, map_, gone) && AllRedundantGone(fns, comm, fn, map_, gone)
  }

  ghost predicate WasEliminated(fns: seq<Fn>, comm: set<nat>, fn: Fn, fn': Fn) {
    exists before :: |before| == |fns| && Eliminated(before, comm, fn, fn')
  }

  /** What is still called was called before and has a purpose. */
  lemma CallsLeft(fns: seq<Fn>, comm: set<nat>, fn: Fn, fn': Fn, op: Op)
    requires Eliminated(fns, comm, fn, fn') && op in Walked(fn'.body) && op.kind.CallK?
    ensures !Purposeless(fns, fn.rank, op.kind.callee)
    ensures exists o :: o in Walked(fn.body) && o.kind == op.kind
  {
    var map_, gone :| fn'.body == Rewrite(fn.body, map_, gone) && AllRedundantGone(fns, comm, fn, map_, gone);
    GoneFromCode(fn.body, map_, gone);
    WalkedOps(fn.body);
    var o :| o in OpsIn(fn.body) && op == o.(operands := TranslateAll(map_, o.operands));
    assert o in Walked(fn.body) && o.id !in gone;
  }

  /** The functions called from the set are in it, or not there at all. */
  ghost predicate Closed(fns: seq<Fn>, s: set<nat>) {
    forall f: nat, g: nat :: f in s && CallsFn(fns, f, g) ==> g in s || g >= |fns|
  }

  /** Whether a function has a purpose depends on what it reaches. */
  lemma {:induction false} PurposeSame(fns: seq<Fn>, fns': seq<Fn>, bound: nat, g: nat, s: set<nat>)
    requires |fns'| == |fns| && Closed(fns, s) && (g in s || g >= |fns|)
    requires forall f :: f in s && f < |fns| ==> fns'[f] == fns[f]
    ensures Purposeless(fns', bound, g) == Purposeless(fns, bound, g)
    decreases bound
  {
    if g < |fns| && fns[g].rank < bound {
      var rank, body := fns[g].rank, fns[g].body;
      BlockPurposelessIs(fns, rank, body);
      BlockPurposelessIs(fns', rank, body);
      forall op | op in Walked(body) && op.kind.CallK?
        ensures Purposeless(fns', rank, op.kind.callee) == Purposeless(fns, rank, op.kind.callee)
      {
        assert CallsFn(fns, g, op.kind.callee);
        PurposeSame(fns, fns', rank, op.kind.callee, s);
      }
    }
  }

  function Upto(order: seq<nat>, i: nat): set<nat>
    requires i <= |order|
  {
    set j | 0 <= j < i :: order[j]
  }

  /** Callees come before their callers. */
  ghost predicate BottomUp(fns: seq<Fn>, order: seq<nat>) {
    forall j: nat, g: nat :: j < |order| && CallsFn(fns, order[j], g) ==> g in Upto(order, j) || g >= |fns|
  }

  /** No function of the set calls one without purpose. */
  ghost predicate AllPurposeful(fns: seq<Fn>, s: set<nat>) {
    forall f, g :: f in s && CallsFn(fns, f, g) ==> !Purposeless(fns, fns[f].rank, g)
  }

  /** The calls there are now were there at the start. */
  ghost predicate FewerCalls(fns: seq<Fn>, fns': seq<Fn>) {
    |fns'| == |fns| && forall f, g :: CallsFn(fns', f, g) ==> CallsFn(fns, f, g)
  }

  /** One more function done. */
  lemma PurposefulStep(fns: seq<Fn>, before: seq<Fn>, after: seq<Fn>, comm: set<nat>, order: seq<nat>, i: nat)
    requires FewerCalls(fns, before) && BottomUp(fns, order) && AllDistinct(order) && i < |order| && order[i] < |fns|
    requires AllPurposeful(before, Upto(order, i)) && |after| == |before|
    requires after == before[order[i] := after[order[i]]]
    requires Eliminated(before, comm, before[order[i]], after[order[i]])
    ensures FewerCalls(fns, after) && AllPurposeful(after, Upto(order, i + 1))
  {
    hide Eliminated, Purposeless;
    var f0, s := order[i], Upto(order, i);
    StillFewer(fns, before, after, comm, f0);
    assert f0 !in s;
    assert Closed(before, s) by { DoneClosed(fns, before, order, i); }
    forall f, g | f in Upto(order, i + 1) && CallsFn(after, f, g)
      ensures !Purposeless(after, after[f].rank, g)
    {
      if f == f0 {
        var op :| op in Walked(after[f0].body) && op.kind == CallK(g);
        CallsLeft(before, comm, before[f0], after[f0], op);
        assert CallsFn(fns, f0, g);
        assert after[f0].rank == before[f0].rank by { SameRank(before, comm, before[f0], after[f0]); }
      } else {
        assert f in s && after[f] == before[f];
        assert CallsFn(before, f, g);
      }
      PurposeSame(before, after, after[f].rank, g, s);
    }
  }

  lemma SameRank(fns: seq<Fn>, comm: set<nat>, fn: Fn, fn': Fn)
    requires Eliminated(fns, comm, fn, fn')
    ensures fn'.rank == fn.rank
  {}

  lemma DoneClosed(fns: seq<Fn>, before: seq<Fn>, order: seq<nat>, i: nat)
    requires FewerCalls(fns, before) && BottomUp(fns, order) && i <= |order|
    ensures Closed(before, Upto(order, i))
  {
    forall f: nat, g: nat | f in Upto(order, i) && CallsFn(before, f, g) ensures g in Upto(order, i) || g >= |before| {
      var j :| 0 <= j < i && order[j] == f;
      assert CallsFn(fns, order[j], g);
    }
  }

  lemma StillFewer(fns: seq<Fn>, before: seq<Fn>, after: seq<Fn>, comm: set<nat>, f0: nat)
    requires FewerCalls(fns, before) && f0 < |before| == |after| && after == before[f0 := after[f0]]
    requires Eliminated(before, comm, before[f0], after[f0])
    ensures FewerCalls(fns, after)
  {
    forall f, g | CallsFn(after, f, g) ensures CallsFn(fns, f, g) {
      if f == f0 {
        var op :| op in Walked(after[f0].body) && op.kind == CallK(g);
        CallsLeft(before, comm, before[f0], after[f0], op);
        assert CallsFn(before, f0, g);
      } else {
        assert CallsFn(before, f, g);
      }
    }
  }

  /** Functions in the order of the call graph's nodes, each once. Whatever the order and the recursion-free call
      graph, every function keeps its constraints, memory and returned values. Of every function all that is redundant
      is gone, and with callees before callers no call to a purposeless function is left. */
  method RunOnModule(fns: seq<Fn>, comm: set<nat>, order: seq<nat>) returns (result: seq<Fn>)
    requires (forall f :: 0 <= f < |fns| ==> FnOk(fns[f])) && AllDistinct(order)
    requires forall i :: 0 <= i < |order| ==> order[i] < |fns|
    ensures forall w :: Commutes(w, comm) ==> SameModule(w, fns, result)
    ensures |result| == |fns| && forall f :: f in Upto(order, |order|) ==> WasEliminated(fns, comm, fns[f], result[f])
    ensures BottomUp(fns, order) ==> AllPurposeful(result, Upto(order, |order|))
  {
    result := fns;
    var i := 0;
    assert FewerCalls(fns, fns);
    while i < |order|
      invariant i <= |order| && |result| == |fns|
      invariant forall f :: 0 <= f < |fns| && f !in Upto(order, i) ==> result[f] == fns[f]
      invariant forall w :: Commutes(w, comm) ==> SameModule(w, fns, result)
      invariant forall f :: f in Upto(order, i) ==> WasEliminated(fns, comm, fns[f], result[f])
      invariant BottomUp(fns, order) ==> FewerCalls(fns, result) && AllPurposeful(result, Upto(order, i))
    {
      hide SameModule, Commutes, SameRun, FnOk, WalkDone, GoneOk, NoneMissed, Clean, Rewrite, AllRedundantGone, Walked;
      hide BottomUp, FewerCalls, AllPurposeful, Unnecessary, Duplicate;
      var f := order[i];
      assert f !in Upto(order, i);
      assert result[f] == fns[f];
      var elimination := new Elimination(result, comm, result[f]);
      var rewritten := elimination.RunOnFunc();
      ghost var before := result;
      result := result[f := rewritten];
      assert Eliminated(before, comm, before[f], rewritten);
      forall w | Commutes(w, comm) ensures SameModule(w, fns, result) {
        ModuleStep(w, fns, before, result, f);
      }
      if BottomUp(fns, order) { PurposefulStep(fns, before, result, comm, order, i); }
      assert Upto(order, i + 1) == Upto(order, i) + {f};
      assert WasEliminated(fns, comm, fns[f], rewritten);
      i := i + 1;
    }
  }
}
