/** The rewritten function: redundant and dead operations left out, their results replaced. It accepts the
    same assignments, leaves the same memory and returns the same values. */
module DupRewrite {
  import opened DupIr
  import opened DupElim
  import opened DupSound

  function RewriteStmt(s: Stmt, map_: map<Id, Id>, gone: set<nat>): Stmt
    decreases StmtSize(s)
  {
    match s
    case Do(op) => Do(op.(operands := TranslateAll(map_, op.operands)))
    case If(cond, thenB, thenYields, elseB, elseYields, results) =>
      If(Translate(map_, cond), Rewrite(thenB, map_, gone), TranslateAll(map_, thenYields), Rewrite(elseB, map_, gone),
        TranslateAll(map_, elseYields), results)
    case For(bounds, inits, iv, args, body, carry, results) =>
      For(TranslateAll(map_, bounds), TranslateAll(map_, inits), iv, args, Rewrite(body, map_, gone),
        TranslateAll(map_, carry), results)
  }

  function Rewrite(b: Block, map_: map<Id, Id>, gone: set<nat>): Block
    decreases Size(b)
  {
    if b.Nil? then Nil
    else if b.head.Do? && b.head.op.id in gone then Rewrite(b.tail, map_, gone)
    else Cons(RewriteStmt(b.head, map_, gone), Rewrite(b.tail, map_, gone))
  }

  // ---------- what makes leaving operations out possible ----------

  predicate EffectFree(op: Op) { op.kind.PureK? || op.kind.NonDetK? || op.kind.ReadK? }

  /** None of `ids` names a lost value once translated. */
  predicate Available(map_: map<Id, Id>, lost: set<Id>, ids: seq<Id>) {
    forall k :: 0 <= k < |ids| ==> Translate(map_, ids[k]) !in lost
  }

  /** Operations left out are redundant or have no effects, their results are lost, and nothing left uses a lost
      value; only results of redundant operations are replaced. */
  ghost predicate OkStmt(s: Stmt, map_: map<Id, Id>, redundant: set<nat>, gone: set<nat>, lost: set<Id>)
    decreases StmtSize(s)
  {
    match s
    case Do(op) =>
      && (op.id in redundant ==> op.id in gone)
      && (op.id in gone ==> Elements(op.results) <= lost && (op.id in redundant || EffectFree(op)))
      && (op.id !in gone ==> Available(map_, lost, op.operands))
      && (op.id !in redundant ==> Elements(op.results) !! map_.Keys)
    case If(cond, thenB, thenYields, elseB, elseYields, results) =>
      && Translate(map_, cond) !in lost && Available(map_, lost, thenYields) && Available(map_, lost, elseYields)
      && Ok(thenB, map_, redundant, gone, lost) && Ok(elseB, map_, redundant, gone, lost) &&
        Elements(results) !! map_.Keys
    case For(bounds, inits, iv, args, body, carry, results) =>
      && Available(map_, lost, bounds) && Available(map_, lost, inits) && Available(map_, lost, carry)
      && Ok(body, map_, redundant, gone, lost) && Elements(results) + {iv} + Elements(args) !! map_.Keys
  }

  ghost predicate Ok(b: Block, map_: map<Id, Id>, redundant: set<nat>, gone: set<nat>, lost: set<Id>)
    decreases Size(b)
  {
    b.Cons? ==> OkStmt(b.head, map_, redundant, gone, lost) && Ok(b.tail, map_, redundant, gone, lost)
  }

  /** The original machine and the rewritten one. */
  ghost predicate Rel(map_: map<Id, Id>, lost: set<Id>, v: set<Id>, m: Machine, m2: Machine) {
    && MapTrue(map_, v, m) && (forall x :: x in v && x !in lost ==> m2.env(x) == m.env(x))
    && m2.mem == m.mem && m2.acc == m.acc && m2.it == m.it
  }

  lemma AvailableVals(map_: map<Id, Id>, lost: set<Id>, v: set<Id>, m: Machine, m2: Machine, ids: seq<Id>)
    requires Rel(map_, lost, v, m, m2) && Available(map_, lost, ids) && Elements(ids) <= v
    ensures Vals(m2.env, TranslateAll(map_, ids)) == Vals(m.env, ids)
  {
    forall k | 0 <= k < |ids| ensures m2.env(TranslateAll(map_, ids)[k]) == m.env(ids[k]) {
      assert ids[k] in Elements(ids);
    }
  }

  // ---------- nothing outside is assigned ----------

  lemma {:induction false} StmtFrame(w: World, fns: seq<Fn>, bound: nat, s: Stmt, m: Machine)
    ensures forall x :: x !in Defs(s) ==> Exec(w, fns, bound, s, m).env(x) == m.env(x)
    decreases StmtSize(s), 0
  {
    match s {
      case Do(op) => assert forall x :: x in op.results ==> x in Elements(op.results);
      case If(cond, thenB, _, elseB, _, results) =>
        assert forall x :: x in results ==> x in Elements(results);
        if m.env(cond) != 0 { BlockFrame(w, fns, bound, thenB, m); } else { BlockFrame(w, fns, bound, elseB, m); }
      case For(bounds, _, _, _, _, _, results) =>
        assert forall x :: x in results ==> x in Elements(results);
        LoopFrame(w, fns, bound, s, w.trips(Vals(m.env, bounds)), m);
    }
  }

  lemma {:induction false} BlockFrame(w: World, fns: seq<Fn>, bound: nat, b: Block, m: Machine)
    ensures forall x :: x !in BlockDefs(b) ==> ExecBlock(w, fns, bound, b, m).env(x) == m.env(x)
    decreases Size(b), 0
  {
    if b.Nil? {
    } else {
      StmtFrame(w, fns, bound, b.head, m);
      BlockFrame(w, fns, bound, b.tail, Exec(w, fns, bound, b.head, m));
    }
  }

  lemma {:induction false} LoopFrame(w: World, fns: seq<Fn>, bound: nat, s: Stmt, n: nat, m: Machine)
    requires s.For?
    ensures forall x :: x !in Defs(s) ==> ExecLoop(w, fns, bound, s, n, m).env(x) == m.env(x)
    decreases StmtSize(s) - 1, 1, n
  {
    hide BlockDefs, ExecBlock;
    if n == 0 {
    } else {
      LoopFrame(w, fns, bound, s, n - 1, m);
      assert forall x :: x in s.args ==> x in Elements(s.args);
      BlockFrame(w, fns, bound, s.body, IterStart(w, s, n - 1, m, ExecLoop(w, fns, bound, s, n - 1, m)));
    }
  }

  // ---------- the two runs, side by side ----------

  /** Binding the same values to newly visible, unreplaced names keeps the machines related. */
  lemma BindRel(map_: map<Id, Id>, lost: set<Id>, v: set<Id>, m: Machine, m2: Machine, ids: seq<Id>, f: nat -> int,
          f2: nat -> int)
    requires Rel(map_, lost, v, m, m2) && Elements(ids) !! v + map_.Keys && forall k: nat :: f(k) == f2(k)
    ensures Rel(map_, lost, v + Elements(ids), m.(env := Bind(m.env, ids, f)), m2.(env := Bind(m2.env, ids, f2)))
  {
    assert forall x :: x in ids <==> x in Elements(ids);
  }

  /** Yielding available values does. */
  lemma YieldRel(map_: map<Id, Id>, lost: set<Id>, v: set<Id>, inner: set<Id>, m: Machine, m2: Machine, carry: seq<Id>,
          results: seq<Id>)
    requires Rel(map_, lost, v + inner, m, m2) && Elements(carry) <= v + inner && Available(map_, lost, carry)
    requires Elements(results) !! v + map_.Keys && MapTrue(map_, v, m)
    ensures Rel(map_, lost, v + Elements(results), Yield(m, carry, results),
        Yield(m2, TranslateAll(map_, carry), results))
  {
    AvailableVals(map_, lost, v + inner, m, m2, carry);
    BindRel(map_, lost, v, m, m2, results, At(Vals(m.env, carry)), At(Vals(m2.env, TranslateAll(map_, carry))));
  }

  lemma KeptSim(w: World, fns: seq<Fn>, bound: nat, op: Op, map_: map<Id, Id>, lost: set<Id>, v: set<Id>, m: Machine,
          m2: Machine)
    requires Scoped(Do(op), v) && Rel(map_, lost, v, m, m2) && Available(map_, lost, op.operands)
    requires Elements(op.results) !! map_.Keys
    ensures Rel(map_, lost, v + Elements(op.results), Exec(w, fns, bound, Do(op), m),
        Exec(w, fns, bound, Do(op.(operands := TranslateAll(map_, op.operands))), m2))
  {
    AvailableVals(map_, lost, v, m, m2, op.operands);
    var vals := Vals(m.env, op.operands);
    var op2 := op.(operands := TranslateAll(map_, op.operands));
    BindRel(map_, lost, v, m, m2, op.results, Outcome(w, op, vals, m), Outcome(w, op2, vals, m2));
  }

  lemma GoneSim(w: World, fns: seq<Fn>, bound: nat, op: Op, map_: map<Id, Id>, redundant: set<nat>, gone: set<nat>,
          lost: set<Id>, v: set<Id>, m: Machine, m2: Machine)
    requires Scoped(Do(op), v) && Rel(map_, lost, v, m, m2) && OkStmt(Do(op), map_, redundant, gone, lost)
    requires op.id in gone
    requires op.id in redundant ==> Harmless(op, map_, v, m, Exec(w, fns, bound, Do(op), m))
    ensures Rel(map_, lost, v + Elements(op.results), Exec(w, fns, bound, Do(op), m), m2)
  {
    OpFrame(w, fns, bound, op, v, m);
    assert forall x :: x in op.results <==> x in Elements(op.results);
  }

  lemma {:induction false} BlockSim(w: World, fns: seq<Fn>, bound: nat, b: Block, map_: map<Id, Id>,
          redundant: set<nat>, gone: set<nat>, lost: set<Id>, v: set<Id>, m: Machine, m2: Machine)
    requires BlockScoped(b, v) && Ok(b, map_, redundant, gone, lost) && FineIn(w, fns, bound, b, map_, redundant, v, m)
    requires Rel(map_, lost, v, m, m2)
    ensures Rel(map_, lost, v + BlockVisible(b), ExecBlock(w, fns, bound, b, m),
        ExecBlock(w, fns, bound, Rewrite(b, map_, gone), m2))
    decreases Size(b), 0, 0
  {
    if b.Nil? {
      assert v + BlockVisible(b) == v;
    } else {
      var m', v' := Exec(w, fns, bound, b.head, m), v + Visible(b.head);
      assert v + BlockVisible(b) == v' + BlockVisible(b.tail);
      if b.head.Do? && b.head.op.id in gone {
        GoneSim(w, fns, bound, b.head.op, map_, redundant, gone, lost, v, m, m2);
        BlockSim(w, fns, bound, b.tail, map_, redundant, gone, lost, v', m', m2);
      } else {
        StmtSim(w, fns, bound, b.head, map_, redundant, gone, lost, v, m, m2);
        BlockSim(w, fns, bound, b.tail, map_, redundant, gone, lost, v', m',
          Exec(w, fns, bound, RewriteStmt(b.head, map_, gone), m2));
      }
    }
  }

  lemma {:induction false} StmtSim(w: World, fns: seq<Fn>, bound: nat, s: Stmt, map_: map<Id, Id>, redundant: set<nat>,
          gone: set<nat>, lost: set<Id>, v: set<Id>, m: Machine, m2: Machine)
    requires Scoped(s, v) && OkStmt(s, map_, redundant, gone, lost) && FineAt(w, fns, bound, s, map_, redundant, v, m)
    requires Rel(map_, lost, v, m, m2)
    requires s.Do? ==> s.op.id !in gone
    ensures Rel(map_, lost, v + Visible(s), Exec(w, fns, bound, s, m),
        Exec(w, fns, bound, RewriteStmt(s, map_, gone), m2))
    decreases StmtSize(s), 0, 0
  {
    match s {
      case Do(op) => KeptSim(w, fns, bound, op, map_, lost, v, m, m2);
      case If(cond, thenB, thenYields, elseB, elseYields, results) =>
        AvailableVals(map_, lost, v, m, m2, [cond]);
        assert Vals(m2.env, TranslateAll(map_, [cond]))[0] == Vals(m.env, [cond])[0];
        var taken, carry := if m.env(cond) != 0 then thenB else elseB, if m.env(cond) != 0 then thenYields
            else elseYields;
        BlockSim(w, fns, bound, taken, map_, redundant, gone, lost, v, m, m2);
        BlockFresh(taken, v);
        BlockFrame(w, fns, bound, taken, m);
        YieldRel(map_, lost, v, BlockVisible(taken), ExecBlock(w, fns, bound, taken, m),
          ExecBlock(w, fns, bound, Rewrite(taken, map_, gone), m2), carry, results);
      case For(_, _, _, _, _, _, _) => ForSim(w, fns, bound, s, map_, redundant, gone, lost, v, m, m2);
    }
  }

  lemma RelIt(map_: map<Id, Id>, lost: set<Id>, v: set<Id>, m: Machine, m2: Machine, it: seq<nat>)
    requires Rel(map_, lost, v, m, m2)
    ensures m2.it == m.it && Rel(map_, lost, v, m.(it := it), m2.(it := it))
  {}

  /** What is visible of the iterations so far. */
  ghost function Carried(s: Stmt, n: nat): set<Id>
    requires s.For?
  {
    if n == 0 then {} else {s.iv} + Elements(s.args) + BlockVisible(s.body)
  }

  lemma StartSim(w: World, s: Stmt, k: nat, map_: map<Id, Id>, gone: set<nat>, lost: set<Id>, v: set<Id>, m: Machine,
          m2: Machine, l: Machine, l2: Machine)
    requires s.For? && Scoped(s, v) && Rel(map_, lost, v, m, m2) && Rel(map_, lost, v + Carried(s, k), l, l2)
    requires MapTrue(map_, v, l)
    requires Available(map_, lost, s.bounds) && Available(map_, lost, s.inits) && Available(map_, lost, s.carry)
    requires Elements(s.results) + {s.iv} + Elements(s.args) !! map_.Keys
    ensures Rel(map_, lost, v + {s.iv} + Elements(s.args), IterStart(w, s, k, m, l),
        IterStart(w, RewriteStmt(s, map_, gone), k, m2, l2))
  {
    hide Rel, MapTrue, Available, BlockScoped, BlockVisible, BlockDefs, Rewrite, Bind, Vals, At;
    var carry := if k == 0 then s.inits else s.carry;
    assert Elements(carry) <= v + Carried(s, k);
    AvailableVals(map_, lost, v, m, m2, s.bounds);
    YieldRel(map_, lost, v, Carried(s, k), l, l2, carry, s.args);
    var a, a2 := Yield(l, carry, s.args), Yield(l2, TranslateAll(map_, carry), s.args);
    var index := At([w.index(Vals(m.env, s.bounds), k)]);
    assert Elements([s.iv]) == {s.iv};
    BindRel(map_, lost, v + Elements(s.args), a, a2, [s.iv], index,
      At([w.index(Vals(m2.env, TranslateAll(map_, s.bounds)), k)]));
    assert v + Elements(s.args) + {s.iv} == v + {s.iv} + Elements(s.args);
    RelIt(map_, lost, v, m, m2, m.it);
    RelIt(map_, lost, v + {s.iv} + Elements(s.args), a.(env := Bind(a.env, [s.iv], index)),
      a2.(env := Bind(a2.env, [s.iv], At([w.index(Vals(m2.env, TranslateAll(map_, s.bounds)), k)]))), m.it + [k]);
  }

  lemma LoopMap(w: World, fns: seq<Fn>, bound: nat, s: Stmt, n: nat, map_: map<Id, Id>, lost: set<Id>, v: set<Id>,
          m: Machine, m2: Machine)
    requires s.For? && Scoped(s, v) && Rel(map_, lost, v, m, m2)
    ensures MapTrue(map_, v, ExecLoop(w, fns, bound, s, n, m))
  {
    LoopFrame(w, fns, bound, s, n, m);
  }

  lemma {:induction false} LoopSim(w: World, fns: seq<Fn>, bound: nat, s: Stmt, n: nat, map_: map<Id, Id>,
          redundant: set<nat>, gone: set<nat>, lost: set<Id>, v: set<Id>, m: Machine, m2: Machine)
    requires s.For? && Scoped(s, v) && OkStmt(s, map_, redundant, gone, lost) && Rel(map_, lost, v, m, m2)
    requires forall k: nat :: k < n ==>
               FineIn(w, fns, bound, s.body, map_, redundant, v + {s.iv} + Elements(s.args),
                 IterStart(w, s, k, m, ExecLoop(w, fns, bound, s, k, m)))
    ensures Rel(map_, lost, v + Carried(s, n), ExecLoop(w, fns, bound, s, n, m),
        ExecLoop(w, fns, bound, RewriteStmt(s, map_, gone), n, m2))
    ensures MapTrue(map_, v, ExecLoop(w, fns, bound, s, n, m))
    decreases StmtSize(s) - 1, 1, n
  {
    hide FineIn, ExecBlock, IterStart, Rel, MapTrue, Ok, BlockDefs, BlockScoped, Rewrite;
    LoopMap(w, fns, bound, s, n, map_, lost, v, m, m2);
    if n == 0 {
      assert v + Carried(s, 0) == v;
    } else {
      LoopSim(w, fns, bound, s, n - 1, map_, redundant, gone, lost, v, m, m2);
      var l, l2 := ExecLoop(w, fns, bound, s, n - 1, m), ExecLoop(w, fns, bound, RewriteStmt(s, map_, gone), n - 1, m2);
      StartSim(w, s, n - 1, map_, gone, lost, v, m, m2, l, l2);
      BlockSim(w, fns, bound, s.body, map_, redundant, gone, lost, v + {s.iv} + Elements(s.args),
        IterStart(w, s, n - 1, m, l), IterStart(w, RewriteStmt(s, map_, gone), n - 1, m2, l2));
      assert v + {s.iv} + Elements(s.args) + BlockVisible(s.body) == v + Carried(s, n);
    }
  }

  lemma {:induction false} ForSim(w: World, fns: seq<Fn>, bound: nat, s: Stmt, map_: map<Id, Id>, redundant: set<nat>,
          gone: set<nat>, lost: set<Id>, v: set<Id>, m: Machine, m2: Machine)
    requires s.For? && Scoped(s, v) && OkStmt(s, map_, redundant, gone, lost)
    requires FineAt(w, fns, bound, s, map_, redundant, v, m) && Rel(map_, lost, v, m, m2)
    ensures Rel(map_, lost, v + Visible(s), Exec(w, fns, bound, s, m),
        Exec(w, fns, bound, RewriteStmt(s, map_, gone), m2))
    decreases StmtSize(s) - 1, 2, 0
  {
    hide Rel, MapTrue, Available, BlockScoped, BlockVisible, BlockDefs, Rewrite, ExecLoop, FineIn, Ok, Bind, Vals, At;
    AvailableVals(map_, lost, v, m, m2, s.bounds);
    var n := w.trips(Vals(m.env, s.bounds));
    LoopSim(w, fns, bound, s, n, map_, redundant, gone, lost, v, m, m2);
    var l, l2, carry := ExecLoop(w, fns, bound, s, n, m), ExecLoop(w, fns, bound, RewriteStmt(s, map_, gone), n, m2),
        if n == 0 then s.inits else s.carry;
    YieldRel(map_, lost, v, Carried(s, n), l, l2, carry, s.results);
    RelIt(map_, lost, v, m, m2, m.it);
    RelIt(map_, lost, v + Elements(s.results), Yield(l, carry, s.results),
      Yield(l2, TranslateAll(map_, carry), s.results), m.it);
  }
}
