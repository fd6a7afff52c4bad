/** When the captured operand of a constrain call is certain to be gone at its turn. */
module StaleOperands {
  import opened Ir
  import opened LoweringState
  import opened LoweringSteps
  import opened PolyLowering
  import opened LoweringFunction
  import opened LoweringEffects

  // ---------- an erased value does not come back ----------

  ghost predicate NothingBack(s: State, s': State) {
    s.nextId <= s'.nextId && forall x :: x in s'.ops ==> x in s.ops || x >= s.nextId
  }

  lemma FactoredNew(s: State, t: Id, k: nat, from: nat)
    requires k <= |s.order| && t in s.tree
    ensures NothingBack(s, Factored(s, t, k, from))
  {}

  lemma {:induction false} FitNew(c: Config, s: State, lhs: Id, rhs: Id, k: nat)
    ensures NothingBack(s, Fit(c, s, lhs, rhs, k).0.s)
    decreases (if lhs in s.memo then s.memo[lhs] else 0) + (if rhs in s.memo then s.memo[rhs] else 0)
  {
    hide Insert, FactoredOps;
    if lhs in s.memo && rhs in s.memo && lhs in s.tree && rhs in s.tree && k <= |s.order| && lhs != s.nextId &&
      rhs != s.nextId &&
       !(Plus(s.memo[lhs], s.memo[rhs]) <= c.maxDegree || s.memo[lhs] + s.memo[rhs] <= 2)
    {
      var t := if s.memo[lhs] >= s.memo[rhs] then lhs else rhs;
      FactoredNew(s, t, k, k);
      if t == lhs && s.memo[lhs] >= s.memo[rhs] {
        FitNew(c, Factored(s, t, k, k), s.nextId, rhs, k + 2);
      } else {
        FitNew(c, Factored(s, t, k, k), lhs, s.nextId, k + 2);
      }
    }
  }

  lemma FinishedNew(f: (Pair, nat), v: Id, over: bool)
    ensures NothingBack(f.0.s, Finished(f, v, over).s)
  {
    hide Insert, Remove;
  }

  lemma RebuiltNew(c: Config, b: Pair, v: Id)
    ensures NothingBack(b.s, Rebuilt(c, b, v).s)
  {
    hide Fit, Finished, Factored;
    var Pair(s, lhs, rhs) := b;
    if v in s.order && lhs in s.memo && rhs in s.memo && lhs in s.tree {
      var k := Pos(s.order, v) + 1;
      var over := Plus(s.memo[lhs], s.memo[rhs]) > c.maxDegree;
      if lhs == rhs && over {
        FactoredNew(s, lhs, k, k);
        FitNew(c, Factored(s, lhs, k, k), s.nextId, s.nextId, k + 2);
        FinishedNew(Fit(c, Factored(s, lhs, k, k), s.nextId, s.nextId, k + 2), v, over);
      } else {
        FitNew(c, s, lhs, rhs, k);
        FinishedNew(Fit(c, s, lhs, rhs, k), v, over);
      }
    }
  }

  /** Lowering brings back no value that is gone. */
  lemma {:induction false} LowerNew(c: Config, s: State, v: Id, use: Id)
    ensures NothingBack(s, Lower(c, s, v, use).s)
    decreases Measure(s.tree, v), 2
  {
    hide Measured, LowerRoot;
    RootNew(c, s.(memo := Measured(s.ops, s.tree, v, s.memo)), v);
  }

  lemma {:induction false} RootNew(c: Config, s: State, v: Id)
    ensures NothingBack(s, LowerRoot(c, s, v).s)
    decreases Measure(s.tree, v), 1
  {
    hide Lower, LowerBoth, Rebuilt;
    if v in s.ops && s.ops[v].Bin? && s.ops[v].kind != DivK {
      BothNew(c, s, v);
      RebuiltNew(c, LowerBoth(c, s, v), v);
    } else if v in s.ops && s.ops[v].Neg? && Smaller(s.tree, s.ops[v].x, Measure(s.tree, v)) {
      LowerNew(c, s, s.ops[v].x, v);
    }
  }

  lemma {:induction false} BothNew(c: Config, s: State, v: Id)
    requires v in s.ops && s.ops[v].Bin?
    ensures NothingBack(s, LowerBoth(c, s, v).s)
    decreases Measure(s.tree, v), 0
  {
    hide Lower;
    if Smaller(s.tree, s.ops[v].l, Measure(s.tree, v)) {
      LowerNew(c, s, s.ops[v].l, v);
      var a := Lower(c, s, s.ops[v].l, v);
      if v in a.s.ops && a.s.ops[v].Bin? && Smaller(a.s.tree, a.s.ops[v].r, Measure(s.tree, v)) {
        LowerNew(c, a.s, a.s.ops[v].r, v);
      }
    }
  }

  lemma MaterialisedNew(c: Config, s: State, v: Id, callOp: Id)
    ensures NothingBack(s, Materialised(c, s, v, callOp).s)
  {
    hide Lower, Linear, Factored;
    LowerNew(c, s, v, callOp);
    var a := Lower(c, s, v, callOp);
    if a.r in a.s.tree && callOp in a.s.order { FactoredNew(a.s, a.r, Pos(a.s.order, callOp), |a.s.order|); }
  }

  /** An operand that is gone before its turn makes the call stale. */
  lemma {:induction false} GoneTurns(c: Config, s: State, x: Id, vals: seq<Id>, k: nat, j: nat)
    requires k <= j < |vals| && vals[j] !in s.ops && vals[j] < s.nextId
    ensures TakeTurns(c, s, x, vals, k).stale
    decreases j - k
  {
    hide Linear, Materialised;
    if k < j && vals[k] in s.ops {
      if Linear(s, vals[k]) {
        GoneTurns(c, s, x, vals, k + 1, j);
      } else {
        var a := Materialised(c, s, vals[k], x);
        MaterialisedNew(c, s, vals[k], x);
        GoneTurns(c, a.s, x, vals[k := a.r], k + 1, j);
      }
    }
  }

  // ---------- a product that is sure to be erased ----------

  /** A product over the bound, neither it nor its factors lowered before, whose factors are within the bound. */
  ghost predicate FreshProduct(c: Config, s: State, v: Id) {
    && WellFormed(s.ops, s.order) && v in s.ops && s.ops[v].IsMul() && v !in s.rewrites
    && Within1(c, s, s.ops[v].l) && Within1(c, s, s.ops[v].r)
    && s.ops[v].l in s.ops && s.ops[s.ops[v].l].IsValue() && s.ops[v].r in s.ops && s.ops[s.ops[v].r].IsValue()
    && OpDegree(s.ops, s.order, s.ops[v].l) + OpDegree(s.ops, s.order, s.ops[v].r) > c.maxDegree
  }

  ghost predicate Within1(c: Config, s: State, y: Id) {
    y in s.tree && Degree(s.tree[y]) <= c.maxDegree && y !in s.rewrites
  }

  ghost predicate FitReady(s: State, v: Id, lhs: Id, rhs: Id, k: nat) {
    v in s.tree && v in s.order && v < s.nextId && k <= |s.order| && lhs in s.memo && rhs in s.memo && lhs in s.tree &&
      rhs in s.tree
  }

  lemma FactoredReady(s: State, v: Id, lhs: Id, rhs: Id, k: nat, t: Id)
    requires FitReady(s, v, lhs, rhs, k) && (t == lhs || t == rhs)
    ensures FitReady(Factored(s, t, k, k), v, s.nextId, s.nextId, k + 2)
    ensures FitReady(Factored(s, t, k, k), v, lhs, s.nextId, k + 2)
    ensures FitReady(Factored(s, t, k, k), v, s.nextId, rhs, k + 2)
  {
    hide FactoredOps;
    InsertIn(s.order, k, [s.nextId, s.nextId + 1], v);
  }

  lemma InsertIn(order: seq<Id>, k: nat, more: seq<Id>, v: Id)
    requires k <= |order| && v in order
    ensures v in Insert(order, k, more)
  {
    var i :| 0 <= i < |order| && order[i] == v;
    InsertAt(order, k, more, if i < k then i else i + |more|);
  }

  lemma {:induction false} FitDone(c: Config, s: State, v: Id, lhs: Id, rhs: Id, k: nat)
    requires FitReady(s, v, lhs, rhs, k)
    ensures var f := Fit(c, s, lhs, rhs, k); FitReady(f.0.s, v, f.0.lhs, f.0.rhs, f.1)
    decreases s.memo[lhs] + s.memo[rhs]
  {
    hide Factored;
    if !(Plus(s.memo[lhs], s.memo[rhs]) <= c.maxDegree || s.memo[lhs] + s.memo[rhs] <= 2) && lhs != s.nextId &&
      rhs != s.nextId {
      var t := if s.memo[lhs] >= s.memo[rhs] then lhs else rhs;
      FactoredReady(s, v, lhs, rhs, k, t);
      FactoredSum(s, t, k, if s.memo[lhs] >= s.memo[rhs] then rhs else lhs);
      if s.memo[lhs] >= s.memo[rhs] {
        FitDone(c, Factored(s, t, k, k), v, s.nextId, rhs, k + 2);
      } else {
        FitDone(c, Factored(s, t, k, k), v, lhs, s.nextId, k + 2);
      }
    }
  }

  lemma FactoredSum(s: State, t: Id, k: nat, y: Id)
    requires t in s.tree && k <= |s.order| && y in s.memo && y != s.nextId
    ensures var s' := Factored(s, t, k, k);
        s.nextId in s'.memo && s'.memo[s.nextId] == 1 && y in s'.memo && s'.memo[y] == s.memo[y]
  {}

  lemma FinishedErases(f: (Pair, nat), v: Id)
    requires FitReady(f.0.s, v, f.0.lhs, f.0.rhs, f.1)
    ensures v !in Finished(f, v, true).s.ops
  {
    hide Remove;
    InsertIn(f.0.s.order, f.1, [f.0.s.nextId], v);
  }

  lemma RebuiltErases(c: Config, s: State, v: Id, lhs: Id, rhs: Id)
    requires FitReady(s, v, lhs, rhs, 0) && Plus(s.memo[lhs], s.memo[rhs]) > c.maxDegree
    ensures v !in Rebuilt(c, Pair(s, lhs, rhs), v).s.ops
  {
    hide Factored, Fit, Finished;
    var k := Pos(s.order, v) + 1;
    assert FitReady(s, v, lhs, rhs, k);
    if lhs == rhs {
      FactoredReady(s, v, lhs, rhs, k, lhs);
      FitDone(c, Factored(s, lhs, k, k), v, s.nextId, s.nextId, k + 2);
      FinishedErases(Fit(c, Factored(s, lhs, k, k), s.nextId, s.nextId, k + 2), v);
    } else {
      FitDone(c, s, v, lhs, rhs, k);
      FinishedErases(Fit(c, s, lhs, rhs, k), v);
    }
  }

  /** A value whose source expression is within the bound stands for itself. */
  lemma LowSelf(c: Config, s: State, y: Id, use: Id)
    requires Inv(c, s) && y in s.ops && s.ops[y].IsValue() && y in s.tree && Degree(s.tree[y]) <= c.maxDegree
    requires y in s.memo && y !in s.rewrites
    ensures Lower(c, s, y, use) == Next(s.(rewrites := s.rewrites[y := y]), y)
  {
    InvFacts(c, s);
    hide Inv, LowerRoot;
    MeasuredHit(s.ops, s.tree, y, s.memo);
    assert s.(memo := s.memo) == s;
  }

  /** Both factors of a fresh product stand for themselves. */
  lemma FreshBoth(c: Config, s: State, v: Id)
    requires Inv(c, s) && FreshProduct(c, s, v) && v in s.memo
    ensures var b := LowerBoth(c, s, v);
        b.lhs == s.ops[v].l && b.rhs == s.ops[v].r && b.s == s.(rewrites := b.s.rewrites)
  {
    var l, r := s.ops[v].l, s.ops[v].r;
    OperandFacts(c, s, v);
    assert l in Operands(s.ops[v]) && r in Operands(s.ops[v]);
    BinMemo(c, s, v);
    LowSelf(c, s, l, v);
    var s1 := s.(rewrites := s.rewrites[l := l]);
    if r == l {
      HitIs(c, s1, l, v);
    } else {
      SelfStands(c, s, l);
      RewriteSet(c, s, l, l);
      LowSelf(c, s1, r, v);
    }
    hide Inv, Lower, FreshProduct, WellFormed;
  }

  lemma SelfStands(c: Config, s: State, y: Id)
    requires Inv(c, s) && y in s.ops && s.ops[y].IsValue() && y in s.tree && Degree(s.tree[y]) <= c.maxDegree
    requires y in s.memo
    ensures StandsFor(c, s, y, y)
  {}

  /** Lowering a fresh product erases it. */
  lemma FreshErased(c: Config, s: State, v: Id, use: Id)
    requires Inv(c, s) && FreshProduct(c, s, v)
    ensures v !in Lower(c, s, v, use).s.ops
  {
    var s1 := s.(memo := Measured(s.ops, s.tree, v, s.memo));
    InvFacts(c, s);
    MeasuredOk(c, s, v, s.memo);
    assert Inv(c, s1) && FreshProduct(c, s1, v) by { MemoGrow(c, s, s1.memo); }
    FreshOver(c, s1, v);
    MissIs(c, s, s1, v, use);
    FreshBoth(c, s1, v);
    var b := LowerBoth(c, s1, v);
    MulIs(c, s1, v, b);
    OperandFacts(c, s1, v);
    NoDups(c, s1);
    hide Inv, LowerBoth, LowerRoot, Rebuilt, Lower, Measured, FreshProduct;
    RebuiltErases(c, b.s, v, b.lhs, b.rhs);
  }

  lemma FreshOver(c: Config, s: State, v: Id)
    requires Inv(c, s) && FreshProduct(c, s, v) && v in s.memo
    ensures s.memo[v] > c.maxDegree
    ensures var l, r := s.ops[v].l, s.ops[v].r;
            l in s.memo && r in s.memo && l in s.tree && r in s.tree && v in s.order &&
              Plus(s.memo[l], s.memo[r]) > c.maxDegree
  {
    var l, r := s.ops[v].l, s.ops[v].r;
    BinMemo(c, s, v);
    BinTree(c, s, v);
    InvFacts(c, s);
    DegreeBound(c, s, l);
    DegreeBound(c, s, r);
    NoDups(c, s);
  }

  // ---------- the same product twice ----------

  /** Arguments `i` and `j` of the call are one fresh product, and nothing in front of `i` has to be materialised. */
  ghost predicate RepeatedAt(c: Config, s: State, x: Id, i: nat, j: nat) {
    && x in s.ops && s.ops[x].Use? && i < j < |s.ops[x].args| && s.ops[x].args[i] == s.ops[x].args[j]
    && FreshProduct(c, s, s.ops[x].args[i]) && forall k: nat :: k < i ==> Low(s, s.ops[x].args[k])
  }

  ghost predicate RepeatedProduct(c: Config, s: State, x: Id) {
    exists i: nat, j: nat :: RepeatedAt(c, s, x, i, j)
  }

  lemma LinearIs(c: Config, s: State, x: Id)
    requires Inv(c, s) && x in s.ops && s.ops[x].IsValue()
    ensures Linear(s, x) <==> Low(s, x)
  {
    MeasuredOk(c, s, x, map[]);
  }

  lemma FreshHigh(c: Config, s: State, v: Id)
    requires Inv(c, s) && FreshProduct(c, s, v)
    ensures !Linear(s, v) && v < s.nextId
  {
    LinearIs(c, s, v);
    NoDups(c, s);
  }

  lemma LowIsLinear(c: Config, s: State, x: Id)
    requires Inv(c, s) && Low(s, x)
    ensures x in s.ops && Linear(s, x)
  {
    LinearIs(c, s, x);
  }

  lemma {:induction false} LinearTurns(c: Config, s: State, x: Id, vals: seq<Id>, k: nat, i: nat)
    requires Inv(c, s) && k <= i < |vals| && forall n: nat :: n < i ==> Low(s, vals[n])
    ensures TakeTurns(c, s, x, vals, k) == TakeTurns(c, s, x, vals, i)
    decreases i - k
  {
    hide Inv, Low, Linear, TakeTurns;
    if k == i {
    } else {
      LowIsLinear(c, s, vals[k]);
      TurnIs(c, s, x, vals, k);
      LinearTurns(c, s, x, vals, k + 1, i);
    }
  }

  /** The same fresh product at two places: the second operand is gone at its turn. */
  lemma RepeatedStale(c: Config, s: State, x: Id)
    requires Inv(c, s) && RepeatedProduct(c, s, x)
    ensures Called(c, s, x).1
  {
    var i: nat, j: nat :| RepeatedAt(c, s, x, i, j);
    var vals := s.ops[x].args;
    var v := vals[i];
    LinearTurns(c, s, x, vals, 0, i);
    FreshHigh(c, s, v);
    TurnIs(c, s, x, vals, i);
    var a := Materialised(c, s, v, x);
    FreshErased(c, s, v, x);
    MaterialisedNew(c, s, v, x);
    MaterialisedGone(c, s, v, x);
    hide Inv, Materialised, Linear, Lower, FreshProduct, Low;
    GoneTurns(c, a.s, x, vals[i := a.r], i + 1, j);
  }

  lemma MaterialisedGone(c: Config, s: State, v: Id, callOp: Id)
    requires v !in Lower(c, s, v, callOp).s.ops && v < s.nextId
    ensures v !in Materialised(c, s, v, callOp).s.ops
  {
    LowerNew(c, s, v, callOp);
    var a := Lower(c, s, v, callOp);
    hide Lower, Linear, Insert, FactoredOps;
    if a.r in a.s.tree && callOp in a.s.order { FactoredNew(a.s, a.r, Pos(a.s.order, callOp), |a.s.order|); }
  }
}
