/** What lowering one expression leaves alone in a body without felt divisions: which values it erases, and which
    values and call arguments of degree at most 1 keep that degree. */
module LoweringEffects {
  import opened Ir
  import opened LoweringState
  import opened LoweringSteps
  import opened PolyLowering
  import opened LoweringFunction

  // ---------- operands over the bound are those of the source ----------

  /** Operand `k` of `x` is memoised within the bound, or it is the one the source gives `x`. */
  ghost predicate SlotTame(c: Config, s: State, x: Id, k: nat)
    requires x in s.ops && k < |Operands(s.ops[x])|
  {
    var y := Operands(s.ops[x])[k];
    (y in s.memo && s.memo[y] <= c.maxDegree) ||
      (x in c.source && k < |Operands(c.source[x])| && Operands(c.source[x])[k] == y)
  }

  ghost predicate Tame(c: Config, s: State) {
    forall x, k: nat :: x in s.ops && k < |Operands(s.ops[x])| ==> SlotTame(c, s, x, k)
  }

  ghost predicate MemoFalls(s: State, s': State) {
    forall x :: x in s.memo ==> x in s'.memo && s'.memo[x] <= s.memo[x]
  }

  /** Operand `k` of `x` is within the bound or what it was. */
  ghost predicate SlotSame(c: Config, s: State, s': State, x: Id, k: nat)
    requires x in s'.ops && k < |Operands(s'.ops[x])|
  {
    var y := Operands(s'.ops[x])[k];
    (y in s'.memo && s'.memo[y] <= c.maxDegree) ||
      (x in s.ops && k < |Operands(s.ops[x])| && Operands(s.ops[x])[k] == y)
  }

  lemma TameStep(c: Config, s: State, s': State)
    requires Tame(c, s) && MemoFalls(s, s')
    requires forall x, k: nat :: x in s'.ops && k < |Operands(s'.ops[x])| ==> SlotSame(c, s, s', x, k)
    ensures Tame(c, s')
  {
    forall x, k: nat | x in s'.ops && k < |Operands(s'.ops[x])| ensures SlotTame(c, s', x, k) {
      assert SlotSame(c, s, s', x, k);
      if x in s.ops && k < |Operands(s.ops[x])| { assert SlotTame(c, s, x, k); }
    }
  }

  /** From `v` down to `x` along operands. */
  ghost predicate Path(ops: map<Id, Op>, p: seq<Id>) {
    p != [] && forall i :: 0 <= i < |p| - 1 ==> p[i] in ops && p[i + 1] in Operands(ops[p[i]])
  }

  ghost predicate Reaches(ops: map<Id, Op>, v: Id, x: Id) {
    exists p :: Path(ops, p) && p[0] == v && p[|p| - 1] == x
  }

  lemma ReachSelf(ops: map<Id, Op>, v: Id)
    ensures Reaches(ops, v, v)
  {
    assert Path(ops, [v]);
  }

  lemma ReachStep(ops: map<Id, Op>, v: Id, y: Id, x: Id)
    requires v in ops && y in Operands(ops[v]) && Reaches(ops, y, x)
    ensures Reaches(ops, v, x)
  {
    var p :| Path(ops, p) && p[0] == y && p[|p| - 1] == x;
    var q := [v] + p;
    assert forall i :: 0 < i < |q| ==> q[i] == p[i - 1];
    assert Path(ops, q) && q[|q| - 1] == x;
  }

  // ---------- parts of source expressions ----------

  /** `e` occurs in `f`. */
  ghost predicate Within(e: Expr, f: Expr) {
    e == f || match f
      case EBin(_, l, r) => Within(e, l) || Within(e, r)
      case ENeg(x) => Within(e, x)
      case _ => false
  }

  lemma {:induction false} WithinTrans(e: Expr, f: Expr, g: Expr)
    requires Within(e, f) && Within(f, g)
    ensures Within(e, g)
  {
    if f != g {
      match g {
        case EBin(_, l, r) => if Within(f, l) { WithinTrans(e, f, l); } else { WithinTrans(e, f, r); }
        case ENeg(x) => WithinTrans(e, f, x);
        case _ =>
      }
    }
  }

  /** A product of two factors that both are no constants. */
  ghost predicate NonlinearProduct(e: Expr) {
    e.EBin? && e.kind == MulK && Degree(e.l) >= 1 && Degree(e.r) >= 1
  }

  /** A sum, difference or negation that has to be lowered in place. */
  ghost predicate OverRoot(c: Config, e: Expr) {
    ((e.EBin? && (e.kind == AddK || e.kind == SubK)) || e.ENeg?) && Degree(e) > c.maxDegree
  }

  ghost predicate Shares(c: Config, a: Expr, e: Expr) {
    exists z :: Within(z, a) && Within(z, e) && OverRoot(c, z)
  }

  /** Lowering `e` may change a value in place that `a` is made of. */
  ghost predicate Exposed(c: Config, a: Expr, e: Expr) {
    !NonlinearProduct(a) && Shares(c, a, e)
  }

  lemma ExposedGrows(c: Config, a: Expr, e: Expr, f: Expr)
    requires Exposed(c, a, e) && Within(e, f)
    ensures Exposed(c, a, f)
  {
    var z :| Within(z, a) && Within(z, e) && OverRoot(c, z);
    WithinTrans(z, e, f);
  }

  // ---------- values of degree at most 1 ----------

  /** A value of degree at most 1, as the block stands. */
  ghost predicate Low(s: State, x: Id) {
    WellFormed(s.ops, s.order) && x in s.ops && s.ops[x].IsValue() && OpDegree(s.ops, s.order, x) <= 1
  }

  /** Operand `j` of consumer `x` has degree at most 1. */
  ghost predicate ArgLow(c: Config, s: State, x: Id, j: nat) {
    IsRow(c, x, j) && x in s.ops && s.ops[x].Use? && j < |s.ops[x].args| && Low(s, s.ops[x].args[j])
  }

  ghost predicate StaysLow(c: Config, s: State, s': State, e: Expr) {
    && (forall x :: Low(s, x) && x in s.tree && !Exposed(c, s.tree[x], e) ==> Low(s', x))
    && (forall x, j: nat :: ArgLow(c, s, x, j) && !Exposed(c, c.checks[x].args[j], e) ==> ArgLow(c, s', x, j))
  }

  /** A value has degree 0 exactly when its source expression has. */
  lemma {:induction false} Positive(c: Config, s: State, x: Id)
    requires Inv(c, s) && x in s.ops && s.ops[x].IsValue()
    ensures x in s.tree && (OpDegree(s.ops, s.order, x) == 0 <==> Degree(s.tree[x]) == 0)
    decreases Pos(s.order, x)
  {
    OperandFacts(c, s, x);
    ConstDegree(c, s, x);
    hide Inv, NodeOk;
    match s.ops[x] {
      case Bin(_, l, r) =>
        assert UsesBefore(s.ops, s.order, x, l) && UsesBefore(s.ops, s.order, x, r);
        Positive(c, s, l);
        Positive(c, s, r);
      case Neg(y) =>
        assert UsesBefore(s.ops, s.order, x, y);
        Positive(c, s, y);
      case _ =>
    }
  }

  lemma ConstDegree(c: Config, s: State, x: Id)
    requires Inv(c, s) && x in s.ops && s.ops[x].IsValue()
    ensures x in s.tree && (s.ops[x].Const? ==> s.tree[x].EConst?)
  {
    assert NodeOk(c, s, x);
  }

  /** A value of degree at most 1 that stands for a nonlinear product is a read. */
  lemma NonlinearLeaf(c: Config, s: State, x: Id)
    requires Inv(c, s) && x in s.ops && s.ops[x].IsValue() && x in s.tree && NonlinearProduct(s.tree[x])
    ensures s.ops[x].Leaf? || OpDegree(s.ops, s.order, x) >= 2
  {
    OperandFacts(c, s, x);
    ConstDegree(c, s, x);
    if s.ops[x].Bin? {
      assert s.ops[x].l in Operands(s.ops[x]) && s.ops[x].r in Operands(s.ops[x]);
      Positive(c, s, s.ops[x].l);
      Positive(c, s, s.ops[x].r);
    }
  }

  // ---------- one edit, seen from the values of degree at most 1 ----------

  ghost predicate HighAt(s: State, y: Id, n: nat) {
    WellFormed(s.ops, s.order) && y in s.ops && s.ops[y].IsValue() && OpDegree(s.ops, s.order, y) >= n
  }

  /** An operand that may become another one without any low value noticing: one that no low value has, or one that is
      no constant and gives way to a read. */
  ghost predicate Redirected(s: State, s': State, y: Id, y': Id) {
    y' == y || HighAt(s, y, 2) || (HighAt(s, y, 1) && y' in s'.ops && s'.ops[y'].Leaf?)
  }

  ghost predicate SameShape(op: Op, op': Op) {
    match op
    case Const(_) => op' == op
    case Leaf(_) => op' == op
    case Bin(k, _, _) => op'.Bin? && op'.kind == k
    case Neg(_) => op'.Neg?
    case Eq(_, _) => op'.Eq?
    case Use(t, args) => op'.Use? && op'.tag == t && |op'.args| == |args|
  }

  ghost predicate Follows(s: State, s': State, op: Op, op': Op) {
    SameShape(op, op') && forall k: nat :: k < |Operands(op)| ==> Redirected(s, s', Operands(op)[k], Operands(op')[k])
  }

  /** Every low value and every consumer, but for the values in `skip`, follows the edit. */
  ghost predicate LowFollow(s: State, s': State, skip: set<Id>) {
    forall x ::
      x in s.ops && x !in skip && (s.ops[x].IsValue() ==> Low(s, x)) ==>
      x in s'.ops && Follows(s, s', s.ops[x], s'.ops[x])
  }

  /** A low value that is not made of any value in `skip` gets no higher. */
  lemma {:induction false} LowInduct(c: Config, s: State, s': State, skip: set<Id>, x: Id)
    requires Inv(c, s) && Inv(c, s') && LowFollow(s, s', skip) && Low(s, x) && x in s.tree
    requires forall z :: z in skip ==> z in s.tree && !Within(s.tree[z], s.tree[x])
    ensures Low(s', x) && OpDegree(s'.ops, s'.order, x) <= OpDegree(s.ops, s.order, x)
    decreases Pos(s.order, x), 1
  {
    assert x !in skip;
    OperandFacts(c, s, x);
    assert x in s'.ops && Follows(s, s', s.ops[x], s'.ops[x]);
    OperandFacts(c, s', x);
    hide Inv, NodeOk, WellFormed, LowFollow, Within, Redirected;
    match s.ops[x] {
      case Bin(k, l, r) =>
        assert UsesBefore(s.ops, s.order, x, l) && UsesBefore(s.ops, s.order, x, r);
        LowOperand(c, s, s', skip, x, 0);
        LowOperand(c, s, s', skip, x, 1);
      case Neg(y) =>
        assert UsesBefore(s.ops, s.order, x, y);
        LowOperand(c, s, s', skip, x, 0);
      case _ =>
    }
  }

  lemma {:induction false} LowOperand(c: Config, s: State, s': State, skip: set<Id>, x: Id, k: nat)
    requires Inv(c, s) && Inv(c, s') && LowFollow(s, s', skip) && Low(s, x) && x in s.tree
    requires forall z :: z in skip ==> z in s.tree && !Within(s.tree[z], s.tree[x])
    requires k < |Operands(s.ops[x])| && x in s'.ops && k < |Operands(s'.ops[x])|
    requires Redirected(s, s', Operands(s.ops[x])[k], Operands(s'.ops[x])[k])
    ensures var y, y' := Operands(s.ops[x])[k], Operands(s'.ops[x])[k];
            Low(s, y) && Low(s', y') && OpDegree(s'.ops, s'.order, y') <= OpDegree(s.ops, s.order, y)
    decreases Pos(s.order, x), 0
  {
    OperandFacts(c, s, x);
    var y, y' := Operands(s.ops[x])[k], Operands(s'.ops[x])[k];
    assert UsesBefore(s.ops, s.order, x, y) && y in s.tree;
    assert OpDegree(s.ops, s.order, y) <= OpDegree(s.ops, s.order, x);
    assert WellFormed(s'.ops, s'.order);
    hide Inv, NodeOk, LowFollow;
    if y' == y {
      assert forall z :: z in skip ==> !Within(s.tree[z], s.tree[y]);
      hide WellFormed, Within;
      LowInduct(c, s, s', skip, y);
    }
  }

  lemma NotShared(c: Config, z: Expr, a: Expr, e: Expr)
    requires OverRoot(c, z) && Within(z, e) && !Shares(c, a, e)
    ensures !Within(z, a)
  {}

  /** An edit that low values follow keeps what is not exposed to `e` low. */
  lemma LowStep(c: Config, s: State, s': State, skip: set<Id>, e: Expr)
    requires Inv(c, s) && Inv(c, s') && LowFollow(s, s', skip)
    requires forall z ::
        z in skip ==> z in s.ops && s.ops[z].IsValue() && z in s.tree && OverRoot(c, s.tree[z]) && Within(s.tree[z], e)
    ensures StaysLow(c, s, s', e)
  {
    forall x | Low(s, x) && x in s.tree && !Exposed(c, s.tree[x], e) ensures Low(s', x) {
      LowValue(c, s, s', skip, e, x);
    }
    forall x, j: nat | ArgLow(c, s, x, j) && !Exposed(c, c.checks[x].args[j], e) ensures ArgLow(c, s', x, j) {
      LowArgument(c, s, s', skip, e, x, j);
    }
  }

  lemma LowValue(c: Config, s: State, s': State, skip: set<Id>, e: Expr, x: Id)
    requires Inv(c, s) && Inv(c, s') && LowFollow(s, s', skip) && Low(s, x) && x in s.tree && !Exposed(c, s.tree[x], e)
    requires forall z :: z in skip ==> z in s.tree && OverRoot(c, s.tree[z]) && Within(s.tree[z], e)
    ensures Low(s', x)
    ensures NonlinearProduct(s.tree[x]) ==> s.ops[x].Leaf? && x in s'.ops && s'.ops[x].Leaf?
  {
    if NonlinearProduct(s.tree[x]) {
      NonlinearLeaf(c, s, x);
      assert x !in skip;
      assert x in s'.ops && Follows(s, s', s.ops[x], s'.ops[x]);
      assert WellFormed(s'.ops, s'.order);
    } else {
      forall z | z in skip ensures !Within(s.tree[z], s.tree[x]) {
        NotShared(c, s.tree[z], s.tree[x], e);
      }
      hide Inv, LowFollow;
      LowInduct(c, s, s', skip, x);
    }
  }

  lemma LowArgument(c: Config, s: State, s': State, skip: set<Id>, e: Expr, x: Id, j: nat)
    requires Inv(c, s) && Inv(c, s') && LowFollow(s, s', skip) && ArgLow(c, s, x, j)
    requires !Exposed(c, c.checks[x].args[j], e)
    requires forall z ::
        z in skip ==> z in s.ops && s.ops[z].IsValue() && z in s.tree && OverRoot(c, s.tree[z]) && Within(s.tree[z], e)
    ensures ArgLow(c, s', x, j)
  {
    hide Inv, LowFollow, Exposed, NonlinearProduct, WellFormed, OverRoot, Within;
    ArgumentTree(c, s, x, j);
    ConsumerFollows(c, s, s', skip, x, j);
    var y := s.ops[x].args[j];
    if s'.ops[x].args[j] == y { LowValue(c, s, s', skip, e, y); }
  }

  lemma ConsumerFollows(c: Config, s: State, s': State, skip: set<Id>, x: Id, j: nat)
    requires Inv(c, s') && LowFollow(s, s', skip) && x in s.ops && s.ops[x].Use? && j < |s.ops[x].args|
    requires forall z :: z in skip ==> z in s.ops && s.ops[z].IsValue()
    ensures x in s'.ops && s'.ops[x].Use? && j < |s'.ops[x].args|
    ensures Redirected(s, s', s.ops[x].args[j], s'.ops[x].args[j])
    ensures WellFormed(s'.ops, s'.order)
  {
    assert x in s'.ops && Follows(s, s', s.ops[x], s'.ops[x]);
    assert Redirected(s, s', Operands(s.ops[x])[j], Operands(s'.ops[x])[j]);
    hide Inv, LowFollow, Redirected;
  }

  lemma ArgumentTree(c: Config, s: State, x: Id, j: nat)
    requires Inv(c, s) && IsRow(c, x, j)
    ensures x in s.ops && s.ops[x].Use? && j < |s.ops[x].args| && s.ops[x].args[j] in s.tree
    ensures s.tree[s.ops[x].args[j]] == c.checks[x].args[j]
  {
    assert States(s.ops[x], s.tree, c.checks[x]);
  }

  // ---------- the edits one by one ----------

  lemma StaysLowSame(c: Config, s: State, s': State, e: Expr)
    requires s'.ops == s.ops && s'.order == s.order
    ensures StaysLow(c, s, s', e)
  {}

  lemma StaysLowTrans(c: Config, s: State, s1: State, s2: State, e: Expr)
    requires StaysLow(c, s, s1, e) && StaysLow(c, s1, s2, e)
    requires forall x :: x in s.tree ==> x in s1.tree && s1.tree[x] == s.tree[x]
    ensures StaysLow(c, s, s2, e)
  {
    hide Low, Exposed;
  }

  lemma StaysLowFor(c: Config, s: State, s': State, e: Expr, f: Expr)
    requires StaysLow(c, s, s', e) && Within(e, f)
    ensures StaysLow(c, s, s', f)
  {
    hide Low;
    forall a | Exposed(c, a, e) ensures Exposed(c, a, f) { ExposedGrows(c, a, e, f); }
    hide Exposed;
  }

  lemma FactorFollows(c: Config, s: State, t: Id, k: nat, from: nat)
    requires FactorPre(c, s, t, k) && k <= from
    ensures t in s.tree && LowFollow(s, Factored(s, t, k, from), {})
  {
    OperandFacts(c, s, t);
    Positive(c, s, t);
    InvFacts(c, s);
    NoDups(c, s);
    assert HighAt(s, t, 1);
    var s' := Factored(s, t, k, from);
    hide Inv, Insert;
    forall x | x in s.ops ensures x in s'.ops && Follows(s, s', s.ops[x], s'.ops[x]) {
      assert s'.ops[x] == s.ops[x] || s'.ops[x] == Subst(s.ops[x], t, s.nextId);
      SubstFollows(s, s', s.ops[x], t, s.nextId);
      SameFollows(s, s', s.ops[x]);
    }
  }

  lemma SubstFollows(s: State, s': State, op: Op, t: Id, a: Id)
    requires HighAt(s, t, 2) || (HighAt(s, t, 1) && a in s'.ops && s'.ops[a].Leaf?)
    ensures Follows(s, s', op, Subst(op, t, a))
  {
    hide HighAt;
  }

  lemma SameFollows(s: State, s': State, op: Op)
    ensures Follows(s, s', op, op)
  {
    hide HighAt;
  }

  lemma MulFollows(c: Config, s: State, v: Id, l: Id, r: Id, k: nat)
    requires MulPre(c, s, v, l, r, k)
    ensures LowFollow(s, WithMul(s, v, l, r, k), {})
  {
    NoDups(c, s);
    var s' := WithMul(s, v, l, r, k);
    hide Inv, Insert;
    forall x | x in s.ops ensures x in s'.ops && Follows(s, s', s.ops[x], s'.ops[x]) {
      SameFollows(s, s', s.ops[x]);
    }
  }

  lemma RetireFollows(c: Config, s: State, v: Id, w: Id)
    requires RetirePre(c, s, v, w) && NonlinearProduct(s.tree[v])
    ensures LowFollow(s, Retired(s, v, w), {})
  {
    NonlinearLeaf(c, s, v);
    assert HighAt(s, v, 2);
    var s' := Retired(s, v, w);
    hide Inv, Remove, NonlinearProduct;
    forall x | x in s.ops && x != v ensures x in s'.ops && Follows(s, s', s.ops[x], s'.ops[x]) {
      SubstFollows(s, s', s.ops[x], v, w);
    }
  }

  lemma RerootFollows(c: Config, s: State, v: Id, op: Op, d: nat)
    requires v in s.ops
    ensures LowFollow(s, Rerooted(s, v, op, d), {v})
  {
    var s' := Rerooted(s, v, op, d);
    forall x | x in s.ops && x != v ensures x in s'.ops && Follows(s, s', s.ops[x], s'.ops[x]) {
      SameFollows(s, s', s.ops[x]);
    }
  }

  // ---------- what lowering `v` does to everything else ----------

  /** What lowering `v` may erase: a nonlinear product over the bound that `v` is made of. */
  ghost predicate Erased(c: Config, s: State, v: Id, x: Id) {
    Reaches(c.source, v, x) && x in s.tree && NonlinearProduct(s.tree[x]) && Degree(s.tree[x]) > c.maxDegree
  }

  ghost predicate Gentle(c: Config, s: State, s': State, v: Id) {
    c.noDiv && Tame(c, s) && v in s.tree ==>
      && Tame(c, s') && StaysLow(c, s, s', s.tree[v])
      && (forall x :: x in s.ops && x !in s'.ops ==> Erased(c, s, v, x))
      && (v in s.memo && s.memo[v] <= c.maxDegree ==> s.ops.Keys <= s'.ops.Keys)
  }

  lemma GentleSame(c: Config, s: State, s': State, v: Id)
    requires s'.ops == s.ops && s'.order == s.order && MemoFalls(s, s')
    ensures Gentle(c, s, s', v)
  {
    if Tame(c, s) {
      TameStep(c, s, s');
      if v in s.tree { StaysLowSame(c, s, s', s.tree[v]); }
    }
  }

  lemma GentleTrans(c: Config, s: State, s1: State, s2: State, v: Id)
    requires Gentle(c, s, s1, v) && Gentle(c, s1, s2, v) && Inv(c, s) && Later(c, s, s1) && Later(c, s1, s2)
    ensures Gentle(c, s, s2, v)
  {
    forall x | x in s.ops && x in s1.ops && x !in s2.ops ensures x in s.tree { MulTree(c, s, s1, x); }
    hide Inv, Tame, StaysLow, SlotsKept, Reaches, NonlinearProduct;
    if c.noDiv && Tame(c, s) && v in s.tree {
      StaysLowTrans(c, s, s1, s2, s.tree[v]);
      forall x | x in s.ops && x !in s2.ops ensures Erased(c, s, v, x) {
        assert Erased(c, if x in s1.ops then s1 else s, v, x);
      }
    }
  }

  lemma MulTree(c: Config, s: State, s1: State, x: Id)
    requires Inv(c, s) && Later(c, s, s1) && x in s.ops && x in s1.ops && s1.ops[x].IsMul()
    ensures x in s.tree
  {
    assert SlotsKept(s.ops[x], s1.ops[x], s.memo, s1.memo);
    OperandFacts(c, s, x);
  }

  /** What lowering an operand of `v` does is part of lowering `v`. */
  lemma GentleOperand(c: Config, s: State, s': State, v: Id, k: nat)
    requires Inv(c, s) && v in s.ops && s.ops[v].IsValue() && k < |Operands(s.ops[v])|
    requires Gentle(c, s, s', Operands(s.ops[v])[k])
    requires v in s.memo && s.memo[v] > c.maxDegree
    ensures Gentle(c, s, s', v)
  {
    var y := Operands(s.ops[v])[k];
    OperandFacts(c, s, v);
    assert y in s.tree && v in s.tree && Within(s.tree[y], s.tree[v]);
    hide Inv, NodeOk, Within, StaysLow;
    if c.noDiv && Tame(c, s) {
      StaysLowFor(c, s, s', s.tree[y], s.tree[v]);
      assert SlotTame(c, s, v, k);
      forall x | x in s.ops && x !in s'.ops ensures Erased(c, s, v, x) {
        assert Erased(c, s, y, x);
        ReachStep(c.source, v, y, x);
      }
    }
  }

  lemma SubstSlot(op: Op, a: Id, b: Id, i: nat)
    requires i < |Operands(op)|
    ensures |Operands(Subst(op, a, b))| == |Operands(op)| && Operands(Subst(op, a, b))[i] == Swap(Operands(op)[i], a, b)
  {}

  /** Replacing `a` by a value within the bound. */
  lemma SlotSubst(c: Config, s: State, s': State, x: Id, i: nat, a: Id, b: Id)
    requires x in s.ops && x in s'.ops && (s'.ops[x] == s.ops[x] || s'.ops[x] == Subst(s.ops[x], a, b))
    requires i < |Operands(s'.ops[x])|
    requires b in s'.memo && s'.memo[b] <= c.maxDegree
    ensures SlotSame(c, s, s', x, i)
  {
    SubstLength(s.ops[x], a, b);
    hide Subst;
    if i < |Operands(s.ops[x])| { SubstSlot(s.ops[x], a, b, i); }
  }

  lemma SubstLength(op: Op, a: Id, b: Id)
    ensures |Operands(Subst(op, a, b))| == |Operands(op)|
  {}

  /** A new operation all of whose operands are within the bound. */
  lemma SlotNew(c: Config, s: State, s': State, x: Id, i: nat)
    requires x in s'.ops && i < |Operands(s'.ops[x])|
    requires forall y :: y in Operands(s'.ops[x]) ==> y in s'.memo && s'.memo[y] <= c.maxDegree
    ensures SlotSame(c, s, s', x, i)
  {}

  lemma FactorOps(c: Config, s: State, t: Id, k: nat, from: nat, x: Id)
    requires FactorPre(c, s, t, k) && t in s.tree && c.noDiv && x in Factored(s, t, k, from).ops
    ensures var s' := Factored(s, t, k, from);
            if x in s.ops then s'.ops[x] == s.ops[x] || s'.ops[x] == Subst(s.ops[x], t, s.nextId)
            else forall y :: y in Operands(s'.ops[x]) ==> y in s'.memo && s'.memo[y] <= c.maxDegree
  {
    NoDups(c, s);
    hide Inv, Insert;
  }

  lemma FactorMemo(c: Config, s: State, t: Id, k: nat, from: nat)
    requires FactorPre(c, s, t, k) && k <= from
    ensures t in s.tree && k <= |s.order| && MemoFalls(s, Factored(s, t, k, from))
    ensures Entry1(Factored(s, t, k, from), s.nextId) && c.maxDegree >= 2
  {
    hide Inv, FactorPre, FactoredOps, Insert;
    FactorInv(c, s, t, k);
    OperandFacts(c, s, t);
    NoDups(c, s);
  }

  /** Memoised with degree 1. */
  ghost predicate Entry1(s: State, x: Id) { x in s.memo && s.memo[x] == 1 }

  lemma TameFactor(c: Config, s: State, t: Id, k: nat, from: nat)
    requires FactorPre(c, s, t, k) && k <= from && c.noDiv && Tame(c, s)
    ensures t in s.tree && Tame(c, Factored(s, t, k, from))
  {
    hide Inv, Factored, Tame, SlotSame, FactorPre, Later, MemoFalls;
    FactorMemo(c, s, t, k, from);
    var s' := Factored(s, t, k, from);
    forall x, i: nat | x in s'.ops && i < |Operands(s'.ops[x])| ensures SlotSame(c, s, s', x, i) {
      FactorOps(c, s, t, k, from, x);
      if x in s.ops { SlotSubst(c, s, s', x, i, t, s.nextId); } else { SlotNew(c, s, s', x, i); }
    }
    TameStep(c, s, s');
  }

  lemma GentleFactor(c: Config, s: State, t: Id, k: nat, from: nat, v: Id)
    requires FactorPre(c, s, t, k) && k <= from
    ensures t in s.tree && Gentle(c, s, Factored(s, t, k, from), v)
  {
    hide Inv, StaysLow, Tame, LowFollow, FactorPre, Factored, Later, StandsFor;
    FactorFollows(c, s, t, k, from);
    FactorStep(c, s, t, k, from);
    FactorInv(c, s, t, k);
    FactorKeeps(s, t, k, from);
    if c.noDiv && Tame(c, s) && v in s.tree {
      TameFactor(c, s, t, k, from);
      LowStep(c, s, Factored(s, t, k, from), {}, s.tree[v]);
    }
  }

  lemma FactorInv(c: Config, s: State, t: Id, k: nat)
    requires FactorPre(c, s, t, k)
    ensures Inv(c, s) && k <= |s.order| && t in s.ops && s.ops[t].IsValue() && s.nextId !in s.memo && t in s.memo
  {}

  lemma FactorKeeps(s: State, t: Id, k: nat, from: nat)
    requires k <= |s.order| && t in s.tree
    ensures forall x :: x in s.ops ==> x in Factored(s, t, k, from).ops
  {}

  lemma TameMul(c: Config, s: State, v: Id, l: Id, r: Id, k: nat)
    requires MulPre(c, s, v, l, r, k) && Tame(c, s)
    ensures Tame(c, WithMul(s, v, l, r, k))
  {
    hide Inv, WithMul, Tame, SlotSame;
    var s' := WithMul(s, v, l, r, k);
    MulStep(c, s, v, l, r, k);
    MulMemo(c, s, v, l, r, k);
    forall x, i: nat | x in s'.ops && i < |Operands(s'.ops[x])| ensures SlotSame(c, s, s', x, i) {
      MulSlot(c, s, v, l, r, k, x, i);
    }
    TameStep(c, s, s');
  }

  lemma MulMemo(c: Config, s: State, v: Id, l: Id, r: Id, k: nat)
    requires MulPre(c, s, v, l, r, k)
    ensures MemoFalls(s, WithMul(s, v, l, r, k))
  {
    InvFacts(c, s);
    NoDups(c, s);
    MulStep(c, s, v, l, r, k);
    hide Inv, WithMul, MulPre;
  }

  lemma MulSlot(c: Config, s: State, v: Id, l: Id, r: Id, k: nat, x: Id, i: nat)
    requires MulPre(c, s, v, l, r, k) && x in WithMul(s, v, l, r, k).ops
    requires i < |Operands(WithMul(s, v, l, r, k).ops[x])|
    ensures SlotSame(c, s, WithMul(s, v, l, r, k), x, i)
  {
    NoDups(c, s);
    InvFacts(c, s);
    hide Inv, Insert;
  }

  lemma GentleMul(c: Config, s: State, v: Id, l: Id, r: Id, k: nat)
    requires MulPre(c, s, v, l, r, k) && v in s.memo && s.memo[v] > c.maxDegree
    ensures Gentle(c, s, WithMul(s, v, l, r, k), v)
  {
    MulFollows(c, s, v, l, r, k);
    MulStep(c, s, v, l, r, k);
    NoDups(c, s);
    var s' := WithMul(s, v, l, r, k);
    if Tame(c, s) { TameMul(c, s, v, l, r, k); }
    hide Inv, Insert, LowFollow, StaysLow, Tame;
    LowStep(c, s, s', {}, s.tree[v]);
  }

  lemma TameRetire(c: Config, s: State, v: Id, w: Id)
    requires RetirePre(c, s, v, w) && Tame(c, s)
    ensures Tame(c, Retired(s, v, w))
  {
    var s' := Retired(s, v, w);
    hide Inv, Remove, Tame;
    forall x, i: nat | x in s'.ops && i < |Operands(s'.ops[x])| ensures SlotSame(c, s, s', x, i) {
      SlotSubst(c, s, s', x, i, v, w);
    }
    TameStep(c, s, s');
  }

  lemma GentleRetire(c: Config, s: State, v: Id, w: Id)
    requires RetirePre(c, s, v, w) && NonlinearProduct(s.tree[v])
    ensures Gentle(c, s, Retired(s, v, w), v)
  {
    RetireFollows(c, s, v, w);
    RetireStep(c, s, v, w);
    InvFacts(c, s);
    ReachSelf(c.source, v);
    var s' := Retired(s, v, w);
    if Tame(c, s) { TameRetire(c, s, v, w); }
    hide Inv, Remove, LowFollow, StaysLow, NonlinearProduct, Reaches, Tame;
    LowStep(c, s, s', {}, s.tree[v]);
  }

  lemma TameReroot(c: Config, s: State, v: Id, op: Op, d: nat)
    requires RerootPre(c, s, v, op, d) && Tame(c, s)
    requires forall y :: y in Operands(op) ==> y in s.memo && s.memo[y] <= c.maxDegree
    ensures Tame(c, Rerooted(s, v, op, d))
  {
    RerootStep(c, s, v, op, d);
    var s' := Rerooted(s, v, op, d);
    assert MemoFalls(s, s');
    hide Inv, Tame, RerootPre;
    forall x, i: nat | x in s'.ops && i < |Operands(s'.ops[x])| ensures SlotSame(c, s, s', x, i) {
      if x == v {
        assert Operands(op)[i] in Operands(op);
      }
    }
    TameStep(c, s, s');
  }

  lemma GentleReroot(c: Config, s: State, v: Id, op: Op, d: nat)
    requires RerootPre(c, s, v, op, d) && v in s.memo && s.memo[v] > c.maxDegree
    requires c.noDiv ==> forall y :: y in Operands(op) ==> y in s.memo && s.memo[y] <= c.maxDegree
    ensures Gentle(c, s, Rerooted(s, v, op, d), v)
  {
    hide Inv, LowFollow, StaysLow, Tame, RerootPre, Later, FrameFrom, OverRoot, Within;
    RerootRoot(c, s, v, op, d);
    RerootFollows(c, s, v, op, d);
    RerootStep(c, s, v, op, d);
    if c.noDiv && Tame(c, s) { TameReroot(c, s, v, op, d); }
    LowStep(c, s, Rerooted(s, v, op, d), {v}, s.tree[v]);
  }

  lemma RerootRoot(c: Config, s: State, v: Id, op: Op, d: nat)
    requires RerootPre(c, s, v, op, d) && v in s.memo && s.memo[v] > c.maxDegree
    ensures Inv(c, s) && v in s.ops && s.ops[v].IsValue() && v in s.tree && OverRoot(c, s.tree[v])
    ensures Within(s.tree[v], s.tree[v])
  {
    OperandFacts(c, s, v);
    InvFacts(c, s);
  }

  // ---------- whole operations ----------

  lemma BothParts(c: Config, s0: State, s1: State, s2: State, v: Id, lhs: Id, rhs: Id)
    requires BothLowered(c, s0, s1, s2, v, lhs, rhs)
    ensures Inv(c, s0) && Inv(c, s1) && Later(c, s0, s1) && Later(c, s1, s2)
    ensures v in s0.ops && s0.ops[v].Bin? && v in s0.memo && s0.memo[v] > c.maxDegree
    ensures v in s1.ops && s1.ops[v].Bin? && v in s1.memo && s1.memo[v] > c.maxDegree
    ensures Operands(s0.ops[v])[0] == s0.ops[v].l && Operands(s1.ops[v])[1] == s1.ops[v].r
  {
    hide Inv, Later, FrameFrom, StandsFor;
    LaterBin(c, s0, s1, v);
  }

  lemma GentleBoth(c: Config, s0: State, s1: State, s2: State, v: Id, lhs: Id, rhs: Id)
    requires BothLowered(c, s0, s1, s2, v, lhs, rhs)
    requires Gentle(c, s0, s1, s0.ops[v].l) && Gentle(c, s1, s2, s1.ops[v].r)
    ensures Gentle(c, s0, s2, v)
  {
    hide Inv, Gentle, Later, FrameFrom, BothLowered;
    BothParts(c, s0, s1, s2, v, lhs, rhs);
    GentleOperand(c, s0, s1, v, 0);
    GentleOperand(c, s1, s2, v, 1);
    GentleTrans(c, s0, s1, s2, v);
  }

  lemma CachedSame(s: State, v: Id)
    ensures Cached(s, v).ops == s.ops && Cached(s, v).order == s.order && Cached(s, v).memo == s.memo
  {}

  /** The end of lowering a sum, a difference or a negation. */
  lemma GentleRooted(c: Config, s0: State, s2: State, v: Id, op: Op, d: nat, s4: State)
    requires Inv(c, s0) && Gentle(c, s0, s2, v) && Ext(c, s0, s2, v) && RerootPre(c, s2, v, op, d)
    requires s4 == Cached(Rerooted(s2, v, op, d), v)
    requires v in s0.ops && v in s0.memo && s0.memo[v] > c.maxDegree
    requires c.noDiv ==> forall y :: y in Operands(op) ==> y in s2.memo && s2.memo[y] <= c.maxDegree
    ensures Gentle(c, s0, s4, v)
  {
    var s3 := Rerooted(s2, v, op, d);
    RerootStep(c, s2, v, op, d);
    assert v in s0.order && v in s2.memo && s2.memo[v] == s0.memo[v];
    hide Inv, Gentle, Later, FrameFrom, RerootPre;
    GentleReroot(c, s2, v, op, d);
    GentleTrans(c, s0, s2, s3, v);
    CachedSame(s3, v);
    hide Cached, Rerooted;
    GentleSame(c, s3, s4, v);
    InvLaterTrans(c, s0, s2, s3);
    LaterSame(c, s3, s4);
    GentleTrans(c, s0, s3, s4, v);
  }

  lemma LaterSame(c: Config, s: State, s': State)
    requires s' == s.(rewrites := s'.rewrites)
    ensures Later(c, s, s')
  {}

  lemma GentleFactored(c: Config, s0: State, s: State, v: Id, lhs: Id, rhs: Id, k: nat, use: Id, t: Id)
    requires ProductPoint(c, s0, s, v, lhs, rhs, k, use) && (t == lhs || t == rhs) && t in s.memo && s.memo[t] >= 2
    requires Gentle(c, s0, s, v)
    ensures t in s.tree && k <= |s.order| && Gentle(c, s0, Factored(s, t, k, k), v)
  {
    hide Inv, Gentle, Later, FrameFrom, Factored;
    ProductFactored(c, s0, s, v, lhs, rhs, k, use, t);
    GentleFactor(c, s, t, k, k, v);
    FactorStep(c, s, t, k, k);
    GentleTrans(c, s0, s, Factored(s, t, k, k), v);
  }

  /** Both sides of a product that has to be taken apart are no constants. */
  lemma BothNonconstant(c: Config, s0: State, s: State, v: Id, lhs: Id, rhs: Id, k: nat, use: Id)
    requires ProductPoint(c, s0, s, v, lhs, rhs, k, use) && Plus(s.memo[lhs], s.memo[rhs]) > c.maxDegree && c.noDiv
    requires v in s0.tree
    ensures NonlinearProduct(s0.tree[v])
  {
    ProductDegrees(c, s0, s, v, lhs, rhs, k, use);
    InvFacts(c, s);
  }

  lemma GentleBuilt(c: Config, s0: State, s: State, v: Id, lhs: Id, rhs: Id, k: nat, use: Id)
    requires ProductPoint(c, s0, s, v, lhs, rhs, k, use) && s.memo[lhs] + s.memo[rhs] <= c.maxDegree
    requires Gentle(c, s0, s, v) && v in s0.tree
    ensures k <= |s.order| && v in WithMul(s, v, lhs, rhs, k).order && Gentle(c, s0, WithMul(s, v, lhs, rhs, k), v)
    ensures (c.noDiv ==> NonlinearProduct(s0.tree[v])) ==>
        Gentle(c, s0, Retired(WithMul(s, v, lhs, rhs, k), v, s.nextId), v)
  {
    var s1 := WithMul(s, v, lhs, rhs, k);
    ProductMul(c, s0, s, v, lhs, rhs, k, use);
    BuiltRetire(c, s0, s, v, lhs, rhs, k, use);
    assert Ext(c, s0, s, use) && s1.tree[v] == s.tree[v] == s0.tree[v] by { NoDups(c, s); InvFacts(c, s); }
    hide Inv, Gentle, Later, FrameFrom, WithMul, NonlinearProduct, Retired;
    GentleMul(c, s, v, lhs, rhs, k);
    MulStep(c, s, v, lhs, rhs, k);
    GentleTrans(c, s0, s, s1, v);
    InvLaterTrans(c, s0, s, s1);
    if c.noDiv ==> NonlinearProduct(s0.tree[v]) {
      RetireStep(c, s1, v, s.nextId);
      if c.noDiv { GentleRetire(c, s1, v, s.nextId); } else { GentleDiv(c, s1, Retired(s1, v, s.nextId), v); }
      GentleTrans(c, s0, s1, Retired(s1, v, s.nextId), v);
    }
  }

  lemma GentleDiv(c: Config, s: State, s': State, v: Id)
    requires !c.noDiv
    ensures Gentle(c, s, s', v)
  {}

  lemma GentleMemo(c: Config, s: State, s': State, v: Id)
    requires Later(c, s, s') && s'.ops == s.ops && s'.order == s.order
    ensures Gentle(c, s, s', v)
  {
    assert MemoFalls(s, s');
    hide Later;
    GentleSame(c, s, s', v);
  }

  lemma GentleFrom(c: Config, s0: State, s1: State, s2: State, v: Id, r: Id, use: Id)
    requires Inv(c, s0) && Later(c, s0, s1) && s1.ops == s0.ops && s1.order == s0.order
    requires Gentle(c, s1, s2, v) && Lowered(c, s1, s2, v, r, use)
    ensures Gentle(c, s0, s2, v)
  {
    GentleMemo(c, s0, s1, v);
    hide Gentle, Inv, FrameFrom;
    GentleTrans(c, s0, s1, s2, v);
  }

  lemma GentleSelf(c: Config, s: State, s1: State, s2: State, v: Id, r: Id, use: Id)
    requires Lowered(c, s, s2, v, r, use) && s1.ops == s.ops && s1.order == s.order && s2 == Cached(s1, v)
    ensures Gentle(c, s, s2, v)
  {
    GentleMemo(c, s, s2, v);
  }

  // ---------- setting the operand of a constraint ----------

  ghost predicate TameKept(c: Config, s: State, s': State) {
    c.noDiv && Tame(c, s) ==> Tame(c, s')
  }

  lemma TameSet(c: Config, s: State, x: Id, op: Op)
    requires x in s.ops
    requires forall i: nat :: i < |Operands(op)| ==> OperandFine(c, s, x, op, i)
    ensures TameKept(c, s, s.(ops := s.ops[x := op]))
  {
    var s' := s.(ops := s.ops[x := op]);
    if c.noDiv && Tame(c, s) {
      assert MemoFalls(s, s');
      hide Tame;
      forall y, i: nat | y in s'.ops && i < |Operands(s'.ops[y])| ensures SlotSame(c, s, s', y, i) {
        if y == x { assert OperandFine(c, s, x, op, i); }
      }
      TameStep(c, s, s');
    }
  }

  ghost predicate OperandFine(c: Config, s: State, x: Id, op: Op, i: nat)
    requires x in s.ops && i < |Operands(op)|
  {
    var y := Operands(op)[i];
    (c.noDiv ==> y in s.memo && s.memo[y] <= c.maxDegree) || (i < |Operands(s.ops[x])| && Operands(s.ops[x])[i] == y)
  }

  lemma GentleTame(c: Config, s: State, s': State, v: Id)
    requires Gentle(c, s, s', v) && v in s.tree
    ensures TameKept(c, s, s')
  {}

  lemma TameSame(c: Config, s: State, s': State)
    requires s'.ops == s.ops && MemoFalls(s, s')
    ensures TameKept(c, s, s')
  {
    if Tame(c, s) { TameStep(c, s, s'); }
  }

  lemma TameRefl(c: Config, s: State)
    ensures TameKept(c, s, s)
  {}

  lemma TameMemo(c: Config, s: State, s': State)
    requires s'.ops == s.ops && Later(c, s, s')
    ensures TameKept(c, s, s')
  {
    TameSame(c, s, s');
  }

  /** A lowered value is within the bound. */
  lemma LoweredBound(c: Config, s: State, s': State, v: Id, r: Id, use: Id)
    requires Lowered(c, s, s', v, r, use)
    ensures r in s'.memo && (c.noDiv ==> s'.memo[r] <= c.maxDegree)
  {}

  lemma TameSide(c: Config, s: State, s1: State, x: Id, left: bool, v: Id, r: Id)
    requires Lowered(c, s, s1, v, r, x) && Gentle(c, s, s1, v) && v in s.tree && x in s1.ops && s1.ops[x].Eq?
    ensures TameKept(c, s, s1.(ops := s1.ops[x := WithSide(s1.ops[x], left, r)]))
  {
    LoweredBound(c, s, s1, v, r, x);
    GentleTame(c, s, s1, v);
    hide Lowered, Gentle, Tame;
    TameSet(c, s1, x, WithSide(s1.ops[x], left, r));
  }

  lemma TameArgument(c: Config, s: State, s1: State, x: Id, j: nat, v: Id, r: Id)
    requires Lowered(c, s, s1, v, r, x) && Gentle(c, s, s1, v) && v in s.tree && x in s1.ops && s1.ops[x].Use?
    requires j < |s1.ops[x].args|
    ensures TameKept(c, s, s1.(ops := s1.ops[x := s1.ops[x].(args := s1.ops[x].args[j := r])]))
  {
    LoweredBound(c, s, s1, v, r, x);
    GentleTame(c, s, s1, v);
    hide Lowered, Gentle, Tame;
    TameSet(c, s1, x, s1.ops[x].(args := s1.ops[x].args[j := r]));
  }
}
