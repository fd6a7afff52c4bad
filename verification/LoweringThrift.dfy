/** What lowering does not do: it names nothing but the factors of products over the bound, and leaves alone what is
    within it. */
module LoweringThrift {
  import opened Ir
  import opened LoweringState
  import opened LoweringSteps
  import opened PolyLowering
  import opened LoweringFunction
  import opened LoweringEffects
  import opened ConsumerLowering
  import opened CallArguments
  import opened LoweringMeaning

  /** `t` is one of the two factors of a product over the bound that `e` is made of. */
  ghost predicate FactorOf(c: Config, t: Expr, e: Expr) {
    exists g: Expr :: Within(g, e) && OverFactor(c, t, g)
  }

  ghost predicate OverFactor(c: Config, t: Expr, g: Expr) {
    g.EBin? && g.kind == MulK && Degree(g) > c.maxDegree && (t == g.l || t == g.r)
  }

  /** Generated member `k` names such a factor. */
  ghost predicate NamesFactor(c: Config, s: State, k: nat, e: Expr) {
    k < |s.aux| && s.aux[k].computed in s.tree && FactorOf(c, s.tree[s.aux[k].computed], e)
  }

  /** The members generated for `v` name factors of over-degree products it is made of. */
  ghost predicate Thrifty(c: Config, s: State, s': State, v: Id) {
    v in s.tree ==> forall k: nat :: |s.aux| <= k < |s'.aux| ==> NamesFactor(c, s', k, s.tree[v])
  }

  /** What is recorded stays recorded. */
  ghost predicate Carries(s: State, s': State) {
    s.aux <= s'.aux && forall x :: x in s.tree ==> x in s'.tree && s'.tree[x] == s.tree[x]
  }

  ghost predicate Careful(c: Config, s: State, s': State, v: Id) { Gentle(c, s, s', v) && Thrifty(c, s, s', v) }

  lemma CarefulParts(c: Config, s: State, s': State, v: Id)
    requires Careful(c, s, s', v)
    ensures Gentle(c, s, s', v) && Thrifty(c, s, s', v)
  {}

  lemma LaterCarries(c: Config, s: State, s': State)
    requires Later(c, s, s')
    ensures Carries(s, s')
  {}

  lemma ExtCarries(c: Config, s: State, s': State, use: Id)
    requires Ext(c, s, s', use)
    ensures Carries(s, s')
  {}

  lemma NameStays(c: Config, s: State, s': State, k: nat, e: Expr)
    requires NamesFactor(c, s, k, e) && Carries(s, s')
    ensures NamesFactor(c, s', k, e)
  {
    hide FactorOf;
  }

  lemma ThriftyTrans(c: Config, s: State, s1: State, s2: State, v: Id)
    requires Thrifty(c, s, s1, v) && Thrifty(c, s1, s2, v) && Carries(s, s1) && Carries(s1, s2)
    ensures Thrifty(c, s, s2, v)
  {
    if v in s.tree {
      forall k: nat | |s.aux| <= k < |s2.aux| ensures NamesFactor(c, s2, k, s.tree[v]) {
        if k < |s1.aux| { NameStays(c, s1, s2, k, s.tree[v]); }
      }
    }
  }

  lemma FactorWithin(c: Config, t: Expr, e: Expr, f: Expr)
    requires FactorOf(c, t, e) && Within(e, f)
    ensures FactorOf(c, t, f)
  {
    var g: Expr :| Within(g, e) && OverFactor(c, t, g);
    WithinTrans(g, e, f);
  }

  lemma ThriftyOperand(c: Config, s: State, s': State, v: Id, k: nat)
    requires Inv(c, s) && v in s.ops && s.ops[v].IsValue() && k < |Operands(s.ops[v])|
    requires Thrifty(c, s, s', Operands(s.ops[v])[k])
    ensures Thrifty(c, s, s', v)
  {
    var y := Operands(s.ops[v])[k];
    OperandFacts(c, s, v);
    assert y in s.tree && v in s.tree && Within(s.tree[y], s.tree[v]);
    hide Inv, NodeOk, Within, FactorOf;
    forall j: nat | |s.aux| <= j < |s'.aux| ensures NamesFactor(c, s', j, s.tree[v]) {
      assert NamesFactor(c, s', j, s.tree[y]);
      FactorWithin(c, s'.tree[s'.aux[j].computed], s.tree[y], s.tree[v]);
    }
  }

  lemma ThriftySame(c: Config, s: State, s': State, v: Id)
    requires s'.aux == s.aux
    ensures Thrifty(c, s, s', v)
  {}

  /** A side of the product is named while the product is over the bound. */
  lemma ThriftyFactored(c: Config, s0: State, s: State, v: Id, lhs: Id, rhs: Id, k: nat, use: Id, t: Id)
    requires ProductPoint(c, s0, s, v, lhs, rhs, k, use) && (t == lhs || t == rhs) && t in s.memo && s.memo[t] >= 2
    requires Thrifty(c, s0, s, v)
    ensures t in s.tree && k <= |s.order| && Thrifty(c, s0, Factored(s, t, k, k), v)
  {
    hide Inv, Thrifty, Later, FrameFrom, Factored, FactorPre;
    ProductFactored(c, s0, s, v, lhs, rhs, k, use, t);
    ProductDegrees(c, s0, s, v, lhs, rhs, k, use);
    OverProduct(c, s0, s, v, lhs, rhs, k, use);
    FactorStep(c, s, t, k, k);
    ThriftyOne(c, s, t, k, v);
    LaterCarries(c, s, Factored(s, t, k, k));
    ExtCarries(c, s0, s, use);
    ThriftyTrans(c, s0, s, Factored(s, t, k, k), v);
  }

  lemma OverProduct(c: Config, s0: State, s: State, v: Id, lhs: Id, rhs: Id, k: nat, use: Id)
    requires ProductPoint(c, s0, s, v, lhs, rhs, k, use)
    ensures lhs in s.tree && rhs in s.tree && v in s.tree && s.nextId !in s.tree
    ensures OverFactor(c, s.tree[lhs], s.tree[v]) && OverFactor(c, s.tree[rhs], s.tree[v])
  {
    hide WellFormed, NoDup, RewritesOk, AuxOk, ChecksOk, Ext;
    InvFacts(c, s);
  }

  lemma ThriftyOne(c: Config, s: State, t: Id, k: nat, v: Id)
    requires k <= |s.order| && t in s.tree && v in s.tree && s.nextId !in s.tree && OverFactor(c, s.tree[t], s.tree[v])
    ensures Thrifty(c, s, Factored(s, t, k, k), v)
  {
    hide Insert, FactoredOps;
    var s' := Factored(s, t, k, k);
    assert Within(s.tree[v], s.tree[v]);
    assert s'.aux == s.aux + [AuxAssignment(s.counter, t, s.nextId)] && s'.tree[t] == s.tree[t];
    assert NamesFactor(c, s', |s.aux|, s.tree[v]);
  }

  // ---------- the steps of lowering, all considered ----------

  lemma CarefulSame(c: Config, s: State, s': State, v: Id)
    requires s'.ops == s.ops && s'.order == s.order && MemoFalls(s, s') && s'.aux == s.aux
    ensures Careful(c, s, s', v)
  {
    GentleSame(c, s, s', v);
  }

  lemma CarefulOperand(c: Config, s: State, s': State, v: Id, k: nat)
    requires Inv(c, s) && v in s.ops && s.ops[v].IsValue() && k < |Operands(s.ops[v])|
    requires Careful(c, s, s', Operands(s.ops[v])[k])
    requires v in s.memo && s.memo[v] > c.maxDegree
    ensures Careful(c, s, s', v)
  {
    hide Inv, Gentle, Thrifty;
    GentleOperand(c, s, s', v, k);
    ThriftyOperand(c, s, s', v, k);
  }

  lemma CarefulBoth(c: Config, s0: State, s1: State, s2: State, v: Id, lhs: Id, rhs: Id)
    requires BothLowered(c, s0, s1, s2, v, lhs, rhs)
    requires Careful(c, s0, s1, s0.ops[v].l) && Careful(c, s1, s2, s1.ops[v].r)
    ensures Careful(c, s0, s2, v)
  {
    hide Inv, Gentle, Thrifty, Later, FrameFrom, BothLowered;
    GentleBoth(c, s0, s1, s2, v, lhs, rhs);
    BothParts(c, s0, s1, s2, v, lhs, rhs);
    ThriftyOperand(c, s0, s1, v, 0);
    ThriftyOperand(c, s1, s2, v, 1);
    LaterCarries(c, s0, s1);
    LaterCarries(c, s1, s2);
    ThriftyTrans(c, s0, s1, s2, v);
  }

  lemma CarefulRooted(c: Config, s0: State, s2: State, v: Id, op: Op, d: nat, s4: State)
    requires Inv(c, s0) && Careful(c, s0, s2, v) && Ext(c, s0, s2, v) && RerootPre(c, s2, v, op, d)
    requires s4 == Cached(Rerooted(s2, v, op, d), v)
    requires v in s0.ops && v in s0.memo && s0.memo[v] > c.maxDegree
    requires c.noDiv ==> forall y :: y in Operands(op) ==> y in s2.memo && s2.memo[y] <= c.maxDegree
    ensures Careful(c, s0, s4, v)
  {
    assert s4.aux == s2.aux && s4.tree == s2.tree;
    hide Inv, Gentle, Thrifty, Ext, RerootPre, Rerooted, Cached;
    GentleRooted(c, s0, s2, v, op, d, s4);
    ThriftySame(c, s2, s4, v);
    ExtCarries(c, s0, s2, v);
    ThriftyTrans(c, s0, s2, s4, v);
  }

  lemma CarefulFactored(c: Config, s0: State, s: State, v: Id, lhs: Id, rhs: Id, k: nat, use: Id, t: Id)
    requires ProductPoint(c, s0, s, v, lhs, rhs, k, use) && (t == lhs || t == rhs) && t in s.memo && s.memo[t] >= 2
    requires Careful(c, s0, s, v)
    ensures t in s.tree && k <= |s.order| && Careful(c, s0, Factored(s, t, k, k), v)
  {
    hide Inv, Gentle, Thrifty, ProductPoint, Factored;
    GentleFactored(c, s0, s, v, lhs, rhs, k, use, t);
    ThriftyFactored(c, s0, s, v, lhs, rhs, k, use, t);
  }

  lemma CarefulBuilt(c: Config, s0: State, s: State, v: Id, lhs: Id, rhs: Id, k: nat, use: Id)
    requires ProductPoint(c, s0, s, v, lhs, rhs, k, use) && s.memo[lhs] + s.memo[rhs] <= c.maxDegree
    requires Careful(c, s0, s, v) && v in s0.tree
    ensures k <= |s.order| && v in WithMul(s, v, lhs, rhs, k).order && Careful(c, s0, WithMul(s, v, lhs, rhs, k), v)
    ensures (c.noDiv ==> NonlinearProduct(s0.tree[v])) ==>
        Careful(c, s0, Retired(WithMul(s, v, lhs, rhs, k), v, s.nextId), v)
  {
    hide Inv, Gentle, Thrifty, NonlinearProduct, Later, FrameFrom;
    GentleBuilt(c, s0, s, v, lhs, rhs, k, use);
    ExtCarries(c, s0, s, use);
    ProductMul(c, s0, s, v, lhs, rhs, k, use);
    var s1 := WithMul(s, v, lhs, rhs, k);
    MulStep(c, s, v, lhs, rhs, k);
    LaterCarries(c, s, s1);
    ThriftySame(c, s, s1, v);
    ThriftyTrans(c, s0, s, s1, v);
    var s2 := Retired(s1, v, s.nextId);
    assert s2.aux == s1.aux && s2.tree == s1.tree;
    ThriftySame(c, s, s2, v);
    CarriesSame(s, s1, s2);
    ThriftyTrans(c, s0, s, s2, v);
  }

  lemma CarriesSame(s: State, s1: State, s2: State)
    requires Carries(s, s1) && s2.aux == s1.aux && s2.tree == s1.tree
    ensures Carries(s, s2)
  {}

  lemma CarefulFrom(c: Config, s0: State, s1: State, s2: State, v: Id, r: Id, use: Id)
    requires Inv(c, s0) && Later(c, s0, s1) && s1.ops == s0.ops && s1.order == s0.order && s1.aux == s0.aux
    requires Careful(c, s1, s2, v) && Lowered(c, s1, s2, v, r, use)
    ensures Careful(c, s0, s2, v)
  {
    hide Gentle, Thrifty, Inv, Later, FrameFrom, StandsFor;
    GentleFrom(c, s0, s1, s2, v, r, use);
    ThriftySame(c, s0, s1, v);
    LaterCarries(c, s0, s1);
    ExtCarries(c, s1, s2, use);
    ThriftyTrans(c, s0, s1, s2, v);
  }

  lemma CarefulSelf(c: Config, s: State, s1: State, s2: State, v: Id, r: Id, use: Id)
    requires Lowered(c, s, s2, v, r, use) && s1.ops == s.ops && s1.order == s.order && s2 == Cached(s1, v)
    requires s1.aux == s.aux
    ensures Careful(c, s, s2, v)
  {
    hide Gentle;
    GentleSelf(c, s, s1, s2, v, r, use);
  }

  // ---------- the phases ----------

  /** `e` is a side, a row operand or a call argument of the source. */
  ghost predicate Stated(c: Config, x: Id, e: Expr) {
    x in c.checks &&
    match c.checks[x]
    case EqCheck(l, r) => e == l || e == r
    case UseCheck(_, es) => e in es
  }

  /** Generated member `k` names a factor of an over-degree product in an expression of the source. */
  ghost predicate Needed(c: Config, s: State, k: nat) {
    exists x, e :: Stated(c, x, e) && NamesFactor(c, s, k, e)
  }

  ghost predicate OnlyNeeded(c: Config, s: State, s': State) {
    Carries(s, s') && forall k: nat :: |s.aux| <= k < |s'.aux| ==> Needed(c, s', k)
  }

  lemma NeededStays(c: Config, s: State, s': State, k: nat)
    requires Needed(c, s, k) && Carries(s, s')
    ensures Needed(c, s', k)
  {
    var x, e :| Stated(c, x, e) && NamesFactor(c, s, k, e);
    NameStays(c, s, s', k, e);
  }

  lemma NeededTrans(c: Config, s: State, s1: State, s2: State)
    requires OnlyNeeded(c, s, s1) && OnlyNeeded(c, s1, s2)
    ensures OnlyNeeded(c, s, s2)
  {
    hide Needed;
    forall k: nat | |s.aux| <= k < |s2.aux| ensures Needed(c, s2, k) {
      if k < |s1.aux| { NeededStays(c, s1, s2, k); }
    }
  }

  /** Nothing but the memo is different. */
  ghost predicate Untouched(s: State, s': State) { s' == s.(memo := s'.memo) }

  lemma NeededSame(c: Config, s: State, s': State)
    requires Untouched(s, s')
    ensures OnlyNeeded(c, s, s')
  {}

  /** Lowering a value the source states, and setting an operand to what stands for it. */
  lemma NeededFor(c: Config, s: State, s1: State, s2: State, v: Id, r: Id, use: Id, x: Id)
    requires Careful(c, s, s1, v) && Lowered(c, s, s1, v, r, use) && v in s.tree && Stated(c, x, s.tree[v])
    requires s2 == s1.(ops := s2.ops)
    ensures OnlyNeeded(c, s, s2)
  {
    hide Gentle, Inv, Later, FrameFrom, NamesFactor, Stated;
    ExtCarries(c, s, s1, use);
    CarriesSame(s, s1, s2);
    forall k: nat | |s.aux| <= k < |s2.aux| ensures Needed(c, s2, k) {
      assert NamesFactor(c, s1, k, s.tree[v]);
      NameStays(c, s1, s2, k, s.tree[v]);
    }
  }

  /** One side of an equality of the source, lowered if its degree, as it was looked up, is over the bound. */
  ghost function LoweredSide(c: Config, s: State, x: Id, left: bool, degree: nat): State
    requires x in s.ops && s.ops[x].Eq?
  {
    if degree <= c.maxDegree then s
    else
      var a := Lower(c, s, Side(s.ops[x], left), x);
      if x in a.s.ops && a.s.ops[x].Eq? then a.s.(ops := a.s.ops[x := WithSide(a.s.ops[x], left, a.r)]) else a.s
  }

  /** An equality with both degrees looked up first, then its sides lowered. */
  ghost function LoweredEquality(c: Config, s: State, x: Id): State
    requires x in s.ops && s.ops[x].Eq?
  {
    var s1 := s.(memo := Measured(s.ops, s.tree, s.ops[x].lhs, s.memo));
    var s2 := s1.(memo := Measured(s.ops, s.tree, s.ops[x].rhs, s1.memo));
    if !(s.ops[x].lhs in s1.memo && s.ops[x].rhs in s2.memo) then s2
    else
      var s3 := LoweredSide(c, s2, x, true, s1.memo[s.ops[x].lhs]);
      if x in s3.ops && s3.ops[x].Eq? then LoweredSide(c, s3, x, false, s2.memo[s.ops[x].rhs]) else s3
  }

  /** One operand of a lookup row, lowered if its degree is over the bound. */
  ghost function LoweredOperand(c: Config, s: State, x: Id, j: nat): State
    requires x in s.ops && s.ops[x].Use? && j < |s.ops[x].args|
  {
    var v := s.ops[x].args[j];
    var s1 := s.(memo := Measured(s.ops, s.tree, v, s.memo));
    if v !in s1.memo || s1.memo[v] <= c.maxDegree then s1
    else
      var a := Lower(c, s1, v, x);
      if x in a.s.ops && a.s.ops[x].Use? && j < |a.s.ops[x].args|
        then a.s.(ops := a.s.ops[x := a.s.ops[x].(args := a.s.ops[x].args[j := a.r])])
      else a.s
  }

  lemma SideStated(c: Config, s: State, x: Id, left: bool)
    requires Inv(c, s) && x in c.checks && x in s.ops && s.ops[x].Eq?
    ensures Side(s.ops[x], left) in s.tree && Stated(c, x, s.tree[Side(s.ops[x], left)])
  {}

  lemma RowStated(c: Config, s: State, x: Id, j: nat)
    requires Inv(c, s) && IsRow(c, x, j)
    ensures x in s.ops && s.ops[x].Use? && j < |s.ops[x].args| && s.ops[x].args[j] in s.tree
    ensures Stated(c, x, s.tree[s.ops[x].args[j]])
  {
    RowOperand(c, s, x, j);
    assert States(s.ops[x], s.tree, c.checks[x]);
  }

  /** Both sides of equality `x` are within the bound in the source. */
  ghost predicate SidesFit(c: Config, s: State, x: Id) {
    x in s.ops && s.ops[x].Eq? ==>
      s.ops[x].lhs in s.tree && Degree(s.tree[s.ops[x].lhs]) <= c.maxDegree &&
      s.ops[x].rhs in s.tree && Degree(s.tree[s.ops[x].rhs]) <= c.maxDegree
  }

  ghost predicate EqualitiesFit(c: Config, s: State) { forall x :: x in s.ops ==> SidesFit(c, s, x) }

  /** Operand `j` of consumer `x` has at most degree `bound` in the source. */
  ghost predicate OperandFits(s: State, x: Id, j: nat, bound: nat) {
    x in s.ops && s.ops[x].Use? && j < |s.ops[x].args| ==>
      s.ops[x].args[j] in s.tree && Degree(s.tree[s.ops[x].args[j]]) <= bound
  }

  ghost predicate ConsumersFit(s: State, calls: set<nat>, called: bool, bound: nat) {
    forall x, j: nat :: x in s.ops && s.ops[x].Use? && (s.ops[x].tag in calls) == called ==> OperandFits(s, x, j, bound)
  }

  lemma DegreeKnown(c: Config, s: State, x: Id)
    requires Inv(c, s) && x in s.memo
    ensures x in s.tree && s.memo[x] <= Degree(s.tree[x])
  {}

  lemma SideLeft(c: Config, s: State, x: Id, left: bool, degree: nat)
    requires x in s.ops && s.ops[x].Eq? && degree <= c.maxDegree
    ensures LoweredSide(c, s, x, left, degree) == s
  {}

  lemma StillFit(c: Config, s0: State, s: State, x: Id)
    requires EqualitiesFit(c, s0) && Untouched(s0, s) && x in s.ops
    ensures SidesFit(c, s, x)
  {
    assert SidesFit(c, s0, x);
  }

  lemma FitsStill(s0: State, s: State, x: Id, j: nat, bound: nat)
    requires Untouched(s0, s)
    ensures OperandFits(s0, x, j, bound) ==> OperandFits(s, x, j, bound)
  {}

  lemma ConsumerStill(c: Config, s0: State, s: State, x: Id, calls: set<nat>, called: bool, bound: nat)
    requires Inv(c, s0) && ConsumersFit(s0, calls, called, bound) && Untouched(s0, s) && IsConsumer(c, x, calls, called)
    ensures forall j: nat :: OperandFits(s, x, j, bound)
  {
    ConsumerOp(c, s0, x, calls, called);
    hide Inv, OperandFits;
    forall j: nat ensures OperandFits(s, x, j, bound) { FitsStill(s0, s, x, j, bound); }
  }

  // ---------- call arguments ----------

  /** Generated member `k` names the nonlinear argument `e` itself. */
  ghost predicate NamesArgument(s: State, k: nat, e: Expr) {
    k < |s.aux| && s.aux[k].computed in s.tree && s.tree[s.aux[k].computed] == e && Degree(e) > 1
  }

  /** Generated member `k` names a factor of an over-degree product of the source, or a nonlinear argument of a
      constrain
      call. */
  ghost predicate Justified(c: Config, s: State, k: nat, calls: set<nat>) {
    Needed(c, s, k) || exists x, e :: IsConsumer(c, x, calls, true) && e in c.checks[x].args && NamesArgument(s, k, e)
  }

  ghost predicate OnlyJustified(c: Config, s: State, s': State, calls: set<nat>) {
    Carries(s, s') && forall k: nat :: |s.aux| <= k < |s'.aux| ==> Justified(c, s', k, calls)
  }

  lemma JustifiedStays(c: Config, s: State, s': State, k: nat, calls: set<nat>)
    requires Justified(c, s, k, calls) && Carries(s, s')
    ensures Justified(c, s', k, calls)
  {
    hide Needed;
    if Needed(c, s, k) {
      NeededStays(c, s, s', k);
    } else {
      var x, e :| IsConsumer(c, x, calls, true) && e in c.checks[x].args && NamesArgument(s, k, e);
      assert NamesArgument(s', k, e);
    }
  }

  lemma JustifiedTrans(c: Config, s: State, s1: State, s2: State, calls: set<nat>)
    requires OnlyJustified(c, s, s1, calls) && OnlyJustified(c, s1, s2, calls)
    ensures OnlyJustified(c, s, s2, calls)
  {
    hide Justified;
    forall k: nat | |s.aux| <= k < |s2.aux| ensures Justified(c, s2, k, calls) {
      if k < |s1.aux| { JustifiedStays(c, s1, s2, k, calls); }
    }
  }

  lemma JustifiedSame(c: Config, s: State, s': State, calls: set<nat>)
    requires s'.aux == s.aux && s'.tree == s.tree
    ensures OnlyJustified(c, s, s', calls)
  {}

  lemma NeededJustified(c: Config, s: State, s': State, calls: set<nat>)
    requires OnlyNeeded(c, s, s')
    ensures OnlyJustified(c, s, s', calls)
  {
    hide Needed;
  }

  /** What materialising `v` generates: names of factors, and one of `v` itself. */
  ghost predicate Named(c: Config, s: State, s': State, v: Id) {
    && v in s.tree && Carries(s, s')
    && forall k: nat :: |s.aux| <= k < |s'.aux| ==> NamesFactor(c, s', k, s.tree[v]) || NamesArgument(s', k, s.tree[v])
  }

  lemma NamedLowered(c: Config, s: State, s1: State, v: Id, r: Id, use: Id)
    requires Careful(c, s, s1, v) && Lowered(c, s, s1, v, r, use) && v in s.tree
    ensures Named(c, s, s1, v)
  {
    hide Gentle, Inv, Later, FrameFrom, NamesFactor, NamesArgument;
    ExtCarries(c, s, s1, use);
  }

  lemma NamedItself(c: Config, s: State, s1: State, v: Id, r: Id, use: Id, k: nat, from: nat)
    requires Careful(c, s, s1, v) && Lowered(c, s, s1, v, r, use) && v in s.tree && k <= |s1.order|
    requires r in s1.ops && s1.ops[r].IsValue() && OpDegree(s1.ops, s1.order, r) > 1
    ensures r in s1.tree
    ensures var s2 := Factored(s1, r, k, from); Named(c, s, s2.(rewrites := s2.rewrites[v := s1.nextId]), v)
  {
    hide Gentle, Later, FrameFrom, NamesFactor, FactorOf, Insert, FactoredOps, OpDegree, WellFormed, Kept;
    hide RewritesOk, AuxOk, ChecksOk, MemoOk;
    ExtCarries(c, s, s1, use);
    OpDegreeBelow(c, s1, r);
    var s2 := Factored(s1, r, k, from);
    var s3 := s2.(rewrites := s2.rewrites[v := s1.nextId]);
    assert s1.nextId !in s1.tree;
    assert s3.aux == s1.aux + [AuxAssignment(s1.counter, r, s1.nextId)] && s3.tree[r] == s1.tree[r] == s.tree[v];
    hide Inv;
    forall j: nat | |s.aux| <= j < |s3.aux|
      ensures NamesFactor(c, s3, j, s.tree[v]) || NamesArgument(s3, j, s.tree[v])
    {
      if j < |s1.aux| {
        NameStays(c, s1, s3, j, s.tree[v]);
      } else {
        assert NamesArgument(s3, j, s.tree[v]);
      }
    }
  }

  lemma OpDegreeBelow(c: Config, s: State, x: Id)
    requires Inv(c, s) && x in s.ops && s.ops[x].IsValue()
    ensures WellFormed(s.ops, s.order) && x in s.tree && OpDegree(s.ops, s.order, x) <= Degree(s.tree[x])
  {
    hide MemoOk, TreesOk, Exact, Measured;
    assert WellFormed(s.ops, s.order);
    NothingMemoised(s.ops, s.tree, s.order);
    MeasuredOk(c, s, x, map[]);
  }

  /** Materialising an argument of call `x`. */
  lemma NamedJustified(c: Config, s: State, s': State, v: Id, x: Id, calls: set<nat>)
    requires Named(c, s, s', v) && IsConsumer(c, x, calls, true) && s.tree[v] in c.checks[x].args
    ensures OnlyJustified(c, s, s', calls)
  {
    hide NamesFactor, NamesArgument;
    assert Stated(c, x, s.tree[v]);
  }

  /** Whatever the constrain calls are, as long as `x` is one. */
  ghost predicate AllJustified(c: Config, s: State, s': State, x: Id) {
    forall calls :: IsConsumer(c, x, calls, true) ==> OnlyJustified(c, s, s', calls)
  }

  lemma OneCallJustified(c: Config, s: State, s': State, x: Id, calls: set<nat>)
    requires AllJustified(c, s, s', x) && IsConsumer(c, x, calls, true)
    ensures OnlyJustified(c, s, s', calls)
  {}

  lemma AllJustifiedSame(c: Config, s: State, s': State, x: Id)
    requires s'.aux == s.aux && s'.tree == s.tree
    ensures AllJustified(c, s, s', x)
  {
    hide OnlyJustified;
    forall calls ensures OnlyJustified(c, s, s', calls) { JustifiedSame(c, s, s', calls); }
  }

  lemma AllJustifiedTrans(c: Config, s: State, s1: State, s2: State, x: Id)
    requires AllJustified(c, s, s1, x) && AllJustified(c, s1, s2, x)
    ensures AllJustified(c, s, s2, x)
  {
    hide OnlyJustified, IsConsumer;
    forall calls | IsConsumer(c, x, calls, true) ensures OnlyJustified(c, s, s2, calls) {
      JustifiedTrans(c, s, s1, s2, calls);
    }
  }

  /** The turn of one captured operand. */
  lemma CapturedJustified(c: Config, s0: State, s: State, s': State, x: Id, es: seq<Expr>, vals: seq<Id>, j: nat)
    requires AllJustified(c, s0, s, x) && Captured(c, s, x, es, vals) && j < |vals| && Named(c, s, s', vals[j])
    requires x in c.checks && c.checks[x].UseCheck? && es == c.checks[x].args
    ensures AllJustified(c, s0, s', x)
  {
    assert CapturedAt(s, x, es[j], vals[j]);
    assert s.tree[vals[j]] in c.checks[x].args;
    hide Captured, Named, OnlyJustified, IsConsumer;
    forall calls | IsConsumer(c, x, calls, true) ensures OnlyJustified(c, s, s', calls) {
      NamedJustified(c, s, s', vals[j], x, calls);
    }
    AllJustifiedTrans(c, s0, s, s', x);
  }

  lemma OperandThere(c: Config, s: State, x: Id, j: nat)
    requires Inv(c, s) && x in s.ops && s.ops[x].Use? && j < |s.ops[x].args| && OperandFits(s, x, j, 1)
    ensures s.ops[x].args[j] in s.ops && s.ops[x].args[j] in s.tree && Degree(s.tree[s.ops[x].args[j]]) <= 1
  {
    assert s.ops[x].args[j] in Operands(s.ops[x]);
    assert UsesBefore(s.ops, s.order, x, s.ops[x].args[j]);
  }

  // ---------- one call, operand by operand ----------

  /** The operands captured by call `x`, once the first `j` have had their turn. */
  ghost predicate Turning(c: Config, s0: State, s: State, x: Id, vals: seq<Id>, j: nat) {
    && Inv(c, s0) && x in c.checks && c.checks[x].UseCheck? && Captured(c, s, x, c.checks[x].args, vals)
    && Intact(c, s, c.checks[x].args, vals) && Ext(c, s0, s, x) && CallRun(c, s0, s, x, vals, j)
    && AllJustified(c, s0, s, x)
  }

  lemma TurningStart(c: Config, s: State, x: Id)
    requires Inv(c, s) && x in c.checks && c.checks[x].UseCheck?
    ensures x in s.ops && s.ops[x].Use? && Turning(c, s, s, x, s.ops[x].args, 0)
  {
    CaptureStart(c, s, x);
    assert |s.ops[x].args| == |c.checks[x].args| && x in s.order;
    hide Inv, Captured, Intact, Ext, CallRun, AllJustified;
    IntactStart(c, s, c.checks[x].args, s.ops[x].args);
    CallRunStart(c, s, x);
    ExtRefl(c, s, x);
    AllJustifiedSame(c, s, s, x);
  }

  lemma TurningOperand(c: Config, s0: State, s: State, x: Id, vals: seq<Id>, j: nat)
    requires Turning(c, s0, s, x, vals, j) && Inv(c, s) && j < |vals| && vals[j] in s.ops
    ensures Available(s, vals[j], x) && WellFormed(s.ops, s.order) && s.ops[vals[j]].IsValue()
  {
    CaptureAvailable(c, s, x, c.checks[x].args, vals, j);
  }

  lemma TurningGone(c: Config, s0: State, s: State, x: Id, vals: seq<Id>, j: nat, i: nat, t: Turns)
    requires Turning(c, s0, s, x, vals, j) && Inv(c, s) && i < |vals| && vals[i] !in s.ops && t.s == s && t.vals == vals
    requires x in s0.ops && s0.ops[x].Use? && TakeTurns(c, s0, x, s0.ops[x].args, 0) == t
    ensures HasErasableArgument(c, x) && (c.noDiv && Tame(c, s0) ==> StalePair(c, x)) && Called(c, s0, x) == (s, true)
    ensures AllJustified(c, s0, s, x)
  {
    hide Inv, Captured, Intact, Ext, CallRun, AllJustified, TakeTurns, Tame, StalePair, HasErasableArgument, Called;
    GoneCall(c, s0, s, x, vals, j, i, t);
  }

  /** The turn of an operand that is materialised. */
  lemma TurnTaken(c: Config, s0: State, s: State, s': State, x: Id, vals: seq<Id>, j: nat, r: Id)
    requires Turning(c, s0, s, x, vals, j) && Inv(c, s) && j < |vals| && vals[j] in s.ops
    requires Lowered(c, s, s', vals[j], r, x) && Gentle(c, s, s', vals[j]) && Low(s', r) && Named(c, s, s', vals[j])
    ensures Turning(c, s0, s', x, vals[j := r], j + 1)
  {
    hide Inv, Captured, Intact, Ext, CallRun, AllJustified, Lowered, Gentle, Low, Named, Later, FrameFrom;
    var es := c.checks[x].args;
    TurnLowered(c, s0, s, s', x, vals, j, r);
    CapturedJustified(c, s0, s, s', x, es, vals, j);
    CaptureLater(c, s, s', x, es, vals, j, r);
    IntactLater(c, s, s', x, es, vals, j, r);
    ExtIntro(c, s, s', x);
    ExtTrans(c, s0, s, s', x);
  }

  /** The turn of one that is linear already. */
  lemma TurnPassed(c: Config, s0: State, s: State, x: Id, vals: seq<Id>, j: nat)
    requires Turning(c, s0, s, x, vals, j) && Inv(c, s) && j < |vals| && Low(s, vals[j])
    ensures Turning(c, s0, s, x, vals, j + 1)
  {
    hide Inv, Captured, Intact, Ext, CallRun, AllJustified, Low;
    TurnLow(c, s0, s, x, vals, j);
  }

  /** The call with its operands set to the captured ones. */
  lemma TurningDone(c: Config, s0: State, s: State, x: Id, vals: seq<Id>, t: Turns)
    requires Turning(c, s0, s, x, vals, |vals|) && Inv(c, s) && t == Turns(s, vals, false)
    requires x in s0.ops && s0.ops[x].Use? && TakeTurns(c, s0, x, s0.ops[x].args, 0) == t
    requires forall i :: 0 <= i < |vals| ==> vals[i] in s.ops
    ensures x in s.ops && s.ops[x].Use?
    ensures var s' := s.(ops := s.ops[x := s.ops[x].(args := vals)]);
        && Inv(c, s') && Touched(c, s0, s', x) && CallKeeps(c, s0, s', x) && (s', false) == Called(c, s0, x)
        && AllJustified(c, s0, s', x)
  {
    hide Inv, Captured, Intact, Ext, CallRun, AllJustified, TakeTurns, Called, CallKeeps, Touched;
    ExtTouched(c, s0, s, x);
    CallSet(c, s, x, vals);
    CallDone(c, s0, s, x, vals, t);
    var s' := s.(ops := s.ops[x := s.ops[x].(args := vals)]);
    AllJustifiedSame(c, s, s', x);
    AllJustifiedTrans(c, s0, s, s', x);
    TouchedTrans(c, s0, s, s', x);
  }

  // ---------- a body within the bound ----------

  /** Every equality side and lookup-row operand is within `maxDegree`, every argument of a constrain call is linear. */
  ghost predicate BodyFits(ops: map<Id, Op>, order: seq<Id>, calls: set<nat>, maxDegree: nat)
    requires WellFormed(ops, order)
  {
    && (forall x :: x in ops && ops[x].Eq? ==>
      (ValueFits(ops, order, ops[x].lhs, maxDegree) && ValueFits(ops, order, ops[x].rhs, maxDegree)))
    && (forall x, j :: x in ops && ops[x].Use? && 0 <= j < |ops[x].args| ==>
      ValueFits(ops, order, ops[x].args[j], if ops[x].tag in calls then 1 else maxDegree))
  }

  ghost predicate ValueFits(ops: map<Id, Op>, order: seq<Id>, v: Id, bound: nat)
    requires WellFormed(ops, order)
  {
    v in ops && ops[v].IsValue() && Degree(Unfold(ops, order, v)) <= bound
  }

  lemma FitsAtStart(c: Config, s0: State, ops: map<Id, Op>, order: seq<Id>, calls: set<nat>)
    requires WellFormed(ops, order) && BodyFits(ops, order, calls, c.maxDegree)
    requires s0.ops == ops && s0.order == order && s0.tree == UnfoldAll(ops, order)
    ensures EqualitiesFit(c, s0) && ConsumersFit(s0, calls, false, c.maxDegree) && ConsumersFit(s0, calls, true, 1)
  {
    hide Unfold;
    forall x | x in ops ensures SidesFit(c, s0, x) {
      if ops[x].Eq? {
        assert ValueFits(ops, order, ops[x].lhs, c.maxDegree) && ValueFits(ops, order, ops[x].rhs, c.maxDegree);
      }
    }
    forall x, j: nat | x in ops && ops[x].Use? && (ops[x].tag in calls) == false
      ensures OperandFits(s0, x, j, c.maxDegree) { SourceFits(s0, ops, order, calls, c.maxDegree, x, j); }
    forall x, j: nat | x in ops && ops[x].Use? && (ops[x].tag in calls) == true
      ensures OperandFits(s0, x, j, 1) { SourceFits(s0, ops, order, calls, c.maxDegree, x, j); }
  }

  lemma SourceFits(s0: State, ops: map<Id, Op>, order: seq<Id>, calls: set<nat>, bound: nat, x: Id, j: nat)
    requires WellFormed(ops, order) && BodyFits(ops, order, calls, bound)
    requires s0.ops == ops && s0.order == order && s0.tree == UnfoldAll(ops, order) && x in ops && ops[x].Use?
    ensures OperandFits(s0, x, j, if ops[x].tag in calls then 1 else bound)
  {
    hide Unfold;
    if j < |ops[x].args| { assert ValueFits(ops, order, ops[x].args[j], if ops[x].tag in calls then 1 else bound); }
  }

  lemma ConsumersStill(s0: State, s: State, calls: set<nat>, called: bool, bound: nat)
    requires Untouched(s0, s)
    ensures ConsumersFit(s0, calls, called, bound) ==> ConsumersFit(s, calls, called, bound)
  {
    hide OperandFits;
    if ConsumersFit(s0, calls, called, bound) {
      forall x, j: nat | x in s.ops && s.ops[x].Use? && (s.ops[x].tag in calls) == called
        ensures OperandFits(s, x, j, bound) { FitsStill(s0, s, x, j, bound); }
    }
  }

  /** A body that was left alone passes the checks the pass ends with. */
  lemma FitPasses(c: Config, s: State, calls: set<nat>)
    requires Inv(c, s) && EqualitiesFit(c, s)
    requires ConsumersFit(s, calls, false, c.maxDegree) && ConsumersFit(s, calls, true, 1)
    ensures WellFormed(s.ops, s.order)
    ensures forall y :: y in s.ops && s.ops[y].Eq? ==> EqDegreeWithin(s.ops, s.order, y, c.maxDegree)
    ensures forall x, j: nat :: IsConsumer(c, x, calls, false) && IsRow(c, x, j) ==>
        OperandWithin(s.ops, s.order, x, j, c.maxDegree)
    ensures forall x, j: nat ::
        IsConsumer(c, x, calls, true) && IsRow(c, x, j) ==> OperandWithin(s.ops, s.order, x, j, 1)
  {
    hide OpDegree;
    Formed(c, s);
    forall y | y in s.ops && s.ops[y].Eq?
      ensures EqDegreeWithin(s.ops, s.order, y, c.maxDegree)
    {
      FitEquality(c, s, y);
    }
    hide EqDegreeWithin, OperandWithin, WellFormed;
    forall x, j: nat | IsConsumer(c, x, calls, false) && IsRow(c, x, j)
      ensures OperandWithin(s.ops, s.order, x, j, c.maxDegree) { FitOperand(c, s, x, j, calls, false, c.maxDegree); }
    forall x, j: nat | IsConsumer(c, x, calls, true) && IsRow(c, x, j)
      ensures OperandWithin(s.ops, s.order, x, j, 1) { FitOperand(c, s, x, j, calls, true, 1); }
  }

  lemma FitEquality(c: Config, s: State, y: Id)
    requires Inv(c, s) && EqualitiesFit(c, s) && y in s.ops && s.ops[y].Eq?
    ensures WellFormed(s.ops, s.order) && EqDegreeWithin(s.ops, s.order, y, c.maxDegree)
  {
    SideAvailable(c, s, y, true);
    SideAvailable(c, s, y, false);
    OpDegreeBelow(c, s, s.ops[y].lhs);
    OpDegreeBelow(c, s, s.ops[y].rhs);
    assert SidesFit(c, s, y);
  }

  lemma FitOperand(c: Config, s: State, x: Id, j: nat, calls: set<nat>, called: bool, bound: nat)
    requires Inv(c, s) && ConsumersFit(s, calls, called, bound) && IsConsumer(c, x, calls, called) && IsRow(c, x, j)
    ensures WellFormed(s.ops, s.order) && OperandWithin(s.ops, s.order, x, j, bound)
  {
    RowOperand(c, s, x, j);
    ConsumerOp(c, s, x, calls, called);
    OpDegreeBelow(c, s, s.ops[x].args[j]);
    assert OperandFits(s, x, j, bound);
  }
}
