/** What a `constrain` body demands of its inputs, and that lowering keeps it: the lowered body
    holds exactly when the original one does and every generated member has its defining value. */
module LoweringMeaning {
  import opened Ir
  import opened LoweringState
  import opened PolyLowering

  /** A value for every argument, declared member, generated member and nondeterministic site. */
  type Inputs = Source -> int

  /** The other consumers of values: any relation on what they are given. */
  type Relation = (nat, seq<int>) -> bool

  function Power(x: int, n: nat): int {
    if n == 0 then 1 else x * Power(x, n - 1)
  }

  /** Field arithmetic modulo `p`; division multiplies by the (p-2)-nd power. */
  function Apply(p: nat, k: BinKind, x: int, y: int): int
    requires p >= 2
  {
    match k
    case AddK => (x + y) % p
    case SubK => (x - y) % p
    case MulK => (x * y) % p
    case DivK => (x * Power(y, p - 2)) % p
  }

  function Value(p: nat, e: Expr, inp: Inputs): int
    requires p >= 2
  {
    match e
    case EConst(c) => c % p
    case ELeaf(src) => inp(src) % p
    case EBin(k, l, r) => Apply(p, k, Value(p, l, inp), Value(p, r, inp))
    case ENeg(x) => (-Value(p, x, inp)) % p
  }

  /** The value of an operation of a block, computed from the block alone. */
  ghost function Eval(p: nat, ops: map<Id, Op>, order: seq<Id>, inp: Inputs, x: Id): int
    requires p >= 2 && WellFormed(ops, order) && x in ops && ops[x].IsValue()
    decreases Pos(order, x)
  {
    match ops[x]
    case Const(c) => c % p
    case Leaf(src) => inp(src) % p
    case Bin(k, l, r) =>
      assert UsesBefore(ops, order, x, l) && UsesBefore(ops, order, x, r);
      Apply(p, k, Eval(p, ops, order, inp, l), Eval(p, ops, order, inp, r))
    case Neg(y) =>
      assert UsesBefore(ops, order, x, y);
      (-Eval(p, ops, order, inp, y)) % p
  }

  ghost function ArgValue(p: nat, ops: map<Id, Op>, order: seq<Id>, inp: Inputs, x: Id): int
    requires p >= 2 && WellFormed(ops, order)
  {
    if x in ops && ops[x].IsValue() then Eval(p, ops, order, inp, x) else 0
  }

  ghost predicate Holds(p: nat, ops: map<Id, Op>, order: seq<Id>, inp: Inputs, rel: Relation, x: Id)
    requires p >= 2 && WellFormed(ops, order) && x in ops
  {
    match ops[x]
    case Eq(l, r) =>
      assert UsesBefore(ops, order, x, l) && UsesBefore(ops, order, x, r);
      Eval(p, ops, order, inp, l) == Eval(p, ops, order, inp, r)
    case Use(t, args) => rel(t, seq(|args|, i requires 0 <= i < |args| => ArgValue(p, ops, order, inp, args[i])))
    case _ => true
  }

  /** `inp` satisfies every constraint of the block. */
  ghost predicate Satisfies(p: nat, ops: map<Id, Op>, order: seq<Id>, inp: Inputs, rel: Relation)
    requires p >= 2 && WellFormed(ops, order)
  {
    forall x :: x in ops ==> Holds(p, ops, order, inp, rel, x)
  }

  ghost predicate CheckHolds(p: nat, ch: Check, inp: Inputs, rel: Relation)
    requires p >= 2
  {
    match ch
    case EqCheck(l, r) => Value(p, l, inp) == Value(p, r, inp)
    case UseCheck(t, es) => rel(t, seq(|es|, i requires 0 <= i < |es| => Value(p, es[i], inp)))
  }

  /** Generated member `k` has the value of the expression it was introduced for. */
  ghost predicate AuxDefined(p: nat, s: State, inp: Inputs, k: nat)
    requires p >= 2 && k < |s.aux|
  {
    s.aux[k].computed in s.tree && inp(Member(Auxiliary(s.aux[k].name))) % p == Value(p, s.tree[s.aux[k].computed], inp)
  }

  ghost predicate DefinedUpTo(p: nat, s: State, inp: Inputs, n: int)
    requires p >= 2
  {
    forall k ::
      0 <= k < |s.aux| && s.aux[k].auxValue in s.order && Pos(s.order, s.aux[k].auxValue) < n ==>
      AuxDefined(p, s, inp, k)
  }

  /** With the generated members so defined, each value of the block is that of its source expression. */
  lemma {:induction false} EvalIsValue(p: nat, c: Config, s: State, inp: Inputs, x: Id)
    requires p >= 2 && Inv(c, s) && x in s.ops && s.ops[x].IsValue() && x in s.order
    requires DefinedUpTo(p, s, inp, Pos(s.order, x) + 1)
    ensures x in s.tree && Eval(p, s.ops, s.order, inp, x) == Value(p, s.tree[x], inp)
    decreases Pos(s.order, x)
  {
    OperandFacts(c, s, x);
    match s.ops[x] {
      case Const(_) =>
      case Leaf(src) =>
        if IsAux(src) {
          var k := src.name.k - c.base;
          assert AuxEntryOk(c, s, k);
          assert AuxDefined(p, s, inp, k);
        }
      case Bin(_, l, r) =>
        assert l in Operands(s.ops[x]) && r in Operands(s.ops[x]);
        hide Inv;
        EvalIsValue(p, c, s, inp, l);
        EvalIsValue(p, c, s, inp, r);
      case Neg(y) =>
        assert y in Operands(s.ops[x]);
        hide Inv;
        EvalIsValue(p, c, s, inp, y);
    }
  }

  /** A satisfied body forces every generated member to its defining value. */
  lemma {:induction false} SatisfiedDefines(p: nat, c: Config, s: State, inp: Inputs, rel: Relation, n: nat)
    requires p >= 2 && Inv(c, s) && Satisfies(p, s.ops, s.order, inp, rel)
    ensures DefinedUpTo(p, s, inp, n)
  {
    if n == 0 {
    } else {
      SatisfiedDefines(p, c, s, inp, rel, n - 1);
      forall k | 0 <= k < |s.aux| && s.aux[k].auxValue in s.order && Pos(s.order, s.aux[k].auxValue) < n
        ensures AuxDefined(p, s, inp, k)
      {
        EqDefines(p, c, s, inp, rel, n - 1, k);
      }
    }
  }

  lemma EqDefines(p: nat, c: Config, s: State, inp: Inputs, rel: Relation, n: nat, k: nat)
    requires p >= 2 && Inv(c, s) && Satisfies(p, s.ops, s.order, inp, rel) && DefinedUpTo(p, s, inp, n)
    requires k < |s.aux| && s.aux[k].auxValue in s.order && Pos(s.order, s.aux[k].auxValue) <= n
    ensures AuxDefined(p, s, inp, k)
  {
    assert AuxEntryOk(c, s, k);
    var a, e := s.aux[k], s.eqIds[k];
    var y := s.ops[e].rhs;
    assert y in Operands(s.ops[e]) && UsesBefore(s.ops, s.order, e, y);
    assert Pos(s.order, y) != Pos(s.order, a.auxValue);
    assert Holds(p, s.ops, s.order, inp, rel, e);
    hide Inv, Satisfies;
    EvalIsValue(p, c, s, inp, y);
  }

  /** With the generated members defined, a stated constraint means what it did in the source. */
  lemma StatedHolds(p: nat, c: Config, s: State, inp: Inputs, rel: Relation, x: Id)
    requires p >= 2 && Inv(c, s) && DefinedUpTo(p, s, inp, |s.order|) && x in c.checks
    ensures x in s.ops && (Holds(p, s.ops, s.order, inp, rel, x) <==> CheckHolds(p, c.checks[x], inp, rel))
  {
    assert States(s.ops[x], s.tree, c.checks[x]);
    forall y | y in Operands(s.ops[x])
      ensures y in s.ops && s.ops[y].IsValue() && y in s.tree &&
          Eval(p, s.ops, s.order, inp, y) == Value(p, s.tree[y], inp)
    {
      assert UsesBefore(s.ops, s.order, x, y);
      hide Inv;
      EvalIsValue(p, c, s, inp, y);
    }
    hide Inv;
    match c.checks[x] {
      case EqCheck(_, _) =>
        assert s.ops[x].lhs in Operands(s.ops[x]) && s.ops[x].rhs in Operands(s.ops[x]);
      case UseCheck(t, es) =>
        var args := s.ops[x].args;
        assert forall i :: 0 <= i < |args| ==> args[i] in Operands(s.ops[x]);
        assert seq(|args|, i requires 0 <= i < |args| => ArgValue(p, s.ops, s.order, inp, args[i]))
            == seq(|es|, i requires 0 <= i < |es| => Value(p, es[i], inp));
    }
  }

  /** A lowered body is satisfied exactly when the source constraints hold and every generated
      member has its one defining value: lowering loses no solution, adds none, and leaves no
      freedom in the members it generates. */
  lemma LoweredMeaning(p: nat, c: Config, s: State, inp: Inputs, rel: Relation)
    requires p >= 2 && Inv(c, s)
    ensures Satisfies(p, s.ops, s.order, inp, rel) <==>
            (forall x :: x in c.checks ==> CheckHolds(p, c.checks[x], inp, rel)) &&
              (forall k :: 0 <= k < |s.aux| ==> AuxDefined(p, s, inp, k))
  {
    if Satisfies(p, s.ops, s.order, inp, rel) {
      SatisfiedDefines(p, c, s, inp, rel, |s.order|);
      forall x | x in c.checks ensures CheckHolds(p, c.checks[x], inp, rel) {
        StatedHolds(p, c, s, inp, rel, x);
      }
      forall k | 0 <= k < |s.aux| ensures AuxDefined(p, s, inp, k) {
        assert AuxEntryOk(c, s, k);
      }
    }
    if (forall x :: x in c.checks ==> CheckHolds(p, c.checks[x], inp, rel)) &&
      (forall k :: 0 <= k < |s.aux| ==> AuxDefined(p, s, inp, k)) {
      forall x | x in s.ops ensures Holds(p, s.ops, s.order, inp, rel, x) {
        DefinedHolds(p, c, s, inp, rel, x);
      }
    }
  }

  lemma DefinedHolds(p: nat, c: Config, s: State, inp: Inputs, rel: Relation, x: Id)
    requires p >= 2 && Inv(c, s) && x in s.ops && DefinedUpTo(p, s, inp, |s.order|)
    requires forall x :: x in c.checks ==> CheckHolds(p, c.checks[x], inp, rel)
    ensures Holds(p, s.ops, s.order, inp, rel, x)
  {
    if x in c.checks {
      StatedHolds(p, c, s, inp, rel, x);
    } else if !s.ops[x].IsValue() {
      assert x in s.eqIds;
      var k :| 0 <= k < |s.eqIds| && s.eqIds[k] == x;
      assert AuxEntryOk(c, s, k);
      assert AuxDefined(p, s, inp, k);
      assert UsesBefore(s.ops, s.order, x, s.ops[x].lhs) && UsesBefore(s.ops, s.order, x, s.ops[x].rhs);
      hide Inv;
      EvalIsValue(p, c, s, inp, s.ops[x].lhs);
      EvalIsValue(p, c, s, inp, s.ops[x].rhs);
    }
  }

  // ---------- the body before lowering ----------

  /** A value of the source body, unfolded into an expression. */
  ghost function Unfold(ops: map<Id, Op>, order: seq<Id>, x: Id): Expr
    requires WellFormed(ops, order) && x in ops && ops[x].IsValue()
    decreases Pos(order, x)
  {
    match ops[x]
    case Const(c) => EConst(c)
    case Leaf(src) => ELeaf(src)
    case Bin(k, l, r) =>
      assert UsesBefore(ops, order, x, l) && UsesBefore(ops, order, x, r);
      EBin(k, Unfold(ops, order, l), Unfold(ops, order, r))
    case Neg(y) =>
      assert UsesBefore(ops, order, x, y);
      ENeg(Unfold(ops, order, y))
  }

  ghost function UnfoldAll(ops: map<Id, Op>, order: seq<Id>): map<Id, Expr>
    requires WellFormed(ops, order)
  {
    map x | x in ops && ops[x].IsValue() :: Unfold(ops, order, x)
  }

  /** The body reads no member the pass could generate, and no degree in it overflows 32 bits. */
  ghost predicate Lowerable(ops: map<Id, Op>, order: seq<Id>) {
    && WellFormed(ops, order)
    && (forall x :: x in ops && ops[x].Leaf? ==> !IsAux(ops[x].src))
    && (forall x :: x in ops && ops[x].IsValue() ==> Degree(Unfold(ops, order, x)) < UNSIGNED_RANGE)
  }

  ghost predicate DivFree(ops: map<Id, Op>) {
    forall x :: x in ops ==> !(ops[x].Bin? && ops[x].kind == DivK)
  }

  ghost function CheckOf(op: Op, tree: map<Id, Expr>): Check
    requires !op.IsValue() && forall y :: y in Operands(op) ==> y in tree
  {
    match op
    case Eq(l, r) => assert l in Operands(op) && r in Operands(op); EqCheck(tree[l], tree[r])
    case Use(t, args) => UseCheck(t,
      seq(|args|, i requires 0 <= i < |args| => assert args[i] in Operands(op); tree[args[i]]))
  }

  ghost function StartState(ops: map<Id, Op>, order: seq<Id>, nextId: Id, counter: nat): State
    requires WellFormed(ops, order)
  {
    State(ops, order, nextId, map[], map[], counter, [], UnfoldAll(ops, order), [])
  }

  ghost function StartConfig(ops: map<Id, Op>, order: seq<Id>, maxDegree: nat, counter: nat): Config
    requires WellFormed(ops, order)
  {
    var tree := UnfoldAll(ops, order);
    Config(maxDegree, counter, DivFree(ops),
           map x | x in ops && !ops[x].IsValue() :: assert forall y ::
             y in Operands(ops[x]) ==> UsesBefore(ops, order, x, y); CheckOf(ops[x], tree), ops)
  }

  lemma {:induction false} UnfoldPure(ops: map<Id, Op>, order: seq<Id>, x: Id)
    requires Lowerable(ops, order) && x in ops && ops[x].IsValue()
    ensures Pure(Unfold(ops, order, x))
    decreases Pos(order, x)
  {
    match ops[x] {
      case Const(_) =>
      case Leaf(_) =>
      case Bin(_, l, r) =>
        assert UsesBefore(ops, order, x, l) && UsesBefore(ops, order, x, r);
        UnfoldPure(ops, order, l);
        UnfoldPure(ops, order, r);
      case Neg(y) =>
        assert UsesBefore(ops, order, x, y);
        UnfoldPure(ops, order, y);
    }
  }

  lemma StartHolds(ops: map<Id, Op>, order: seq<Id>, nextId: Id, maxDegree: nat, counter: nat)
    requires Lowerable(ops, order) && maxDegree >= 2 && forall x :: x in ops ==> x < nextId
    ensures Inv(StartConfig(ops, order, maxDegree, counter), StartState(ops, order, nextId, counter))
  {
    var c, s := StartConfig(ops, order, maxDegree, counter), StartState(ops, order, nextId, counter);
    forall x | x in ops && ops[x].IsValue() ensures NodeOk(c, s, x) {
      assert forall y :: y in Operands(ops[x]) ==> UsesBefore(ops, order, x, y);
      if ops[x].Bin? { assert ops[x].l in Operands(ops[x]) && ops[x].r in Operands(ops[x]); }
      if ops[x].Neg? { assert ops[x].x in Operands(ops[x]); }
    }
    forall x | x in s.tree ensures Pure(s.tree[x]) { UnfoldPure(ops, order, x); }
    forall x | x in c.checks ensures States(s.ops[x], s.tree, c.checks[x]) {
      assert forall y :: y in Operands(ops[x]) ==> UsesBefore(ops, order, x, y);
      CheckStated(ops[x], s.tree);
    }
  }

  lemma CheckStated(op: Op, tree: map<Id, Expr>)
    requires !op.IsValue() && forall y :: y in Operands(op) ==> y in tree
    ensures States(op, tree, CheckOf(op, tree))
  {
    if op.Eq? { assert op.lhs in Operands(op) && op.rhs in Operands(op); }
  }

  // ---------- the theorem ----------

  /** Lowering preserves the constraint system of a body: an assignment satisfies the lowered body
      exactly when it satisfies the original one and gives each generated member its defining value. */
  lemma LoweringPreserves(p: nat, c: Config, s0: State, s: State, inp: Inputs, rel: Relation)
    requires p >= 2 && Inv(c, s0) && s0.aux == [] && Inv(c, s)
    ensures Satisfies(p, s.ops, s.order, inp, rel) <==>
            Satisfies(p, s0.ops, s0.order, inp, rel) && forall k :: 0 <= k < |s.aux| ==> AuxDefined(p, s, inp, k)
  {
    LoweredMeaning(p, c, s0, inp, rel);
    LoweredMeaning(p, c, s, inp, rel);
  }

  /** `inp` with every generated member set to its defining value. */
  ghost function Extended(p: nat, c: Config, s: State, inp: Inputs): Inputs
    requires p >= 2
  {
    src =>
      if IsAux(src) && c.base <= src.name.k < c.base + |s.aux| && s.aux[src.name.k - c.base].computed in s.tree
      then Value(p, s.tree[s.aux[src.name.k - c.base].computed], inp) else inp(src)
  }

  ghost predicate AgreeOutside(inp: Inputs, inp': Inputs) {
    forall src: Source :: !IsAux(src) ==> inp(src) == inp'(src)
  }

  lemma {:induction false} PureValue(p: nat, e: Expr, inp: Inputs, inp': Inputs)
    requires p >= 2 && Pure(e) && AgreeOutside(inp, inp')
    ensures Value(p, e, inp) == Value(p, e, inp')
  {
    match e {
      case EConst(_) =>
      case ELeaf(_) =>
      case EBin(_, l, r) => PureValue(p, l, inp, inp'); PureValue(p, r, inp, inp');
      case ENeg(x) => PureValue(p, x, inp, inp');
    }
  }

  lemma Remainder(p: nat, x: int)
    requires p >= 2
    ensures 0 <= x % p < p && (x % p) % p == x % p
  {}

  lemma ValueReduced(p: nat, e: Expr, inp: Inputs)
    requires p >= 2
    ensures 0 <= Value(p, e, inp) < p && Value(p, e, inp) % p == Value(p, e, inp)
  {
    match e {
      case EConst(c) => Remainder(p, c);
      case ELeaf(src) => Remainder(p, inp(src));
      case EBin(k, l, r) => ApplyReduced(p, k, Value(p, l, inp), Value(p, r, inp));
      case ENeg(x) => Remainder(p, -Value(p, x, inp));
    }
  }

  lemma ApplyReduced(p: nat, k: BinKind, x: int, y: int)
    requires p >= 2
    ensures 0 <= Apply(p, k, x, y) < p && Apply(p, k, x, y) % p == Apply(p, k, x, y)
  {
    match k {
      case AddK => Remainder(p, x + y);
      case SubK => Remainder(p, x - y);
      case MulK => Remainder(p, x * y);
      case DivK => Remainder(p, x * Power(y, p - 2));
    }
  }

  ghost predicate CheckPure(ch: Check) {
    match ch
    case EqCheck(l, r) => Pure(l) && Pure(r)
    case UseCheck(_, es) => forall i :: 0 <= i < |es| ==> Pure(es[i])
  }

  lemma CheckAgrees(p: nat, ch: Check, inp: Inputs, inp': Inputs, rel: Relation)
    requires p >= 2 && CheckPure(ch) && AgreeOutside(inp, inp')
    ensures CheckHolds(p, ch, inp, rel) <==> CheckHolds(p, ch, inp', rel)
  {
    match ch {
      case EqCheck(l, r) => PureValue(p, l, inp, inp'); PureValue(p, r, inp, inp');
      case UseCheck(_, es) =>
        forall i | 0 <= i < |es|
          ensures Value(p, es[i], inp) == Value(p, es[i], inp')
        {
          PureValue(p, es[i], inp, inp');
        }
        assert seq(|es|, i requires 0 <= i < |es| => Value(p, es[i], inp)) ==
            seq(|es|, i requires 0 <= i < |es| => Value(p, es[i], inp'));
    }
  }

  lemma ChecksPure(c: Config, s: State, x: Id)
    requires Inv(c, s) && x in c.checks
    ensures CheckPure(c.checks[x])
  {
    assert States(s.ops[x], s.tree, c.checks[x]);
  }

  /** Every solution of the original body extends to one of the lowered body. */
  lemma ExtensionExists(p: nat, c: Config, s0: State, s: State, inp: Inputs, rel: Relation)
    requires p >= 2 && Inv(c, s0) && s0.aux == [] && Inv(c, s) && Satisfies(p, s0.ops, s0.order, inp, rel)
    ensures AgreeOutside(inp, Extended(p, c, s, inp)) && Satisfies(p, s.ops, s.order, Extended(p, c, s, inp), rel)
  {
    var inp' := Extended(p, c, s, inp);
    LoweredMeaning(p, c, s0, inp, rel);
    LoweredMeaning(p, c, s, inp', rel);
    forall x | x in c.checks ensures CheckHolds(p, c.checks[x], inp', rel) {
      ChecksPure(c, s, x);
      CheckAgrees(p, c.checks[x], inp, inp', rel);
    }
    forall k | 0 <= k < |s.aux| ensures AuxDefined(p, s, inp', k) {
      assert AuxEntryOk(c, s, k);
      PureValue(p, s.tree[s.aux[k].computed], inp, inp');
      ValueReduced(p, s.tree[s.aux[k].computed], inp);
    }
  }

  /** Two solutions of the lowered body that agree on the original sources agree, as field
      elements, on every generated member. */
  lemma ExtensionUnique(p: nat, c: Config, s: State, inp: Inputs, inp': Inputs, rel: Relation, k: nat)
    requires p >= 2 && Inv(c, s) && AgreeOutside(inp, inp') && k < |s.aux|
    requires Satisfies(p, s.ops, s.order, inp, rel) && Satisfies(p, s.ops, s.order, inp', rel)
    ensures inp(Member(Auxiliary(s.aux[k].name))) % p == inp'(Member(Auxiliary(s.aux[k].name))) % p
  {
    LoweredMeaning(p, c, s, inp, rel);
    LoweredMeaning(p, c, s, inp', rel);
    assert AuxEntryOk(c, s, k) && AuxDefined(p, s, inp, k) && AuxDefined(p, s, inp', k);
    PureValue(p, s.tree[s.aux[k].computed], inp, inp');
  }
}
