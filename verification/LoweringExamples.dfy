/** Bodies on which the lowering does not do what it is meant to, followed from the first call to the last. */
module LoweringExamples {
  import opened Ir
  import opened LoweringState
  import opened PolyLowering
  import opened LoweringFunction
  import opened LoweringMeaning
  import opened LoweringRules
  import opened ConsumerLowering
  import opened StaleOperands
  import opened PolyLoweringRun

  // ---------- bodies whose operations are numbered in block order ----------

  /** `n` operations, each after the values it uses. */
  ghost predicate Numbered(ops: map<Id, Op>, order: seq<Id>, n: nat) {
    && |order| == n && (forall i :: 0 <= i < n ==> order[i] == i) && (forall x: Id :: x in ops <==> x < n)
    && forall x: Id :: x in ops ==> UsesSmaller(ops, x)
  }

  ghost predicate UsesSmaller(ops: map<Id, Op>, x: Id)
    requires x in ops
  {
    forall y :: y in Operands(ops[x]) ==> y < x && y in ops && ops[y].IsValue()
  }

  lemma NumberedFormed(ops: map<Id, Op>, order: seq<Id>, n: nat)
    requires Numbered(ops, order, n)
    ensures WellFormed(ops, order) && (forall i: nat :: i < n ==> i in order && Pos(order, i) == i)
    ensures Listed(ops, order, n)
  {
    forall i: nat | i < n ensures i in order && Pos(order, i) == i { assert order[i] == i; }
    assert forall x :: x in ops ==> x in order;
    forall x, y | x in ops && y in Operands(ops[x]) ensures UsesBefore(ops, order, x, y) {
      assert UsesSmaller(ops, x);
      assert y in ops && y in order;
    }
  }

  /** The source expression of `x`, one operation deep. */
  lemma UnfoldStep(ops: map<Id, Op>, order: seq<Id>, n: nat, x: Id)
    requires Numbered(ops, order, n) && WellFormed(ops, order) && x in ops && ops[x].IsValue()
    ensures forall y :: y in Operands(ops[x]) ==> y in ops && ops[y].IsValue()
    ensures match ops[x]
            case Bin(k, l, r) =>
              l in ops && ops[l].IsValue() && r in ops && ops[r].IsValue() &&
              Unfold(ops, order, x) == EBin(k, Unfold(ops, order, l), Unfold(ops, order, r))
            case Neg(y) => y in ops && ops[y].IsValue() && Unfold(ops, order, x) == ENeg(Unfold(ops, order, y))
            case Const(k) => Unfold(ops, order, x) == EConst(k)
            case Leaf(src) => Unfold(ops, order, x) == ELeaf(src)
            case _ => true
  {
    assert UsesSmaller(ops, x);
    if ops[x].Bin? { assert ops[x].l in Operands(ops[x]) && ops[x].r in Operands(ops[x]); }
    if ops[x].Neg? { assert ops[x].x in Operands(ops[x]); }
  }

  /** Operation `i` of a body about to be lowered. */
  lemma StartHas(ops: map<Id, Op>, order: seq<Id>, n: nat, auxCounter: nat, i: nat)
    requires Numbered(ops, order, n) && WellFormed(ops, order) && i < n
    ensures var s := StartState(ops, order, n, auxCounter);
            && i in ops && i in s.order && Pos(s.order, i) == i && s.ops == ops
            && (ops[i].IsValue() ==> Has(s, i, i, ops[i], Size(Unfold(ops, order, i))))
  {
    NumberedFormed(ops, order, n);
    hide NoDup, Size, Unfold;
  }

  lemma StartTables(ops: map<Id, Op>, order: seq<Id>, n: nat, auxCounter: nat)
    requires Numbered(ops, order, n) && WellFormed(ops, order)
    ensures var s := StartState(ops, order, n, auxCounter);
            Listed(s.ops, s.order, s.nextId) && s.nextId == n && |s.order| == n && s.memo == map[] &&
              s.rewrites == map[]
  {
    NumberedFormed(ops, order, n);
    hide NoDup, Pos;
  }

  /** A body whose degrees are small can be lowered. */
  lemma SmallLowerable(ops: map<Id, Op>, order: seq<Id>, n: nat)
    requires Numbered(ops, order, n) && WellFormed(ops, order)
    requires forall x :: x in ops && ops[x].Leaf? ==> !ops[x].src.Member?
    requires forall x :: x in ops && ops[x].IsValue() ==> Degree(Unfold(ops, order, x)) <= 8
    ensures LowerableStruct(ops, order, n, {})
  {
    hide WellFormed, Unfold, Degree;
  }

  /** The calls of a body that states nothing but calls, for the only call it has. */
  lemma OneCall(ops: map<Id, Op>, order: seq<Id>, n: nat, x: Id, calls: set<nat>)
    requires Numbered(ops, order, n) && x == n - 1 && ops[x].Use? && ops[x].tag in calls
    requires forall y :: y in ops && y != x ==> !ops[y].Use?
    ensures ConsumersIn(ops, order, calls, true) == [x]
  {
    NoCalls(ops, order, calls, x);
    assert order[..x + 1] == order;
    ConsumersNext(ops, order, calls, true, x);
  }

  lemma CallsOne(c: Config, s: State, x: Id)
    ensures CallsLowered(c, s, [x]) == Called(c, s, x)
  {
    var r := Called(c, s, x);
    assert [x][1..] == [];
    assert CallsLowered(c, r.0, []) == (r.0, false);
  }

  lemma {:induction false} NoCalls(ops: map<Id, Op>, order: seq<Id>, calls: set<nat>, i: nat)
    requires i <= |order| && forall j :: 0 <= j < i ==> order[j] in ops && !ops[order[j]].Use?
    ensures ConsumersIn(ops, order[..i], calls, true) == []
  {
    if i == 0 {
    } else {
      NoCalls(ops, order, calls, i - 1);
      ConsumersNext(ops, order, calls, true, i - 1);
    }
  }

  // ---------- the cube twice ----------

  const INPUT := Leaf(Arg(0))

  function CubeOp(i: nat): Op {
    if i == 0 then INPUT else if i == 1 then Bin(MulK, 0, 0) else if i == 2 then Bin(MulK, 1, 0) else Use(0, [2, 2])
  }

  function CubeOps(): map<Id, Op> { map i: nat | i < 4 :: CubeOp(i) }

  function Order(n: nat): seq<Id> { seq(n, i requires 0 <= i < n => i) }

  lemma CubeNumbered()
    ensures Numbered(CubeOps(), Order(4), 4) && WellFormed(CubeOps(), Order(4)) && DivFree(CubeOps())
  {
    hide CubeOp;
    var ops := CubeOps();
    forall x: Id | x in ops ensures UsesSmaller(ops, x) {
      forall y | y in Operands(ops[x]) ensures y < x && y in ops && ops[y].IsValue() { CubeUse(x, y); }
    }
    forall x: Id | x < 4 ensures !(CubeOp(x).Bin? && CubeOp(x).kind == DivK) { CubeUse(x, 0); }
    NumberedFormed(CubeOps(), Order(4), 4);
  }

  lemma CubeUse(x: Id, y: Id)
    requires x < 4
    ensures y in Operands(CubeOp(x)) ==> y < x && CubeOp(y).IsValue()
    ensures !(CubeOp(x).Bin? && CubeOp(x).kind == DivK)
  {}

  lemma CubeTrees()
    requires Numbered(CubeOps(), Order(4), 4) && WellFormed(CubeOps(), Order(4))
    ensures var ops, order := CubeOps(), Order(4);
            && Degree(Unfold(ops, order, 0)) == 1 && Degree(Unfold(ops, order, 1)) == 2
            && Degree(Unfold(ops, order, 2)) == 3
            && OpDegree(ops, order, 0) == 1 && OpDegree(ops, order, 1) == 2
  {
    var ops, order := CubeOps(), Order(4);
    UnfoldStep(ops, order, 4, 0);
    UnfoldStep(ops, order, 4, 1);
    UnfoldStep(ops, order, 4, 2);
    hide WellFormed, Numbered;
  }

  lemma CubeBody(auxCounter: nat)
    requires Numbered(CubeOps(), Order(4), 4) && WellFormed(CubeOps(), Order(4))
    ensures LowerableStruct(CubeOps(), Order(4), 4, {})
    ensures RepeatedProduct(StartConfig(CubeOps(), Order(4), 2, auxCounter),
        StartState(CubeOps(), Order(4), 4, auxCounter), 3)
  {
    hide WellFormed, Numbered, Unfold, OpDegree, Degree;
    CubeTrees();
    var c, s := StartConfig(CubeOps(), Order(4), 2, auxCounter), StartState(CubeOps(), Order(4), 4, auxCounter);
    assert FreshProduct(c, s, 2);
    assert RepeatedAt(c, s, 3, 0, 1);
  }

  /** `m = (x * x) * x; call(m, m)` at degree 2: the second operand is gone at its turn. */
  method CubeTwice(auxCounter: nat) returns (out: Outcome)
    ensures out.StaleCallOperand?
  {
    CubeNumbered();
    CubeBody(auxCounter);
    ghost var ops, order := CubeOps(), Order(4);
    ghost var c, s := StartConfig(ops, order, 2, auxCounter), StartState(ops, order, 4, auxCounter);
    CubeStarts(auxCounter);
    hide Inv, LowerableStruct, RepeatedProduct, Called, WellFormed, PreservesConstraints, CompletesWitnesses,
        DegreesBounded, CallsLowered, Numbered;
    RepeatedStale(c, s, 3);
    var pass;
    out, pass := RunOnStruct(CubeOps(), Order(4), 4, {}, {0}, 2, auxCounter);
  }

  lemma CubeStarts(auxCounter: nat)
    requires LowerableStruct(CubeOps(), Order(4), 4, {}) && Numbered(CubeOps(), Order(4), 4)
    ensures WellFormed(CubeOps(), Order(4)) && OnlyCalls(CubeOps(), {0})
    ensures ConsumersIn(CubeOps(), Order(4), {0}, true) == [3]
    ensures var c, s := StartConfig(CubeOps(), Order(4), 2, auxCounter), StartState(CubeOps(), Order(4), 4, auxCounter);
            Inv(c, s) && CallsLowered(c, s, [3]) == Called(c, s, 3)
  {
    hide Inv, WellFormed, Numbered, Unfold, UnfoldAll, LowerableStruct, Lowerable, Called, CallsLowered, StartConfig,
        StartState;
    LowerableFrom(CubeOps(), Order(4), 4, {}, 2, auxCounter);
    StartHolds(CubeOps(), Order(4), 4, 2, auxCounter);
    OneCall(CubeOps(), Order(4), 4, 3, {0});
    var c, s := StartConfig(CubeOps(), Order(4), 2, auxCounter), StartState(CubeOps(), Order(4), 4, auxCounter);
    CallsOne(c, s, 3);
  }

  // ---------- the fifth power twice ----------

  function FifthOp(i: nat): Op {
    if i == 0 then INPUT else if i == 1 then Bin(MulK, 0, 0) else if i < 5 then Bin(MulK, i - 1, 0) else Use(0, [4, 4])
  }

  function FifthOps(): map<Id, Op> { map i: nat | i < 6 :: FifthOp(i) }

  lemma FifthNumbered()
    ensures Numbered(FifthOps(), Order(6), 6) && WellFormed(FifthOps(), Order(6)) && Listed(FifthOps(), Order(6), 6)
    ensures forall i: nat :: i < 6 ==> i in Order(6) && Pos(Order(6), i) == i
  {
    hide FifthOp;
    var ops := FifthOps();
    forall x: Id | x in ops ensures UsesSmaller(ops, x) {
      forall y | y in Operands(ops[x]) ensures y < x && y in ops && ops[y].IsValue() { FifthUse(x, y); }
    }
    NumberedFormed(FifthOps(), Order(6), 6);
  }

  lemma FifthUse(x: Id, y: Id)
    requires x < 6
    ensures y in Operands(FifthOp(x)) ==> y < x && FifthOp(y).IsValue()
  {}

  lemma FifthTrees()
    requires Numbered(FifthOps(), Order(6), 6) && WellFormed(FifthOps(), Order(6))
    ensures var ops, order := FifthOps(), Order(6);
            forall i: nat ::
              i < 5 ==>
              Degree(Unfold(ops, order, i)) == (if i == 0 then 1 else i + 1) &&
              Size(Unfold(ops, order, i)) == 2 * (if i == 0 then 1 else i + 1) - 1
  {
    var ops, order := FifthOps(), Order(6);
    UnfoldStep(ops, order, 6, 0);
    UnfoldStep(ops, order, 6, 1);
    UnfoldStep(ops, order, 6, 2);
    UnfoldStep(ops, order, 6, 3);
    UnfoldStep(ops, order, 6, 4);
    hide WellFormed, Numbered, Unfold;
  }

  /** The block before the only call, operation by operation. */
  ghost predicate FifthStart(s: State) {
    && Listed(s.ops, s.order, s.nextId) && s.nextId == 6 && |s.order| == 6 && s.memo == map[] && s.rewrites == map[]
    && Has(s, 0, 0, INPUT, 1) && Has(s, 1, 1, Bin(MulK, 0, 0), 3) && Has(s, 2, 2, Bin(MulK, 1, 0), 5)
    && Has(s, 3, 3, Bin(MulK, 2, 0), 7) && Has(s, 4, 4, Bin(MulK, 3, 0), 9) && CallAt(s, 5, 5)
  }

  lemma FifthStarts(auxCounter: nat)
    requires Numbered(FifthOps(), Order(6), 6) && WellFormed(FifthOps(), Order(6))
    ensures FifthStart(StartState(FifthOps(), Order(6), 6, auxCounter)) && LowerableStruct(FifthOps(), Order(6), 6, {})
  {
    hide WellFormed, Numbered, Unfold, Degree, Size, Listed, Pos, Has, LowerableStruct, StartState;
    FifthTrees();
    SmallLowerable(FifthOps(), Order(6), 6);
    StartTables(FifthOps(), Order(6), 6, auxCounter);
    StartHas(FifthOps(), Order(6), 6, auxCounter, 0);
    StartHas(FifthOps(), Order(6), 6, auxCounter, 1);
    StartHas(FifthOps(), Order(6), 6, auxCounter, 2);
    StartHas(FifthOps(), Order(6), 6, auxCounter, 3);
    StartHas(FifthOps(), Order(6), 6, auxCounter, 4);
    StartHas(FifthOps(), Order(6), 6, auxCounter, 5);
  }

  /** Looked up with an empty memo or the one the lowering keeps. */
  lemma FifthDegrees(s: State)
    requires FifthStart(s)
    ensures Measured(s.ops, s.tree, 4, map[]) == map[0 := 1, 1 := 2, 2 := 3, 3 := 4, 4 := 5]
  {
    hide Listed, Size, Measured, Pos;
    MeasureLeaf(s, 0, map[]);
    var m0 := map[0 := 1];
    MeasuredHit(s.ops, s.tree, 0, m0);
    MeasureBin(s, 1, map[], m0, m0);
    var m1 := m0[1 := 2];
    MeasuredHit(s.ops, s.tree, 0, m1);
    MeasureBin(s, 2, map[], m1, m1);
    var m2 := m1[2 := 3];
    MeasuredHit(s.ops, s.tree, 0, m2);
    MeasureBin(s, 3, map[], m2, m2);
    var m3 := m2[3 := 4];
    MeasuredHit(s.ops, s.tree, 0, m3);
    MeasureBin(s, 4, map[], m3, m3);
    assert m3[4 := 5] == map[0 := 1, 1 := 2, 2 := 3, 3 := 4, 4 := 5];
  }

  /** The fourth power lowered: the cube in it named by 6, and the product 8 in its place. */
  ghost predicate FourthDone(t: State) {
    && Listed(t.ops, t.order, t.nextId) && t.nextId == 9 && Has(t, 0, 0, INPUT, 1)
    && t.ops.Keys >= {6} && t.ops[6].Leaf? && 6 in t.tree && Size(t.tree[6]) == 5
    && Has(t, 8, 5, Bin(MulK, 6, 0), 7) && Has(t, 4, 6, Bin(MulK, 8, 0), 9) && CallAt(t, 5, 7)
    && t.memo == map[0 := 1, 1 := 2, 2 := 3, 3 := 4, 4 := 5, 6 := 1, 8 := 2]
    && t.rewrites == map[0 := 0, 2 := 6, 3 := 8]
  }

  lemma FourthLowered(c: Config, s: State, s1: State)
    requires c.maxDegree == 3 && FifthStart(s) && s1 == s.(memo := map[0 := 1, 1 := 2, 2 := 3, 3 := 4, 4 := 5])
    ensures Lower(c, s1, 3, 4).r == 8 && FourthDone(Lower(c, s1, 3, 4).s)
  {
    hide Size, Lower, LowerRoot, LowerBoth, Measured, Pos, NoDup;
    Over(c, s1, 3, 4);
    Under(c, s1, 2, 3);
    var s2 := s1.(rewrites := map[2 := 2]);
    Under(c, s2, 0, 3);
    var s3 := s2.(rewrites := map[2 := 2, 0 := 0]);
    BothRule(c, s1, s2, s3, 3, 2, 0);
    Replaced(c, s1, s3, 3, 2, 0);
  }

  /** The fifth power lowered for the call: 9 stands for it, and it stays. */
  ghost predicate FifthDone(u: State) {
    && Listed(u.ops, u.order, u.nextId) && u.nextId == 10 && 4 in u.ops && CallAt(u, 5, 8)
    && Has(u, 0, 0, INPUT, 1) && u.ops.Keys >= {6} && u.ops[6].Leaf? && 6 in u.tree && Size(u.tree[6]) == 5
    && Has(u, 8, 5, Bin(MulK, 6, 0), 7) && Has(u, 9, 7, Bin(MulK, 8, 0), 9)
  }

  lemma FifthLowered(c: Config, s: State)
    requires c.maxDegree == 3 && FifthStart(s)
    ensures Lower(c, s, 4, 5).r == 9 && FifthDone(Lower(c, s, 4, 5).s)
  {
    FifthDegrees(s);
    hide Size, Lower, LowerRoot, LowerBoth, Measured, Pos, NoDup;
    var m := map[0 := 1, 1 := 2, 2 := 3, 3 := 4, 4 := 5];
    var s1 := s.(memo := m);
    OverNew(c, s, 4, 5, m);
    FourthLowered(c, s, s1);
    var t := Lower(c, s1, 3, 4).s;
    HitIs(c, t, 0, 4);
    BothRule(c, s1, t, t, 4, 8, 0);
    Fitting(c, s1, t, 4, 8, 0);
    MulRule(t, 4, 8, 0, 7);
  }

  lemma FifthNamed(c: Config, s: State)
    requires c.maxDegree == 3 && FifthStart(s)
    ensures var Next(u, a) := Materialised(c, s, 4, 5);
            a in u.ops && u.ops[a].Leaf? && a in u.tree && 4 in u.ops && Listed(u.ops, u.order, u.nextId)
            && 4 in u.rewrites && u.rewrites[4] == a && a in u.order && CallAt(u, 5, 10) && Pos(u.order, a) < 10
  {
    FifthLowered(c, s);
    hide Size, Lower, Measured, Pos, NoDup, Materialised;
    var u := Lower(c, s, 4, 5).s;
    MeasureLeaf(u, 6, map[]);
    MeasureLeaf(u, 0, map[6 := 1]);
    MeasureBin(u, 8, map[], map[6 := 1], map[6 := 1][0 := 1]);
    var m8 := map[6 := 1][0 := 1][8 := 2];
    MeasuredHit(u.ops, u.tree, 0, m8);
    MeasureBin(u, 9, map[], m8, m8);
    Named(c, s, u, 4, 9, 5);
  }

  /** Neither operand is gone at its turn, although the one is the other and both are over the bound. */
  lemma FifthCalled(c: Config, s: State)
    requires c.maxDegree == 3 && FifthStart(s) && 5 in s.ops && s.ops[5] == Use(0, [4, 4])
    ensures !Called(c, s, 5).1
  {
    FifthDegrees(s);
    FifthNamed(c, s);
    hide Lower, Measured, Pos, NoDup, Materialised, FifthStart, Has;
    var Next(u, a) := Materialised(c, s, 4, 5);
    TurnIs(c, s, 5, [4, 4], 0);
    TurnIs(c, u, 5, [a, 4], 1);
    HitIs(c, u, 4, 5);
    MeasureLeaf(u, a, map[]);
    NamedIs(c, u, Next(u, a), 4, 5, Pos(u.order, 5));
    TurnsDone(c, u, 5, [a, 4]);
    TurnsDone(c, u, 5, [a, a]);
    CalledIs(c, s, 5, TakeTurns(c, s, 5, [4, 4], 0));
  }

  /** The converse fails without the bound on the factors: `m = x^5; call(m, m)` at degree 3 is over the bound, and
      no operand is gone at its turn. */
  method FifthTwice(auxCounter: nat) returns (out: Outcome)
    ensures !out.StaleCallOperand?
  {
    FifthNumbered();
    FifthStarts(auxCounter);
    ghost var ops, order := FifthOps(), Order(6);
    ghost var c, s := StartConfig(ops, order, 3, auxCounter), StartState(ops, order, 6, auxCounter);
    FifthCalls(auxCounter);
    hide Inv, LowerableStruct, Called, WellFormed, PreservesConstraints, CompletesWitnesses, DegreesBounded,
        CallsLowered, Numbered, FifthStart, Listed, Pos;
    CallsOne(c, s, 5);
    var pass;
    out, pass := RunOnStruct(FifthOps(), Order(6), 6, {}, {0}, 3, auxCounter);
  }

  lemma FifthCalls(auxCounter: nat)
    requires Numbered(FifthOps(), Order(6), 6) && WellFormed(FifthOps(), Order(6))
    requires FifthStart(StartState(FifthOps(), Order(6), 6, auxCounter))
    ensures OnlyCalls(FifthOps(), {0}) && ConsumersIn(FifthOps(), Order(6), {0}, true) == [5]
    ensures !Called(StartConfig(FifthOps(), Order(6), 3, auxCounter), StartState(FifthOps(), Order(6), 6, auxCounter),
        5).1
  {
    hide WellFormed, Numbered, Unfold, UnfoldAll, Called, FifthStart;
    OneCall(FifthOps(), Order(6), 6, 5, {0});
    FifthCalled(StartConfig(FifthOps(), Order(6), 3, auxCounter), StartState(FifthOps(), Order(6), 6, auxCounter));
  }
}
