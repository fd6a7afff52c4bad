/** Lookup rows and constrain calls: the operations that take felt values without being equalities. */
module ConsumerLowering {
  import opened Ir
  import opened LoweringState
  import opened LoweringSteps
  import opened PolyLowering

  /** `x` is a source consumer, a call if `called` and a lookup row if not. */
  ghost predicate IsConsumer(c: Config, x: Id, calls: set<nat>, called: bool) {
    x in c.checks && c.checks[x].UseCheck? && (c.checks[x].tag in calls) == called
  }

  /** The consumers of a block, in block order. */
  ghost function ConsumersIn(ops: map<Id, Op>, order: seq<Id>, calls: set<nat>, called: bool): seq<Id> {
    if order == [] then []
    else
      var x := order[|order| - 1];
      ConsumersIn(ops, order[..|order| - 1], calls, called) +
      if x in ops && ops[x].Use? && (ops[x].tag in calls) == called then [x] else []
  }

  lemma NoConsumers(ops: map<Id, Op>, calls: set<nat>, called: bool)
    ensures ConsumersIn(ops, [], calls, called) == []
  {}

  lemma ConsumersNext(ops: map<Id, Op>, order: seq<Id>, calls: set<nat>, called: bool, i: nat)
    requires i < |order|
    ensures ConsumersIn(ops, order[..i + 1], calls, called) == ConsumersIn(ops, order[..i], calls, called) +
      if order[i] in ops && ops[order[i]].Use? && (ops[order[i]].tag in calls) == called then [order[i]] else []
  {
    assert order[..i + 1][..i] == order[..i];
  }

  lemma ConsumerOp(c: Config, s: State, x: Id, calls: set<nat>, called: bool)
    requires Inv(c, s)
    ensures IsConsumer(c, x, calls, called) <==> x in s.ops && s.ops[x].Use? && (s.ops[x].tag in calls) == called
    ensures IsConsumer(c, x, calls, called) ==> |s.ops[x].args| == |c.checks[x].args| && x in s.order
  {
    if x in c.checks {
      assert States(s.ops[x], s.tree, c.checks[x]);
    } else if x in s.ops && x in s.eqIds {
      GeneratedIsEq(c, s, x);
    }
  }

  lemma GeneratedIsEq(c: Config, s: State, x: Id)
    requires Inv(c, s) && x in s.eqIds
    ensures x in s.ops && s.ops[x].Eq?
  {
    var k :| 0 <= k < |s.eqIds| && s.eqIds[k] == x;
    assert AuxEntryOk(c, s, k);
  }

  /** The first `n` operands of row `x` are within the bound. */
  ghost predicate RowLowUpTo(c: Config, s: State, x: Id, n: nat) {
    forall j: nat :: j < n && IsRow(c, x, j) ==> RowLow(c, s, x, j)
  }

  /** So are all operands of the rows in `xs`. */
  ghost predicate RowsLow(c: Config, s: State, xs: set<Id>) {
    forall x, j: nat :: x in xs && IsRow(c, x, j) ==> RowLow(c, s, x, j)
  }

  lemma RowsStay(c: Config, s: State, s': State, xs: set<Id>, x: Id, n: nat)
    requires Inv(c, s) && Inv(c, s') && Later(c, s, s') && RowsLow(c, s, xs) && RowLowUpTo(c, s, x, n)
    ensures RowsLow(c, s', xs) && RowLowUpTo(c, s', x, n)
  {
    hide Inv, Later, RowLow, IsRow;
    forall y, j: nat | y in xs && IsRow(c, y, j) ensures RowLow(c, s', y, j) {
      RowLowLater(c, s, s', y, j);
    }
    forall j: nat | j < n && IsRow(c, x, j) ensures RowLow(c, s', x, j) {
      RowLowLater(c, s, s', x, j);
    }
  }

  lemma NoRows(c: Config, s: State)
    ensures RowsLow(c, s, {})
  {}

  lemma RowDone(c: Config, s: State, x: Id, xs: set<Id>, n: nat)
    requires RowsLow(c, s, xs) && RowLowUpTo(c, s, x, n) && x in c.checks && c.checks[x].UseCheck?
    requires n == |c.checks[x].args|
    ensures RowsLow(c, s, xs + {x})
  {}

  // ---------- calls ----------

  /** The operands captured for call `x`: each states its source argument, and stands before the call while it
      exists. */
  ghost predicate Captured(c: Config, s: State, x: Id, es: seq<Expr>, vals: seq<Id>) {
    && x in s.ops && x in s.order && s.ops[x].Use? && |vals| == |es|
    && forall i :: 0 <= i < |vals| ==> CapturedAt(s, x, es[i], vals[i])
  }

  ghost predicate CapturedAt(s: State, x: Id, e: Expr, v: Id)
    requires x in s.order
  {
    v in s.tree && s.tree[v] == e && (v in s.ops ==>
      s.ops[v].IsValue() && v in s.order && Pos(s.order, v) < Pos(s.order, x))
  }

  lemma CaptureStart(c: Config, s: State, x: Id)
    requires Inv(c, s) && x in c.checks && c.checks[x].UseCheck?
    ensures x in s.ops && s.ops[x].Use? && Captured(c, s, x, c.checks[x].args, s.ops[x].args)
    ensures forall i :: 0 <= i < |s.ops[x].args| ==> s.ops[x].args[i] in s.ops
  {
    assert States(s.ops[x], s.tree, c.checks[x]);
    forall i | 0 <= i < |s.ops[x].args| ensures UsesBefore(s.ops, s.order, x, s.ops[x].args[i]) {
      assert s.ops[x].args[i] in Operands(s.ops[x]);
    }
  }

  lemma CaptureAvailable(c: Config, s: State, x: Id, es: seq<Expr>, vals: seq<Id>, j: nat)
    requires Inv(c, s) && Captured(c, s, x, es, vals) && j < |vals| && vals[j] in s.ops
    ensures Available(s, vals[j], x) && WellFormed(s.ops, s.order) && s.ops[vals[j]].IsValue()
  {
    assert CapturedAt(s, x, es[j], vals[j]);
  }

  /** Materialising one captured operand leaves the others captured. */
  lemma CaptureLater(c: Config, s: State, s': State, x: Id, es: seq<Expr>, vals: seq<Id>, j: nat, r: Id)
    requires Inv(c, s) && Captured(c, s, x, es, vals) && j < |vals| && x in c.checks && Lowered(c, s, s', vals[j], r, x)
    ensures Captured(c, s', x, es, vals[j := r]) && Later(c, s, s') && FrameFrom(s, s', x)
  {
    hide Inv, NoDup, Later, FrameFrom, StandsFor;
    NoDups(c, s);
    NoDups(c, s');
    CallStays(c, s, s', vals[j], r, x);
    forall i | 0 <= i < |vals| ensures CapturedAt(s', x, es[i], vals[j := r][i]) {
      assert CapturedAt(s, x, es[i], vals[i]);
      if i != j && vals[i] in s'.ops {
        CaptureKept(c, s, s', x, vals[i]);
      }
    }
  }

  lemma CallStays(c: Config, s: State, s': State, v: Id, r: Id, x: Id)
    requires Inv(c, s) && x in s.ops && s.ops[x].Use? && v in s.tree && Lowered(c, s, s', v, r, x)
    ensures Inv(c, s') && Later(c, s, s') && FrameFrom(s, s', x) && x in s'.ops && x in s'.order && s'.ops[x].Use?
    ensures r in s'.ops && s'.ops[r].IsValue() && r in s'.tree && s'.tree[r] == s.tree[v]
    ensures forall y :: y in s.tree ==> y < s.nextId && y in s'.tree && s'.tree[y] == s.tree[y]
  {
    hide Inv, FrameFrom, NoDup;
    NoDups(c, s');
    TreesNumbered(c, s);
    assert SlotsKept(s.ops[x], s'.ops[x], s.memo, s'.memo);
  }

  lemma TreesNumbered(c: Config, s: State)
    requires Inv(c, s)
    ensures forall y :: y in s.tree ==> y < s.nextId
  {
    hide WellFormed, NodeOk, MemoOk, RewritesOk, AuxOk, ChecksOk;
  }

  lemma CaptureKept(c: Config, s: State, s': State, x: Id, v: Id)
    requires NoDup(s.order) && Later(c, s, s') && FrameFrom(s, s', x) && v < s.nextId && v in s'.ops && v in s'.order
    requires v in s.tree
    requires v in s.ops ==> s.ops[v].IsValue() && v in s.order && Pos(s.order, v) < Pos(s.order, x)
    ensures s'.ops[v].IsValue() && Pos(s'.order, v) < Pos(s'.order, x)
  {
    assert v in s.ops && SlotsKept(s.ops[v], s'.ops[v], s.memo, s'.memo);
    StaysBefore(s, s', v, x);
  }

  /** The rebuilt call still states its source constraint. */
  lemma CallSet(c: Config, s: State, x: Id, vals: seq<Id>)
    requires Inv(c, s) && x in c.checks && c.checks[x].UseCheck? && Captured(c, s, x, c.checks[x].args, vals)
    requires forall i :: 0 <= i < |vals| ==> vals[i] in s.ops
    ensures x in s.ops && s.ops[x].Use?
    ensures var s' := s.(ops := s.ops[x := s.ops[x].(args := vals)]); Touched(c, s, s', x) && Inv(c, s')
  {
    hide Inv, CheckPre, SlotsKept, Captured, WellFormed;
    CallSettable(c, s, x, vals);
    CheckStep(c, s, x, s.ops[x].(args := vals));
    SlotsSelf(s, s.(ops := s.ops[x := s.ops[x].(args := vals)]), x);
  }

  lemma CallSettable(c: Config, s: State, x: Id, vals: seq<Id>)
    requires Inv(c, s) && x in c.checks && c.checks[x].UseCheck? && Captured(c, s, x, c.checks[x].args, vals)
    requires forall i :: 0 <= i < |vals| ==> vals[i] in s.ops
    ensures x in s.ops && x in s.order && s.ops[x].Use? && CheckPre(c, s, x, s.ops[x].(args := vals))
    ensures forall y :: y in s.ops ==> y < s.nextId
  {
    assert States(s.ops[x], s.tree, c.checks[x]);
    forall i | 0 <= i < |vals|
      ensures vals[i] in s.tree && s.tree[vals[i]] == c.checks[x].args[i] && UsesBefore(s.ops, s.order, x, vals[i])
    {
      assert CapturedAt(s, x, c.checks[x].args[i], vals[i]);
    }
  }

  lemma SlotsSelf(s: State, s': State, x: Id)
    requires x in s.ops && s'.memo == s.memo && s'.ops.Keys == s.ops.Keys
    requires forall y :: y in s.ops && y != x ==> s'.ops[y] == s.ops[y]
    ensures forall y :: y in s.ops && y != x ==> SlotsKept(s.ops[y], s'.ops[y], s.memo, s'.memo)
  {}

  /** An edit at call `x` spoils no equality and no row. */
  lemma CallSpoilsNothing(c: Config, s: State, s': State, x: Id, xs: set<Id>)
    requires Inv(c, s) && Touched(c, s, s', x) && x in c.checks && c.checks[x].UseCheck? && x !in xs && AllEqLow(c, s)
    requires RowsLow(c, s, xs)
    ensures AllEqLow(c, s') && RowsLow(c, s', xs)
  {
    hide Inv, FrameFrom, EqLow, IsRow, RowLow, SlotsKept;
    UseStays(c, s', x);
    forall y | y in s'.ops && s'.ops[y].Eq? ensures EqLow(c, s', y) {
      if y in s.ops {
        SlotsEq(s.ops[y], s'.ops[y], s.memo, s'.memo);
        EqLowLater(c, s, s', y);
      } else {
        GeneratedLater(c, s, s', y);
      }
    }
    forall y, j: nat | y in xs && IsRow(c, y, j) ensures RowLow(c, s', y, j) {
      RowOperand(c, s', y, j);
      RowOperand(c, s, y, j);
      RowLowKept(c, s, s', y, j);
    }
  }

  lemma UseStays(c: Config, s: State, x: Id)
    requires Inv(c, s) && x in c.checks && c.checks[x].UseCheck?
    ensures x in s.ops && s.ops[x].Use?
  {
    assert States(s.ops[x], s.tree, c.checks[x]);
  }

  lemma SlotsEq(op: Op, op': Op, memo: map<Id, nat>, memo': map<Id, nat>)
    requires SlotsKept(op, op', memo, memo')
    ensures op'.Eq? ==> op.Eq?
  {}

  lemma RowLowKept(c: Config, s: State, s': State, x: Id, j: nat)
    requires x in s.ops && x in s'.ops && SlotsKept(s.ops[x], s'.ops[x], s.memo, s'.memo) && RowLow(c, s, x, j)
    ensures RowLow(c, s', x, j)
  {
  }

  /** A source argument that lowering may erase while it still is among the captured operands. */
  ghost predicate Erasable(c: Config, e: Expr) {
    e.EBin? && e.kind == MulK && Ir.Degree(e) > c.maxDegree
  }

  ghost predicate HasErasableArgument(c: Config, x: Id) {
    x in c.checks && c.checks[x].UseCheck? &&
      exists j :: 0 <= j < |c.checks[x].args| && Erasable(c, c.checks[x].args[j])
  }

  /** Every captured operand still exists, unless its source argument is an over-degree product. */
  ghost predicate Intact(c: Config, s: State, es: seq<Expr>, vals: seq<Id>) {
    |vals| == |es| && forall i :: 0 <= i < |vals| ==> vals[i] in s.ops || Erasable(c, es[i])
  }

  lemma IntactLater(c: Config, s: State, s': State, x: Id, es: seq<Expr>, vals: seq<Id>, j: nat, r: Id)
    requires Inv(c, s) && Captured(c, s, x, es, vals) && Intact(c, s, es, vals) && j < |vals|
    requires Lowered(c, s, s', vals[j], r, x)
    ensures Intact(c, s', es, vals[j := r])
  {
    forall i | 0 <= i < |vals| && i != j ensures vals[i] in s'.ops || Erasable(c, es[i]) {
      assert CapturedAt(s, x, es[i], vals[i]);
      if vals[i] in s.ops && vals[i] !in s'.ops {
        assert NodeOk(c, s, vals[i]);
      }
    }
  }

  // ---------- the final checks on consumers ----------

  /** Operand `j` of consumer `x`, as the block stands, has degree at most `bound`. */
  ghost predicate OperandWithin(ops: map<Id, Op>, order: seq<Id>, x: Id, j: nat, bound: nat)
    requires WellFormed(ops, order)
  {
    x in ops && ops[x].Use? && j < |ops[x].args| &&
      (assert UsesBefore(ops, order, x, ops[x].args[j]) by { assert ops[x].args[j] in Operands(ops[x]); }
       OpDegree(ops, order, ops[x].args[j]) <= bound)
  }

  lemma RowWithin(c: Config, s: State, x: Id, j: nat)
    requires Inv(c, s) && IsRow(c, x, j) && RowLow(c, s, x, j) && c.noDiv
    ensures OperandWithin(s.ops, s.order, x, j, c.maxDegree)
  {
    RowOperand(c, s, x, j);
    DegreeBound(c, s, s.ops[x].args[j]);
  }

  // ---------- small facts, by name ----------

  lemma NoDupAppend(xs: seq<Id>, x: Id)
    requires NoDup(xs) && x !in xs
    ensures NoDup(xs + [x])
  {
    var ys := xs + [x];
    forall i | 0 <= i < |ys| ensures Pos(ys, ys[i]) == i {
      var j := Pos(ys, ys[i]);
      if i < |xs| && j < |xs| { assert xs[i] == xs[j]; }
    }
  }

  lemma RowIntro(c: Config, x: Id, j: nat)
    ensures x in c.checks && c.checks[x].UseCheck? && j < |c.checks[x].args| ==> IsRow(c, x, j)
  {}

  lemma RowEnd(c: Config, x: Id, n: nat)
    requires x in c.checks && c.checks[x].UseCheck? && n == |c.checks[x].args|
    ensures forall j: nat :: IsRow(c, x, j) ==> j < n
  {}

  lemma WithinIff(ops: map<Id, Op>, order: seq<Id>, x: Id, j: nat, d: nat, bound: nat)
    requires WellFormed(ops, order) && x in ops && ops[x].Use? && j < |ops[x].args|
    requires ops[x].args[j] in ops && ops[ops[x].args[j]].IsValue() && d == OpDegree(ops, order, ops[x].args[j])
    ensures OperandWithin(ops, order, x, j, bound) <==> d <= bound
  {}

  lemma IntactStart(c: Config, s: State, es: seq<Expr>, vals: seq<Id>)
    requires |vals| == |es| && forall i :: 0 <= i < |vals| ==> vals[i] in s.ops
    ensures Intact(c, s, es, vals)
  {}

  lemma IntactGet(c: Config, s: State, x: Id, es: seq<Expr>, vals: seq<Id>, j: nat)
    requires Intact(c, s, es, vals) && j < |vals| && vals[j] !in s.ops && x in c.checks && c.checks[x].UseCheck?
    requires c.checks[x].args == es
    ensures HasErasableArgument(c, x)
  {}

  lemma ExtRefl(c: Config, s: State, x: Id)
    requires Inv(c, s) && x in s.order
    ensures Ext(c, s, s, x)
  {
    LaterRefl(c, s);
  }

  lemma ExtTouched(c: Config, s: State, s': State, x: Id)
    requires Inv(c, s) && Inv(c, s') && Ext(c, s, s', x)
    ensures Touched(c, s, s', x)
  {
    assert forall y :: y in s.ops ==> y < s.nextId;
    hide Inv;
    LaterIsExcept(c, s, s', x);
  }

  lemma TouchedInv(c: Config, s: State, s': State, x: Id)
    requires Touched(c, s, s', x)
    ensures Inv(c, s')
  {}
}
