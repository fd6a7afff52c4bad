/** Lowering the elements of an array that is looked up: the operands that collecting its history finds, each at the
    operation that owns it. */
module RowOperands {
  import opened Ir
  import opened LoweringState
  import opened PolyLowering
  import opened LoweringThrift
  import opened PolyLoweringPass
  import opened ArrayIndex
  import ArrayHistory
  import ContainmentMap

  type History = seq<ArrayHistory.Op>

  /** Operand `ref` of the history is the value `v` in the block, where `owner(d)` is operation `d` of the history. */
  ghost predicate OperandIs(c: Config, s: State, owner: nat -> Id, ref: ArrayHistory.Ref, v: Id) {
    var x := owner(ref.op);
    IsRow(c, x, ref.operand) && x in s.ops && s.ops[x].Use? && ref.operand < |s.ops[x].args| &&
      s.ops[x].args[ref.operand] == v
  }

  /** The history is the history of the block. */
  ghost predicate Owned(c: Config, s: State, history: History, owner: nat -> Id) {
    forall ref: ArrayHistory.Ref :: ArrayHistory.ValueOf(history, ref).Some? ==>
      OperandIs(c, s, owner, ref, ArrayHistory.ValueOf(history, ref).value)
  }

  /** Operand `ref`, which was one of state `s`, is within the bound in state `s'` and still has its source
      expression. */
  ghost predicate OperandLow(c: Config, s: State, s': State, owner: nat -> Id, history: History, ref: ArrayHistory.Ref)
  {
    var x, v := owner(ref.op), ArrayHistory.ValueOf(history, ref);
    && v.Some? && v.value in s.tree && RowLow(c, s', x, ref.operand)
    && s'.ops[x].args[ref.operand] in s'.tree && s'.tree[s'.ops[x].args[ref.operand]] == s.tree[v.value]
  }

  /** Every operand the array shows is within the bound in the source. */
  ghost predicate ShownFit(c: Config, s: State, history: History, shape: ArrayHistory.Id -> Index, owner: nat -> Id,
          view: ContainmentMap.View)
    requires view.n <= |history|
  {
    var w := ArrayHistory.Before(history, shape, view.n)(view.arr);
    forall idx: Index :: InShape(shape(view.arr), view.prefix + idx) && w(view.prefix + idx).Some? ==>
      OperandFits(s, owner(w(view.prefix + idx).value.op), w(view.prefix + idx).value.operand, c.maxDegree)
  }

  /** Lower the felt elements of the array that `view` looks at. */
  method LowerContainmentRhs(pass: Pass, history: History, shape: ArrayHistory.Id -> Index, owner: nat -> Id,
          view: ContainmentMap.View)
    returns (ok: bool)
    requires pass.Valid() && ArrayHistory.Ordered(history, shape) && view.n <= |history|
    requires Owned(pass.cfg, pass.St(), history, owner)
    modifies pass
    ensures pass.Valid() && Later(pass.cfg, old(pass.St()), pass.St())
    ensures ok <==> !ContainmentMap.Cyclic(history, view, {})
    ensures !ok ==> pass.St() == old(pass.St())
    ensures ok ==> forall idx: Index :: InShape(shape(view.arr), view.prefix + idx) ==>
      var w := ArrayHistory.Before(history, shape, view.n)(view.arr)(view.prefix + idx);
      w.Some? ==> OperandLow(pass.cfg, old(pass.St()), pass.St(), owner, history, w.value)
    ensures OnlyNeeded(pass.cfg, old(pass.St()), pass.St())
    ensures ShownFit(pass.cfg, old(pass.St()), history, shape, owner, view) ==> Untouched(old(pass.St()), pass.St())
  {
    hide OnlyNeeded, ShownFit, OperandFits, LoweredOperand;
    hide Inv, Later, RowLow, IsRow, Owned, ContainmentMap.Cyclic, ContainmentMap.Listed, ArrayHistory.Before,
        ArrayHistory.Ordered, OperandLow;
    ghost var s0 := pass.St();
    LaterRefl(pass.cfg, s0);
    NeededSame(pass.cfg, s0, s0);
    var elements;
    ok, elements := ContainmentMap.CollectElements(history, shape, view, {});
    if !ok { return; }
    var i := 0;
    while i < |elements|
      invariant i <= |elements| && pass.Valid() && Later(pass.cfg, s0, pass.St()) && OnlyNeeded(pass.cfg, s0, pass.St())
      invariant ShownFit(pass.cfg, s0, history, shape, owner, view) ==> Untouched(s0, pass.St())
      invariant forall j :: 0 <= j < i ==> OperandLow(pass.cfg, s0, pass.St(), owner, history, elements[j].1)
    {
      ghost var s := pass.St();
      var ref := elements[i].1;
      ElementIsOperand(history, shape, view, elements, i);
      OwnedAt(pass.cfg, s0, history, owner, ref);
      if ShownFit(pass.cfg, s0, history, shape, owner, view) {
        ShownElementFits(pass.cfg, s0, history, shape, owner, view, elements, i);
        FitsStill(s0, s, owner(ref.op), ref.operand, pass.cfg.maxDegree);
      }
      pass.LowerRowOperand(owner(ref.op), ref.operand);
      NeededTrans(pass.cfg, s0, s, pass.St());
      OperandLowered(pass.cfg, s0, pass.St(), owner, history, ref);
      forall j | 0 <= j < i ensures OperandLow(pass.cfg, s0, pass.St(), owner, history, elements[j].1) {
        OperandStays(pass.cfg, s0, s, pass.St(), owner, history, elements[j].1);
      }
      InvLaterTrans(pass.cfg, s0, s, pass.St());
      i := i + 1;
    }
    forall idx: Index | InShape(shape(view.arr), view.prefix + idx) &&
      ArrayHistory.Before(history, shape, view.n)(view.arr)(view.prefix + idx).Some?
      ensures OperandLow(pass.cfg, s0, pass.St(), owner, history,
          ArrayHistory.Before(history, shape, view.n)(view.arr)(view.prefix + idx).value)
    {
      ShownIsListed(history, shape, view, elements, idx);
    }
  }

  lemma ShownElementFits(c: Config, s: State, history: History, shape: ArrayHistory.Id -> Index, owner: nat -> Id,
          view: ContainmentMap.View, elements: seq<(Index, ArrayHistory.Ref)>, i: nat)
    requires view.n <= |history| && i < |elements| && ShownFit(c, s, history, shape, owner, view)
    requires ContainmentMap.Listed(elements, shape(view.arr), Count(shape(view.arr)), view.prefix,
        ArrayHistory.Before(history, shape, view.n)(view.arr))
    ensures OperandFits(s, owner(elements[i].1.op), elements[i].1.operand, c.maxDegree)
  {
    hide ArrayHistory.Before, OperandFits;
    var w := ArrayHistory.Before(history, shape, view.n)(view.arr);
    assert ContainmentMap.ItemOk(elements[i], shape(view.arr), Count(shape(view.arr)), view.prefix, w);
  }

  lemma OwnedAt(c: Config, s: State, history: History, owner: nat -> Id, ref: ArrayHistory.Ref)
    requires Owned(c, s, history, owner)
    ensures ArrayHistory.ValueOf(history, ref).Some? ==>
        OperandIs(c, s, owner, ref, ArrayHistory.ValueOf(history, ref).value)
  {}

  /** A lookup row still states what it stated. */
  lemma RowStates(c: Config, s: State, x: Id, j: nat)
    requires Inv(c, s) && IsRow(c, x, j)
    ensures x in s.ops && s.ops[x].Use? && j < |s.ops[x].args| && s.ops[x].args[j] in s.tree
    ensures s.tree[s.ops[x].args[j]] == c.checks[x].args[j]
  {
    hide WellFormed, TreesOk, MemoOk, RewritesOk, AuxOk;
    assert States(s.ops[x], s.tree, c.checks[x]);
  }

  lemma OperandLowered(c: Config, s: State, s': State, owner: nat -> Id, history: History, ref: ArrayHistory.Ref)
    requires Inv(c, s) && Inv(c, s') && ArrayHistory.ValueOf(history, ref).Some?
    requires OperandIs(c, s, owner, ref, ArrayHistory.ValueOf(history, ref).value)
    requires RowLow(c, s', owner(ref.op), ref.operand)
    ensures OperandLow(c, s, s', owner, history, ref)
  {
    hide Inv;
    RowStates(c, s, owner(ref.op), ref.operand);
    RowStates(c, s', owner(ref.op), ref.operand);
  }

  lemma OperandStays(c: Config, s0: State, s: State, s': State, owner: nat -> Id, history: History,
          ref: ArrayHistory.Ref)
    requires Inv(c, s0) && Inv(c, s) && Inv(c, s') && Later(c, s, s') && OperandLow(c, s0, s, owner, history, ref)
    requires Owned(c, s0, history, owner)
    ensures OperandLow(c, s0, s', owner, history, ref)
  {
    hide Inv, Later, RowLow, IsRow, Owned;
    OwnedAt(c, s0, history, owner, ref);
    RowLowLater(c, s, s', owner(ref.op), ref.operand);
    OperandLowered(c, s0, s', owner, history, ref);
  }

  lemma ElementIsOperand(history: History, shape: ArrayHistory.Id -> Index, view: ContainmentMap.View,
          elements: seq<(Index, ArrayHistory.Ref)>, i: nat)
    requires ArrayHistory.Ordered(history, shape) && view.n <= |history| && i < |elements|
    requires ContainmentMap.Listed(elements, shape(view.arr), Count(shape(view.arr)), view.prefix,
        ArrayHistory.Before(history, shape, view.n)(view.arr))
    ensures ArrayHistory.ValueOf(history, elements[i].1).Some?
  {
    hide ArrayHistory.Ordered, ArrayHistory.Before;
    var w := ArrayHistory.Before(history, shape, view.n)(view.arr);
    assert ContainmentMap.ItemOk(elements[i], shape(view.arr), Count(shape(view.arr)), view.prefix, w);
    ArrayHistory.LastWriterHolds(history, shape, v => 0, a => idx => 0, view.n, view.arr, view.prefix + elements[i].0);
  }

  lemma ShownIsListed(history: History, shape: ArrayHistory.Id -> Index, view: ContainmentMap.View,
          elements: seq<(Index, ArrayHistory.Ref)>, idx: Index)
    requires view.n <= |history| && InShape(shape(view.arr), view.prefix + idx)
    requires ContainmentMap.Listed(elements, shape(view.arr), Count(shape(view.arr)), view.prefix,
        ArrayHistory.Before(history, shape, view.n)(view.arr))
    ensures var w := ArrayHistory.Before(history, shape, view.n)(view.arr)(view.prefix + idx);
            w.Some? ==> exists i :: 0 <= i < |elements| && elements[i].1 == w.value
  {
    hide ArrayHistory.Before;
    var w := ArrayHistory.Before(history, shape, view.n)(view.arr);
    if w(view.prefix + idx).Some? {
      LinearInRange(shape(view.arr), view.prefix + idx);
      assert ContainmentMap.Visible(shape(view.arr), Count(shape(view.arr)), w, view.prefix + idx);
      assert ContainmentMap.IndexListed(elements, idx);
      var i :| 0 <= i < |elements| && elements[i].0 == idx;
      assert ContainmentMap.ItemOk(elements[i], shape(view.arr), Count(shape(view.arr)), view.prefix, w);
    }
  }
}
