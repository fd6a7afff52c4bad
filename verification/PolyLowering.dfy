/** The degree lowering of one `constrain` body, in place. */
module PolyLowering {
  import opened Ir
  import opened LoweringState
  import opened LoweringSteps

  /** The degree of a value as the block now stands. */
  ghost function OpDegree(ops: map<Id, Op>, order: seq<Id>, x: Id): nat
    requires WellFormed(ops, order) && x in ops && ops[x].IsValue()
    decreases Pos(order, x)
  {
    match ops[x]
    case Const(_) => 0
    case Leaf(_) => 1
    case Bin(k, l, r) =>
      assert UsesBefore(ops, order, x, l) && UsesBefore(ops, order, x, r);
      Combine(k, OpDegree(ops, order, l), OpDegree(ops, order, r))
    case Neg(y) =>
      assert UsesBefore(ops, order, x, y);
      OpDegree(ops, order, y)
  }

  ghost predicate Exact(ops: map<Id, Op>, order: seq<Id>, memo: map<Id, nat>)
    requires WellFormed(ops, order)
  {
    forall y :: y in memo ==> y in ops && ops[y].IsValue() && memo[y] == OpDegree(ops, order, y)
  }

  /** Two degrees added in a 32-bit unsigned integer. */
  function Plus(a: nat, b: nat): nat { (a + b) % UNSIGNED_RANGE }

  ghost function Measure(tree: map<Id, Expr>, x: Id): nat {
    if x in tree then Size(tree[x]) else 0
  }

  ghost predicate Smaller(tree: map<Id, Expr>, y: Id, n: nat) {
    y in tree && Size(tree[y]) < n
  }

  /** The memo after the degree of `x` has been looked up. */
  ghost function Measured(ops: map<Id, Op>, tree: map<Id, Expr>, x: Id, memo: map<Id, nat>): map<Id, nat>
    decreases Measure(tree, x)
  {
    if x in memo || x !in ops || x !in tree then memo
    else match ops[x]
      case Const(_) => memo[x := 0]
      case Leaf(_) => memo[x := 1]
      case Bin(k, l, r) =>
        if !Smaller(tree, l, Size(tree[x])) || !Smaller(tree, r, Size(tree[x])) then memo
        else
          var m := Measured(ops, tree, r, Measured(ops, tree, l, memo));
          if l in m && r in m then m[x := if k == AddK || k == SubK then Max(m[l], m[r]) else Plus(m[l], m[r])] else m
      case Neg(y) =>
        if !Smaller(tree, y, Size(tree[x])) then memo
        else
          var m := Measured(ops, tree, y, memo);
          if y in m then m[x := m[y]] else m
      case _ => memo
  }

  lemma MemoHit(s: State, memo: map<Id, nat>, x: Id)
    requires WellFormed(s.ops, s.order) && MemoOk(s.ops, s.tree, memo) && x in memo && x in s.ops && s.ops[x].IsValue()
    requires x in s.order
    ensures x in s.tree && memo[x] <= Degree(s.tree[x]) && Grown(s.order, memo, memo, Pos(s.order, x))
    ensures Exact(s.ops, s.order, memo) ==> memo[x] == OpDegree(s.ops, s.order, x)
  {}

  lemma GrownRefl(order: seq<Id>, memo: map<Id, nat>, p: int)
    ensures Grown(order, memo, memo, p)
  {}

  lemma MeasuredStep(c: Config, s: State, x: Id, memo: map<Id, nat>, m: map<Id, nat>, d: nat)
    requires Inv(c, s) && x in s.ops && s.ops[x].IsValue() && x !in memo
    requires s.ops[x].Const? || s.ops[x].Leaf? ==> m == memo && d == if s.ops[x].Const? then 0 else 1
    requires s.ops[x].Bin? ==>
      var Bin(k, l, r) := s.ops[x];
      && m == Measured(s.ops, s.tree, r, Measured(s.ops, s.tree, l, memo)) && l in m && r in m
      && d == if k == AddK || k == SubK then Max(m[l], m[r]) else Plus(m[l], m[r])
    requires s.ops[x].Neg? ==> m == Measured(s.ops, s.tree, s.ops[x].x, memo) && s.ops[x].x in m && d == m[s.ops[x].x]
    ensures Measured(s.ops, s.tree, x, memo) == m[x := d]
  {
    OperandFacts(c, s, x);
    hide Inv;
  }

  lemma MeasuredHit(ops: map<Id, Op>, tree: map<Id, Expr>, x: Id, memo: map<Id, nat>)
    requires x in memo
    ensures Measured(ops, tree, x, memo) == memo
  {}

  /** The memo stays a sound one, and gains the degree of `x`; started on an empty memo it is the degree `x` really
      has. */
  lemma {:induction false} MeasuredOk(c: Config, s: State, x: Id, memo: map<Id, nat>)
    requires Inv(c, s) && x in s.ops && s.ops[x].IsValue() && MemoOk(s.ops, s.tree, memo)
    ensures var m := Measured(s.ops, s.tree, x, memo);
            && MemoOk(s.ops, s.tree, m) && x in m && x in s.tree && m[x] <= Degree(s.tree[x])
            && Grown(s.order, memo, m, Pos(s.order, x))
            && (Exact(s.ops, s.order, memo) ==> Exact(s.ops, s.order, m) && m[x] == OpDegree(s.ops, s.order, x))
    decreases Pos(s.order, x)
  {
    hide Inv, WellFormed, MemoOk, MemoNode, Exact, NodeOk, Grown, Degree, OpDegree, Combine, Measured, Size;
    OperandFacts(c, s, x);
    if x in memo {
      MeasuredHit(s.ops, s.tree, x, memo);
      MemoHit(s, memo, x);
      return;
    }
    var p := Pos(s.order, x) - 1;
    GrownRefl(s.order, memo, p);
    var m, d := memo, 0;
    match s.ops[x] {
      case Const(_) =>
      case Leaf(_) => d := 1;
      case Bin(k, l, r) =>
        assert l in Operands(s.ops[x]) && r in Operands(s.ops[x]);
        MeasuredOk(c, s, l, memo);
        var m1 := Measured(s.ops, s.tree, l, memo);
        GrownTrans(s.order, memo, memo, m1, p, Pos(s.order, l), p);
        MeasuredOk(c, s, r, m1);
        m := Measured(s.ops, s.tree, r, m1);
        GrownTrans(s.order, memo, m1, m, p, Pos(s.order, r), p);
        GrownGet(s.order, m1, m, l, Pos(s.order, r));
        d := if k == AddK || k == SubK then Max(m[l], m[r]) else Plus(m[l], m[r]);
      case Neg(y) =>
        assert y in Operands(s.ops[x]);
        MeasuredOk(c, s, y, memo);
        m := Measured(s.ops, s.tree, y, memo);
        GrownTrans(s.order, memo, memo, m, p, Pos(s.order, y), p);
        d := m[y];
    }
    DegreeOf(s, m, x, d);
    MeasuredStep(c, s, x, memo, m, d);
    GrownPut(s.order, memo, m, x, d);
    MemoPut(s, m, x, d);
  }

  /** Degree of `x`, memoised. */
  method GetDegree(ops: map<Id, Op>, x: Id, memo: map<Id, nat>, ghost c: Config, ghost s: State)
    returns (d: nat, memo': map<Id, nat>)
    requires Inv(c, s) && s.ops == ops && x in ops && ops[x].IsValue() && MemoOk(ops, s.tree, memo)
    ensures memo' == Measured(ops, s.tree, x, memo)
    ensures MemoOk(ops, s.tree, memo') && x in memo' && d == memo'[x] && x in s.tree && d <= Degree(s.tree[x])
    ensures Grown(s.order, memo, memo', Pos(s.order, x))
    ensures x in memo ==> memo' == memo
    ensures Exact(ops, s.order, memo) ==> Exact(ops, s.order, memo') && d == OpDegree(ops, s.order, x)
    decreases Pos(s.order, x)
  {
    hide Inv, WellFormed, MemoOk, MemoNode, Exact, NodeOk, Grown, Degree, OpDegree, Combine, Measured, Size;
    OperandFacts(c, s, x);
    MeasuredOk(c, s, x, memo);
    if x in memo {
      MeasuredHit(ops, s.tree, x, memo);
      return memo[x], memo;
    }
    match ops[x] {
      case Const(_) => d, memo' := 0, memo;
      case Leaf(_) => d, memo' := 1, memo;
      case Bin(k, l, r) =>
        assert l in Operands(ops[x]) && r in Operands(ops[x]);
        var dl, dr;
        dl, memo' := GetDegree(ops, l, memo, c, s);
        ghost var memo1 := memo';
        dr, memo' := GetDegree(ops, r, memo', c, s);
        GrownGet(s.order, memo1, memo', l, Pos(s.order, r));
        d := if k == AddK || k == SubK then Max(dl, dr) else Plus(dl, dr);
      case Neg(y) =>
        assert y in Operands(ops[x]);
        d, memo' := GetDegree(ops, y, memo, c, s);
    }
    MeasuredStep(c, s, x, memo, memo', d);
    memo' := memo'[x := d];
  }

  /** What is memoised for the operands of `x` settles the degree of `x`, wrap-around included. */
  lemma DegreeOf(s: State, memo: map<Id, nat>, x: Id, d: nat)
    requires WellFormed(s.ops, s.order) && x in s.ops && s.ops[x].IsValue() && x in s.tree
    requires Degree(s.tree[x]) < UNSIGNED_RANGE
    requires match s.ops[x]
      case Const(_) => d == 0
      case Leaf(_) => d == 1 && Degree(s.tree[x]) >= 1
      case Bin(k, l, r) =>
        && l in s.tree && r in s.tree && s.tree[x] == EBin(k, s.tree[l], s.tree[r])
        && l in memo && r in memo && memo[l] <= Degree(s.tree[l]) && memo[r] <= Degree(s.tree[r])
        && d == if k == AddK || k == SubK then Max(memo[l], memo[r]) else (memo[l] + memo[r]) % UNSIGNED_RANGE
      case Neg(y) => y in s.tree && s.tree[x] == ENeg(s.tree[y]) && y in memo && memo[y] <= Degree(s.tree[y]) &&
        d == memo[y]
      case _ => false
    ensures MemoNode(s.ops[x], memo, d) && d <= Degree(s.tree[x])
    ensures Exact(s.ops, s.order, memo) ==> d == OpDegree(s.ops, s.order, x)
  {}

  /** `memo'` adds to `memo` only values no further than position `p`. */
  ghost predicate Grown(order: seq<Id>, memo: map<Id, nat>, memo': map<Id, nat>, p: int) {
    && (forall y :: y in memo ==> y in memo' && memo'[y] == memo[y])
    && (forall y :: y in memo' ==> y in memo || (y in order && Pos(order, y) <= p))
  }

  lemma GrownTrans(order: seq<Id>, m0: map<Id, nat>, m1: map<Id, nat>, m2: map<Id, nat>, p: int, q: int, r: int)
    requires Grown(order, m0, m1, p) && Grown(order, m1, m2, q) && p <= r && q <= r
    ensures Grown(order, m0, m2, r)
  {}

  lemma GrownGet(order: seq<Id>, m0: map<Id, nat>, m1: map<Id, nat>, y: Id, p: int)
    requires Grown(order, m0, m1, p) && y in m0
    ensures y in m1 && m1[y] == m0[y]
  {}

  lemma GrownPut(order: seq<Id>, memo: map<Id, nat>, memo': map<Id, nat>, x: Id, d: nat)
    requires x in order && Grown(order, memo, memo', Pos(order, x) - 1) && x !in memo
    ensures x !in memo' && Grown(order, memo, memo'[x := d], Pos(order, x))
  {}

  lemma OperandFacts(c: Config, s: State, x: Id)
    requires Inv(c, s) && x in s.ops && s.ops[x].IsValue()
    ensures NodeOk(c, s, x) && x in s.tree && x in s.order && WellFormed(s.ops, s.order)
    ensures match s.ops[x]
            case Bin(k, l, r) => l in s.tree && r in s.tree && s.tree[x] == EBin(k, s.tree[l], s.tree[r])
            case Neg(y) => y in s.tree && s.tree[x] == ENeg(s.tree[y])
            case _ => true
    ensures Degree(s.tree[x]) < UNSIGNED_RANGE
    ensures s.ops[x].Leaf? ==> Degree(s.tree[x]) >= 1
    ensures forall y :: y in Operands(s.ops[x]) ==> UsesBefore(s.ops, s.order, x, y)
  {
    if s.ops[x].Leaf? { LeafDegree(c, s, x); }
  }

  lemma MemoPut(s: State, memo: map<Id, nat>, x: Id, d: nat)
    requires WellFormed(s.ops, s.order) && MemoOk(s.ops, s.tree, memo) && x in s.ops && s.ops[x].IsValue()
    requires MemoNode(s.ops[x], memo, d) && x in s.tree && d <= Degree(s.tree[x])
    requires x !in memo
    ensures MemoOk(s.ops, s.tree, memo[x := d])
    ensures Exact(s.ops, s.order, memo) && d == OpDegree(s.ops, s.order, x) ==>
      Exact(s.ops, s.order, memo[x := d])
  {}

  lemma LeafDegree(c: Config, s: State, x: Id)
    requires Inv(c, s) && x in s.ops && s.ops[x].Leaf?
    ensures x in s.tree && Degree(s.tree[x]) >= 1
  {
    assert NodeOk(c, s, x);
    if IsAux(s.ops[x].src) {
      assert AuxEntryOk(c, s, s.ops[x].src.name.k - c.base);
    }
  }

  // ---------- what a call to lowerExpression delivers ----------

  /** From `s` to `s'`, seen from `use`: `r` stands for `v` and is available at `use`. */
  ghost predicate Lowered(c: Config, s: State, s': State, v: Id, r: Id, use: Id) {
    && Inv(c, s') && Ext(c, s, s', use) && StandsFor(c, s', v, r)
    && r in s'.order && use in s'.order && Pos(s'.order, r) < Pos(s'.order, use)
  }

  ghost predicate Available(s: State, v: Id, use: Id) {
    v in s.ops && s.ops[v].IsValue() && v in s.order && use in s.order && Pos(s.order, v) < Pos(s.order, use)
  }

  lemma ValueTree(c: Config, s: State, v: Id, use: Id)
    requires Inv(c, s) && Available(s, v, use)
    ensures v in s.tree
  {
    hide WellFormed, MemoOk, RewritesOk, AuxOk, ChecksOk;
    assert NodeOk(c, s, v);
  }

  lemma RewriteThere(c: Config, s: State, v: Id)
    requires Inv(c, s) && v in s.rewrites
    ensures s.rewrites[v] in s.order
  {
    hide NoDup, TreesOk, MemoOk, AuxOk, ChecksOk;
    assert StandsFor(c, s, v, s.rewrites[v]);
  }

  lemma NotLast(order: seq<Id>, x: Id, k: nat)
    requires k < |order| && x in order && order[k] != x && forall j :: 0 <= j < k ==> order[j] != x
    ensures k + 1 < |order|
  {}

  lemma CachedLowered(c: Config, s: State, v: Id, use: Id)
    requires Inv(c, s) && v in s.rewrites && s.rewrites[v] in s.order && use in s.order
    requires Pos(s.order, s.rewrites[v]) < Pos(s.order, use)
    ensures Lowered(c, s, s, v, s.rewrites[v], use)
  {
    hide NoDup, TreesOk, MemoOk, AuxOk, ChecksOk;
    assert StandsFor(c, s, v, s.rewrites[v]);
    LaterRefl(c, s);
  }

  /** Composition of two edits behind which `use` stays put. */
  lemma ExtTrans(c: Config, s: State, s1: State, s2: State, use: Id)
    requires Inv(c, s) && Inv(c, s1) && Ext(c, s, s1, use) && Ext(c, s1, s2, use)
    ensures Ext(c, s, s2, use)
  {
    assert forall x :: x in s.ops ==> x < s.nextId;
    assert NoDup(s.order) && NoDup(s1.order);
    hide Inv;
    LaterTrans(c, s, s1, s2);
    FrameTrans(s, s1, s2, use);
  }

  lemma ExtWeaken(c: Config, s: State, s': State, early: Id, use: Id)
    requires Inv(c, s) && Inv(c, s') && Ext(c, s, s', early)
    requires use in s.order && Pos(s.order, early) <= Pos(s.order, use)
    ensures Ext(c, s, s', use)
    ensures early in s'.order && use in s'.order
    ensures Pos(s'.order, early) - Pos(s.order, early) == Pos(s'.order, use) - Pos(s.order, use)
  {
    assert NoDup(s.order) && NoDup(s'.order);
    hide Inv;
    FrameWeaken(s, s', early, use);
  }

  /** A value that stands for another one keeps doing so, and keeps its place in front of `use`. */
  lemma StandsLater(c: Config, s: State, s': State, x: Id, y: Id, use: Id)
    requires Inv(c, s) && Inv(c, s') && Ext(c, s, s', use) && StandsFor(c, s, x, y)
    requires y in s.order && use in s.order && Pos(s.order, y) < Pos(s.order, use)
    ensures StandsFor(c, s', x, y) && s'.memo[y] <= s.memo[y] && UsesBefore(s'.ops, s'.order, use, y)
  {
    KeptLater(c, s, s', y);
    assert SlotsKept(s.ops[y], s'.ops[y], s.memo, s'.memo);
    assert y in s'.order;
    assert NoDup(s.order);
    hide Inv, WellFormed;
    StaysBefore(s, s', y, use);
  }

  /** Both operands of `v` lowered one after the other, whatever that did to `v` itself. */
  ghost predicate BothLowered(c: Config, s0: State, s1: State, s2: State, v: Id, lhs: Id, rhs: Id) {
    && Inv(c, s0) && v in s0.ops && s0.ops[v].Bin? && v in s0.memo && s0.memo[v] > c.maxDegree
    && Lowered(c, s0, s1, s0.ops[v].l, lhs, v)
    && v in s1.ops && s1.ops[v].Bin? && Lowered(c, s1, s2, s1.ops[v].r, rhs, v)
  }

  /** What a binary operation that is still there has kept. */
  lemma LaterBin(c: Config, s: State, s': State, v: Id)
    requires Inv(c, s) && Inv(c, s') && Ext(c, s, s', v) && v in s.ops && s.ops[v].Bin? && v in s.memo
    ensures v in s'.ops && s'.ops[v].Bin? && s'.ops[v].kind == s.ops[v].kind && v in s'.memo && s'.memo[v] == s.memo[v]
  {
    hide TreesOk, MemoOk, RewritesOk, AuxOk, ChecksOk, NoDup;
    assert v in s'.ops && SlotsKept(s.ops[v], s'.ops[v], s.memo, s'.memo);
  }

  lemma BinTree(c: Config, s: State, v: Id)
    requires Inv(c, s) && v in s.ops && s.ops[v].Bin?
    ensures s.ops[v].l in s.tree && s.ops[v].r in s.tree && v in s.tree
    ensures s.tree[v] == EBin(s.ops[v].kind, s.tree[s.ops[v].l], s.tree[s.ops[v].r])
  {
    hide WellFormed, MemoOk, RewritesOk, AuxOk, ChecksOk;
    assert NodeOk(c, s, v);
  }

  lemma BinMemo(c: Config, s: State, v: Id)
    requires Inv(c, s) && v in s.ops && s.ops[v].Bin? && v in s.memo
    ensures s.ops[v].l in s.memo && s.ops[v].r in s.memo
    ensures s.memo[v] >= Combine(s.ops[v].kind, s.memo[s.ops[v].l], s.memo[s.ops[v].r])
  {
    hide WellFormed, TreesOk, RewritesOk, AuxOk, ChecksOk;
    assert MemoNode(s.ops[v], s.memo, s.memo[v]);
  }

  lemma Formed(c: Config, s: State)
    requires Inv(c, s)
    ensures WellFormed(s.ops, s.order) && NoDup(s.order) && forall x :: x in s.order <==> x in s.ops
  {
    hide NoDup, TreesOk, MemoOk, RewritesOk, AuxOk, ChecksOk;
  }

  lemma NoDups(c: Config, s: State)
    requires Inv(c, s)
    ensures NoDup(s.order) && (forall x :: x in s.order <==> x in s.ops) && (forall x :: x in s.ops ==> x < s.nextId)
    ensures c.maxDegree >= 2
  {
    hide NoDup, MemoOk, RewritesOk, AuxOk, ChecksOk;
  }

  lemma BothLoweredNode(c: Config, s0: State, s1: State, s2: State, v: Id, lhs: Id, rhs: Id)
    requires BothLowered(c, s0, s1, s2, v, lhs, rhs)
    ensures Inv(c, s2) && Ext(c, s0, s2, v)
    ensures v in s2.ops && s2.ops[v].Bin? && s2.ops[v].kind == s0.ops[v].kind && v in s2.memo
    ensures s2.memo[v] == s0.memo[v]
    ensures lhs in s2.tree && rhs in s2.tree && v in s2.tree
    ensures s2.tree[v] == EBin(s0.ops[v].kind, s2.tree[lhs], s2.tree[rhs])
  {
    hide Inv, Ext;
    ExtTrans(c, s0, s1, s2, v);
    LaterBin(c, s0, s1, v);
    LaterBin(c, s1, s2, v);
    BinTree(c, s0, v);
    BinTree(c, s1, v);
    TreesKept(c, s0, s1, v);
    TreesKept(c, s1, s2, v);
  }

  lemma TreesKept(c: Config, s: State, s': State, use: Id)
    requires Ext(c, s, s', use)
    ensures forall x :: x in s.tree ==> x in s'.tree && s'.tree[x] == s.tree[x]
    ensures forall x :: x in s.memo ==> x in s'.memo && s'.memo[x] <= s.memo[x]
  {}

  lemma BothLoweredOperands(c: Config, s0: State, s1: State, s2: State, v: Id, lhs: Id, rhs: Id)
    requires BothLowered(c, s0, s1, s2, v, lhs, rhs)
    ensures UsesBefore(s2.ops, s2.order, v, lhs) && UsesBefore(s2.ops, s2.order, v, rhs)
    ensures Kept(c, s2, lhs) && Kept(c, s2, rhs)
    ensures s2.memo[lhs] <= c.maxDegree ||
        (!c.noDiv && (s0.ops[v].kind == AddK || s0.ops[v].kind == SubK ==> s2.memo[lhs] <= s0.memo[v]))
    ensures s2.memo[rhs] <= c.maxDegree ||
        (!c.noDiv && (s0.ops[v].kind == AddK || s0.ops[v].kind == SubK ==> s2.memo[rhs] <= s0.memo[v]))
  {
    hide Inv, Ext;
    LaterBin(c, s0, s1, v);
    BinMemo(c, s0, v);
    BinMemo(c, s1, v);
    TreesKept(c, s0, s1, v);
    TreesKept(c, s1, s2, v);
    StandsLater(c, s1, s2, s0.ops[v].l, lhs, v);
  }

  /** Before anything is lowered, the first operand of `v` can be. */
  lemma FirstOperand(c: Config, s: State, v: Id, use: Id)
    requires Inv(c, s) && Available(s, v, use) && (s.ops[v].Bin? || s.ops[v].Neg?)
    ensures var x := if s.ops[v].Bin? then s.ops[v].l else s.ops[v].x;
            Available(s, x, v) && x in s.tree && v in s.tree && Size(s.tree[x]) < Size(s.tree[v])
  {
    OperandFacts(c, s, v);
    assert (if s.ops[v].Bin? then s.ops[v].l else s.ops[v].x) in Operands(s.ops[v]);
    hide Inv;
  }

  /** After the first operand is lowered, `v` is still there, and its second operand can be. */
  lemma SecondOperand(c: Config, s0: State, s1: State, v: Id, use: Id, lhs: Id)
    requires Inv(c, s0) && Available(s0, v, use) && s0.ops[v].Bin? && Lowered(c, s0, s1, s0.ops[v].l, lhs, v)
    ensures v in s1.ops && s1.ops[v].Bin? && s1.ops[v].kind == s0.ops[v].kind
    ensures Available(s1, s1.ops[v].r, v) && s1.ops[v].r in s1.tree && v in s0.tree && v in s1.tree
    ensures Size(s1.tree[s1.ops[v].r]) < Size(s0.tree[v])
  {
    assert v in s1.ops && SlotsKept(s0.ops[v], s1.ops[v], s0.memo, s1.memo);
    OperandFacts(c, s0, v);
    OperandFacts(c, s1, v);
    assert s1.ops[v].r in Operands(s1.ops[v]);
    hide Inv;
  }

  lemma RootReady(c: Config, s2: State, v: Id, lhs: Id, rhs: Id, d: nat)
    requires Inv(c, s2) && v in s2.ops && s2.ops[v].Bin? && (s2.ops[v].kind == AddK || s2.ops[v].kind == SubK)
    requires UsesBefore(s2.ops, s2.order, v, lhs) && UsesBefore(s2.ops, s2.order, v, rhs)
    requires lhs in s2.tree && rhs in s2.tree && v in s2.tree
    requires s2.tree[v] == EBin(s2.ops[v].kind, s2.tree[lhs], s2.tree[rhs])
    requires v in s2.memo && lhs in s2.memo && rhs in s2.memo && Max(s2.memo[lhs], s2.memo[rhs]) <= d <= s2.memo[v]
    ensures RerootPre(c, s2, v, Bin(s2.ops[v].kind, lhs, rhs), d)
  {
    assert NodeOk(c, s2, v);
    hide Inv;
  }

  lemma NegReady(c: Config, s2: State, v: Id, x: Id, d: nat)
    requires Inv(c, s2) && v in s2.ops && s2.ops[v].Neg? && UsesBefore(s2.ops, s2.order, v, x)
    requires x in s2.tree && v in s2.tree && s2.tree[v] == ENeg(s2.tree[x])
    requires v in s2.memo && x in s2.memo && s2.memo[x] <= d <= s2.memo[v]
    ensures RerootPre(c, s2, v, Neg(x), d)
  {
    assert NodeOk(c, s2, v);
    hide Inv;
  }

  /** Everything the end of `lowerBinaryRoot` needs to know. */
  lemma RootFacts(c: Config, s0: State, s1: State, s2: State, v: Id, lhs: Id, rhs: Id, use: Id)
    requires BothLowered(c, s0, s1, s2, v, lhs, rhs) && (s0.ops[v].kind == AddK || s0.ops[v].kind == SubK)
    ensures Inv(c, s2) && v in s2.ops && lhs in s2.ops && rhs in s2.ops && s2.ops[lhs].IsValue()
    ensures s2.ops[rhs].IsValue()
    ensures s2.ops[v].Bin? && s2.ops[v].kind == s0.ops[v].kind && v in s2.memo && lhs in s2.memo && rhs in s2.memo
    ensures var d := Max(s2.memo[lhs], s2.memo[rhs]);
            && RerootPre(c, s2, v, Bin(s0.ops[v].kind, lhs, rhs), d)
            && RerootPre(c, s2, v, Bin(s0.ops[v].kind, lhs, rhs), s2.memo[v])
            && (d <= c.maxDegree || !c.noDiv)
    ensures Ext(c, s0, s2, v)
  {
    BothLoweredNode(c, s0, s1, s2, v, lhs, rhs);
    BothLoweredOperands(c, s0, s1, s2, v, lhs, rhs);
    hide Inv, RerootPre, Lowered, Ext;
    RootReady(c, s2, v, lhs, rhs, Max(s2.memo[lhs], s2.memo[rhs]));
    RootReady(c, s2, v, lhs, rhs, s2.memo[v]);
  }

  lemma NegFacts(c: Config, s0: State, s2: State, v: Id, x: Id, use: Id)
    requires Inv(c, s0) && v in s0.ops && s0.ops[v].Neg? && v in s0.memo && s0.memo[v] > c.maxDegree
    requires Lowered(c, s0, s2, s0.ops[v].x, x, v)
    ensures Inv(c, s2) && v in s2.ops && x in s2.ops && s2.ops[x].IsValue() && s2.ops[v].Neg? && v in s2.memo
    ensures x in s2.memo
    ensures RerootPre(c, s2, v, Neg(x), s2.memo[x]) && RerootPre(c, s2, v, Neg(x), s2.memo[v])
    ensures s2.memo[x] <= c.maxDegree || !c.noDiv
    ensures Ext(c, s0, s2, v)
  {
    assert NodeOk(c, s0, v) && MemoNode(s0.ops[v], s0.memo, s0.memo[v]);
    assert v in s2.ops && SlotsKept(s0.ops[v], s2.ops[v], s0.memo, s2.memo);
    hide WellFormed, TreesOk, MemoOk, RewritesOk, AuxOk, ChecksOk, RerootPre;
    NegReady(c, s2, v, x, s2.memo[x]);
    NegReady(c, s2, v, x, s2.memo[v]);
  }

  /** A degree-neutral root, once its operands are lowered in place, is itself within the bound. */
  lemma RootLowered(c: Config, s0: State, s2: State, v: Id, op: Op, d: nat, use: Id)
    requires Inv(c, s0) && Inv(c, s2) && Available(s0, v, use) && Ext(c, s0, s2, v)
    requires RerootPre(c, s2, v, op, d)
    ensures var s3 := Rerooted(s2, v, op, d);
            Inv(c, s3) && Ext(c, s0, s3, use) && v in s3.order && use in s3.order &&
              Pos(s3.order, v) < Pos(s3.order, use)
    ensures d <= c.maxDegree || !c.noDiv ==> StandsFor(c, Rerooted(s2, v, op, d), v, v)
  {
    var s3 := Rerooted(s2, v, op, d);
    RerootStep(c, s2, v, op, d);
    RerootStands(c, s2, v, op, d);
    hide Inv, RerootPre, Ext, StandsFor, Later;
    ExtWeaken(c, s0, s2, v, use);
    assert FrameFrom(s2, s3, use);
    hide FrameFrom;
    ExtIntro(c, s2, s3, use);
    ExtTrans(c, s0, s2, s3, use);
  }

  lemma RerootStands(c: Config, s: State, v: Id, op: Op, d: nat)
    requires RerootPre(c, s, v, op, d) && Inv(c, Rerooted(s, v, op, d))
    ensures d <= c.maxDegree || !c.noDiv ==> StandsFor(c, Rerooted(s, v, op, d), v, v)
  {
    assert SameKind(s.ops[v], op) && NodeOk(c, Rerooted(s, v, op, d), v);
    hide Inv;
  }

  lemma BothLoweredIntro(c: Config, s0: State, s1: State, s2: State, v: Id, lhs: Id, rhs: Id)
    requires Inv(c, s0) && v in s0.ops && s0.ops[v].Bin? && v in s0.memo && s0.memo[v] > c.maxDegree
    requires Lowered(c, s0, s1, s0.ops[v].l, lhs, v)
    requires v in s1.ops && s1.ops[v].Bin? && Lowered(c, s1, s2, s1.ops[v].r, rhs, v)
    ensures BothLowered(c, s0, s1, s2, v, lhs, rhs)
  {}

  /** Memoising and caching move nothing. */
  lemma RootCached(c: Config, s0: State, s3: State, s4: State, v: Id, use: Id)
    requires Inv(c, s0) && Inv(c, s3) && Inv(c, s4) && Ext(c, s0, s3, use) && StandsFor(c, s3, v, v)
    requires v in s3.order && use in s3.order && Pos(s3.order, v) < Pos(s3.order, use)
    requires s4.order == s3.order && Later(c, s3, s4) && FrameFrom(s3, s4, use)
    ensures Lowered(c, s0, s4, v, v, use)
  {
    hide Inv, FrameFrom;
    ExtTrans(c, s0, s3, s4, use);
    KeptLater(c, s3, s4, v);
    assert v in s4.ops && SlotsKept(s3.ops[v], s4.ops[v], s3.memo, s4.memo);
  }

  // ---------- lowering a product ----------

  /** A value in front of `k` that may be an operand of the new product. */
  ghost predicate Factor(c: Config, s: State, y: Id, k: nat) {
    && y in s.ops && s.ops[y].IsValue() && y in s.order && Pos(s.order, y) < k && y in s.tree && Kept(c, s, y)
    && (c.noDiv ==> s.memo[y] <= c.maxDegree)
  }

  /** `k` is a place right behind product `v`, with every user of `v` behind it. */
  ghost predicate Behind(c: Config, s: State, v: Id, k: nat, use: Id) {
    && use in s.order && k <= Pos(s.order, use) && Clear(s, k)
    && v in s.ops && s.ops[v].IsMul() && v in s.order && Pos(s.order, v) < k
    && v in s.memo && s.memo[v] > c.maxDegree && v in s.tree && UsersBehind(s, v, k - 1)
  }

  ghost predicate ProductPoint(c: Config, s0: State, s: State, v: Id, lhs: Id, rhs: Id, k: nat, use: Id) {
    && Inv(c, s0) && Inv(c, s) && Ext(c, s0, s, use) && Behind(c, s, v, k, use)
    && Factor(c, s, lhs, k) && Factor(c, s, rhs, k) && s.tree[v] == EBin(MulK, s.tree[lhs], s.tree[rhs])
  }

  lemma BehindStart(c: Config, s: State, v: Id, use: Id)
    requires Inv(c, s) && Available(s, v, use) && s.ops[v].IsMul() && v in s.memo && s.memo[v] > c.maxDegree
    ensures Behind(c, s, v, Pos(s.order, v) + 1, use)
  {
    OperandFacts(c, s, v);
    forall x | x in s.ops && v in Operands(s.ops[x]) ensures x in s.order && Pos(s.order, x) > Pos(s.order, v) {
      assert UsesBefore(s.ops, s.order, x, v);
    }
    forall j | 0 <= j < |s.aux| && s.aux[j].auxValue in s.order
      ensures Pos(s.order, s.aux[j].auxValue) != Pos(s.order, v)
    {
      assert AuxEntryOk(c, s, j);
    }
  }

  lemma ProductStart(c: Config, s0: State, s1: State, s2: State, v: Id, lhs: Id, rhs: Id, use: Id)
    requires BothLowered(c, s0, s1, s2, v, lhs, rhs) && s0.ops[v].IsMul() && Available(s0, v, use)
    ensures v in s2.order && ProductPoint(c, s0, s2, v, lhs, rhs, Pos(s2.order, v) + 1, use)
  {
    hide Inv, Lowered, Later, FrameFrom, Behind;
    BothLoweredNode(c, s0, s1, s2, v, lhs, rhs);
    BothLoweredOperands(c, s0, s1, s2, v, lhs, rhs);
    NoDups(c, s0);
    NoDups(c, s2);
    ExtWeaken(c, s0, s2, v, use);
    FrameWeaken(s0, s2, v, use);
    BehindStart(c, s2, v, use);
  }

  lemma FactorReady(c: Config, s: State, v: Id, t: Id, k: nat, use: Id)
    requires Inv(c, s) && Behind(c, s, v, k, use) && Factor(c, s, t, k) && s.memo[t] >= 2
    ensures FactorPre(c, s, t, k) && t != v
  {}

  /** What the position arithmetic of a factoring step rests on. */
  ghost predicate Placed(s: State, t: Id, k: nat) {
    && NoDup(s.order) && t in s.tree && k <= |s.order|
    && (forall x :: x in s.order ==> x < s.nextId) && (forall x :: x in s.ops ==> x < s.nextId)
    && (forall x :: x in s.memo ==> x < s.nextId) && (forall x :: x in s.tree ==> x < s.nextId)
    && (forall j :: 0 <= j < |s.aux| ==> s.aux[j].auxValue in s.order)
    && (forall x :: x in s.ops ==> x in s.order)
  }

  lemma PlacedHolds(c: Config, s: State, t: Id, k: nat)
    requires FactorPre(c, s, t, k)
    ensures Placed(s, t, k)
  {
    OperandFacts(c, s, t);
    forall j | 0 <= j < |s.aux| ensures s.aux[j].auxValue in s.order { assert AuxEntryOk(c, s, j); }
  }

  lemma FactoredUser(s: State, v: Id, t: Id, k: nat, x: Id)
    requires t in s.tree && k <= |s.order| && t != v && v < s.nextId
    requires x in Factored(s, t, k, k).ops && v in Operands(Factored(s, t, k, k).ops[x])
    ensures x in s.ops && v in Operands(s.ops[x])
  {
    if x in s.ops { SubstOperands(s.ops[x], t, s.nextId); }
  }

  lemma FactoredUsers(s: State, v: Id, t: Id, k: nat)
    requires t in s.tree && k <= |s.order| && t != v && v < s.nextId && UsersBehind(s, v, k - 1)
    requires var order' := Factored(s, t, k, k).order;
            && (forall x :: x in s.order ==> x in order' && Pos(order', x) == Pos(s.order, x) + if Pos(s.order, x) < k
              then 0 else 2)
    ensures UsersBehind(Factored(s, t, k, k), v, k + 1)
  {
    var s' := Factored(s, t, k, k);
    forall x | x in s'.ops && v in Operands(s'.ops[x]) ensures x in s'.order && Pos(s'.order, x) > k + 1 {
      FactoredUser(s, v, t, k, x);
    }
  }

  lemma FactoredBehind(c: Config, s: State, v: Id, t: Id, k: nat, use: Id)
    requires Placed(s, t, k) && Behind(c, s, v, k, use) && t != v
    ensures Behind(c, Factored(s, t, k, k), v, k + 2, use)
    ensures FrameFrom(s, Factored(s, t, k, k), use)
  {
    hide NoDup, FrameFrom, Clear, Insert, UsersBehind;
    FactoredOrder(s, t, k, k);
    FactorClear(c, s, t, k, k);
    FactorFrame(c, s, t, k, k, use);
    FactoredUsers(s, v, t, k);
  }

  lemma FactoredFactor(c: Config, s: State, t: Id, k: nat, y: Id)
    requires Placed(s, t, k) && Factor(c, s, t, k) && Factor(c, s, y, k) && c.maxDegree >= 2
    ensures Factor(c, Factored(s, t, k, k), y, k + 2) && Factored(s, t, k, k).tree[y] == s.tree[y]
    ensures Factored(s, t, k, k).memo[y] == s.memo[y]
    ensures Factor(c, Factored(s, t, k, k), s.nextId, k + 2) && Factored(s, t, k, k).tree[s.nextId] == s.tree[t]
    ensures Factored(s, t, k, k).memo[s.nextId] == 1
  {
    hide NoDup, Insert;
    FactoredOrder(s, t, k, k);
  }

  /** Factoring out one side leaves the product waiting to be built from the generated value. */
  lemma ProductFactored(c: Config, s0: State, s: State, v: Id, lhs: Id, rhs: Id, k: nat, use: Id, t: Id)
    requires ProductPoint(c, s0, s, v, lhs, rhs, k, use) && (t == lhs || t == rhs) && t in s.memo && s.memo[t] >= 2
    ensures t in s.tree && FactorPre(c, s, t, k)
    ensures var s' := Factored(s, t, k, k); var a := s.nextId;
            && Inv(c, s') && a in s'.memo && s'.memo[a] == 1
            && (t == lhs ==>
              ProductPoint(c, s0, s', v, a, rhs, k + 2, use) && rhs in s'.memo && s'.memo[rhs] == s.memo[rhs])
            && (t == rhs ==>
              ProductPoint(c, s0, s', v, lhs, a, k + 2, use) && lhs in s'.memo && s'.memo[lhs] == s.memo[lhs])
            && (lhs == rhs ==> ProductPoint(c, s0, s', v, a, a, k + 2, use))
  {
    FactorReady(c, s, v, t, k, use);
    PlacedHolds(c, s, t, k);
    assert c.maxDegree >= 2;
    hide Placed, Factor, Inv, Behind, FactorPre, Ext;
    FactorStep(c, s, t, k, k);
    FactoredBehind(c, s, v, t, k, use);
    FactoredFactor(c, s, t, k, lhs);
    FactoredFactor(c, s, t, k, rhs);
    FactoredTree(s, v, t, k);
    assert Ext(c, s, Factored(s, t, k, k), use) by { ExtIntro(c, s, Factored(s, t, k, k), use); }
    ExtTrans(c, s0, s, Factored(s, t, k, k), use);
  }

  lemma FactoredTree(s: State, v: Id, t: Id, k: nat)
    requires v in s.tree && t in s.tree && k <= |s.order|
    ensures v != s.nextId ==> v in Factored(s, t, k, k).tree && Factored(s, t, k, k).tree[v] == s.tree[v]
  {}

  lemma ExtIntro(c: Config, s: State, s': State, use: Id)
    requires Later(c, s, s') && FrameFrom(s, s', use)
    ensures Ext(c, s, s', use)
  {}

  lemma ProductMul(c: Config, s0: State, s: State, v: Id, lhs: Id, rhs: Id, k: nat, use: Id)
    requires ProductPoint(c, s0, s, v, lhs, rhs, k, use) && s.memo[lhs] + s.memo[rhs] <= c.maxDegree
    ensures MulPre(c, s, v, lhs, rhs, k) && lhs in s.ops && rhs in s.ops
  {}

  /** The new product at `k`, the old one still in place. */
  lemma ProductBuilt(c: Config, s0: State, s: State, v: Id, lhs: Id, rhs: Id, k: nat, use: Id)
    requires ProductPoint(c, s0, s, v, lhs, rhs, k, use) && s.memo[lhs] + s.memo[rhs] <= c.maxDegree
    ensures k <= |s.order| && Inv(c, WithMul(s, v, lhs, rhs, k))
    ensures Lowered(c, s0, WithMul(s, v, lhs, rhs, k), v, s.nextId, use)
  {
    ProductMul(c, s0, s, v, lhs, rhs, k, use);
    assert NoDup(s.order) && (forall x :: x in s.order ==> x < s.nextId) && (forall x :: x in s.memo ==> x < s.nextId);
    hide Inv, MulPre, Ext;
    MulStep(c, s, v, lhs, rhs, k);
    MulFrame(s, v, lhs, rhs, k, use);
    WithMulOrder(s, v, lhs, rhs, k);
    ExtIntro(c, s, WithMul(s, v, lhs, rhs, k), use);
    ExtTrans(c, s0, s, WithMul(s, v, lhs, rhs, k), use);
  }

  lemma WithMulUsers(s: State, v: Id, l: Id, r: Id, k: nat)
    requires k <= |s.order| && v in s.tree && l in s.memo && r in s.memo && v != l && v != r && UsersBehind(s, v, k - 1)
    requires forall x :: x in s.ops ==> x in s.order && x < s.nextId
    requires var order' := WithMul(s, v, l, r, k).order;
            && (forall x :: x in s.order ==> x in order' && Pos(order', x) == Pos(s.order, x) + if Pos(s.order, x) < k
              then 0 else 1)
    ensures UsersBehind(WithMul(s, v, l, r, k), v, k)
  {
    hide Insert, Pos;
  }

  lemma BuiltRetire(c: Config, s0: State, s: State, v: Id, lhs: Id, rhs: Id, k: nat, use: Id)
    requires ProductPoint(c, s0, s, v, lhs, rhs, k, use) && s.memo[lhs] + s.memo[rhs] <= c.maxDegree
    ensures k <= |s.order| && RetirePre(c, WithMul(s, v, lhs, rhs, k), v, s.nextId)
  {
    ProductMul(c, s0, s, v, lhs, rhs, k, use);
    MulStep(c, s, v, lhs, rhs, k);
    assert NoDup(s.order) && (forall x :: x in s.ops ==> x < s.nextId && x in s.order) &&
        (forall x :: x in s.order ==> x < s.nextId);
    hide Inv, MulPre, Ext, Insert, NoDup, Clear;
    WithMulOrder(s, v, lhs, rhs, k);
    WithMulUsers(s, v, lhs, rhs, k);
    hide UsersBehind;
  }

  /** Erasing the old product leaves the new one in front of `use`. */
  lemma ProductRetired(c: Config, s0: State, s: State, v: Id, lhs: Id, rhs: Id, k: nat, use: Id)
    requires ProductPoint(c, s0, s, v, lhs, rhs, k, use) && s.memo[lhs] + s.memo[rhs] <= c.maxDegree
    ensures k <= |s.order| && v in WithMul(s, v, lhs, rhs, k).order
    ensures Inv(c, Retired(WithMul(s, v, lhs, rhs, k), v, s.nextId))
    ensures Lowered(c, s0, Retired(WithMul(s, v, lhs, rhs, k), v, s.nextId), v, s.nextId, use)
  {
    ProductBuilt(c, s0, s, v, lhs, rhs, k, use);
    BuiltRetire(c, s0, s, v, lhs, rhs, k, use);
    ProductMul(c, s0, s, v, lhs, rhs, k, use);
    assert NoDup(s.order) && forall x :: x in s.order ==> x < s.nextId;
    WithMulOrder(s, v, lhs, rhs, k);
    var s1 := WithMul(s, v, lhs, rhs, k);
    assert v != s.nextId;
    hide ProductPoint, Insert, Clear, UsersBehind, MulPre;
    RetiredLowered(c, s0, s1, v, s.nextId, use);
  }

  lemma RetiredLowered(c: Config, s0: State, s1: State, v: Id, w: Id, use: Id)
    requires Inv(c, s0) && Lowered(c, s0, s1, v, w, use) && RetirePre(c, s1, v, w) && v != w
    requires Pos(s1.order, v) < Pos(s1.order, use)
    ensures Lowered(c, s0, Retired(s1, v, w), v, w, use)
  {
    RetireStep(c, s1, v, w);
    assert NoDup(s1.order);
    RetireFrame(s1, v, w, use);
    RemovePos(s1.order, Pos(s1.order, v));
    var s2 := Retired(s1, v, w);
    hide Inv, Remove;
    ExtIntro(c, s1, s2, use);
    ExtTrans(c, s0, s1, s2, use);
    StandsLater(c, s1, s2, v, w, use);
  }

  // ---------- the two use-replacing loops, as map updates ----------

  ghost function ReplacedBehind(ops: map<Id, Op>, order: seq<Id>, oldVal: Id, newVal: Id, afterOp: Id): map<Id, Op>
    requires afterOp in order
  {
    map x | x in ops :: if x in order && Pos(order, x) > Pos(order, afterOp) then Subst(ops[x], oldVal, newVal)
      else ops[x]
  }

  ghost function ReplacedAll(ops: map<Id, Op>, oldVal: Id, newVal: Id): map<Id, Op> {
    map x | x in ops :: Subst(ops[x], oldVal, newVal)
  }

  /** The block lists exactly its operations, all older than the next one created. */
  ghost predicate Listed(ops: map<Id, Op>, order: seq<Id>, nextId: Id) {
    NoDup(order) && (forall x :: x in order <==> x in ops) && (forall x :: x in order ==> x < nextId)
  }

  lemma FactorListed(s: State, t: Id, k: nat)
    requires Listed(s.ops, s.order, s.nextId) && k <= |s.order| && t in s.tree
    ensures var a, s1 := s.nextId, Factored(s, t, k, |s.order|);
            && Listed(s1.ops, s1.order, s1.nextId)
            && (forall x :: x in s1.order <==> x in s.order || x == a || x == a + 1)
            && (forall x :: x in s.order ==> Pos(s1.order, x) == Pos(s.order, x) + if Pos(s.order, x) < k then 0 else 2)
            && Pos(s1.order, a) == k && Pos(s1.order, a + 1) == k + 1
  {
    hide Insert, NoDup;
    FactoredOrder(s, t, k, |s.order|);
  }

  /** Naming `t` and then redirecting every use behind the new equality is factoring `t` out. */
  lemma FactorOutOps(s: State, t: Id, k: nat)
    requires Listed(s.ops, s.order, s.nextId) && k <= |s.order| && t in s.tree
    ensures var a, e, s1 := s.nextId, s.nextId + 1, Factored(s, t, k, |s.order|);
            && Listed(s1.ops, s1.order, s1.nextId) && e in s1.order
            && s1.(ops := ReplacedBehind(s1.ops, s1.order, t, a, e)) == Factored(s, t, k, k)
  {
    hide Insert, NoDup;
    var a, s1 := s.nextId, Factored(s, t, k, |s.order|);
    FactorListed(s, t, k);
    assert a !in s.order && a + 1 !in s.order && forall x :: x in s.ops <==> x in s.order;
    assert RedirectedFrom(s.ops, s.order, t, |s.order|, a) == s.ops;
    hide FactoredOps, RedirectedFrom, Listed, ReplacedBehind;
    FactoredSlots(s, t, k, k, a, s.counter);
    FactoredSlots(s, t, k, |s.order|, a, s.counter);
    ReplacedMatches(s.ops, s.order, s1.order, t, k, a, Leaf(Member(Auxiliary(s.counter))), Eq(a, t));
  }

  /** Every use that stands at `from` or later, redirected from `t` to `a`. */
  ghost function RedirectedFrom(ops: map<Id, Op>, order: seq<Id>, t: Id, from: nat, a: Id): map<Id, Op> {
    map x | x in ops :: if x in order && Pos(order, x) >= from then Subst(ops[x], t, a) else ops[x]
  }

  lemma FactoredSlots(s: State, t: Id, k: nat, from: nat, a: Id, counter: nat)
    requires k <= |s.order| && t in s.tree && a == s.nextId && counter == s.counter
    ensures Factored(s, t, k, from).ops ==
        RedirectedFrom(s.ops, s.order, t, from, a)[a := Leaf(Member(Auxiliary(counter)))][a + 1 := Eq(a, t)]
  {
    assert FactoredOps(s, t, k, from) == RedirectedFrom(s.ops, s.order, t, from, a);
  }

  /** Replacing behind a newly inserted pair touches exactly the uses that stood at `k` or later. */
  lemma ReplacedMatches(ops: map<Id, Op>, order: seq<Id>, order': seq<Id>, t: Id, k: nat, a: Id, aOp: Op, eOp: Op)
    requires forall x :: x in ops <==> x in order
    requires a !in order && a + 1 !in order && forall x :: x in order' <==> x in order || x == a || x == a + 1
    requires forall x :: x in order ==> Pos(order', x) == Pos(order, x) + if Pos(order, x) < k then 0 else 2
    requires Pos(order', a) == k && Pos(order', a + 1) == k + 1
    ensures ReplacedBehind(ops[a := aOp][a + 1 := eOp], order', t, a, a + 1) ==
        RedirectedFrom(ops, order, t, k, a)[a := aOp][a + 1 := eOp]
  {}

  lemma RetireOps(s: State, v: Id, w: Id)
    requires v in s.order
    ensures ReplacedAll(s.ops, v, w) - {v} == Retired(s, v, w).ops
  {}

  lemma AllListed(ops: map<Id, Op>, order: seq<Id>, nextId: Id, v: Id, w: Id)
    requires Listed(ops, order, nextId)
    ensures Listed(ReplacedAll(ops, v, w), order, nextId)
  {}

  lemma ProductDegrees(c: Config, s0: State, s: State, v: Id, lhs: Id, rhs: Id, k: nat, use: Id)
    requires ProductPoint(c, s0, s, v, lhs, rhs, k, use)
    ensures lhs in s.memo && rhs in s.memo
    ensures Plus(s.memo[lhs], s.memo[rhs]) == s.memo[lhs] + s.memo[rhs] < UNSIGNED_RANGE
    ensures lhs in s.ops && s.ops[lhs].IsValue() && rhs in s.ops && s.ops[rhs].IsValue() && v in s.order && v in s.tree
    ensures k <= |s.order| && Listed(s.ops, s.order, s.nextId) && lhs in s.tree && rhs in s.tree && c.maxDegree >= 2
    ensures lhs != s.nextId && rhs != s.nextId
  {
    hide Inv, WellFormed, NoDup, Listed, Ext, Later, FrameFrom;
    InvFacts(c, s);
    assert s.tree[v] == EBin(MulK, s.tree[lhs], s.tree[rhs]) && Degree(s.tree[v]) < UNSIGNED_RANGE;
  }

  lemma InvFacts(c: Config, s: State)
    requires Inv(c, s)
    ensures Listed(s.ops, s.order, s.nextId) && c.maxDegree >= 2
    ensures forall x :: x in s.tree ==> Degree(s.tree[x]) < UNSIGNED_RANGE
    ensures forall x :: x in s.memo ==> x in s.tree && s.memo[x] <= Degree(s.tree[x])
    ensures MemoOk(s.ops, s.tree, s.memo) && s.nextId !in s.ops
  {
    hide NoDup, RewritesOk, AuxOk, ChecksOk;
  }

  lemma WithMulListed(s: State, v: Id, l: Id, r: Id, k: nat)
    requires Listed(s.ops, s.order, s.nextId) && k <= |s.order| && v in s.tree && l in s.memo && r in s.memo
    ensures var s' := WithMul(s, v, l, r, k); Listed(s'.ops, s'.order, s'.nextId)
  {
    WithMulOrder(s, v, l, r, k);
    hide Insert;
  }

  lemma SelfLowered(c: Config, s0: State, s1: State, v: Id, use: Id)
    requires Inv(c, s0) && Available(s0, v, use) && Inv(c, s1) && Later(c, s0, s1) && FrameFrom(s0, s1, use)
    requires s1.order == s0.order && s1.ops == s0.ops && v in s1.memo
    requires (s1.memo[v] <= c.maxDegree || (!c.noDiv && !s1.ops[v].IsMul()))
    ensures StandsFor(c, s1, v, v) && Ext(c, s0, s1, use)
  {
    OperandFacts(c, s1, v);
  }

  lemma Roots(c: Config, s: State, v: Id)
    requires Inv(c, s) && v in s.ops && s.ops[v].IsValue() && v in s.memo && s.memo[v] > c.maxDegree
    ensures s.ops[v].Bin? || s.ops[v].Neg?
    ensures s.ops[v].Bin? && s.ops[v].kind == DivK ==> !c.noDiv
  {
    OperandFacts(c, s, v);
    assert MemoNode(s.ops[v], s.memo, s.memo[v]);
  }

  lemma LoweredFrom(c: Config, s0: State, s1: State, s2: State, v: Id, r: Id, use: Id)
    requires Inv(c, s0) && Inv(c, s1) && Later(c, s0, s1) && FrameFrom(s0, s1, use) && v in s0.tree
    requires Lowered(c, s1, s2, v, r, use)
    ensures Lowered(c, s0, s2, v, r, use)
  {
    hide Inv;
    ExtTrans(c, s0, s1, s2, use);
  }

  // ---------- equalities ----------

  /** The memoised degree bounds the degree the value now has. */
  lemma {:induction false} DegreeBound(c: Config, s: State, x: Id)
    requires Inv(c, s) && x in s.ops && s.ops[x].IsValue() && x in s.memo
    ensures OpDegree(s.ops, s.order, x) <= s.memo[x]
    decreases Pos(s.order, x)
  {
    OperandFacts(c, s, x);
    assert MemoNode(s.ops[x], s.memo, s.memo[x]);
    match s.ops[x] {
      case Bin(_, l, r) =>
        assert l in Operands(s.ops[x]) && r in Operands(s.ops[x]);
        hide Inv;
        DegreeBound(c, s, l);
        DegreeBound(c, s, r);
      case Neg(y) =>
        assert y in Operands(s.ops[x]);
        hide Inv;
        DegreeBound(c, s, y);
      case _ =>
    }
  }

  /** Both sides of equality `y` are memoised within the bound. */
  ghost predicate EqLow(c: Config, s: State, y: Id)
    requires y in s.ops
  {
    s.ops[y].Eq? ==>
      s.ops[y].lhs in s.memo && s.ops[y].rhs in s.memo &&
        (c.noDiv ==> s.memo[s.ops[y].lhs] <= c.maxDegree && s.memo[s.ops[y].rhs] <= c.maxDegree)
  }

  lemma GeneratedEqLow(c: Config, s: State, y: Id)
    requires Inv(c, s) && y in s.ops && s.ops[y].Eq? && y !in c.checks
    ensures EqLow(c, s, y)
  {
    assert y in s.eqIds;
    var k :| 0 <= k < |s.eqIds| && s.eqIds[k] == y;
    assert AuxEntryOk(c, s, k);
    assert MemoNode(s.ops[s.aux[k].auxValue], s.memo, s.memo[s.aux[k].auxValue]);
  }

  /** Every source equality in front of position `n` is within the bound. */
  ghost predicate LowUpTo(c: Config, s: State, n: int) {
    forall y :: y in c.checks && y in s.ops && y in s.order && Pos(s.order, y) < n ==> EqLow(c, s, y)
  }

  /** Like Later, but silent on the operands of `x`. */
  ghost predicate LaterExcept(c: Config, s: State, s': State, x: Id) {
    && s.nextId <= s'.nextId
    && (forall y :: y in s.ops ==> y < s.nextId)
    && (forall y :: y in s.ops && y in s'.ops && y != x ==> SlotsKept(s.ops[y], s'.ops[y], s.memo, s'.memo))
    && (forall y :: y in s'.ops && y !in s.ops ==> y >= s.nextId)
  }

  lemma LowUpToLater(c: Config, s: State, s': State, x: Id)
    requires Inv(c, s) && Inv(c, s') && LaterExcept(c, s, s', x) && FrameFrom(s, s', x)
    requires LowUpTo(c, s, Pos(s.order, x))
    requires x in s'.ops && EqLow(c, s', x)
    ensures LowUpTo(c, s', Pos(s'.order, x) + 1)
    ensures |s'.order| - Pos(s'.order, x) == |s.order| - Pos(s.order, x)
  {
    forall y | y in c.checks && y in s'.ops && y in s'.order && Pos(s'.order, y) < Pos(s'.order, x) + 1
      ensures EqLow(c, s', y)
    {
      if y != x { LowStays(c, s, s', x, y); }
    }
    assert |s'.order[Pos(s'.order, x)..]| == |s.order[Pos(s.order, x)..]|;
  }

  /** One equality in front of `x`. */
  lemma LowStays(c: Config, s: State, s': State, x: Id, y: Id)
    requires Inv(c, s) && Inv(c, s') && LaterExcept(c, s, s', x) && FrameFrom(s, s', x)
    requires LowUpTo(c, s, Pos(s.order, x))
    requires x in s'.ops && y != x && y in c.checks && y in s'.ops && y in s'.order
    requires Pos(s'.order, y) < Pos(s'.order, x) + 1
    ensures EqLow(c, s', y)
  {
    assert y in s.ops && !s.ops[y].IsValue() && NoDup(s.order) && NoDup(s'.order) && x in s'.order && y in s.order;
    assert SlotsKept(s.ops[y], s'.ops[y], s.memo, s'.memo);
    hide Inv, NoDup, SlotsKept;
    assert Pos(s'.order, y) != Pos(s'.order, x);
    BehindStays(s, s', x, y);
    SlotsLow(c, s, s', y);
  }

  lemma SlotsLow(c: Config, s: State, s': State, y: Id)
    requires y in s.ops && y in s'.ops && EqLow(c, s, y) && SlotsKept(s.ops[y], s'.ops[y], s.memo, s'.memo)
    ensures EqLow(c, s', y)
  {}

  lemma BehindStays(s: State, s': State, x: Id, y: Id)
    requires NoDup(s.order) && NoDup(s'.order) && FrameFrom(s, s', x) && y in s.order && y in s'.order
    requires Pos(s'.order, y) < Pos(s'.order, x)
    ensures Pos(s.order, y) < Pos(s.order, x)
  {
    var p, p', i := Pos(s.order, x), Pos(s'.order, x), Pos(s.order, y);
    assert forall j ::
        p <= j < |s.order| ==> s.order[j] == s.order[p..][j - p] == s'.order[p'..][j - p] == s'.order[p' + (j - p)];
  }

  /** Replacing one operand of a source constraint by what it was lowered to. */
  lemma SetOperand(c: Config, s: State, x: Id, v: Id, r: Id, op: Op)
    requires Inv(c, s) && x in c.checks && x in s.ops && v in s.tree && StandsFor(c, s, v, r)
    requires r in s.order && x in s.order && Pos(s.order, r) < Pos(s.order, x)
    requires match s.ops[x]
      case Eq(l, y) => (op == Eq(r, y) && s.tree[v] == s.tree[l]) || (op == Eq(l, r) && s.tree[v] == s.tree[y])
      case Use(t, args) => exists j ::
        0 <= j < |args| && op == Use(t, args[j := r]) && args[j] in s.tree && s.tree[v] == s.tree[args[j]]
      case _ => false
    ensures CheckPre(c, s, x, op)
  {
    assert States(s.ops[x], s.tree, c.checks[x]);
    forall y | y in Operands(op) ensures UsesBefore(s.ops, s.order, x, y) {
      if y != r { assert y in Operands(s.ops[x]); }
    }
  }

  lemma OperandAvailable(c: Config, s: State, x: Id, v: Id)
    requires Inv(c, s) && x in s.ops && v in Operands(s.ops[x])
    ensures Available(s, v, x) && v in s.ops && s.ops[v].IsValue() && v in s.tree
  {
    assert UsesBefore(s.ops, s.order, x, v);
    OperandFacts(c, s, v);
  }

  function Side(op: Op, left: bool): Id
    requires op.Eq?
  {
    if left then op.lhs else op.rhs
  }

  function WithSide(op: Op, left: bool, r: Id): Op
    requires op.Eq?
  {
    if left then Eq(r, op.rhs) else Eq(op.lhs, r)
  }

  /** One side of equality `x` is memoised within `bound`. */
  ghost predicate SideWithin(s: State, x: Id, left: bool, bound: nat) {
    x in s.ops && s.ops[x].Eq? && Side(s.ops[x], left) in s.memo && s.memo[Side(s.ops[x], left)] <= bound
  }

  lemma SideThere(s: State, x: Id, left: bool, degree: nat, bound: nat)
    requires SideWithin(s, x, left, degree)
    ensures x in s.ops && s.ops[x].Eq? && Side(s.ops[x], left) in s.memo
    ensures (degree <= bound ==> SideWithin(s, x, left, bound))
  {}

  lemma SideAvailable(c: Config, s: State, x: Id, left: bool)
    requires Inv(c, s) && x in s.ops && s.ops[x].Eq?
    ensures var v := Side(s.ops[x], left); Available(s, v, x) && v in s.ops && s.ops[v].IsValue() && v in s.tree
    ensures x in s.order
  {
    assert Side(s.ops[x], left) in Operands(s.ops[x]);
    OperandAvailable(c, s, x, Side(s.ops[x], left));
  }

  /** A source constraint that is still there states what it stated. */
  lemma CheckKept(c: Config, s: State, s1: State, x: Id)
    requires Inv(c, s) && Inv(c, s1) && Later(c, s, s1) && x in c.checks && x in s.ops
    ensures x in s1.ops && SlotsKept(s.ops[x], s1.ops[x], s.memo, s1.memo)
    ensures States(s.ops[x], s.tree, c.checks[x]) && States(s1.ops[x], s1.tree, c.checks[x])
  {
    hide WellFormed, TreesOk, MemoOk, RewritesOk, AuxOk, States, SlotsKept;
  }

  lemma FrameRefl(s: State, use: Id)
    requires use in s.order
    ensures FrameFrom(s, s, use)
  {}

  lemma FrameOfOps(s: State, s1: State, ops: map<Id, Op>, use: Id)
    requires FrameFrom(s, s1, use)
    ensures FrameFrom(s, s1.(ops := ops), use)
  {}

  /** One side of equality `x` lowered and set: the equality still states its source constraint. */
  lemma SideSet(c: Config, s: State, s1: State, x: Id, left: bool, r: Id)
    requires Inv(c, s) && x in c.checks && x in s.ops && s.ops[x].Eq?
    requires Lowered(c, s, s1, Side(s.ops[x], left), r, x)
    ensures Inv(c, s1) && x in s1.ops && s1.ops[x].Eq?
    ensures var s2 := s1.(ops := s1.ops[x := WithSide(s1.ops[x], left, r)]);
            && Inv(c, s2) && LaterExcept(c, s, s2, x) && FrameFrom(s, s2, x)
            && (c.noDiv ==> SideWithin(s2, x, left, c.maxDegree)) && r in s2.memo
            && SideNoWorse(s, s2, x, !left)
  {
    hide Inv, FrameFrom, Later;
    CheckKept(c, s, s1, x);
    NoDups(c, s);
    TreesKept(c, s, s1, x);
    LaterIsExcept(c, s, s1, x);
    FrameOfOps(s, s1, s1.ops[x := WithSide(s1.ops[x], left, r)], x);
    SetOperand(c, s1, x, Side(s.ops[x], left), r, WithSide(s1.ops[x], left, r));
    CheckStep(c, s1, x, WithSide(s1.ops[x], left, r));
  }

  /** That side of `x` stays memoised, and its degree does not grow. */
  ghost predicate SideNoWorse(s: State, s': State, x: Id, left: bool) {
    x in s.ops && s.ops[x].Eq? && Side(s.ops[x], left) in s.memo ==>
      SideWithin(s', x, left, s.memo[Side(s.ops[x], left)])
  }

  lemma SideMemo(s: State, x: Id, left: bool)
    requires x in s.ops && s.ops[x].Eq? && Side(s.ops[x], left) in s.memo
    ensures SideWithin(s, x, left, s.memo[Side(s.ops[x], left)])
  {}

  lemma SideLater(s: State, s': State, x: Id, left: bool, degree: nat)
    requires SideNoWorse(s, s', x, left) && SideWithin(s, x, left, degree)
    ensures SideWithin(s', x, left, degree)
  {}

  lemma BothSidesLow(c: Config, s: State, s': State, x: Id)
    requires x in s.ops && s.ops[x].Eq? && Side(s.ops[x], true) in s.memo
    requires (c.noDiv ==> SideWithin(s, x, true, c.maxDegree)) && SideNoWorse(s, s', x, true)
    requires x in s'.ops && s'.ops[x].Eq? && Side(s'.ops[x], false) in s'.memo
    requires (c.noDiv ==> SideWithin(s', x, false, c.maxDegree))
    ensures EqLow(c, s', x)
  {}

  /** An edit that leaves everything from equality `x` on where it is. */
  ghost predicate Touched(c: Config, s: State, s': State, x: Id) {
    Inv(c, s') && LaterExcept(c, s, s', x) && FrameFrom(s, s', x)
  }

  lemma TouchedBy(c: Config, s: State, s': State, x: Id)
    requires Inv(c, s) && Inv(c, s') && Later(c, s, s') && FrameFrom(s, s', x) && x in s.ops && s.ops[x].Eq?
    ensures Touched(c, s, s', x) && SideNoWorse(s, s', x, true) && SideNoWorse(s, s', x, false)
  {
    hide Inv, Later, LaterExcept, FrameFrom, NoDup;
    NoDups(c, s);
    LaterIsExcept(c, s, s', x);
    EqStays(c, s, s', x);
  }

  lemma EqStays(c: Config, s: State, s': State, x: Id)
    requires Later(c, s, s') && x in s.ops && s.ops[x].Eq?
    ensures SideNoWorse(s, s', x, true) && SideNoWorse(s, s', x, false)
  {
    assert x in s'.ops && SlotsKept(s.ops[x], s'.ops[x], s.memo, s'.memo);
  }

  lemma TouchedTrans(c: Config, s: State, s1: State, s2: State, x: Id)
    requires Inv(c, s) && Touched(c, s, s1, x) && Touched(c, s1, s2, x)
    ensures Touched(c, s, s2, x)
  {
    hide Inv, LaterExcept, FrameFrom;
    ExceptTrans(c, s, s1, s2, x);
  }

  lemma LaterIsExcept(c: Config, s: State, s': State, x: Id)
    requires Later(c, s, s') && forall y :: y in s.ops ==> y < s.nextId
    ensures LaterExcept(c, s, s', x)
  {}

  lemma ExceptTrans(c: Config, s: State, s1: State, s2: State, x: Id)
    requires Inv(c, s) && Inv(c, s1) && LaterExcept(c, s, s1, x) && LaterExcept(c, s1, s2, x) && FrameFrom(s, s1, x)
    requires FrameFrom(s1, s2, x)
    ensures LaterExcept(c, s, s2, x) && FrameFrom(s, s2, x)
  {
    hide Inv, FrameFrom, SlotsKept;
    NoDups(c, s);
    NoDups(c, s1);
    FrameTrans(s, s1, s2, x);
    forall y | y in s.ops && y in s2.ops && y != x ensures SlotsKept(s.ops[y], s2.ops[y], s.memo, s2.memo) {
      assert y !in s1.ops ==> y >= s1.nextId;
      SlotsTrans(s.ops[y], s1.ops[y], s2.ops[y], s.memo, s1.memo, s2.memo);
    }
  }

  /** From position `n` on there are only source constraints, no generated equality. */
  ghost predicate OnlyChecksFrom(c: Config, s: State, n: int) {
    forall y :: y in s.ops && y in s.order && Pos(s.order, y) >= n && !s.ops[y].IsValue() ==> y in c.checks
  }

  lemma ListedHere(c: Config, s: State, i: nat)
    requires Inv(c, s) && i < |s.order| && OnlyChecksFrom(c, s, i)
    ensures Listed(s.ops, s.order, s.nextId) && s.order[i] in s.ops && Pos(s.order, s.order[i]) == i
    ensures !s.ops[s.order[i]].IsValue() ==> s.order[i] in c.checks
  {
    assert s.order[i] in s.order && NoDup(s.order);
    assert forall x :: x in s.order ==> x in s.ops;
  }

  lemma WalkOver(c: Config, s: State, i: nat)
    requires Inv(c, s) && i < |s.order| && LowUpTo(c, s, i) && OnlyChecksFrom(c, s, i)
    requires s.order[i] in s.ops && !s.ops[s.order[i]].Eq?
    ensures LowUpTo(c, s, i + 1) && OnlyChecksFrom(c, s, i + 1)
  {
    assert NoDup(s.order);
  }

  lemma TouchedFacts(c: Config, s: State, s': State, x: Id)
    requires Inv(c, s) && x in s.order && Touched(c, s, s', x)
    ensures Inv(c, s') && LaterExcept(c, s, s', x) && FrameFrom(s, s', x) && x in s'.order
    ensures Listed(s'.ops, s'.order, s'.nextId)
    ensures (forall y :: y in s.order <==> y in s.ops) && NoDup(s.order) && NoDup(s'.order)
  {
    assert forall y :: y in s'.order ==> y in s'.ops;
  }

  lemma WalkOn(c: Config, s: State, s': State, x: Id)
    requires Inv(c, s) && x in s.order && Touched(c, s, s', x) && x in s'.ops && EqLow(c, s', x)
    requires LowUpTo(c, s, Pos(s.order, x)) && OnlyChecksFrom(c, s, Pos(s.order, x))
    ensures x in s'.order && Listed(s'.ops, s'.order, s'.nextId)
    ensures LowUpTo(c, s', Pos(s'.order, x) + 1) && OnlyChecksFrom(c, s', Pos(s'.order, x) + 1)
    ensures |s'.order| - Pos(s'.order, x) == |s.order| - Pos(s.order, x)
  {
    hide Inv, NoDup, LowUpTo, OnlyChecksFrom, EqLow, LaterExcept;
    TouchedFacts(c, s, s', x);
    LowUpToLater(c, s, s', x);
    ChecksStayBehind(c, s, s', x);
  }

  lemma ChecksStayBehind(c: Config, s: State, s': State, x: Id)
    requires LaterExcept(c, s, s', x) && FrameFrom(s, s', x) && OnlyChecksFrom(c, s, Pos(s.order, x))
    requires NoDup(s.order) && NoDup(s'.order) && forall y :: y in s.order <==> y in s.ops
    ensures OnlyChecksFrom(c, s', Pos(s'.order, x) + 1)
  {
    var p, p' := Pos(s.order, x), Pos(s'.order, x);
    forall y | y in s'.ops && y in s'.order && Pos(s'.order, y) > p' && !s'.ops[y].IsValue() ensures y in c.checks {
      assert s'.order[p'..][Pos(s'.order, y) - p'] == y == s.order[p..][Pos(s'.order, y) - p'] ==
          s.order[p + (Pos(s'.order, y) - p')];
      assert y in s.ops && Pos(s.order, y) == p + (Pos(s'.order, y) - p');
      assert SlotsKept(s.ops[y], s'.ops[y], s.memo, s'.memo);
    }
  }

  lemma AllLow(c: Config, s: State)
    requires Inv(c, s) && LowUpTo(c, s, |s.order|)
    ensures forall x :: x in s.ops && s.ops[x].Eq? ==> EqLow(c, s, x)
  {
    forall x | x in s.ops && s.ops[x].Eq? ensures EqLow(c, s, x) {
      if x in c.checks { assert x in s.order; } else { GeneratedEqLow(c, s, x); }
    }
  }

  /** The degree of both sides of equality `y`, as the block stands, is within `bound`. */
  ghost predicate EqDegreeWithin(ops: map<Id, Op>, order: seq<Id>, y: Id, bound: nat)
    requires WellFormed(ops, order) && y in ops && ops[y].Eq?
  {
    assert UsesBefore(ops, order, y, ops[y].lhs) by { assert ops[y].lhs in Operands(ops[y]); }
    assert UsesBefore(ops, order, y, ops[y].rhs) by { assert ops[y].rhs in Operands(ops[y]); }
    OpDegree(ops, order, ops[y].lhs) <= bound && OpDegree(ops, order, ops[y].rhs) <= bound
  }

  lemma NothingMemoised(ops: map<Id, Op>, tree: map<Id, Expr>, order: seq<Id>)
    requires WellFormed(ops, order)
    ensures MemoOk(ops, tree, map[]) && Exact(ops, order, map[])
  {}

  lemma EqWithinIff(ops: map<Id, Op>, order: seq<Id>, y: Id, lhs: nat, rhs: nat, bound: nat)
    requires WellFormed(ops, order) && y in ops && ops[y].Eq? && ops[y].lhs in ops && ops[ops[y].lhs].IsValue()
    requires ops[y].rhs in ops && ops[ops[y].rhs].IsValue()
    requires lhs == OpDegree(ops, order, ops[y].lhs) && rhs == OpDegree(ops, order, ops[y].rhs)
    ensures EqDegreeWithin(ops, order, y, bound) <==> lhs <= bound && rhs <= bound
  {
    hide WellFormed, OpDegree;
  }

  /** The equalities among the first `n` operations are within `bound`. */
  ghost predicate EqsWithin(ops: map<Id, Op>, order: seq<Id>, n: nat, bound: nat)
    requires WellFormed(ops, order) && n <= |order|
  {
    forall i :: 0 <= i < n && order[i] in ops && ops[order[i]].Eq? ==> EqDegreeWithin(ops, order, order[i], bound)
  }

  lemma EqsWithinAll(ops: map<Id, Op>, order: seq<Id>, bound: nat)
    requires WellFormed(ops, order)
    ensures EqsWithin(ops, order, |order|, bound) <==>
            forall y :: y in ops && ops[y].Eq? ==> EqDegreeWithin(ops, order, y, bound)
  {
    Ordering(ops, order);
    hide WellFormed, EqDegreeWithin, NoDup;
    if EqsWithin(ops, order, |order|, bound) {
      forall y | y in ops && ops[y].Eq? ensures EqDegreeWithin(ops, order, y, bound) {
        assert order[Pos(order, y)] == y;
      }
    }
  }

  /** Without felt divisions the final check cannot fire: every equality, original or generated, is within the bound. */
  lemma LowWithin(c: Config, s: State, y: Id)
    requires Inv(c, s) && AllEqLow(c, s) && c.noDiv && y in s.ops && s.ops[y].Eq?
    ensures EqDegreeWithin(s.ops, s.order, y, c.maxDegree)
  {
    assert EqLow(c, s, y);
    SideAvailable(c, s, y, true);
    SideAvailable(c, s, y, false);
    DegreeBound(c, s, s.ops[y].lhs);
    DegreeBound(c, s, s.ops[y].rhs);
  }

  ghost predicate AllEqLow(c: Config, s: State) {
    forall y :: y in s.ops && s.ops[y].Eq? ==> EqLow(c, s, y)
  }

  /** Lowering for some other consumer spoils no equality. */
  lemma EqsStay(c: Config, s: State, s': State)
    requires Inv(c, s) && Inv(c, s') && Later(c, s, s') && AllEqLow(c, s)
    ensures AllEqLow(c, s')
  {
    forall y | y in s'.ops && s'.ops[y].Eq? ensures EqLow(c, s', y) {
      if y in s.ops { EqLowLater(c, s, s', y); } else { GeneratedLater(c, s, s', y); }
    }
  }

  lemma EqLowLater(c: Config, s: State, s': State, y: Id)
    requires y in s.ops && y in s'.ops && s'.ops[y].Eq? && SlotsKept(s.ops[y], s'.ops[y], s.memo, s'.memo)
    requires EqLow(c, s, y)
    ensures EqLow(c, s', y)
  {}

  lemma GeneratedLater(c: Config, s: State, s': State, y: Id)
    requires Inv(c, s) && Inv(c, s') && y in s'.ops && y !in s.ops && s'.ops[y].Eq?
    ensures EqLow(c, s', y)
  {
    hide WellFormed, TreesOk, MemoOk, RewritesOk, AuxOk, EqLow;
    GeneratedEqLow(c, s', y);
  }

  /** Operand `j` of consumer `x`, by its source constraint. */
  ghost predicate IsRow(c: Config, x: Id, j: nat) {
    x in c.checks && c.checks[x].UseCheck? && j < |c.checks[x].args|
  }

  ghost predicate RowLow(c: Config, s: State, x: Id, j: nat) {
    x in s.ops && s.ops[x].Use? && j < |s.ops[x].args| && s.ops[x].args[j] in s.memo &&
      (c.noDiv ==> s.memo[s.ops[x].args[j]] <= c.maxDegree)
  }

  lemma RowOperand(c: Config, s: State, x: Id, j: nat)
    requires Inv(c, s) && IsRow(c, x, j)
    ensures x in s.ops && s.ops[x].Use? && j < |s.ops[x].args|
    ensures var v := s.ops[x].args[j]; Available(s, v, x) && v in s.ops && s.ops[v].IsValue() && v in s.tree
  {
    assert States(s.ops[x], s.tree, c.checks[x]);
    assert s.ops[x].args[j] in Operands(s.ops[x]);
    OperandAvailable(c, s, x, s.ops[x].args[j]);
  }

  lemma RowIsLow(c: Config, s: State, x: Id, j: nat)
    requires x in s.ops && s.ops[x].Use? && j < |s.ops[x].args| && s.ops[x].args[j] in s.memo
    requires s.memo[s.ops[x].args[j]] <= c.maxDegree
    ensures RowLow(c, s, x, j)
  {}

  lemma InvLaterTrans(c: Config, s: State, s1: State, s2: State)
    requires Inv(c, s) && Later(c, s, s1) && Later(c, s1, s2)
    ensures Later(c, s, s2)
  {
    assert forall x :: x in s.ops ==> x < s.nextId;
    hide Inv;
    LaterTrans(c, s, s1, s2);
  }

  lemma RowLowLater(c: Config, s: State, s': State, x: Id, j: nat)
    requires Inv(c, s) && Inv(c, s') && Later(c, s, s') && IsRow(c, x, j) && RowLow(c, s, x, j)
    ensures RowLow(c, s', x, j)
  {
    hide Inv, IsRow;
    RowOperand(c, s', x, j);
    assert SlotsKept(s.ops[x], s'.ops[x], s.memo, s'.memo);
  }

  lemma RowSet(c: Config, s: State, s1: State, x: Id, j: nat, r: Id)
    requires Inv(c, s) && IsRow(c, x, j) && x in s.ops && s.ops[x].Use? && j < |s.ops[x].args|
    requires s.ops[x].args[j] in s.memo && s.memo[s.ops[x].args[j]] > c.maxDegree
    requires Lowered(c, s, s1, s.ops[x].args[j], r, x)
    ensures Inv(c, s1) && x in s1.ops && s1.ops[x].Use? && j < |s1.ops[x].args|
    ensures var s2 := s1.(ops := s1.ops[x := s1.ops[x].(args := s1.ops[x].args[j := r])]);
            Inv(c, s2) && Later(c, s, s2) && RowLow(c, s2, x, j)
  {
    hide Inv, WellFormed, NoDup, FrameFrom;
    CheckKept(c, s, s1, x);
    NoDups(c, s);
    var op := s1.ops[x].(args := s1.ops[x].args[j := r]);
    SetOperand(c, s1, x, s.ops[x].args[j], r, op);
    CheckStep(c, s1, x, op);
  }

  /** In front of a source consumer there is room for a generated read and its equality. */
  lemma CallReady(c: Config, s: State, callOp: Id, t: Id)
    requires Inv(c, s) && callOp in c.checks && callOp in s.order && t in s.order
    requires Pos(s.order, t) < Pos(s.order, callOp)
    requires t in s.ops && s.ops[t].IsValue() && Kept(c, s, t) && s.memo[t] >= 2
    requires (c.noDiv ==> s.memo[t] <= c.maxDegree)
    ensures FactorPre(c, s, t, Pos(s.order, callOp)) && Placed(s, t, Pos(s.order, callOp))
  {
    forall j | 0 <= j < |s.aux| && s.aux[j].auxValue in s.order
      ensures Pos(s.order, s.aux[j].auxValue) + 1 != Pos(s.order, callOp)
    {
      assert AuxEntryOk(c, s, j);
      assert s.order[Pos(s.order, s.eqIds[j])] == s.eqIds[j];
    }
    PlacedHolds(c, s, t, Pos(s.order, callOp));
  }

  lemma LoweredFacts(c: Config, s0: State, s: State, v: Id, r: Id, use: Id)
    requires Lowered(c, s0, s, v, r, use)
    ensures Inv(c, s) && WellFormed(s.ops, s.order) && r in s.ops && s.ops[r].IsValue() && r in s.tree && r in s.memo
    ensures Listed(s.ops, s.order, s.nextId) && use in s.order && OpDegree(s.ops, s.order, r) <= s.memo[r]
  {
    assert forall x :: x in s.order ==> x in s.ops;
    DegreeBound(c, s, r);
  }

  lemma LeafOpDegree(ops: map<Id, Op>, order: seq<Id>, x: Id)
    requires WellFormed(ops, order) && x in ops && ops[x].Leaf?
    ensures OpDegree(ops, order, x) == 1
  {}

  lemma LoweredKept(c: Config, s0: State, s: State, v: Id, t: Id, use: Id)
    requires Lowered(c, s0, s, v, t, use)
    ensures t in s.ops && s.ops[t].IsValue() && Kept(c, s, t) && t in s.tree && v in s.tree && s.tree[t] == s.tree[v]
    ensures (c.noDiv ==> s.memo[t] <= c.maxDegree)
  {
    hide Inv, Later, FrameFrom;
  }

  /** The generated read stands for whatever the factored value stands for. */
  lemma NamedStands(c: Config, s: State, v: Id, t: Id, k: nat)
    requires k <= |s.order| && t in s.tree && v in s.tree && s.tree[v] == s.tree[t] && c.maxDegree >= 2
    requires var s1 := Factored(s, t, k, |s.order|); StandsFor(c, s1, t, s.nextId) && Later(c, s, s1)
    ensures var s1 := Factored(s, t, k, |s.order|);
        StandsFor(c, s1, v, s.nextId) && s.nextId in s1.ops && s1.ops[s.nextId].Leaf?
  {
    hide FactoredOps, SlotsKept;
  }

  lemma RewritesOnly(c: Config, s: State, rewrites: map<Id, Id>, v: Id, r: Id, use: Id)
    requires use in s.order && StandsFor(c, s, v, r)
    ensures FrameFrom(s, s.(rewrites := rewrites), use) && StandsFor(c, s.(rewrites := rewrites), v, r)
  {}

  lemma FactoredPlace(c: Config, s: State, t: Id, k: nat, use: Id)
    requires FactorPre(c, s, t, k) && t in s.tree && use in s.order && Pos(s.order, use) >= k
    ensures var s1 := Factored(s, t, k, |s.order|);
        s.nextId in s1.order && use in s1.order && Pos(s1.order, s.nextId) < Pos(s1.order, use)
  {
    hide Inv, FactoredOps;
    NoDups(c, s);
    FactoredOrder(s, t, k, |s.order|);
  }

  /** A call argument named by a generated member stands for the argument it replaces. */
  lemma CallNamed(c: Config, s0: State, s: State, v: Id, t: Id, callOp: Id)
    requires Inv(c, s0) && Lowered(c, s0, s, v, t, callOp) && callOp in c.checks && t in s.memo && s.memo[t] >= 2
    ensures t in s.tree && FactorPre(c, s, t, Pos(s.order, callOp))
    ensures var k := Pos(s.order, callOp);
            var s1 := Factored(s, t, k, |s.order|);
            var s2 := s1.(rewrites := s1.rewrites[v := s.nextId]);
            && Inv(c, s2) && Lowered(c, s0, s2, v, s.nextId, callOp) && s.nextId in s2.ops && s2.ops[s.nextId].Leaf?
  {
    hide Inv, Later, FrameFrom, FactorPre, Placed, Factored;
    var k := Pos(s.order, callOp);
    LoweredKept(c, s0, s, v, t, callOp);
    CallReady(c, s, callOp, t);
    var s1 := Factored(s, t, k, |s.order|);
    FactorStep(c, s, t, k, |s.order|);
    FactorFrame(c, s, t, k, |s.order|, callOp);
    FactorClear(c, s, t, k, |s.order|);
    NoDups(c, s);
    NamedStands(c, s, v, t, k);
    ExtIntro(c, s, s1, callOp);
    ExtTrans(c, s0, s, s1, callOp);
    RewriteSet(c, s1, v, s.nextId);
    var s2 := s1.(rewrites := s1.rewrites[v := s.nextId]);
    FactoredPlace(c, s, t, k, callOp);
    RewritesOnly(c, s1, s1.rewrites[v := s.nextId], v, s.nextId, callOp);
    ExtIntro(c, s1, s2, callOp);
    ExtTrans(c, s0, s1, s2, callOp);
  }
}
