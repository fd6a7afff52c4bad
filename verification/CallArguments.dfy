/** The arguments of constrain calls, in a body without felt divisions: when a captured operand can be gone at its
    turn, and when arguments that are linear stay so. */
module CallArguments {
  import opened Ir
  import opened LoweringState
  import opened LoweringSteps
  import opened PolyLowering
  import opened LoweringFunction
  import opened LoweringEffects
  import opened ConsumerLowering

  /** In the source, argument `j` of call `x` is a nonlinear product over the bound, and argument `i` is that very
      value or made of it. */
  ghost predicate StaleAt(c: Config, x: Id, i: nat, j: nat) {
    && IsRow(c, x, i) && IsRow(c, x, j) && x in c.source && i < |Operands(c.source[x])| && j < |Operands(c.source[x])|
    && NonlinearProduct(c.checks[x].args[j]) && Ir.Degree(c.checks[x].args[j]) > c.maxDegree
    && Reaches(c.source, Operands(c.source[x])[i], Operands(c.source[x])[j])
  }

  /** The guard of the operand that is gone at its turn: a later argument is part of an earlier one. */
  ghost predicate StalePair(c: Config, x: Id) {
    exists i: nat, j: nat :: i < j && StaleAt(c, x, i, j)
  }

  /** Lowering argument `j` of `x` may change in place what argument `i` of `z` is made of. */
  ghost predicate Clash(c: Config, z: Id, i: nat, x: Id, j: nat) {
    IsRow(c, z, i) && IsRow(c, x, j) && Exposed(c, c.checks[z].args[i], c.checks[x].args[j])
  }

  ghost predicate SelfClash(c: Config, x: Id) {
    exists i: nat, j: nat :: i < j && Clash(c, x, i, x, j)
  }

  // ---------- the turns of one call ----------

  /** Arguments of other consumers that nothing lowered so far is exposed to stay linear. */
  ghost predicate OthersStay(c: Config, s0: State, s: State, x: Id, n: int) {
    forall z, i: nat :: ArgLow(c, s0, z, i) && (forall j: nat :: j < n ==> !Clash(c, z, i, x, j)) ==> ArgLow(c, s, z, i)
  }

  /** Within the bound, or the operand the source gives `x`. */
  ghost predicate SourceOrBound(c: Config, s: State, x: Id, v: Id, i: nat) {
    (v in s.memo && s.memo[v] <= c.maxDegree) ||
      (x in c.source && i < |Operands(c.source[x])| && Operands(c.source[x])[i] == v)
  }

  /** Captured operand `i` of call `x` when it is the turn of operand `n`. */
  ghost predicate OperandState(c: Config, s0: State, s: State, x: Id, v: Id, i: nat, n: int)
    requires IsRow(c, x, i)
  {
    if i < n then
      && v in s.ops && s.ops[v].IsValue() && (NonlinearProduct(c.checks[x].args[i]) ==> s.ops[v].Leaf?)
      && SourceOrBound(c, s, x, v, i) && (!SelfClash(c, x) ==> Low(s, v))
    else
      && x in s0.ops && s0.ops[x].Use? && i < |s0.ops[x].args| && v == s0.ops[x].args[i]
      && (v !in s.ops ==> exists k: nat :: k < i && StaleAt(c, x, k, i))
  }

  ghost predicate CallRun(c: Config, s0: State, s: State, x: Id, vals: seq<Id>, n: int) {
    c.noDiv && Tame(c, s0) ==>
      && Tame(c, s) && OthersStay(c, s0, s, x, n)
      && forall i: nat :: i < |vals| && IsRow(c, x, i) ==> OperandState(c, s0, s, x, vals[i], i, n)
  }

  lemma CallRunStart(c: Config, s: State, x: Id)
    requires Inv(c, s) && x in c.checks && c.checks[x].UseCheck?
    ensures x in s.ops && s.ops[x].Use? && CallRun(c, s, s, x, s.ops[x].args, 0)
  {
    CaptureStart(c, s, x);
  }

  /** An operand the source gives the call, if lowering it or something before it can erase anything. */
  lemma SourceOperand(c: Config, s0: State, x: Id, i: nat)
    requires Inv(c, s0) && Tame(c, s0) && IsRow(c, x, i)
    ensures x in s0.ops && s0.ops[x].Use? && i < |s0.ops[x].args|
    ensures SourceOrBound(c, s0, x, s0.ops[x].args[i], i)
  {
    RowOperand(c, s0, x, i);
    assert SlotTame(c, s0, x, i);
  }

  lemma CapturedTree(c: Config, s: State, x: Id, vals: seq<Id>, i: nat)
    requires x in c.checks && c.checks[x].UseCheck? && Captured(c, s, x, c.checks[x].args, vals) && i < |vals|
    ensures IsRow(c, x, i) && vals[i] in s.tree && s.tree[vals[i]] == c.checks[x].args[i]
    ensures (vals[i] in s.ops ==> s.ops[vals[i]].IsValue())
  {
    assert CapturedAt(s, x, c.checks[x].args[i], vals[i]);
  }

  /** The turn of an operand that is linear already. */
  lemma TurnLow(c: Config, s0: State, s: State, x: Id, vals: seq<Id>, j: nat)
    requires Inv(c, s0) && Ext(c, s0, s, x) && Inv(c, s) && CallRun(c, s0, s, x, vals, j) && x in c.checks
    requires c.checks[x].UseCheck?
    requires Captured(c, s, x, c.checks[x].args, vals) && j < |vals| && Low(s, vals[j])
    ensures CallRun(c, s0, s, x, vals, j + 1)
  {
    hide Inv, NonlinearProduct, Captured, Tame, FrameFrom, SlotsKept, Exposed, Ext, OperandState, OthersStay;
    if c.noDiv && Tame(c, s0) {
      OthersGrow(c, s0, s, x, j);
      forall i: nat | i < |vals| && IsRow(c, x, i) ensures OperandState(c, s0, s, x, vals[i], i, j + 1) {
        assert OperandState(c, s0, s, x, vals[i], i, j);
        LowTurn(c, s0, s, x, vals, j, i);
      }
    }
  }

  lemma OthersGrow(c: Config, s0: State, s: State, x: Id, j: int)
    requires OthersStay(c, s0, s, x, j)
    ensures OthersStay(c, s0, s, x, j + 1)
  {
    hide ArgLow, Clash;
    forall z, i: nat | ArgLow(c, s0, z, i) && (forall k: nat :: k < j + 1 ==> !Clash(c, z, i, x, k))
      ensures ArgLow(c, s, z, i)
    {
      assert forall k: nat :: k < j ==> !Clash(c, z, i, x, k);
    }
  }

  lemma LowTurn(c: Config, s0: State, s: State, x: Id, vals: seq<Id>, j: nat, i: nat)
    requires Inv(c, s0) && Tame(c, s0) && Ext(c, s0, s, x) && Inv(c, s) && x in c.checks && c.checks[x].UseCheck?
    requires Captured(c, s, x, c.checks[x].args, vals) && j < |vals| && Low(s, vals[j]) && i < |vals| && IsRow(c, x, i)
    requires OperandState(c, s0, s, x, vals[i], i, j)
    ensures OperandState(c, s0, s, x, vals[i], i, j + 1)
  {
    hide Inv, NonlinearProduct, Captured, Tame, Ext, Exposed, SourceOrBound, SelfClash, Low, StaleAt;
    if i == j {
      CapturedTree(c, s, x, vals, j);
      SourceOperand(c, s0, x, j);
      BoundStays(c, s0, s, x, vals[j], j);
      if NonlinearProduct(c.checks[x].args[j]) { LowLeaf(c, s, vals[j]); }
      LowThere(s, vals[j]);
    }
  }

  lemma BoundStays(c: Config, s0: State, s: State, x: Id, v: Id, i: nat)
    requires SourceOrBound(c, s0, x, v, i) && Ext(c, s0, s, x)
    ensures SourceOrBound(c, s, x, v, i)
  {}

  lemma LowThere(s: State, v: Id)
    requires Low(s, v)
    ensures v in s.ops && s.ops[v].IsValue()
  {}

  /** A read stays what it is. */
  lemma LeafStays(c: Config, s: State, s': State, v: Id)
    requires Later(c, s, s') && v in s.ops && s.ops[v].IsValue()
    ensures s.ops[v].Leaf? ==> v in s'.ops && s'.ops[v] == s.ops[v]
    ensures v in s'.ops ==> s'.ops[v].IsValue()
  {
    if v in s'.ops { assert SlotsKept(s.ops[v], s'.ops[v], s.memo, s'.memo); }
  }

  /** What becomes of operand `i` in the turn of operand `j`. */
  lemma OperandTurn(c: Config, s0: State, s: State, s': State, x: Id, vals: seq<Id>, j: nat, r: Id, i: nat)
    requires Inv(c, s0) && c.noDiv && Tame(c, s0) && Ext(c, s0, s, x) && Inv(c, s) && CallRun(c, s0, s, x, vals, j)
    requires x in c.checks && c.checks[x].UseCheck? && Captured(c, s, x, c.checks[x].args, vals)
    requires j < |vals| && i < |vals| && vals[j] in s.ops
    requires Lowered(c, s, s', vals[j], r, x) && Gentle(c, s, s', vals[j]) && Low(s', r)
    ensures IsRow(c, x, i) && OperandState(c, s0, s', x, vals[j := r][i], i, j + 1)
  {
    CapturedTree(c, s, x, vals, i);
    CapturedTree(c, s, x, vals, j);
    SourceOperand(c, s0, x, i);
    SourceOperand(c, s0, x, j);
    SourceThere(c, s0, x, i);
    SourceThere(c, s0, x, j);
    assert OperandState(c, s0, s, x, vals[i], i, j) && OperandState(c, s0, s, x, vals[j], j, j) && Tame(c, s);
    hide Inv, Tame, CallRun, Captured, NonlinearProduct, Exposed, StaysLow, FrameFrom, Low;
    if i == j {
      LoweredTree(c, s, s', vals[j], r, x);
      LoweredBound(c, s, s', vals[j], r, x);
      if NonlinearProduct(c.checks[x].args[j]) { LowLeaf(c, s', r); }
    } else if i < j {
      OperandKept(c, s, s', x, vals[i], i, vals[j], j);
    } else {
      OperandGone(c, s0, s, s', x, vals, j, i);
    }
  }

  lemma LowLeaf(c: Config, s: State, x: Id)
    requires Inv(c, s) && Low(s, x) && x in s.tree && NonlinearProduct(s.tree[x])
    ensures s.ops[x].Leaf?
  {
    NonlinearLeaf(c, s, x);
  }

  lemma SourceThere(c: Config, s: State, x: Id, i: nat)
    requires Inv(c, s) && IsRow(c, x, i)
    ensures x in s.ops && s.ops[x].Use? && i < |s.ops[x].args|
    ensures var v := s.ops[x].args[i]; v in s.ops && v in s.tree && v < s.nextId
  {
    RowOperand(c, s, x, i);
    NoDups(c, s);
  }

  lemma LoweredTree(c: Config, s: State, s': State, v: Id, r: Id, use: Id)
    requires Lowered(c, s, s', v, r, use) && v in s.tree
    ensures Inv(c, s') && r in s'.tree && s'.tree[r] == s.tree[v] && r in s'.ops && s'.ops[r].IsValue()
  {
    hide Inv, FrameFrom;
  }

  /** An operand that had its turn is there to stay. */
  lemma OperandKept(c: Config, s: State, s': State, x: Id, v: Id, i: nat, w: Id, j: nat)
    requires c.noDiv && Tame(c, s) && Gentle(c, s, s', w) && Later(c, s, s') && i < j && IsRow(c, x, i)
    requires IsRow(c, x, j)
    requires v in s.ops && s.ops[v].IsValue() && v in s.tree && s.tree[v] == c.checks[x].args[i]
    requires w in s.tree && s.tree[w] == c.checks[x].args[j]
    requires NonlinearProduct(c.checks[x].args[i]) ==> s.ops[v].Leaf?
    requires !SelfClash(c, x) ==> Low(s, v)
    requires SourceOrBound(c, s, x, v, i)
    ensures SourceOrBound(c, s', x, v, i)
    ensures v in s'.ops && s'.ops[v].IsValue() && (NonlinearProduct(c.checks[x].args[i]) ==> s'.ops[v].Leaf?)
    ensures !SelfClash(c, x) ==> Low(s', v)
  {
    hide Tame, NonlinearProduct, Exposed, Reaches, Low;
    LeafStays(c, s, s', v);
    assert MemoFalls(s, s');
    hide Later;
    assert !SelfClash(c, x) ==> !Clash(c, x, i, x, j);
  }

  /** An operand that is gone before its turn is part of the one just lowered. */
  lemma OperandGone(c: Config, s0: State, s: State, s': State, x: Id, vals: seq<Id>, j: nat, i: nat)
    requires c.noDiv && Tame(c, s0) && Tame(c, s) && Later(c, s0, s) && Later(c, s, s') && j < i < |vals|
    requires Gentle(c, s, s', vals[j])
    requires IsRow(c, x, i) && IsRow(c, x, j) && OperandState(c, s0, s, x, vals[i], i, j)
    requires OperandState(c, s0, s, x, vals[j], j, j)
    requires vals[i] in s.tree && s.tree[vals[i]] == c.checks[x].args[i] && vals[j] in s.tree
    requires SourceOrBound(c, s0, x, vals[i], i) && SourceOrBound(c, s0, x, vals[j], j)
    requires vals[i] < s0.nextId && vals[i] in s0.ops && vals[i] in s0.tree && vals[j] in s0.ops
    ensures OperandState(c, s0, s', x, vals[i], i, j + 1)
  {
    hide Tame, NonlinearProduct, Exposed, Reaches, Low, SlotsKept, StaysLow;
    var v := vals[i];
    if v in s.ops && v !in s'.ops {
      assert Erased(c, s, vals[j], v);
      assert !(v in s0.memo && s0.memo[v] <= c.maxDegree);
      assert !(vals[j] in s0.memo && s0.memo[vals[j]] <= c.maxDegree);
      assert StaleAt(c, x, j, i);
    } else if v !in s'.ops {
      assert v !in s.ops;
    }
  }

  /** The turn of an operand that is lowered, and named if need be. */
  lemma TurnLowered(c: Config, s0: State, s: State, s': State, x: Id, vals: seq<Id>, j: nat, r: Id)
    requires Inv(c, s0) && Ext(c, s0, s, x) && Inv(c, s) && CallRun(c, s0, s, x, vals, j)
    requires x in c.checks && c.checks[x].UseCheck? && Captured(c, s, x, c.checks[x].args, vals) && j < |vals|
    requires vals[j] in s.ops
    requires Lowered(c, s, s', vals[j], r, x) && Gentle(c, s, s', vals[j]) && Low(s', r)
    ensures CallRun(c, s0, s', x, vals[j := r], j + 1)
  {
    CapturedTree(c, s, x, vals, j);
    hide Inv, Tame, Captured, Lowered, Ext, Low, OperandState, OthersStay, StaysLow;
    if c.noDiv && Tame(c, s0) {
      assert StaysLow(c, s, s', c.checks[x].args[j]) && Tame(c, s');
      OthersNext(c, s0, s, s', x, j);
      forall i: nat | i < |vals| && IsRow(c, x, i) ensures OperandState(c, s0, s', x, vals[j := r][i], i, j + 1) {
        hide CallRun, Gentle;
        OperandTurn(c, s0, s, s', x, vals, j, r, i);
      }
    }
  }

  lemma OthersNext(c: Config, s0: State, s: State, s': State, x: Id, j: nat)
    requires OthersStay(c, s0, s, x, j) && IsRow(c, x, j) && StaysLow(c, s, s', c.checks[x].args[j])
    ensures OthersStay(c, s0, s', x, j + 1)
  {
    hide ArgLow, Exposed, Low;
    forall z, i: nat | ArgLow(c, s0, z, i) && (forall k: nat :: k < j + 1 ==> !Clash(c, z, i, x, k))
      ensures ArgLow(c, s', z, i)
    {
      assert ArgLow(c, s, z, i) && !Clash(c, z, i, x, j);
      ArgIsRow(c, s, z, i);
    }
  }

  lemma ArgIsRow(c: Config, s: State, x: Id, j: nat)
    requires ArgLow(c, s, x, j)
    ensures IsRow(c, x, j)
  {}

  /** An operand that is gone while the turns are taken was part of an earlier one in the source. */
  lemma StaleGet(c: Config, s0: State, s: State, x: Id, vals: seq<Id>, n: nat, i: nat)
    requires CallRun(c, s0, s, x, vals, n) && c.noDiv && Tame(c, s0) && i < |vals| && vals[i] !in s.ops
    requires IsRow(c, x, i)
    ensures StalePair(c, x)
  {
    hide Tame, OthersStay;
    assert OperandState(c, s0, s, x, vals[i], i, n);
  }

  // ---------- one call as a whole ----------

  /** What lowering call `x` leaves linear. */
  ghost predicate CallKeeps(c: Config, s: State, s': State, x: Id) {
    c.noDiv && Tame(c, s) ==>
      && Tame(c, s')
      && (forall z, i: nat ::
        z != x && ArgLow(c, s, z, i) && (forall j: nat :: !Clash(c, z, i, x, j)) ==> ArgLow(c, s', z, i))
      && (!SelfClash(c, x) ==> forall i: nat :: IsRow(c, x, i) ==> ArgLow(c, s', x, i))
  }

  /** Replacing a consumer changes no degree. */
  lemma {:induction false} DegreeSame(s: State, s': State, x: Id, y: Id)
    requires WellFormed(s.ops, s.order) && WellFormed(s'.ops, s'.order) && s'.order == s.order && y in s.ops
    requires s.ops[y].IsValue()
    requires forall z :: z in s.ops && z != x ==> z in s'.ops && s'.ops[z] == s.ops[z]
    requires x in s.ops && !s.ops[x].IsValue()
    ensures y in s'.ops && s'.ops[y].IsValue() && OpDegree(s'.ops, s'.order, y) == OpDegree(s.ops, s.order, y)
    decreases Pos(s.order, y)
  {
    match s.ops[y] {
      case Bin(_, l, r) =>
        assert UsesBefore(s.ops, s.order, y, l) && UsesBefore(s.ops, s.order, y, r);
        hide WellFormed;
        DegreeSame(s, s', x, l);
        DegreeSame(s, s', x, r);
      case Neg(z) =>
        assert UsesBefore(s.ops, s.order, y, z);
        hide WellFormed;
        DegreeSame(s, s', x, z);
      case _ =>
    }
  }

  lemma TameUse(c: Config, s: State, x: Id, vals: seq<Id>)
    requires Tame(c, s) && x in s.ops && s.ops[x].Use?
    requires forall i: nat :: i < |vals| ==> SourceOrBound(c, s, x, vals[i], i)
    ensures Tame(c, s.(ops := s.ops[x := s.ops[x].(args := vals)]))
  {
    var s' := s.(ops := s.ops[x := s.ops[x].(args := vals)]);
    forall y, i: nat | y in s'.ops && i < |Operands(s'.ops[y])| ensures SlotTame(c, s', y, i) {
      if y == x { assert SourceOrBound(c, s, x, vals[i], i); } else { assert SlotTame(c, s, y, i); }
    }
  }

  /** The rebuilt call. */
  lemma CallRebuilt(c: Config, s0: State, s: State, x: Id, vals: seq<Id>)
    requires Inv(c, s) && CallRun(c, s0, s, x, vals, |vals|) && x in c.checks && c.checks[x].UseCheck?
    requires |vals| == |c.checks[x].args|
    requires x in s.ops && s.ops[x].Use? && Inv(c, s.(ops := s.ops[x := s.ops[x].(args := vals)]))
    ensures CallKeeps(c, s0, s.(ops := s.ops[x := s.ops[x].(args := vals)]), x)
  {
    var s' := s.(ops := s.ops[x := s.ops[x].(args := vals)]);
    assert WellFormed(s.ops, s.order) && WellFormed(s'.ops, s'.order);
    hide Inv, Tame, Exposed, WellFormed;
    if c.noDiv && Tame(c, s0) {
      forall i: nat | i < |vals| ensures SourceOrBound(c, s, x, vals[i], i) {
        assert IsRow(c, x, i) && OperandState(c, s0, s, x, vals[i], i, |vals|);
      }
      TameUse(c, s, x, vals);
      forall y | Low(s, y) ensures Low(s', y) { DegreeSame(s, s', x, y); }
      hide Low;
      forall z, i: nat | z != x && ArgLow(c, s0, z, i) && (forall j: nat :: !Clash(c, z, i, x, j))
        ensures ArgLow(c, s', z, i)
      {
        assert ArgLow(c, s, z, i);
      }
      forall i: nat | !SelfClash(c, x) && IsRow(c, x, i) ensures ArgLow(c, s', x, i) {
        assert OperandState(c, s0, s, x, vals[i], i, |vals|);
      }
    }
  }

  // ---------- all calls ----------

  /** Two arguments of constrain calls of which lowering the one may raise the other. */
  ghost predicate ArgumentsClash(c: Config, calls: set<nat>) {
    exists z, i: nat, x, j: nat ::
      IsConsumer(c, z, calls, true) && IsConsumer(c, x, calls, true) && (z != x || i < j) && Clash(c, z, i, x, j)
  }

  /** Every argument of call `x` is linear. */
  ghost predicate CallLow(c: Config, s: State, x: Id) {
    forall i: nat :: IsRow(c, x, i) ==> ArgLow(c, s, x, i)
  }

  ghost predicate CallsLow(c: Config, s: State, calls: set<nat>, xs: seq<Id>) {
    c.noDiv && Tame(c, s) && !ArgumentsClash(c, calls) ==> forall x :: x in xs ==> CallLow(c, s, x)
  }

  lemma CallsNext(c: Config, s: State, s': State, calls: set<nat>, xs: seq<Id>, x: Id)
    requires CallKeeps(c, s, s', x) && CallsLow(c, s, calls, xs) && x !in xs && IsConsumer(c, x, calls, true)
    requires c.noDiv ==> Tame(c, s)
    requires forall z :: z in xs ==> IsConsumer(c, z, calls, true)
    ensures (c.noDiv ==> Tame(c, s')) && CallsLow(c, s', calls, xs + [x])
  {
    hide Tame, IsConsumer, Clash;
    if c.noDiv && !ArgumentsClash(c, calls) {
      forall z | z in xs + [x] ensures CallLow(c, s', z) {}
    }
  }

  /** An argument of degree at most 1 passes the check. */
  lemma LowWithinOne(c: Config, s: State, x: Id, j: nat)
    requires Inv(c, s) && ArgLow(c, s, x, j)
    ensures OperandWithin(s.ops, s.order, x, j, 1)
  {}

  // ---------- small facts, by name ----------

  lemma GentleNamed(c: Config, s0: State, s: State, v: Id, t: Id, callOp: Id)
    requires Inv(c, s0) && Lowered(c, s0, s, v, t, callOp) && Gentle(c, s0, s, v) && callOp in c.checks && t in s.memo
    requires s.memo[t] >= 2
    ensures t in s.tree && FactorPre(c, s, t, Pos(s.order, callOp))
    ensures var s1 := Factored(s, t, Pos(s.order, callOp), |s.order|);
        Gentle(c, s0, s1.(rewrites := s1.rewrites[v := s.nextId]), v)
  {
    CallNamed(c, s0, s, v, t, callOp);
    var k := Pos(s.order, callOp);
    var s1 := Factored(s, t, k, |s.order|);
    var s2 := s1.(rewrites := s1.rewrites[v := s.nextId]);
    hide Inv, Gentle, FrameFrom, FactorPre, Factored, Later;
    GentleFactor(c, s, t, k, |s.order|, v);
    FactorStep(c, s, t, k, |s.order|);
    GentleTrans(c, s0, s, s1, v);
    InvLaterTrans(c, s0, s, s1);
    LaterSame(c, s1, s2);
    GentleMemo(c, s1, s2, v);
    GentleTrans(c, s0, s1, s2, v);
  }

  /** Nothing is done to a call none of whose operands had to be materialised. */
  lemma CallSame(c: Config, s: State, x: Id, vals: seq<Id>)
    requires Inv(c, s) && x in s.ops && s.ops[x].Use? && vals == s.ops[x].args
    ensures s.(ops := s.ops[x := s.ops[x].(args := vals)]) == s
    ensures forall i :: 0 <= i < |vals| ==> vals[i] in s.ops
    ensures Inv(c, s.(ops := s.ops[x := s.ops[x].(args := vals)]))
  {
    assert s.ops[x := s.ops[x].(args := vals)] == s.ops;
    forall i | 0 <= i < |vals| ensures vals[i] in s.ops {
      assert vals[i] in Operands(s.ops[x]);
      OperandAvailable(c, s, x, vals[i]);
    }
  }

  lemma CallDone(c: Config, s0: State, s: State, x: Id, vals: seq<Id>, t: Turns)
    requires Inv(c, s) && x in c.checks && c.checks[x].UseCheck? && Captured(c, s, x, c.checks[x].args, vals)
    requires CallRun(c, s0, s, x, vals, |vals|) && t == Turns(s, vals, false)
    requires x in s0.ops && s0.ops[x].Use? && TakeTurns(c, s0, x, s0.ops[x].args, 0) == t
    requires forall i :: 0 <= i < |vals| ==> vals[i] in s.ops
    requires x in s.ops && s.ops[x].Use? && Inv(c, s.(ops := s.ops[x := s.ops[x].(args := vals)]))
    ensures var s' := s.(ops := s.ops[x := s.ops[x].(args := vals)]);
            CallKeeps(c, s0, s', x) && (s', false) == Called(c, s0, x)
  {
    hide Inv, CallRun, TakeTurns, CapturedAt, CallKeeps;
    CallRebuilt(c, s0, s, x, vals);
    CalledIs(c, s0, x, t);
  }

  lemma GoneCall(c: Config, s0: State, s: State, x: Id, vals: seq<Id>, n: nat, i: nat, t: Turns)
    requires Inv(c, s) && x in c.checks && c.checks[x].UseCheck? && Captured(c, s, x, c.checks[x].args, vals)
    requires Intact(c, s, c.checks[x].args, vals) && CallRun(c, s0, s, x, vals, n) && i < |vals| && vals[i] !in s.ops
    requires x in s0.ops && s0.ops[x].Use? && TakeTurns(c, s0, x, s0.ops[x].args, 0) == t && t.s == s && t.vals == vals
    ensures HasErasableArgument(c, x) && (c.noDiv && Tame(c, s0) ==> StalePair(c, x)) && Called(c, s0, x) == (s, true)
  {
    IntactGet(c, s, x, c.checks[x].args, vals, i);
    CalledIs(c, s0, x, t);
    CapturedTree(c, s, x, vals, i);
    hide Inv, CallRun, TakeTurns, Captured, Intact, Tame, StalePair;
    if c.noDiv && Tame(c, s0) { StaleGet(c, s0, s, x, vals, n, i); }
  }

  lemma NotBefore(xs: seq<Id>, i: nat)
    requires NoDup(xs) && i < |xs|
    ensures xs[i] !in xs[..i]
  {}
}
