/** What degree lowering keeps true of a `constrain` body while it rewrites it in place,
    and that each of its editing steps keeps it. */
module LoweringState {
  import opened Ir

  /** Degrees are held in 32-bit unsigned integers. */
  const UNSIGNED_RANGE: nat := 0x1_0000_0000

  datatype AuxAssignment = AuxAssignment(name: nat, computed: Id, auxValue: Id)

  /** Everything one run of the lowering holds. `tree` and `eqIds` are bookkeeping for the
      proof: the source expression every value ever created stands for, and the defining
      equality of each generated member. */
  datatype State = State(
    ops: map<Id, Op>, order: seq<Id>, nextId: Id,
    memo: map<Id, nat>, rewrites: map<Id, Id>,
    counter: nat, aux: seq<AuxAssignment>,
    tree: map<Id, Expr>, eqIds: seq<Id>)

  /** What is fixed for a whole run: the degree bound, the first generated name, whether
      the body has a felt division, and the constraints and operations of the body before lowering. */
  datatype Config = Config(maxDegree: nat, base: nat, noDiv: bool, checks: map<Id, Check>, source: map<Id, Op>)

  // ---------- the invariant, one part at a time ----------

  /** Value `x` computes exactly the source expression recorded for it. */
  ghost predicate NodeOk(c: Config, s: State, x: Id)
    requires x in s.ops
  {
    x in s.tree &&
    match s.ops[x]
    case Const(k) => s.tree[x] == EConst(k)
    case Leaf(src) =>
      if IsAux(src) then
        c.base <= src.name.k < c.base + |s.aux| && s.aux[src.name.k - c.base].auxValue == x
      else s.tree[x] == ELeaf(src)
    case Bin(k, l, r) => l in s.tree && r in s.tree && s.tree[x] == EBin(k, s.tree[l], s.tree[r]) &&
      (c.noDiv ==> k != DivK)
    case Neg(y) => y in s.tree && s.tree[x] == ENeg(s.tree[y])
    case Eq(_, _) => true
    case Use(_, _) => true
  }

  ghost predicate TreesOk(c: Config, s: State) {
    && (forall x :: x in s.ops && s.ops[x].IsValue() ==> NodeOk(c, s, x))
    && (forall x :: x in s.tree ==> x < s.nextId && Pure(s.tree[x]) && Degree(s.tree[x]) < UNSIGNED_RANGE)
    && (forall x :: x in s.ops ==> x < s.nextId)
  }

  /** The memoised degree of `x` is no less than its operation makes of its operands'. */
  ghost predicate MemoNode(op: Op, memo: map<Id, nat>, d: nat) {
    match op
    case Const(_) => true
    case Leaf(_) => d == 1
    case Bin(k, l, r) => l in memo && r in memo && d >= Combine(k, memo[l], memo[r])
    case Neg(y) => y in memo && d >= memo[y]
    case Eq(_, _) => false
    case Use(_, _) => false
  }

  function Combine(k: BinKind, l: nat, r: nat): nat {
    if k == AddK || k == SubK then Max(l, r) else l + r
  }

  ghost predicate MemoOk(ops: map<Id, Op>, tree: map<Id, Expr>, memo: map<Id, nat>) {
    && (forall x :: x in memo && x in ops ==> MemoNode(ops[x], memo, memo[x]))
    && (forall x :: x in memo ==> x in tree && memo[x] <= Degree(tree[x]))
  }

  /** `y` may stand for `x`: same expression, memoised, and within the bound unless it is `x` itself. */
  ghost predicate StandsFor(c: Config, s: State, x: Id, y: Id) {
    && x in s.tree && y in s.ops && s.ops[y].IsValue() && y in s.tree && s.tree[y] == s.tree[x]
    && Kept(c, s, y) && (s.memo[y] <= c.maxDegree || (y == x && !c.noDiv))
  }

  /** `y` can no longer be erased: only over-degree products are. */
  ghost predicate Kept(c: Config, s: State, y: Id) {
    y in s.memo && y in s.ops && (s.memo[y] <= c.maxDegree || !s.ops[y].IsMul())
  }

  ghost predicate RewritesOk(c: Config, s: State) {
    forall x :: x in s.rewrites ==> StandsFor(c, s, x, s.rewrites[x])
  }

  /** Generated member `k`: its read, directly followed by the equality that defines it. */
  ghost predicate AuxEntryOk(c: Config, s: State, k: nat)
    requires k < |s.aux| && k < |s.eqIds|
  {
    var a, e := s.aux[k], s.eqIds[k];
    && a.name == c.base + k
    && a.auxValue in s.ops && s.ops[a.auxValue] == Leaf(Member(Auxiliary(a.name))) && a.auxValue in s.memo
    && a.auxValue in s.order
    && a.computed in s.ops && (s.ops[a.computed].Bin? || s.ops[a.computed].Neg?) && Kept(c, s, a.computed)
    && a.auxValue in s.tree && a.computed in s.tree
    && s.tree[a.auxValue] == s.tree[a.computed] && Degree(s.tree[a.auxValue]) >= 1
    && e in s.ops && e in s.order && s.ops[e].Eq? && s.ops[e].lhs == a.auxValue && s.ops[e].rhs != a.auxValue
    && s.ops[e].rhs in s.tree && s.tree[s.ops[e].rhs] == s.tree[a.computed]
    && s.ops[e].rhs in s.memo && (c.noDiv ==> s.memo[s.ops[e].rhs] <= c.maxDegree)
    && Pos(s.order, e) == Pos(s.order, a.auxValue) + 1
    && e !in c.checks
  }

  ghost predicate AuxOk(c: Config, s: State) {
    && s.counter == c.base + |s.aux| && |s.eqIds| == |s.aux|
    && (forall k :: 0 <= k < |s.aux| ==> AuxEntryOk(c, s, k))
  }

  /** Operation `op` states constraint `ch` of the source. */
  ghost predicate States(op: Op, tree: map<Id, Expr>, ch: Check) {
    match ch
    case EqCheck(l, r) => op.Eq? && op.lhs in tree && op.rhs in tree && tree[op.lhs] == l && tree[op.rhs] == r
    case UseCheck(t, es) =>
      op.Use? && op.tag == t && |op.args| == |es| &&
        forall i :: 0 <= i < |es| ==> op.args[i] in tree && tree[op.args[i]] == es[i]
  }

  ghost predicate ChecksOk(c: Config, s: State) {
    && (forall x :: x in c.checks ==> x in s.ops && !s.ops[x].IsValue() && States(s.ops[x], s.tree, c.checks[x]))
    && (forall x :: x in s.ops && !s.ops[x].IsValue() ==> x in c.checks || x in s.eqIds)
  }

  ghost predicate Inv(c: Config, s: State) {
    && c.maxDegree >= 2
    && WellFormed(s.ops, s.order) && TreesOk(c, s) && MemoOk(s.ops, s.tree, s.memo)
    && RewritesOk(c, s) && AuxOk(c, s) && ChecksOk(c, s)
  }

  // ---------- what one step may do, seen from an operation `use` behind the edit ----------

  ghost predicate SlotsKept(op: Op, op': Op, memo: map<Id, nat>, memo': map<Id, nat>) {
    match op
    case Eq(l, r) => op'.Eq? && (l in memo ==> op'.lhs in memo' && memo'[op'.lhs] <= memo[l]) &&
      (r in memo ==> op'.rhs in memo' && memo'[op'.rhs] <= memo[r])
    case Use(t, args) =>
      op'.Use? && op'.tag == t && |op'.args| == |args| &&
      forall i :: 0 <= i < |args| && args[i] in memo ==> op'.args[i] in memo' && memo'[op'.args[i]] <= memo[args[i]]
    case Const(_) => op' == op
    case Leaf(_) => op' == op
    case Bin(k, _, _) => op'.Bin? && op'.kind == k
    case Neg(_) => op'.Neg?
  }

  ghost predicate Later(c: Config, s: State, s': State) {
    && (forall x :: x in s.tree ==> x in s'.tree && s'.tree[x] == s.tree[x])
    && (forall x :: x in s.memo ==> x in s'.memo && s'.memo[x] <= s.memo[x])
    && s.nextId <= s'.nextId && s.aux <= s'.aux && s.eqIds <= s'.eqIds
    && (forall x :: x in s.ops && x !in s'.ops ==> s.ops[x].IsMul() && (x in s.memo ==> s.memo[x] > c.maxDegree))
    && (forall x :: x in s.ops && x !in s'.ops && x in s.tree ==> Degree(s.tree[x]) > c.maxDegree)
    && (forall x :: x in s.ops && x in s'.ops ==> SlotsKept(s.ops[x], s'.ops[x], s.memo, s'.memo))
    && (forall x :: x in s'.ops && x !in s.ops ==> x >= s.nextId)
  }

  /** Nothing at or behind `use` moves, disappears or changes its memoised degree. */
  ghost predicate FrameFrom(s: State, s': State, use: Id) {
    && use in s.order && use in s'.order
    && s.order[Pos(s.order, use)..] == s'.order[Pos(s'.order, use)..]
    && (forall x ::
      x in s.order && x in s.memo && Pos(s.order, x) >= Pos(s.order, use) ==> x in s'.memo && s'.memo[x] == s.memo[x])
  }

  ghost predicate Ext(c: Config, s: State, s': State, use: Id) {
    Later(c, s, s') && FrameFrom(s, s', use)
  }

  lemma SlotsTrans(op: Op, op1: Op, op2: Op, memo: map<Id, nat>, memo1: map<Id, nat>, memo2: map<Id, nat>)
    requires SlotsKept(op, op1, memo, memo1) && SlotsKept(op1, op2, memo1, memo2)
    ensures SlotsKept(op, op2, memo, memo2)
  {}

  lemma SlotsMul(op: Op, op': Op, memo: map<Id, nat>, memo': map<Id, nat>)
    requires SlotsKept(op, op', memo, memo') && op'.IsMul()
    ensures op.IsMul()
  {}

  lemma LaterTrans(c: Config, s: State, s1: State, s2: State)
    requires Later(c, s, s1) && Later(c, s1, s2)
    requires forall x :: x in s.ops ==> x < s.nextId
    ensures Later(c, s, s2)
  {
    hide SlotsKept;
    forall x | x in s.ops && x in s2.ops ensures SlotsKept(s.ops[x], s2.ops[x], s.memo, s2.memo) {
      assert x !in s1.ops ==> x >= s1.nextId;
      SlotsTrans(s.ops[x], s1.ops[x], s2.ops[x], s.memo, s1.memo, s2.memo);
    }
    forall x | x in s.ops && x !in s2.ops ensures s.ops[x].IsMul() && (x in s.memo ==> s.memo[x] > c.maxDegree) {
      if x in s1.ops { SlotsMul(s.ops[x], s1.ops[x], s.memo, s1.memo); }
    }
  }

  /** The frame seen from an earlier operation is also the frame seen from a later one. */
  lemma FrameWeaken(s: State, s': State, early: Id, use: Id)
    requires NoDup(s.order) && NoDup(s'.order)
    requires FrameFrom(s, s', early)
    requires use in s.order && Pos(s.order, early) <= Pos(s.order, use)
    ensures FrameFrom(s, s', use)
    ensures Pos(s'.order, early) - Pos(s.order, early) == Pos(s'.order, use) - Pos(s.order, use)
  {
    var p, p', q := Pos(s.order, early), Pos(s'.order, early), Pos(s.order, use);
    assert s.order[p..][q - p] == use == s'.order[p'..][q - p] == s'.order[p' + (q - p)];
    assert Pos(s'.order, use) == p' + (q - p);
    assert s.order[q..] == s.order[p..][q - p..] == s'.order[p'..][q - p..] == s'.order[p' + (q - p)..];
  }

  lemma FrameTrans(s: State, s1: State, s2: State, use: Id)
    requires NoDup(s.order) && NoDup(s1.order)
    requires FrameFrom(s, s1, use) && FrameFrom(s1, s2, use)
    ensures FrameFrom(s, s2, use)
  {
    forall x | x in s.order && x in s.memo && Pos(s.order, x) >= Pos(s.order, use)
      ensures x in s2.memo && s2.memo[x] == s.memo[x]
    {
      FrameWeaken(s, s1, use, x);
    }
  }

  /** An operation in front of `use` that survives stays in front of it. */
  lemma StaysBefore(s: State, s': State, x: Id, use: Id)
    requires NoDup(s.order) && FrameFrom(s, s', use)
    requires x in s.order && x in s'.order && Pos(s.order, x) < Pos(s.order, use)
    ensures Pos(s'.order, x) < Pos(s'.order, use)
  {
    var p, p', i := Pos(s.order, use), Pos(s'.order, use), Pos(s'.order, x);
    assert forall j ::
        p' <= j < |s'.order| ==> s'.order[j] == s'.order[p'..][j - p'] == s.order[p..][j - p'] == s.order[p + (j - p')];
  }

  lemma KeptLater(c: Config, s: State, s': State, y: Id)
    requires Later(c, s, s') && Kept(c, s, y)
    ensures Kept(c, s', y)
  {
    assert y in s'.ops;
    assert SlotsKept(s.ops[y], s'.ops[y], s.memo, s'.memo);
  }

  lemma LaterRefl(c: Config, s: State)
    ensures Later(c, s, s)
  {}
}
