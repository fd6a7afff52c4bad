/** The lowering of one expression followed on a block that is known operation by operation: what each edit does to
    the operations, the memo, the cache and the order. */
module LoweringRules {
  import opened Ir
  import opened LoweringState
  import opened LoweringSteps
  import opened PolyLowering
  import opened LoweringFunction

  /** Operation `x` of the block: where it stands, what it does, and the size of its source expression. */
  ghost predicate Has(s: State, x: Id, pos: nat, op: Op, size: nat) {
    x in s.ops && s.ops[x] == op && x in s.order && Pos(s.order, x) == pos && x in s.tree && Size(s.tree[x]) == size
  }

  /** A read at `pos`. */
  ghost predicate ReadAt(s: State, x: Id, pos: nat, size: nat) {
    x in s.ops && s.ops[x].Leaf? && x in s.order && Pos(s.order, x) == pos && x in s.tree && Size(s.tree[x]) == size
  }

  /** An entry of the memo or of the cache. */
  ghost predicate Entry(m: map<Id, nat>, x: Id, d: nat) { x in m && m[x] == d }

  /** Constrain call `x`, wherever its operands come from. */
  ghost predicate CallAt(s: State, x: Id, pos: nat) {
    x in s.ops && s.ops[x].Use? && x in s.order && Pos(s.order, x) == pos
  }

  /** Constrain call `x` with its operands. */
  ghost predicate CallIs(s: State, x: Id, pos: nat, args: seq<Id>) {
    x in s.ops && s.ops[x] == Use(0, args) && x in s.order && Pos(s.order, x) == pos
  }

  lemma CallIsAt(s: State, x: Id, pos: nat, args: seq<Id>)
    requires CallIs(s, x, pos, args)
    ensures CallAt(s, x, pos)
  {}

  // ---------- degrees ----------

  lemma MeasureLeaf(s: State, x: Id, memo: map<Id, nat>)
    requires x in s.ops && x in s.tree && x !in memo && (s.ops[x].Leaf? || s.ops[x].Const?)
    ensures Measured(s.ops, s.tree, x, memo) == memo[x := if s.ops[x].Leaf? then 1 else 0]
  {}

  lemma MeasureBin(s: State, x: Id, memo: map<Id, nat>, m1: map<Id, nat>, m2: map<Id, nat>)
    requires x in s.ops && x in s.tree && x !in memo && s.ops[x].Bin? && s.ops[x].l in s.tree && s.ops[x].r in s.tree
    requires Size(s.tree[s.ops[x].l]) < Size(s.tree[x]) && Size(s.tree[s.ops[x].r]) < Size(s.tree[x])
    requires Measured(s.ops, s.tree, s.ops[x].l, memo) == m1 && Measured(s.ops, s.tree, s.ops[x].r, m1) == m2
    requires s.ops[x].l in m2 && s.ops[x].r in m2
    ensures Measured(s.ops, s.tree, x, memo) ==
            m2[x := if s.ops[x].kind == AddK || s.ops[x].kind == SubK then Max(m2[s.ops[x].l], m2[s.ops[x].r])
              else Plus(m2[s.ops[x].l], m2[s.ops[x].r])]
  {}

  lemma MeasureNeg(s: State, x: Id, memo: map<Id, nat>, m: map<Id, nat>)
    requires x in s.ops && x in s.tree && x !in memo && s.ops[x].Neg? && s.ops[x].x in s.tree
    requires Size(s.tree[s.ops[x].x]) < Size(s.tree[x]) && Measured(s.ops, s.tree, s.ops[x].x, memo) == m
    requires s.ops[x].x in m
    ensures Measured(s.ops, s.tree, x, memo) == m[x := m[s.ops[x].x]]
  {}

  // ---------- which way a value goes ----------

  lemma Over(c: Config, s: State, v: Id, use: Id)
    requires Missed(s, v, use) && v in s.memo && s.memo[v] > c.maxDegree
    ensures Lower(c, s, v, use) == LowerRoot(c, s, v)
  {
    hide LowerRoot;
    MeasuredHit(s.ops, s.tree, v, s.memo);
    MissIs(c, s, s, v, use);
  }

  lemma OverNew(c: Config, s: State, v: Id, use: Id, m: map<Id, nat>)
    requires Missed(s, v, use) && Measured(s.ops, s.tree, v, s.memo) == m && v in m && m[v] > c.maxDegree
    ensures Lower(c, s, v, use) == LowerRoot(c, s.(memo := m), v)
  {
    hide LowerRoot, Measured;
    MissIs(c, s, s.(memo := m), v, use);
  }

  lemma Under(c: Config, s: State, v: Id, use: Id)
    requires Missed(s, v, use) && v in s.memo && s.memo[v] <= c.maxDegree
    ensures Lower(c, s, v, use) == Next(if v in s.rewrites then s else s.(rewrites := s.rewrites[v := v]), v)
  {
    hide LowerRoot;
    MeasuredHit(s.ops, s.tree, v, s.memo);
    MissIs(c, s, s, v, use);
  }

  // ---------- edits ----------

  lemma FactorRule(s: State, t: Id, k: nat, from: nat)
    requires Listed(s.ops, s.order, s.nextId) && k <= |s.order| && k <= from && t in s.tree
    ensures var s', a := Factored(s, t, k, from), s.nextId;
            && Listed(s'.ops, s'.order, s'.nextId) && |s'.order| == |s.order| + 2 && s'.nextId == a + 2
            && (forall x ::
              x in s.order ==>
              x in s'.order && Pos(s'.order, x) == Pos(s.order, x) + if Pos(s.order, x) < k then 0 else 2)
            && (forall x :: x in s.ops ==> x in s'.ops && s'.ops[x] == if Pos(s.order, x) >= from
              then Subst(s.ops[x], t, a) else s.ops[x])
            && Has(s', a, k, Leaf(Member(Auxiliary(s.counter))), Size(s.tree[t]))
            && s'.memo == s.memo[a := 1] && s'.rewrites == s.rewrites[t := a] && s'.tree == s.tree[a := s.tree[t]]
  {
    assert |Factored(s, t, k, from).order| == |s.order| + 2;
    hide NoDup, Insert;
    FactoredOrder(s, t, k, from);
  }

  lemma MulRule(s: State, v: Id, l: Id, r: Id, k: nat)
    requires Listed(s.ops, s.order, s.nextId) && k <= |s.order| && v in s.tree && l in s.memo && r in s.memo
    ensures var s', w := WithMul(s, v, l, r, k), s.nextId;
            && Listed(s'.ops, s'.order, s'.nextId) && s'.nextId == w + 1
            && (forall x ::
              x in s.order ==>
              x in s'.order && Pos(s'.order, x) == Pos(s.order, x) + if Pos(s.order, x) < k then 0 else 1)
            && (forall x :: x in s.ops ==> x in s'.ops && s'.ops[x] == s.ops[x])
            && Has(s', w, k, Bin(MulK, l, r), Size(s.tree[v]))
            && s'.memo == s.memo[w := s.memo[l] + s.memo[r]] && s'.rewrites == s.rewrites[v := w] &&
              s'.tree == s.tree[w := s.tree[v]]
  {
    hide NoDup, Insert;
    WithMulOrder(s, v, l, r, k);
  }

  /** Every operation that was there is still there, from `k` on one place further behind. */
  lemma MulMoves(s: State, v: Id, l: Id, r: Id, k: nat)
    requires Listed(s.ops, s.order, s.nextId) && k <= |s.order| && v in s.tree && l in s.memo && r in s.memo
    ensures var s' := WithMul(s, v, l, r, k);
            && (forall x: Id, pos: nat, op: Op, size: nat ::
              Has(s, x, pos, op, size) ==> Has(s', x, if pos < k then pos else pos + 1, op, size))
            && (forall x: Id, pos: nat, size: nat ::
              ReadAt(s, x, pos, size) ==> ReadAt(s', x, if pos < k then pos else pos + 1, size))
            && (forall x: Id, pos: nat :: CallAt(s, x, pos) ==> CallAt(s', x, if pos < k then pos else pos + 1))
            && (forall x: Id, pos: nat, args: seq<Id> ::
              CallIs(s, x, pos, args) ==> CallIs(s', x, if pos < k then pos else pos + 1, args))
    ensures var s', w := WithMul(s, v, l, r, k), s.nextId;
            && Listed(s'.ops, s'.order, s'.nextId) && s'.nextId == w + 1
            && Has(s', w, k, Bin(MulK, l, r), Size(s.tree[v]))
            && s'.memo == s.memo[w := s.memo[l] + s.memo[r]] && s'.rewrites == s.rewrites[v := w]
            && s'.tree.Keys >= s.tree.Keys
  {
    hide NoDup, WithMul, Size, Pos;
    MulRule(s, v, l, r, k);
  }

  /** A block that differs in the memo and the cache only. */
  lemma SameBlock(s: State, s': State)
    requires s'.ops == s.ops && s'.order == s.order && s'.tree == s.tree
    ensures forall x: Id, pos: nat, op: Op, size: nat :: Has(s, x, pos, op, size) ==> Has(s', x, pos, op, size)
    ensures forall x: Id, pos: nat, size: nat :: ReadAt(s, x, pos, size) ==> ReadAt(s', x, pos, size)
    ensures forall x: Id, pos: nat :: CallAt(s, x, pos) ==> CallAt(s', x, pos)
    ensures forall x: Id, pos: nat, args: seq<Id> :: CallIs(s, x, pos, args) ==> CallIs(s', x, pos, args)
  {}

  /** Setting an operation in place moves nothing. */
  lemma SetValue(s: State, s': State, v: Id, op: Op)
    requires v in s.ops && s'.ops == s.ops[v := op] && s'.order == s.order && s'.tree == s.tree && s'.nextId == s.nextId
    ensures Listed(s.ops, s.order, s.nextId) ==> Listed(s'.ops, s'.order, s'.nextId)
    ensures forall x: Id, pos: nat, o: Op, size: nat ::
        Has(s, x, pos, o, size) ==> Has(s', x, pos, if x == v then op else o, size)
    ensures forall x: Id, pos: nat, size: nat :: ReadAt(s, x, pos, size) && x != v ==> ReadAt(s', x, pos, size)
    ensures forall x: Id, pos: nat :: CallAt(s, x, pos) && x != v ==> CallAt(s', x, pos)
  {
    hide NoDup, Size, Pos;
  }

  lemma RetireRule(s: State, v: Id, w: Id)
    requires Listed(s.ops, s.order, s.nextId) && v in s.order
    ensures var s' := Retired(s, v, w);
            && Listed(s'.ops, s'.order, s'.nextId) && s'.nextId == s.nextId
            && (forall x :: x in s.ops && x != v ==>
                  (x in s'.ops && x in s'.order && s'.ops[x] == Subst(s.ops[x], v, w) &&
                   Pos(s'.order, x) == Pos(s.order, x) - if Pos(s.order, x) < Pos(s.order, v) then 0 else 1))
            && s'.memo == s.memo && s'.rewrites == s.rewrites && s'.tree == s.tree
  {
    RemovePos(s.order, Pos(s.order, v));
    hide NoDup, Remove;
  }

  // ---------- products ----------

  /** `v` is a product whose operands are lowered to `lhs` and `rhs`, in state `s2`. */
  ghost predicate ProductReady(c: Config, s: State, s2: State, v: Id, lhs: Id, rhs: Id) {
    && v in s.ops && s.ops[v].IsMul() && LowerBoth(c, s, v) == Pair(s2, lhs, rhs)
    && Listed(s2.ops, s2.order, s2.nextId) && v in s2.order && v in s2.tree && v < s2.nextId
    && lhs in s2.memo && rhs in s2.memo && lhs in s2.tree && rhs in s2.tree
    && lhs < s2.nextId && rhs < s2.nextId && 2 <= c.maxDegree < UNSIGNED_RANGE
    && s2.memo[lhs] + s2.memo[rhs] < UNSIGNED_RANGE
  }

  lemma BothRule(c: Config, s: State, s1: State, s2: State, v: Id, lhs: Id, rhs: Id)
    requires v in s.ops && s.ops[v].Bin? && v in s.tree && s.ops[v].l in s.tree
    requires Size(s.tree[s.ops[v].l]) < Size(s.tree[v])
    requires Lower(c, s, s.ops[v].l, v) == Next(s1, lhs)
    requires v in s1.ops && s1.ops[v].Bin? && s1.ops[v].r in s1.tree && Size(s1.tree[s1.ops[v].r]) < Size(s.tree[v])
    requires Lower(c, s1, s1.ops[v].r, v) == Next(s2, rhs)
    ensures LowerBoth(c, s, v) == Pair(s2, lhs, rhs)
  {
    hide Lower;
  }

  /** A product that fits: the new product `w` right behind `v`, which stays. */
  lemma Fitting(c: Config, s: State, s2: State, v: Id, lhs: Id, rhs: Id)
    requires ProductReady(c, s, s2, v, lhs, rhs) && s2.memo[lhs] + s2.memo[rhs] <= c.maxDegree
    ensures var k := Pos(s2.order, v) + 1;
        k <= |s2.order| && LowerRoot(c, s, v) == Next(WithMul(s2, v, lhs, rhs, k), s2.nextId)
  {
    hide LowerRoot, LowerBoth, WithMul, Rebuilt, Finished, Fit;
    var k := Pos(s2.order, v) + 1;
    MulIs(c, s, v, Pair(s2, lhs, rhs));
    FitStep(c, s2, lhs, rhs, k);
    RebuiltIs(c, Pair(s2, lhs, rhs), v, k, false, (Pair(s2, lhs, rhs), k));
    FinishedIs((Pair(s2, lhs, rhs), k), v, false, WithMul(s2, v, lhs, rhs, k));
  }

  /** `lhs` named by `a` behind `v`, the new product `w` behind that, and `v` erased. */
  ghost predicate TakenApart(s: State, v: Id, lhs: Id, rhs: Id, s': State)
    requires Listed(s.ops, s.order, s.nextId) && v in s.order && lhs in s.tree && v in s.tree && rhs in s.memo
  {
    var p, a, w := Pos(s.order, v), s.nextId, s.nextId + 2;
    && Listed(s'.ops, s'.order, s'.nextId) && s'.nextId == a + 3
    && Has(s', a, p, Leaf(Member(Auxiliary(s.counter))), Size(s.tree[lhs]))
    && Has(s', w, p + 2, Bin(MulK, a, rhs), Size(s.tree[v]))
    && (forall x :: x in s.ops && x != v ==>
          (x in s'.ops && x in s'.order && Pos(s'.order, x) == Pos(s.order, x) +
            (if Pos(s.order, x) < p then 0 else 2) &&
           s'.ops[x] == Subst(if Pos(s.order, x) > p then Subst(s.ops[x], lhs, a) else s.ops[x], v, w)))
    && s'.memo == s.memo[a := 1][w := 1 + s.memo[rhs]] && s'.rewrites == s.rewrites[lhs := a][v := w]
    && s'.tree == s.tree[a := s.tree[lhs]][w := s.tree[v]]
  }

  /** What a product that is taken apart does to everything else. */
  lemma ApartMoves(s: State, v: Id, lhs: Id, rhs: Id, s': State, p: nat)
    requires Listed(s.ops, s.order, s.nextId) && v in s.order && lhs in s.tree && v in s.tree && rhs in s.memo
    requires TakenApart(s, v, lhs, rhs, s')
    requires p == Pos(s.order, v)
    ensures forall x: Id, pos: nat, op: Op, size: nat :: Has(s, x, pos, op, size) && x != v ==>
      Has(s', x, if pos < p then pos
        else pos + 2, Subst(if pos > p then Subst(op, lhs, s.nextId) else op, v, s.nextId + 2), size)
    ensures forall x: Id, pos: nat, size: nat ::
        ReadAt(s, x, pos, size) && x != v ==> ReadAt(s', x, if pos < p then pos else pos + 2, size)
    ensures forall x: Id, pos: nat :: CallAt(s, x, pos) && x != v ==> CallAt(s', x, if pos < p then pos else pos + 2)
    ensures ReadAt(s', s.nextId, p, Size(s.tree[lhs]))
    ensures Has(s', s.nextId + 2, p + 2, Bin(MulK, s.nextId, rhs), Size(s.tree[v]))
    ensures s'.memo == s.memo[s.nextId := 1][s.nextId + 2 := 1 + s.memo[rhs]]
    ensures s'.rewrites == s.rewrites[lhs := s.nextId][v := s.nextId + 2]
    ensures Listed(s'.ops, s'.order, s'.nextId) && s'.nextId == s.nextId + 3
  {
    hide NoDup, Size;
    assert forall x :: x in s.order ==> x < s.nextId;
  }

  ghost predicate ApartReady(s: State, v: Id, lhs: Id, rhs: Id) {
    Listed(s.ops, s.order, s.nextId) && v in s.order && v in s.tree && lhs in s.tree && rhs in s.memo && v < s.nextId &&
      rhs < s.nextId
  }

  /** The first two edits: `lhs` named right behind `v`, and the product built behind that. */
  ghost function Built(s: State, v: Id, lhs: Id, rhs: Id): State
    requires ApartReady(s, v, lhs, rhs)
  {
    var k := Pos(s.order, v) + 1;
    FactorRule(s, lhs, k, k);
    WithMul(Factored(s, lhs, k, k), v, s.nextId, rhs, k + 2)
  }

  lemma BuiltTables(s: State, v: Id, lhs: Id, rhs: Id)
    requires ApartReady(s, v, lhs, rhs)
    ensures var s', a, w := Built(s, v, lhs, rhs), s.nextId, s.nextId + 2;
            && Listed(s'.ops, s'.order, s'.nextId) && s'.nextId == a + 3 && v in s'.order
            && Pos(s'.order, v) == Pos(s.order, v)
            && s'.memo == s.memo[a := 1][w := 1 + s.memo[rhs]] && s'.rewrites == s.rewrites[lhs := a][v := w]
            && s'.tree == s.tree[a := s.tree[lhs]][w := s.tree[v]]
  {
    hide Factored, WithMul, NoDup, Has;
    var k := Pos(s.order, v) + 1;
    FactorRule(s, lhs, k, k);
    MulRule(Factored(s, lhs, k, k), v, s.nextId, rhs, k + 2);
  }

  lemma BuiltAt(s: State, v: Id, lhs: Id, rhs: Id, x: Id)
    requires ApartReady(s, v, lhs, rhs) && x in s.ops
    ensures var s', p := Built(s, v, lhs, rhs), Pos(s.order, v);
            && x in s'.ops && x in s'.order
            && Pos(s'.order, x) == Pos(s.order, x) + (if Pos(s.order, x) <= p then 0 else 3)
            && s'.ops[x] == if Pos(s.order, x) > p then Subst(s.ops[x], lhs, s.nextId) else s.ops[x]
  {
    hide Factored, WithMul, NoDup, Has, Subst;
    var k := Pos(s.order, v) + 1;
    FactorRule(s, lhs, k, k);
    MulRule(Factored(s, lhs, k, k), v, s.nextId, rhs, k + 2);
  }

  /** The three edits: the last one erases `v`. */
  ghost function Apart(s: State, v: Id, lhs: Id, rhs: Id): State
    requires ApartReady(s, v, lhs, rhs)
  {
    BuiltTables(s, v, lhs, rhs);
    Retired(Built(s, v, lhs, rhs), v, s.nextId + 2)
  }

  /** Operation `x` through the three edits. */
  lemma ApartAt(s: State, v: Id, lhs: Id, rhs: Id, x: Id)
    requires ApartReady(s, v, lhs, rhs) && x in s.ops && x != v
    ensures var s', p := Apart(s, v, lhs, rhs), Pos(s.order, v);
            && x in s'.ops && x in s'.order
            && Pos(s'.order, x) == Pos(s.order, x) + (if Pos(s.order, x) < p then 0 else 2)
            && s'.ops[x] == Subst(if Pos(s.order, x) > p then Subst(s.ops[x], lhs, s.nextId)
              else s.ops[x], v, s.nextId + 2)
  {
    hide Built, Retired, NoDup, Subst;
    BuiltTables(s, v, lhs, rhs);
    BuiltAt(s, v, lhs, rhs, x);
    RetireRule(Built(s, v, lhs, rhs), v, s.nextId + 2);
    assert Pos(s.order, x) != Pos(s.order, v);
  }

  lemma ApartTables(s: State, v: Id, lhs: Id, rhs: Id)
    requires ApartReady(s, v, lhs, rhs)
    ensures var s', a, w := Apart(s, v, lhs, rhs), s.nextId, s.nextId + 2;
            && Listed(s'.ops, s'.order, s'.nextId) && s'.nextId == a + 3
            && s'.memo == s.memo[a := 1][w := 1 + s.memo[rhs]] && s'.rewrites == s.rewrites[lhs := a][v := w]
            && s'.tree == s.tree[a := s.tree[lhs]][w := s.tree[v]]
  {
    hide Built, Retired, NoDup, Subst;
    BuiltTables(s, v, lhs, rhs);
    RetireRule(Built(s, v, lhs, rhs), v, s.nextId + 2);
  }

  lemma RetireMoves(s: State, v: Id, w: Id, p: nat)
    requires Listed(s.ops, s.order, s.nextId) && v in s.order && p == Pos(s.order, v)
    ensures forall x: Id, pos: nat, op: Op, size: nat :: Has(s, x, pos, op, size) && x != v && pos != p ==>
      Has(Retired(s, v, w), x, if pos < p then pos else pos - 1, Subst(op, v, w), size)
  {
    hide Retired, NoDup, Size, Subst, Pos;
    RetireRule(s, v, w);
  }

  /** The two new operations. */
  lemma ApartNew(s: State, v: Id, lhs: Id, rhs: Id)
    requires ApartReady(s, v, lhs, rhs) && rhs != v
    ensures var s', p, a, w := Apart(s, v, lhs, rhs), Pos(s.order, v), s.nextId, s.nextId + 2;
            Has(s', a, p, Leaf(Member(Auxiliary(s.counter))), Size(s.tree[lhs])) &&
              Has(s', w, p + 2, Bin(MulK, a, rhs), Size(s.tree[v]))
  {
    hide Factored, WithMul, Retired, NoDup, Size, Has;
    var k, a := Pos(s.order, v) + 1, s.nextId;
    FactorRule(s, lhs, k, k);
    var s3 := Factored(s, lhs, k, k);
    MulMoves(s3, v, a, rhs, k + 2);
    var s4 := WithMul(s3, v, a, rhs, k + 2);
    MulPlace(s3, v, a, rhs, k + 2);
    RetireMoves(s4, v, a + 2, k - 1);
  }

  lemma MulPlace(s: State, v: Id, l: Id, r: Id, k: nat)
    requires Listed(s.ops, s.order, s.nextId) && k <= |s.order| && v in s.tree && l in s.memo && r in s.memo
    requires v in s.order && Pos(s.order, v) < k
    ensures var s' := WithMul(s, v, l, r, k); v in s'.order && Pos(s'.order, v) == Pos(s.order, v)
  {
    hide WithMul, NoDup;
    MulRule(s, v, l, r, k);
  }

  /** A product that is over the bound by its left factor. */
  lemma Replaced(c: Config, s: State, s2: State, v: Id, lhs: Id, rhs: Id)
    requires ProductReady(c, s, s2, v, lhs, rhs) && s2.memo[lhs] + s2.memo[rhs] > c.maxDegree >= 1 + s2.memo[rhs]
    requires s2.memo[lhs] >= s2.memo[rhs] && lhs != rhs && rhs != v
    ensures LowerRoot(c, s, v).r == s2.nextId + 2 && TakenApart(s2, v, lhs, rhs, LowerRoot(c, s, v).s)
  {
    hide LowerRoot, LowerBoth, Apart, NoDup, Subst, Has;
    Steps(c, s, s2, v, lhs, rhs);
    ApartTables(s2, v, lhs, rhs);
    ApartNew(s2, v, lhs, rhs);
    var p, s' := Pos(s2.order, v), Apart(s2, v, lhs, rhs);
    forall x | x in s2.ops && x != v
      ensures x in s'.ops && x in s'.order
      ensures Pos(s'.order, x) == Pos(s2.order, x) + (if Pos(s2.order, x) < p then 0 else 2)
      ensures s'.ops[x] == Subst(if Pos(s2.order, x) > p then Subst(s2.ops[x], lhs, s2.nextId)
          else s2.ops[x], v, s2.nextId + 2)
    {
      ApartAt(s2, v, lhs, rhs, x);
    }
  }

  lemma Steps(c: Config, s: State, s2: State, v: Id, lhs: Id, rhs: Id)
    requires ProductReady(c, s, s2, v, lhs, rhs) && s2.memo[lhs] + s2.memo[rhs] > c.maxDegree >= 1 + s2.memo[rhs]
    requires s2.memo[lhs] >= s2.memo[rhs] && lhs != rhs
    ensures LowerRoot(c, s, v) == Next(Apart(s2, v, lhs, rhs), s2.nextId + 2)
  {
    hide LowerRoot, LowerBoth, Factored, Fit, Finished, Rebuilt, WithMul, Retired, NoDup, Has;
    var k, a := Pos(s2.order, v) + 1, s2.nextId;
    FactorRule(s2, lhs, k, k);
    var s3 := Factored(s2, lhs, k, k);
    MulIs(c, s, v, Pair(s2, lhs, rhs));
    FitStep(c, s2, lhs, rhs, k);
    FitStep(c, s3, a, rhs, k + 2);
    MulRule(s3, v, a, rhs, k + 2);
    FinishedIs((Pair(s3, a, rhs), k + 2), v, true, WithMul(s3, v, a, rhs, k + 2));
    RebuiltIs(c, Pair(s2, lhs, rhs), v, k, true, (Pair(s3, a, rhs), k + 2));
  }

  // ---------- negations, and arguments that are named ----------

  lemma Negation(c: Config, s: State, s2: State, v: Id, x: Id)
    requires v in s.ops && s.ops[v].Neg? && v in s.tree && s.ops[v].x in s.tree
    requires Size(s.tree[s.ops[v].x]) < Size(s.tree[v])
    requires Lower(c, s, s.ops[v].x, v) == Next(s2, x) && x in s2.memo && v in s2.ops && v !in s2.rewrites
    ensures LowerRoot(c, s, v) == Next(s2.(ops := s2.ops[v := Neg(x)], memo := s2.memo[v := s2.memo[x]],
        rewrites := s2.rewrites[v := v]), v)
  {
    hide Lower;
  }

  lemma Sum(c: Config, s: State, s2: State, v: Id, lhs: Id, rhs: Id)
    requires v in s.ops && s.ops[v].Bin? && (s.ops[v].kind == AddK || s.ops[v].kind == SubK)
    requires LowerBoth(c, s, v) == Pair(s2, lhs, rhs)
    requires v in s2.ops && s2.ops[v].Bin? && lhs in s2.memo && rhs in s2.memo && v !in s2.rewrites
    ensures LowerRoot(c, s, v) ==
            Next(s2.(ops := s2.ops[v := Bin(s2.ops[v].kind, lhs, rhs)],
              memo := s2.memo[v := Max(s2.memo[lhs], s2.memo[rhs])],
                     rewrites := s2.rewrites[v := v]), v)
  {
    hide LowerBoth;
  }

  /** An argument that is not linear once it is lowered: named by a read in front of the call. */
  lemma Named(c: Config, s: State, s2: State, v: Id, r: Id, callOp: Id)
    requires Lower(c, s, v, callOp) == Next(s2, r) && !Linear(s2, r) && Listed(s2.ops, s2.order, s2.nextId)
    requires callOp in s2.order && r in s2.tree
    ensures var Next(s', a) := Materialised(c, s, v, callOp);
            var k := Pos(s2.order, callOp);
            && a == s2.nextId && s'.nextId == a + 2 && Listed(s'.ops, s'.order, s'.nextId)
            && (forall x ::
              x in s2.order ==>
              x in s'.order && Pos(s'.order, x) == Pos(s2.order, x) + if Pos(s2.order, x) < k then 0 else 2)
            && (forall x :: x in s2.ops ==> x in s'.ops && s'.ops[x] == s2.ops[x])
            && Has(s', a, k, Leaf(Member(Auxiliary(s2.counter))), Size(s2.tree[r]))
            && s'.memo == s2.memo[a := 1] && s'.rewrites == s2.rewrites[r := a][v := a] &&
              s'.tree == s2.tree[a := s2.tree[r]]
  {
    hide Lower, Linear, Factored, NoDup;
    var k := Pos(s2.order, callOp);
    NamedIs(c, s, Next(s2, r), v, callOp, k);
    hide Materialised;
    FactorRule(s2, r, k, |s2.order|);
  }

  lemma NamedMoves(c: Config, s: State, s2: State, v: Id, r: Id, callOp: Id, k: nat)
    requires Lower(c, s, v, callOp) == Next(s2, r) && !Linear(s2, r) && Listed(s2.ops, s2.order, s2.nextId)
    requires callOp in s2.order && r in s2.tree
    requires k == Pos(s2.order, callOp)
    ensures var s' := Materialised(c, s, v, callOp).s;
            && (forall x: Id, pos: nat, op: Op, size: nat ::
              Has(s2, x, pos, op, size) ==> Has(s', x, if pos < k then pos else pos + 2, op, size))
            && (forall x: Id, pos: nat, size: nat ::
              ReadAt(s2, x, pos, size) ==> ReadAt(s', x, if pos < k then pos else pos + 2, size))
            && (forall x: Id, pos: nat :: CallAt(s2, x, pos) ==> CallAt(s', x, if pos < k then pos else pos + 2))
            && (forall x: Id, pos: nat, args: seq<Id> ::
              CallIs(s2, x, pos, args) ==> CallIs(s', x, if pos < k then pos else pos + 2, args))
            && ReadAt(s', s2.nextId, k, Size(s2.tree[r])) && s2.nextId in s'.ops
            && Materialised(c, s, v, callOp).r == s2.nextId
            && Listed(s'.ops, s'.order, s'.nextId) && s'.nextId == s2.nextId + 2
            && s'.memo == s2.memo[s2.nextId := 1] && s'.rewrites == s2.rewrites[r := s2.nextId][v := s2.nextId]
  {
    hide Lower, Linear, Materialised, NoDup, Size;
    Named(c, s, s2, v, r, callOp);
  }
}
