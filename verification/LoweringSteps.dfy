/** The editing steps of degree lowering, and that each keeps the invariant. */
module LoweringSteps {
  import opened Ir
  import opened LoweringState

  // ---------- bookkeeping steps ----------

  lemma MemoGrow(c: Config, s: State, memo: map<Id, nat>)
    requires Inv(c, s) && MemoOk(s.ops, s.tree, memo)
    requires forall x :: x in s.memo ==> x in memo && memo[x] == s.memo[x]
    ensures Inv(c, s.(memo := memo)) && Later(c, s, s.(memo := memo))
  {
    hide WellFormed, MemoOk, ChecksOk, States;
    var s' := s.(memo := memo);
    ChecksSame(c, s, s');
    forall x | x in s.ops && s.ops[x].IsValue() ensures NodeOk(c, s', x) { assert NodeOk(c, s, x); }
    forall x | x in s.rewrites ensures StandsFor(c, s', x, s'.rewrites[x]) { assert StandsFor(c, s, x, s.rewrites[x]); }
    forall k | 0 <= k < |s.aux| ensures AuxEntryOk(c, s', k) { assert AuxEntryOk(c, s, k); }
  }

  lemma ChecksSame(c: Config, s: State, s': State)
    requires ChecksOk(c, s) && s'.ops == s.ops && s'.tree == s.tree && s'.eqIds == s.eqIds
    ensures ChecksOk(c, s')
  {}

  lemma RewriteSet(c: Config, s: State, x: Id, y: Id)
    requires Inv(c, s) && StandsFor(c, s, x, y)
    ensures Inv(c, s.(rewrites := s.rewrites[x := y])) && Later(c, s, s.(rewrites := s.rewrites[x := y]))
  {
    hide WellFormed, TreesOk, MemoOk, RewritesOk, AuxOk, ChecksOk, Later, StandsFor;
    var s' := s.(rewrites := s.rewrites[x := y]);
    RewriteLater(c, s, s');
    ChecksSame(c, s, s');
    RewriteTables(c, s, x, y);
    RewriteAux(c, s, s');
  }

  lemma RewriteTables(c: Config, s: State, x: Id, y: Id)
    requires TreesOk(c, s) && RewritesOk(c, s) && StandsFor(c, s, x, y)
    ensures var s' := s.(rewrites := s.rewrites[x := y]); TreesOk(c, s') && RewritesOk(c, s')
  {
    var s' := s.(rewrites := s.rewrites[x := y]);
    forall z | z in s.ops && s.ops[z].IsValue() ensures NodeOk(c, s', z) { assert NodeOk(c, s, z); }
    forall z | z in s'.rewrites ensures StandsFor(c, s', z, s'.rewrites[z]) {
      assert z != x ==> StandsFor(c, s, z, s.rewrites[z]);
    }
  }

  lemma RewriteAux(c: Config, s: State, s': State)
    requires AuxOk(c, s) && s' == s.(rewrites := s'.rewrites)
    ensures AuxOk(c, s')
  {
    forall k | 0 <= k < |s.aux| ensures AuxEntryOk(c, s', k) { assert AuxEntryOk(c, s, k); }
  }

  lemma RewriteLater(c: Config, s: State, s': State)
    requires s' == s.(rewrites := s'.rewrites)
    ensures Later(c, s, s')
  {}

  // ---------- factoring a value out into a generated member ----------

  /** Position `k` does not fall between a generated read and its equality. */
  ghost predicate Clear(s: State, k: nat) {
    forall j :: 0 <= j < |s.aux| && s.aux[j].auxValue in s.order ==> Pos(s.order, s.aux[j].auxValue) + 1 != k
  }

  ghost predicate FactorPre(c: Config, s: State, t: Id, k: nat) {
    && Inv(c, s) && t in s.ops && s.ops[t].IsValue() && t in s.order && Kept(c, s, t) && s.memo[t] >= 2
    && (c.noDiv ==> s.memo[t] <= c.maxDegree)
    && Pos(s.order, t) < k <= |s.order| && Clear(s, k)
  }

  ghost function FactoredOps(s: State, t: Id, k: nat, from: nat): map<Id, Op> {
    map x | x in s.ops :: if x in s.order && Pos(s.order, x) >= from then Subst(s.ops[x], t, s.nextId) else s.ops[x]
  }

  /** A read of a fresh member and its equality with `t` at `k`, and every use of `t` from position `from` on
      redirected. */
  ghost function Factored(s: State, t: Id, k: nat, from: nat): State
    requires k <= |s.order| && t in s.tree
  {
    var a, e := s.nextId, s.nextId + 1;
    s.(ops := FactoredOps(s, t, k, from)[a := Leaf(Member(Auxiliary(s.counter)))][e := Eq(a, t)],
       order := Insert(s.order, k, [a, e]), nextId := s.nextId + 2,
       memo := s.memo[a := 1], rewrites := s.rewrites[t := a],
       counter := s.counter + 1, aux := s.aux + [AuxAssignment(s.counter, t, a)],
       tree := s.tree[a := s.tree[t]], eqIds := s.eqIds + [e])
  }

  lemma FactoredOrder(s: State, t: Id, k: nat, from: nat)
    requires k <= from
    requires NoDup(s.order) && k <= |s.order| && t in s.tree
    requires forall x :: x in s.order ==> x < s.nextId
    ensures var order' := Factored(s, t, k, from).order;
            && NoDup(order')
            && (forall x :: x in order' <==> x in s.order || x == s.nextId || x == s.nextId + 1)
            && (forall x :: x in s.order ==> Pos(order', x) == Pos(s.order, x) + if Pos(s.order, x) < k then 0 else 2)
            && Pos(order', s.nextId) == k && Pos(order', s.nextId + 1) == k + 1
  {
    hide FactoredOps, Insert, Pos, NoDup;
    InsertPair(s.order, k, s.nextId, s.nextId + 1);
  }

  lemma FactoredWellFormed(s: State, t: Id, k: nat, from: nat)
    requires k <= from
    requires WellFormed(s.ops, s.order) && t in s.tree && k <= |s.order|
    requires forall x :: x in s.order ==> x < s.nextId
    requires t in s.ops && s.ops[t].IsValue() && Pos(s.order, t) < k
    ensures WellFormed(Factored(s, t, k, from).ops, Factored(s, t, k, from).order)
  {
    hide Insert, NoDup;
    FactoredOrder(s, t, k, from);
    var s' := Factored(s, t, k, from);
    forall x, y | x in s'.ops && y in Operands(s'.ops[x]) ensures UsesBefore(s'.ops, s'.order, x, y) {
      FactoredUse(s, t, k, from, x, y);
    }
  }

  lemma FactoredUse(s: State, t: Id, k: nat, from: nat, x: Id, y: Id)
    requires k <= from
    requires k <= |s.order| && t in s.tree && t in s.ops && t in s.order && s.ops[t].IsValue() && Pos(s.order, t) < k
    requires forall z :: z in s.order ==> z < s.nextId
    requires x in s.ops && x in s.order ==> forall z :: z in Operands(s.ops[x]) ==> UsesBefore(s.ops, s.order, x, z)
    requires x in s.ops ==> x in s.order
    requires x in Factored(s, t, k, from).ops && y in Operands(Factored(s, t, k, from).ops[x])
    requires var order' := Factored(s, t, k, from).order;
            && (forall x :: x in order' <==> x in s.order || x == s.nextId || x == s.nextId + 1)
            && (forall x :: x in s.order ==> Pos(order', x) == Pos(s.order, x) + if Pos(s.order, x) < k then 0 else 2)
            && Pos(order', s.nextId) == k && Pos(order', s.nextId + 1) == k + 1
    ensures UsesBefore(Factored(s, t, k, from).ops, Factored(s, t, k, from).order, x, y)
  {
    hide Insert;
    if x in s.ops {
      SubstOperands(s.ops[x], t, s.nextId);
      if y == s.nextId {
        assert Pos(s.order, x) >= k;
      } else {
        assert UsesBefore(s.ops, s.order, x, y);
      }
    }
  }

  lemma FactoredTrees(c: Config, s: State, t: Id, k: nat, from: nat)
    requires k <= from
    requires TreesOk(c, s) && s.counter == c.base + |s.aux|
    requires t in s.ops && s.ops[t].IsValue() && k <= |s.order|
    ensures t in s.tree && s.nextId !in s.tree && TreesOk(c, Factored(s, t, k, from))
  {
    assert NodeOk(c, s, t);
    var s' := Factored(s, t, k, from);
    forall x | x in s'.ops && s'.ops[x].IsValue() ensures NodeOk(c, s', x) {
      if x in s.ops { assert NodeOk(c, s, x); }
    }
  }

  lemma FactoredMemo(s: State, t: Id, k: nat, from: nat)
    requires k <= from
    requires MemoOk(s.ops, s.tree, s.memo) && k <= |s.order| && t in s.memo && s.memo[t] >= 1
    requires forall x :: x in s.tree ==> x < s.nextId
    requires forall x :: x in s.ops ==> x < s.nextId
    ensures t in s.tree
    ensures MemoOk(Factored(s, t, k, from).ops, Factored(s, t, k, from).tree, Factored(s, t, k, from).memo)
  {
    var s' := Factored(s, t, k, from);
    forall x | x in s'.memo && x in s'.ops ensures MemoNode(s'.ops[x], s'.memo, s'.memo[x]) {
      if x in s.ops { assert MemoNode(s.ops[x], s.memo, s.memo[x]); }
    }
  }

  lemma FactoredLater(c: Config, s: State, t: Id, k: nat, from: nat)
    requires k <= from
    requires MemoOk(s.ops, s.tree, s.memo) && k <= |s.order| && t in s.memo && s.memo[t] >= 1
    requires forall x :: x in s.tree ==> x < s.nextId
    requires forall x :: x in s.ops ==> x < s.nextId
    ensures t in s.tree && Later(c, s, Factored(s, t, k, from))
  {
    var s' := Factored(s, t, k, from);
    forall x | x in s.ops ensures x in s'.ops && SlotsKept(s.ops[x], s'.ops[x], s.memo, s'.memo) {}
  }

  lemma FactoredRewrites(c: Config, s: State, t: Id, k: nat, from: nat)
    requires k <= from
    requires RewritesOk(c, s) && k <= |s.order| && t in s.tree && t in s.ops && c.maxDegree >= 2
    requires forall x :: x in s.tree ==> x < s.nextId
    requires forall x :: x in s.ops ==> x < s.nextId
    requires Later(c, s, Factored(s, t, k, from))
    ensures RewritesOk(c, Factored(s, t, k, from))
  {
    var s' := Factored(s, t, k, from);
    forall x | x in s'.rewrites ensures StandsFor(c, s', x, s'.rewrites[x]) {
      if x != t {
        assert StandsFor(c, s, x, s.rewrites[x]);
        KeptLater(c, s, s', s.rewrites[x]);
      }
    }
  }

  lemma FactoredChecks(c: Config, s: State, t: Id, k: nat, from: nat)
    requires k <= from
    requires ChecksOk(c, s) && k <= |s.order| && t in s.tree
    requires forall x :: x in s.tree ==> x < s.nextId
    requires forall x :: x in s.ops ==> x < s.nextId
    ensures ChecksOk(c, Factored(s, t, k, from))
  {
    var s' := Factored(s, t, k, from);
    forall x | x in c.checks ensures x in s'.ops && !s'.ops[x].IsValue() && States(s'.ops[x], s'.tree, c.checks[x]) {
      assert States(s.ops[x], s.tree, c.checks[x]);
    }
    forall x | x in s'.ops && !s'.ops[x].IsValue() ensures x in c.checks || x in s'.eqIds {
      if x !in s.ops { assert s'.eqIds[|s.eqIds|] == x; }
    }
  }

  lemma FactoredAuxEntry(c: Config, s: State, t: Id, k: nat, from: nat, j: nat)
    requires k <= from
    requires k <= |s.order| && t in s.tree && t in s.memo && s.memo[t] >= 2
    requires j < |s.aux| && j < |s.eqIds| && AuxEntryOk(c, s, j) && Clear(s, k)
    requires MemoNode(s.ops[s.aux[j].auxValue], s.memo, s.memo[s.aux[j].auxValue])
    requires forall x :: x in s.tree ==> x < s.nextId
    requires forall x :: x in s.ops ==> x < s.nextId
    requires Later(c, s, Factored(s, t, k, from))
    requires forall x :: x in s.order ==> x in Factored(s, t, k, from).order
    requires forall x ::
        x in s.order ==> Pos(Factored(s, t, k, from).order, x) == Pos(s.order, x) + if Pos(s.order, x) < k then 0 else 2
    ensures AuxEntryOk(c, Factored(s, t, k, from), j)
  {
    hide Insert, Pos, FactoredOps, SlotsKept, Kept, NodeOk, Degree, IsAux;
    var s' := Factored(s, t, k, from);
    var a, e := s.aux[j], s.eqIds[j];
    KeptLater(c, s, s', a.computed);
    FactoredEq(c, s, t, k, from, e);
    FactoredComputed(c, s, t, k, from, a.computed);
    FactoredLeaf(c, s, t, k, from, a.auxValue);
  }

  /** An equality keeps its left side and states what it stated. */
  lemma FactoredEq(c: Config, s: State, t: Id, k: nat, from: nat, e: Id)
    requires k <= |s.order| && t in s.tree && t in s.memo && s.memo[t] >= 2 && e in s.ops && s.ops[e].Eq?
    requires e < s.nextId
    requires s.ops[e].lhs in s.memo && s.memo[s.ops[e].lhs] <= 1 && s.ops[e].rhs in s.memo && s.ops[e].rhs in s.tree
    requires s.ops[e].rhs < s.nextId && t < s.nextId && s.ops[e].lhs < s.nextId
    ensures var s' := Factored(s, t, k, from);
            && e in s'.ops && s'.ops[e].Eq? && s'.ops[e].lhs == s.ops[e].lhs
            && (s'.ops[e].rhs == s.ops[e].rhs || (s.ops[e].rhs == t && s'.ops[e].rhs == s.nextId))
            && s'.ops[e].rhs in s'.tree && s'.tree[s'.ops[e].rhs] == s.tree[s.ops[e].rhs] && s'.ops[e].rhs in s'.memo &&
              s'.memo[s'.ops[e].rhs] <= s.memo[s.ops[e].rhs]
  {
    hide Insert, Pos;
    assert Factored(s, t, k, from).ops[e] == FactoredOps(s, t, k, from)[e];
  }

  lemma FactoredComputed(c: Config, s: State, t: Id, k: nat, from: nat, x: Id)
    requires k <= |s.order| && t in s.tree && x in s.ops && (s.ops[x].Bin? || s.ops[x].Neg?) && x < s.nextId
    requires x in s.tree
    ensures var s' := Factored(s, t, k, from);
            x in s'.ops && (s'.ops[x].Bin? || s'.ops[x].Neg?) && x in s'.tree && s'.tree[x] == s.tree[x]
  {
    hide Insert, Pos;
    assert Factored(s, t, k, from).ops[x] == FactoredOps(s, t, k, from)[x];
  }

  lemma FactoredLeaf(c: Config, s: State, t: Id, k: nat, from: nat, x: Id)
    requires k <= |s.order| && t in s.tree && x in s.ops && s.ops[x].Leaf? && x < s.nextId && x in s.tree && x in s.memo
    ensures var s' := Factored(s, t, k, from);
            x in s'.ops && s'.ops[x] == s.ops[x] && x in s'.tree && s'.tree[x] == s.tree[x] && x in s'.memo &&
              s'.memo[x] == s.memo[x]
  {
    hide Insert, Pos;
    assert Factored(s, t, k, from).ops[x] == FactoredOps(s, t, k, from)[x];
  }

  lemma FactoredAux(c: Config, s: State, t: Id, k: nat, from: nat)
    requires k <= from
    requires AuxOk(c, s) && Clear(s, k) && MemoOk(s.ops, s.tree, s.memo) && NoDup(s.order)
    requires k <= |s.order| && t in s.tree && t in s.ops && Kept(c, s, t) && s.memo[t] >= 2 && NodeOk(c, s, t)
    requires c.noDiv ==> s.memo[t] <= c.maxDegree
    requires forall x :: x in s.tree ==> x < s.nextId
    requires forall x :: x in s.ops ==> x < s.nextId
    requires forall x :: x in s.order ==> x < s.nextId
    requires forall x :: x in c.checks ==> x < s.nextId
    requires Later(c, s, Factored(s, t, k, from))
    ensures AuxOk(c, Factored(s, t, k, from))
  {
    hide Later, NoDup, Insert;
    FactoredOrder(s, t, k, from);
    var s' := Factored(s, t, k, from);
    forall j | 0 <= j < |s'.aux| ensures AuxEntryOk(c, s', j) {
      if j < |s.aux| {
        assert AuxEntryOk(c, s, j);
        FactoredAuxEntry(c, s, t, k, from, j);
      } else {
        FactoredNewEntry(c, s, t, k, from);
      }
    }
  }

  lemma FactoredNewEntry(c: Config, s: State, t: Id, k: nat, from: nat)
    requires k <= from
    requires k <= |s.order| && t in s.tree && t in s.ops && Kept(c, s, t) && s.memo[t] >= 2
    requires MemoOk(s.ops, s.tree, s.memo)
    requires c.noDiv ==> s.memo[t] <= c.maxDegree
    requires s.counter == c.base + |s.aux| && |s.eqIds| == |s.aux| && NodeOk(c, s, t)
    requires forall x :: x in s.ops ==> x < s.nextId
    requires forall x :: x in c.checks ==> x < s.nextId
    requires Later(c, s, Factored(s, t, k, from))
    requires var order' := Factored(s, t, k, from).order;
        s.nextId in order' && s.nextId + 1 in order' && Pos(order', s.nextId) == k && Pos(order', s.nextId + 1) == k + 1
    ensures AuxEntryOk(c, Factored(s, t, k, from), |s.aux|)
  {
    hide Insert, Pos, FactoredOps, IsAux;
    var s' := Factored(s, t, k, from);
    KeptLater(c, s, s', t);
    assert MemoNode(s.ops[t], s.memo, s.memo[t]);
    assert SlotsKept(s.ops[t], s'.ops[t], s.memo, s'.memo);
  }

  /** Factoring keeps the invariant. */
  lemma FactorStep(c: Config, s: State, t: Id, k: nat, from: nat)
    requires k <= from
    requires FactorPre(c, s, t, k)
    ensures t in s.tree && Inv(c, Factored(s, t, k, from)) && Later(c, s, Factored(s, t, k, from))
    ensures StandsFor(c, Factored(s, t, k, from), t, s.nextId)
  {
    hide Clear, Pos, NoDup;
    assert NodeOk(c, s, t);
    FactoredLater(c, s, t, k, from);
    FactoredAux(c, s, t, k, from);
    FactoredWellFormed(s, t, k, from);
    FactoredTrees(c, s, t, k, from);
    FactoredMemo(s, t, k, from);
    FactoredRewrites(c, s, t, k, from);
    FactoredChecks(c, s, t, k, from);
    assert StandsFor(c, Factored(s, t, k, from), t, Factored(s, t, k, from).rewrites[t]);
  }

  /** Factoring is invisible from every operation behind it, except for the redirected uses. */
  lemma FactorFrame(c: Config, s: State, t: Id, k: nat, from: nat, use: Id)
    requires k <= from
    requires NoDup(s.order) && k <= |s.order| && t in s.tree
    requires forall x :: x in s.order ==> x < s.nextId
    requires forall x :: x in s.memo ==> x < s.nextId
    requires use in s.order && Pos(s.order, use) >= k
    ensures FrameFrom(s, Factored(s, t, k, from), use)
  {
    FactoredOrder(s, t, k, from);
    var s' := Factored(s, t, k, from);
    assert s'.order[Pos(s.order, use) + 2..] == s.order[Pos(s.order, use)..];
  }

  lemma FactorClear(c: Config, s: State, t: Id, k: nat, from: nat)
    requires k <= from
    requires NoDup(s.order) && k <= |s.order| && t in s.tree
    requires forall x :: x in s.order ==> x < s.nextId
    requires forall j :: 0 <= j < |s.aux| ==> s.aux[j].auxValue in s.order
    ensures Clear(s, k) ==> Clear(Factored(s, t, k, from), k + 2)
    ensures s.nextId in Factored(s, t, k, from).order && Pos(Factored(s, t, k, from).order, s.nextId) == k
  {
    FactoredOrder(s, t, k, from);
  }

  // ---------- replacing an over-degree product ----------

  /** The product of `l` and `r` at `k`, standing for `v` from now on. */
  ghost function WithMul(s: State, v: Id, l: Id, r: Id, k: nat): State
    requires k <= |s.order| && v in s.tree && l in s.memo && r in s.memo
  {
    var w := s.nextId;
    s.(ops := s.ops[w := Bin(MulK, l, r)], order := Insert(s.order, k, [w]), nextId := w + 1,
       memo := s.memo[w := s.memo[l] + s.memo[r]], rewrites := s.rewrites[v := w], tree := s.tree[w := s.tree[v]])
  }

  ghost predicate MulPre(c: Config, s: State, v: Id, l: Id, r: Id, k: nat) {
    && Inv(c, s) && k <= |s.order| && Clear(s, k)
    && l in s.memo && r in s.memo && s.memo[l] + s.memo[r] <= c.maxDegree
    && l in s.ops && s.ops[l].IsValue() && l in s.order && Pos(s.order, l) < k
    && r in s.ops && s.ops[r].IsValue() && r in s.order && Pos(s.order, r) < k
    && l in s.tree && r in s.tree && v in s.tree && s.tree[v] == EBin(MulK, s.tree[l], s.tree[r])
  }

  lemma WithMulOrder(s: State, v: Id, l: Id, r: Id, k: nat)
    requires NoDup(s.order) && k <= |s.order| && v in s.tree && l in s.memo && r in s.memo
    requires forall x :: x in s.order ==> x < s.nextId
    ensures var order' := WithMul(s, v, l, r, k).order;
            && NoDup(order')
            && (forall x :: x in order' <==> x in s.order || x == s.nextId)
            && (forall x :: x in s.order ==> Pos(order', x) == Pos(s.order, x) + if Pos(s.order, x) < k then 0 else 1)
            && Pos(order', s.nextId) == k
  {
    InsertPos(s.order, k, [s.nextId]);
    assert [s.nextId][0] == s.nextId;
  }

  lemma WithMulWellFormed(s: State, v: Id, l: Id, r: Id, k: nat)
    requires WellFormed(s.ops, s.order) && k <= |s.order| && v in s.tree && l in s.memo && r in s.memo
    requires forall x :: x in s.order ==> x < s.nextId
    requires l in s.ops && s.ops[l].IsValue() && Pos(s.order, l) < k
    requires r in s.ops && s.ops[r].IsValue() && Pos(s.order, r) < k
    ensures WellFormed(WithMul(s, v, l, r, k).ops, WithMul(s, v, l, r, k).order)
  {
    hide Insert, Pos, NoDup;
    WithMulOrder(s, v, l, r, k);
    var s' := WithMul(s, v, l, r, k);
    forall x, y | x in s'.ops && y in Operands(s'.ops[x]) ensures UsesBefore(s'.ops, s'.order, x, y) {
      if x != s.nextId { assert UsesBefore(s.ops, s.order, x, y); }
    }
  }

  lemma WithMulAux(c: Config, s: State, v: Id, l: Id, r: Id, k: nat)
    requires AuxOk(c, s) && Clear(s, k) && NoDup(s.order) && k <= |s.order| && v in s.tree && l in s.memo && r in s.memo
    requires forall x :: x in s.order ==> x < s.nextId
    requires forall x :: x in s.ops ==> x < s.nextId
    requires forall x :: x in s.tree ==> x < s.nextId
    requires forall x :: x in s.memo ==> x < s.nextId
    ensures AuxOk(c, WithMul(s, v, l, r, k))
  {
    WithMulOrder(s, v, l, r, k);
    var s' := WithMul(s, v, l, r, k);
    hide Insert, NoDup;
    forall j | 0 <= j < |s'.aux| ensures AuxEntryOk(c, s', j) {
      assert AuxEntryOk(c, s, j);
    }
  }

  lemma WithMulTables(c: Config, s: State, v: Id, l: Id, r: Id, k: nat)
    requires TreesOk(c, s) && MemoOk(s.ops, s.tree, s.memo) && k <= |s.order|
    requires l in s.memo && r in s.memo && s.memo[l] + s.memo[r] <= c.maxDegree
    requires l in s.tree && r in s.tree && v in s.tree && s.tree[v] == EBin(MulK, s.tree[l], s.tree[r])
    ensures var s' := WithMul(s, v, l, r, k); TreesOk(c, s') && MemoOk(s'.ops, s'.tree, s'.memo) && Later(c, s, s')
  {
    hide TreesOk, MemoOk, Later, WithMul;
    WithMulTrees(c, s, v, l, r, k);
    WithMulMemo(c, s, v, l, r, k);
    WithMulLater(c, s, v, l, r, k);
  }

  lemma WithMulTrees(c: Config, s: State, v: Id, l: Id, r: Id, k: nat)
    requires TreesOk(c, s) && MemoOk(s.ops, s.tree, s.memo) && k <= |s.order|
    requires l in s.memo && r in s.memo && s.memo[l] + s.memo[r] <= c.maxDegree
    requires l in s.tree && r in s.tree && v in s.tree && s.tree[v] == EBin(MulK, s.tree[l], s.tree[r])
    ensures TreesOk(c, WithMul(s, v, l, r, k))
  {
    hide MemoOk, MemoNode, Insert, Pure, IsAux, NodeOk, Degree;
    var s' := WithMul(s, v, l, r, k);
    forall x | x in s'.ops && s'.ops[x].IsValue() ensures NodeOk(c, s', x) {
      if x in s.ops { NodeWithMul(c, s, v, l, r, k, x); } else { NewMulNode(c, s, v, l, r, k); }
    }
  }

  lemma NodeWithMul(c: Config, s: State, v: Id, l: Id, r: Id, k: nat, x: Id)
    requires TreesOk(c, s) && k <= |s.order| && l in s.memo && r in s.memo && v in s.tree && x in s.ops
    requires s.ops[x].IsValue()
    ensures x in WithMul(s, v, l, r, k).ops && NodeOk(c, WithMul(s, v, l, r, k), x)
    ensures WithMul(s, v, l, r, k).ops[x] == s.ops[x]
  {
    hide Insert, Pure, Degree;
    assert NodeOk(c, s, x);
  }

  lemma NewMulNode(c: Config, s: State, v: Id, l: Id, r: Id, k: nat)
    requires k <= |s.order| && l in s.memo && r in s.memo && v in s.tree && l in s.tree && r in s.tree
    requires s.tree[v] == EBin(MulK, s.tree[l], s.tree[r])
    requires l != s.nextId && r != s.nextId && v != s.nextId
    ensures s.nextId in WithMul(s, v, l, r, k).ops && NodeOk(c, WithMul(s, v, l, r, k), s.nextId)
  {
    hide Insert, Pure, Degree, IsAux;
  }

  lemma WithMulMemo(c: Config, s: State, v: Id, l: Id, r: Id, k: nat)
    requires TreesOk(c, s) && MemoOk(s.ops, s.tree, s.memo) && k <= |s.order|
    requires l in s.memo && r in s.memo && s.memo[l] + s.memo[r] <= c.maxDegree
    requires l in s.tree && r in s.tree && v in s.tree && s.tree[v] == EBin(MulK, s.tree[l], s.tree[r])
    ensures var s' := WithMul(s, v, l, r, k); MemoOk(s'.ops, s'.tree, s'.memo)
  {
    hide Insert, Pure, IsAux, NodeOk;
    var s' := WithMul(s, v, l, r, k);
    forall x | x in s'.memo && x in s'.ops ensures MemoNode(s'.ops[x], s'.memo, s'.memo[x]) {
      if x in s.ops { assert MemoNode(s.ops[x], s.memo, s.memo[x]); }
    }
  }

  lemma WithMulLater(c: Config, s: State, v: Id, l: Id, r: Id, k: nat)
    requires TreesOk(c, s) && MemoOk(s.ops, s.tree, s.memo) && k <= |s.order|
    requires l in s.memo && r in s.memo && s.memo[l] + s.memo[r] <= c.maxDegree
    requires l in s.tree && r in s.tree && v in s.tree && s.tree[v] == EBin(MulK, s.tree[l], s.tree[r])
    ensures Later(c, s, WithMul(s, v, l, r, k))
  {
    hide MemoNode, Insert, Pure, IsAux, NodeOk;
  }

  lemma WithMulRefs(c: Config, s: State, v: Id, l: Id, r: Id, k: nat)
    requires RewritesOk(c, s) && ChecksOk(c, s) && k <= |s.order| && v in s.tree
    requires l in s.memo && r in s.memo && s.memo[l] + s.memo[r] <= c.maxDegree
    requires forall x :: x in s.tree ==> x < s.nextId
    requires forall x :: x in s.ops ==> x < s.nextId
    requires Later(c, s, WithMul(s, v, l, r, k))
    ensures var s' := WithMul(s, v, l, r, k); RewritesOk(c, s') && ChecksOk(c, s') && StandsFor(c, s', v, s.nextId)
  {
    var s' := WithMul(s, v, l, r, k);
    forall x | x in s'.rewrites ensures StandsFor(c, s', x, s'.rewrites[x]) {
      if x != v {
        assert StandsFor(c, s, x, s.rewrites[x]);
        KeptLater(c, s, s', s.rewrites[x]);
      }
    }
    assert StandsFor(c, s', v, s'.rewrites[v]);
    forall x | x in c.checks ensures x in s'.ops && !s'.ops[x].IsValue() && States(s'.ops[x], s'.tree, c.checks[x]) {
      assert States(s.ops[x], s.tree, c.checks[x]);
    }
  }

  lemma MulStep(c: Config, s: State, v: Id, l: Id, r: Id, k: nat)
    requires MulPre(c, s, v, l, r, k)
    ensures Inv(c, WithMul(s, v, l, r, k)) && Later(c, s, WithMul(s, v, l, r, k))
    ensures StandsFor(c, WithMul(s, v, l, r, k), v, s.nextId)
  {
    hide NoDup, Pos;
    WithMulAux(c, s, v, l, r, k);
    WithMulWellFormed(s, v, l, r, k);
    WithMulTables(c, s, v, l, r, k);
    WithMulRefs(c, s, v, l, r, k);
  }

  lemma MulFrame(s: State, v: Id, l: Id, r: Id, k: nat, use: Id)
    requires NoDup(s.order) && k <= |s.order| && v in s.tree && l in s.memo && r in s.memo
    requires forall x :: x in s.order ==> x < s.nextId
    requires forall x :: x in s.memo ==> x < s.nextId
    requires use in s.order && Pos(s.order, use) >= k
    ensures FrameFrom(s, WithMul(s, v, l, r, k), use)
  {
    WithMulOrder(s, v, l, r, k);
    assert WithMul(s, v, l, r, k).order[Pos(s.order, use) + 1..] == s.order[Pos(s.order, use)..];
  }

  /** Every use of `v` replaced by `w`, and `v` erased. */
  ghost function Retired(s: State, v: Id, w: Id): State
    requires v in s.order
  {
    s.(ops := map x | x in s.ops && x != v :: Subst(s.ops[x], v, w), order := Remove(s.order, Pos(s.order, v)))
  }

  ghost predicate RetirePre(c: Config, s: State, v: Id, w: Id) {
    && Inv(c, s) && v in s.ops && s.ops[v].IsMul() && v in s.order && v in s.memo && s.memo[v] > c.maxDegree
    && w in s.ops && s.ops[w].IsMul() && w in s.memo && s.memo[w] <= c.maxDegree
    && v in s.tree && w in s.tree && s.tree[w] == s.tree[v] && w in s.order
    && UsersBehind(s, v, Pos(s.order, w))
  }

  /** Every use of `v` is behind position `p`. */
  ghost predicate UsersBehind(s: State, v: Id, p: int) {
    forall x :: x in s.ops && v in Operands(s.ops[x]) ==> x in s.order && Pos(s.order, x) > p
  }

  lemma RetiredWellFormed(s: State, v: Id, w: Id)
    requires WellFormed(s.ops, s.order) && v in s.ops && w in s.ops && s.ops[w].IsValue() && v != w
    requires UsersBehind(s, v, Pos(s.order, w))
    ensures WellFormed(Retired(s, v, w).ops, Retired(s, v, w).order)
  {
    hide Remove, NoDup, UsersBehind;
    RemovePos(s.order, Pos(s.order, v));
    var s' := Retired(s, v, w);
    forall x, y | x in s'.ops && y in Operands(s'.ops[x]) ensures UsesBefore(s'.ops, s'.order, x, y) {
      RetiredUse(s, v, w, x, y);
    }
  }

  lemma RetiredUse(s: State, v: Id, w: Id, x: Id, y: Id)
    requires WellFormed(s.ops, s.order) && v in s.order && w in s.ops && w in s.order && s.ops[w].IsValue() && v != w
    requires UsersBehind(s, v, Pos(s.order, w))
    requires var s' := Retired(s, v, w); x in s'.ops && y in Operands(s'.ops[x])
    ensures var s' := Retired(s, v, w); UsesBefore(s'.ops, s'.order, x, y)
  {
    hide Remove, NoDup, WellFormed, Pos, Subst, Operands;
    Ordering(s.ops, s.order);
    SubstOperands(s.ops[x], v, w);
    if y in Operands(s.ops[x]) { WellFormedUse(s, x, y); }
    SubstValue(s.ops[y], v, w);
    StillBehind(s.order, v, x, y);
  }

  lemma SubstValue(op: Op, a: Id, b: Id)
    ensures Subst(op, a, b).IsValue() == op.IsValue()
  {}

  /** Removing one value keeps the order of the others. */
  lemma StillBehind(order: seq<Id>, v: Id, x: Id, y: Id)
    requires NoDup(order) && v in order && x in order && y in order && x != v && y != v && Pos(order, y) < Pos(order, x)
    ensures var order' := Remove(order, Pos(order, v)); x in order' && y in order' && Pos(order', y) < Pos(order', x)
  {
    hide Remove, NoDup;
    RemovePos(order, Pos(order, v));
  }

  lemma Ordering(ops: map<Id, Op>, order: seq<Id>)
    requires WellFormed(ops, order)
    ensures NoDup(order) && forall x :: x in ops <==> x in order
  {}

  lemma WellFormedUse(s: State, x: Id, y: Id)
    requires WellFormed(s.ops, s.order) && x in s.ops && y in Operands(s.ops[x])
    ensures UsesBefore(s.ops, s.order, x, y)
  {}

  lemma RetiredTables(c: Config, s: State, v: Id, w: Id)
    requires TreesOk(c, s) && MemoOk(s.ops, s.tree, s.memo)
    requires v in s.order && v in s.memo && w in s.memo && s.memo[w] <= s.memo[v]
    requires v in s.tree && w in s.tree && s.tree[w] == s.tree[v]
    ensures var s' := Retired(s, v, w); TreesOk(c, s') && MemoOk(s'.ops, s'.tree, s'.memo)
  {
    var s' := Retired(s, v, w);
    forall x | x in s'.ops && s'.ops[x].IsValue() ensures NodeOk(c, s', x) {
      assert NodeOk(c, s, x);
    }
    forall x | x in s'.memo && x in s'.ops ensures MemoNode(s'.ops[x], s'.memo, s'.memo[x]) {
      assert MemoNode(s.ops[x], s.memo, s.memo[x]);
    }
  }

  lemma RetiredLater(c: Config, s: State, v: Id, w: Id)
    requires v in s.order && v in s.ops && v in s.memo && w in s.memo && s.memo[w] <= s.memo[v]
    requires s.ops[v].IsMul() && s.memo[v] > c.maxDegree && v in s.tree && s.memo[v] <= Degree(s.tree[v])
    ensures Later(c, s, Retired(s, v, w))
  {
    var s' := Retired(s, v, w);
    forall x | x in s.ops && x in s'.ops ensures SlotsKept(s.ops[x], s'.ops[x], s.memo, s'.memo) {}
  }

  lemma RetiredRewrites(c: Config, s: State, v: Id, w: Id)
    requires RewritesOk(c, s) && v in s.order && v in s.ops && s.ops[v].IsMul()
    requires v in s.memo && s.memo[v] > c.maxDegree && Later(c, s, Retired(s, v, w))
    requires c.noDiv || forall x :: x in s.rewrites ==> s.rewrites[x] != v
    ensures RewritesOk(c, Retired(s, v, w))
  {
    var s' := Retired(s, v, w);
    forall x | x in s'.rewrites ensures StandsFor(c, s', x, s'.rewrites[x]) {
      assert StandsFor(c, s, x, s.rewrites[x]);
      KeptLater(c, s, s', s.rewrites[x]);
    }
  }

  lemma RetiredRefs(c: Config, s: State, v: Id, w: Id)
    requires RewritesOk(c, s) && ChecksOk(c, s) && v in s.order && v in s.ops && s.ops[v].IsMul()
    requires v in s.memo && s.memo[v] > c.maxDegree && v in s.tree && w in s.tree && s.tree[w] == s.tree[v]
    requires Later(c, s, Retired(s, v, w))
    requires c.noDiv || forall x :: x in s.rewrites ==> s.rewrites[x] != v
    ensures RewritesOk(c, Retired(s, v, w)) && ChecksOk(c, Retired(s, v, w))
  {
    hide RewritesOk, Later, Remove;
    RetiredRewrites(c, s, v, w);
    var s' := Retired(s, v, w);
    forall x | x in c.checks ensures x in s'.ops && !s'.ops[x].IsValue() && States(s'.ops[x], s'.tree, c.checks[x]) {
      assert States(s.ops[x], s.tree, c.checks[x]);
    }
  }

  lemma RetiredAuxEntry(c: Config, s: State, v: Id, w: Id, j: nat)
    requires v in s.order && j < |s.aux| && j < |s.eqIds| && AuxEntryOk(c, s, j) && Later(c, s, Retired(s, v, w))
    requires v in s.ops && s.ops[v].IsMul() && v in s.memo && s.memo[v] > c.maxDegree
    requires w in s.ops && s.ops[w].IsMul() && w in s.memo && s.memo[w] <= c.maxDegree
    requires v in s.tree && w in s.tree && s.tree[w] == s.tree[v]
    requires forall x :: x in s.order && x != v ==> x in Retired(s, v, w).order
    requires forall x :: x in s.order && x != v ==>
      Pos(Retired(s, v, w).order, x) == Pos(s.order, x) - if Pos(s.order, x) < Pos(s.order, v) then 0 else 1
    ensures AuxEntryOk(c, Retired(s, v, w), j)
  {
    var s' := Retired(s, v, w);
    hide Remove;
    var a, e := s.aux[j], s.eqIds[j];
    KeptLater(c, s, s', a.computed);
    assert SlotsKept(s.ops[e], s'.ops[e], s.memo, s'.memo);
    assert SlotsKept(s.ops[a.computed], s'.ops[a.computed], s.memo, s'.memo);
  }

  lemma RetiredAux(c: Config, s: State, v: Id, w: Id)
    requires v in s.order && AuxOk(c, s) && NoDup(s.order) && Later(c, s, Retired(s, v, w))
    requires v in s.ops && s.ops[v].IsMul() && v in s.memo && s.memo[v] > c.maxDegree
    requires w in s.ops && s.ops[w].IsMul() && w in s.memo && s.memo[w] <= c.maxDegree
    requires v in s.tree && w in s.tree && s.tree[w] == s.tree[v]
    ensures AuxOk(c, Retired(s, v, w))
  {
    RemovePos(s.order, Pos(s.order, v));
    hide Later, NoDup, Remove;
    var s' := Retired(s, v, w);
    forall j | 0 <= j < |s'.aux| ensures AuxEntryOk(c, s', j) {
      RetiredAuxEntry(c, s, v, w, j);
    }
  }

  lemma RetireStep(c: Config, s: State, v: Id, w: Id)
    requires RetirePre(c, s, v, w)
    ensures Inv(c, Retired(s, v, w)) && Later(c, s, Retired(s, v, w))
  {
    RetiredLater(c, s, v, w);
    assert c.noDiv || forall x :: x in s.rewrites ==> s.rewrites[x] != v by {
      forall x | x in s.rewrites ensures s.rewrites[x] != v { assert StandsFor(c, s, x, s.rewrites[x]); }
    }
    hide NoDup;
    RetiredRefs(c, s, v, w);
    RetiredAux(c, s, v, w);
    RetiredTables(c, s, v, w);
    RetiredWellFormed(s, v, w);
  }

  lemma RetireFrame(s: State, v: Id, w: Id, use: Id)
    requires NoDup(s.order) && v in s.order && use in s.order && Pos(s.order, use) > Pos(s.order, v)
    ensures FrameFrom(s, Retired(s, v, w), use)
  {
    RemovePos(s.order, Pos(s.order, v));
    assert Retired(s, v, w).order[Pos(s.order, use) - 1..] == s.order[Pos(s.order, use)..];
  }

  // ---------- setting operands in place ----------

  /** The operands of a sum, difference or negation set to lowered values. */
  ghost function Rerooted(s: State, v: Id, op: Op, d: nat): State {
    s.(ops := s.ops[v := op], memo := s.memo[v := d])
  }

  ghost predicate SameKind(op: Op, op': Op) {
    (op.Bin? && op'.Bin? && op.kind == op'.kind && (op.kind == AddK || op.kind == SubK)) || (op.Neg? && op'.Neg?)
  }

  ghost predicate RerootPre(c: Config, s: State, v: Id, op: Op, d: nat) {
    && Inv(c, s) && v in s.ops && SameKind(s.ops[v], op) && v in s.memo && d <= s.memo[v] && MemoNode(op, s.memo, d)
    && (forall y :: y in Operands(op) ==> UsesBefore(s.ops, s.order, v, y))
    && NodeOk(c, s.(ops := s.ops[v := op]), v)
  }

  lemma RerootedTables(c: Config, s: State, v: Id, op: Op, d: nat)
    requires RerootPre(c, s, v, op, d)
    ensures var s' := Rerooted(s, v, op, d);
        WellFormed(s'.ops, s'.order) && TreesOk(c, s') && MemoOk(s'.ops, s'.tree, s'.memo)
  {
    hide RewritesOk, AuxOk, ChecksOk, NoDup, WellFormed, NodeOk, MemoNode;
    RerootedUses(c, s, v, op, d);
    RerootedNodes(c, s, v, op, d);
    RerootedMemo(c, s, v, op, d);
  }

  lemma RerootedNodes(c: Config, s: State, v: Id, op: Op, d: nat)
    requires RerootPre(c, s, v, op, d)
    ensures TreesOk(c, Rerooted(s, v, op, d))
  {
    hide RewritesOk, AuxOk, ChecksOk, NoDup, WellFormed, MemoOk, MemoNode;
    var s' := Rerooted(s, v, op, d);
    forall x | x in s'.ops && s'.ops[x].IsValue() ensures NodeOk(c, s', x) {
      if x != v { assert NodeOk(c, s, x); }
    }
  }

  lemma RerootedMemo(c: Config, s: State, v: Id, op: Op, d: nat)
    requires RerootPre(c, s, v, op, d)
    ensures var s' := Rerooted(s, v, op, d); MemoOk(s'.ops, s'.tree, s'.memo)
  {
    hide RewritesOk, AuxOk, ChecksOk, NoDup, WellFormed, NodeOk, MemoNode, SameKind;
    var s' := Rerooted(s, v, op, d);
    forall x | x in s'.memo && x in s'.ops ensures MemoNode(s'.ops[x], s'.memo, s'.memo[x]) {
      MemoNodeLower(s'.ops[x], s.memo, s'.memo, s'.memo[x]);
    }
  }

  /** A memo entry still bounds the operation when the entries of its operands are lowered. */
  lemma MemoNodeLower(op: Op, memo: map<Id, nat>, memo': map<Id, nat>, d: nat)
    requires MemoNode(op, memo, d) && memo.Keys == memo'.Keys && forall x :: x in memo ==> memo'[x] <= memo[x]
    ensures MemoNode(op, memo', d)
  {
    if op.Bin? { assert memo'[op.l] <= memo[op.l] && memo'[op.r] <= memo[op.r]; }
  }

  lemma RerootedUses(c: Config, s: State, v: Id, op: Op, d: nat)
    requires RerootPre(c, s, v, op, d)
    ensures WellFormed(Rerooted(s, v, op, d).ops, s.order)
  {
    hide RewritesOk, AuxOk, ChecksOk, NoDup, TreesOk, MemoOk, NodeOk;
    var s' := Rerooted(s, v, op, d);
    forall x, y | x in s'.ops && y in Operands(s'.ops[x]) ensures UsesBefore(s'.ops, s'.order, x, y) {
      assert UsesBefore(s.ops, s.order, x, y);
    }
  }

  lemma RerootedRewrites(c: Config, s: State, v: Id, op: Op, d: nat)
    requires RewritesOk(c, s) && v in s.ops && SameKind(s.ops[v], op) && v in s.memo && d <= s.memo[v]
    ensures RewritesOk(c, Rerooted(s, v, op, d))
  {
    var s' := Rerooted(s, v, op, d);
    forall x | x in s'.rewrites ensures StandsFor(c, s', x, s'.rewrites[x]) {
      assert StandsFor(c, s, x, s.rewrites[x]);
    }
  }

  lemma RerootedAux(c: Config, s: State, v: Id, op: Op, d: nat)
    requires AuxOk(c, s) && v in s.ops && SameKind(s.ops[v], op) && v in s.memo && d <= s.memo[v]
    ensures AuxOk(c, Rerooted(s, v, op, d))
  {
    var s' := Rerooted(s, v, op, d);
    forall j | 0 <= j < |s'.aux| ensures AuxEntryOk(c, s', j) {
      assert AuxEntryOk(c, s, j);
    }
  }

  lemma RerootedChecks(c: Config, s: State, v: Id, op: Op, d: nat)
    requires ChecksOk(c, s) && v in s.ops && SameKind(s.ops[v], op)
    ensures ChecksOk(c, Rerooted(s, v, op, d))
  {
    var s' := Rerooted(s, v, op, d);
    forall x | x in c.checks ensures x in s'.ops && !s'.ops[x].IsValue() && States(s'.ops[x], s'.tree, c.checks[x]) {
      assert States(s.ops[x], s.tree, c.checks[x]);
    }
  }

  lemma RerootedRefs(c: Config, s: State, v: Id, op: Op, d: nat)
    requires RewritesOk(c, s) && AuxOk(c, s) && ChecksOk(c, s)
    requires v in s.ops && SameKind(s.ops[v], op) && v in s.memo && d <= s.memo[v]
    ensures var s' := Rerooted(s, v, op, d); RewritesOk(c, s') && AuxOk(c, s') && ChecksOk(c, s') && Later(c, s, s')
  {
    hide RewritesOk, AuxOk, ChecksOk;
    RerootedRewrites(c, s, v, op, d);
    RerootedAux(c, s, v, op, d);
    RerootedChecks(c, s, v, op, d);
  }

  lemma RerootStep(c: Config, s: State, v: Id, op: Op, d: nat)
    requires RerootPre(c, s, v, op, d)
    ensures Inv(c, Rerooted(s, v, op, d)) && Later(c, s, Rerooted(s, v, op, d))
    ensures forall use ::
        use in s.order && v in s.order && Pos(s.order, use) > Pos(s.order, v) ==>
        FrameFrom(s, Rerooted(s, v, op, d), use)
  {
    hide NoDup;
    RerootedRefs(c, s, v, op, d);
    RerootedTables(c, s, v, op, d);
  }

  /** An operand of a constraint replaced by a value that stands for it. */
  ghost predicate CheckPre(c: Config, s: State, x: Id, op: Op) {
    && Inv(c, s) && x in s.ops && x in c.checks && !s.ops[x].IsValue() && !op.IsValue()
    && (forall y :: y in Operands(op) ==> UsesBefore(s.ops, s.order, x, y))
    && States(op, s.tree, c.checks[x])
  }

  lemma CheckStep(c: Config, s: State, x: Id, op: Op)
    requires CheckPre(c, s, x, op)
    ensures Inv(c, s.(ops := s.ops[x := op]))
  {
    hide NoDup;
    var s' := s.(ops := s.ops[x := op]);
    CheckStepRefs(c, s, x, op);
    forall y, z | y in s'.ops && z in Operands(s'.ops[y]) ensures UsesBefore(s'.ops, s'.order, y, z) {
      assert UsesBefore(s.ops, s.order, y, z);
    }
    forall y | y in s'.ops && s'.ops[y].IsValue() ensures NodeOk(c, s', y) {
      assert NodeOk(c, s, y);
    }
    forall y | y in s'.memo && y in s'.ops ensures MemoNode(s'.ops[y], s'.memo, s'.memo[y]) {
      assert MemoNode(s.ops[y], s.memo, s.memo[y]);
    }
  }

  lemma CheckStepRefs(c: Config, s: State, x: Id, op: Op)
    requires RewritesOk(c, s) && AuxOk(c, s) && ChecksOk(c, s)
    requires x in s.ops && x in c.checks && !s.ops[x].IsValue() && !op.IsValue() && States(op, s.tree, c.checks[x])
    ensures var s' := s.(ops := s.ops[x := op]); RewritesOk(c, s') && AuxOk(c, s') && ChecksOk(c, s')
  {
    var s' := s.(ops := s.ops[x := op]);
    forall y | y in s'.rewrites ensures StandsFor(c, s', y, s'.rewrites[y]) {
      assert StandsFor(c, s, y, s.rewrites[y]);
    }
    forall j | 0 <= j < |s'.aux| ensures AuxEntryOk(c, s', j) {
      assert AuxEntryOk(c, s, j);
    }
    forall y | y in c.checks ensures y in s'.ops && !s'.ops[y].IsValue() && States(s'.ops[y], s'.tree, c.checks[y]) {
      assert States(s.ops[y], s.tree, c.checks[y]);
    }
  }
}
