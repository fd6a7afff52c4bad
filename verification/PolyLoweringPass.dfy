/** The pass object: the fields the lowering updates in place, and its methods. */
module PolyLoweringPass {
  import opened Ir
  import opened LoweringState
  import opened LoweringSteps
  import opened PolyLowering
  import opened LoweringFunction
  import opened LoweringEffects
  import opened LoweringThrift
  import opened LoweringMeaning
  import opened ConsumerLowering
  import opened CallArguments
  import opened StaleOperands

  class Pass {
    const maxDegree: nat
    var ops: map<Id, Op>
    var order: seq<Id>
    var nextId: Id
    var degreeMemo: map<Id, nat>
    var rewrites: map<Id, Id>
    var auxCounter: nat
    var auxAssignments: seq<AuxAssignment>
    ghost var tree: map<Id, Expr>
    ghost var eqIds: seq<Id>
    ghost const cfg: Config

    ghost function St(): State
      reads this
    {
      State(ops, order, nextId, degreeMemo, rewrites, auxCounter, auxAssignments, tree, eqIds)
    }

    ghost predicate Valid()
      reads this
    {
      cfg.maxDegree == maxDegree && Inv(cfg, St())
    }

    constructor (ops: map<Id, Op>, order: seq<Id>, nextId: Id, maxDegree: nat, auxCounter: nat)
      requires Lowerable(ops, order) && maxDegree >= 2 && forall x :: x in ops ==> x < nextId
      ensures Valid() && cfg == StartConfig(ops, order, maxDegree, auxCounter)
      ensures St() == StartState(ops, order, nextId, auxCounter)
    {
      this.ops, this.order, this.nextId, this.maxDegree, this.auxCounter := ops, order, nextId, maxDegree, auxCounter;
      degreeMemo, rewrites, auxAssignments := map[], map[], [];
      tree, eqIds, cfg := UnfoldAll(ops, order), [], StartConfig(ops, order, maxDegree, auxCounter);
      StartHolds(ops, order, nextId, maxDegree, auxCounter);
    }

    /** Where an operation stands in the block. */
    method Position(x: Id) returns (k: nat)
      requires Listed(ops, order, nextId) && x in order
      ensures k < |order| && order[k] == x && k == Pos(order, x)
    {
      k := 0;
      while order[k] != x
        invariant k < |order| && forall j :: 0 <= j < k ==> order[j] != x
        decreases |order| - k
      {
        NotLast(order, x, k);
        k := k + 1;
      }
    }

    method Dominates(x: Id, useOp: Id) returns (b: bool)
      requires Valid() && x in order && useOp in order
      ensures b <==> Pos(order, x) < Pos(order, useOp)
    {
      assert Listed(ops, order, nextId);
      var i := Position(x);
      var j := Position(useOp);
      b := i < j;
    }

    method Degree(x: Id) returns (d: nat)
      requires Valid() && x in ops && ops[x].IsValue()
      modifies this`degreeMemo
      ensures Valid() && x in degreeMemo && d == degreeMemo[x]
      ensures x in old(degreeMemo) ==> degreeMemo == old(degreeMemo)
      ensures degreeMemo == Measured(ops, tree, x, old(degreeMemo))
      ensures St() == old(St()).(memo := degreeMemo) && Later(cfg, old(St()), St())
      ensures forall use :: use in order ==> FrameFrom(old(St()), St(), use)
    {
      hide Inv, MemoOk, Measured, WellFormed, Later;
      var memo;
      InvFacts(cfg, St());
      d, memo := GetDegree(ops, x, degreeMemo, cfg, St());
      MemoGrow(cfg, St(), memo);
      degreeMemo := memo;
    }

    method CacheIdentityIfAbsent(v: Id)
      requires Valid() && StandsFor(cfg, St(), v, v)
      modifies this`rewrites
      ensures St() == Cached(old(St()), v)
      ensures Valid() && Later(cfg, old(St()), St())
      ensures forall use :: use in order ==> FrameFrom(old(St()), St(), use)
    {
      if v !in rewrites {
        RewriteSet(cfg, St(), v, v);
        hide Inv;
        rewrites := rewrites[v := v];
      } else {
        LaterRefl(cfg, St());
      }
    }

    /** The operands of `v` set to `lhs` and `rhs`, each only if it is a different value. */
    method SetOperands(v: Id, lhs: Id, rhs: Id)
      requires v in ops && ops[v].Bin?
      modifies this`ops
      ensures ops == old(ops)[v := Bin(old(ops)[v].kind, lhs, rhs)]
    {
      if lhs != ops[v].l {
        ops := ops[v := ops[v].(l := lhs)];
      }
      if rhs != ops[v].r {
        ops := ops[v := ops[v].(r := rhs)];
      }
    }

    /** Degree-neutral roots can still contain over-degree operands: lower both in place. */
    method LowerBinaryRoot(v: Id, ghost useOp: Id)
      requires Valid() && Available(St(), v, useOp) && v in ops && v in degreeMemo && degreeMemo[v] > maxDegree
      requires ops[v].Bin? && (ops[v].kind == AddK || ops[v].kind == SubK)
      modifies this
      ensures Valid() && Lowered(cfg, old(St()), St(), v, v, useOp) && Next(St(), v) == LowerRoot(cfg, old(St()), v)
      ensures Careful(cfg, old(St()), St(), v)
      decreases if v in tree then Size(tree[v]) else 0, 0
    {
      ghost var s0 := St();
      hide Inv, Lowered, Available, BothLowered, RerootPre, Ext, Careful, Lower, LowerBoth, LowerRoot, Rooted, Rebuilt,
          Cached, StandsFor, Later, FrameFrom, Size, Kept;
      FirstOperand(cfg, s0, v, useOp);
      var lhs := LowerExpression(ops[v].l, v);
      ghost var s1 := St();
      SecondOperand(cfg, s0, s1, v, useOp, lhs);
      var rhs := LowerExpression(ops[v].r, v);
      ghost var s2 := St();
      assert BothLowered(cfg, s0, s1, s2, v, lhs, rhs) by { BothLoweredIntro(cfg, s0, s1, s2, v, lhs, rhs); }
      RootFacts(cfg, s0, s1, s2, v, lhs, rhs, useOp);
      BothIs(cfg, s0, s1, s2, v, lhs, rhs, useOp);
      SumIs(cfg, s0, v, Pair(s2, lhs, rhs));
      CarefulBoth(cfg, s0, s1, s2, v, lhs, rhs);
      ghost var op := Bin(s0.ops[v].kind, lhs, rhs);
      SetOperands(v, lhs, rhs);
      assert St() == Rerooted(s2, v, op, s2.memo[v]);
      RootLowered(cfg, s0, s2, v, op, s2.memo[v], useOp);
      var dl := Degree(lhs);
      var dr := Degree(rhs);
      degreeMemo := degreeMemo[v := Max(dl, dr)];
      assert St() == Rerooted(s2, v, op, Max(dl, dr));
      RootLowered(cfg, s0, s2, v, op, Max(dl, dr), useOp);
      ghost var s3 := St();
      RootedIs(Pair(s2, lhs, rhs), v, op, s3);
      CacheIdentityIfAbsent(v);
      RootCached(cfg, s0, s3, St(), v, useOp);
      CarefulRooted(cfg, s0, s2, v, op, Max(dl, dr), St());
    }

    method LowerNegation(v: Id, ghost useOp: Id)
      requires Valid() && Available(St(), v, useOp) && v in ops && v in degreeMemo && degreeMemo[v] > maxDegree
      requires ops[v].Neg?
      modifies this
      ensures Valid() && Lowered(cfg, old(St()), St(), v, v, useOp) && Next(St(), v) == LowerRoot(cfg, old(St()), v)
      ensures Careful(cfg, old(St()), St(), v)
      decreases if v in tree then Size(tree[v]) else 0, 0
    {
      ghost var s0 := St();
      hide Inv, Lowered, Available, RerootPre, Ext, Careful, Lower, LowerRoot, Cached, StandsFor, Later, FrameFrom,
          Size,
          Kept;
      FirstOperand(cfg, s0, v, useOp);
      var operand := LowerExpression(ops[v].x, v);
      ghost var s2 := St();
      NegFacts(cfg, s0, s2, v, operand, useOp);
      CarefulOperand(cfg, s0, s2, v, 0);
      if operand != ops[v].x {
        ops := ops[v := Neg(operand)];
      }
      assert St() == Rerooted(s2, v, Neg(operand), s2.memo[v]);
      RootLowered(cfg, s0, s2, v, Neg(operand), s2.memo[v], useOp);
      var d := Degree(operand);
      degreeMemo := degreeMemo[v := d];
      assert St() == Rerooted(s2, v, Neg(operand), d);
      RootLowered(cfg, s0, s2, v, Neg(operand), d, useOp);
      ghost var s3 := St();
      NegIs(cfg, s0, s2, v, operand, useOp, s3);
      CacheIdentityIfAbsent(v);
      RootCached(cfg, s0, s3, St(), v, useOp);
      CarefulRooted(cfg, s0, s2, v, Neg(operand), d, St());
    }

    /** Every use of `oldVal` behind `afterOp` now reads `newVal`. */
    method ReplaceSubsequentUsesWith(oldVal: Id, newVal: Id, afterOp: Id)
      requires Listed(ops, order, nextId) && afterOp in order
      modifies this`ops
      ensures ops == ReplacedBehind(old(ops), order, oldVal, newVal, afterOp)
    {
      var i := 0;
      var behind := false;
      while i < |order|
        invariant 0 <= i <= |order| && behind == (i > Pos(order, afterOp))
        invariant ops == map x | x in old(ops) ::
            if Pos(order, afterOp) < Pos(order, x) < i then Subst(old(ops)[x], oldVal, newVal) else old(ops)[x]
      {
        var user := order[i];
        assert user in order;
        if behind {
          ops := ops[user := Subst(ops[user], oldVal, newVal)];
        }
        behind := behind || user == afterOp;
        i := i + 1;
      }
    }

    /** Every use of `oldVal` now reads `newVal`. */
    method ReplaceAllUsesWith(oldVal: Id, newVal: Id)
      requires Listed(ops, order, nextId)
      modifies this`ops
      ensures ops == ReplacedAll(old(ops), oldVal, newVal)
    {
      var i := 0;
      while i < |order|
        invariant 0 <= i <= |order|
        invariant ops == map x | x in old(ops) :: if Pos(order, x) < i then Subst(old(ops)[x], oldVal, newVal)
            else old(ops)[x]
      {
        var user := order[i];
        assert user in order;
        ops := ops[user := Subst(ops[user], oldVal, newVal)];
        i := i + 1;
      }
    }

    /** A generated member for `t` at `k`: its read and its defining equality. */
    method NameBefore(t: Id, k: nat) returns (auxVal: Id)
      requires k <= |order| && t in tree && Listed(ops, order, nextId)
      modifies this
      ensures St() == Factored(old(St()), t, k, |old(order)|) && auxVal == old(nextId)
    {
      assert FactoredOps(St(), t, k, |order|) == ops;
      hide Insert, FactoredOps, Listed;
      var auxName := auxCounter;
      auxCounter := auxCounter + 1;
      auxVal := nextId;
      var eqOp := nextId + 1;
      nextId := nextId + 2;
      order := Insert(order, k, [auxVal, eqOp]);
      ops := ops[auxVal := Leaf(Member(Auxiliary(auxName)))][eqOp := Eq(auxVal, t)];
      auxAssignments := auxAssignments + [AuxAssignment(auxName, t, auxVal)];
      rewrites := rewrites[t := auxVal];
      degreeMemo := degreeMemo[auxVal := 1];
      tree := tree[auxVal := tree[t]];
      eqIds := eqIds + [eqOp];
    }

    /** Name `t` at `k` and redirect the later uses of `t` to the new member's read. */
    method FactorOut(t: Id, k: nat) returns (auxVal: Id)
      requires Listed(ops, order, nextId) && k <= |order| && t in tree
      modifies this
      ensures St() == Factored(old(St()), t, k, k) && auxVal == old(nextId)
    {
      FactorOutOps(St(), t, k);
      hide Listed, Insert, ReplacedBehind, FactoredOps, Factored;
      auxVal := NameBefore(t, k);
      ghost var s := St();
      ReplaceSubsequentUsesWith(t, auxVal, auxVal + 1);
      assert St() == s.(ops := ops);
    }

    /** The new product of `lhs` and `rhs`, at `k`. */
    method BuildProduct(v: Id, lhs: Id, rhs: Id, k: nat) returns (mulVal: Id)
      requires k <= |order| && v in tree
      requires lhs in degreeMemo && rhs in degreeMemo && degreeMemo[lhs] + degreeMemo[rhs] < UNSIGNED_RANGE
      modifies this
      ensures mulVal == old(nextId) && St() == WithMul(old(St()), v, lhs, rhs, k)
    {
      hide Insert;
      mulVal := nextId;
      nextId := nextId + 1;
      order := Insert(order, k, [mulVal]);
      ops := ops[mulVal := Bin(MulK, lhs, rhs)];
      tree := tree[mulVal := tree[v]];
      degreeMemo := degreeMemo[mulVal := (degreeMemo[lhs] + degreeMemo[rhs]) % UNSIGNED_RANGE];
      rewrites := rewrites[v := mulVal];
    }

    /** `v` replaced by `w` everywhere, and erased. */
    method ReplaceAndErase(v: Id, w: Id)
      requires Listed(ops, order, nextId) && v in order
      modifies this`ops, this`order
      ensures St() == Retired(old(St()), v, w)
    {
      RetireOps(St(), v, w);
      hide Listed, Remove, ReplacedAll;
      ReplaceAllUsesWith(v, w);
      assert Listed(ops, order, nextId) by { AllListed(old(ops), order, nextId, v, w); }
      var i := Position(v);
      ops := ops - {v};
      order := Remove(order, i);
    }

    /** Lower both sides, take them apart until the product of both fits the bound, and build the product
        anew right behind the old one. */
    method LowerProduct(v: Id, ghost useOp: Id) returns (mulVal: Id)
      requires Valid() && Available(St(), v, useOp) && v in ops && v in degreeMemo && degreeMemo[v] > maxDegree
      requires ops[v].IsMul()
      modifies this
      ensures Valid() && Lowered(cfg, old(St()), St(), v, mulVal, useOp)
      ensures Next(St(), mulVal) == LowerRoot(cfg, old(St()), v)
      ensures Careful(cfg, old(St()), St(), v)
      decreases if v in tree then Size(tree[v]) else 0, 0
    {
      ghost var s0 := St();
      hide Inv, Lowered, Available, BothLowered, Careful, NonlinearProduct, Lower, LowerBoth, LowerRoot, Rebuilt, Fit,
          Finished, ProductPoint, FactorPre, Factored, WithMul, Retired, Listed, Ext, StandsFor, Later, FrameFrom, Size,
          Kept;
      FirstOperand(cfg, s0, v, useOp);
      var lhs := LowerExpression(ops[v].l, v);
      ghost var s1 := St();
      SecondOperand(cfg, s0, s1, v, useOp, lhs);
      var rhs := LowerExpression(ops[v].r, v);
      ghost var s2 := St();
      BothLoweredIntro(cfg, s0, s1, s2, v, lhs, rhs);
      BothIs(cfg, s0, s1, s2, v, lhs, rhs, useOp);
      MulIs(cfg, s0, v, Pair(s2, lhs, rhs));
      CarefulBoth(cfg, s0, s1, s2, v, lhs, rhs);
      ProductStart(cfg, s0, s1, s2, v, lhs, rhs, useOp);
      var k := PointBehind(v, s0, lhs, rhs, useOp);
      ProductDegrees(cfg, s0, s2, v, lhs, rhs, k, useOp);
      var lhsDeg := Degree(lhs);
      var rhsDeg := Degree(rhs);
      var eraseMul := Plus(lhsDeg, rhsDeg) > maxDegree;
      ghost var b := Pair(s2, lhs, rhs);
      if eraseMul && cfg.noDiv {
        BothNonconstant(cfg, s0, s2, v, lhs, rhs, k, useOp);
      }
      if lhs == rhs && eraseMul {
        // factor a square only once
        ProductFactored(cfg, s0, St(), v, lhs, rhs, k, useOp, lhs);
        CarefulFactored(cfg, s0, St(), v, lhs, rhs, k, useOp, lhs);
        var auxVal := FactorOut(lhs, k);
        lhs, rhs, k := auxVal, auxVal, k + 2;
        lhsDeg, rhsDeg := 1, 1;
        ProductDegrees(cfg, s0, St(), v, lhs, rhs, k, useOp);
      }
      ghost var f := Fit(cfg, St(), lhs, rhs, k);
      RebuiltIs(cfg, b, v, Pos(s2.order, v) + 1, eraseMul, f);
      lhs, rhs, k := FactorSides(v, lhs, rhs, lhsDeg, rhsDeg, k, s0, useOp);
      mulVal := RebuildProduct(v, lhs, rhs, k, eraseMul, s0, useOp);
    }

    /** Factor out the larger side while the product is over the bound. */
    method FactorSides(v: Id, lhs0: Id, rhs0: Id, lhsDeg0: nat, rhsDeg0: nat, k0: nat, ghost s0: State, ghost useOp: Id)
      returns (lhs: Id, rhs: Id, k: nat)
      requires Valid() && ProductPoint(cfg, s0, St(), v, lhs0, rhs0, k0, useOp) && Careful(cfg, s0, St(), v)
      requires lhs0 in degreeMemo && degreeMemo[lhs0] == lhsDeg0 && rhs0 in degreeMemo && degreeMemo[rhs0] == rhsDeg0
      modifies this
      ensures Valid() && ProductPoint(cfg, s0, St(), v, lhs, rhs, k, useOp) && Careful(cfg, s0, St(), v)
      ensures Fit(cfg, old(St()), lhs0, rhs0, k0) == (Pair(St(), lhs, rhs), k)
      ensures lhs in degreeMemo && rhs in degreeMemo && degreeMemo[lhs] + degreeMemo[rhs] <= maxDegree
    {
      hide Inv, Careful, Fit, ProductPoint, FactorPre, Factored, Listed, Later, FrameFrom;
      ghost var f := Fit(cfg, St(), lhs0, rhs0, k0);
      lhs, rhs, k := lhs0, rhs0, k0;
      var lhsDeg, rhsDeg := lhsDeg0, rhsDeg0;
      while Plus(lhsDeg, rhsDeg) > maxDegree
        invariant Valid() && ProductPoint(cfg, s0, St(), v, lhs, rhs, k, useOp)
        invariant lhs in degreeMemo && lhsDeg == degreeMemo[lhs] && rhs in degreeMemo && rhsDeg == degreeMemo[rhs]
        invariant Fit(cfg, St(), lhs, rhs, k) == f && Careful(cfg, s0, St(), v)
        decreases lhsDeg + rhsDeg
      {
        ghost var s := St();
        ProductDegrees(cfg, s0, s, v, lhs, rhs, k, useOp);
        FitStep(cfg, s, lhs, rhs, k);
        if lhsDeg >= rhsDeg {
          ProductFactored(cfg, s0, s, v, lhs, rhs, k, useOp, lhs);
          CarefulFactored(cfg, s0, s, v, lhs, rhs, k, useOp, lhs);
          lhs := FactorOut(lhs, k);
        } else {
          ProductFactored(cfg, s0, s, v, lhs, rhs, k, useOp, rhs);
          CarefulFactored(cfg, s0, s, v, lhs, rhs, k, useOp, rhs);
          rhs := FactorOut(rhs, k);
        }
        k := k + 2;
        ProductDegrees(cfg, s0, St(), v, lhs, rhs, k, useOp);
        lhsDeg := Degree(lhs);
        rhsDeg := Degree(rhs);
      }
      ProductDegrees(cfg, s0, St(), v, lhs, rhs, k, useOp);
      FitStep(cfg, St(), lhs, rhs, k);
    }

    /** The product of both sides, right behind `v` and its factored sides, and `v` erased if it was over the bound. */
    method RebuildProduct(v: Id, lhs: Id, rhs: Id, k: nat, eraseMul: bool, ghost s0: State, ghost useOp: Id)
      returns (mulVal: Id)
      requires Valid() && ProductPoint(cfg, s0, St(), v, lhs, rhs, k, useOp) && Careful(cfg, s0, St(), v)
      requires lhs in degreeMemo && rhs in degreeMemo && degreeMemo[lhs] + degreeMemo[rhs] <= maxDegree && v in s0.tree
      requires eraseMul && cfg.noDiv ==> NonlinearProduct(s0.tree[v])
      modifies this
      ensures Valid() && Lowered(cfg, s0, St(), v, mulVal, useOp) && Careful(cfg, s0, St(), v)
      ensures Next(St(), mulVal) == Finished((Pair(old(St()), lhs, rhs), k), v, eraseMul)
    {
      hide Inv, Lowered, Careful, NonlinearProduct, Finished, ProductPoint, WithMul, Retired, Listed, Later, FrameFrom;
      ghost var s := St();
      ProductDegrees(cfg, s0, s, v, lhs, rhs, k, useOp);
      FinishedIs((Pair(s, lhs, rhs), k), v, eraseMul, WithMul(s, v, lhs, rhs, k));
      ProductBuilt(cfg, s0, s, v, lhs, rhs, k, useOp);
      CarefulBuilt(cfg, s0, s, v, lhs, rhs, k, useOp);
      WithMulListed(s, v, lhs, rhs, k);
      mulVal := BuildProduct(v, lhs, rhs, k);
      if eraseMul {
        ProductRetired(cfg, s0, s, v, lhs, rhs, k, useOp);
        ReplaceAndErase(v, mulVal);
      }
    }

    /** The insertion point right behind `v`. */
    method PointBehind(v: Id, ghost s0: State, ghost lhs: Id, ghost rhs: Id, ghost useOp: Id) returns (k: nat)
      requires v in order && ProductPoint(cfg, s0, St(), v, lhs, rhs, Pos(order, v) + 1, useOp)
      ensures k == Pos(order, v) + 1
    {
      ProductDegrees(cfg, s0, St(), v, lhs, rhs, Pos(order, v) + 1, useOp);
      k := Position(v);
      k := k + 1;
    }

    /** A value that stands for `v`, within the degree bound, available at `useOp`. */
    method LowerExpression(v: Id, useOp: Id) returns (r: Id)
      requires Valid() && Available(St(), v, useOp)
      modifies this
      ensures Valid() && Lowered(cfg, old(St()), St(), v, r, useOp) && Next(St(), r) == Lower(cfg, old(St()), v, useOp)
      ensures Careful(cfg, old(St()), St(), v)
      decreases if v in tree then Size(tree[v]) else 0, 1
    {
      hide Inv, Lowered, Ext, StandsFor, Later, FrameFrom, Size, Kept, Lower, LowerRoot, Cached, Measured, Careful;
      ghost var s0 := St();
      ValueTree(cfg, s0, v, useOp);
      if v in rewrites {
        RewriteThere(cfg, s0, v);
        var dominates := Dominates(rewrites[v], useOp);
        if dominates {
          CachedLowered(cfg, s0, v, useOp);
          HitIs(cfg, s0, v, useOp);
          CarefulSame(cfg, s0, s0, v);
          return rewrites[v];
        }
      }
      var degree := Degree(v);
      ghost var s1 := St();
      MissIs(cfg, s0, s1, v, useOp);
      if degree <= maxDegree {
        SelfLowered(cfg, s0, s1, v, useOp);
        CacheIdentityIfAbsent(v);
        RootCached(cfg, s0, s1, St(), v, useOp);
        CarefulSelf(cfg, s0, s1, St(), v, v, useOp);
        return v;
      }
      Roots(cfg, s1, v);
      if ops[v].Bin? && (ops[v].kind == AddK || ops[v].kind == SubK) {
        LowerBinaryRoot(v, useOp);
        r := v;
      } else if ops[v].Neg? {
        LowerNegation(v, useOp);
        r := v;
      } else if ops[v].IsMul() {
        r := LowerProduct(v, useOp);
      } else {
        // unsupported roots are left unchanged
        OtherIs(cfg, s1, v);
        SelfLowered(cfg, s0, s1, v, useOp);
        CacheIdentityIfAbsent(v);
        RootCached(cfg, s0, s1, St(), v, useOp);
        CarefulSelf(cfg, s0, s1, St(), v, v, useOp);
        return v;
      }
      LoweredFrom(cfg, s0, s1, St(), v, r, useOp);
      CarefulFrom(cfg, s0, s1, St(), v, r, useOp);
    }

    // ---------- the equalities of a body ----------

    /** Lower one side of a source equality if its degree, as last looked up, is over the bound. */
    method LowerSide(x: Id, left: bool, degree: nat)
      requires Valid() && x in cfg.checks && SideWithin(St(), x, left, degree)
      modifies this
      ensures Valid() && Touched(cfg, old(St()), St(), x) && TameKept(cfg, old(St()), St())
      ensures x in ops && ops[x].Eq? && Side(ops[x], left) in degreeMemo
      ensures (cfg.noDiv ==> SideWithin(St(), x, left, maxDegree))
      ensures SideNoWorse(old(St()), St(), x, !left)
      ensures x in old(ops) && old(ops)[x].Eq? && St() == LoweredSide(cfg, old(St()), x, left, degree)
      ensures OnlyNeeded(cfg, old(St()), St())
    {
      hide Inv, Lowered, Available, LaterExcept, Later, FrameFrom, SideWithin, SideNoWorse, Gentle, Tame, Careful,
          OnlyNeeded, Stated, Lower;
      ghost var s0 := St();
      SideThere(s0, x, left, degree, maxDegree);
      SideAvailable(cfg, s0, x, left);
      if degree > maxDegree {
        var r := LowerExpression(Side(ops[x], left), x);
        ghost var s1, v := St(), Side(s0.ops[x], left);
        SideSet(cfg, s0, s1, x, left, r);
        CarefulParts(cfg, s0, s1, v);
        SideStated(cfg, s0, x, left);
        NeededFor(cfg, s0, s1, s1.(ops := s1.ops[x := WithSide(s1.ops[x], left, r)]), v, r, x, x);
        TameSide(cfg, s0, St(), x, left, Side(s0.ops[x], left), r);
        ops := ops[x := WithSide(ops[x], left, r)];
      } else {
        LaterRefl(cfg, s0);
        FrameRefl(s0, x);
        TouchedBy(cfg, s0, s0, x);
        TameRefl(cfg, s0);
        NeededSame(cfg, s0, s0);
      }
    }

    /** Lower the over-degree sides of one source equality. */
    method LowerEquality(x: Id)
      requires Valid() && x in ops && ops[x].Eq? && x in cfg.checks
      modifies this
      ensures Valid() && Touched(cfg, old(St()), St(), x) && TameKept(cfg, old(St()), St())
      ensures x in ops && EqLow(cfg, St(), x) && OnlyNeeded(cfg, old(St()), St())
      ensures SidesFit(cfg, old(St()), x) ==> Untouched(old(St()), St())
      ensures St() == LoweredEquality(cfg, old(St()), x)
    {
      hide Inv, Available, Later, FrameFrom, Touched, NoDup, EqLow, SideNoWorse, SideWithin, Listed, Tame, OnlyNeeded,
          LoweredSide;
      ghost var s0 := St();
      SideAvailable(cfg, s0, x, true);
      SideAvailable(cfg, s0, x, false);
      var degreeLhs := Degree(ops[x].lhs);
      ghost var s1 := St();
      TouchedBy(cfg, s0, s1, x);
      TameMemo(cfg, s0, s1);
      var degreeRhs := Degree(ops[x].rhs);
      ghost var s2 := St();
      TouchedBy(cfg, s1, s2, x);
      TameMemo(cfg, s1, s2);
      TouchedTrans(cfg, s0, s1, s2, x);
      SideMemo(s1, x, true);
      SideMemo(s2, x, false);
      SideLater(s1, s2, x, true, degreeLhs);
      LowerSide(x, true, degreeLhs);
      ghost var s3 := St();
      TouchedTrans(cfg, s0, s2, s3, x);
      SideLater(s2, s3, x, false, degreeRhs);
      LowerSide(x, false, degreeRhs);
      ghost var s4 := St();
      TouchedTrans(cfg, s0, s3, s4, x);
      BothSidesLow(cfg, s3, s4, x);
      NeededSame(cfg, s0, s2);
      NeededTrans(cfg, s0, s2, s3);
      NeededTrans(cfg, s0, s3, s4);
      if SidesFit(cfg, s0, x) {
        DegreeKnown(cfg, s1, s0.ops[x].lhs);
        DegreeKnown(cfg, s2, s0.ops[x].rhs);
        SideLeft(cfg, s2, x, true, degreeLhs);
        SideLeft(cfg, s3, x, false, degreeRhs);
      }
    }

    /** Lower every equality of the body, first to last. */
    method LowerEqualities()
      requires Valid() && eqIds == []
      modifies this
      ensures Valid() && AllEqLow(cfg, St()) && TameKept(cfg, old(St()), St())
      ensures (forall x :: x in old(ops) ==> !old(ops)[x].Eq?) ==> St() == old(St())
      ensures OnlyNeeded(cfg, old(St()), St()) && (EqualitiesFit(cfg, old(St())) ==> Untouched(old(St()), St()))
    {
      var i: nat := 0;
      ghost var s0 := St();
      assert OnlyChecksFrom(cfg, St(), 0);
      TameRefl(cfg, s0);
      NeededSame(cfg, s0, s0);
      hide Touched, EqLow, Tame, OnlyNeeded, EqualitiesFit;
      while i < |order|
        invariant OnlyNeeded(cfg, s0, St()) && (EqualitiesFit(cfg, s0) ==> Untouched(s0, St()))
        invariant TameKept(cfg, s0, St()) && ((forall x :: x in s0.ops ==> !s0.ops[x].Eq?) ==> St() == s0)
        invariant i <= |order| && Valid() && LowUpTo(cfg, St(), i) && OnlyChecksFrom(cfg, St(), i)
        decreases |order| - i
      {
        ghost var s := St();
        var x := order[i];
        ListedHere(cfg, s, i);
        if ops[x].Eq? {
          hide Inv, LowUpTo, OnlyChecksFrom;
          LowerEquality(x);
          NeededTrans(cfg, s0, s, St());
          if EqualitiesFit(cfg, s0) { StillFit(cfg, s0, s, x); }
          WalkOn(cfg, s, St(), x);
          i := Position(x);
          i := i + 1;
        } else {
          WalkOver(cfg, s, i);
          i := i + 1;
        }
      }
      AllLow(cfg, St());
    }

    // ---------- lookup rows and call arguments ----------

    /** Lower one felt operand of a lookup row if its degree is over the bound. */
    method LowerRowOperand(x: Id, j: nat)
      requires Valid() && IsRow(cfg, x, j)
      modifies this
      ensures Valid() && Later(cfg, old(St()), St()) && RowLow(cfg, St(), x, j) && TameKept(cfg, old(St()), St())
      ensures OnlyNeeded(cfg, old(St()), St())
      ensures (OperandFits(old(St()), x, j, maxDegree) ==> Untouched(old(St()), St()))
      ensures x in old(ops) && old(ops)[x].Use? && j < |old(ops)[x].args|
      ensures St() == LoweredOperand(cfg, old(St()), x, j)
    {
      hide Inv, Lowered, Available, FrameFrom, Later, IsRow, RowLow, Gentle, Tame, Careful, OnlyNeeded, Stated, Lower;
      ghost var s0 := St();
      RowOperand(cfg, s0, x, j);
      var degree := Degree(ops[x].args[j]);
      ghost var s1 := St();
      TameMemo(cfg, s0, s1);
      RowOperand(cfg, s1, x, j);
      DegreeKnown(cfg, s1, ops[x].args[j]);
      if degree > maxDegree {
        var r := LowerExpression(ops[x].args[j], x);
        ghost var s2, v := St(), s1.ops[x].args[j];
        RowSet(cfg, s1, s2, x, j, r);
        CarefulParts(cfg, s1, s2, v);
        RowStated(cfg, s1, x, j);
        NeededFor(cfg, s1, s2, s2.(ops := s2.ops[x := s2.ops[x].(args := s2.ops[x].args[j := r])]), v, r, x, x);
        NeededSame(cfg, s0, s1);
        TameArgument(cfg, s1, St(), x, j, s1.ops[x].args[j], r);
        ops := ops[x := ops[x].(args := ops[x].args[j := r])];
        InvLaterTrans(cfg, s0, s1, St());
        NeededTrans(cfg, s0, s1, St());
      } else {
        RowIsLow(cfg, s1, x, j);
        NeededSame(cfg, s0, s1);
      }
    }

    /** Name a nonlinear argument of a constrain call by a generated member, read in front of the call. */
    method MaterializeCallArgument(v: Id, callOp: Id) returns (r: Id)
      requires Valid() && Available(St(), v, callOp) && callOp in cfg.checks
      modifies this
      ensures Valid() && Lowered(cfg, old(St()), St(), v, r, callOp)
      ensures Low(St(), r) && Next(St(), r) == Materialised(cfg, old(St()), v, callOp)
      ensures Gentle(cfg, old(St()), St(), v) && Named(cfg, old(St()), St(), v)
    {
      ghost var s0 := St();
      hide Inv, Lowered, FactorPre, Listed, Available, OpDegree, Lower, Materialised, Factored, Gentle, Careful, Named;
      ValueTree(cfg, s0, v, callOp);
      var lowered := LowerExpression(v, callOp);
      ghost var s1 := St();
      CarefulParts(cfg, s0, s1, v);
      NamedLowered(cfg, s0, s1, v, lowered, callOp);
      LoweredFacts(cfg, s0, s1, v, lowered, callOp);
      var check := FreshDegree(lowered);
      NamedIs(cfg, s0, Next(s1, lowered), v, callOp, Pos(order, callOp));
      if check <= 1 {
        return lowered;
      }
      CallNamed(cfg, s0, s1, v, lowered, callOp);
      GentleNamed(cfg, s0, s1, v, lowered, callOp);
      var k := Position(callOp);
      NamedItself(cfg, s0, s1, v, lowered, callOp, k, |order|);
      var auxVal := NameBefore(lowered, k);
      rewrites := rewrites[v := auxVal];
      LoweredFacts(cfg, s0, St(), v, auxVal, callOp);
      LeafOpDegree(ops, order, auxVal);
      r := auxVal;
    }

    /** The degree of `x` recomputed with an empty memo. */
    method FreshDegree(x: Id) returns (d: nat)
      requires Valid() && x in ops && ops[x].IsValue()
      ensures WellFormed(ops, order) && d == OpDegree(ops, order, x) && (Linear(St(), x) <==> d <= 1)
      ensures x in tree && d <= Ir.Degree(tree[x])
    {
      var memo;
      d, memo := GetDegree(ops, x, map[], cfg, St());
    }

    /** The source consumers of the block, first to last: calls if `called`, lookup rows if not. */
    method Consumers(calls: set<nat>, called: bool) returns (xs: seq<Id>)
      requires Valid()
      ensures forall x :: x in xs <==> IsConsumer(cfg, x, calls, called)
      ensures NoDup(xs) && xs == ConsumersIn(ops, order, calls, called)
    {
      hide Inv, ConsumersIn, IsConsumer;
      xs := [];
      var i := 0;
      NoDups(cfg, St());
      NoConsumers(ops, calls, called);
      assert order[..0] == [];
      forall x
        ensures IsConsumer(cfg, x, calls, called) <==> x in ops && ops[x].Use? && (ops[x].tag in calls) == called
      {
        ConsumerOp(cfg, St(), x, calls, called);
      }
      while i < |order|
        invariant 0 <= i <= |order|
        invariant forall x :: x in xs <==> x in order[..i] && ops[x].Use? && (ops[x].tag in calls) == called
        invariant NoDup(xs) && xs == ConsumersIn(ops, order[..i], calls, called)
      {
        var x := order[i];
        ConsumersNext(ops, order, calls, called, i);
        assert x in order && x !in order[..i] && order[..i + 1] == order[..i] + [x];
        if ops[x].Use? && (ops[x].tag in calls) == called {
          NoDupAppend(xs, x);
          xs := xs + [x];
        }
        i := i + 1;
      }
      assert order[..|order|] == order;
    }

    /** Lower the operands of one lookup row. */
    method LowerRow(x: Id, ghost calls: set<nat>, ghost done: set<Id>)
      requires Valid() && AllEqLow(cfg, St()) && RowsLow(cfg, St(), done) && IsConsumer(cfg, x, calls, false)
      modifies this
      ensures Valid() && AllEqLow(cfg, St()) && RowsLow(cfg, St(), done + {x}) && TameKept(cfg, old(St()), St())
      ensures OnlyNeeded(cfg, old(St()), St())
      ensures (forall j: nat :: OperandFits(old(St()), x, j, maxDegree)) ==> Untouched(old(St()), St())
    {
      hide Inv, AllEqLow, IsRow, RowLow, Later, Tame, RowsLow, OnlyNeeded, OperandFits;
      ghost var s0 := St();
      TameRefl(cfg, s0);
      NeededSame(cfg, s0, s0);
      ConsumerOp(cfg, St(), x, calls, false);
      var n := |ops[x].args|;
      var j := 0;
      while j < n
        invariant 0 <= j <= n && Valid() && AllEqLow(cfg, St()) && RowsLow(cfg, St(), done)
        invariant RowLowUpTo(cfg, St(), x, j) && OnlyNeeded(cfg, s0, St())
        invariant TameKept(cfg, s0, St())
        invariant ((forall j: nat :: OperandFits(s0, x, j, maxDegree)) ==> Untouched(s0, St()))
      {
        ghost var s := St();
        RowIntro(cfg, x, j);
        if Untouched(s0, s) { FitsStill(s0, s, x, j, maxDegree); }
        LowerRowOperand(x, j);
        NeededTrans(cfg, s0, s, St());
        EqsStay(cfg, s, St());
        RowsStay(cfg, s, St(), done, x, j);
        j := j + 1;
      }
      RowDone(cfg, St(), x, done, n);
    }

    /** Lower the operands of every lookup row. */
    method LowerRows(calls: set<nat>)
      requires Valid() && AllEqLow(cfg, St())
      modifies this
      ensures Valid() && AllEqLow(cfg, St())
      ensures RowsLow(cfg, St(), set x | x in cfg.checks && IsConsumer(cfg, x, calls, false))
      ensures TameKept(cfg, old(St()), St())
      ensures (forall x :: !IsConsumer(cfg, x, calls, false)) ==> St() == old(St())
      ensures OnlyNeeded(cfg, old(St()), St())
      ensures ConsumersFit(old(St()), calls, false, maxDegree) ==> Untouched(old(St()), St())
    {
      hide Inv, AllEqLow, RowsLow, Tame, NoDup, OnlyNeeded, OperandFits;
      ghost var s0 := St();
      TameRefl(cfg, s0);
      NeededSame(cfg, s0, s0);
      var xs := Consumers(calls, false);
      ghost var done: set<Id> := {};
      NoRows(cfg, s0);
      var i := 0;
      while i < |xs|
        invariant 0 <= i <= |xs| && Valid() && AllEqLow(cfg, St()) && RowsLow(cfg, St(), done)
        invariant TameKept(cfg, s0, St()) && OnlyNeeded(cfg, s0, St())
        invariant ConsumersFit(s0, calls, false, maxDegree) ==> Untouched(s0, St())
        invariant i == 0 ==> St() == s0
        invariant forall k :: 0 <= k < i ==> xs[k] in done
        invariant forall x :: x in done ==> x in xs
      {
        assert xs[i] in xs;
        ghost var s := St();
        if ConsumersFit(s0, calls, false, maxDegree) { ConsumerStill(cfg, s0, s, xs[i], calls, false, maxDegree); }
        LowerRow(xs[i], calls, done);
        NeededTrans(cfg, s0, s, St());
        done := done + {xs[i]};
        i := i + 1;
      }
      assert (set x | x in cfg.checks && IsConsumer(cfg, x, calls, false)) == done;
      if i > 0 { assert xs[0] in xs; }
    }

    /** Materialise the nonlinear arguments of one constrain call. The operands are captured first; `stale`
        means that one of them was erased before it was used. */
    method LowerCall(x: Id) returns (stale: bool)
      requires Valid() && x in cfg.checks && cfg.checks[x].UseCheck?
      modifies this
      ensures Valid() && (St(), stale) == Called(cfg, old(St()), x)
      ensures stale ==> HasErasableArgument(cfg, x) && (cfg.noDiv && Tame(cfg, old(St())) ==> StalePair(cfg, x))
      ensures RepeatedProduct(cfg, old(St()), x) ==> stale
      ensures !stale ==> Touched(cfg, old(St()), St(), x) && CallKeeps(cfg, old(St()), St(), x)
      ensures AllJustified(cfg, old(St()), St(), x)
      ensures (forall j: nat :: OperandFits(old(St()), x, j, 1)) ==> St() == old(St()) && !stale
    {
      hide Inv, Lowered, Available, OpDegree, Touched, TakeTurns, Materialised, Called, Gentle, Tame, RepeatedProduct,
          Named, AllJustified, OperandFits, Turning, CallKeeps, HasErasableArgument, StalePair;
      ghost var s0 := St();
      if RepeatedProduct(cfg, s0, x) { RepeatedStale(cfg, s0, x); }
      TurningStart(cfg, s0, x);
      var newOperands := ops[x].args;
      ghost var turns := TakeTurns(cfg, s0, x, newOperands, 0);
      ghost var fits := forall j: nat :: OperandFits(s0, x, j, 1);
      var modified := false;
      var j := 0;
      while j < |newOperands|
        invariant 0 <= j <= |newOperands| && Valid() && TakeTurns(cfg, St(), x, newOperands, j) == turns
        invariant Turning(cfg, s0, St(), x, newOperands, j)
        invariant (!modified ==> St() == s0 && newOperands == s0.ops[x].args) && (fits ==> !modified)
      {
        var arg := newOperands[j];
        ghost var s := St();
        TurnIs(cfg, s, x, newOperands, j);
        if fits { OperandThere(cfg, s0, x, j); }
        if arg !in ops {
          TurningGone(cfg, s0, s, x, newOperands, j, j, turns);
          return true;
        }
        TurningOperand(cfg, s0, s, x, newOperands, j);
        var deg := FreshDegree(arg);
        if deg > 1 {
          var r := MaterializeCallArgument(arg, x);
          TurnTaken(cfg, s0, s, St(), x, newOperands, j, r);
          newOperands := newOperands[j := r];
          modified := true;
        } else {
          TurnPassed(cfg, s0, s, x, newOperands, j);
        }
        j := j + 1;
      }
      ghost var s1 := St();
      TurnsDone(cfg, s1, x, newOperands);
      if modified {
        if exists i :: 0 <= i < |newOperands| && newOperands[i] !in ops {
          ghost var i :| 0 <= i < |newOperands| && newOperands[i] !in ops;
          TurningGone(cfg, s0, s1, x, newOperands, |newOperands|, i, turns);
          return true;
        }
        TurningDone(cfg, s0, s1, x, newOperands, turns);
        ops := ops[x := ops[x].(args := newOperands)];
      } else {
        CallSame(cfg, s1, x, newOperands);
        TurningDone(cfg, s0, s1, x, newOperands, turns);
      }
      return false;
    }

    /** Materialise the nonlinear arguments of every constrain call. */
    method LowerCalls(calls: set<nat>) returns (stale: bool)
      requires Valid() && AllEqLow(cfg, St())
      requires RowsLow(cfg, St(), set x | x in cfg.checks && IsConsumer(cfg, x, calls, false))
      requires cfg.noDiv ==> Tame(cfg, St())
      modifies this
      ensures Valid() && (St(), stale) == CallsLowered(cfg, old(St()), ConsumersIn(old(ops), old(order), calls, true))
      ensures stale ==>
          exists x ::
          IsConsumer(cfg, x, calls, true) && HasErasableArgument(cfg, x) && (cfg.noDiv ==> StalePair(cfg, x))
      ensures !stale ==>
          AllEqLow(cfg, St()) && RowsLow(cfg, St(), set x | x in cfg.checks && IsConsumer(cfg, x, calls, false))
      ensures !stale && cfg.noDiv && !ArgumentsClash(cfg, calls) ==>
          forall x :: IsConsumer(cfg, x, calls, true) ==> CallLow(cfg, St(), x)
      ensures OnlyJustified(cfg, old(St()), St(), calls)
      ensures ConsumersFit(old(St()), calls, true, 1) ==> St() == old(St()) && !stale
    {
      hide OnlyJustified, OperandFits;
      hide Inv, AllEqLow, RowsLow, Touched, HasErasableArgument, StalePair, Called, CallsLowered, CallKeeps, CallLow,
          Tame, ArgumentsClash;
      ghost var rows := set x | x in cfg.checks && IsConsumer(cfg, x, calls, false);
      ghost var s0 := St();
      var xs := Consumers(calls, true);
      JustifiedSame(cfg, s0, s0, calls);
      var i := 0;
      assert xs[0..] == xs;
      while i < |xs|
        invariant OnlyJustified(cfg, s0, St(), calls) && (ConsumersFit(s0, calls, true, 1) ==> St() == s0)
        invariant 0 <= i <= |xs| && Valid() && AllEqLow(cfg, St()) && RowsLow(cfg, St(), rows)
        invariant CallsLowered(cfg, St(), xs[i..]) == CallsLowered(cfg, s0, xs)
        invariant (cfg.noDiv ==> Tame(cfg, St())) && CallsLow(cfg, St(), calls, xs[..i])
      {
        assert xs[i] in xs;
        ghost var s := St();
        CallsStep(cfg, s, xs, i);
        if ConsumersFit(s0, calls, true, 1) { ConsumerStill(cfg, s0, s, xs[i], calls, true, 1); }
        stale := LowerCall(xs[i]);
        OneCallJustified(cfg, s, St(), xs[i], calls);
        JustifiedTrans(cfg, s0, s, St(), calls);
        if stale {
          return;
        }
        NotBefore(xs, i);
        CallSpoilsNothing(cfg, s, St(), xs[i], rows);
        CallsNext(cfg, s, St(), calls, xs[..i], xs[i]);
        assert xs[..i + 1] == xs[..i] + [xs[i]];
        i := i + 1;
      }
      assert xs[i..] == [] && xs[..i] == xs;
      CallsNone(cfg, St());
      return false;
    }

    /** The final check on consumers: every operand of every row (or call) recomputed from scratch. */
    method CheckConsumers(calls: set<nat>, called: bool, bound: nat) returns (ok: bool)
      requires Valid()
      ensures WellFormed(ops, order)
      ensures ok <==>
          forall x, j: nat ::
          IsConsumer(cfg, x, calls, called) && IsRow(cfg, x, j) ==> OperandWithin(ops, order, x, j, bound)
    {
      hide Inv, OperandWithin, IsRow, WellFormed, NoDup, Available, Linear;
      Formed(cfg, St());
      var xs := Consumers(calls, called);
      var i := 0;
      while i < |xs|
        invariant 0 <= i <= |xs|
        invariant forall k, j: nat :: 0 <= k < i && IsRow(cfg, xs[k], j) ==> OperandWithin(ops, order, xs[k], j, bound)
      {
        var x := xs[i];
        assert x in xs;
        ConsumerOp(cfg, St(), x, calls, called);
        var j: nat := 0;
        while j < |ops[x].args|
          invariant j <= |ops[x].args|
          invariant forall k: nat :: k < j && IsRow(cfg, x, k) ==> OperandWithin(ops, order, x, k, bound)
        {
          RowIntro(cfg, x, j);
          RowOperand(cfg, St(), x, j);
          var d := FreshDegree(ops[x].args[j]);
          WithinIff(ops, order, x, j, d, bound);
          if d > bound {
            return false;
          }
          j := j + 1;
        }
        RowEnd(cfg, x, j);
        i := i + 1;
      }
      return true;
    }

    /** The degrees of both sides of an equality, recomputed from scratch with one memo. */
    method SideDegrees(y: Id) returns (lhsDegree: nat, rhsDegree: nat)
      requires Valid() && y in ops && ops[y].Eq?
      ensures WellFormed(ops, order)
      ensures EqDegreeWithin(ops, order, y, maxDegree) <==> lhsDegree <= maxDegree && rhsDegree <= maxDegree
    {
      hide Inv, WellFormed, NoDup, EqDegreeWithin, OpDegree, MemoOk, Exact, Measured, Grown;
      Formed(cfg, St());
      NothingMemoised(ops, tree, order);
      SideAvailable(cfg, St(), y, true);
      SideAvailable(cfg, St(), y, false);
      var memo;
      lhsDegree, memo := GetDegree(ops, ops[y].lhs, map[], cfg, St());
      rhsDegree, memo := GetDegree(ops, ops[y].rhs, memo, cfg, St());
      EqWithinIff(ops, order, y, lhsDegree, rhsDegree, maxDegree);
    }

    /** The check the pass ends with: every equality recomputed from scratch. */
    method CheckEqualityDegrees() returns (ok: bool)
      requires Valid()
      ensures WellFormed(ops, order)
      ensures ok <==> forall y :: y in ops && ops[y].Eq? ==> EqDegreeWithin(ops, order, y, maxDegree)
    {
      hide Inv, WellFormed, NoDup, EqDegreeWithin;
      Formed(cfg, St());
      EqsWithinAll(ops, order, maxDegree);
      ok := true;
      var i: nat := 0;
      while i < |order|
        invariant i <= |order| && (ok <==> EqsWithin(ops, order, i, maxDegree))
      {
        if ops[order[i]].Eq? {
          var lhsDegree, rhsDegree := SideDegrees(order[i]);
          ok := ok && lhsDegree <= maxDegree && rhsDegree <= maxDegree;
        }
        i := i + 1;
      }
    }
  }
}
