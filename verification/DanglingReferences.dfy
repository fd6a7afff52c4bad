/** Which references removing structs leaves dangling: those the code does not collect. */
module DanglingReferences {
  import opened StructReferences
  import opened UnusedStructs

  /** The operation is still there once the structs `r` are gone. */
  predicate Stays(op: Op, r: set<S>) { op.parent.None? || op.parent.value !in r }

  /** No operation that stays refers to a struct that is gone. */
  ghost predicate NothingDangles(code: Code, r: set<S>) {
    forall i, s :: 0 <= i < |code.ops| && Stays(code.ops[i], r) && RefersTo(code.ops[i], s) ==> s !in r
  }

  /** A reference that is not collected: from outside all structs, or not among what is found. */
  predicate Missed(op: Op, s: S) { RefersTo(op, s) && (op.parent.None? || s !in FoundIn(op)) }

  /** An operation outside all structs, or in a struct that is anchored. */
  ghost predicate Kept(p: Program, op: Op) { op.parent.None? || Anchored(p, op.parent.value) }

  /** Every reference that is missed in what stays is to a struct that stays for other reasons. */
  ghost predicate MissedAnchored(code: Code) {
    forall i, s ::
      (0 <= i < |code.ops| && Kept(Gathered(code), code.ops[i]) && Missed(code.ops[i], s) && s in code.structs ==>
      Anchored(Gathered(code), s))
  }

  /** A collected reference never dangles. */
  lemma CollectedStays(code: Code, r: set<S>, i: nat, s: S)
    requires Resolved(code) && IsLeast(Gathered(code), r) && i < |code.ops| && Stays(code.ops[i], r)
    requires code.ops[i].parent.Some? && s in FoundIn(code.ops[i])
    ensures s !in r
  {
    hide IsLeast, FoundIn, RefsOf;
    var p, a := Gathered(code), code.ops[i].parent.value;
    GatheredFormed(code);
    RefsIff(code.ops, a, s);
    LeastSafe(p, r);
    if a != s { assert Uses(p, a, s); }
  }

  /** Removal leaves nothing dangling exactly when every missed reference is to a struct that stays anyway. */
  lemma DanglesIff(code: Code, r: set<S>)
    requires Resolved(code) && IsLeast(Gathered(code), r)
    ensures NothingDangles(code, r) <==> MissedAnchored(code)
  {
    hide IsLeast, FoundIn, RefersTo, RefsOf, Anchored;
    var p := Gathered(code);
    GatheredFormed(code);
    LeastSafe(p, r);
    forall s | s in code.structs ensures s in r <==> !Anchored(p, s) { RemovedIffNotAnchored(p, r, s); }
    forall i | 0 <= i < |code.ops| ensures Stays(code.ops[i], r) <==> Kept(p, code.ops[i]) {}
    if MissedAnchored(code) {
      forall i, s | 0 <= i < |code.ops| && Stays(code.ops[i], r) && RefersTo(code.ops[i], s) ensures s !in r {
        if !Missed(code.ops[i], s) { CollectedStays(code, r, i, s); }
      }
    }
  }

  // ---------- two modules whose references are missed ----------

  /** A struct that is not main, and one operation that refers to it. */
  function Stray(op: Op): Code { Code({0, 1}, {0}, [op]) }

  /** The module loses struct 1, though the operation stays and refers to it. */
  ghost predicate LeftDangling(op: Op) {
    && Resolved(Stray(op)) && IsLeast(Gathered(Stray(op)), {1})
    && Stays(op, {1}) && RefersTo(op, 1) && !NothingDangles(Stray(op), {1})
  }

  lemma StrayLost(op: Op)
    requires op.parent.None? || (op.parent == Some(0) && FoundIn(op) == [])
    requires RefersTo(op, 1)
    ensures LeftDangling(op)
  {
    hide FoundIn, RefersTo;
    var code := Stray(op);
    var p := Gathered(code);
    assert code.ops[..0] == [];
    assert RefsOf(code.ops) == RefsOf([]) + if op.parent.Some? then Pairs(op.parent.value, FoundIn(op)) else [];
    assert p.refs == [];
    forall c: set<S> | Closed(p, c) ensures {1} <= c { assert AllUsersIn(p, 1, c); }
    assert Closed(p, {1});
    assert code.ops[0] == op;
  }

  /** A free function that takes an argument of struct type. */
  lemma FreeFunctionDangles()
    ensures LeftDangling(Op(None, [], [], [StructOf(1, [])], []))
  {
    var op := Op(None, [], [], [StructOf(1, [])], []);
    assert Mentions(op.blockArgs[0], 1);
    StrayLost(op);
  }

  /** A member of the main component whose type is an array of structs. */
  lemma ArrayMemberDangles()
    ensures LeftDangling(Op(Some(0), [], [], [], [OfType(ArrayOf(StructOf(1, []), [Literal]))]))
  {
    var ty := ArrayOf(StructOf(1, []), [Literal]);
    var op := Op(Some(0), [], [], [], [OfType(ty)]);
    assert Mentions(StructOf(1, []), 1) && Mentions(ty, 1) && AttrMentions(op.attrs[0], 1);
    assert WalkedType(StructOf(1, [])) == [] && WalkedAll([Literal], 1) == WalkedAll([Literal], 0) + Walked(Literal);
    assert WalkedType(ty) == [] && Walked(OfType(ty)) == [];
    assert WalkedAll(op.attrs, 1) == WalkedAll(op.attrs, 0) + Walked(op.attrs[0]);
    StrayLost(op);
  }
}
