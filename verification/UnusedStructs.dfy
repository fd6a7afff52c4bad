/** Removing structs that no other struct refers to, directly or through structs that are removed themselves. */
module UnusedStructs {
  import opened StructReferences

  /** The structs of a module, the main components among them, and the references collected: who refers, and to what. */
  datatype Program = Program(structs: set<S>, main: set<S>, refs: seq<(S, S)>)

  /** Every collected reference is from a struct to a struct. */
  ghost predicate WellFormed(p: Program) {
    forall k :: 0 <= k < |p.refs| ==> p.refs[k].0 in p.structs && p.refs[k].1 in p.structs
  }

  /** `a` refers to `b`; what a struct says of itself does not count. */
  ghost predicate Refers(refs: seq<(S, S)>, a: S, b: S) { a != b && (a, b) in refs }

  ghost predicate Uses(p: Program, a: S, b: S) { Refers(p.refs, a, b) }

  /** A module: its structs, the main components among them, and its operations, in the order they are walked. */
  datatype Code = Code(structs: set<S>, main: set<S>, ops: seq<Op>)

  /** What is found in operations inside structs are structs of the module; the code looks them up unchecked. */
  ghost predicate Resolved(code: Code) {
    forall i :: 0 <= i < |code.ops| && code.ops[i].parent.Some? ==>
      code.ops[i].parent.value in code.structs && forall s :: s in FoundIn(code.ops[i]) ==> s in code.structs
  }

  function Gathered(code: Code): Program { Program(code.structs, code.main, RefsOf(code.ops)) }

  lemma GatheredFormed(code: Code)
    requires Resolved(code)
    ensures WellFormed(Gathered(code))
  {
    hide FoundIn, RefsOf;
    var refs := RefsOf(code.ops);
    forall k | 0 <= k < |refs| ensures refs[k].0 in code.structs && refs[k].1 in code.structs {
      assert refs[k] == (refs[k].0, refs[k].1);
      RefsIff(code.ops, refs[k].0, refs[k].1);
    }
  }

  // ---------- what may be removed ----------

  ghost predicate AllUsersIn(p: Program, s: S, r: set<S>) { forall u :: Uses(p, u, s) ==> u in r }

  /** Holds every struct that is not main and whose users it holds. */
  ghost predicate Closed(p: Program, r: set<S>) {
    forall s :: s in p.structs && s !in p.main && AllUsersIn(p, s, r) ==> s in r
  }

  ghost predicate InAllClosed(p: Program, r: set<S>) { forall c: set<S> :: Closed(p, c) ==> r <= c }

  /** The least closed set. */
  ghost predicate IsLeast(p: Program, r: set<S>) { Closed(p, r) && InAllClosed(p, r) }

  /** There is only one, so the order of removal does not matter. */
  lemma LeastUnique(p: Program, r1: set<S>, r2: set<S>)
    requires IsLeast(p, r1) && IsLeast(p, r2)
    ensures r1 == r2
  {}

  /** No collected reference from what stays leads to what was removed, and main components stay. */
  lemma LeastSafe(p: Program, r: set<S>)
    requires WellFormed(p) && IsLeast(p, r)
    ensures r <= p.structs && r !! p.main
    ensures forall a, b :: Uses(p, a, b) && b in r ==> a in r
  {
    var kept := set s | s in r && s in p.structs && s !in p.main &&
        forall u :: u in p.structs && Uses(p, u, s) ==> u in r;
    assert forall a, b :: Uses(p, a, b) ==> a in p.structs;
    forall s | s in p.structs && s !in p.main && AllUsersIn(p, s, kept) ensures s in kept {
      assert AllUsersIn(p, s, r);
    }
    assert Closed(p, kept);
    assert r <= kept;
  }

  // ---------- which structs stay ----------

  /** Each struct refers to the next. */
  ghost predicate Chain(p: Program, c: seq<S>) { forall i :: 0 <= i < |c| - 1 ==> Uses(p, c[i], c[i + 1]) }

  /** A chain that starts at a main component, or comes back to where it started. */
  ghost predicate Anchors(p: Program, c: seq<S>) {
    c != [] && Chain(p, c) && (c[0] in p.main || exists j :: 0 < j < |c| && c[j] == c[0])
  }

  ghost predicate Anchored(p: Program, s: S) { exists c: seq<S> :: Anchors(p, c) && c[|c| - 1] == s }

  lemma AnchoredUser(p: Program, s: S) returns (u: S)
    requires Anchored(p, s) && s !in p.main
    ensures Uses(p, u, s) && Anchored(p, u)
  {
    var c: seq<S> :| Anchors(p, c) && c[|c| - 1] == s;
    var n := |c| - 2;
    u := c[n];
    assert Uses(p, c[n], c[n + 1]);
    if c[0] in p.main {
      assert Anchors(p, c[..n + 1]);
    } else {
      var j :| 0 < j < |c| && c[j] == c[0];
      if j <= n {
        assert c[..n + 1][j] == c[0] && Anchors(p, c[..n + 1]);
      } else {
        var back := [u] + c[..n + 1];
        assert back[n + 1] == back[0];
        forall i | 0 <= i < |back| - 1
          ensures Uses(p, back[i], back[i + 1])
        {
          if i > 0 { assert Uses(p, c[i - 1], c[i - 1 + 1]); }
        }
        assert Anchors(p, back) && back[|back| - 1] == u;
      }
    }
  }

  /** Extended by users that stay, a chain must come back or reach a main component. */
  lemma {:induction false} StaysAnchored(p: Program, r: set<S>, c: seq<S>, seen: set<S>)
    requires WellFormed(p) && IsLeast(p, r) && c != [] && Chain(p, c) && c[0] in p.structs - r
    requires seen == (set x | x in c) && seen <= p.structs
    ensures Anchored(p, c[|c| - 1])
    decreases p.structs - seen
  {
    if c[0] in p.main {
      assert Anchors(p, c);
    } else {
      assert !AllUsersIn(p, c[0], r);
      var u :| Uses(p, u, c[0]) && u !in r;
      var longer := [u] + c;
      forall i | 0 <= i < |longer| - 1
        ensures Uses(p, longer[i], longer[i + 1])
      {
        if i > 0 { assert Uses(p, c[i - 1], c[i - 1 + 1]); }
      }
      assert longer[|longer| - 1] == c[|c| - 1];
      if u in c {
        var j :| 0 <= j < |c| && c[j] == u;
        assert longer[j + 1] == longer[0];
        assert Anchors(p, longer);
      } else {
        assert u in p.structs;
        StaysAnchored(p, r, longer, seen + {u});
      }
    }
  }

  /** A struct is removed exactly when no chain of users leads to it from a main component or from a cycle. */
  lemma RemovedIffNotAnchored(p: Program, r: set<S>, s: S)
    requires WellFormed(p) && IsLeast(p, r) && s in p.structs
    ensures s in r <==> !Anchored(p, s)
  {
    var loose := set x | x in p.structs && !Anchored(p, x);
    forall x | x in p.structs && x !in p.main && AllUsersIn(p, x, loose) ensures x in loose {
      if Anchored(p, x) { var u := AnchoredUser(p, x); }
    }
    assert Closed(p, loose);
    assert r <= loose;
    if s !in r { StaysAnchored(p, r, [s], {s}); }
  }

  // ---------- the worklist ----------

  /** What is left to do and what has been removed. */
  ghost predicate Tracks(p: Program, removed: set<S>, uses: map<S, set<S>>, usedBy: map<S, set<S>>) {
    && removed <= p.structs && uses.Keys == p.structs - removed && usedBy.Keys == p.structs - removed
    && (forall a, b :: a in uses && b in p.structs ==> (b in uses[a] <==> Uses(p, a, b)))
    && (forall a, b :: b in usedBy && a in p.structs ==> (a in usedBy[b] <==> Uses(p, a, b) && a !in removed))
    && (forall a :: a in uses ==> uses[a] <= p.structs - removed)
    && (forall b :: b in usedBy ==> usedBy[b] <= p.structs - removed)
  }

  /** The two maps are each other's inverse. */
  lemma TracksInverse(p: Program, removed: set<S>, uses: map<S, set<S>>, usedBy: map<S, set<S>>)
    requires Tracks(p, removed, uses, usedBy)
    ensures forall a, b :: a in uses && b in uses[a] <==> b in usedBy && a in usedBy[b]
  {}

  /** The waiting structs: distinct, still there, not main and without users. */
  ghost predicate Waiting(p: Program, usedBy: map<S, set<S>>, unused: seq<S>) {
    && (forall i :: 0 <= i < |unused| ==> unused[i] in usedBy && unused[i] !in p.main && usedBy[unused[i]] == {})
    && (forall i, j :: 0 <= i < j < |unused| ==> unused[i] != unused[j])
  }

  ghost predicate NoneUnused(p: Program, usedBy: map<S, set<S>>) {
    forall s :: s in usedBy && usedBy[s] == {} ==> s in p.main
  }

  lemma RemoveStep(p: Program, removed: set<S>, uses: map<S, set<S>>, usedBy: map<S, set<S>>, usedBy': map<S, set<S>>,
          s: S)
    requires WellFormed(p) && Tracks(p, removed, uses, usedBy) && InAllClosed(p, removed) && s in usedBy
    requires usedBy[s] == {} && s !in p.main
    requires usedBy'.Keys == usedBy.Keys - {s} && forall b :: b in usedBy' ==> usedBy'[b] == usedBy[b] - {s}
    ensures Tracks(p, removed + {s}, uses - {s}, usedBy') && InAllClosed(p, removed + {s})
  {
    assert forall a, b :: Uses(p, a, b) ==> a in p.structs;
    forall c: set<S> | Closed(p, c) ensures removed + {s} <= c {
      assert AllUsersIn(p, s, removed);
      assert AllUsersIn(p, s, c);
    }
  }

  lemma NothingLeft(p: Program, removed: set<S>, uses: map<S, set<S>>, usedBy: map<S, set<S>>)
    requires WellFormed(p) && Tracks(p, removed, uses, usedBy) && InAllClosed(p, removed) && NoneUnused(p, usedBy)
    ensures IsLeast(p, removed)
  {
    forall s | s in p.structs && s !in p.main && AllUsersIn(p, s, removed) ensures s in removed {
      if s !in removed { NoUsersLeft(p, removed, uses, usedBy, s); }
    }
  }

  lemma NoUsersLeft(p: Program, removed: set<S>, uses: map<S, set<S>>, usedBy: map<S, set<S>>, s: S)
    requires WellFormed(p) && Tracks(p, removed, uses, usedBy) && s in usedBy && AllUsersIn(p, s, removed)
    ensures usedBy[s] == {}
  {}

  /** Both maps hold the references `refs`. */
  ghost predicate Recorded(structs: set<S>, refs: seq<(S, S)>, uses: map<S, set<S>>, usedBy: map<S, set<S>>) {
    && uses.Keys == structs && usedBy.Keys == structs
    && (forall a: S, b: S :: a in uses && b in uses[a] <==> Refers(refs, a, b))
    && (forall a: S, b: S :: b in usedBy && a in usedBy[b] <==> Refers(refs, a, b))
  }

  lemma RecordStep(structs: set<S>, refs: seq<(S, S)>, uses: map<S, set<S>>, usedBy: map<S, set<S>>, a: S, b: S)
    requires Recorded(structs, refs, uses, usedBy) && a in structs && b in structs
    ensures a in uses && b in usedBy
    ensures a == b ==> Recorded(structs, refs + [(a, b)], uses, usedBy)
    ensures a != b ==> Recorded(structs, refs + [(a, b)], uses[a := uses[a] + {b}], usedBy[b := usedBy[b] + {a}])
  {
    ReferStep(refs, a, b);
    hide Refers;
  }

  lemma ReferStep(refs: seq<(S, S)>, a: S, b: S)
    ensures forall x: S, y: S ::
        Refers(refs + [(a, b)], x, y) <==> Refers(refs, x, y) || (x != y && x == a && y == b)
  {
    forall x: S, y: S ensures (x, y) in refs + [(a, b)] <==> (x, y) in refs || (x == a && y == b) {}
  }

  lemma NothingRecorded(code: Code, uses: map<S, set<S>>, usedBy: map<S, set<S>>)
    requires uses.Keys == code.structs && usedBy.Keys == code.structs
    requires (forall s :: s in uses ==> uses[s] == {}) && forall s :: s in usedBy ==> usedBy[s] == {}
    ensures Recorded(code.structs, RefsOf(code.ops[..0]), uses, usedBy)
  {}

  lemma RecordEnd(p: Program, uses: map<S, set<S>>, usedBy: map<S, set<S>>)
    requires WellFormed(p) && Recorded(p.structs, p.refs, uses, usedBy)
    ensures Tracks(p, {}, uses, usedBy) && InAllClosed(p, {})
  {
    assert forall a, b :: Uses(p, a, b) ==> a in p.structs && b in p.structs;
  }

  /** The users of what `s` uses, except those still to do, no longer include `s`. */
  ghost predicate Unlinked(used: set<S>, s: S, usedBy0: map<S, set<S>>, usedBy: map<S, set<S>>, todo: set<S>) {
    && usedBy.Keys == usedBy0.Keys && todo <= used <= usedBy0.Keys
    && forall b :: b in usedBy ==> usedBy[b] == if b in used - todo then usedBy0[b] - {s} else usedBy0[b]
  }

  lemma StartUnlink(p: Program, removed: set<S>, uses: map<S, set<S>>, usedBy: map<S, set<S>>, s: S)
    requires Tracks(p, removed, uses, usedBy) && s in uses
    ensures Unlinked(uses[s], s, usedBy, usedBy, uses[s])
  {}

  lemma UnlinkStep(used: set<S>, s: S, usedBy0: map<S, set<S>>, usedBy: map<S, set<S>>, todo: set<S>, b: S)
    requires Unlinked(used, s, usedBy0, usedBy, todo) && b in todo
    ensures b in usedBy && Unlinked(used, s, usedBy0, usedBy[b := usedBy[b] - {s}], todo - {b})
  {}

  lemma UnlinkedAll(p: Program, removed: set<S>, uses: map<S, set<S>>, usedBy0: map<S, set<S>>, usedBy: map<S, set<S>>,
          s: S)
    requires Tracks(p, removed, uses, usedBy0) && s in uses && Unlinked(uses[s], s, usedBy0, usedBy, {})
    ensures var usedBy' := usedBy - {s};
        usedBy'.Keys == usedBy0.Keys - {s} && forall b :: b in usedBy' ==> usedBy'[b] == usedBy0[b] - {s}
  {
    assert forall b :: b in usedBy0 && s in usedBy0[b] ==> b in uses[s];
  }

  class Elimination {
    const code: Code
    ghost const program: Program := Gathered(code)
    var uses: map<S, set<S>>
    var usedBy: map<S, set<S>>
    var unusedStructs: seq<S>
    var erased: seq<S>

    constructor (c: Code)
      ensures code == c && unusedStructs == [] && erased == []
    {
      code := c;
      uses, usedBy, unusedStructs, erased := map[], map[], [], [];
    }

    function Removed(): set<S>
      reads this
    {
      set s | s in erased
    }

    ghost predicate Valid()
      reads this
    {
      && WellFormed(program) && Tracks(program, Removed(), uses, usedBy)
      && InAllClosed(program, Removed())
      && Waiting(program, usedBy, unusedStructs)
      && forall i, j :: 0 <= i < j < |erased| ==> erased[i] != erased[j]
    }

    /** Notes that a struct uses the struct a type is of, unless it is itself. */
    method TryAddUse(structParent: S, ty: Type, ghost refs: seq<(S, S)>)
      requires Recorded(code.structs, refs, uses, usedBy) && structParent in code.structs
      requires forall s :: s in Named(ty) ==> s in code.structs
      modifies this`uses, this`usedBy
      ensures Recorded(code.structs, refs + Pairs(structParent, Named(ty)), uses, usedBy)
    {
      hide Recorded, Refers;
      if ty.StructOf? {
        var refStruct := ty.name;
        assert refStruct in Named(ty) && Pairs(structParent, Named(ty)) == [(structParent, refStruct)];
        RecordStep(code.structs, refs, uses, usedBy, structParent, refStruct);
        if refStruct != structParent {
          uses := uses[structParent := uses[structParent] + {refStruct}];
          usedBy := usedBy[refStruct := usedBy[refStruct] + {structParent}];
        }
      } else {
        assert refs + Pairs(structParent, Named(ty)) == refs;
      }
    }

    /** The types of values, first to last. */
    method TryAddUses(structParent: S, tys: seq<Type>, ghost refs: seq<(S, S)>)
      requires Recorded(code.structs, refs, uses, usedBy) && structParent in code.structs
      requires forall s :: s in NamedAll(tys) ==> s in code.structs
      modifies this`uses, this`usedBy
      ensures Recorded(code.structs, refs + Pairs(structParent, NamedAll(tys)), uses, usedBy)
    {
      hide Recorded, Named;
      assert refs + Pairs(structParent, NamedAll(tys[..0])) == refs;
      var i := 0;
      while i < |tys|
        invariant i <= |tys| && Recorded(code.structs, refs + Pairs(structParent, NamedAll(tys[..i])), uses, usedBy)
      {
        NamedNext(tys, i);
        NamedPart(tys, i);
        ghost var before := refs + Pairs(structParent, NamedAll(tys[..i]));
        TryAddUse(structParent, tys[i], before);
        PairsConcat(structParent, NamedAll(tys[..i]), Named(tys[i]));
        assert before + Pairs(structParent, Named(tys[i])) == refs + Pairs(structParent, NamedAll(tys[..i + 1]));
        i := i + 1;
      }
      assert tys[..|tys|] == tys;
    }

    /** Walks an attribute and notes every type attribute in it. */
    method WalkAttr(structParent: S, a: Attr, ghost refs: seq<(S, S)>)
      requires Recorded(code.structs, refs, uses, usedBy) && structParent in code.structs
      requires forall s :: s in Walked(a) ==> s in code.structs
      modifies this`uses, this`usedBy
      ensures Recorded(code.structs, refs + Pairs(structParent, Walked(a)), uses, usedBy)
      decreases a
    {
      hide Recorded, Named;
      match a {
        case Literal =>
          assert refs + Pairs(structParent, []) == refs;
        case OfType(ty) =>
          WalkType(structParent, ty, refs);
          ghost var before := refs + Pairs(structParent, WalkedType(ty));
          TryAddUse(structParent, ty, before);
          PairsConcat(structParent, WalkedType(ty), Named(ty));
          assert before + Pairs(structParent, Named(ty)) == refs + Pairs(structParent, Walked(a));
        case ListOf(items) => WalkAttrs(structParent, items, refs);
      }
    }

    method WalkType(structParent: S, ty: Type, ghost refs: seq<(S, S)>)
      requires Recorded(code.structs, refs, uses, usedBy) && structParent in code.structs
      requires forall s :: s in WalkedType(ty) ==> s in code.structs
      modifies this`uses, this`usedBy
      ensures Recorded(code.structs, refs + Pairs(structParent, WalkedType(ty)), uses, usedBy)
      decreases ty
    {
      hide Recorded;
      match ty {
        case Plain =>
          assert refs + Pairs(structParent, []) == refs;
        case StructOf(_, params) => WalkAttrs(structParent, params, refs);
        case ArrayOf(elem, dims) =>
          WalkType(structParent, elem, refs);
          ghost var found, more := WalkedType(elem), WalkedAll(dims, |dims|);
          WalkAttrs(structParent, dims, refs + Pairs(structParent, found));
          PairsConcat(structParent, found, more);
          assert refs + Pairs(structParent, found) + Pairs(structParent, more) == refs +
              Pairs(structParent, found + more);
        case PodOf(records) => WalkTypes(structParent, records, refs);
        case FunctionOf(inputs, results) =>
          WalkTypes(structParent, inputs, refs);
          ghost var found, more := WalkedTypes(inputs, |inputs|), WalkedTypes(results, |results|);
          WalkTypes(structParent, results, refs + Pairs(structParent, found));
          PairsConcat(structParent, found, more);
          assert refs + Pairs(structParent, found) + Pairs(structParent, more) == refs +
              Pairs(structParent, found + more);
      }
    }

    method WalkAttrs(structParent: S, items: seq<Attr>, ghost refs: seq<(S, S)>)
      requires Recorded(code.structs, refs, uses, usedBy) && structParent in code.structs
      requires forall s :: s in WalkedAll(items, |items|) ==> s in code.structs
      modifies this`uses, this`usedBy
      ensures Recorded(code.structs, refs + Pairs(structParent, WalkedAll(items, |items|)), uses, usedBy)
      decreases items
    {
      hide Recorded, Walked;
      assert refs + Pairs(structParent, []) == refs;
      var i := 0;
      while i < |items|
        invariant i <= |items| && Recorded(code.structs, refs + Pairs(structParent, WalkedAll(items, i)), uses, usedBy)
      {
        WalkedPart(items, i);
        ghost var found, more := WalkedAll(items, i), Walked(items[i]);
        WalkAttr(structParent, items[i], refs + Pairs(structParent, found));
        PairsConcat(structParent, found, more);
        assert refs + Pairs(structParent, found) + Pairs(structParent, more) == refs +
            Pairs(structParent, found + more);
        i := i + 1;
      }
    }

    method WalkTypes(structParent: S, tys: seq<Type>, ghost refs: seq<(S, S)>)
      requires Recorded(code.structs, refs, uses, usedBy) && structParent in code.structs
      requires forall s :: s in WalkedTypes(tys, |tys|) ==> s in code.structs
      modifies this`uses, this`usedBy
      ensures Recorded(code.structs, refs + Pairs(structParent, WalkedTypes(tys, |tys|)), uses, usedBy)
      decreases tys
    {
      hide Recorded, WalkedType;
      assert refs + Pairs(structParent, []) == refs;
      var i := 0;
      while i < |tys|
        invariant i <= |tys| && Recorded(code.structs, refs + Pairs(structParent, WalkedTypes(tys, i)), uses, usedBy)
      {
        WalkedTypesPart(tys, i);
        ghost var found, more := WalkedTypes(tys, i), WalkedType(tys[i]);
        WalkType(structParent, tys[i], refs + Pairs(structParent, found));
        PairsConcat(structParent, found, more);
        assert refs + Pairs(structParent, found) + Pairs(structParent, more) == refs +
            Pairs(structParent, found + more);
        i := i + 1;
      }
    }

    /** One operation of a struct: its operands, results, block arguments and attributes. */
    method AddOp(structParent: S, op: Op, ghost refs: seq<(S, S)>)
      requires Recorded(code.structs, refs, uses, usedBy) && structParent in code.structs
      requires forall s :: s in FoundIn(op) ==> s in code.structs
      modifies this`uses, this`usedBy
      ensures Recorded(code.structs, refs + Pairs(structParent, FoundIn(op)), uses, usedBy)
    {
      hide Recorded, NamedAll, WalkedAll, Pairs;
      ghost var f1, f2, f3, f4 := NamedAll(op.operands), NamedAll(op.results), NamedAll(op.blockArgs),
        WalkedAll(op.attrs, |op.attrs|);
      ghost var r1 := refs + Pairs(structParent, f1);
      ghost var r2 := r1 + Pairs(structParent, f2);
      ghost var r3 := r2 + Pairs(structParent, f3);
      TryAddUses(structParent, op.operands, refs);
      TryAddUses(structParent, op.results, r1);
      TryAddUses(structParent, op.blockArgs, r2);
      WalkAttrs(structParent, op.attrs, r3);
      PairsConcat(structParent, f1, f2);
      PairsConcat(structParent, f1 + f2, f3);
      PairsConcat(structParent, f1 + f2 + f3, f4);
      assert r3 + Pairs(structParent, f4) == refs + Pairs(structParent, f1 + f2 + f3 + f4);
    }

    /** Both maps from the operations inside structs. */
    method CollectUses()
      requires Resolved(code) && unusedStructs == [] && erased == []
      modifies this`uses, this`usedBy
      ensures Valid()
    {
      hide Recorded, FoundIn, RefsOf, Tracks, InAllClosed, WellFormed, Pairs;
      uses := map s | s in code.structs :: {};
      usedBy := map s | s in code.structs :: {};
      NothingRecorded(code, uses, usedBy);
      var k := 0;
      while k < |code.ops|
        invariant k <= |code.ops| && Recorded(code.structs, RefsOf(code.ops[..k]), uses, usedBy)
      {
        var op := code.ops[k];
        RefsNext(code.ops, k);
        if op.parent.Some? {
          AddOp(op.parent.value, op, RefsOf(code.ops[..k]));
        } else {
          assert RefsOf(code.ops[..k]) + [] == RefsOf(code.ops[..k]);
        }
        k := k + 1;
      }
      assert code.ops[..|code.ops|] == code.ops;
      GatheredFormed(code);
      RecordEnd(program, uses, usedBy);
      assert Removed() == {};
    }

    /** Queues every struct that now has no users, in any order. */
    method UpdateUnusedStructs()
      requires Valid() && unusedStructs == []
      modifies this`unusedStructs
      ensures Valid() && (unusedStructs == [] ==> NoneUnused(program, usedBy))
    {
      var todo := usedBy.Keys;
      while todo != {}
        invariant Valid() && todo <= usedBy.Keys && (forall i :: 0 <= i < |unusedStructs| ==> unusedStructs[i] !in todo)
        invariant unusedStructs == [] ==> forall s :: s in usedBy && s !in todo && usedBy[s] == {} ==> s in program.main
        decreases todo
      {
        var structDef :| structDef in todo;
        if usedBy[structDef] == {} && structDef !in code.main { unusedStructs := unusedStructs + [structDef]; }
        todo := todo - {structDef};
      }
    }

    /** Takes a struct out of the module and of both maps. */
    method Remove(unusedStruct: S)
      requires Valid() && unusedStruct in uses && unusedStruct in usedBy && usedBy[unusedStruct] == {}
      requires unusedStruct !in program.main
      requires forall i :: 0 <= i < |unusedStructs| ==> unusedStructs[i] != unusedStruct
      modifies this`uses, this`usedBy, this`erased
      ensures Valid() && erased == old(erased) + [unusedStruct]
    {
      hide InAllClosed, Tracks, Unlinked, Uses;
      var usedBy0, todo := usedBy, uses[unusedStruct];
      StillThere(program, Removed(), uses, usedBy, unusedStruct);
      assert unusedStruct !in erased;
      StartUnlink(program, Removed(), uses, usedBy, unusedStruct);
      while todo != {}
        invariant uses == old(uses) && erased == old(erased)
        invariant Unlinked(uses[unusedStruct], unusedStruct, usedBy0, usedBy, todo)
        decreases todo
      {
        var usedStruct :| usedStruct in todo;
        UnlinkStep(uses[unusedStruct], unusedStruct, usedBy0, usedBy, todo, usedStruct);
        usedBy := usedBy[usedStruct := usedBy[usedStruct] - {unusedStruct}];
        todo := todo - {usedStruct};
      }
      UnlinkedAll(program, Removed(), uses, usedBy0, usedBy, unusedStruct);
      ghost var removed0 := Removed();
      usedBy := usedBy - {unusedStruct};
      RemoveStep(program, removed0, uses, usedBy0, usedBy, unusedStruct);
      uses := uses - {unusedStruct};
      erased := erased + [unusedStruct];
      assert Removed() == removed0 + {unusedStruct};
    }

    /** Removes exactly the least closed set, each struct once. */
    method RemoveUnusedStructs()
      requires Resolved(code) && unusedStructs == [] && erased == []
      modifies this
      ensures IsLeast(program, Removed()) && forall i, j :: 0 <= i < j < |erased| ==> erased[i] != erased[j]
      ensures forall r: set<S> :: IsLeast(program, r) ==> r == Removed()
      ensures uses.Keys == program.structs - Removed()
      ensures forall a, b :: a in uses && b in uses[a] <==> b in usedBy && a in usedBy[b]
    {
      hide Closed, InAllClosed, Tracks;
      CollectUses();
      UpdateUnusedStructs();
      while unusedStructs != []
        invariant Valid() && (unusedStructs == [] ==> NoneUnused(program, usedBy))
        decreases program.structs - Removed()
      {
        var last := |unusedStructs| - 1;
        var unusedStruct := unusedStructs[last];
        unusedStructs := unusedStructs[..last];
        StillThere(program, Removed(), uses, usedBy, unusedStruct);
        Remove(unusedStruct);
        if unusedStructs == [] { UpdateUnusedStructs(); }
      }
      NothingLeft(program, Removed(), uses, usedBy);
      TracksInverse(program, Removed(), uses, usedBy);
      StillThere(program, Removed(), uses, usedBy, 0);
      forall r: set<S> | IsLeast(program, r) ensures r == Removed() { LeastUnique(program, r, Removed()); }
    }
  }

  lemma StillThere(p: Program, removed: set<S>, uses: map<S, set<S>>, usedBy: map<S, set<S>>, s: S)
    requires Tracks(p, removed, uses, usedBy)
    ensures s in usedBy ==> s in uses && s in p.structs - removed
    ensures uses.Keys == p.structs - removed
  {}
}
