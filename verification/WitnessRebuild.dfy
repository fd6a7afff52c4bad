/** The compute side of degree lowering: the expressions of the generated members are rebuilt at
    the end of the `compute` body, and written in dependency order. */
module WitnessRebuild {
  import opened Ir
  import opened LoweringState
  import opened PolyLowering
  import opened LoweringMeaning
  import opened AuxOrder

  /** A compute-side value: the struct itself, an argument, or the result of an appended operation. */
  datatype CVal = Self | Argument(n: nat) | Result(i: nat)

  datatype CInstr =
    | CConst(c: int)
    | CRead(name: Name)
    | CBin(kind: BinKind, l: CVal, r: CVal)
    | CNeg(x: CVal)
    | CWrite(name: Name, value: CVal)

  predicate InRange(v: CVal, n: nat) { v.Result? ==> v.i < n }

  /** Appended operations use only earlier results. */
  ghost predicate Ordered(prog: seq<CInstr>) {
    forall i :: 0 <= i < |prog| ==> UsesInRange(prog[i], i)
  }

  predicate UsesInRange(instr: CInstr, i: nat) {
    match instr
    case CBin(_, l, r) => InRange(l, i) && InRange(r, i)
    case CNeg(x) => InRange(x, i)
    case CWrite(_, v) => InRange(v, i)
    case CConst(_) => true
    case CRead(_) => true
  }

  /** The source expression a compute-side value amounts to. */
  ghost function Meaning(prog: seq<CInstr>, v: CVal): Expr
    requires Ordered(prog) && InRange(v, |prog|)
    decreases if v.Result? then v.i + 1 else 0
  {
    match v
    case Self => ELeaf(Arg(0))
    case Argument(n) => ELeaf(Arg(n + 1))
    case Result(i) =>
      match prog[i]
      case CConst(c) => EConst(c)
      case CRead(name) => ELeaf(Member(name))
      case CBin(k, l, r) => EBin(k, Meaning(prog, l), Meaning(prog, r))
      case CNeg(x) => ENeg(Meaning(prog, x))
      case CWrite(_, _) => EConst(0)
  }

  lemma {:induction false} MeaningAppend(prog: seq<CInstr>, prog': seq<CInstr>, v: CVal)
    requires Ordered(prog) && Ordered(prog') && prog <= prog' && InRange(v, |prog|)
    ensures Meaning(prog', v) == Meaning(prog, v)
    decreases if v.Result? then v.i + 1 else 0
  {
    if v.Result? {
      match prog[v.i] {
        case CBin(_, l, r) => MeaningAppend(prog, prog', l); MeaningAppend(prog, prog', r);
        case CNeg(x) => MeaningAppend(prog, prog', x);
        case _ =>
      }
    }
  }

  /** Each value rebuilt so far amounts to the source expression of the value it was rebuilt from. */
  ghost predicate MemoSound(s: State, prog: seq<CInstr>, memo: map<Id, CVal>) {
    Ordered(prog) && forall y ::
      y in memo ==> y in s.tree && InRange(memo[y], |prog|) && Meaning(prog, memo[y]) == s.tree[y]
  }

  ghost predicate Extends(memo: map<Id, CVal>, memo': map<Id, CVal>) {
    forall y :: y in memo ==> y in memo' && memo'[y] == memo[y]
  }

  ghost predicate NoWrites(prog: seq<CInstr>, prog': seq<CInstr>) {
    prog <= prog' && forall i :: |prog| <= i < |prog'| ==> !prog'[i].CWrite?
  }

  /** Value `x` is, or is built from, a nondeterministic value, which the compute side cannot rebuild. */
  ghost predicate NonDetIn(ops: map<Id, Op>, order: seq<Id>, x: Id)
    requires WellFormed(ops, order) && x in ops && ops[x].IsValue()
  {
    exists y :: y in Reach(ops, order, x) && y in ops && ops[y].Leaf? && ops[y].src.NonDet?
  }

  lemma NonDetParts(ops: map<Id, Op>, order: seq<Id>, x: Id)
    requires WellFormed(ops, order) && x in ops && ops[x].IsValue()
    ensures match ops[x]
            case Leaf(src) => NonDetIn(ops, order, x) <==> src.NonDet?
            case Const(_) => !NonDetIn(ops, order, x)
            case Bin(_, l, r) =>
              l in ops && ops[l].IsValue() && r in ops && ops[r].IsValue() &&
              (NonDetIn(ops, order, x) <==> NonDetIn(ops, order, l) || NonDetIn(ops, order, r))
            case Neg(y) => y in ops && ops[y].IsValue() && (NonDetIn(ops, order, x) <==> NonDetIn(ops, order, y))
            case _ => true
  {
    assert forall y :: y in Operands(ops[x]) ==> UsesBefore(ops, order, x, y);
    if ops[x].Bin? { assert ops[x].l in Operands(ops[x]) && ops[x].r in Operands(ops[x]); }
    if ops[x].Neg? { assert ops[x].x in Operands(ops[x]); }
    hide WellFormed;
    if ops[x].Leaf? { assert x in Reach(ops, order, x); }
  }

  /** Nothing rebuilt so far is built from a nondeterministic value. */
  ghost predicate Clean(ops: map<Id, Op>, order: seq<Id>, memo: map<Id, CVal>)
    requires WellFormed(ops, order)
  {
    forall y :: y in memo && y in ops && ops[y].IsValue() ==> !NonDetIn(ops, order, y)
  }

  lemma CleanPut(ops: map<Id, Op>, order: seq<Id>, memo: map<Id, CVal>, x: Id, v: CVal)
    requires WellFormed(ops, order) && Clean(ops, order, memo)
    requires (x in ops && ops[x].IsValue() ==> !NonDetIn(ops, order, x))
    ensures Clean(ops, order, memo[x := v])
  {
    hide NonDetIn, WellFormed;
  }

  lemma CleanGet(ops: map<Id, Op>, order: seq<Id>, memo: map<Id, CVal>, x: Id)
    requires WellFormed(ops, order) && Clean(ops, order, memo) && x in memo && x in ops && ops[x].IsValue()
    ensures !NonDetIn(ops, order, x)
  {}

  /** Everything value `x` is built from that reads a generated member has been rebuilt. */
  ghost predicate Ready(ops: map<Id, Op>, order: seq<Id>, x: Id, memo: map<Id, CVal>)
    requires WellFormed(ops, order) && x in ops && ops[x].IsValue()
  {
    forall y :: y in Reach(ops, order, x) && y in ops && IsAuxRead(ops[y]) ==> y in memo
  }

  predicate IsAuxRead(op: Op) { op.Leaf? && IsAux(op.src) }

  /** Operation `instr` computes `e` from values already rebuilt. */
  ghost predicate Computes(s: State, memo: map<Id, CVal>, instr: CInstr, e: Expr) {
    match instr
    case CConst(k) => e == EConst(k)
    case CRead(name) => e == ELeaf(Member(name))
    case CBin(k, vl, vr) => exists l, r ::
      l in memo && r in memo && l in s.tree && r in s.tree && memo[l] == vl && memo[r] == vr &&
      e == EBin(k, s.tree[l], s.tree[r])
    case CNeg(vx) => exists x :: x in memo && x in s.tree && memo[x] == vx && e == ENeg(s.tree[x])
    case CWrite(_, _) => false
  }

  lemma LeafComputes(s: State, memo: map<Id, CVal>, e: Expr)
    ensures e.EConst? ==> Computes(s, memo, CConst(e.c), e)
    ensures e.ELeaf? && e.src.Member? ==> Computes(s, memo, CRead(e.src.name), e)
  {}

  lemma BinComputes(s: State, memo: map<Id, CVal>, k: BinKind, l: Id, r: Id)
    requires l in memo && r in memo && l in s.tree && r in s.tree
    ensures Computes(s, memo, CBin(k, memo[l], memo[r]), EBin(k, s.tree[l], s.tree[r]))
  {}

  lemma NegComputes(s: State, memo: map<Id, CVal>, x: Id)
    requires x in memo && x in s.tree
    ensures Computes(s, memo, CNeg(memo[x]), ENeg(s.tree[x]))
  {}

  lemma MemoPutSound(s: State, prog: seq<CInstr>, memo: map<Id, CVal>, x: Id, instr: CInstr)
    requires MemoSound(s, prog, memo) && x in s.tree && Computes(s, memo, instr, s.tree[x])
    ensures MemoSound(s, prog + [instr], memo[x := Result(|prog|)])
  {
    assert Ordered(prog + [instr]);
    forall y | y in memo ensures Meaning(prog + [instr], memo[y]) == s.tree[y] {
      MeaningAppend(prog, prog + [instr], memo[y]);
    }
  }

  lemma ArgPutSound(s: State, prog: seq<CInstr>, memo: map<Id, CVal>, x: Id, n: nat)
    requires MemoSound(s, prog, memo) && x in s.tree && s.tree[x] == ELeaf(Arg(n))
    ensures MemoSound(s, prog, memo[x := if n == 0 then Self else Argument(n - 1)])
  {}

  lemma ReadyStays(ops: map<Id, Op>, order: seq<Id>, x: Id, memo: map<Id, CVal>, memo': map<Id, CVal>)
    requires WellFormed(ops, order) && x in ops && ops[x].IsValue() && Ready(ops, order, x, memo)
    requires Extends(memo, memo')
    ensures Ready(ops, order, x, memo')
  {}

  /** What rebuilding the value `x` relies on. */
  lemma RebuildFacts(c: Config, s: State, x: Id, memo: map<Id, CVal>)
    requires Inv(c, s) && x in s.ops && s.ops[x].IsValue() && Ready(s.ops, s.order, x, memo)
    ensures WellFormed(s.ops, s.order) && x in s.tree && x in s.order && (IsAuxRead(s.ops[x]) ==> x in memo)
    ensures forall y ::
        y in Operands(s.ops[x]) ==> y in s.ops && s.ops[y].IsValue() && y in s.tree && Ready(s.ops, s.order, y, memo)
    ensures forall y :: y in Operands(s.ops[x]) ==> y in s.order && Pos(s.order, y) < Pos(s.order, x)
    ensures match s.ops[x]
            case Const(k) => s.tree[x] == EConst(k)
            case Leaf(src) => IsAux(src) || s.tree[x] == ELeaf(src)
            case Bin(k, l, r) => l in s.tree && r in s.tree && s.tree[x] == EBin(k, s.tree[l], s.tree[r])
            case Neg(y) => y in s.tree && s.tree[x] == ENeg(s.tree[y])
            case _ => true
  {
    OperandFacts(c, s, x);
    forall y | y in Operands(s.ops[x]) ensures UsesBefore(s.ops, s.order, x, y) && Ready(s.ops, s.order, y, memo) {
      assert UsesBefore(s.ops, s.order, x, y);
    }
  }

  /** A leaf or a constant. */
  method RebuildLeaf(op: Op, val: Id, prog: seq<CInstr>, memo: map<Id, CVal>, ghost s: State)
    returns (ok: bool, v: CVal, prog': seq<CInstr>, memo': map<Id, CVal>)
    requires (op.Leaf? || op.Const?) && MemoSound(s, prog, memo) && val !in memo && val in s.tree
    requires s.tree[val] == if op.Leaf? then ELeaf(op.src) else EConst(op.c)
    ensures NoWrites(prog, prog') && MemoSound(s, prog', memo')
    ensures ok <==> !(op.Leaf? && op.src.NonDet?)
    ensures memo' == if ok then memo[val := v] else memo
  {
    hide MemoSound, Computes, Meaning;
    match op {
      case Leaf(Arg(n)) =>
        ArgPutSound(s, prog, memo, val, n);
        v := if n == 0 then Self else Argument(n - 1);
        return true, v, prog, memo[val := v];
      case Leaf(NonDet(_)) =>
        return false, Self, prog, memo;
      case Leaf(Member(name)) =>
        LeafComputes(s, memo, s.tree[val]);
        MemoPutSound(s, prog, memo, val, CRead(name));
        return true, Result(|prog|), prog + [CRead(name)], memo[val := Result(|prog|)];
      case Const(k) =>
        LeafComputes(s, memo, s.tree[val]);
        MemoPutSound(s, prog, memo, val, CConst(k));
        return true, Result(|prog|), prog + [CConst(k)], memo[val := Result(|prog|)];
    }
  }

  lemma Onward(prog: seq<CInstr>, prog1: seq<CInstr>, prog2: seq<CInstr>, memo: map<Id, CVal>, memo1: map<Id, CVal>,
          memo2: map<Id, CVal>)
    ensures NoWrites(prog, prog) && Extends(memo, memo)
    ensures NoWrites(prog, prog1) && NoWrites(prog1, prog2) ==> NoWrites(prog, prog2)
    ensures Extends(memo, memo1) && Extends(memo1, memo2) ==> Extends(memo, memo2)
  {}

  lemma ExtendsAt(memo: map<Id, CVal>, memo': map<Id, CVal>, x: Id)
    requires Extends(memo, memo') && x in memo
    ensures x in memo' && memo'[x] == memo[x]
  {}

  /** What was appended and memoised before stays when `x`, which was not memoised at first, is. */
  lemma Put(prog: seq<CInstr>, prog1: seq<CInstr>, prog2: seq<CInstr>, memo: map<Id, CVal>, memo1: map<Id, CVal>, x: Id,
          v: CVal)
    requires NoWrites(prog, prog1) && NoWrites(prog1, prog2) && Extends(memo, memo1) && x !in memo
    ensures NoWrites(prog, prog2) && Extends(memo, memo1[x := v])
  {}

  /** An operation with rebuilt operands, appended and memoised. */
  method Remember(ops: map<Id, Op>, val: Id, instr: CInstr, prog: seq<CInstr>, memo: map<Id, CVal>, ghost s: State)
    returns (v: CVal, prog': seq<CInstr>, memo': map<Id, CVal>)
    requires MemoSound(s, prog, memo) && val in s.tree && Computes(s, memo, instr, s.tree[val])
    requires WellFormed(ops, s.order) && Clean(ops, s.order, memo)
    requires val in ops && ops[val].IsValue() && !NonDetIn(ops, s.order, val)
    ensures NoWrites(prog, prog') && MemoSound(s, prog', memo') && Clean(ops, s.order, memo') && memo' == memo[val := v]
  {
    hide WellFormed, MemoSound, NonDetIn, Clean, Meaning;
    MemoPutSound(s, prog, memo, val, instr);
    v := Result(|prog|);
    CleanPut(ops, s.order, memo, val, v);
    memo' := memo[val := v];
    prog' := prog + [instr];
  }

  method RebuildExprInCompute(ops: map<Id, Op>, val: Id, prog: seq<CInstr>, memo: map<Id, CVal>, ghost c: Config,
          ghost s: State)
    returns (ok: bool, v: CVal, prog': seq<CInstr>, memo': map<Id, CVal>)
    requires Inv(c, s) && s.ops == ops && val in ops && ops[val].IsValue() && MemoSound(s, prog, memo)
    requires Ready(ops, s.order, val, memo) && Clean(ops, s.order, memo)
    ensures NoWrites(prog, prog') && Extends(memo, memo') && MemoSound(s, prog', memo') && Clean(ops, s.order, memo')
    ensures ok ==> val in memo' && v == memo'[val]
    ensures ok <==> !NonDetIn(ops, s.order, val)
    decreases Pos(s.order, val)
  {
    hide Inv, WellFormed, Reach, Ready, MemoSound, NonDetIn, Clean, Computes, Meaning, NoWrites, Extends;
    RebuildFacts(c, s, val, memo);
    NonDetParts(ops, s.order, val);
    Onward(prog, prog, prog, memo, memo, memo);
    if val in memo {
      CleanGet(ops, s.order, memo, val);
      return true, memo[val], prog, memo;
    }
    match ops[val] {
      case Bin(k, l, r) =>
        assert l in Operands(ops[val]) && r in Operands(ops[val]);
        var okL, vl, progL, memoL := RebuildExprInCompute(ops, l, prog, memo, c, s);
        ReadyStays(ops, s.order, r, memo, memoL);
        var okR, vr;
        okR, vr, prog', memo' := RebuildExprInCompute(ops, r, progL, memoL, c, s);
        Onward(prog, progL, prog', memo, memoL, memo');
        if !okL || !okR {
          return false, Self, prog', memo';
        }
        ExtendsAt(memoL, memo', l);
        BinComputes(s, memo', k, l, r);
        ghost var prog2, memo2 := prog', memo';
        v, prog', memo' := Remember(ops, val, CBin(k, vl, vr), prog', memo', s);
        Put(prog, prog2, prog', memo, memo2, val, v);
        ok := true;
      case Neg(x) =>
        assert x in Operands(ops[val]);
        var vx;
        ok, vx, prog', memo' := RebuildExprInCompute(ops, x, prog, memo, c, s);
        if !ok {
          return false, Self, prog', memo';
        }
        NegComputes(s, memo', x);
        ghost var prog1, memo1 := prog', memo';
        v, prog', memo' := Remember(ops, val, CNeg(vx), prog', memo', s);
        Put(prog, prog1, prog', memo, memo1, val, v);
      case Leaf(_) =>
        ok, v, prog', memo' := RebuildLeaf(ops[val], val, prog, memo, s);
        if ok {
          CleanPut(ops, s.order, memo, val, v);
          Put(prog, prog, prog', memo, memo, val, v);
        }
      case Const(_) =>
        ok, v, prog', memo' := RebuildLeaf(ops[val], val, prog, memo, s);
        CleanPut(ops, s.order, memo, val, v);
        Put(prog, prog, prog', memo, memo, val, v);
    }
  }

  // ---------- the write loop ----------

  /** Every write is to a generated member, of its own source expression. */
  ghost predicate WritesSound(c: Config, s: State, prog: seq<CInstr>)
    requires Inv(c, s) && Ordered(prog)
  {
    forall i :: 0 <= i < |prog| && prog[i].CWrite? ==>
      && prog[i].name.Auxiliary? && c.base <= prog[i].name.k < c.base + |s.aux|
      && AuxEntryOk(c, s, prog[i].name.k - c.base)
      && UsesInRange(prog[i], i) && Meaning(prog, prog[i].value) == s.tree[s.aux[prog[i].name.k - c.base].computed]
  }

  ghost predicate Written(c: Config, s: State, prog: seq<CInstr>, k: nat) {
    exists i :: 0 <= i < |prog| && prog[i].CWrite? && prog[i].name == Auxiliary(c.base + k)
  }

  lemma WritesExtend(c: Config, s: State, prog: seq<CInstr>, prog': seq<CInstr>)
    requires Inv(c, s) && Ordered(prog) && Ordered(prog') && WritesSound(c, s, prog) && NoWrites(prog, prog')
    ensures WritesSound(c, s, prog')
  {
    hide Inv, AuxEntryOk;
    forall i | 0 <= i < |prog'| && prog'[i].CWrite?
      ensures Meaning(prog', prog'[i].value) == Meaning(prog, prog[i].value)
    {
      assert prog'[i] == prog[i] && UsesInRange(prog[i], i);
      MeaningAppend(prog, prog', prog[i].value);
    }
  }

  lemma AppendMemo(s: State, prog: seq<CInstr>, memo: map<Id, CVal>, name: Name, v: CVal, x: Id)
    requires MemoSound(s, prog, memo) && InRange(v, |prog|) && x in s.tree && Meaning(prog, v) == s.tree[x]
    ensures MemoSound(s, prog + [CWrite(name, v)], memo[x := v])
  {
    var prog' := prog + [CWrite(name, v)];
    assert forall i :: 0 <= i < |prog| ==> prog'[i] == prog[i];
    assert Ordered(prog');
    MeaningAppend(prog, prog', v);
    forall y | y in memo ensures Meaning(prog', memo[y]) == s.tree[y] { MeaningAppend(prog, prog', memo[y]); }
  }

  lemma AuxEntryHere(c: Config, s: State, k: nat)
    requires Inv(c, s) && k < |s.aux|
    ensures AuxEntryOk(c, s, k)
  {
  }

  lemma AppendWrites(c: Config, s: State, prog: seq<CInstr>, k: nat, v: CVal)
    requires Inv(c, s) && Ordered(prog) && WritesSound(c, s, prog) && k < |s.aux| && InRange(v, |prog|)
    requires s.aux[k].computed in s.tree && Meaning(prog, v) == s.tree[s.aux[k].computed]
    ensures var prog' := prog + [CWrite(Auxiliary(c.base + k), v)]; Ordered(prog') && WritesSound(c, s, prog')
  {
    hide Inv, AuxEntryOk;
    var prog' := prog + [CWrite(Auxiliary(c.base + k), v)];
    AuxEntryHere(c, s, k);
    forall i | 0 <= i < |prog| ensures prog'[i] == prog[i] && UsesInRange(prog[i], i) {}
    assert Ordered(prog');
    MeaningAppend(prog, prog', v);
    forall i | 0 <= i < |prog| && prog[i].CWrite?
      ensures Meaning(prog', prog[i].value) == Meaning(prog, prog[i].value)
    {
      MeaningAppend(prog, prog', prog[i].value);
    }
  }

  lemma AppendWritten(c: Config, s: State, prog: seq<CInstr>, k: nat, v: CVal)
    ensures var prog' := prog + [CWrite(Auxiliary(c.base + k), v)];
            Written(c, s, prog', k) && KeepsWritten(c, s, prog, prog')
  {
    var prog' := prog + [CWrite(Auxiliary(c.base + k), v)];
    forall j: nat | Written(c, s, prog, j) || j == k ensures Written(c, s, prog', j) {
      if j == k {
        assert prog'[|prog|].CWrite?;
      } else {
        var i :| 0 <= i < |prog| && prog[i].CWrite? && prog[i].name == Auxiliary(c.base + j);
        assert prog'[i] == prog[i];
      }
    }
  }

  /** Everything member `k` is built from that reads a generated member has been rebuilt. */
  lemma ReadsReady(c: Config, s: State, ordered: seq<nat>, q: nat, memo: map<Id, CVal>)
    requires Inv(c, s) && WriteOrder(c, s, ordered) && q < |ordered|
    requires forall j :: 0 <= j < q ==> ordered[j] < |s.aux| && s.aux[ordered[j]].auxValue in memo
    ensures ordered[q] < |s.aux|
    ensures var x := s.aux[ordered[q]].computed;
            && x in s.ops && s.ops[x].IsValue()
            && Ready(s.ops, s.order, x, memo)
  {
    var k := ordered[q];
    assert k in ordered && AuxEntryOk(c, s, k);
    forall y | y in Reach(s.ops, s.order, s.aux[k].computed) && y in s.ops && IsAuxRead(s.ops[y]) ensures y in memo {
      assert NodeOk(c, s, y);
      var d := s.ops[y].src.name.k - c.base;
      if d == k {
        assert y == s.aux[k].auxValue;
        ReachShrinks(c, s, s.aux[k].computed, y);
      }
      assert d in AuxDeps(c, s, k);
      assert ordered[Pos(ordered, d)] == d;
    }
  }

  /** What was written stays written. */
  ghost predicate KeepsWritten(c: Config, s: State, prog: seq<CInstr>, prog': seq<CInstr>) {
    forall k: nat :: Written(c, s, prog, k) ==> Written(c, s, prog', k)
  }

  /** The rebuilt value of member `k`, written: the value stands for the member's read from now on. */
  lemma WriteMemo(c: Config, s: State, prog: seq<CInstr>, memo: map<Id, CVal>, k: nat, v: CVal)
    requires Inv(c, s) && k < |s.aux| && MemoSound(s, prog, memo) && s.aux[k].computed in memo
    requires v == memo[s.aux[k].computed]
    ensures MemoSound(s, prog + [CWrite(Auxiliary(s.aux[k].name), v)], memo[s.aux[k].auxValue := v])
  {
    hide Inv;
    AuxNamed(c, s, k);
    AppendMemo(s, prog, memo, Auxiliary(s.aux[k].name), v, s.aux[k].auxValue);
  }

  lemma WriteSound(c: Config, s: State, prog: seq<CInstr>, prog1: seq<CInstr>, memo: map<Id, CVal>, k: nat, v: CVal)
    requires Inv(c, s) && k < |s.aux| && Ordered(prog) && WritesSound(c, s, prog) && NoWrites(prog, prog1)
    requires MemoSound(s, prog1, memo) && s.aux[k].computed in memo && v == memo[s.aux[k].computed]
    ensures Ordered(prog1 + [CWrite(Auxiliary(s.aux[k].name), v)])
    ensures WritesSound(c, s, prog1 + [CWrite(Auxiliary(s.aux[k].name), v)])
  {
    hide Inv, AuxEntryOk, WritesSound, NoWrites, KeepsWritten;
    AuxNamed(c, s, k);
    WritesExtend(c, s, prog, prog1);
    AppendWrites(c, s, prog1, k, v);
  }

  lemma WriteKept(c: Config, s: State, prog: seq<CInstr>, prog1: seq<CInstr>, k: nat, v: CVal)
    requires Inv(c, s) && k < |s.aux| && NoWrites(prog, prog1)
    ensures KeepsWritten(c, s, prog, prog1 + [CWrite(Auxiliary(s.aux[k].name), v)])
    ensures Written(c, s, prog1 + [CWrite(Auxiliary(s.aux[k].name), v)], k)
  {
    hide Inv;
    AuxNamed(c, s, k);
    KeptWrites(c, s, prog, prog1);
    AppendWritten(c, s, prog1, k, v);
  }

  lemma KeptWrites(c: Config, s: State, prog: seq<CInstr>, prog1: seq<CInstr>)
    requires NoWrites(prog, prog1)
    ensures KeepsWritten(c, s, prog, prog1)
  {
    forall k: nat | Written(c, s, prog, k) ensures Written(c, s, prog1, k) {
      var i :| 0 <= i < |prog| && prog[i].CWrite? && prog[i].name == Auxiliary(c.base + k);
      assert prog1[i] == prog[i];
    }
  }

  lemma AuxReadClean(c: Config, s: State, k: nat)
    requires Inv(c, s) && k < |s.aux|
    ensures WellFormed(s.ops, s.order) && s.aux[k].auxValue in s.ops && s.ops[s.aux[k].auxValue].IsValue()
    ensures !NonDetIn(s.ops, s.order, s.aux[k].auxValue)
  {
    assert AuxEntryOk(c, s, k);
    hide Inv;
  }

  /** Rebuild member `k` and append its write. */
  method WriteAuxiliary(ops: map<Id, Op>, aux: seq<AuxAssignment>, k: nat, prog: seq<CInstr>, memo: map<Id, CVal>,
          ghost c: Config, ghost s: State)
    returns (ok: bool, prog': seq<CInstr>, memo': map<Id, CVal>)
    requires Inv(c, s) && s.ops == ops && s.aux == aux && k < |aux| && MemoSound(s, prog, memo)
    requires WritesSound(c, s, prog)
    requires aux[k].computed in ops && ops[aux[k].computed].IsValue() && Ready(ops, s.order, aux[k].computed, memo)
    requires Clean(ops, s.order, memo)
    ensures MemoSound(s, prog', memo') && WritesSound(c, s, prog') && KeepsWritten(c, s, prog, prog')
    ensures ok ==> memo.Keys <= memo'.Keys && aux[k].auxValue in memo' && Written(c, s, prog', k)
    ensures Clean(ops, s.order, memo') && (ok <==> !NonDetIn(ops, s.order, aux[k].computed))
  {
    MemoGet(s, prog, memo);
    hide Inv, WritesSound, Written, Ordered, Meaning, AuxEntryOk, Reach, MemoSound, KeepsWritten, Ready, NoWrites,
        NonDetIn, Clean;
    var v;
    ok, v, prog', memo' := RebuildExprInCompute(ops, aux[k].computed, prog, memo, c, s);
    if !ok {
      MemoGet(s, prog', memo');
      WritesExtend(c, s, prog, prog');
      KeptWrites(c, s, prog, prog');
      return;
    }
    WriteMemo(c, s, prog', memo', k, v);
    WriteSound(c, s, prog, prog', memo', k, v);
    WriteKept(c, s, prog, prog', k, v);
    AuxReadClean(c, s, k);
    CleanPut(ops, s.order, memo', aux[k].auxValue, v);
    prog' := prog' + [CWrite(Auxiliary(aux[k].name), v)];
    memo' := memo'[aux[k].auxValue := v];
  }

  lemma BodyFormed(c: Config, s: State)
    requires Inv(c, s)
    ensures WellFormed(s.ops, s.order)
  {}

  /** Member `k` is computed from nothing nondeterministic. */
  ghost predicate Rebuildable(s: State, k: nat)
    requires WellFormed(s.ops, s.order)
  {
    k < |s.aux| && s.aux[k].computed in s.ops && s.ops[s.aux[k].computed].IsValue() &&
      !NonDetIn(s.ops, s.order, s.aux[k].computed)
  }

  /** The first `q` members of `ordered` are written, and their reads are rebuilt. */
  ghost predicate Progress(c: Config, s: State, ordered: seq<nat>, q: nat, prog: seq<CInstr>, memo: map<Id, CVal>)
    requires Inv(c, s) && q <= |ordered|
  {
    && MemoSound(s, prog, memo) && WritesSound(c, s, prog)
    && Clean(s.ops, s.order, memo)
    && forall j ::
      0 <= j < q ==>
      ordered[j] < |s.aux| && s.aux[ordered[j]].auxValue in memo && Written(c, s, prog, ordered[j]) &&
      Rebuildable(s, ordered[j])
  }

  lemma ProgressStart(c: Config, s: State, ordered: seq<nat>)
    requires Inv(c, s)
    ensures WellFormed(s.ops, s.order) && Progress(c, s, ordered, 0, [], map[])
  {}

  lemma ProgressStep(c: Config, s: State, ordered: seq<nat>, q: nat, prog: seq<CInstr>, memo: map<Id, CVal>,
          prog': seq<CInstr>, memo': map<Id, CVal>)
    requires Inv(c, s) && q < |ordered| && Progress(c, s, ordered, q, prog, memo) && MemoSound(s, prog', memo')
    requires WritesSound(c, s, prog')
    requires KeepsWritten(c, s, prog, prog') && memo.Keys <= memo'.Keys
    requires ordered[q] < |s.aux| && s.aux[ordered[q]].auxValue in memo' && Written(c, s, prog', ordered[q])
    requires Clean(s.ops, s.order, memo') && Rebuildable(s, ordered[q])
    ensures Progress(c, s, ordered, q + 1, prog', memo')
  {
    hide Inv, MemoSound, WritesSound, Written;
  }

  lemma ProgressEnd(c: Config, s: State, ordered: seq<nat>, prog: seq<CInstr>, memo: map<Id, CVal>)
    requires Inv(c, s) && WriteOrder(c, s, ordered) && Progress(c, s, ordered, |ordered|, prog, memo)
    ensures WellFormed(s.ops, s.order)
    ensures forall k: nat :: k < |s.aux| ==> Written(c, s, prog, k) && Rebuildable(s, k)
  {
    hide Inv, WellFormed, MemoSound, WritesSound, Written, Rebuildable, Clean;
    BodyFormed(c, s);
    forall k: nat | k < |s.aux| ensures Written(c, s, prog, k) && Rebuildable(s, k) {
      assert k in ordered;
    }
  }

  lemma ProgressFacts(c: Config, s: State, ordered: seq<nat>, q: nat, prog: seq<CInstr>, memo: map<Id, CVal>)
    requires Inv(c, s) && q <= |ordered| && Progress(c, s, ordered, q, prog, memo)
    ensures WellFormed(s.ops, s.order) && Ordered(prog) && MemoSound(s, prog, memo) && WritesSound(c, s, prog)
    ensures Clean(s.ops, s.order, memo)
    ensures forall j :: 0 <= j < q ==> ordered[j] < |s.aux| && s.aux[ordered[j]].auxValue in memo
  {
    hide Inv, WellFormed, WritesSound, Written, Rebuildable, Clean;
    BodyFormed(c, s);
  }

  /** Rebuild and write every generated member, prerequisites first. */
  lemma NothingToWrite(c: Config, s: State, ordered: seq<nat>)
    requires Inv(c, s) && WriteOrder(c, s, ordered)
    ensures s.aux == [] ==> ordered == []
  {
    if ordered != [] { assert ordered[0] in ordered; }
  }

  method WriteAuxiliaries(ops: map<Id, Op>, aux: seq<AuxAssignment>, ghost c: Config, ghost s: State)
    returns (ok: bool, prog: seq<CInstr>)
    requires Inv(c, s) && s.ops == ops && s.aux == aux
    ensures Ordered(prog) && WritesSound(c, s, prog)
    ensures ok ==> forall k: nat :: k < |aux| ==> Written(c, s, prog, k)
    ensures WellFormed(ops, s.order) && (ok <==> forall k: nat :: k < |aux| ==> Rebuildable(s, k))
    ensures aux == [] ==> prog == []
  {
    hide Inv, WritesSound, WriteOrder, Written, Ordered, AuxEntryOk, MemoSound, Progress, KeepsWritten, NonDetIn, Clean,
        WellFormed;
    var sorted, ordered := OrderAuxAssignments(ops, aux, c, s);
    NothingToWrite(c, s, ordered);
    var memo: map<Id, CVal> := map[];
    prog := [];
    ProgressStart(c, s, ordered);
    var q := 0;
    while q < |ordered|
      invariant 0 <= q <= |ordered| && Progress(c, s, ordered, q, prog, memo) && (q == 0 ==> prog == [])
    {
      ghost var prog0, memo0 := prog, memo;
      ProgressFacts(c, s, ordered, q, prog, memo);
      ReadsReady(c, s, ordered, q, memo);
      ok, prog, memo := WriteAuxiliary(ops, aux, ordered[q], prog, memo, c, s);
      if !ok {
        MemoGet(s, prog, memo);
        assert !Rebuildable(s, ordered[q]);
        return;
      }
      ProgressStep(c, s, ordered, q, prog0, memo0, prog, memo);
      q := q + 1;
    }
    ok := true;
    ProgressFacts(c, s, ordered, q, prog, memo);
    ProgressEnd(c, s, ordered, prog, memo);
  }

  lemma MemoGet(s: State, prog: seq<CInstr>, memo: map<Id, CVal>)
    requires MemoSound(s, prog, memo)
    ensures Ordered(prog)
    ensures forall y :: y in memo ==> y in s.tree && InRange(memo[y], |prog|) && Meaning(prog, memo[y]) == s.tree[y]
  {}

  lemma AuxNamed(c: Config, s: State, k: nat)
    requires Inv(c, s) && k < |s.aux|
    ensures s.aux[k].auxValue in s.tree && s.aux[k].computed in s.tree
    ensures s.tree[s.aux[k].auxValue] == s.tree[s.aux[k].computed]
    ensures s.aux[k].name == c.base + k && s.aux[k].computed in s.ops && s.ops[s.aux[k].computed].IsValue()
    ensures s.aux[k].computed in s.tree
    ensures Pure(s.tree[s.aux[k].computed])
  {
    assert AuxEntryOk(c, s, k);
  }

  // ---------- running what was appended ----------

  /** What one run starts from: the struct value, the arguments, and the nondeterministic choices. */
  datatype Context = Context(self: int, args: nat -> int, nondet: nat -> int)

  datatype Machine = Machine(results: seq<int>, members: Name -> int)

  /** The values of all sources, given the members so far. */
  ghost function InputsOf(ctx: Context, members: Name -> int): Inputs {
    (src: Source) => match src
      case Arg(n) => if n == 0 then ctx.self else ctx.args(n - 1)
      case Member(name) => members(name)
      case NonDet(site) => ctx.nondet(site)
  }

  ghost function CValue(p: nat, v: CVal, ctx: Context, results: seq<int>): int
    requires p >= 2 && InRange(v, |results|)
  {
    match v
    case Self => ctx.self % p
    case Argument(n) => ctx.args(n) % p
    case Result(i) => results[i]
  }

  ghost function Run(p: nat, prog: seq<CInstr>, ctx: Context, members: Name -> int): (m: Machine)
    requires p >= 2 && Ordered(prog)
    ensures |m.results| == |prog|
  {
    if prog == [] then Machine([], members) else
      var n := |prog| - 1;
      var m := Run(p, prog[..n], ctx, members);
      assert UsesInRange(prog[n], n);
      match prog[n]
      case CConst(k) => m.(results := m.results + [k % p])
      case CRead(name) => m.(results := m.results + [m.members(name) % p])
      case CBin(k, l, r) =>
        m.(results := m.results + [Apply(p, k, CValue(p, l, ctx, m.results), CValue(p, r, ctx, m.results))])
      case CNeg(x) => m.(results := m.results + [(-CValue(p, x, ctx, m.results)) % p])
      case CWrite(name, v) => Machine(m.results + [0], other => if other == name then CValue(p, v, ctx, m.results)
        else m.members(other))
  }

  ghost predicate OnlyAuxWrites(prog: seq<CInstr>) {
    forall i :: 0 <= i < |prog| && prog[i].CWrite? ==> prog[i].name.Auxiliary?
  }

  /** Declared members have kept their values, and each pure value is that of its expression. */
  ghost predicate Agrees(p: nat, prog: seq<CInstr>, m: Machine, ctx: Context, members: Name -> int)
    requires p >= 2 && Ordered(prog) && |m.results| == |prog|
  {
    && (forall n :: m.members(Declared(n)) == members(Declared(n)))
    && (forall v: CVal :: InRange(v, |prog|) && Pure(Meaning(prog, v)) ==>
          CValue(p, v, ctx, m.results) == Value(p, Meaning(prog, v), InputsOf(ctx, members)))
  }

  lemma {:induction false} RunIsMeaning(p: nat, prog: seq<CInstr>, ctx: Context, members: Name -> int)
    requires p >= 2 && Ordered(prog) && OnlyAuxWrites(prog)
    ensures Agrees(p, prog, Run(p, prog, ctx, members), ctx, members)
  {
    var m := Run(p, prog, ctx, members);
    if prog == [] {
    } else {
      var n := |prog| - 1;
      RunIsMeaning(p, prog[..n], ctx, members);
      forall v: CVal | InRange(v, |prog|) && Pure(Meaning(prog, v))
        ensures CValue(p, v, ctx, m.results) == Value(p, Meaning(prog, v), InputsOf(ctx, members))
      {
        if InRange(v, n) {
          MeaningAppend(prog[..n], prog, v);
        } else {
          RunLast(p, prog, ctx, members);
        }
      }
    }
  }

  lemma RunLast(p: nat, prog: seq<CInstr>, ctx: Context, members: Name -> int)
    requires p >= 2 && Ordered(prog) && prog != [] && Pure(Meaning(prog, Result(|prog| - 1)))
    requires Agrees(p, prog[..|prog| - 1], Run(p, prog[..|prog| - 1], ctx, members), ctx, members)
    ensures Run(p, prog, ctx, members).results[|prog| - 1] ==
        Value(p, Meaning(prog, Result(|prog| - 1)), InputsOf(ctx, members))
  {
    var n := |prog| - 1;
    var m := Run(p, prog[..n], ctx, members);
    assert UsesInRange(prog[n], n);
    match prog[n] {
      case CBin(k, l, r) =>
        MeaningAppend(prog[..n], prog, l);
        MeaningAppend(prog[..n], prog, r);
        assert CValue(p, l, ctx, m.results) == Value(p, Meaning(prog, l), InputsOf(ctx, members));
        assert CValue(p, r, ctx, m.results) == Value(p, Meaning(prog, r), InputsOf(ctx, members));
      case CNeg(x) =>
        MeaningAppend(prog[..n], prog, x);
        assert CValue(p, x, ctx, m.results) == Value(p, Meaning(prog, x), InputsOf(ctx, members));
      case _ =>
    }
  }

  /** Every write to `name` is of expression `e`. */
  ghost predicate WritesOnly(prog: seq<CInstr>, name: Name, e: Expr)
    requires Ordered(prog)
  {
    forall i ::
      0 <= i < |prog| && prog[i].CWrite? && prog[i].name == name ==>
      UsesInRange(prog[i], i) && Meaning(prog, prog[i].value) == e
  }

  /** The value a member is left with is that of the one expression written to it. */
  lemma {:induction false} LastWrite(p: nat, prog: seq<CInstr>, n: nat, name: Name, e: Expr, ctx: Context,
          members: Name -> int)
    requires p >= 2 && Ordered(prog) && OnlyAuxWrites(prog) && Pure(e) && n <= |prog|
    requires WritesOnly(prog, name, e)
    requires exists i :: 0 <= i < n && prog[i].CWrite? && prog[i].name == name
    ensures Run(p, prog[..n], ctx, members).members(name) == Value(p, e, InputsOf(ctx, members))
  {
    assert prog[..n][..n - 1] == prog[..n - 1];
    var last := prog[n - 1];
    assert UsesInRange(last, n - 1);
    if last.CWrite? && last.name == name {
      RunIsMeaning(p, prog[..n - 1], ctx, members);
      MeaningAppend(prog[..n - 1], prog, last.value);
    } else {
      LastWrite(p, prog, n - 1, name, e, ctx, members);
    }
  }

  /** Running the appended writes stores in each generated member exactly the value its equality
      demands, and changes no declared member. */
  lemma WritesLand(p: nat, c: Config, s: State, prog: seq<CInstr>, ctx: Context, members: Name -> int, k: nat)
    requires p >= 2 && Inv(c, s) && Ordered(prog) && WritesSound(c, s, prog) && k < |s.aux| && Written(c, s, prog, k)
    ensures var after := Run(p, prog, ctx, members).members;
            && (forall n :: after(Declared(n)) == members(Declared(n)))
            && AuxDefined(p, s, InputsOf(ctx, after), k)
  {
    hide Inv, WritesSound, AuxEntryOk, Run, Meaning, Ordered, Value, Pure;
    AuxNamed(c, s, k);
    var e := s.tree[s.aux[k].computed];
    WritesOf(c, s, prog, k, e);
    RunIsMeaning(p, prog, ctx, members);
    WrittenValue(p, prog, Auxiliary(c.base + k), e, ctx, members);
  }

  lemma WrittenValue(p: nat, prog: seq<CInstr>, name: Name, e: Expr, ctx: Context, members: Name -> int)
    requires p >= 2 && Ordered(prog) && OnlyAuxWrites(prog) && Pure(e) && WritesOnly(prog, name, e)
    requires exists i :: 0 <= i < |prog| && prog[i].CWrite? && prog[i].name == name
    ensures var after := Run(p, prog, ctx, members).members;
            after(name) % p == Value(p, e, InputsOf(ctx, after))
  {
    var after := Run(p, prog, ctx, members).members;
    RunIsMeaning(p, prog, ctx, members);
    assert prog[..|prog|] == prog;
    LastWrite(p, prog, |prog|, name, e, ctx, members);
    hide Run, Meaning, Ordered;
    PureValue(p, e, InputsOf(ctx, members), InputsOf(ctx, after));
    ValueReduced(p, e, InputsOf(ctx, members));
  }

  lemma WritesOf(c: Config, s: State, prog: seq<CInstr>, k: nat, e: Expr)
    requires Inv(c, s) && Ordered(prog) && WritesSound(c, s, prog) && k < |s.aux| && s.aux[k].computed in s.tree
    requires e == s.tree[s.aux[k].computed]
    ensures OnlyAuxWrites(prog)
    ensures WritesOnly(prog, Auxiliary(c.base + k), e)
  {
    hide Inv, AuxEntryOk;
  }

  /** The witness the compute side completes satisfies the lowered constraints exactly when the
      witness before completion satisfies the original ones. */
  lemma WitnessComplete(p: nat, c: Config, s0: State, s: State, prog: seq<CInstr>, ctx: Context, members: Name -> int,
          rel: Relation)
    requires p >= 2 && Inv(c, s0) && s0.aux == [] && Inv(c, s)
    requires Ordered(prog) && WritesSound(c, s, prog) && forall k: nat :: k < |s.aux| ==> Written(c, s, prog, k)
    ensures var after := Run(p, prog, ctx, members).members;
            Satisfies(p, s.ops, s.order, InputsOf(ctx, after), rel) <==>
              Satisfies(p, s0.ops, s0.order, InputsOf(ctx, members), rel)
  {
    var after := Run(p, prog, ctx, members).members;
    var inp, inp' := InputsOf(ctx, members), InputsOf(ctx, after);
    LoweredMeaning(p, c, s0, inp, rel);
    LoweredMeaning(p, c, s, inp', rel);
    forall k | 0 <= k < |s.aux| ensures AuxDefined(p, s, inp', k) {
      WritesLand(p, c, s, prog, ctx, members, k);
    }
    RunIsMeaning(p, prog, ctx, members);
    assert AgreeOutside(inp, inp');
    forall x | x in c.checks ensures CheckHolds(p, c.checks[x], inp, rel) <==> CheckHolds(p, c.checks[x], inp', rel) {
      ChecksPure(c, s, x);
      CheckAgrees(p, c.checks[x], inp, inp', rel);
    }
  }
}
