/** Code with replaced values and erased operations runs like the original. */
module EliminationCorrect {
  import opened MemoryIr
  import opened KnownFacts
  import opened ReadWriteFacts

  function RewriteOffset(off: Offset, repl: map<Id, Id>): Offset {
    if off.Resolved? then off.(operands := TranslateAll(repl, off.operands)) else off
  }

  /** `op` with every replaced operand looked up. */
  function Rewrite(op: Op, repl: map<Id, Id>): Op {
    match op
    case Const(_) => op
    case Pure(tag, args) => Pure(tag, TranslateAll(repl, args))
    case NewStruct => op
    case ReadMember(comp, member, off) => ReadMember(Translate(repl, comp), member, RewriteOffset(off, repl))
    case WriteMember(comp, member, val) => WriteMember(Translate(repl, comp), member, Translate(repl, val))
    case NewArray(elems) => NewArray(TranslateAll(repl, elems))
    case ReadArray(arr, idx) => ReadArray(Translate(repl, arr), Translate(repl, idx))
    case WriteArray(arr, idx, val) => WriteArray(Translate(repl, arr), Translate(repl, idx), Translate(repl, val))
    case ReadGlobal(_) => op
    case WriteGlobal(name, val) => WriteGlobal(name, Translate(repl, val))
    case Load(addr) => Load(Translate(repl, addr))
    case Store(addr, val) => Store(Translate(repl, addr), Translate(repl, val))
    case Emit(args) => Emit(TranslateAll(repl, args))
    case Effect(tag, args) => Effect(tag, TranslateAll(repl, args))
  }

  lemma RewriteOperands(op: Op, repl: map<Id, Id>)
    ensures Operands(Rewrite(op, repl)) == TranslateAll(repl, Operands(op))
  {
    if op.ReadMember? && op.off.Resolved? {
      assert Operands(Rewrite(op, repl)) == [Translate(repl, op.comp)] + TranslateAll(repl, op.off.operands);
    }
  }

  predicate IsErasable(base: nat, prog: seq<Op>, v: Id) { base <= v < base + |prog| && prog[v - base].IsErasable() }

  /** The rewritten code with some reads (`gone`) and all redundant writes erased, closed under use. */
  ghost predicate Eliminated(base: nat, prog: seq<Op>, s: Facts, gone: set<Id>, code: seq<Option<Op>>) {
    && |code| == |prog| && Good(base, prog, |prog|, s)
    && (forall v :: v in gone ==> IsErasable(base, prog, v)) && (forall v :: v in s.repl ==> v in gone)
    && (forall i :: 0 <= i < |prog| ==> code[i] == if i in s.redundant || base + i in gone then None
      else Some(Rewrite(prog[i], s.repl)))
    && (forall i, y :: 0 <= i < |prog| && code[i].Some? && y in Operands(code[i].value) ==> y !in gone)
  }

  function CellOfTarget(p: Place): Cell {
    if p.ElemPlace? then ElemCell(p.arr, p.index) else MemberCell(p.comp, p.member, 0)
  }

  /** A cell whose last write so far was erased because a later one overwrites it, or an element of an erased array. */
  ghost predicate Excused(base: nat, prog: seq<Op>, s: Facts, gone: set<Id>, i: nat, cell: Cell)
    requires Good(base, prog, |prog|, s)
  {
    || (cell.ElemCell? && cell.arr in gone)
    || exists x :: x in s.dead && x < i <= s.dead[x] && Overwrites(base, prog, x, cell)
  }

  ghost predicate Overwrites(base: nat, prog: seq<Op>, x: nat, cell: Cell) {
    x < |prog| && prog[x].IsWrite() && CellOfTarget(Target(base, prog, prog[x])) == cell
  }

  ghost predicate Agree(base: nat, prog: seq<Op>, s: Facts, gone: set<Id>, i: nat, a: Machine, b: Machine)
    requires Good(base, prog, |prog|, s)
  {
    && |a.env| == |b.env| == base + i
    && (forall v :: 0 <= v < base + i && v !in gone ==> a.env[v] == b.env[v])
    && (forall cell :: !Excused(base, prog, s, gone, i, cell) ==> a.cells(cell) == b.cells(cell))
    && (forall n: nat :: a.globals(n) == b.globals(n)) && (forall x: int :: a.ram(x) == b.ram(x))
    && a.emitted == b.emitted
  }

  lemma DeadAt(base: nat, prog: seq<Op>, s: Facts, x: nat)
    requires Good(base, prog, |prog|, s) && x in s.dead
    ensures x < s.dead[x] < |prog| && DeadOk(base, prog, s.repl, s.same, x, s.dead[x]) && prog[x].IsWrite()
  {
    hide WellFormed, ReplOk, KnownOk, StatefulOk, ReadsOk, SameOk, Target, MayRead;
    assert DeadOk(base, prog, s.repl, s.same, x, s.dead[x]);
  }

  lemma RedundantIsWrite(base: nat, prog: seq<Op>, s: Facts, x: nat)
    requires Good(base, prog, |prog|, s) && x in s.redundant
    ensures x < |prog| && prog[x].IsWrite()
  {
    hide WellFormed, ReplOk, KnownOk, StatefulOk, ReadsOk, Target, DeadOk;
    if x in s.same { assert SameOk(base, prog, x); } else { DeadAt(base, prog, s, x); }
  }

  lemma EliminatedForm(base: nat, prog: seq<Op>, s: Facts, gone: set<Id>, code: seq<Option<Op>>)
    requires Eliminated(base, prog, s, gone, code)
    ensures |code| == |prog| && Good(base, prog, |prog|, s) && WellFormed(base, prog)
  {}

  lemma CodeDefined(base: nat, prog: seq<Op>, s: Facts, gone: set<Id>, code: seq<Option<Op>>, i: nat)
    requires Eliminated(base, prog, s, gone, code) && i <= |prog|
    ensures AllDefined(base, code[..i])
  {
    forall k | 0 <= k < i && code[k].Some? ensures Defined(code[k].value, base + k) {
      assert OpOk(base, prog, k);
      RewriteOperands(prog[k], s.repl);
      forall y | y in Operands(code[k].value) ensures y < base + k {
        var j :| 0 <= j < |Operands(prog[k])| && y == Translate(s.repl, Operands(prog[k])[j]);
        assert Operands(prog[k])[j] in Operands(prog[k]);
      }
    }
  }

  // ---------- one step ----------

  /** Replaced operands have the values of the originals. */
  ghost predicate OperandsAgree(op: Op, repl: map<Id, Id>, a: Machine, b: Machine) {
    forall y ::
      y in Operands(op) ==> y < |a.env| && Translate(repl, y) < |b.env| && a.env[y] == b.env[Translate(repl, y)]
  }

  lemma KeptOperands(w: World, base: nat, prog: seq<Op>, s: Facts, gone: set<Id>, code: seq<Option<Op>>, i: nat,
          m: Machine, b: Machine)
    requires Eliminated(base, prog, s, gone, code) && i < |prog| && code[i].Some? && |m.env| == base
    requires Agree(base, prog, s, gone, i, At(w, base, prog, i, m), b)
    ensures OperandsAgree(prog[i], s.repl, At(w, base, prog, i, m), b)
  {
    var a := At(w, base, prog, i, m);
    assert OpOk(base, prog, i);
    RewriteOperands(prog[i], s.repl);
    forall y | y in Operands(prog[i])
      ensures Translate(s.repl, y) < base + i && a.env[y] == b.env[Translate(s.repl, y)]
    {
      var j :| 0 <= j < |Operands(prog[i])| && Operands(prog[i])[j] == y;
      assert TranslateAll(s.repl, Operands(prog[i]))[j] in Operands(code[i].value);
      if y in s.repl {
        AtPrefix(w, base, prog, i, |prog|, m);
        var e := At(w, base, prog, |prog|, m).env;
        assert EnvEq(base, prog, |prog|, y, s.repl[y]);
        assert e[y] == e[s.repl[y]];
        assert e[..base + i][y] == e[y] && e[..base + i][s.repl[y]] == e[s.repl[y]];
      }
    }
  }

  lemma ArgsAgree(op: Op, repl: map<Id, Id>, a: Machine, b: Machine, ids: seq<Id>)
    requires OperandsAgree(op, repl, a, b) && forall k :: 0 <= k < |ids| ==> ids[k] in Operands(op)
    ensures (forall k :: 0 <= k < |ids| ==> ids[k] < |a.env| && TranslateAll(repl, ids)[k] < |b.env|)
    ensures Vals(a.env, ids) == Vals(b.env, TranslateAll(repl, ids))
  {}

  /** The rewritten access goes to the same cell. */
  lemma SameCell(w: World, base: nat, prog: seq<Op>, s: Facts, i: nat, a: Machine, b: Machine)
    requires Good(base, prog, |prog|, s) && i < |prog| && OperandsAgree(prog[i], s.repl, a, b)
    requires Defined(prog[i], |a.env|) && Defined(Rewrite(prog[i], s.repl), |b.env|)
    requires prog[i].ReadMember? || prog[i].WriteMember? || prog[i].ReadArray? || prog[i].WriteArray?
    ensures CellOf(w, Rewrite(prog[i], s.repl), b.env) == CellOf(w, prog[i], a.env)
  {
    var op := prog[i];
    assert OpOk(base, prog, i);
    DefinedArgs(op, |a.env|);
    if op.ReadMember? && op.off.Resolved? {
      assert forall k :: 0 <= k < |op.off.operands| ==> op.off.operands[k] in Operands(op);
      ArgsAgree(op, s.repl, a, b, op.off.operands);
    } else if op.ReadArray? || op.WriteArray? {
      assert Operands(op)[1] == op.idx;
    }
  }

  lemma OpDefined(base: nat, prog: seq<Op>, i: nat)
    requires WellFormed(base, prog) && i < |prog|
    ensures OpOk(base, prog, i) && Defined(prog[i], base + i)
  {
    assert OpOk(base, prog, i);
    DefinedArgs(prog[i], base + i);
  }

  /** A cell that a surviving read takes its value from is not excused. */
  lemma ReadNotExcused(w: World, base: nat, prog: seq<Op>, s: Facts, gone: set<Id>, code: seq<Option<Op>>, i: nat,
          m: Machine)
    requires Eliminated(base, prog, s, gone, code) && i < |prog| && code[i].Some? && |m.env| == base
    requires (prog[i].ReadMember? || prog[i].ReadArray?)
    ensures Defined(prog[i], base + i)
    ensures !Excused(base, prog, s, gone, i, CellOf(w, prog[i], At(w, base, prog, i, m).env))
  {
    hide Good, Eliminated, At, WellFormed, MayRead, Target, Overwrites;
    EliminatedForm(base, prog, s, gone, code);
    OpDefined(base, prog, i);
    var env, op := At(w, base, prog, i, m).env, prog[i];
    DefinedArgs(op, base + i);
    if op.ReadArray? {
      ConstValue(w, base, prog, i, op.idx, m);
      ArrayKept(base, prog, s, gone, code, i);
    }
    var cell := CellOf(w, op, env);
    forall x | x in s.dead && x < i <= s.dead[x] ensures !Overwrites(base, prog, x, cell) {
      DeadUnread(base, prog, s, gone, code, i, x);
      if Overwrites(base, prog, x, cell) { TouchesRead(w, base, prog, x, op, env); }
    }
  }

  lemma ArrayKept(base: nat, prog: seq<Op>, s: Facts, gone: set<Id>, code: seq<Option<Op>>, i: nat)
    requires Eliminated(base, prog, s, gone, code) && i < |prog| && code[i].Some? && prog[i].ReadArray?
    ensures prog[i].arr !in gone
  {
    assert OpOk(base, prog, i);
    assert Operands(code[i].value)[0] == Translate(s.repl, prog[i].arr) &&
        Operands(code[i].value)[0] in Operands(code[i].value);
  }

  lemma ReadsGone(base: nat, prog: seq<Op>, s: Facts, gone: set<Id>, code: seq<Option<Op>>)
    requires Eliminated(base, prog, s, gone, code)
    ensures forall i :: 0 <= i < |prog| && code[i].Some? ==> base + i !in s.repl
  {
    hide Good, Rewrite;
  }

  lemma DeadUnread(base: nat, prog: seq<Op>, s: Facts, gone: set<Id>, code: seq<Option<Op>>, i: nat, x: nat)
    requires Eliminated(base, prog, s, gone, code) && i < |prog| && code[i].Some? && !prog[i].IsWrite() && x in s.dead
    requires x < i <= s.dead[x]
    ensures x < |prog| && prog[x].IsWrite() && !MayRead(base, prog, prog[i], Target(base, prog, prog[x]))
  {
    hide Good, Target, MayRead;
    DeadAt(base, prog, s, x);
    ReadsGone(base, prog, s, gone, code);
  }

  /** A read of the cell a write goes to may read the write's place. */
  lemma TouchesRead(w: World, base: nat, prog: seq<Op>, x: nat, op: Op, env: seq<int>)
    requires WellFormed(base, prog) && x < |prog| && prog[x].IsWrite() && (op.ReadMember? || op.ReadArray?)
    requires Defined(op, |env|)
    requires op.ReadArray? ==> IsConst(base, prog, op.idx) && op.idx < |env| && env[op.idx] == prog[op.idx - base].c
    requires Overwrites(base, prog, x, CellOf(w, op, env))
    ensures MayRead(base, prog, op, Target(base, prog, prog[x]))
  {
    assert OpOk(base, prog, x);
    DefinedArgs(op, |env|);
  }

  lemma KeptResult(w: World, base: nat, prog: seq<Op>, s: Facts, gone: set<Id>, code: seq<Option<Op>>, i: nat,
          m: Machine, b: Machine)
    requires Eliminated(base, prog, s, gone, code) && i < |prog| && code[i].Some? && |m.env| == base
    requires Agree(base, prog, s, gone, i, At(w, base, prog, i, m), b)
    requires OperandsAgree(prog[i], s.repl, At(w, base, prog, i, m), b)
    requires Defined(prog[i], base + i) && Defined(code[i].value, base + i)
    ensures Result(w, prog[i], At(w, base, prog, i, m)) == Result(w, code[i].value, b)
  {
    var a, op := At(w, base, prog, i, m), prog[i];
    DefinedArgs(op, base + i);
    match op {
      case Pure(_, args) => assert Operands(op) == args; ArgsAgree(op, s.repl, a, b, args);
      case ReadMember(_, _, _) => SameCell(w, base, prog, s, i, a, b);
        ReadNotExcused(w, base, prog, s, gone, code, i, m);
      case ReadArray(_, _) => SameCell(w, base, prog, s, i, a, b); ReadNotExcused(w, base, prog, s, gone, code, i, m);
      case Load(addr) => assert Operands(op)[0] == addr;
      case _ =>
    }
  }

  /** Nothing stops being excused except the cell that is being overwritten. */
  lemma ExcusedStep(base: nat, prog: seq<Op>, s: Facts, gone: set<Id>, i: nat, cell: Cell)
    requires Good(base, prog, |prog|, s) && i < |prog| && Excused(base, prog, s, gone, i, cell)
    requires !Excused(base, prog, s, gone, i + 1, cell)
    ensures prog[i].IsWrite() && i !in s.same && CellOfTarget(Target(base, prog, prog[i])) == cell
  {
    var x :| x in s.dead && x < i <= s.dead[x] && Overwrites(base, prog, x, cell);
    assert DeadOk(base, prog, s.repl, s.same, x, s.dead[x]);
    assert !(x < i + 1 <= s.dead[x]);
  }

  lemma WriteCell(w: World, base: nat, prog: seq<Op>, i: nat, m: Machine)
    requires WellFormed(base, prog) && i < |prog| && prog[i].IsWrite() && |m.env| == base
    ensures Defined(prog[i], base + i)
    ensures CellOf(w, prog[i], At(w, base, prog, i, m).env) == CellOfTarget(Target(base, prog, prog[i]))
    ensures CellAt(w, At(w, base, prog, i, m).env, Target(base, prog, prog[i])) ==
        CellOfTarget(Target(base, prog, prog[i]))
  {
    assert OpOk(base, prog, i);
    DefinedArgs(prog[i], base + i);
    if prog[i].WriteArray? { ConstValue(w, base, prog, i, prog[i].idx, m); }
  }

  lemma KeptCells(w: World, base: nat, prog: seq<Op>, s: Facts, gone: set<Id>, code: seq<Option<Op>>, i: nat,
          m: Machine, b: Machine, cell: Cell)
    requires Eliminated(base, prog, s, gone, code) && i < |prog| && code[i].Some? && |m.env| == base
    requires Agree(base, prog, s, gone, i, At(w, base, prog, i, m), b)
    requires OperandsAgree(prog[i], s.repl, At(w, base, prog, i, m), b)
    requires Defined(prog[i], base + i) && Defined(code[i].value, base + i)
    requires !Excused(base, prog, s, gone, i + 1, cell)
    ensures CellsAfter(w, prog[i], At(w, base, prog, i, m))(cell) == CellsAfter(w, code[i].value, b)(cell)
  {
    hide Good, At, Excused, WellFormed, Target;
    EliminatedForm(base, prog, s, gone, code);
    var a, op := At(w, base, prog, i, m), prog[i];
    DefinedArgs(op, base + i);
    DefinedArgs(code[i].value, base + i);
    if Excused(base, prog, s, gone, i, cell) { ExcusedStep(base, prog, s, gone, i, cell); }
    if op.IsWrite() {
      SameCell(w, base, prog, s, i, a, b);
      WriteCell(w, base, prog, i, m);
      assert Operands(op)[|Operands(op)| - 1] == op.val;
    } else if op.NewArray? {
      ArgsAgree(op, s.repl, a, b, op.elems);
      assert op.elems == Operands(op);
      if cell.ElemCell? && cell.arr == base + i && 0 <= cell.index < |op.elems| {
        assert op.elems[cell.index] in Operands(op);
      }
    }
  }

  lemma StepKept(w: World, base: nat, prog: seq<Op>, s: Facts, gone: set<Id>, code: seq<Option<Op>>, i: nat, m: Machine,
          b: Machine)
    requires Eliminated(base, prog, s, gone, code) && i < |prog| && code[i].Some? && |m.env| == base
    requires Agree(base, prog, s, gone, i, At(w, base, prog, i, m), b) && Defined(code[i].value, base + i)
    ensures Agree(base, prog, s, gone, i + 1, At(w, base, prog, i + 1, m), Step(w, code[i].value, b))
  {
    var a, op := At(w, base, prog, i, m), prog[i];
    AtStep(w, base, prog, i, m);
    KeptOperands(w, base, prog, s, gone, code, i, m, b);
    KeptResult(w, base, prog, s, gone, code, i, m, b);
    var n := i + 1;
    forall cell | !Excused(base, prog, s, gone, n, cell)
      ensures CellsAfter(w, op, a)(cell) == CellsAfter(w, code[i].value, b)(cell)
    {
      KeptCells(w, base, prog, s, gone, code, i, m, b, cell);
    }
    forall g: nat
      ensures GlobalsAfter(w, op, a)(g) == GlobalsAfter(w, code[i].value, b)(g)
    {
      KeptGlobal(w, op, s.repl, a, b, g);
    }
    forall x: int ensures RamAfter(w, op, a)(x) == RamAfter(w, code[i].value, b)(x) { KeptRam(w, op, s.repl, a, b, x); }
    KeptEmitted(op, s.repl, a, b);
    hide At, Step, Good, Eliminated, Agree, Excused;
    AgreeAfter(base, prog, s, gone, i, a, b, Step(w, op, a), Step(w, code[i].value, b));
  }

  lemma AgreeAfter(base: nat, prog: seq<Op>, s: Facts, gone: set<Id>, i: nat, a: Machine, b: Machine, a': Machine,
          b': Machine)
    requires Good(base, prog, |prog|, s) && i < |prog| && Agree(base, prog, s, gone, i, a, b)
    requires |a'.env| == |b'.env| == base + i + 1 && a'.env[..base + i] == a.env && b'.env[..base + i] == b.env
    requires base + i !in gone ==> a'.env[base + i] == b'.env[base + i]
    requires forall cell :: !Excused(base, prog, s, gone, i + 1, cell) ==> a'.cells(cell) == b'.cells(cell)
    requires (forall n: nat :: a'.globals(n) == b'.globals(n)) && (forall x: int :: a'.ram(x) == b'.ram(x))
    requires a'.emitted == b'.emitted
    ensures Agree(base, prog, s, gone, i + 1, a', b')
  {
    hide Good, Excused;
    forall v | 0 <= v < base + i + 1 && v !in gone ensures a'.env[v] == b'.env[v] {
      if v < base + i { assert a'.env[..base + i][v] == a'.env[v] && b'.env[..base + i][v] == b'.env[v]; }
    }
  }

  lemma KeptGlobal(w: World, op: Op, repl: map<Id, Id>, a: Machine, b: Machine, g: nat)
    requires OperandsAgree(op, repl, a, b) && Defined(op, |a.env|) && Defined(Rewrite(op, repl), |b.env|)
    requires a.globals(g) == b.globals(g)
    ensures GlobalsAfter(w, op, a)(g) == GlobalsAfter(w, Rewrite(op, repl), b)(g)
  {
    if op.WriteGlobal? { assert Operands(op)[0] == op.val; }
    if op.Effect? { assert Operands(op) == op.args; ArgsAgree(op, repl, a, b, op.args); }
  }

  lemma KeptRam(w: World, op: Op, repl: map<Id, Id>, a: Machine, b: Machine, x: int)
    requires OperandsAgree(op, repl, a, b) && Defined(op, |a.env|) && Defined(Rewrite(op, repl), |b.env|)
    requires a.ram(x) == b.ram(x)
    ensures RamAfter(w, op, a)(x) == RamAfter(w, Rewrite(op, repl), b)(x)
  {
    if op.Store? { assert Operands(op)[0] == op.addr && Operands(op)[1] == op.val; }
    if op.Effect? { assert Operands(op) == op.args; ArgsAgree(op, repl, a, b, op.args); }
  }

  lemma KeptEmitted(op: Op, repl: map<Id, Id>, a: Machine, b: Machine)
    requires OperandsAgree(op, repl, a, b) && Defined(op, |a.env|) && Defined(Rewrite(op, repl), |b.env|)
    requires a.emitted == b.emitted
    ensures EmittedAfter(op, a) == EmittedAfter(Rewrite(op, repl), b)
  {
    if op.Emit? { assert Operands(op) == op.args; ArgsAgree(op, repl, a, b, op.args); }
  }

  lemma StepErased(w: World, base: nat, prog: seq<Op>, s: Facts, gone: set<Id>, code: seq<Option<Op>>, i: nat,
          m: Machine, b: Machine)
    requires Eliminated(base, prog, s, gone, code) && i < |prog| && code[i].None? && |m.env| == base
    requires Agree(base, prog, s, gone, i, At(w, base, prog, i, m), b)
    ensures Agree(base, prog, s, gone, i + 1, At(w, base, prog, i + 1, m), b.(env := b.env + [0]))
  {
    var a, op, n := At(w, base, prog, i, m), prog[i], i + 1;
    AtStep(w, base, prog, i, m);
    ErasedKind(base, prog, s, gone, code, i);
    var a' := Step(w, op, a);
    assert a'.globals == a.globals && a'.ram == a.ram && a'.emitted == a.emitted &&
        (op.IsWrite() ==> a'.env[base + i] == 0);
    forall cell | !Excused(base, prog, s, gone, n, cell) ensures a'.cells(cell) == b.cells(cell) {
      ErasedCell(w, base, prog, s, gone, code, i, m, cell);
    }
    var b' := b.(env := b.env + [0]);
    assert b'.env[..base + i] == b.env;
    hide At, Step, Good, Eliminated, Excused;
    AgreeAfter(base, prog, s, gone, i, a, b, a', b');
  }

  lemma ErasedKind(base: nat, prog: seq<Op>, s: Facts, gone: set<Id>, code: seq<Option<Op>>, i: nat)
    requires Eliminated(base, prog, s, gone, code) && i < |prog| && code[i].None?
    ensures prog[i].IsWrite() || (prog[i].IsErasable() && base + i in gone)
  {}

  /** The cell of a dead write is excused behind it. */
  lemma DeadExcuses(base: nat, prog: seq<Op>, s: Facts, gone: set<Id>, i: nat)
    requires Good(base, prog, |prog|, s) && i < |prog| && i in s.dead
    ensures prog[i].IsWrite() && Excused(base, prog, s, gone, i + 1, CellOfTarget(Target(base, prog, prog[i])))
  {
    hide Good, DeadOk;
    DeadAt(base, prog, s, i);
    assert i < i + 1 <= s.dead[i] && Overwrites(base, prog, i, CellOfTarget(Target(base, prog, prog[i])));
  }

  lemma ErasedCell(w: World, base: nat, prog: seq<Op>, s: Facts, gone: set<Id>, code: seq<Option<Op>>, i: nat,
          m: Machine, cell: Cell)
    requires Eliminated(base, prog, s, gone, code) && i < |prog| && code[i].None? && |m.env| == base
    requires !Excused(base, prog, s, gone, i + 1, cell)
    ensures Defined(prog[i], base + i)
    ensures CellsAfter(w, prog[i], At(w, base, prog, i, m))(cell) == At(w, base, prog, i, m).cells(cell)
    ensures !Excused(base, prog, s, gone, i, cell)
  {
    var a, op := At(w, base, prog, i, m), prog[i];
    assert OpOk(base, prog, i);
    DefinedArgs(op, base + i);
    if op.IsWrite() {
      WriteCell(w, base, prog, i, m);
      if i in s.same {
        assert SameOk(base, prog, i);
      } else {
        DeadExcuses(base, prog, s, gone, i);
      }
    }
    if Excused(base, prog, s, gone, i, cell) { ExcusedStep(base, prog, s, gone, i, cell); }
  }

  lemma {:induction false} RunsAgree(w: World, base: nat, prog: seq<Op>, s: Facts, gone: set<Id>, code: seq<Option<Op>>,
          i: nat, m: Machine)
    requires Eliminated(base, prog, s, gone, code) && i <= |prog| && |m.env| == base
    requires forall v :: v in gone ==> v >= base
    ensures AllDefined(base, code[..i])
    ensures Agree(base, prog, s, gone, i, At(w, base, prog, i, m), Run(w, base, code[..i], m))
  {
    CodeDefined(base, prog, s, gone, code, i);
    if i == 0 {
    } else {
      RunsAgree(w, base, prog, s, gone, code, i - 1, m);
      assert code[..i][..i - 1] == code[..i - 1];
      var b := Run(w, base, code[..i - 1], m);
      if code[i - 1].Some? {
        assert code[..i][i - 1] == code[i - 1] && Defined(code[i - 1].value, base + (i - 1));
        StepKept(w, base, prog, s, gone, code, i - 1, m, b);
      } else {
        StepErased(w, base, prog, s, gone, code, i - 1, m, b);
      }
    }
  }

  // ---------- the theorem ----------

  /** An element of an array whose creation was erased. */
  predicate ErasedElement<T>(base: nat, code: seq<Option<T>>, cell: Cell) {
    cell.ElemCell? && base <= cell.arr < base + |code| && code[cell.arr - base].None?
  }

  /** On one run: the surviving values, the memory (apart from arrays that were erased), the globals, the RAM and
      the emitted constraints are what they were. */
  ghost predicate SameRun(w: World, base: nat, prog: seq<Op>, code: seq<Option<Op>>, m: Machine)
    requires WellFormed(base, prog) && |code| == |prog| && AllDefined(base, code) && |m.env| == base
  {
    var a, b := At(w, base, prog, |prog|, m), Run(w, base, code, m);
    && (forall v :: 0 <= v < base ==> a.env[v] == b.env[v])
    && (forall i :: 0 <= i < |prog| && code[i].Some? ==> a.env[base + i] == b.env[base + i])
    && (forall cell: Cell :: ErasedElement(base, code, cell) || a.cells(cell) == b.cells(cell))
    && (forall n: nat :: a.globals(n) == b.globals(n)) && (forall x: int :: a.ram(x) == b.ram(x))
    && a.emitted == b.emitted
  }

  /** At the end no overwrite is still to come. */
  lemma ExcusedAtEnd(base: nat, prog: seq<Op>, s: Facts, gone: set<Id>, code: seq<Option<Op>>, cell: Cell)
    requires Eliminated(base, prog, s, gone, code) && Excused(base, prog, s, gone, |prog|, cell)
    ensures ErasedElement(base, code, cell)
  {
    hide WellFormed, Good, Overwrites, Rewrite;
    forall x | x in s.dead ensures s.dead[x] < |prog| { DeadAt(base, prog, s, x); }
    assert cell.ElemCell? && cell.arr in gone;
    ErasableInside(base, prog, s, gone, code, cell.arr);
  }

  lemma ErasableInside(base: nat, prog: seq<Op>, s: Facts, gone: set<Id>, code: seq<Option<Op>>, v: Id)
    requires Eliminated(base, prog, s, gone, code) && v in gone
    ensures base <= v < base + |code| && code[v - base].None?
  {
    hide WellFormed, Good, Rewrite;
    assert IsErasable(base, prog, v);
  }

  /** Elimination changes nothing that survives it, on any run. */
  lemma EliminationPreserves(w: World, base: nat, prog: seq<Op>, s: Facts, gone: set<Id>, code: seq<Option<Op>>,
          m: Machine)
    requires Eliminated(base, prog, s, gone, code) && |m.env| == base
    ensures AllDefined(base, code) && SameRun(w, base, prog, code, m)
  {
    var n := |prog|;
    assert code[..n] == code;
    RunsAgree(w, base, prog, s, gone, code, n, m);
    var a, b := At(w, base, prog, n, m), Run(w, base, code, m);
    forall cell: Cell ensures ErasedElement(base, code, cell) || a.cells(cell) == b.cells(cell) {
      if Excused(base, prog, s, gone, n, cell) { ExcusedAtEnd(base, prog, s, gone, code, cell); }
    }
  }
}
