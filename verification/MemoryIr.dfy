/** Straight-line code over struct members, arrays, globals and RAM, and what running it does. */
module MemoryIr {
  /** Values are numbered: arguments first, then one per operation, in order. */
  type Id = nat

  /** The row a member read refers to: a fixed distance from the current row, or one that a symbol or an
      affine map over index values resolves to. */
  datatype Offset = Row(k: int) | Resolved(form: nat, operands: seq<Id>)

  datatype Op =
    | Const(c: int)
    | Pure(tag: nat, args: seq<Id>)
    | NewStruct
    | ReadMember(comp: Id, member: nat, off: Offset)
    | WriteMember(comp: Id, member: nat, val: Id)
    | NewArray(elems: seq<Id>)
    | ReadArray(arr: Id, idx: Id)
    | WriteArray(arr: Id, idx: Id, val: Id)
    | ReadGlobal(name: nat)
    | WriteGlobal(name: nat, val: Id)
    | Load(addr: Id)
    | Store(addr: Id, val: Id)
    | Emit(args: seq<Id>)
    | Effect(tag: nat, args: seq<Id>)
  {
    predicate IsWrite() { WriteMember? || WriteArray? }
    predicate DefinesValue() { !IsWrite() && !WriteGlobal? && !Store? && !Emit? && !Effect? }
    /** Operations whose result may be erased when unused. */
    predicate IsErasable() { NewStruct? || ReadMember? || NewArray? || ReadArray? || ReadGlobal? || Load? }
  }

  function Operands(op: Op): seq<Id> {
    match op
    case Const(_) => []
    case Pure(_, args) => args
    case NewStruct => []
    case ReadMember(comp, _, off) => if off.Resolved? then [comp] + off.operands else [comp]
    case WriteMember(comp, _, val) => [comp, val]
    case NewArray(elems) => elems
    case ReadArray(arr, idx) => [arr, idx]
    case WriteArray(arr, idx, val) => [arr, idx, val]
    case ReadGlobal(_) => []
    case WriteGlobal(_, val) => [val]
    case Load(addr) => [addr]
    case Store(addr, val) => [addr, val]
    case Emit(args) => args
    case Effect(_, args) => args
  }

  /** What the code cannot see: the meaning of pure operations and resolved offsets, and what effects do. */
  datatype World = World(
    pure: (nat, seq<int>) -> int,
    offset: (nat, seq<int>) -> int,
    globalEffect: (nat, seq<int>, nat, int) -> int,
    ramEffect: (nat, seq<int>, int, int) -> int)

  /** A member of one struct at one row, or an element of one array. */
  datatype Cell = MemberCell(comp: Id, member: nat, row: int) | ElemCell(arr: Id, index: int)

  datatype Machine = Machine(env: seq<int>, cells: Cell -> int, globals: nat -> int, ram: int -> int,
    emitted: seq<seq<int>>)

  function Vals(env: seq<int>, ids: seq<Id>): seq<int>
    requires forall k :: 0 <= k < |ids| ==> ids[k] < |env|
  {
    seq(|ids|, k requires 0 <= k < |ids| => env[ids[k]])
  }

  ghost function RowOf(w: World, env: seq<int>, off: Offset): int
    requires off.Resolved? ==> forall k :: 0 <= k < |off.operands| ==> off.operands[k] < |env|
  {
    if off.Row? then off.k else w.offset(off.form, Vals(env, off.operands))
  }

  ghost predicate Defined(op: Op, n: nat) { forall y :: y in Operands(op) ==> y < n }

  lemma DefinedArgs(op: Op, n: nat)
    requires Defined(op, n)
    ensures op.Pure? || op.Emit? || op.Effect? ==> forall k :: 0 <= k < |op.args| ==> op.args[k] < n
    ensures op.NewArray? ==> forall k :: 0 <= k < |op.elems| ==> op.elems[k] < n
    ensures op.ReadMember? && op.off.Resolved? ==> forall k :: 0 <= k < |op.off.operands| ==> op.off.operands[k] < n
    ensures op.ReadMember? || op.WriteMember? ==> op.comp < n
    ensures op.ReadArray? || op.WriteArray? ==> op.arr < n && op.idx < n
    ensures op.WriteMember? || op.WriteArray? || op.WriteGlobal? || op.Store? ==> op.val < n
    ensures op.Load? || op.Store? ==> op.addr < n
  {
    if op.ReadMember? && op.off.Resolved? {
      assert forall k :: 0 <= k < |op.off.operands| ==> op.off.operands[k] in Operands(op);
      assert op.comp in Operands(op);
    } else {
      var ys := Operands(op);
      assert forall k :: 0 <= k < |ys| ==> ys[k] in ys;
      if op.WriteMember? { assert ys[0] == op.comp && ys[1] == op.val; }
      if op.ReadMember? { assert ys[0] == op.comp; }
      if op.ReadArray? { assert ys[0] == op.arr && ys[1] == op.idx; }
      if op.WriteArray? { assert ys[0] == op.arr && ys[1] == op.idx && ys[2] == op.val; }
      if op.WriteGlobal? { assert ys[0] == op.val; }
      if op.Load? { assert ys[0] == op.addr; }
      if op.Store? { assert ys[0] == op.addr && ys[1] == op.val; }
    }
  }

  /** The cell an access refers to. */
  ghost function CellOf(w: World, op: Op, env: seq<int>): Cell
    requires (op.ReadMember? || op.WriteMember? || op.ReadArray? || op.WriteArray?) && Defined(op, |env|)
  {
    DefinedArgs(op, |env|);
    match op
    case ReadMember(comp, member, off) => MemberCell(comp, member, RowOf(w, env, off))
    case WriteMember(comp, member, _) => MemberCell(comp, member, 0)
    case ReadArray(arr, idx) => ElemCell(arr, env[idx])
    case WriteArray(arr, idx, _) => ElemCell(arr, env[idx])
  }

  /** The value an operation defines. Operations that define nothing count as 0. */
  ghost function Result(w: World, op: Op, m: Machine): int
    requires Defined(op, |m.env|)
  {
    DefinedArgs(op, |m.env|);
    match op
    case Const(c) => c
    case Pure(tag, args) => w.pure(tag, Vals(m.env, args))
    case ReadMember(_, _, _) => m.cells(CellOf(w, op, m.env))
    case ReadArray(_, _) => m.cells(CellOf(w, op, m.env))
    case ReadGlobal(name) => m.globals(name)
    case Load(addr) => m.ram(m.env[addr])
    case _ => 0
  }

  ghost function CellsAfter(w: World, op: Op, m: Machine): Cell -> int
    requires Defined(op, |m.env|)
  {
    DefinedArgs(op, |m.env|);
    match op
    case WriteMember(_, _, val) => (cell: Cell) => if cell == CellOf(w, op, m.env) then m.env[val] else m.cells(cell)
    case WriteArray(_, _, val) => (cell: Cell) => if cell == CellOf(w, op, m.env) then m.env[val] else m.cells(cell)
    case NewArray(elems) =>
      (cell: Cell) => if cell.ElemCell? && cell.arr == |m.env| && 0 <= cell.index < |elems|
        then m.env[elems[cell.index]] else m.cells(cell)
    case _ => m.cells
  }

  ghost function GlobalsAfter(w: World, op: Op, m: Machine): nat -> int
    requires Defined(op, |m.env|)
  {
    DefinedArgs(op, |m.env|);
    match op
    case WriteGlobal(name, val) => (n: nat) => if n == name then m.env[val] else m.globals(n)
    case Effect(tag, args) => (n: nat) => w.globalEffect(tag, Vals(m.env, args), n, m.globals(n))
    case _ => m.globals
  }

  ghost function RamAfter(w: World, op: Op, m: Machine): int -> int
    requires Defined(op, |m.env|)
  {
    DefinedArgs(op, |m.env|);
    match op
    case Store(addr, val) => (a: int) => if a == m.env[addr] then m.env[val] else m.ram(a)
    case Effect(tag, args) => (a: int) => w.ramEffect(tag, Vals(m.env, args), a, m.ram(a))
    case _ => m.ram
  }

  ghost function EmittedAfter(op: Op, m: Machine): seq<seq<int>>
    requires Defined(op, |m.env|)
  {
    DefinedArgs(op, |m.env|);
    if op.Emit? then m.emitted + [Vals(m.env, op.args)] else m.emitted
  }

  /** One operation. */
  ghost function Step(w: World, op: Op, m: Machine): (m': Machine)
    requires Defined(op, |m.env|)
    ensures |m'.env| == |m.env| + 1 && m'.env[..|m.env|] == m.env
  {
    Machine(m.env + [Result(w, op, m)], CellsAfter(w, op, m), GlobalsAfter(w, op, m), RamAfter(w, op, m),
      EmittedAfter(op, m))
  }

  datatype Option<T> = None | Some(value: T)

  ghost predicate AllDefined(base: nat, code: seq<Option<Op>>) {
    forall i :: 0 <= i < |code| && code[i].Some? ==> Defined(code[i].value, base + i)
  }

  /** A run; an erased operation leaves everything alone. */
  ghost function Run(w: World, base: nat, code: seq<Option<Op>>, m: Machine): (m': Machine)
    requires |m.env| == base && AllDefined(base, code)
    ensures |m'.env| == base + |code|
  {
    if code == [] then m else
      var n := |code| - 1;
      assert AllDefined(base, code[..n]) by { assert forall i :: 0 <= i < n ==> code[..n][i] == code[i]; }
      var before := Run(w, base, code[..n], m);
      if code[n].Some? then Step(w, code[n].value, before) else before.(env := before.env + [0])
  }

  function Whole(prog: seq<Op>): (code: seq<Option<Op>>)
    ensures |code| == |prog| && forall i :: 0 <= i < |prog| ==> code[i] == Some(prog[i])
  {
    seq(|prog|, i requires 0 <= i < |prog| => Some(prog[i]))
  }

  /** Operations use only earlier values; structs are created here or passed in, arrays are created here and
      indexed by constants. */
  ghost predicate WellFormed(base: nat, prog: seq<Op>) {
    forall i :: 0 <= i < |prog| ==> OpOk(base, prog, i)
  }

  ghost predicate OpOk(base: nat, prog: seq<Op>, i: nat)
    requires i < |prog|
  {
    && Defined(prog[i], base + i)
    && (forall y :: y in Operands(prog[i]) ==> IsVal(base, prog, y))
    && (prog[i].ReadMember? || prog[i].WriteMember? ==> IsStruct(base, prog, prog[i].comp))
    && (prog[i].ReadArray? || prog[i].WriteArray? ==>
      IsArray(base, prog, prog[i].arr) && IsConst(base, prog, prog[i].idx))
  }

  predicate IsVal(base: nat, prog: seq<Op>, x: Id) { x < base || (x - base < |prog| && prog[x - base].DefinesValue()) }
  predicate IsStruct(base: nat, prog: seq<Op>, x: Id) { x < base || (x - base < |prog| && prog[x - base].NewStruct?) }
  predicate IsArray(base: nat, prog: seq<Op>, x: Id) { base <= x < base + |prog| && prog[x - base].NewArray? }
  predicate IsConst(base: nat, prog: seq<Op>, x: Id) { base <= x < base + |prog| && prog[x - base].Const? }

  /** The machine after the first `i` operations of `prog`. */
  ghost function At(w: World, base: nat, prog: seq<Op>, i: nat, m: Machine): (m': Machine)
    requires WellFormed(base, prog) && i <= |prog| && |m.env| == base
    ensures |m'.env| == base + i
  {
    WholeDefined(base, prog, i);
    Run(w, base, Whole(prog)[..i], m)
  }

  lemma WholeDefined(base: nat, prog: seq<Op>, i: nat)
    requires WellFormed(base, prog) && i <= |prog|
    ensures AllDefined(base, Whole(prog)[..i])
  {
    forall k | 0 <= k < i ensures Defined(prog[k], base + k) { assert OpOk(base, prog, k); }
  }

  lemma AtStep(w: World, base: nat, prog: seq<Op>, i: nat, m: Machine)
    requires WellFormed(base, prog) && i < |prog| && |m.env| == base
    ensures Defined(prog[i], base + i) && At(w, base, prog, i + 1, m) == Step(w, prog[i], At(w, base, prog, i, m))
  {
    assert OpOk(base, prog, i);
    WholeDefined(base, prog, i + 1);
    assert Whole(prog)[..i + 1][..i] == Whole(prog)[..i];
  }

  /** Values, once defined, stay. */
  lemma {:induction false} AtPrefix(w: World, base: nat, prog: seq<Op>, i: nat, j: nat, m: Machine)
    requires WellFormed(base, prog) && i <= j <= |prog| && |m.env| == base
    ensures At(w, base, prog, j, m).env[..base + i] == At(w, base, prog, i, m).env
    decreases j
  {
    if i == j {
    } else {
      AtPrefix(w, base, prog, i, j - 1, m);
      AtStep(w, base, prog, j - 1, m);
      assert At(w, base, prog, j, m).env[..base + j - 1][..base + i] == At(w, base, prog, j, m).env[..base + i];
    }
  }

  lemma ConstValue(w: World, base: nat, prog: seq<Op>, i: nat, x: Id, m: Machine)
    requires WellFormed(base, prog) && i <= |prog| && |m.env| == base && IsConst(base, prog, x) && x < base + i
    ensures At(w, base, prog, i, m).env[x] == prog[x - base].c
  {
    AtStep(w, base, prog, x - base, m);
    AtPrefix(w, base, prog, x - base + 1, i, m);
    assert At(w, base, prog, i, m).env[..x + 1][x] == At(w, base, prog, i, m).env[x];
  }
}
