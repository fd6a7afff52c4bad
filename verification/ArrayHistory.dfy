/** Straight-line array operations: what each array holds before an operation, and which operand put it there. */
module ArrayHistory {
  import opened ArrayIndex

  type Id = nat
  type Val = nat

  /** Arrays of field elements with static shapes, accessed at static indices. Extraction and insertion copy. */
  datatype Op =
    | New(arr: Id, elems: seq<Val>)
    | Write(arr: Id, index: Index, value: Val)
    | Insert(arr: Id, index: Index, source: Id)
    | Extract(arr: Id, source: Id, index: Index)
    | Other

  predicate Defines(op: Op, a: Id) { (op.New? || op.Extract?) && op.arr == a }

  predicate Mentions(op: Op, a: Id) { (!op.Other? && op.arr == a) || ((op.Insert? || op.Extract?) && op.source == a) }

  /** Arrays are defined once and mentioned only after; a new array has no elements or all of them. */
  ghost predicate Ordered(ops: seq<Op>, shape: Id -> Index) {
    && (forall i, j, a :: 0 <= i < j < |ops| && Defines(ops[j], a) ==> !Mentions(ops[i], a))
    && (forall j :: 0 <= j < |ops| && ops[j].Extract? ==> ops[j].source != ops[j].arr)
    && (forall j :: 0 <= j < |ops| && ops[j].New? && ops[j].elems != [] ==> |ops[j].elems| == Count(shape(ops[j].arr)))
  }

  /** An operand: of which operation, and its number there. */
  datatype Ref = Ref(op: nat, operand: nat)

  datatype Option<T> = None | Some(value: T)

  // ---------- which operand was written last ----------

  type Writers = Id -> Index -> Option<Ref>

  ghost function After(shape: Id -> Index, op: Op, pos: nat, w: Writers): Writers {
    match op
    case New(arr, elems) =>
      (a: Id) => (idx: Index) => if a != arr then w(a)(idx) else if elems != [] && InShape(shape(arr), idx)
        then Some(Ref(pos, Linear(shape(arr), idx))) else None
    case Write(arr, index, _) => (a: Id) => (idx: Index) => if a == arr && idx == index then Some(Ref(pos, 0))
      else w(a)(idx)
    case Insert(arr, index, source) =>
      (a: Id) => (idx: Index) => if a == arr && StartsWith(idx, index) && InShape(shape(source), idx[|index|..])
        then w(source)(idx[|index|..]) else w(a)(idx)
    case Extract(arr, source, index) => (a: Id) => (idx: Index) => if a == arr then w(source)(index + idx)
      else w(a)(idx)
    case Other => w
  }

  /** Before operation `n`. */
  ghost function Before(ops: seq<Op>, shape: Id -> Index, n: nat): Writers
    requires n <= |ops|
  {
    if n == 0 then (a: Id) => (idx: Index) => None else After(shape, ops[n - 1], n - 1, Before(ops, shape, n - 1))
  }

  // ---------- what the arrays hold ----------

  type Contents = Id -> Index -> int

  /** Running one operation, from whatever the arrays held before. */
  ghost function Run(shape: Id -> Index, env: Val -> int, op: Op, c: Contents): Contents {
    match op
    case New(arr, elems) =>
      (a: Id) => (idx: Index) => if a == arr && InShape(shape(arr), idx) && Linear(shape(arr), idx) < |elems|
        then env(elems[Linear(shape(arr), idx)]) else c(a)(idx)
    case Write(arr, index, value) => (a: Id) => (idx: Index) => if a == arr && idx == index then env(value)
      else c(a)(idx)
    case Insert(arr, index, source) =>
      (a: Id) => (idx: Index) => if a == arr && StartsWith(idx, index) && InShape(shape(source), idx[|index|..])
        then c(source)(idx[|index|..]) else c(a)(idx)
    case Extract(arr, source, index) => (a: Id) => (idx: Index) => if a == arr then c(source)(index + idx)
      else c(a)(idx)
    case Other => c
  }

  ghost function RunTo(ops: seq<Op>, shape: Id -> Index, env: Val -> int, c: Contents, n: nat): Contents
    requires n <= |ops|
  {
    if n == 0 then c else Run(shape, env, ops[n - 1], RunTo(ops, shape, env, c, n - 1))
  }

  /** The value of an operand, when it is one that fills an array element. */
  ghost function ValueOf(ops: seq<Op>, ref: Ref): Option<Val> {
    if ref.op >= |ops| then None
    else match ops[ref.op]
      case New(_, elems) => if ref.operand < |elems| then Some(elems[ref.operand]) else None
      case Write(_, _, value) => if ref.operand == 0 then Some(value) else None
      case _ => None
  }

  ghost predicate RefTrue(ops: seq<Op>, env: Val -> int, ref: Ref, x: int) {
    ValueOf(ops, ref).Some? && env(ValueOf(ops, ref).value) == x
  }

  /** What operation `n` does not touch. */
  lemma KeptStep(ops: seq<Op>, shape: Id -> Index, env: Val -> int, c: Contents, n: nat, a: Id, idx: Index)
    requires n < |ops| && (!ops[n].Other? && a == ops[n].arr ==>
      && (ops[n].Write? ==> idx != ops[n].index) && !ops[n].New? && !ops[n].Extract?
      && (ops[n].Insert? ==>
            !(StartsWith(idx, ops[n].index) && InShape(shape(ops[n].source), idx[|ops[n].index|..]))))
    ensures Before(ops, shape, n + 1)(a)(idx) == Before(ops, shape, n)(a)(idx)
    ensures RunTo(ops, shape, env, c, n + 1)(a)(idx) == RunTo(ops, shape, env, c, n)(a)(idx)
  {
    hide InShape, Linear, Ordered;
  }

  lemma NewStep(ops: seq<Op>, shape: Id -> Index, env: Val -> int, c: Contents, n: nat, idx: Index)
    requires Ordered(ops, shape) && n < |ops| && ops[n].New? && Before(ops, shape, n + 1)(ops[n].arr)(idx).Some?
    ensures RefTrue(ops, env, Before(ops, shape, n + 1)(ops[n].arr)(idx).value,
        RunTo(ops, shape, env, c, n + 1)(ops[n].arr)(idx))
  {
    hide InShape, Linear, Count;
    LinearInRange(shape(ops[n].arr), idx);
  }

  lemma WriteStep(ops: seq<Op>, shape: Id -> Index, env: Val -> int, c: Contents, n: nat)
    requires n < |ops| && ops[n].Write?
    ensures Before(ops, shape, n + 1)(ops[n].arr)(ops[n].index) == Some(Ref(n, 0))
    ensures RefTrue(ops, env, Ref(n, 0), RunTo(ops, shape, env, c, n + 1)(ops[n].arr)(ops[n].index))
  {}

  /** An inserted element, or an extracted one, is the source's. */
  lemma CopyStep(ops: seq<Op>, shape: Id -> Index, env: Val -> int, c: Contents, n: nat, idx: Index, from: Index)
    requires n < |ops| && (ops[n].Insert? || ops[n].Extract?)
    requires if ops[n].Extract? then from == ops[n].index + idx
      else StartsWith(idx, ops[n].index) && from == idx[|ops[n].index|..] && InShape(shape(ops[n].source), from)
    ensures Before(ops, shape, n + 1)(ops[n].arr)(idx) == Before(ops, shape, n)(ops[n].source)(from)
    ensures RunTo(ops, shape, env, c, n + 1)(ops[n].arr)(idx) == RunTo(ops, shape, env, c, n)(ops[n].source)(from)
  {
    hide InShape, Linear;
  }

  /** What an array holds where it was written is the value of the operand written last. */
  lemma {:induction false} LastWriterHolds(ops: seq<Op>, shape: Id -> Index, env: Val -> int, c: Contents, n: nat,
          a: Id, idx: Index)
    requires Ordered(ops, shape) && n <= |ops| && Before(ops, shape, n)(a)(idx).Some?
    ensures RefTrue(ops, env, Before(ops, shape, n)(a)(idx).value, RunTo(ops, shape, env, c, n)(a)(idx))
    decreases n
  {
    hide Ordered, InShape, Linear, RefTrue, Before, RunTo;
    if n == 0 {
      NothingWritten(ops, shape, a, idx);
    } else {
      var m, op := n - 1, ops[n - 1];
      if op.New? && op.arr == a {
        NewStep(ops, shape, env, c, m, idx);
      } else if op.Write? && op.arr == a && op.index == idx {
        WriteStep(ops, shape, env, c, m);
      } else if op.Extract? && op.arr == a {
        CopyStep(ops, shape, env, c, m, idx, op.index + idx);
        LastWriterHolds(ops, shape, env, c, m, op.source, op.index + idx);
      } else if op.Insert? && op.arr == a && StartsWith(idx, op.index) && InShape(shape(op.source), idx[|op.index|..]) {
        CopyStep(ops, shape, env, c, m, idx, idx[|op.index|..]);
        LastWriterHolds(ops, shape, env, c, m, op.source, idx[|op.index|..]);
      } else {
        KeptStep(ops, shape, env, c, m, a, idx);
        LastWriterHolds(ops, shape, env, c, m, a, idx);
      }
    }
  }

  lemma NothingWritten(ops: seq<Op>, shape: Id -> Index, a: Id, idx: Index)
    ensures Before(ops, shape, 0)(a)(idx) == None
  {}

  // ---------- and nothing that was written is missed ----------

  /** Where the element's contents come from if it was never written: followed back through the copies. */
  ghost function Origin(ops: seq<Op>, shape: Id -> Index, n: nat, a: Id, idx: Index): (Id, Index)
    requires n <= |ops|
    decreases n
  {
    if n == 0 then (a, idx)
    else match ops[n - 1]
      case Insert(arr, index, source) =>
        if a == arr && StartsWith(idx, index) && InShape(shape(source), idx[|index|..])
          then Origin(ops, shape, n - 1, source, idx[|index|..])
        else Origin(ops, shape, n - 1, a, idx)
      case Extract(arr, source, index) =>
        if a == arr then Origin(ops, shape, n - 1, source, index + idx) else Origin(ops, shape, n - 1, a, idx)
      case _ => Origin(ops, shape, n - 1, a, idx)
  }

  lemma {:induction false} NotMentioned(ops: seq<Op>, shape: Id -> Index, n: nat, a: Id, idx: Index)
    requires n <= |ops| && forall i :: 0 <= i < n ==> !Mentions(ops[i], a)
    ensures Before(ops, shape, n)(a)(idx).None?
  {
    hide InShape, Linear;
    if n == 0 {
    } else {
      NotMentioned(ops, shape, n - 1, a, idx);
      assert !Mentions(ops[n - 1], a);
    }
  }

  /** An element without a last writer holds what was somewhere at the start. */
  lemma {:induction false} NoWriterHolds(ops: seq<Op>, shape: Id -> Index, env: Val -> int, c: Contents, n: nat, a: Id,
                                         idx: Index)
    requires Ordered(ops, shape) && n <= |ops| && Before(ops, shape, n)(a)(idx).None?
    ensures var (b, at) := Origin(ops, shape, n, a, idx); RunTo(ops, shape, env, c, n)(a)(idx) == c(b)(at)
    decreases n
  {
    hide Ordered, InShape, Linear;
    if n == 0 {
    } else {
      var m, op := n - 1, ops[n - 1];
      if op.New? && op.arr == a {
        NewUnwritten(ops, shape, env, c, m, idx);
        NoWriterHolds(ops, shape, env, c, m, a, idx);
      } else if op.Extract? && op.arr == a {
        CopyStep(ops, shape, env, c, m, idx, op.index + idx);
        NoWriterHolds(ops, shape, env, c, m, op.source, op.index + idx);
      } else if op.Insert? && op.arr == a && StartsWith(idx, op.index) && InShape(shape(op.source), idx[|op.index|..]) {
        CopyStep(ops, shape, env, c, m, idx, idx[|op.index|..]);
        NoWriterHolds(ops, shape, env, c, m, op.source, idx[|op.index|..]);
      } else {
        assert op.Write? && op.arr == a ==> idx != op.index;
        KeptStep(ops, shape, env, c, m, a, idx);
        NoWriterHolds(ops, shape, env, c, m, a, idx);
      }
    }
  }

  lemma NewUnwritten(ops: seq<Op>, shape: Id -> Index, env: Val -> int, c: Contents, m: nat, idx: Index)
    requires Ordered(ops, shape) && m < |ops| && ops[m].New? && Before(ops, shape, m + 1)(ops[m].arr)(idx).None?
    ensures Before(ops, shape, m)(ops[m].arr)(idx).None?
    ensures RunTo(ops, shape, env, c, m + 1)(ops[m].arr)(idx) == RunTo(ops, shape, env, c, m)(ops[m].arr)(idx)
  {
    hide InShape, Linear;
    assert Defines(ops[m], ops[m].arr);
    NotMentioned(ops, shape, m, ops[m].arr, idx);
  }

  /** An element has a last writer if and only if what it holds does not depend on what arrays held at the start. */
  lemma WriterIff(ops: seq<Op>, shape: Id -> Index, n: nat, a: Id, idx: Index)
    requires Ordered(ops, shape) && n <= |ops|
    ensures Before(ops, shape, n)(a)(idx).Some? <==> forall env: Val -> int, c: Contents, c': Contents ::
        RunTo(ops, shape, env, c, n)(a)(idx) == RunTo(ops, shape, env, c', n)(a)(idx)
  {
    hide Ordered, Before, RunTo;
    if Before(ops, shape, n)(a)(idx).Some? {
      forall env: Val -> int, c: Contents, c': Contents
        ensures RunTo(ops, shape, env, c, n)(a)(idx) == RunTo(ops, shape, env, c', n)(a)(idx)
      {
        LastWriterHolds(ops, shape, env, c, n, a, idx);
        LastWriterHolds(ops, shape, env, c', n, a, idx);
      }
    } else {
      var env: Val -> int, c: Contents, c': Contents := (v: Val) => 0, (b: Id) => (i: Index) => 0,
          (b: Id) => (i: Index) => 1;
      NoWriterHolds(ops, shape, env, c, n, a, idx);
      NoWriterHolds(ops, shape, env, c', n, a, idx);
      assert RunTo(ops, shape, env, c, n)(a)(idx) != RunTo(ops, shape, env, c', n)(a)(idx);
    }
  }
}
