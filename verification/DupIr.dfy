/** SSA functions with nested regions, constraints and calls, and what running them does. */
module DupIr {
  type Id = nat

  /** What an operation is to duplicate elimination. Operations without memory effects are pure; calls are to
      constrain functions and define nothing. */
  datatype Kind = PureK | NonDetK | EqK | ContainK | AssertK | ReadK | EffectK | CallK(callee: nat)

  /** `tag` stands for the operation's name, types and attributes, without its location. */
  datatype Op = Op(id: nat, kind: Kind, tag: nat, operands: seq<Id>, results: seq<Id>)

  datatype Stmt =
    | Do(op: Op)
    | If(cond: Id, thenB: Block, thenYields: seq<Id>, elseB: Block, elseYields: seq<Id>, results: seq<Id>)
    | For(bounds: seq<Id>, inits: seq<Id>, iv: Id, args: seq<Id>, body: Block, carry: seq<Id>, results: seq<Id>)

  datatype Block = Nil | Cons(head: Stmt, tail: Block)

  /** `rank` is the height in the call graph. */
  datatype Fn = Fn(rank: nat, isConstrain: bool, allowWitness: bool, params: seq<Id>, body: Block, rets: seq<Id>)

  datatype World = World(
    pure: (nat, seq<int>, nat) -> int,
    nondet: (nat, seq<nat>, nat) -> int,
    rel: (nat, seq<int>) -> bool,
    read: (nat, seq<int>, int, nat) -> int,
    effect: (nat, seq<int>, int) -> int,
    trips: seq<int> -> nat,
    index: (seq<int>, nat) -> int)

  /** Values, memory, whether every constraint so far holds, and the current loop iterations and calls. */
  datatype Machine = Machine(env: Id -> int, mem: int, acc: bool, it: seq<nat>)

  function Vals(env: Id -> int, ids: seq<Id>): (r: seq<int>)
    ensures |r| == |ids| && forall k :: 0 <= k < |ids| ==> r[k] == env(ids[k])
  {
    seq(|ids|, k requires 0 <= k < |ids| => env(ids[k]))
  }

  function IndexOf(ids: seq<Id>, v: Id): nat { if ids == [] || ids[0] == v then 0 else 1 + IndexOf(ids[1..], v) }

  ghost predicate AllDistinct(ids: seq<Id>) { forall i, j :: 0 <= i < j < |ids| ==> ids[i] != ids[j] }

  lemma {:induction false} IndexOfAt(ids: seq<Id>, k: nat)
    requires AllDistinct(ids) && k < |ids|
    ensures IndexOf(ids, ids[k]) == k
  {
    if k == 0 {
    } else {
      assert ids[0] != ids[k] && ids[k] == ids[1..][k - 1];
      IndexOfAt(ids[1..], k - 1);
    }
  }

  /** `ids` bound to what `f` gives for their positions. */
  function Bind(env: Id -> int, ids: seq<Id>, f: nat -> int): Id -> int {
    (v: Id) => if v in ids then f(IndexOf(ids, v)) else env(v)
  }

  function At(vals: seq<int>): nat -> int { (k: nat) => if k < |vals| then vals[k] else 0 }

  function StmtSize(s: Stmt): nat {
    match s
    case Do(_) => 1
    case If(_, thenB, _, elseB, _, _) => 1 + Size(thenB) + Size(elseB)
    case For(_, _, _, _, body, _, _) => 1 + Size(body)
  }

  function Size(b: Block): nat { if b.Nil? then 0 else 1 + StmtSize(b.head) + Size(b.tail) }

  // ---------- running ----------

  /** The values an operation defines. */
  ghost function Outcome(w: World, op: Op, vals: seq<int>, m: Machine): nat -> int {
    match op.kind
    case PureK => (k: nat) => w.pure(op.tag, vals, k)
    case NonDetK => (k: nat) => w.nondet(op.id, m.it, k)
    case ReadK => (k: nat) => w.read(op.tag, vals, m.mem, k)
    case EffectK => (k: nat) => w.read(op.tag, vals, m.mem, k)
    case _ => (k: nat) => 0
  }

  /** Whether a constraint holds of the values. */
  ghost predicate Holds(w: World, op: Op, vals: seq<int>) {
    match op.kind
    case EqK => |vals| == 2 && vals[0] == vals[1]
    case ContainK => w.rel(op.tag, vals)
    case AssertK => w.rel(op.tag, vals)
    case _ => true
  }

  /** One operation; functions of rank `bound` and above cannot be called from here. */
  ghost function ExecOp(w: World, fns: seq<Fn>, bound: nat, op: Op, vals: seq<int>, m: Machine): Machine
    decreases bound, 0, 1
  {
    if op.kind.CallK? then
      var r := CallFn(w, fns, bound, op.kind.callee, vals, m.mem, m.it + [op.id]);
      m.(mem := r.mem, acc := m.acc && r.acc)
    else
      m.(env := Bind(m.env, op.results, Outcome(w, op, vals, m)),
         mem := if op.kind.EffectK? then w.effect(op.tag, vals, m.mem) else m.mem,
         acc := m.acc && Holds(w, op, vals))
  }

  ghost function CallFn(w: World, fns: seq<Fn>, bound: nat, f: nat, vals: seq<int>, mem: int, it: seq<nat>): Machine
    decreases bound, 0, 0
  {
    var start := Machine((v: Id) => 0, mem, true, it);
    if f < |fns| && fns[f].rank < bound then
      ExecBlock(w, fns, fns[f].rank, fns[f].body, start.(env := Bind(start.env, fns[f].params, At(vals))))
    else start
  }

  ghost function Exec(w: World, fns: seq<Fn>, bound: nat, s: Stmt, m: Machine): Machine
    decreases bound, 1, StmtSize(s), 0, 0
  {
    match s
    case Do(op) => ExecOp(w, fns, bound, op, Vals(m.env, op.operands), m)
    case If(cond, thenB, thenYields, elseB, elseYields, results) =>
      if m.env(cond) != 0 then Yield(ExecBlock(w, fns, bound, thenB, m), thenYields, results)
      else Yield(ExecBlock(w, fns, bound, elseB, m), elseYields, results)
    case For(bounds, inits, iv, args, body, carry, results) =>
      var n := w.trips(Vals(m.env, bounds));
      Yield(ExecLoop(w, fns, bound, s, n, m), if n == 0 then inits else carry, results).(it := m.it)
  }

  /** The results of a structured operation take the yielded values. */
  ghost function Yield(m: Machine, carry: seq<Id>, results: seq<Id>): Machine {
    m.(env := Bind(m.env, results, At(Vals(m.env, carry))))
  }

  /** The machine at the start of iteration `k`: the index, and the carried values from the iteration before. */
  ghost function IterStart(w: World, s: Stmt, k: nat, outer: Machine, m: Machine): Machine
    requires s.For?
  {
    m.(env := Bind(Bind(m.env, s.args, At(Vals(m.env, if k == 0 then s.inits else s.carry))), [s.iv],
      At([w.index(Vals(outer.env, s.bounds), k)])),
       it := outer.it + [k])
  }

  ghost function ExecLoop(w: World, fns: seq<Fn>, bound: nat, s: Stmt, n: nat, m: Machine): Machine
    requires s.For?
    decreases bound, 1, Size(s.body), 1, n
  {
    if n == 0 then m else ExecBlock(w, fns, bound, s.body,
      IterStart(w, s, n - 1, m, ExecLoop(w, fns, bound, s, n - 1, m)))
  }

  ghost function ExecBlock(w: World, fns: seq<Fn>, bound: nat, b: Block, m: Machine): Machine
    decreases bound, 1, Size(b), 0, 0
  {
    if b.Nil? then m else ExecBlock(w, fns, bound, b.tail, Exec(w, fns, bound, b.head, m))
  }
}
