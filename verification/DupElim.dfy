/** Duplicate elimination as value numbering: which operations are redundant, and why leaving them out
    is harmless on every run. */
module DupElim {
  import opened DupIr

  // ---------- calls without purpose ----------

  /** Whether a constrain function can neither constrain anything nor change memory, through all it calls. */
  predicate Purposeless(fns: seq<Fn>, bound: nat, f: nat)
    decreases bound, 0, 0
  {
    f < |fns| && fns[f].rank < bound && fns[f].isConstrain && !fns[f].allowWitness &&
      BlockPurposeless(fns, fns[f].rank, fns[f].body)
  }

  predicate StmtPurposeless(fns: seq<Fn>, bound: nat, s: Stmt)
    decreases bound, 1, StmtSize(s)
  {
    match s
    case Do(op) => !op.kind.EqK? && !op.kind.ContainK? && !op.kind.AssertK? && !op.kind.EffectK? &&
      (op.kind.CallK? ==> Purposeless(fns, bound, op.kind.callee))
    case If(_, thenB, _, elseB, _, _) => BlockPurposeless(fns, bound, thenB) && BlockPurposeless(fns, bound, elseB)
    case For(_, _, _, _, body, _, _) => BlockPurposeless(fns, bound, body)
  }

  predicate BlockPurposeless(fns: seq<Fn>, bound: nat, b: Block)
    decreases bound, 1, Size(b)
  {
    b.Cons? ==> StmtPurposeless(fns, bound, b.head) && BlockPurposeless(fns, bound, b.tail)
  }

  ghost predicate Silent(m: Machine, m': Machine) { m'.mem == m.mem && m'.acc == m.acc }

  /** A purposeless call accepts everything and changes nothing. */
  lemma {:induction false} PurposelessSilent(w: World, fns: seq<Fn>, bound: nat, f: nat, vals: seq<int>, mem: int,
          it: seq<nat>)
    requires Purposeless(fns, bound, f)
    ensures var r := CallFn(w, fns, bound, f, vals, mem, it); r.acc && r.mem == mem
    decreases bound, 0, 0
  {
    var start := Machine((v: Id) => 0, mem, true, it);
    BlockSilent(w, fns, fns[f].rank, fns[f].body, start.(env := Bind(start.env, fns[f].params, At(vals))));
  }

  lemma {:induction false} StmtSilent(w: World, fns: seq<Fn>, bound: nat, s: Stmt, m: Machine)
    requires StmtPurposeless(fns, bound, s)
    ensures Silent(m, Exec(w, fns, bound, s, m))
    decreases bound, 1, StmtSize(s), 0, 0
  {
    match s {
      case Do(op) =>
        if op.kind.CallK? {
          PurposelessSilent(w, fns, bound, op.kind.callee, Vals(m.env, op.operands), m.mem, m.it + [op.id]);
        }
      case If(cond, thenB, _, elseB, _, _) =>
        if m.env(cond) != 0 { BlockSilent(w, fns, bound, thenB, m); } else { BlockSilent(w, fns, bound, elseB, m); }
      case For(bounds, _, _, _, _, _, _) => LoopSilent(w, fns, bound, s, w.trips(Vals(m.env, bounds)), m);
    }
  }

  lemma {:induction false} BlockSilent(w: World, fns: seq<Fn>, bound: nat, b: Block, m: Machine)
    requires BlockPurposeless(fns, bound, b)
    ensures Silent(m, ExecBlock(w, fns, bound, b, m))
    decreases bound, 1, Size(b), 0, 0
  {
    if b.Nil? {
    } else {
      StmtSilent(w, fns, bound, b.head, m);
      BlockSilent(w, fns, bound, b.tail, Exec(w, fns, bound, b.head, m));
    }
  }

  lemma {:induction false} LoopSilent(w: World, fns: seq<Fn>, bound: nat, s: Stmt, n: nat, m: Machine)
    requires s.For? && BlockPurposeless(fns, bound, s.body)
    ensures Silent(m, ExecLoop(w, fns, bound, s, n, m))
    decreases bound, 1, Size(s.body), 1, n
  {
    if n == 0 {
    } else {
      LoopSilent(w, fns, bound, s, n - 1, m);
      BlockSilent(w, fns, bound, s.body, IterStart(w, s, n - 1, m, ExecLoop(w, fns, bound, s, n - 1, m)));
    }
  }

  // ---------- the walk ----------

  function Translate(map_: map<Id, Id>, v: Id): Id { if v in map_ then map_[v] else v }

  function TranslateAll(map_: map<Id, Id>, vs: seq<Id>): (r: seq<Id>)
    ensures |r| == |vs| && forall k :: 0 <= k < |vs| ==> r[k] == Translate(map_, vs[k])
  {
    seq(|vs|, k requires 0 <= k < |vs| => Translate(map_, vs[k]))
  }

  /** A retained operation and its operands as they were translated. */
  datatype Entry = Entry(op: Op, operands: seq<Id>)

  /** Same operation, up to the order of two operands where that does not matter. */
  predicate Matches(comm: set<nat>, e: Entry, op: Op, operands: seq<Id>) {
    && e.op.kind == op.kind && e.op.tag == op.tag && |e.op.results| == |op.results| && |e.operands| == |operands|
    && if op.tag in comm && |operands| == 2
       then (e.operands[0] == operands[0] && e.operands[1] == operands[1]) ||
         (e.operands[0] == operands[1] && e.operands[1] == operands[0])
       else e.operands == operands
  }

  datatype Option<T> = None | Some(value: T)

  function Find(comm: set<nat>, unique: seq<Entry>, op: Op, operands: seq<Id>): (r: Option<Entry>)
    ensures r.Some? ==> r.value in unique && Matches(comm, r.value, op, operands)
    ensures r.None? ==> forall e :: e in unique ==> !Matches(comm, e, op, operands)
  {
    if unique == [] then None
    else if Matches(comm, unique[0], op, operands) then Some(unique[0])
    else Find(comm, unique[1..], op, operands)
  }

  datatype Walk = Walk(map_: map<Id, Id>, unique: seq<Entry>, redundant: seq<Op>)

  function MapResults(map_: map<Id, Id>, from: seq<Id>, to: seq<Id>): map<Id, Id>
    requires |from| == |to|
  {
    if from == [] then map_ else MapResults(map_, from[..|from| - 1], to[..|to| - 1])[from[|from| - 1] := to[|to| - 1]]
  }

  predicate IsCandidate(op: Op) { op.kind.PureK? || op.kind.EqK? || op.kind.ContainK? }

  /** Constraints that always hold and calls without purpose. */
  predicate Unnecessary(fns: seq<Fn>, bound: nat, op: Op) {
    || (op.kind.EqK? && |op.operands| == 2 && op.operands[0] == op.operands[1])
    || (op.kind.CallK? && Purposeless(fns, bound, op.kind.callee))
  }

  /** `dom` are the operations that dominate this one. */
  function WalkOp(fns: seq<Fn>, bound: nat, comm: set<nat>, op: Op, dom: set<nat>, st: Walk): Walk {
    if Unnecessary(fns, bound, op) then st.(redundant := st.redundant + [op])
    else if IsCandidate(op) then
      var operands := TranslateAll(st.map_, op.operands);
      var it := Find(comm, st.unique, op, operands);
      if it.Some? && it.value.op.id in dom then
        st.(redundant := st.redundant + [op], map_ := MapResults(st.map_, op.results, it.value.op.results))
      else if it.None? then st.(unique := st.unique + [Entry(op, operands)])
      else st
    else st
  }

  function StmtId(s: Stmt): set<nat> { if s.Do? then {s.op.id} else {} }

  function WalkStmt(fns: seq<Fn>, bound: nat, comm: set<nat>, s: Stmt, dom: set<nat>, st: Walk): Walk
    decreases StmtSize(s)
  {
    match s
    case Do(op) => WalkOp(fns, bound, comm, op, dom, st)
    case If(_, thenB, _, elseB, _, _) => WalkBlock(fns, bound, comm, elseB, dom,
      WalkBlock(fns, bound, comm, thenB, dom, st))
    case For(_, _, _, _, body, _, _) => WalkBlock(fns, bound, comm, body, dom, st)
  }

  function WalkBlock(fns: seq<Fn>, bound: nat, comm: set<nat>, b: Block, dom: set<nat>, st: Walk): Walk
    decreases Size(b)
  {
    if b.Nil? then st else WalkBlock(fns, bound, comm, b.tail, dom + StmtId(b.head),
      WalkStmt(fns, bound, comm, b.head, dom, st))
  }

  // ---------- scopes ----------

  function Elements(vs: seq<Id>): set<Id> { set v | v in vs }

  function Visible(s: Stmt): set<Id> { Elements(if s.Do? then s.op.results else s.results) }

  function BlockVisible(b: Block): set<Id>
    decreases b
  {
    if b.Nil? then {} else Visible(b.head) + BlockVisible(b.tail)
  }

  function Defs(s: Stmt): set<Id>
    decreases s
  {
    match s
    case Do(op) => Elements(op.results)
    case If(_, thenB, _, elseB, _, results) => Elements(results) + BlockDefs(thenB) + BlockDefs(elseB)
    case For(_, _, iv, args, body, _, results) => Elements(results) + {iv} + Elements(args) + BlockDefs(body)
  }

  function BlockDefs(b: Block): set<Id>
    decreases b
  {
    if b.Nil? then {} else Defs(b.head) + BlockDefs(b.tail)
  }

  function Ids(s: Stmt): set<nat>
    decreases s
  {
    match s
    case Do(op) => {op.id}
    case If(_, thenB, _, elseB, _, _) => BlockIds(thenB) + BlockIds(elseB)
    case For(_, _, _, _, body, _, _) => BlockIds(body)
  }

  function BlockIds(b: Block): set<nat>
    decreases b
  {
    if b.Nil? then {} else Ids(b.head) + BlockIds(b.tail)
  }

  /** Every value is defined once and used where it is visible; every operation has its own identity. */
  ghost predicate Scoped(s: Stmt, v: set<Id>)
    decreases s
  {
    && v !! Defs(s)
    && match s
       case Do(op) => Elements(op.operands) <= v && AllDistinct(op.results) &&
         (op.kind.CallK? || op.kind.EqK? || op.kind.ContainK? || op.kind.AssertK? ==> op.results == [])
       case If(cond, thenB, thenYields, elseB, elseYields, results) =>
         && cond in v && BlockScoped(thenB, v) && BlockScoped(elseB, v) && AllDistinct(results)
         && |thenYields| == |elseYields| == |results|
         && Elements(thenYields) <= v + BlockVisible(thenB) && Elements(elseYields) <= v + BlockVisible(elseB)
         && BlockDefs(thenB) !! BlockDefs(elseB) && BlockIds(thenB) !! BlockIds(elseB) &&
           Elements(results) !! BlockDefs(thenB) + BlockDefs(elseB)
       case For(bounds, inits, iv, args, body, carry, results) =>
         && Elements(bounds) <= v && Elements(inits) <= v && |inits| == |args| == |carry| == |results|
         && AllDistinct(args) && AllDistinct(results)
         && iv !in args && BlockScoped(body, v + {iv} + Elements(args))
         && Elements(carry) <= v + {iv} + Elements(args) + BlockVisible(body)
         && Elements(results) !! BlockDefs(body) + {iv} + Elements(args)
  }

  ghost predicate BlockScoped(b: Block, v: set<Id>)
    decreases b
  {
    b.Cons? ==>
      Scoped(b.head, v) && BlockScoped(b.tail, v + Visible(b.head)) && Defs(b.head) !! BlockDefs(b.tail) &&
      Ids(b.head) !! BlockIds(b.tail)
  }

  lemma {:induction false} BlockFresh(b: Block, v: set<Id>)
    requires BlockScoped(b, v)
    ensures v !! BlockDefs(b)
    decreases Size(b)
  {
    if b.Nil? {
    } else {
      BlockFresh(b.tail, v + Visible(b.head));
    }
  }
}
