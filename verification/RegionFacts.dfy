/** Global and RAM facts through nested branches and loops: whatever the analysis holds at a point is true
    whenever a run gets there, however often loops repeat. */
module RegionFacts {
  import opened KnownFacts

  type Id = nat

  /** Straight-line operations and the structured ones. `Define` is any operation whose value is not tracked. */
  datatype Stmt =
    | Define(res: Id)
    | Literal(res: Id, c: int)
    | ReadGlobal(res: Id, name: nat)
    | WriteGlobal(name: nat, val: Id)
    | Load(res: Id, addr: Id)
    | Store(addr: Id, val: Id)
    | Effect
    | If(thenB: Block, hasElse: bool, elseB: Block, results: seq<Id>)
    | For(args: seq<Id>, body: Block, results: seq<Id>)
    | While(beforeArgs: seq<Id>, before: Block, afterArgs: seq<Id>, after: Block, results: seq<Id>)

  datatype Block = Nil | Cons(head: Stmt, tail: Block)

  function StmtSize(s: Stmt): nat {
    match s
    case If(thenB, _, elseB, _) => 1 + Size(thenB) + Size(elseB)
    case For(_, body, _) => 1 + Size(body)
    case While(_, before, _, after, _) => 1 + Size(before) + Size(after)
    case _ => 1
  }

  function Size(b: Block): nat { if b.Nil? then 0 else 1 + StmtSize(b.head) + Size(b.tail) }

  // ---------- the analysis ----------

  datatype Known = Known(globals: map<nat, Id>, ram: map<Address, Id>)

  /** The facts at a point, and the replacements found so far. */
  datatype Analysis = Analysis(known: Known, repl: map<Id, Id>)

  /** Keys that both sides map to the same value. */
  function IntersectLookup<K>(lhs: map<K, Id>, rhs: map<K, Id>): map<K, Id> {
    map k | k in lhs && k in rhs && lhs[k] == rhs[k] :: lhs[k]
  }

  function Intersect(lhs: Known, rhs: Known): Known {
    Known(IntersectLookup(lhs.globals, rhs.globals), IntersectLookup(lhs.ram, rhs.ram))
  }

  function NoFacts(): Known { Known(map[], map[]) }

  function AddressOfId(consts: map<Id, int>, v: Id): Address {
    if v in consts then ByConst(consts[v]) else ByValue(v)
  }

  function RunOnOp(consts: map<Id, int>, s: Stmt, a: Analysis): Analysis {
    match s
    case ReadGlobal(res, name) =>
      if name in a.known.globals then a.(repl := a.repl[res := a.known.globals[name]])
      else a.(known := a.known.(globals := a.known.globals[name := res]))
    case WriteGlobal(name, val) => a.(known := a.known.(globals := a.known.globals[name := Translate(a.repl, val)]))
    case Load(res, addr) =>
      var key := AddressOfId(consts, Translate(a.repl, addr));
      if key in a.known.ram then a.(repl := a.repl[res := a.known.ram[key]])
      else a.(known := a.known.(ram := a.known.ram[key := res]))
    case Store(addr, val) => a.(known :=
      a.known.(ram := map[AddressOfId(consts, Translate(a.repl, addr)) := Translate(a.repl, val)]))
    case Effect => a.(known := NoFacts())
    case _ => a
  }

  /** Where the analysis of a nested region starts: loops forget the facts, branches keep them. */
  function EntryState(s: Stmt, known: Known): Known { if s.For? || s.While? then NoFacts() else known }

  function RunOnStmt(consts: map<Id, int>, s: Stmt, a: Analysis): Analysis
    decreases s
  {
    match s
    case If(thenB, hasElse, elseB, _) =>
      var first := RunOnBlock(consts, thenB, a.(known := EntryState(s, a.known)));
      if hasElse then
        var second := RunOnBlock(consts, elseB, Analysis(EntryState(s, a.known), first.repl));
        Analysis(Intersect(a.known, Intersect(first.known, second.known)), second.repl)
      else Analysis(Intersect(a.known, first.known), first.repl)
    case For(_, body, _) =>
      var first := RunOnBlock(consts, body, a.(known := EntryState(s, a.known)));
      Analysis(Intersect(a.known, first.known), first.repl)
    case While(_, before, _, after, _) =>
      var first := RunOnBlock(consts, before, a.(known := EntryState(s, a.known)));
      var second := RunOnBlock(consts, after, Analysis(EntryState(s, a.known), first.repl));
      Analysis(Intersect(a.known, Intersect(first.known, second.known)), second.repl)
    case _ => RunOnOp(consts, s, a)
  }

  function RunOnBlock(consts: map<Id, int>, b: Block, a: Analysis): Analysis
    decreases b
  {
    if b.Nil? then a else RunOnBlock(consts, b.tail, RunOnStmt(consts, b.head, a))
  }

  // ---------- running the code ----------

  /** A machine: values, globals, RAM, and how much of the oracle has been consumed. The oracle decides
      untracked values, branches, iteration counts and what effects do, so that all oracles together are all runs. */
  datatype Machine = Machine(env: Id -> int, globals: nat -> int, ram: int -> int, t: nat)

  datatype Oracle = Oracle(pick: nat -> int, globals: (nat, nat) -> int, ram: (nat, int) -> int)

  ghost function Assign(m: Machine, v: Id, x: int): Machine {
    m.(env := (u: Id) => if u == v then x else m.env(u))
  }

  ghost function AssignAll(o: Oracle, vs: seq<Id>, m: Machine): Machine {
    if vs == [] then m else Assign(AssignAll(o, vs[1..], m), vs[0], o.pick(m.t + |vs| - 1)).(t := m.t + |vs|)
  }

  function Magnitude(x: int): nat { if x < 0 then -x else x }

  ghost function ExecOp(o: Oracle, s: Stmt, m: Machine): Machine {
    match s
    case Define(res) => Assign(m, res, o.pick(m.t)).(t := m.t + 1)
    case Literal(res, c) => Assign(m, res, c)
    case ReadGlobal(res, name) => Assign(m, res, m.globals(name))
    case WriteGlobal(name, val) => m.(globals := (n: nat) => if n == name then m.env(val) else m.globals(n))
    case Load(res, addr) => Assign(m, res, m.ram(m.env(addr)))
    case Store(addr, val) => m.(ram := (x: int) => if x == m.env(addr) then m.env(val) else m.ram(x))
    case Effect => m.(globals := (n: nat) => o.globals(m.t, n), ram := (x: int) => o.ram(m.t, x), t := m.t + 1)
    case _ => m
  }

  ghost function Exec(o: Oracle, s: Stmt, m: Machine): Machine
    decreases StmtSize(s), 0, 0, 0
  {
    var m1 := m.(t := m.t + 1);
    match s
    case If(thenB, hasElse, elseB, results) =>
      AssignAll(o, results, if o.pick(m.t) != 0 then ExecBlock(o, thenB, m1) else if hasElse
        then ExecBlock(o, elseB, m1) else m1)
    case For(args, body, results) => AssignAll(o, results, ExecLoop(o, args, body, Magnitude(o.pick(m.t)), m1))
    case While(beforeArgs, before, afterArgs, after, results) =>
      AssignAll(o, results, ExecWhile(o, beforeArgs, before, afterArgs, after, Magnitude(o.pick(m.t)), m1))
    case _ => ExecOp(o, s, m)
  }

  /** `n` iterations of a body, its arguments set anew each time. */
  ghost function ExecLoop(o: Oracle, args: seq<Id>, body: Block, n: nat, m: Machine): Machine
    decreases Size(body), 1, n, 0
  {
    if n == 0 then m else ExecBlock(o, body, AssignAll(o, args, ExecLoop(o, args, body, n - 1, m)))
  }

  /** The condition region once, then `n` times the body region and the condition region again. */
  ghost function ExecWhile(o: Oracle, beforeArgs: seq<Id>, before: Block, afterArgs: seq<Id>, after: Block, n: nat,
          m: Machine): Machine
    decreases Size(before) + Size(after), 1, n, 0
  {
    if n == 0 then ExecBlock(o, before, AssignAll(o, beforeArgs, m))
    else ExecBlock(o, before, AssignAll(o, beforeArgs, ExecAfter(o, beforeArgs, before, afterArgs, after, n, m)))
  }

  ghost function ExecAfter(o: Oracle, beforeArgs: seq<Id>, before: Block, afterArgs: seq<Id>, after: Block, n: nat,
          m: Machine): Machine
    requires n > 0
    decreases Size(before) + Size(after), 1, n - 1, 1
  {
    ExecBlock(o, after, AssignAll(o, afterArgs, ExecWhile(o, beforeArgs, before, afterArgs, after, n - 1, m)))
  }

  ghost function ExecBlock(o: Oracle, b: Block, m: Machine): Machine
    decreases Size(b), 0, 0, 0
  {
    if b.Nil? then m else ExecBlock(o, b.tail, Exec(o, b.head, m))
  }

  // ---------- single assignment and scopes ----------

  /** The values a statement makes visible to what follows it. */
  function Visible(s: Stmt): set<Id> {
    match s
    case Define(res) => {res}
    case Literal(res, _) => {res}
    case ReadGlobal(res, _) => {res}
    case Load(res, _) => {res}
    case If(_, _, _, results) => Elements(results)
    case For(_, _, results) => Elements(results)
    case While(_, _, _, _, results) => Elements(results)
    case _ => {}
  }

  function Elements(vs: seq<Id>): set<Id> { set v | v in vs }

  /** Everything a statement assigns, nested regions included. */
  function Defs(s: Stmt): set<Id>
    decreases s
  {
    match s
    case If(thenB, _, elseB, results) => Elements(results) + BlockDefs(thenB) + BlockDefs(elseB)
    case For(args, body, results) => Elements(results) + Elements(args) + BlockDefs(body)
    case While(beforeArgs, before, afterArgs, after, results) =>
      Elements(results) + Elements(beforeArgs) + BlockDefs(before) + Elements(afterArgs) + BlockDefs(after)
    case _ => Visible(s)
  }

  function BlockDefs(b: Block): set<Id>
    decreases b
  {
    if b.Nil? then {} else Defs(b.head) + BlockDefs(b.tail)
  }

  function Uses(s: Stmt): set<Id> {
    match s
    case WriteGlobal(_, val) => {val}
    case Load(_, addr) => {addr}
    case Store(addr, val) => {addr, val}
    case _ => {}
  }

  /** In scope `v`: every value is assigned in one place, and used only where it is visible. `consts` are the
      literals. */
  ghost predicate Scoped(consts: map<Id, int>, s: Stmt, v: set<Id>)
    decreases s
  {
    && v !! Defs(s) && Uses(s) <= v
    && match s
       case Literal(res, c) => res in consts && consts[res] == c
       case If(thenB, _, elseB, results) =>
         && BlockScoped(consts, thenB, v) && BlockScoped(consts, elseB, v) && BlockDefs(thenB) !! BlockDefs(elseB)
         && Elements(results) !! BlockDefs(thenB) + BlockDefs(elseB) + consts.Keys
       case For(args, body, results) =>
         && BlockScoped(consts, body, v + Elements(args))
         && Elements(results) !! BlockDefs(body) + Elements(args) + consts.Keys
         && Elements(args) !! BlockDefs(body) + consts.Keys
       case While(beforeArgs, before, afterArgs, after, results) =>
         && BlockScoped(consts, before, v + Elements(beforeArgs)) && BlockScoped(consts, after, v + Elements(afterArgs))
         && Elements(beforeArgs) + BlockDefs(before) !! Elements(afterArgs) + BlockDefs(after)
         && Elements(results) !! Elements(beforeArgs) + BlockDefs(before) + Elements(afterArgs) + BlockDefs(after) +
           consts.Keys
         && Elements(beforeArgs) !! BlockDefs(before) + consts.Keys &&
           Elements(afterArgs) !! BlockDefs(after) + consts.Keys
       case _ => Visible(s) !! consts.Keys
  }

  ghost predicate BlockScoped(consts: map<Id, int>, b: Block, v: set<Id>)
    decreases b
  {
    b.Cons? ==>
      Scoped(consts, b.head, v) && BlockScoped(consts, b.tail, v + Visible(b.head)) && Defs(b.head) !! BlockDefs(b.tail)
  }

  // ---------- what is true of a machine ----------

  function AddressAt(env: Id -> int, a: Address): int { if a.ByConst? then a.c else env(a.v) }

  ghost predicate KnownTrue(known: Known, m: Machine) {
    && (forall name :: name in known.globals ==> m.globals(name) == m.env(known.globals[name]))
    && (forall a :: a in known.ram ==> m.ram(AddressAt(m.env, a)) == m.env(known.ram[a]))
  }

  /** The facts mention only visible values. */
  ghost predicate KnownIn(known: Known, v: set<Id>) {
    && (forall name :: name in known.globals ==> known.globals[name] in v)
    && (forall a :: a in known.ram ==> known.ram[a] in v && (a.ByValue? ==> a.v in v))
  }

  /** Replacements of visible values are visible and equal; literals have their values; no replacement concerns what is
      yet to be assigned. */
  ghost predicate ReplTrue(consts: map<Id, int>, repl: map<Id, Id>, v: set<Id>, m: Machine) {
    && (forall x :: x in v && x in repl ==> repl[x] in v && m.env(x) == m.env(repl[x]))
    && (forall x :: x in v && x in consts ==> m.env(x) == consts[x])
  }

  ghost predicate Sound(consts: map<Id, int>, a: Analysis, v: set<Id>, m: Machine) {
    KnownTrue(a.known, m) && KnownIn(a.known, v) && ReplTrue(consts, a.repl, v, m)
  }

  ghost predicate SameOn(m: Machine, m': Machine, v: set<Id>) { forall x :: x in v ==> m'.env(x) == m.env(x) }

  lemma TranslateTrue(consts: map<Id, int>, repl: map<Id, Id>, v: set<Id>, m: Machine, x: Id)
    requires ReplTrue(consts, repl, v, m) && x in v
    ensures Translate(repl, x) in v && m.env(Translate(repl, x)) == m.env(x)
    ensures AddressAt(m.env, AddressOfId(consts, Translate(repl, x))) == m.env(x)
  {}

  lemma OpScoped(consts: map<Id, int>, s: Stmt, v: set<Id>)
    requires Scoped(consts, s, v) && !s.If? && !s.For? && !s.While?
    ensures Defs(s) == Visible(s) && v !! Visible(s) && Uses(s) <= v
    ensures if s.Literal? then s.res in consts && consts[s.res] == s.c else Visible(s) !! consts.Keys
  {}

  /** A new value, and the clock. */
  lemma TickAssign(consts: map<Id, int>, a: Analysis, v: set<Id>, m: Machine, res: Id, x: int, t: nat)
    requires Sound(consts, a, v, m) && res !in v && res !in a.repl && (res in consts ==> x == consts[res])
    ensures Sound(consts, a, v + {res}, Assign(m, res, x).(t := t)) && SameOn(m, Assign(m, res, x).(t := t), v)
    ensures Assign(m, res, x).(t := m.t) == Assign(m, res, x)
  {}

  lemma ReplaceSound(consts: map<Id, int>, a: Analysis, v: set<Id>, m: Machine, res: Id, y: Id)
    requires Sound(consts, a, v, m) && y in v && m.env(res) == m.env(y)
    ensures Sound(consts, a.(repl := a.repl[res := y]), v, m)
  {}

  lemma GlobalFact(consts: map<Id, int>, a: Analysis, v: set<Id>, m: Machine, name: nat, y: Id)
    requires Sound(consts, a, v, m) && y in v && m.globals(name) == m.env(y)
    ensures Sound(consts, a.(known := a.known.(globals := a.known.globals[name := y])), v, m)
  {}

  lemma RamFact(consts: map<Id, int>, a: Analysis, v: set<Id>, m: Machine, key: Address, y: Id)
    requires Sound(consts, a, v, m) && y in v && (key.ByValue? ==> key.v in v)
    requires m.ram(AddressAt(m.env, key)) == m.env(y)
    ensures Sound(consts, a.(known := a.known.(ram := a.known.ram[key := y])), v, m)
  {}

  lemma ReadGlobalSound(consts: map<Id, int>, a: Analysis, v: set<Id>, m: Machine, res: Id, name: nat)
    requires Sound(consts, a, v, m) && res !in v && res !in a.repl && res !in consts
    ensures var a', m' := RunOnOp(consts, ReadGlobal(res, name), a), Assign(m, res, m.globals(name));
            Sound(consts, a', v + {res}, m') && SameOn(m, m', v) &&
              (res in a'.repl ==> m'.env(res) == m'.env(a'.repl[res]))
  {
    var m' := Assign(m, res, m.globals(name));
    TickAssign(consts, a, v, m, res, m.globals(name), m.t);
    if name in a.known.globals {
      ReplaceSound(consts, a, v + {res}, m', res, a.known.globals[name]);
    } else {
      GlobalFact(consts, a, v + {res}, m', name, res);
    }
  }

  lemma AddressVisible(consts: map<Id, int>, repl: map<Id, Id>, v: set<Id>, m: Machine, addr: Id)
    requires ReplTrue(consts, repl, v, m) && addr in v
    ensures var key := AddressOfId(consts, Translate(repl, addr));
        (key.ByValue? ==> key.v in v) && AddressAt(m.env, key) == m.env(addr)
  {
    TranslateTrue(consts, repl, v, m, addr);
  }

  lemma LoadSound(consts: map<Id, int>, a: Analysis, v: set<Id>, m: Machine, res: Id, addr: Id)
    requires Sound(consts, a, v, m) && addr in v && res !in v && res !in a.repl && res !in consts
    ensures var a', m' := RunOnOp(consts, Load(res, addr), a), Assign(m, res, m.ram(m.env(addr)));
            Sound(consts, a', v + {res}, m') && SameOn(m, m', v) &&
              (res in a'.repl ==> m'.env(res) == m'.env(a'.repl[res]))
  {
    var m', key := Assign(m, res, m.ram(m.env(addr))), AddressOfId(consts, Translate(a.repl, addr));
    TickAssign(consts, a, v, m, res, m.ram(m.env(addr)), m.t);
    AddressVisible(consts, a.repl, v, m, addr);
    AddressVisible(consts, a.repl, v + {res}, m', addr);
    if key in a.known.ram {
      ReplaceSound(consts, a, v + {res}, m', res, a.known.ram[key]);
    } else {
      RamFact(consts, a, v + {res}, m', key, res);
    }
  }

  lemma WriteGlobalSound(consts: map<Id, int>, a: Analysis, v: set<Id>, m: Machine, name: nat, val: Id)
    requires Sound(consts, a, v, m) && val in v
    ensures var a', m' := RunOnOp(consts, WriteGlobal(name, val), a),
        m.(globals := (n: nat) => if n == name then m.env(val) else m.globals(n));
            Sound(consts, a', v + {}, m') && SameOn(m, m', v)
  {
    TranslateTrue(consts, a.repl, v, m, val);
    assert v + {} == v;
  }

  lemma StoreSound(consts: map<Id, int>, a: Analysis, v: set<Id>, m: Machine, addr: Id, val: Id)
    requires Sound(consts, a, v, m) && addr in v && val in v
    ensures var a', m' := RunOnOp(consts, Store(addr, val), a),
        m.(ram := (x: int) => if x == m.env(addr) then m.env(val) else m.ram(x));
            Sound(consts, a', v + {}, m') && SameOn(m, m', v)
  {
    TranslateTrue(consts, a.repl, v, m, val);
    AddressVisible(consts, a.repl, v, m, addr);
    assert v + {} == v;
  }

  lemma EffectSound(consts: map<Id, int>, a: Analysis, v: set<Id>, m: Machine, m': Machine)
    requires Sound(consts, a, v, m) && m'.env == m.env
    ensures Sound(consts, a.(known := NoFacts()), v + {}, m') && SameOn(m, m', v)
  {
    assert v + {} == v;
  }

  /** One straight-line operation keeps the analysis true; a read found redundant has the value it is replaced by. */
  lemma OpSound(consts: map<Id, int>, o: Oracle, s: Stmt, a: Analysis, v: set<Id>, m: Machine)
    requires Scoped(consts, s, v) && Sound(consts, a, v, m) && !s.If? && !s.For? && !s.While? && a.repl.Keys !! Defs(s)
    ensures var a', m' := RunOnOp(consts, s, a), ExecOp(o, s, m);
            && Sound(consts, a', v + Visible(s), m') && SameOn(m, m', v)
            && a.repl.Keys <= a'.repl.Keys <= a.repl.Keys + Defs(s)
            && (forall x :: x in a.repl ==> a'.repl[x] == a.repl[x])
            && (forall x :: x in a'.repl && x in Visible(s) ==> m'.env(x) == m'.env(a'.repl[x]))
  {
    hide Scoped, Defs, BlockDefs, BlockScoped, Sound;
    OpScoped(consts, s, v);
    var m' := ExecOp(o, s, m);
    match s {
      case Define(res) => TickAssign(consts, a, v, m, res, o.pick(m.t), m.t + 1);
      case Literal(res, c) => TickAssign(consts, a, v, m, res, c, m.t);
      case ReadGlobal(res, name) => ReadGlobalSound(consts, a, v, m, res, name);
      case WriteGlobal(name, val) => WriteGlobalSound(consts, a, v, m, name, val);
      case Load(res, addr) => LoadSound(consts, a, v, m, res, addr);
      case Store(addr, val) => StoreSound(consts, a, v, m, addr, val);
      case Effect => EffectSound(consts, a, v, m, m');
    }
  }

  // ---------- every point of a run ----------

  /** The machine at the start of iteration `k` of a body. */
  ghost function IterationStart(o: Oracle, args: seq<Id>, body: Block, k: nat, m: Machine): Machine {
    AssignAll(o, args, ExecLoop(o, args, body, k, m))
  }

  ghost function BeforeStart(o: Oracle, beforeArgs: seq<Id>, before: Block, afterArgs: seq<Id>, after: Block, k: nat,
          m: Machine): Machine
  {
    AssignAll(o, beforeArgs, if k == 0 then m else ExecAfter(o, beforeArgs, before, afterArgs, after, k, m))
  }

  ghost function AfterStart(o: Oracle, beforeArgs: seq<Id>, before: Block, afterArgs: seq<Id>, after: Block, k: nat,
          m: Machine): Machine
  {
    AssignAll(o, afterArgs, ExecWhile(o, beforeArgs, before, afterArgs, after, k, m))
  }

  /** Following the run started in `m`: at `s`, and at every point inside `s` each time it is reached, the facts held
      there are true, and every read found redundant gives the value it is replaced by. */
  ghost predicate TrueAt(consts: map<Id, int>, o: Oracle, s: Stmt, a: Analysis, m: Machine)
    decreases s
  {
    var m1, entry := m.(t := m.t + 1), a.(known := EntryState(s, a.known));
    && KnownTrue(a.known, m)
    && match s
       case If(thenB, hasElse, elseB, _) =>
         if o.pick(m.t) != 0 then TrueIn(consts, o, thenB, entry, m1)
         else hasElse ==> TrueIn(consts, o, elseB, entry.(repl := RunOnBlock(consts, thenB, entry).repl), m1)
       case For(args, body, _) =>
         forall k: nat ::
           k < Magnitude(o.pick(m.t)) ==> TrueIn(consts, o, body, entry, IterationStart(o, args, body, k, m1))
       case While(beforeArgs, before, afterArgs, after, _) =>
         && (forall k: nat ::
           k <= Magnitude(o.pick(m.t)) ==>
           TrueIn(consts, o, before, entry, BeforeStart(o, beforeArgs, before, afterArgs, after, k, m1)))
         && (forall k: nat :: k < Magnitude(o.pick(m.t)) ==>
               TrueIn(consts, o, after, entry.(repl := RunOnBlock(consts, before, entry).repl),
                 AfterStart(o, beforeArgs, before, afterArgs, after, k, m1)))
       case _ =>
         var a', m' := RunOnOp(consts, s, a), ExecOp(o, s, m);
         forall x :: x in a'.repl && x in Visible(s) ==> m'.env(x) == m'.env(a'.repl[x])
  }

  ghost predicate TrueIn(consts: map<Id, int>, o: Oracle, b: Block, a: Analysis, m: Machine)
    decreases b
  {
    if b.Nil? then KnownTrue(a.known, m)
    else TrueAt(consts, o, b.head, a, m) && TrueIn(consts, o, b.tail, RunOnStmt(consts, b.head, a), Exec(o, b.head, m))
  }

  // ---------- replacements are scoped ----------

  /** Only values assigned in between gain replacements. */
  ghost predicate Grows(repl: map<Id, Id>, repl': map<Id, Id>, defs: set<Id>) {
    && repl.Keys <= repl'.Keys && (forall x :: x in repl ==> repl'[x] == repl[x])
    && (forall x :: x in repl' ==> x in repl || x in defs)
  }

  lemma {:induction false} StmtGrows(consts: map<Id, int>, s: Stmt, a: Analysis)
    requires a.repl.Keys !! Defs(s) && Distinct(s)
    ensures Grows(a.repl, RunOnStmt(consts, s, a).repl, Defs(s))
    decreases StmtSize(s)
  {
    match s {
      case If(thenB, hasElse, elseB, _) =>
        var first := RunOnBlock(consts, thenB, a.(known := EntryState(s, a.known)));
        BlockGrows(consts, thenB, a.(known := EntryState(s, a.known)));
        if hasElse { BlockGrows(consts, elseB, Analysis(EntryState(s, a.known), first.repl)); }
      case For(_, body, _) => BlockGrows(consts, body, a.(known := EntryState(s, a.known)));
      case While(_, before, _, after, _) =>
        var first := RunOnBlock(consts, before, a.(known := EntryState(s, a.known)));
        BlockGrows(consts, before, a.(known := EntryState(s, a.known)));
        BlockGrows(consts, after, Analysis(EntryState(s, a.known), first.repl));
      case _ =>
    }
  }

  lemma {:induction false} BlockGrows(consts: map<Id, int>, b: Block, a: Analysis)
    requires a.repl.Keys !! BlockDefs(b) && BlockDistinct(b)
    ensures Grows(a.repl, RunOnBlock(consts, b, a).repl, BlockDefs(b))
    decreases Size(b)
  {
    if b.Nil? {
    } else {
      StmtGrows(consts, b.head, a);
      BlockGrows(consts, b.tail, RunOnStmt(consts, b.head, a));
    }
  }

  /** The single-assignment part of being scoped. */
  ghost predicate Distinct(s: Stmt)
    decreases s
  {
    match s
    case If(thenB, _, elseB, _) => BlockDistinct(thenB) && BlockDistinct(elseB) && BlockDefs(thenB) !! BlockDefs(elseB)
    case For(_, body, _) => BlockDistinct(body)
    case While(_, before, _, after, _) => BlockDistinct(before) && BlockDistinct(after) &&
      BlockDefs(before) !! BlockDefs(after)
    case _ => true
  }

  ghost predicate BlockDistinct(b: Block)
    decreases b
  {
    b.Cons? ==> Distinct(b.head) && BlockDistinct(b.tail) && Defs(b.head) !! BlockDefs(b.tail)
  }

  lemma {:induction false} ScopedDistinct(consts: map<Id, int>, s: Stmt, v: set<Id>)
    requires Scoped(consts, s, v)
    ensures Distinct(s)
    decreases StmtSize(s)
  {
    match s {
      case If(thenB, _, elseB, _) => BlockScopedDistinct(consts, thenB, v); BlockScopedDistinct(consts, elseB, v);
      case For(args, body, _) => BlockScopedDistinct(consts, body, v + Elements(args));
      case While(beforeArgs, before, afterArgs, after, _) =>
        BlockScopedDistinct(consts, before, v + Elements(beforeArgs));
        BlockScopedDistinct(consts, after, v + Elements(afterArgs));
      case _ =>
    }
  }

  lemma {:induction false} BlockScopedDistinct(consts: map<Id, int>, b: Block, v: set<Id>)
    requires BlockScoped(consts, b, v)
    ensures BlockDistinct(b) && v !! BlockDefs(b)
    decreases Size(b)
  {
    if b.Nil? {
    } else {
      ScopedDistinct(consts, b.head, v);
      BlockScopedDistinct(consts, b.tail, v + Visible(b.head));
    }
  }

  // ---------- soundness ----------

  lemma {:induction false} AssignAllFrame(o: Oracle, vs: seq<Id>, m: Machine)
    ensures var m' := AssignAll(o, vs, m);
            m'.globals == m.globals && m'.ram == m.ram && forall x :: x !in Elements(vs) ==> m'.env(x) == m.env(x)
  {
    if vs == [] {
    } else {
      AssignAllFrame(o, vs[1..], m);
      assert Elements(vs) == {vs[0]} + Elements(vs[1..]);
    }
  }

  /** Facts about visible values survive as long as those values, and the memory they are about, stay put. */
  lemma KnownFrame(known: Known, v: set<Id>, m: Machine, m': Machine)
    requires KnownTrue(known, m) && KnownIn(known, v) && SameOn(m, m', v) && m'.globals == m.globals && m'.ram == m.ram
    ensures KnownTrue(known, m')
  {}

  lemma ReplFrame(consts: map<Id, int>, repl: map<Id, Id>, repl': map<Id, Id>, defs: set<Id>, v: set<Id>, m: Machine,
          m': Machine)
    requires ReplTrue(consts, repl, v, m) && Grows(repl, repl', defs) && v !! defs && SameOn(m, m', v)
    ensures ReplTrue(consts, repl', v, m')
  {}

  /** Values that become visible without being read: they have no replacement and are no literals. */
  lemma ReplWiden(consts: map<Id, int>, repl: map<Id, Id>, v: set<Id>, more: set<Id>, m: Machine)
    requires ReplTrue(consts, repl, v, m) && more !! repl.Keys + consts.Keys
    ensures ReplTrue(consts, repl, v + more, m)
  {}

  lemma FewerTrue(lhs: Known, rhs: Known, m: Machine)
    requires KnownTrue(lhs, m)
    ensures KnownTrue(Intersect(lhs, rhs), m)
  {}

  /** What holds behind a nested region that may or may not have run last. */
  lemma IntersectTrue(lhs: Known, rhs: Known, m: Machine)
    requires KnownTrue(lhs, m) || KnownTrue(rhs, m)
    ensures KnownTrue(Intersect(lhs, rhs), m)
  {}

  lemma Tick(consts: map<Id, int>, a: Analysis, v: set<Id>, m: Machine, t: nat)
    requires Sound(consts, a, v, m)
    ensures var m1 := m.(t := t);
            && Sound(consts, a, v, m1) && KnownTrue(a.known, m) && KnownTrue(a.known, m1)
            && SameOn(m, m1, v) && ReplTrue(consts, a.repl, v, m) && ReplTrue(consts, a.repl, v, m1)
  {}

  lemma AfterRegion(consts: map<Id, int>, o: Oracle, a: Analysis, known: Known, repl: map<Id, Id>, defs: set<Id>,
          v: set<Id>, m: Machine, m': Machine, results: seq<Id>)
    requires Sound(consts, a, v, m) && SameOn(m, m', v) && Grows(a.repl, repl, defs) && v !! defs
    requires KnownTrue(known, m') || KnownTrue(a.known, m')
    requires Elements(results) !! v + repl.Keys + consts.Keys
    ensures Sound(consts, Analysis(Intersect(a.known, known), repl), v + Elements(results), AssignAll(o, results, m'))
    ensures SameOn(m, AssignAll(o, results, m'), v)
  {
    AssignAllFrame(o, results, m');
    var both := Intersect(a.known, known);
    assert KnownTrue(both, m') && KnownIn(both, v);
    KnownFrame(both, v, m', AssignAll(o, results, m'));
    ReplFrame(consts, a.repl, repl, defs, v, m, AssignAll(o, results, m'));
    ReplWiden(consts, repl, v, Elements(results), AssignAll(o, results, m'));
  }

  lemma {:induction false} BlockSound(consts: map<Id, int>, o: Oracle, b: Block, a: Analysis, v: set<Id>, m: Machine)
    requires BlockScoped(consts, b, v) && Sound(consts, a, v, m) && a.repl.Keys !! BlockDefs(b)
    ensures KnownTrue(RunOnBlock(consts, b, a).known, ExecBlock(o, b, m)) && SameOn(m, ExecBlock(o, b, m), v)
    ensures TrueIn(consts, o, b, a, m)
    decreases Size(b), 0, 0
  {
    if b.Nil? {
    } else {
      StmtSound(consts, o, b.head, a, v, m);
      ScopedDistinct(consts, b.head, v);
      StmtGrows(consts, b.head, a);
      BlockSound(consts, o, b.tail, RunOnStmt(consts, b.head, a), v + Visible(b.head), Exec(o, b.head, m));
    }
  }

  lemma {:induction false} StmtSound(consts: map<Id, int>, o: Oracle, s: Stmt, a: Analysis, v: set<Id>, m: Machine)
    requires Scoped(consts, s, v) && Sound(consts, a, v, m) && a.repl.Keys !! Defs(s)
    ensures Sound(consts, RunOnStmt(consts, s, a), v + Visible(s), Exec(o, s, m)) && SameOn(m, Exec(o, s, m), v)
    ensures TrueAt(consts, o, s, a, m)
    decreases StmtSize(s), 0, 0
  {
    match s {
      case If(_, _, _, _) => IfSound(consts, o, s, a, v, m);
      case For(_, _, _) => ForSound(consts, o, s, a, v, m);
      case While(_, _, _, _, _) => WhileSound(consts, o, s, a, v, m);
      case _ => OpSound(consts, o, s, a, v, m);
    }
  }

  lemma {:induction false} IfSound(consts: map<Id, int>, o: Oracle, s: Stmt, a: Analysis, v: set<Id>, m: Machine)
    requires s.If? && Scoped(consts, s, v) && Sound(consts, a, v, m) && a.repl.Keys !! Defs(s)
    ensures Sound(consts, RunOnStmt(consts, s, a), v + Visible(s), Exec(o, s, m)) && SameOn(m, Exec(o, s, m), v)
    ensures TrueAt(consts, o, s, a, m)
    decreases StmtSize(s) - 1, 2, 0
  {
    hide Sound, BlockScoped, ExecBlock, RunOnBlock, BlockDefs, TrueIn, SameOn, KnownTrue, ReplTrue;
    var m1 := m.(t := m.t + 1);
    Tick(consts, a, v, m, m.t + 1);
    var first := RunOnBlock(consts, s.thenB, a);
    BlockScopedDistinct(consts, s.thenB, v);
    BlockScopedDistinct(consts, s.elseB, v);
    BlockGrows(consts, s.thenB, a);
    if s.hasElse {
      var start := Analysis(a.known, first.repl);
      var second := RunOnBlock(consts, s.elseB, start);
      BlockGrows(consts, s.elseB, start);
      ReplFrame(consts, a.repl, first.repl, BlockDefs(s.thenB), v, m, m1);
      var m2 := if o.pick(m.t) != 0 then ExecBlock(o, s.thenB, m1) else ExecBlock(o, s.elseB, m1);
      if o.pick(m.t) != 0 {
        BlockSound(consts, o, s.thenB, a, v, m1);
      } else {
        BlockSound(consts, o, s.elseB, start, v, m1);
      }
      IntersectTrue(first.known, second.known, m2);
      AfterRegion(consts, o, a, Intersect(first.known, second.known), second.repl,
        BlockDefs(s.thenB) + BlockDefs(s.elseB), v, m, m2, s.results);
    } else {
      if o.pick(m.t) != 0 { BlockSound(consts, o, s.thenB, a, v, m1); }
      AfterRegion(consts, o, a, first.known, first.repl, BlockDefs(s.thenB), v, m, if o.pick(m.t) != 0
        then ExecBlock(o, s.thenB, m1) else m1, s.results);
    }
  }

  /** The facts a loop body ends with hold after every iteration; before the first, nothing outside has changed. */
  lemma {:induction false} LoopSound(consts: map<Id, int>, o: Oracle, args: seq<Id>, body: Block, n: nat, a: Analysis,
          v: set<Id>, m: Machine)
    requires BlockScoped(consts, body, v + Elements(args)) && a.known == NoFacts() && ReplTrue(consts, a.repl, v, m)
    requires v !! Elements(args) && a.repl.Keys !! BlockDefs(body) + Elements(args) && Elements(args) !! consts.Keys
    ensures SameOn(m, ExecLoop(o, args, body, n, m), v)
    ensures n > 0 ==> KnownTrue(RunOnBlock(consts, body, a).known, ExecLoop(o, args, body, n, m))
    ensures forall k: nat :: k < n ==> TrueIn(consts, o, body, a, IterationStart(o, args, body, k, m))
    decreases Size(body), 1, n
  {
    hide TrueIn, RunOnBlock, ExecBlock, AssignAll, BlockDefs, KnownTrue, ReplTrue, BlockScoped;
    if n == 0 {
    } else {
      LoopSound(consts, o, args, body, n - 1, a, v, m);
      RegionRun(consts, o, args, body, a, v, m, ExecLoop(o, args, body, n - 1, m));
    }
  }

  /** One run of a loop region, its arguments set anew, from a machine that agrees outside. */
  lemma {:induction false} RegionRun(consts: map<Id, int>, o: Oracle, args: seq<Id>, body: Block, a: Analysis,
          v: set<Id>, m: Machine, m1: Machine)
    requires BlockScoped(consts, body, v + Elements(args)) && a.known == NoFacts() && ReplTrue(consts, a.repl, v, m)
    requires SameOn(m, m1, v)
    requires v !! Elements(args) && a.repl.Keys !! BlockDefs(body) + Elements(args) && Elements(args) !! consts.Keys
    ensures var start := AssignAll(o, args, m1);
            && TrueIn(consts, o, body, a, start) && SameOn(m, ExecBlock(o, body, start), v)
            && KnownTrue(RunOnBlock(consts, body, a).known, ExecBlock(o, body, start))
    decreases Size(body), 0, 1
  {
    AssignAllFrame(o, args, m1);
    var start := AssignAll(o, args, m1);
    ReplFrame(consts, a.repl, a.repl, {}, v, m, start);
    ReplWiden(consts, a.repl, v, Elements(args), start);
    BlockSound(consts, o, body, a, v + Elements(args), start);
  }

  lemma {:induction false} ForSound(consts: map<Id, int>, o: Oracle, s: Stmt, a: Analysis, v: set<Id>, m: Machine)
    requires s.For? && Scoped(consts, s, v) && Sound(consts, a, v, m) && a.repl.Keys !! Defs(s)
    ensures Sound(consts, RunOnStmt(consts, s, a), v + Visible(s), Exec(o, s, m)) && SameOn(m, Exec(o, s, m), v)
    ensures TrueAt(consts, o, s, a, m)
    decreases StmtSize(s) - 1, 2, 0
  {
    hide BlockScoped, ExecBlock, RunOnBlock, BlockDefs, TrueIn, ReplTrue, Magnitude;
    var m1, entry, n := m.(t := m.t + 1), a.(known := NoFacts()), Magnitude(o.pick(m.t));
    Tick(consts, a, v, m, m.t + 1);
    BlockScopedDistinct(consts, s.body, v + Elements(s.args));
    BlockGrows(consts, s.body, entry);
    LoopSound(consts, o, s.args, s.body, n, entry, v, m1);
    var first := RunOnBlock(consts, s.body, entry);
    AfterRegion(consts, o, a, first.known, first.repl, BlockDefs(s.body), v, m, ExecLoop(o, s.args, s.body, n, m1),
      s.results);
  }

  /** As LoopSound, for a loop of a condition region and a body region. */
  lemma {:induction false} IterationsSound(consts: map<Id, int>, o: Oracle, s: Stmt, n: nat, a: Analysis, v: set<Id>,
          m: Machine)
    requires s.While? && Scoped(consts, s, v) && a.known == NoFacts() && ReplTrue(consts, a.repl, v, m)
    requires a.repl.Keys !! Defs(s)
    ensures var first := RunOnBlock(consts, s.before, a);
            var m' := ExecWhile(o, s.beforeArgs, s.before, s.afterArgs, s.after, n, m);
            && SameOn(m, m', v) && KnownTrue(first.known, m')
            && (forall k: nat ::
              k <= n ==>
              TrueIn(consts, o, s.before, a, BeforeStart(o, s.beforeArgs, s.before, s.afterArgs, s.after, k, m)))
            && (forall k: nat ::
              k < n ==>
              TrueIn(consts, o, s.after, a.(repl := first.repl),
              AfterStart(o, s.beforeArgs, s.before, s.afterArgs, s.after, k, m)))
    decreases StmtSize(s) - 1, 1, n
  {
    hide TrueIn, RunOnBlock, ExecBlock, AssignAll, BlockDefs, KnownTrue, ReplTrue, BlockScoped, BlockDistinct;
    var first := RunOnBlock(consts, s.before, a);
    BlockScopedDistinct(consts, s.before, v + Elements(s.beforeArgs));
    BlockGrows(consts, s.before, a);
    if n == 0 {
      RegionRun(consts, o, s.beforeArgs, s.before, a, v, m, m);
    } else {
      IterationsSound(consts, o, s, n - 1, a, v, m);
      var m1 := ExecWhile(o, s.beforeArgs, s.before, s.afterArgs, s.after, n - 1, m);
      ReplFrame(consts, a.repl, first.repl, BlockDefs(s.before), v, m, m);
      RegionRun(consts, o, s.afterArgs, s.after, a.(repl := first.repl), v, m, m1);
      RegionRun(consts, o, s.beforeArgs, s.before, a, v, m,
        ExecAfter(o, s.beforeArgs, s.before, s.afterArgs, s.after, n, m));
    }
  }

  lemma {:induction false} WhileSound(consts: map<Id, int>, o: Oracle, s: Stmt, a: Analysis, v: set<Id>, m: Machine)
    requires s.While? && Scoped(consts, s, v) && Sound(consts, a, v, m) && a.repl.Keys !! Defs(s)
    ensures Sound(consts, RunOnStmt(consts, s, a), v + Visible(s), Exec(o, s, m)) && SameOn(m, Exec(o, s, m), v)
    ensures TrueAt(consts, o, s, a, m)
    decreases StmtSize(s) - 1, 2, 0
  {
    hide TrueIn, RunOnBlock, ExecBlock, AssignAll, BlockDefs, KnownTrue, BlockScoped, BlockDistinct;
    var m1, entry, n := m.(t := m.t + 1), a.(known := NoFacts()), Magnitude(o.pick(m.t));
    BlockScopedDistinct(consts, s.before, v + Elements(s.beforeArgs));
    BlockScopedDistinct(consts, s.after, v + Elements(s.afterArgs));
    BlockGrows(consts, s.before, entry);
    IterationsSound(consts, o, s, n, entry, v, m1);
    var first := RunOnBlock(consts, s.before, entry);
    BlockGrows(consts, s.after, Analysis(NoFacts(), first.repl));
    var second := RunOnBlock(consts, s.after, Analysis(NoFacts(), first.repl));
    FewerTrue(first.known, second.known, ExecWhile(o, s.beforeArgs, s.before, s.afterArgs, s.after, n, m1));
    AfterRegion(consts, o, a, Intersect(first.known, second.known), second.repl,
      BlockDefs(s.before) + BlockDefs(s.after), v, m,
                ExecWhile(o, s.beforeArgs, s.before, s.afterArgs, s.after, n, m1), s.results);
  }

  /** For a whole function body, started with nothing known: on every run, at every point each time it is reached,
      every global and RAM fact is true. */
  lemma FactsAlwaysTrue(consts: map<Id, int>, o: Oracle, body: Block, args: set<Id>, m: Machine)
    requires BlockScoped(consts, body, args) && args !! consts.Keys
    ensures TrueIn(consts, o, body, Analysis(NoFacts(), map[]), m)
  {
    BlockSound(consts, o, body, Analysis(NoFacts(), map[]), args, m);
  }

  // ---------- the traversal as the pass performs it ----------

  class RegionPass {
    const consts: map<Id, int>
    var replacementMap: map<Id, Id>

    constructor (consts: map<Id, int>)
      ensures this.consts == consts && replacementMap == map[]
    {
      this.consts, replacementMap := consts, map[];
    }

    /** One operation, its nested regions included. */
    method RunOn(s: Stmt, state: Known) returns (state': Known)
      modifies this
      ensures Analysis(state', replacementMap) == RunOnStmt(consts, s, Analysis(state, old(replacementMap)))
      decreases StmtSize(s), 1
    {
      if !s.If? && !s.For? && !s.While? {
        state' := RunOperation(s, state);
        return;
      }
      var parentState := state;
      var entry := state;
      if s.For? || s.While? {
        entry := Known(map[], map[]);
      }
      var finalState;
      match s {
        case If(thenB, hasElse, elseB, _) =>
          finalState := RunRegion(thenB, entry);
          if hasElse {
            var other := RunRegion(elseB, entry);
            finalState := Intersect(finalState, other);
          }
        case For(_, body, _) =>
          finalState := RunRegion(body, entry);
        case While(_, before, _, after, _) =>
          finalState := RunRegion(before, entry);
          var other := RunRegion(after, entry);
          finalState := Intersect(finalState, other);
      }
      // a nested region may not have run exactly once: keep only what is known both before and after it
      state' := Intersect(parentState, finalState);
    }

    method RunOperation(s: Stmt, state: Known) returns (state': Known)
      modifies this
      ensures Analysis(state', replacementMap) == RunOnOp(consts, s, Analysis(state, old(replacementMap)))
    {
      state' := state;
      match s {
        case ReadGlobal(res, name) =>
          if name in state.globals {
            replacementMap := replacementMap[res := state.globals[name]];
          } else {
            state' := state'.(globals := state'.globals[name := res]);
          }
        case WriteGlobal(name, val) =>
          state' := state'.(globals := state'.globals[name := Translate(replacementMap, val)]);
        case Load(res, addr) =>
          var key := AddressOfId(consts, Translate(replacementMap, addr));
          if key in state.ram {
            replacementMap := replacementMap[res := state.ram[key]];
          } else {
            state' := state'.(ram := state'.ram[key := res]);
          }
        case Store(addr, val) =>
          state' := state'.(ram := map[]);
          state' := state'.(ram := state'.ram[AddressOfId(consts, Translate(replacementMap, addr)) :=
            Translate(replacementMap, val)]);
        case Effect =>
          state' := Known(map[], map[]);
        case _ =>
      }
    }

    method RunRegion(b: Block, state: Known) returns (state': Known)
      modifies this
      ensures Analysis(state', replacementMap) == RunOnBlock(consts, b, Analysis(state, old(replacementMap)))
      decreases Size(b), 2
    {
      state' := state;
      var rest := b;
      while rest.Cons?
        invariant Size(rest) <= Size(b)
        invariant RunOnBlock(consts, rest, Analysis(state', replacementMap)) ==
            RunOnBlock(consts, b, Analysis(state, old(replacementMap)))
        decreases Size(rest)
      {
        state' := RunOn(rest.head, state');
        rest := rest.tail;
      }
    }
  }
}
