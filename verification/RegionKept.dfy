/** What the region analysis does not miss: facts carried through branches, the reads they replace, and when a loop
    loses them. */
module RegionKept {
  import opened KnownFacts
  import opened RegionFacts

  /** A global, or the RAM cell at an address. */
  datatype Cell = OfGlobal(name: nat) | OfRam(key: Address)

  datatype Held = Unknown | As(v: Id)

  function HeldIn(known: Known, cell: Cell): Held {
    match cell
    case OfGlobal(name) => if name in known.globals then As(known.globals[name]) else Unknown
    case OfRam(key) => if key in known.ram then As(known.ram[key]) else Unknown
  }

  // ---------- what the code says ----------

  /** The literals, and what each read was replaced by in the end. */
  datatype Context = Context(consts: map<Id, int>, repl: map<Id, Id>)

  /** The statement reads the cell into `res`. */
  predicate ReadsCell(c: Context, s: Stmt, cell: Cell, res: Id) {
    match s
    case ReadGlobal(r, name) => r == res && cell == OfGlobal(name)
    case Load(r, addr) => r == res && cell == OfRam(AddressOfId(c.consts, Translate(c.repl, addr)))
    case _ => false
  }

  predicate WritesCell(c: Context, s: Stmt, cell: Cell, val: Id) {
    match s
    case WriteGlobal(name, x) => x == val && cell == OfGlobal(name)
    case Store(addr, x) => x == val && cell == OfRam(AddressOfId(c.consts, Translate(c.repl, addr)))
    case _ => false
  }

  /** Nothing in the statement can write the cell, on any path, and no loop is in it. */
  predicate Spares(s: Stmt, cell: Cell)
    decreases StmtSize(s)
  {
    match s
    case WriteGlobal(name, _) => cell != OfGlobal(name)
    case Store(_, _) => cell.OfGlobal?
    case Effect => false
    case If(thenB, hasElse, elseB, _) => BlockSpares(thenB, cell) && (hasElse ==> BlockSpares(elseB, cell))
    case For(_, _, _) => false
    case While(_, _, _, _, _) => false
    case _ => true
  }

  predicate BlockSpares(b: Block, cell: Cell)
    decreases Size(b)
  {
    b.Cons? ==> Spares(b.head, cell) && BlockSpares(b.tail, cell)
  }

  /** From the start of the block a read of the cell into `res` is reached, inside branches too, past nothing that can
      write the cell. */
  predicate ReachesRead(c: Context, b: Block, cell: Cell, res: Id)
    decreases Size(b)
  {
    b.Cons? &&
    (|| ReadsCell(c, b.head, cell, res)
     || ReachesReadIn(c, b.head, cell, res) || (Spares(b.head, cell) && ReachesRead(c, b.tail, cell, res)))
  }

  predicate ReachesReadIn(c: Context, s: Stmt, cell: Cell, res: Id)
    decreases StmtSize(s)
  {
    s.If? && (ReachesRead(c, s.thenB, cell, res) || (s.hasElse && ReachesRead(c, s.elseB, cell, res)))
  }

  /** Somewhere in the block, in branches and loops too, `src` is read from the cell or written to it, and from there a
      read into `res` is reached. */
  predicate Reread(c: Context, b: Block, cell: Cell, src: Id, res: Id)
    decreases Size(b)
  {
    b.Cons? &&
    (|| ((ReadsCell(c, b.head, cell, src) || WritesCell(c, b.head, cell, src)) && ReachesRead(c, b.tail, cell, res))
     || RereadAt(c, b.head, cell, src, res) || Reread(c, b.tail, cell, src, res))
  }

  predicate RereadAt(c: Context, s: Stmt, cell: Cell, src: Id, res: Id)
    decreases StmtSize(s)
  {
    match s
    case If(thenB, hasElse, elseB, _) => Reread(c, thenB, cell, src, res) ||
      (hasElse && Reread(c, elseB, cell, src, res))
    case For(_, body, _) => Reread(c, body, cell, src, res)
    case While(_, before, _, after, _) => Reread(c, before, cell, src, res) || Reread(c, after, cell, src, res)
    case _ => false
  }

  // ---------- facts are kept ----------

  /** A fact about a cell is still there behind code that spares the cell. */
  lemma {:induction false} BlockHeld(consts: map<Id, int>, b: Block, a: Analysis, cell: Cell)
    requires HeldIn(a.known, cell).As? && BlockSpares(b, cell)
    ensures HeldIn(RunOnBlock(consts, b, a).known, cell) == HeldIn(a.known, cell)
    decreases Size(b)
  {
    if b.Nil? {
    } else {
      StmtHeld(consts, b.head, a, cell);
      BlockHeld(consts, b.tail, RunOnStmt(consts, b.head, a), cell);
    }
  }

  lemma {:induction false} StmtHeld(consts: map<Id, int>, s: Stmt, a: Analysis, cell: Cell)
    requires HeldIn(a.known, cell).As? && Spares(s, cell)
    ensures HeldIn(RunOnStmt(consts, s, a).known, cell) == HeldIn(a.known, cell)
    decreases StmtSize(s)
  {
    match s {
      case If(thenB, hasElse, elseB, _) =>
        var first := RunOnBlock(consts, thenB, a);
        BlockHeld(consts, thenB, a, cell);
        if hasElse { BlockHeld(consts, elseB, Analysis(a.known, first.repl), cell); }
      case _ =>
    }
  }

  // ---------- reads are replaced ----------

  /** `repl` is what `final` has but for values assigned later. */
  ghost predicate Fits(repl: map<Id, Id>, final: map<Id, Id>, later: set<Id>) {
    (forall x :: x in repl ==> x in final && final[x] == repl[x]) && forall x :: x in final && x !in repl ==> x in later
  }

  /** A walk from `a` over code that assigns `defs`, where the code is in order for it and `c` has the outcome. */
  ghost predicate Leads(c: Context, a: Analysis, a': Analysis, defs: set<Id>, v: set<Id>, later: set<Id>) {
    && a.repl.Keys !! defs && Grows(a.repl, a'.repl, defs) && Fits(a'.repl, c.repl, later)
    && later !! v + defs && v !! defs
  }

  lemma FitsStart(c: Context, a: Analysis, a': Analysis, defs: set<Id>, v: set<Id>, later: set<Id>, x: Id)
    requires Leads(c, a, a', defs, v, later) && x in v
    ensures Translate(a.repl, x) == Translate(c.repl, x)
  {}

  ghost predicate BlockLeads(c: Context, b: Block, a: Analysis, v: set<Id>, later: set<Id>) {
    BlockScoped(c.consts, b, v) && Leads(c, a, RunOnBlock(c.consts, b, a), BlockDefs(b), v, later)
  }

  ghost predicate StmtLeads(c: Context, s: Stmt, a: Analysis, v: set<Id>, later: set<Id>) {
    Scoped(c.consts, s, v) && Leads(c, a, RunOnStmt(c.consts, s, a), Defs(s), v, later)
  }

  /** The head and the tail of a block. */
  lemma ConsLeads(c: Context, b: Block, a: Analysis, v: set<Id>, later: set<Id>)
    requires b.Cons? && BlockLeads(c, b, a, v, later)
    ensures StmtLeads(c, b.head, a, v, later + BlockDefs(b.tail))
    ensures BlockLeads(c, b.tail, RunOnStmt(c.consts, b.head, a), v + Visible(b.head), later)
  {
    var a1 := RunOnStmt(c.consts, b.head, a);
    ScopedDistinct(c.consts, b.head, v);
    BlockScopedDistinct(c.consts, b.tail, v + Visible(b.head));
    StmtGrows(c.consts, b.head, a);
    BlockGrows(c.consts, b.tail, a1);
    VisibleDefs(b.head);
  }

  lemma VisibleDefs(s: Stmt)
    ensures Visible(s) <= Defs(s)
  {}

  lemma IfLeads(c: Context, s: Stmt, a: Analysis, v: set<Id>, later: set<Id>)
    requires s.If? && StmtLeads(c, s, a, v, later)
    ensures BlockLeads(c, s.thenB, a, v, later + BlockDefs(s.elseB))
    ensures s.hasElse ==>
        BlockLeads(c, s.elseB, Analysis(a.known, RunOnBlock(c.consts, s.thenB, a).repl), v, later)
  {
    var first := RunOnBlock(c.consts, s.thenB, a);
    BlockScopedDistinct(c.consts, s.thenB, v);
    BlockScopedDistinct(c.consts, s.elseB, v);
    BlockGrows(c.consts, s.thenB, a);
    BlockGrows(c.consts, s.elseB, Analysis(a.known, first.repl));
  }

  lemma ForLeads(c: Context, s: Stmt, a: Analysis, v: set<Id>, later: set<Id>)
    requires s.For? && StmtLeads(c, s, a, v, later)
    ensures BlockLeads(c, s.body, Analysis(NoFacts(), a.repl), v + Elements(s.args), later)
  {
    BlockScopedDistinct(c.consts, s.body, v + Elements(s.args));
    BlockGrows(c.consts, s.body, Analysis(NoFacts(), a.repl));
  }

  lemma WhileLeads(c: Context, s: Stmt, a: Analysis, v: set<Id>, later: set<Id>)
    requires s.While? && StmtLeads(c, s, a, v, later)
    ensures var first := Analysis(NoFacts(), a.repl);
        && BlockLeads(c, s.before, first, v + Elements(s.beforeArgs), later + BlockDefs(s.after))
        && BlockLeads(c, s.after, Analysis(NoFacts(), RunOnBlock(c.consts, s.before, first).repl),
             v + Elements(s.afterArgs), later)
  {
    var first := RunOnBlock(c.consts, s.before, Analysis(NoFacts(), a.repl));
    BlockScopedDistinct(c.consts, s.before, v + Elements(s.beforeArgs));
    BlockScopedDistinct(c.consts, s.after, v + Elements(s.afterArgs));
    BlockGrows(c.consts, s.before, Analysis(NoFacts(), a.repl));
    BlockGrows(c.consts, s.after, Analysis(NoFacts(), first.repl));
  }

  /** A read reached from where the cell's value is known is replaced by that value. */
  lemma {:induction false} ReadReplaced(c: Context, b: Block, a: Analysis, v: set<Id>, later: set<Id>, cell: Cell,
                                        res: Id)
    requires BlockLeads(c, b, a, v, later) && HeldIn(a.known, cell).As? && ReachesRead(c, b, cell, res)
    ensures res in c.repl && c.repl[res] == HeldIn(a.known, cell).v
    decreases Size(b)
  {
    hide BlockLeads, StmtLeads;
    ConsLeads(c, b, a, v, later);
    var s := b.head;
    if ReadsCell(c, s, cell, res) {
      HeadRead(c, s, a, v, later + BlockDefs(b.tail), cell, res);
    } else if ReachesReadIn(c, s, cell, res) {
      assert StmtSize(s) == 1 + Size(s.thenB) + Size(s.elseB);
      IfLeads(c, s, a, v, later + BlockDefs(b.tail));
      if ReachesRead(c, s.thenB, cell, res) {
        ReadReplaced(c, s.thenB, a, v, later + BlockDefs(b.tail) + BlockDefs(s.elseB), cell, res);
      } else {
        ReadReplaced(c, s.elseB, Analysis(a.known, RunOnBlock(c.consts, s.thenB, a).repl), v, later + BlockDefs(b.tail),
                     cell, res);
      }
    } else {
      StmtHeld(c.consts, s, a, cell);
      ReadReplaced(c, b.tail, RunOnStmt(c.consts, s, a), v + Visible(s), later, cell, res);
    }
  }

  lemma HeadRead(c: Context, s: Stmt, a: Analysis, v: set<Id>, later: set<Id>, cell: Cell, res: Id)
    requires StmtLeads(c, s, a, v, later) && HeldIn(a.known, cell).As? && ReadsCell(c, s, cell, res)
    ensures res in c.repl && c.repl[res] == HeldIn(a.known, cell).v
  {
    if s.Load? { FitsStart(c, a, RunOnStmt(c.consts, s, a), Defs(s), v, later, s.addr); }
  }

  /** After a read or a write the cell is known as what was read or written. */
  lemma HeadKnown(c: Context, s: Stmt, a: Analysis, v: set<Id>, later: set<Id>, cell: Cell, src: Id)
    requires StmtLeads(c, s, a, v, later) && (ReadsCell(c, s, cell, src) || WritesCell(c, s, cell, src))
    ensures HeldIn(RunOnStmt(c.consts, s, a).known, cell) == As(Translate(c.repl, src))
  {
    var a' := RunOnStmt(c.consts, s, a);
    match s {
      case Load(_, addr) => FitsStart(c, a, a', Defs(s), v, later, addr);
      case Store(addr, val) =>
        FitsStart(c, a, a', Defs(s), v, later, addr);
        FitsStart(c, a, a', Defs(s), v, later, val);
      case WriteGlobal(_, val) => FitsStart(c, a, a', Defs(s), v, later, val);
      case _ =>
    }
  }

  /** A read that is reached from another read or from a write of the same cell is replaced by that one's value. */
  lemma {:induction false} RereadReplaced(c: Context, b: Block, a: Analysis, v: set<Id>, later: set<Id>, cell: Cell,
                                          src: Id, res: Id)
    requires BlockLeads(c, b, a, v, later) && Reread(c, b, cell, src, res)
    ensures res in c.repl && c.repl[res] == Translate(c.repl, src)
    decreases Size(b), 0
  {
    hide BlockLeads, StmtLeads;
    ConsLeads(c, b, a, v, later);
    var s, a' := b.head, RunOnStmt(c.consts, b.head, a);
    if (ReadsCell(c, s, cell, src) || WritesCell(c, s, cell, src)) && ReachesRead(c, b.tail, cell, res) {
      HeadKnown(c, s, a, v, later + BlockDefs(b.tail), cell, src);
      ReadReplaced(c, b.tail, a', v + Visible(s), later, cell, res);
    } else if RereadAt(c, s, cell, src, res) {
      RereadAtReplaced(c, s, a, v, later + BlockDefs(b.tail), cell, src, res);
    } else {
      RereadReplaced(c, b.tail, a', v + Visible(s), later, cell, src, res);
    }
  }

  lemma {:induction false} RereadAtReplaced(c: Context, s: Stmt, a: Analysis, v: set<Id>, later: set<Id>, cell: Cell,
                                            src: Id, res: Id)
    requires StmtLeads(c, s, a, v, later) && RereadAt(c, s, cell, src, res)
    ensures res in c.repl && c.repl[res] == Translate(c.repl, src)
    decreases StmtSize(s), 0
  {
    hide BlockLeads, StmtLeads;
    match s {
      case If(thenB, _, elseB, _) =>
        IfLeads(c, s, a, v, later);
        if Reread(c, thenB, cell, src, res) {
          RereadReplaced(c, thenB, a, v, later + BlockDefs(elseB), cell, src, res);
        } else {
          RereadReplaced(c, elseB, Analysis(a.known, RunOnBlock(c.consts, thenB, a).repl), v, later, cell, src, res);
        }
      case For(args, body, _) =>
        ForLeads(c, s, a, v, later);
        RereadReplaced(c, body, Analysis(NoFacts(), a.repl), v + Elements(args), later, cell, src, res);
      case While(beforeArgs, before, afterArgs, after, _) =>
        WhileLeads(c, s, a, v, later);
        var first := Analysis(NoFacts(), a.repl);
        if Reread(c, before, cell, src, res) {
          RereadReplaced(c, before, first, v + Elements(beforeArgs), later + BlockDefs(after), cell, src, res);
        } else {
          RereadReplaced(c, after, Analysis(NoFacts(), RunOnBlock(c.consts, before, first).repl),
            v + Elements(afterArgs),
                         later, cell, src, res);
        }
    }
  }

  /** In a function body, whatever is in scope at its start: every read that a read or write of the same cell leads to
      is
      replaced by what was read or written. */
  lemma EveryReread(consts: map<Id, int>, b: Block, v: set<Id>, cell: Cell, src: Id, res: Id)
    requires BlockScoped(consts, b, v)
    requires Reread(Context(consts, RunOnBlock(consts, b, Analysis(NoFacts(), map[])).repl), b, cell, src, res)
    ensures var repl := RunOnBlock(consts, b, Analysis(NoFacts(), map[])).repl;
        res in repl && repl[res] == Translate(repl, src)
  {
    var a := Analysis(NoFacts(), map[]);
    var c := Context(consts, RunOnBlock(consts, b, a).repl);
    BlockScopedDistinct(consts, b, v);
    BlockGrows(consts, b, a);
    assert BlockLeads(c, b, a, v, {});
    RereadReplaced(c, b, a, v, {}, cell, src, res);
  }

  // ---------- loops ----------

  /** A write of the cell somewhere in the block, on any path. A store counts for all of RAM. */
  predicate Writes(s: Stmt, cell: Cell)
    decreases StmtSize(s)
  {
    match s
    case WriteGlobal(name, _) => cell == OfGlobal(name)
    case Store(_, _) => cell.OfRam?
    case If(thenB, hasElse, elseB, _) => BlockWrites(thenB, cell) || (hasElse && BlockWrites(elseB, cell))
    case For(_, body, _) => BlockWrites(body, cell)
    case While(_, before, _, after, _) => BlockWrites(before, cell) || BlockWrites(after, cell)
    case _ => false
  }

  predicate BlockWrites(b: Block, cell: Cell)
    decreases Size(b)
  {
    b.Cons? && (Writes(b.head, cell) || BlockWrites(b.tail, cell))
  }

  ghost predicate KnownWithin(known: Known, cell: Cell, vs: set<Id>) {
    HeldIn(known, cell).As? ==> HeldIn(known, cell).v in vs
  }

  /** Without a write, what is known afterwards was known before or was read here. */
  lemma {:induction false} BlockReadsOnly(consts: map<Id, int>, b: Block, a: Analysis, cell: Cell, vs: set<Id>)
    requires !BlockWrites(b, cell) && KnownWithin(a.known, cell, vs)
    ensures KnownWithin(RunOnBlock(consts, b, a).known, cell, vs + BlockDefs(b))
    decreases Size(b)
  {
    if b.Nil? {
    } else {
      StmtReadsOnly(consts, b.head, a, cell, vs);
      BlockReadsOnly(consts, b.tail, RunOnStmt(consts, b.head, a), cell, vs + Defs(b.head));
      assert vs + Defs(b.head) + BlockDefs(b.tail) == vs + BlockDefs(b);
    }
  }

  lemma {:induction false} StmtReadsOnly(consts: map<Id, int>, s: Stmt, a: Analysis, cell: Cell, vs: set<Id>)
    requires !Writes(s, cell) && KnownWithin(a.known, cell, vs)
    ensures KnownWithin(RunOnStmt(consts, s, a).known, cell, vs + Defs(s))
    decreases StmtSize(s)
  {}

  /** Behind a loop nothing is known of a cell that one of its regions does not write: a loop that leaves a global or
      RAM
      alone still loses the facts about it. */
  lemma LoopForgets(consts: map<Id, int>, s: Stmt, a: Analysis, v: set<Id>, cell: Cell)
    requires Scoped(consts, s, v) && KnownIn(a.known, v)
    requires (s.For? && !BlockWrites(s.body, cell)) ||
        (s.While? && (!BlockWrites(s.before, cell) || !BlockWrites(s.after, cell)))
    ensures HeldIn(RunOnStmt(consts, s, a).known, cell).Unknown?
  {
    if s.For? {
      BlockReadsOnly(consts, s.body, Analysis(NoFacts(), a.repl), cell, {});
    } else {
      var first := RunOnBlock(consts, s.before, Analysis(NoFacts(), a.repl));
      if !BlockWrites(s.before, cell) { BlockReadsOnly(consts, s.before, Analysis(NoFacts(), a.repl), cell, {}); }
      if !BlockWrites(s.after, cell) { BlockReadsOnly(consts, s.after, Analysis(NoFacts(), first.repl), cell, {}); }
    }
  }

  /** The block ends with a write of `val` to the cell, and nothing behind it that can write the cell. */
  predicate EndsWriting(c: Context, b: Block, cell: Cell, val: Id)
    decreases Size(b)
  {
    b.Cons? && ((WritesCell(c, b.head, cell, val) && BlockSpares(b.tail, cell)) || EndsWriting(c, b.tail, cell, val))
  }

  lemma {:induction false} EndKnown(c: Context, b: Block, a: Analysis, v: set<Id>, later: set<Id>, cell: Cell, val: Id)
    requires BlockLeads(c, b, a, v, later) && EndsWriting(c, b, cell, val)
    ensures HeldIn(RunOnBlock(c.consts, b, a).known, cell) == As(Translate(c.repl, val))
    decreases Size(b)
  {
    hide BlockLeads, StmtLeads;
    ConsLeads(c, b, a, v, later);
    var a' := RunOnStmt(c.consts, b.head, a);
    if WritesCell(c, b.head, cell, val) && BlockSpares(b.tail, cell) {
      HeadKnown(c, b.head, a, v, later + BlockDefs(b.tail), cell, val);
      BlockHeld(c.consts, b.tail, a', cell);
    } else {
      EndKnown(c, b.tail, a', v + Visible(b.head), later, cell, val);
    }
  }

  /** A loop whose body ends by writing back what was known keeps the fact. */
  lemma LoopKeeps(c: Context, s: Stmt, a: Analysis, v: set<Id>, later: set<Id>, cell: Cell, val: Id)
    requires s.For? && StmtLeads(c, s, a, v, later) && EndsWriting(c, s.body, cell, val)
    requires HeldIn(a.known, cell) == As(Translate(c.repl, val))
    ensures HeldIn(RunOnStmt(c.consts, s, a).known, cell) == HeldIn(a.known, cell)
  {
    ForLeads(c, s, a, v, later);
    EndKnown(c, s.body, Analysis(NoFacts(), a.repl), v + Elements(s.args), later, cell, val);
  }

  /** So does a while loop both of whose regions do. */
  lemma WhileKeeps(c: Context, s: Stmt, a: Analysis, v: set<Id>, later: set<Id>, cell: Cell, val: Id, val': Id)
    requires s.While? && StmtLeads(c, s, a, v, later)
    requires EndsWriting(c, s.before, cell, val) && EndsWriting(c, s.after, cell, val')
    requires HeldIn(a.known, cell) == As(Translate(c.repl, val)) == As(Translate(c.repl, val'))
    ensures HeldIn(RunOnStmt(c.consts, s, a).known, cell) == HeldIn(a.known, cell)
  {
    hide BlockLeads, StmtLeads;
    WhileLeads(c, s, a, v, later);
    var start := Analysis(NoFacts(), a.repl);
    EndKnown(c, s.before, start, v + Elements(s.beforeArgs), later + BlockDefs(s.after), cell, val);
    EndKnown(c, s.after, Analysis(NoFacts(), RunOnBlock(c.consts, s.before, start).repl), v + Elements(s.afterArgs),
             later, cell, val');
  }

  /** A global read, a loop that does nothing, and the same read again: the second read stays. */
  lemma ReadBehindLoopStays()
    ensures var b := Cons(ReadGlobal(1, 0), Cons(For([], Nil, []), Cons(ReadGlobal(2, 0), Nil)));
        BlockScoped(map[], b, {}) && RunOnBlock(map[], b, Analysis(NoFacts(), map[])).repl == map[]
  {
    var tail := Cons(ReadGlobal(2, 0), Nil);
    var a := Analysis(Known(map[0 := 1], map[]), map[]);
    var loop := For([], Nil, []);
    assert RunOnStmt(map[], ReadGlobal(1, 0), Analysis(NoFacts(), map[])) == a;
    assert RunOnStmt(map[], loop, a).known == NoFacts();
    assert RunOnBlock(map[], tail, RunOnStmt(map[], loop, a)).repl == map[];
  }
}
