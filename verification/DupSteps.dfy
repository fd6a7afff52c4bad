/** What erasing and replacing one at a time amounts to, and that the result of the walk is in order for it. */
module DupSteps {
  import opened DupIr
  import opened DupElim
  import opened DupSound
  import opened DupRewrite

  // ---------- looking around in the code ----------

  /** Every value the code uses. */
  function UsedAt(s: Stmt): set<Id>
    decreases StmtSize(s)
  {
    match s
    case Do(op) => Elements(op.operands)
    case If(cond, thenB, thenYields, elseB, elseYields, _) => {cond} + UsedIn(thenB) + Elements(thenYields) +
      UsedIn(elseB) + Elements(elseYields)
    case For(bounds, inits, _, _, body, carry, _) => Elements(bounds) + Elements(inits) + UsedIn(body) + Elements(carry)
  }

  function UsedIn(b: Block): set<Id>
    decreases Size(b)
  {
    if b.Nil? then {} else UsedAt(b.head) + UsedIn(b.tail)
  }

  function OpsAt(s: Stmt): set<Op>
    decreases StmtSize(s)
  {
    match s
    case Do(op) => {op}
    case If(_, thenB, _, elseB, _, _) => OpsIn(thenB) + OpsIn(elseB)
    case For(_, _, _, _, body, _, _) => OpsIn(body)
  }

  function OpsIn(b: Block): set<Op>
    decreases Size(b)
  {
    if b.Nil? then {} else OpsAt(b.head) + OpsIn(b.tail)
  }

  function LostAt(s: Stmt, gone: set<nat>): set<Id>
    decreases StmtSize(s)
  {
    match s
    case Do(op) => if op.id in gone then Elements(op.results) else {}
    case If(_, thenB, _, elseB, _, _) => LostIn(thenB, gone) + LostIn(elseB, gone)
    case For(_, _, _, _, body, _, _) => LostIn(body, gone)
  }

  /** The results of operations left out. */
  function LostIn(b: Block, gone: set<nat>): set<Id>
    decreases Size(b)
  {
    if b.Nil? then {} else LostAt(b.head, gone) + LostIn(b.tail, gone)
  }

  lemma {:induction false} LostIs(b: Block, gone: set<nat>, x: Id)
    ensures x in LostIn(b, gone) <==> exists op :: op in OpsIn(b) && op.id in gone && x in op.results
    decreases Size(b)
  {
    if b.Nil? {
    } else {
      LostIs(b.tail, gone, x);
      LostIsAt(b.head, gone, x);
      if exists op :: op in OpsIn(b) && op.id in gone && x in op.results {
        var op :| op in OpsIn(b) && op.id in gone && x in op.results;
        assert op in OpsAt(b.head) || op in OpsIn(b.tail);
      }
    }
  }

  lemma {:induction false} LostIsAt(s: Stmt, gone: set<nat>, x: Id)
    ensures x in LostAt(s, gone) <==> exists op :: op in OpsAt(s) && op.id in gone && x in op.results
    decreases StmtSize(s)
  {
    match s {
      case Do(op) =>
      case If(_, thenB, _, elseB, _, _) =>
        LostIs(thenB, gone, x);
        LostIs(elseB, gone, x);
        if exists op :: op in OpsAt(s) && op.id in gone && x in op.results {
          var op :| op in OpsAt(s) && op.id in gone && x in op.results;
          assert op in OpsIn(thenB) || op in OpsIn(elseB);
        }
      case For(_, _, _, _, body, _, _) => LostIs(body, gone, x);
    }
  }

  // ---------- rewriting in steps ----------

  lemma TranslateTwice(m1: map<Id, Id>, x: Id, y: Id, vs: seq<Id>)
    requires x !in m1 && forall k :: k in m1 ==> m1[k] != x
    ensures TranslateAll(map[x := y], TranslateAll(m1, vs)) == TranslateAll(m1[x := y], vs)
  {}

  /** Replacing one more value in rewritten code. */
  lemma {:induction false} ReplaceOne(b: Block, m1: map<Id, Id>, gone: set<nat>, x: Id, y: Id)
    requires x !in m1 && forall k :: k in m1 ==> m1[k] != x
    ensures Rewrite(Rewrite(b, m1, gone), map[x := y], {}) == Rewrite(b, m1[x := y], gone)
    decreases Size(b)
  {
    if b.Nil? {
    } else {
      ReplaceOne(b.tail, m1, gone, x, y);
      if !(b.head.Do? && b.head.op.id in gone) { ReplaceOneAt(b.head, m1, gone, x, y); }
    }
  }

  lemma {:induction false} ReplaceOneAt(s: Stmt, m1: map<Id, Id>, gone: set<nat>, x: Id, y: Id)
    requires x !in m1 && forall k :: k in m1 ==> m1[k] != x
    ensures RewriteStmt(RewriteStmt(s, m1, gone), map[x := y], {}) == RewriteStmt(s, m1[x := y], gone)
    decreases StmtSize(s)
  {
    match s {
      case Do(op) => TranslateTwice(m1, x, y, op.operands);
      case If(_, thenB, thenYields, elseB, elseYields, _) =>
        ReplaceOne(thenB, m1, gone, x, y);
        ReplaceOne(elseB, m1, gone, x, y);
        TranslateTwice(m1, x, y, thenYields);
        TranslateTwice(m1, x, y, elseYields);
      case For(bounds, inits, _, _, body, carry, _) =>
        ReplaceOne(body, m1, gone, x, y);
        TranslateTwice(m1, x, y, bounds);
        TranslateTwice(m1, x, y, inits);
        TranslateTwice(m1, x, y, carry);
    }
  }

  lemma TranslateNothing(vs: seq<Id>)
    ensures TranslateAll(map[], vs) == vs
  {}

  /** Erasing one more operation from rewritten code. */
  lemma {:induction false} EraseOne(b: Block, m1: map<Id, Id>, gone: set<nat>, id: nat)
    ensures Rewrite(Rewrite(b, m1, gone), map[], {id}) == Rewrite(b, m1, gone + {id})
    decreases Size(b)
  {
    if b.Nil? {
    } else {
      EraseOne(b.tail, m1, gone, id);
      if !(b.head.Do? && b.head.op.id in gone + {id}) { EraseOneAt(b.head, m1, gone, id); }
    }
  }

  lemma {:induction false} EraseOneAt(s: Stmt, m1: map<Id, Id>, gone: set<nat>, id: nat)
    ensures RewriteStmt(RewriteStmt(s, m1, gone), map[], {id}) == RewriteStmt(s, m1, gone + {id})
    decreases StmtSize(s)
  {
    match s {
      case Do(op) => TranslateNothing(TranslateAll(m1, op.operands));
      case If(_, thenB, thenYields, elseB, elseYields, _) =>
        EraseOne(thenB, m1, gone, id);
        EraseOne(elseB, m1, gone, id);
        TranslateNothing(TranslateAll(m1, thenYields));
        TranslateNothing(TranslateAll(m1, elseYields));
      case For(bounds, inits, _, _, body, carry, _) =>
        EraseOne(body, m1, gone, id);
        TranslateNothing(TranslateAll(m1, bounds));
        TranslateNothing(TranslateAll(m1, inits));
        TranslateNothing(TranslateAll(m1, carry));
    }
  }

  lemma {:induction false} RewriteNothing(b: Block)
    ensures Rewrite(b, map[], {}) == b
    decreases Size(b)
  {
    if b.Nil? {
    } else {
      RewriteNothing(b.tail);
      RewriteNothingAt(b.head);
    }
  }

  lemma {:induction false} RewriteNothingAt(s: Stmt)
    ensures RewriteStmt(s, map[], {}) == s
    decreases StmtSize(s)
  {
    match s {
      case Do(op) => TranslateNothing(op.operands);
      case If(_, thenB, thenYields, elseB, elseYields, _) =>
        RewriteNothing(thenB);
        RewriteNothing(elseB);
        TranslateNothing(thenYields);
        TranslateNothing(elseYields);
      case For(bounds, inits, _, _, body, carry, _) =>
        RewriteNothing(body);
        TranslateNothing(bounds);
        TranslateNothing(inits);
        TranslateNothing(carry);
    }
  }

  // ---------- uses of rewritten code ----------

  lemma TranslatedUses(m1: map<Id, Id>, vs: seq<Id>, y: Id)
    requires y in Elements(vs)
    ensures Translate(m1, y) in Elements(TranslateAll(m1, vs))
  {
    var k :| 0 <= k < |vs| && vs[k] == y;
    assert TranslateAll(m1, vs)[k] == Translate(m1, y);
  }

  lemma TranslatedOnly(m1: map<Id, Id>, vs: seq<Id>, x: Id)
    requires x in Elements(TranslateAll(m1, vs)) && forall k :: k in m1 ==> m1[k] !in m1
    ensures x !in m1
  {
    var k :| 0 <= k < |vs| && TranslateAll(m1, vs)[k] == x;
  }

  /** Replaced values are not used any more. */
  lemma {:induction false} NoReplacedUse(b: Block, m1: map<Id, Id>, gone: set<nat>, x: Id)
    requires x in UsedIn(Rewrite(b, m1, gone)) && forall k :: k in m1 ==> m1[k] !in m1
    ensures x !in m1
    decreases Size(b)
  {
    if b.head.Do? && b.head.op.id in gone {
      NoReplacedUse(b.tail, m1, gone, x);
    } else if x in UsedIn(Rewrite(b.tail, m1, gone)) {
      NoReplacedUse(b.tail, m1, gone, x);
    } else {
      NoReplacedUseAt(b.head, m1, gone, x);
    }
  }

  lemma {:induction false} NoReplacedUseAt(s: Stmt, m1: map<Id, Id>, gone: set<nat>, x: Id)
    requires x in UsedAt(RewriteStmt(s, m1, gone)) && forall k :: k in m1 ==> m1[k] !in m1
    ensures x !in m1
    decreases StmtSize(s)
  {
    match s {
      case Do(op) => TranslatedOnly(m1, op.operands, x);
      case If(_, thenB, thenYields, elseB, elseYields, _) =>
        if x in UsedIn(Rewrite(thenB, m1, gone)) { NoReplacedUse(thenB, m1, gone, x); }
        if x in UsedIn(Rewrite(elseB, m1, gone)) { NoReplacedUse(elseB, m1, gone, x); }
        if x in Elements(TranslateAll(m1, thenYields)) { TranslatedOnly(m1, thenYields, x); }
        if x in Elements(TranslateAll(m1, elseYields)) { TranslatedOnly(m1, elseYields, x); }
      case For(bounds, inits, _, _, body, carry, _) =>
        if x in UsedIn(Rewrite(body, m1, gone)) { NoReplacedUse(body, m1, gone, x); }
        if x in Elements(TranslateAll(m1, bounds)) { TranslatedOnly(m1, bounds, x); }
        if x in Elements(TranslateAll(m1, inits)) { TranslatedOnly(m1, inits, x); }
        if x in Elements(TranslateAll(m1, carry)) { TranslatedOnly(m1, carry, x); }
    }
  }

  /** Leaving more out uses no more. */
  lemma {:induction false} FewerUses(b: Block, m1: map<Id, Id>, gone: set<nat>, gone': set<nat>)
    requires gone <= gone'
    ensures UsedIn(Rewrite(b, m1, gone')) <= UsedIn(Rewrite(b, m1, gone))
    decreases Size(b)
  {
    if b.Nil? {
    } else {
      FewerUses(b.tail, m1, gone, gone');
      FewerUsesAt(b.head, m1, gone, gone');
    }
  }

  lemma {:induction false} FewerUsesAt(s: Stmt, m1: map<Id, Id>, gone: set<nat>, gone': set<nat>)
    requires gone <= gone'
    ensures UsedAt(RewriteStmt(s, m1, gone')) <= UsedAt(RewriteStmt(s, m1, gone))
    decreases StmtSize(s)
  {
    match s {
      case Do(_) =>
      case If(_, thenB, _, elseB, _, _) => FewerUses(thenB, m1, gone, gone'); FewerUses(elseB, m1, gone, gone');
      case For(_, _, _, _, body, _, _) => FewerUses(body, m1, gone, gone');
    }
  }

  // ---------- the result is in order ----------

  /** `redundant` are, of the operations `ids`, exactly those the walk found. */
  ghost predicate Exactly(st: Walk, redundant: set<nat>, ids: set<nat>) {
    forall id :: id in ids ==> (id in redundant <==> exists op :: op in st.redundant && op.id == id)
  }

  ghost predicate OnlyFrom(st: Walk, map_: map<Id, Id>, defs: set<Id>) {
    forall x :: x in map_ && x in defs ==> x in st.map_
  }

  lemma NotLost(map_: map<Id, Id>, lost: set<Id>, ids: seq<Id>)
    requires Elements(TranslateAll(map_, ids)) !! lost
    ensures Available(map_, lost, ids)
  {
    assert forall k :: 0 <= k < |ids| ==> TranslateAll(map_, ids)[k] in Elements(TranslateAll(map_, ids));
  }

  lemma ExactlyEarlier(st: Walk, st': Walk, defs: set<Id>, ids: set<nat>, redundant: set<nat>, these: set<nat>)
    requires Grows(st, st', defs, ids) && Exactly(st', redundant, these) && these !! ids
    ensures Exactly(st, redundant, these)
  {
    forall id | id in these ensures id in redundant <==> exists op :: op in st.redundant && op.id == id {
      if id in redundant { var op :| op in st'.redundant && op.id == id; }
    }
  }

  ghost predicate GoneOk(ops: set<Op>, redundant: set<nat>, gone: set<nat>) {
    forall op :: op in ops && op.id in gone ==> op.id in redundant || EffectFree(op)
  }

  lemma {:induction false} BlockOk(fns: seq<Fn>, bound: nat, comm: set<nat>, b: Block, dom: set<nat>, st: Walk,
          v: set<Id>,
                                   map_: map<Id, Id>, redundant: set<nat>, gone: set<nat>, lost: set<Id>)
    requires BlockScoped(b, v) && Ready(st, b, dom) && redundant <= gone && LostIn(b, gone) <= lost
    requires GoneOk(OpsIn(b), redundant, gone)
    requires var st' := WalkBlock(fns, bound, comm, b, dom, st);
        Exactly(st', redundant, BlockIds(b)) && OnlyFrom(st', map_, BlockDefs(b))
    requires UsedIn(Rewrite(b, map_, gone)) !! lost
    ensures Ok(b, map_, redundant, gone, lost)
    decreases Size(b)
  {
    if b.Nil? {
    } else {
      var st1 := WalkStmt(fns, bound, comm, b.head, dom, st);
      var st2 := WalkBlock(fns, bound, comm, b.tail, dom + StmtId(b.head), st1);
      StmtGrows(fns, bound, comm, b.head, dom, st, v);
      GrowsFree(st, st1, Defs(b.head), Ids(b.head), BlockDefs(b.tail));
      GrowsNotYet(st, st1, Defs(b.head), Ids(b.head), BlockIds(b.tail));
      BlockGrows(fns, bound, comm, b.tail, dom + StmtId(b.head), st1, v + Visible(b.head));
      ExactlyEarlier(st1, st2, BlockDefs(b.tail), BlockIds(b.tail), redundant, Ids(b.head));
      StmtOk(fns, bound, comm, b.head, dom, st, v, map_, redundant, gone, lost);
      BlockOk(fns, bound, comm, b.tail, dom + StmtId(b.head), st1, v + Visible(b.head), map_, redundant, gone, lost);
    }
  }

  lemma {:induction false} StmtOk(fns: seq<Fn>, bound: nat, comm: set<nat>, s: Stmt, dom: set<nat>, st: Walk,
          v: set<Id>,
                                  map_: map<Id, Id>, redundant: set<nat>, gone: set<nat>, lost: set<Id>)
    requires Scoped(s, v) && Free(st, Defs(s)) && NoChains(st) && NotYet(st, Ids(s)) && dom !! Ids(s)
    requires redundant <= gone && LostAt(s, gone) <= lost && GoneOk(OpsAt(s), redundant, gone)
    requires var st' := WalkStmt(fns, bound, comm, s, dom, st);
        Exactly(st', redundant, Ids(s)) && OnlyFrom(st', map_, Defs(s))
    requires !(s.Do? && s.op.id in gone) ==> UsedAt(RewriteStmt(s, map_, gone)) !! lost
    ensures OkStmt(s, map_, redundant, gone, lost)
    decreases StmtSize(s)
  {
    match s {
      case Do(op) =>
        if op.id !in gone { NotLost(map_, lost, op.operands); }
        if op.id !in redundant {
          assert WalkOp(fns, bound, comm, op, dom, st).map_ ==
              st.map_ by { WalkOpMarks(fns, bound, comm, op, dom, st); }
        }
      case If(cond, thenB, thenYields, elseB, elseYields, results) =>
        NotLost(map_, lost, thenYields);
        NotLost(map_, lost, elseYields);
        var st1 := WalkBlock(fns, bound, comm, thenB, dom, st);
        var st2 := WalkBlock(fns, bound, comm, elseB, dom, st1);
        BlockGrows(fns, bound, comm, thenB, dom, st, v);
        GrowsFree(st, st1, BlockDefs(thenB), BlockIds(thenB), BlockDefs(elseB));
        GrowsNotYet(st, st1, BlockDefs(thenB), BlockIds(thenB), BlockIds(elseB));
        BlockGrows(fns, bound, comm, elseB, dom, st1, v);
        ExactlyEarlier(st1, st2, BlockDefs(elseB), BlockIds(elseB), redundant, BlockIds(thenB));
        BlockOk(fns, bound, comm, thenB, dom, st, v, map_, redundant, gone, lost);
        BlockOk(fns, bound, comm, elseB, dom, st1, v, map_, redundant, gone, lost);
      case For(bounds, inits, iv, args, body, carry, results) =>
        NotLost(map_, lost, bounds);
        NotLost(map_, lost, inits);
        NotLost(map_, lost, carry);
        BlockGrows(fns, bound, comm, body, dom, st, v + {iv} + Elements(args));
        BlockFresh(body, v + {iv} + Elements(args));
        BlockOk(fns, bound, comm, body, dom, st, v + {iv} + Elements(args), map_, redundant, gone, lost);
    }
  }

  lemma WalkOpMarks(fns: seq<Fn>, bound: nat, comm: set<nat>, op: Op, dom: set<nat>, st: Walk)
    ensures var st' := WalkOp(fns, bound, comm, op, dom, st); st'.map_ == st.map_ || op in st'.redundant
  {
    var st' := WalkOp(fns, bound, comm, op, dom, st);
    if st'.map_ != st.map_ { assert st'.redundant == st.redundant + [op] && st'.redundant[|st.redundant|] == op; }
  }

  /** Replacing a value that is not used changes nothing. */
  lemma UnusedTranslate(x: Id, y: Id, vs: seq<Id>)
    requires x !in Elements(vs)
    ensures TranslateAll(map[x := y], vs) == vs
  {
    assert forall k :: 0 <= k < |vs| ==> vs[k] in Elements(vs);
  }

  lemma {:induction false} ReplaceUnused(b: Block, x: Id, y: Id)
    requires x !in UsedIn(b)
    ensures Rewrite(b, map[x := y], {}) == b
    decreases Size(b)
  {
    if b.Nil? {
    } else {
      ReplaceUnused(b.tail, x, y);
      ReplaceUnusedAt(b.head, x, y);
    }
  }

  lemma {:induction false} ReplaceUnusedAt(s: Stmt, x: Id, y: Id)
    requires x !in UsedAt(s)
    ensures RewriteStmt(s, map[x := y], {}) == s
    decreases StmtSize(s)
  {
    match s {
      case Do(op) => UnusedTranslate(x, y, op.operands);
      case If(_, thenB, thenYields, elseB, elseYields, _) =>
        ReplaceUnused(thenB, x, y);
        ReplaceUnused(elseB, x, y);
        UnusedTranslate(x, y, thenYields);
        UnusedTranslate(x, y, elseYields);
      case For(bounds, inits, _, _, body, carry, _) =>
        ReplaceUnused(body, x, y);
        UnusedTranslate(x, y, bounds);
        UnusedTranslate(x, y, inits);
        UnusedTranslate(x, y, carry);
    }
  }

  /** Operations still there are in the rewritten code, and only those. */
  lemma {:induction false} RewrittenOp(b: Block, m1: map<Id, Id>, gone: set<nat>, op: Op)
    requires op in OpsIn(b) && op.id !in gone
    ensures op.(operands := TranslateAll(m1, op.operands)) in OpsIn(Rewrite(b, m1, gone))
    decreases Size(b)
  {
    if op in OpsIn(b.tail) {
      RewrittenOp(b.tail, m1, gone, op);
    } else {
      RewrittenOpAt(b.head, m1, gone, op);
    }
  }

  lemma {:induction false} RewrittenOpAt(s: Stmt, m1: map<Id, Id>, gone: set<nat>, op: Op)
    requires op in OpsAt(s) && op.id !in gone
    ensures op.(operands := TranslateAll(m1, op.operands)) in OpsAt(RewriteStmt(s, m1, gone))
    decreases StmtSize(s)
  {
    match s {
      case Do(_) =>
      case If(_, thenB, _, elseB, _, _) =>
        if op in OpsIn(thenB) { RewrittenOp(thenB, m1, gone, op); } else { RewrittenOp(elseB, m1, gone, op); }
      case For(_, _, _, _, body, _, _) => RewrittenOp(body, m1, gone, op);
    }
  }

  ghost predicate IsOriginal(ops: set<Op>, m1: map<Id, Id>, gone: set<nat>, o: Op) {
    o.id !in gone && exists op :: op in ops && o == op.(operands := TranslateAll(m1, op.operands))
  }

  lemma {:induction false} OriginalOp(b: Block, m1: map<Id, Id>, gone: set<nat>, o: Op)
    requires o in OpsIn(Rewrite(b, m1, gone))
    ensures IsOriginal(OpsIn(b), m1, gone, o)
    decreases Size(b)
  {
    if b.head.Do? && b.head.op.id in gone {
      OriginalOp(b.tail, m1, gone, o);
    } else if o in OpsIn(Rewrite(b.tail, m1, gone)) {
      OriginalOp(b.tail, m1, gone, o);
    } else {
      OriginalOpAt(b.head, m1, gone, o);
    }
  }

  lemma {:induction false} OriginalOpAt(s: Stmt, m1: map<Id, Id>, gone: set<nat>, o: Op)
    requires o in OpsAt(RewriteStmt(s, m1, gone)) && !(s.Do? && s.op.id in gone)
    ensures IsOriginal(OpsAt(s), m1, gone, o)
    decreases StmtSize(s)
  {
    match s {
      case Do(op) =>
      case If(_, thenB, _, elseB, _, _) =>
        if o in OpsIn(Rewrite(thenB, m1, gone)) {
          OriginalOp(thenB, m1, gone, o);
        } else {
          OriginalOp(elseB, m1, gone, o);
        }
      case For(_, _, _, _, body, _, _) => OriginalOp(body, m1, gone, o);
    }
  }

  lemma {:induction false} IdsOfOps(b: Block)
    ensures forall op :: op in OpsIn(b) ==> op.id in BlockIds(b)
    decreases Size(b)
  {
    if b.Nil? {
    } else {
      IdsOfOps(b.tail);
      IdsOfOpsAt(b.head);
    }
  }

  lemma {:induction false} IdsOfOpsAt(s: Stmt)
    ensures forall op :: op in OpsAt(s) ==> op.id in Ids(s)
    decreases StmtSize(s)
  {
    match s {
      case Do(_) =>
      case If(_, thenB, _, elseB, _, _) => IdsOfOps(thenB); IdsOfOps(elseB);
      case For(_, _, _, _, body, _, _) => IdsOfOps(body);
    }
  }

  lemma {:induction false} ResultsDefined(b: Block)
    ensures forall op, x :: op in OpsIn(b) && x in op.results ==> x in BlockDefs(b)
    decreases Size(b)
  {
    if b.Nil? {
    } else {
      ResultsDefined(b.tail);
      ResultsDefinedAt(b.head);
    }
  }

  lemma {:induction false} ResultsDefinedAt(s: Stmt)
    ensures forall op, x :: op in OpsAt(s) && x in op.results ==> x in Defs(s)
    decreases StmtSize(s)
  {
    match s {
      case Do(_) =>
      case If(_, thenB, _, elseB, _, _) => ResultsDefined(thenB); ResultsDefined(elseB);
      case For(_, _, _, _, body, _, _) => ResultsDefined(body);
    }
  }

  ghost predicate Share(o1: Op, o2: Op) { o1.id == o2.id || exists x :: x in o1.results && x in o2.results }

  lemma Apart(o1: Op, o2: Op, ids1: set<nat>, ids2: set<nat>, defs1: set<Id>, defs2: set<Id>)
    requires ids1 !! ids2 && defs1 !! defs2 && o1.id in ids1 && o2.id in ids2
    requires (forall x :: x in o1.results ==> x in defs1) && (forall x :: x in o2.results ==> x in defs2)
    ensures !Share(o1, o2) && !Share(o2, o1)
  {}

  /** An identity, or a result, belongs to one operation. */
  lemma {:induction false} OnlyOne(b: Block, v: set<Id>, o1: Op, o2: Op)
    requires BlockScoped(b, v) && o1 in OpsIn(b) && o2 in OpsIn(b) && Share(o1, o2)
    ensures o1 == o2
    decreases Size(b)
  {
    ResultsDefined(b.tail);
    ResultsDefinedAt(b.head);
    IdsOfOps(b.tail);
    IdsOfOpsAt(b.head);
    if o1 in OpsIn(b.tail) && o2 in OpsAt(b.head) {
      Apart(o1, o2, BlockIds(b.tail), Ids(b.head), BlockDefs(b.tail), Defs(b.head));
    } else if o2 in OpsIn(b.tail) && o1 in OpsAt(b.head) {
      Apart(o1, o2, Ids(b.head), BlockIds(b.tail), Defs(b.head), BlockDefs(b.tail));
    } else if o1 in OpsIn(b.tail) {
      OnlyOne(b.tail, v + Visible(b.head), o1, o2);
    } else {
      OnlyOneAt(b.head, v, o1, o2);
    }
  }

  lemma {:induction false} OnlyOneAt(s: Stmt, v: set<Id>, o1: Op, o2: Op)
    requires Scoped(s, v) && o1 in OpsAt(s) && o2 in OpsAt(s) && Share(o1, o2)
    ensures o1 == o2
    decreases StmtSize(s)
  {
    match s {
      case Do(_) =>
      case If(_, thenB, _, elseB, _, _) =>
        ResultsDefined(thenB);
        ResultsDefined(elseB);
        IdsOfOps(thenB);
        IdsOfOps(elseB);
        if o1 in OpsIn(thenB) && o2 in OpsIn(elseB) {
          Apart(o1, o2, BlockIds(thenB), BlockIds(elseB), BlockDefs(thenB), BlockDefs(elseB));
        } else if o1 in OpsIn(elseB) && o2 in OpsIn(thenB) {
          Apart(o1, o2, BlockIds(elseB), BlockIds(thenB), BlockDefs(elseB), BlockDefs(thenB));
        } else if o1 in OpsIn(thenB) {
          OnlyOne(thenB, v, o1, o2);
        } else {
          OnlyOne(elseB, v, o1, o2);
        }
      case For(_, _, iv, args, body, _, _) => OnlyOne(body, v + {iv} + Elements(args), o1, o2);
    }
  }

  /** Replacing one value leaves the other uses. */
  lemma {:induction false} OtherUses(b: Block, x: Id, y: Id, u: Id)
    requires u in UsedIn(b) && u != x
    ensures u in UsedIn(Rewrite(b, map[x := y], {}))
    decreases Size(b)
  {
    if u in UsedIn(b.tail) { OtherUses(b.tail, x, y, u); } else { OtherUsesAt(b.head, x, y, u); }
  }

  lemma {:induction false} OtherUsesAt(s: Stmt, x: Id, y: Id, u: Id)
    requires u in UsedAt(s) && u != x
    ensures u in UsedAt(RewriteStmt(s, map[x := y], {}))
    decreases StmtSize(s)
  {
    match s {
      case Do(op) => TranslatedUses(map[x := y], op.operands, u);
      case If(cond, thenB, thenYields, elseB, elseYields, _) =>
        if u in UsedIn(thenB) { OtherUses(thenB, x, y, u); }
        if u in UsedIn(elseB) { OtherUses(elseB, x, y, u); }
        if u in Elements(thenYields) { TranslatedUses(map[x := y], thenYields, u); }
        if u in Elements(elseYields) { TranslatedUses(map[x := y], elseYields, u); }
      case For(bounds, inits, _, _, body, carry, _) =>
        if u in UsedIn(body) { OtherUses(body, x, y, u); }
        if u in Elements(bounds) { TranslatedUses(map[x := y], bounds, u); }
        if u in Elements(inits) { TranslatedUses(map[x := y], inits, u); }
        if u in Elements(carry) { TranslatedUses(map[x := y], carry, u); }
    }
  }

  /** Erasing an operation takes away only its own uses. */
  lemma {:induction false} UsesOfErased(b: Block, id: nat, u: Id)
    requires u in UsedIn(b)
    ensures u in UsedIn(Rewrite(b, map[], {id})) || exists op :: op in OpsIn(b) && op.id == id && u in op.operands
    decreases Size(b)
  {
    if u in UsedIn(b.tail) {
      UsesOfErased(b.tail, id, u);
      if u !in UsedIn(Rewrite(b, map[], {id})) {
        var op :| op in OpsIn(b.tail) && op.id == id && u in op.operands;
        assert op in OpsIn(b);
      }
    } else {
      UsesOfErasedAt(b.head, id, u);
      if !(b.head.Do? && b.head.op.id == id) && u !in UsedIn(Rewrite(b, map[], {id})) {
        var op :| op in OpsAt(b.head) && op.id == id && u in op.operands;
        assert op in OpsIn(b);
      }
    }
  }

  lemma {:induction false} UsesOfErasedAt(s: Stmt, id: nat, u: Id)
    requires u in UsedAt(s)
    ensures (s.Do? && s.op.id == id && s.op in OpsAt(s) && u in s.op.operands) ||
        u in UsedAt(RewriteStmt(s, map[], {id})) || exists op :: op in OpsAt(s) && op.id == id && u in op.operands
    decreases StmtSize(s)
  {
    match s {
      case Do(op) => TranslateNothing(op.operands);
      case If(cond, thenB, thenYields, elseB, elseYields, _) =>
        if u in UsedIn(thenB) { UsesOfErased(thenB, id, u); }
        if u in UsedIn(elseB) { UsesOfErased(elseB, id, u); }
        TranslateNothing(thenYields);
        TranslateNothing(elseYields);
        if exists op :: op in OpsIn(thenB) + OpsIn(elseB) && op.id == id && u in op.operands {
          var op :| op in OpsIn(thenB) + OpsIn(elseB) && op.id == id && u in op.operands;
          assert op in OpsAt(s);
        }
      case For(bounds, inits, _, _, body, carry, _) =>
        if u in UsedIn(body) { UsesOfErased(body, id, u); }
        TranslateNothing(bounds);
        TranslateNothing(inits);
        TranslateNothing(carry);
    }
  }

  // ---------- what the walk found ----------

  /** The results of redundant operations are exactly the replaced values; no operation is redundant twice. */
  ghost predicate Mapped(st: Walk) {
    && (forall i, j :: 0 <= i < j < |st.redundant| ==> st.redundant[i].id != st.redundant[j].id)
    && (forall op, r :: op in st.redundant && r in op.results ==> r in st.map_)
    && (forall x :: x in st.map_ ==> InResults(st.redundant, x))
  }

  ghost predicate InResults(ops: seq<Op>, x: Id) { exists op :: op in ops && x in op.results }

  lemma OpMapped(fns: seq<Fn>, bound: nat, comm: set<nat>, op: Op, dom: set<nat>, st: Walk, v: set<Id>)
    requires Scoped(Do(op), v) && Mapped(st) && NotYet(st, {op.id})
    ensures Mapped(WalkOp(fns, bound, comm, op, dom, st))
  {
    var st' := WalkOp(fns, bound, comm, op, dom, st);
    assert forall o :: o in st'.redundant ==> o in st.redundant || o == op;
    assert forall o :: o in st.redundant ==> o in st'.redundant;
    assert forall x :: InResults(st.redundant, x) ==> InResults(st'.redundant, x);
    if Unnecessary(fns, bound, op) {
      assert op.results == [];
    } else if |st'.redundant| > |st.redundant| {
      assert st'.redundant[|st.redundant|] == op;
      MapResultsAt(st.map_, op.results, Find(comm, st.unique, op, TranslateAll(st.map_, op.operands)).value.op.results);
      assert forall x :: x in op.results ==> InResults(st'.redundant, x);
    }
  }

  lemma {:induction false} StmtMapped(fns: seq<Fn>, bound: nat, comm: set<nat>, s: Stmt, dom: set<nat>, st: Walk,
          v: set<Id>)
    requires Scoped(s, v) && Mapped(st) && Free(st, Defs(s)) && NoChains(st) && NotYet(st, Ids(s))
    ensures Mapped(WalkStmt(fns, bound, comm, s, dom, st))
    ensures forall op :: op in WalkStmt(fns, bound, comm, s, dom, st).redundant ==> op in st.redundant || op in OpsAt(s)
    decreases StmtSize(s)
  {
    match s {
      case Do(op) => OpMapped(fns, bound, comm, op, dom, st, v);
      case If(_, thenB, _, elseB, _, _) =>
        var st1 := WalkBlock(fns, bound, comm, thenB, dom, st);
        BlockMapped(fns, bound, comm, thenB, dom, st, v);
        BlockGrows(fns, bound, comm, thenB, dom, st, v);
        GrowsFree(st, st1, BlockDefs(thenB), BlockIds(thenB), BlockDefs(elseB));
        GrowsNotYet(st, st1, BlockDefs(thenB), BlockIds(thenB), BlockIds(elseB));
        BlockMapped(fns, bound, comm, elseB, dom, st1, v);
      case For(_, _, iv, args, body, _, _) => BlockMapped(fns, bound, comm, body, dom, st, v + {iv} + Elements(args));
    }
  }

  lemma {:induction false} BlockMapped(fns: seq<Fn>, bound: nat, comm: set<nat>, b: Block, dom: set<nat>, st: Walk,
          v: set<Id>)
    requires BlockScoped(b, v) && Mapped(st) && Free(st, BlockDefs(b)) && NoChains(st) && NotYet(st, BlockIds(b))
    ensures Mapped(WalkBlock(fns, bound, comm, b, dom, st))
    ensures forall op ::
        op in WalkBlock(fns, bound, comm, b, dom, st).redundant ==> op in st.redundant || op in OpsIn(b)
    decreases Size(b)
  {
    if b.Nil? {
    } else {
      var st1 := WalkStmt(fns, bound, comm, b.head, dom, st);
      StmtMapped(fns, bound, comm, b.head, dom, st, v);
      StmtGrows(fns, bound, comm, b.head, dom, st, v);
      GrowsFree(st, st1, Defs(b.head), Ids(b.head), BlockDefs(b.tail));
      GrowsNotYet(st, st1, Defs(b.head), Ids(b.head), BlockIds(b.tail));
      BlockMapped(fns, bound, comm, b.tail, dom + StmtId(b.head), st1, v + Visible(b.head));
    }
  }

  // ---------- the theorem for one function ----------

  ghost predicate FnOk(fn: Fn) {
    BlockScoped(fn.body, Elements(fn.params)) && Elements(fn.rets) <= Elements(fn.params) + BlockVisible(fn.body)
  }

  function StartWalk(): Walk { Walk(map[], [], []) }

  /** Both bodies, on the same arguments and memory: the same constraints accepted, the same memory, the same returned
      values. */
  ghost predicate SameRun(w: World, fns: seq<Fn>, fn: Fn, fn': Fn, vals: seq<int>, mem: int, it: seq<nat>) {
    var start := Machine(Bind((v: Id) => 0, fn.params, At(vals)), mem, true, it);
    var m, m' := ExecBlock(w, fns, fn.rank, fn.body, start), ExecBlock(w, fns, fn.rank, fn'.body, start);
    m'.acc == m.acc && m'.mem == m.mem && Vals(m'.env, fn'.rets) == Vals(m.env, fn.rets)
  }

  lemma RunsAgree(w: World, fns: seq<Fn>, comm: set<nat>, fn: Fn, redundant: set<nat>, gone: set<nat>, lost: set<Id>,
          vals: seq<int>, mem: int, it: seq<nat>)
    requires FnOk(fn) && Commutes(w, comm)
    requires var st := WalkBlock(fns, fn.rank, comm, fn.body, {}, StartWalk());
             && Exactly(st, redundant, BlockIds(fn.body)) && Ok(fn.body, st.map_, redundant, gone, lost)
             && Available(st.map_, lost, fn.rets)
             && lost <= BlockDefs(fn.body)
    ensures var st := WalkBlock(fns, fn.rank, comm, fn.body, {}, StartWalk());
            SameRun(w, fns, fn, fn.(body := Rewrite(fn.body, st.map_, gone), rets := TranslateAll(st.map_, fn.rets)),
              vals, mem, it)
  {
    var st := WalkBlock(fns, fn.rank, comm, fn.body, {}, StartWalk());
    var v := Elements(fn.params);
    var start := Machine(Bind((v: Id) => 0, fn.params, At(vals)), mem, true, it);
    BlockFresh(fn.body, v);
    BlockGrows(fns, fn.rank, comm, fn.body, {}, StartWalk(), v);
    BlockSound(w, fns, fn.rank, comm, fn.body, {}, StartWalk(), v, start, st.map_, redundant);
    BlockSim(w, fns, fn.rank, fn.body, st.map_, redundant, gone, lost, v, start, start);
    AvailableVals(st.map_, lost, v + BlockVisible(fn.body), ExecBlock(w, fns, fn.rank, fn.body, start),
                  ExecBlock(w, fns, fn.rank, Rewrite(fn.body, st.map_, gone), start), fn.rets);
  }
}
