/** Which operations duplicate elimination finds, said without the walk: what is unnecessary, and every candidate that
    its first equal precedes. */
module DupFound {
  import opened DupIr
  import opened DupElim
  import opened DupSound
  import opened DupSteps

  // ---------- the order of the code ----------

  /** The operations in the order they are written. */
  function WalkedAt(s: Stmt): seq<Op>
    decreases StmtSize(s)
  {
    match s
    case Do(op) => [op]
    case If(_, thenB, _, elseB, _, _) => Walked(thenB) + Walked(elseB)
    case For(_, _, _, _, body, _, _) => Walked(body)
  }

  function Walked(b: Block): seq<Op>
    decreases Size(b)
  {
    if b.Nil? then [] else WalkedAt(b.head) + Walked(b.tail)
  }

  /** `e` is written in a block before a statement of that block which is or holds `op`. */
  ghost predicate PrecedesAt(s: Stmt, e: Op, op: Op)
    decreases StmtSize(s)
  {
    match s
    case Do(_) => false
    case If(_, thenB, _, elseB, _, _) => Precedes(thenB, e, op) || Precedes(elseB, e, op)
    case For(_, _, _, _, body, _, _) => Precedes(body, e, op)
  }

  ghost predicate Precedes(b: Block, e: Op, op: Op)
    decreases Size(b)
  {
    b.Cons? && ((b.head == Do(e) && op in Walked(b.tail)) || PrecedesAt(b.head, e, op) || Precedes(b.tail, e, op))
  }

  // ---------- what is looked for ----------

  /** A function's operations, and what its replaced values are replaced by. */
  datatype Search = Search(fns: seq<Fn>, bound: nat, comm: set<nat>, map_: map<Id, Id>, all: seq<Op>)

  predicate Searched(c: Search, op: Op) { IsCandidate(op) && !Unnecessary(c.fns, c.bound, op) }

  /** The same operation on the same values, once replaced values are taken for their replacements. */
  predicate Alike(c: Search, e: Op, op: Op) {
    Matches(c.comm, Entry(e, TranslateAll(c.map_, e.operands)), op, TranslateAll(c.map_, op.operands))
  }

  ghost predicate First(c: Search, k: nat, op: Op) {
    && k < |c.all| && Searched(c, c.all[k]) && Alike(c, c.all[k], op)
    && forall j :: 0 <= j < k && Searched(c, c.all[j]) ==> !Alike(c, c.all[j], op)
  }

  /** Of everything alike, `e` is written first. */
  ghost predicate FirstAlike(c: Search, e: Op, op: Op) { exists k: nat :: First(c, k, op) && c.all[k] == e }

  /** Unnecessary, or alike to an operation that comes first and is in front. */
  ghost predicate Redundant(c: Search, b: Block, dom: set<nat>, op: Op) {
    || Unnecessary(c.fns, c.bound, op)
    || (IsCandidate(op) && exists e :: FirstAlike(c, e, op) && (e.id in dom || Precedes(b, e, op)))
  }

  ghost predicate RedundantAt(c: Search, s: Stmt, dom: set<nat>, op: Op) {
    || Unnecessary(c.fns, c.bound, op)
    || (IsCandidate(op) && exists e :: FirstAlike(c, e, op) && (e.id in dom || PrecedesAt(s, e, op)))
  }

  /** Its results are replaced by those of the first. */
  ghost predicate Follows(c: Search, op: Op) {
    forall e :: FirstAlike(c, e, op) ==> |e.results| == |op.results| && forall k :: 0 <= k < |op.results| ==>
      op.results[k] in c.map_ && c.map_[op.results[k]] == e.results[k]
  }

  ghost predicate OwnIds(all: seq<Op>) { forall i, j :: 0 <= i < j < |all| ==> all[i].id != all[j].id }

  lemma AlikeSame(c: Search, e: Op, op: Op, o: Op)
    requires Alike(c, e, op)
    ensures Alike(c, op, e) && (Alike(c, o, e) <==> Alike(c, o, op))
  {}

  lemma OnlyFirst(c: Search, e: Op, e': Op, op: Op)
    requires FirstAlike(c, e, op) && FirstAlike(c, e', op)
    ensures e == e'
  {
    var k: nat :| First(c, k, op) && c.all[k] == e;
    var j: nat :| First(c, j, op) && c.all[j] == e';
  }

  // ---------- one operation ----------

  /** The entry is for one of the first `n` operations, which comes first of its like. */
  ghost predicate EntryKnown(c: Search, e: Entry, n: nat) {
    e.operands == TranslateAll(c.map_, e.op.operands) && exists k: nat :: k < n && First(c, k, e.op) && c.all[k] == e.op
  }

  ghost predicate Covered(c: Search, st: Walk, op: Op) { exists e :: e in st.unique && Alike(c, e.op, op) }

  /** After the first `n` operations: exactly the firsts are retained. */
  ghost predicate Known(c: Search, st: Walk, n: nat) {
    && n <= |c.all| && (forall e :: e in st.unique ==> EntryKnown(c, e, n))
    && (forall k :: 0 <= k < n && Searched(c, c.all[k]) ==> Covered(c, st, c.all[k]))
  }

  lemma KnownOn(c: Search, st: Walk, st': Walk, n: nat)
    requires Known(c, st, n) && n < |c.all| && st'.unique == st.unique
    requires Searched(c, c.all[n]) ==> Covered(c, st, c.all[n])
    ensures Known(c, st', n + 1)
  {
    forall e | e in st'.unique ensures EntryKnown(c, e, n + 1) { assert EntryKnown(c, e, n); }
    forall k | 0 <= k < n + 1 && Searched(c, c.all[k]) ensures Covered(c, st', c.all[k]) {
      assert Covered(c, st, c.all[k]);
    }
  }

  lemma NothingBefore(c: Search, st: Walk, n: nat)
    requires Known(c, st, n) && n < |c.all| && Searched(c, c.all[n]) && !Covered(c, st, c.all[n])
    ensures First(c, n, c.all[n]) && Alike(c, c.all[n], c.all[n])
  {
    var op := c.all[n];
    forall j | 0 <= j < n && Searched(c, c.all[j]) ensures !Alike(c, c.all[j], op) {
      assert Covered(c, st, c.all[j]);
      var e :| e in st.unique && Alike(c, e.op, c.all[j]);
      if Alike(c, c.all[j], op) { AlikeSame(c, c.all[j], op, e.op); }
    }
  }

  lemma NewFirst(c: Search, st: Walk, st': Walk, n: nat)
    requires Known(c, st, n) && n < |c.all| && Searched(c, c.all[n]) && !Covered(c, st, c.all[n])
    requires st'.unique == st.unique + [Entry(c.all[n], TranslateAll(c.map_, c.all[n].operands))]
    ensures Known(c, st', n + 1) && First(c, n, c.all[n])
  {
    hide Alike, First, Searched;
    var op := c.all[n];
    NothingBefore(c, st, n);
    forall e | e in st'.unique ensures EntryKnown(c, e, n + 1) {
      if e in st.unique { assert EntryKnown(c, e, n); }
    }
    forall k | 0 <= k < n + 1 && Searched(c, c.all[k]) ensures Covered(c, st', c.all[k]) {
      if k < n {
        assert Covered(c, st, c.all[k]);
        var e :| e in st.unique && Alike(c, e.op, c.all[k]);
        assert e in st'.unique;
      } else {
        assert Entry(op, TranslateAll(c.map_, op.operands)) in st'.unique;
      }
    }
  }

  /** A retained entry that matches is the first. */
  lemma RetainedFirst(c: Search, st: Walk, n: nat, e: Entry, op: Op)
    requires Known(c, st, n) && e in st.unique && Alike(c, e.op, op)
    ensures FirstAlike(c, e.op, op)
  {
    assert EntryKnown(c, e, n);
    var k: nat :| k < n && First(c, k, e.op) && c.all[k] == e.op;
    forall j | 0 <= j < k && Searched(c, c.all[j]) ensures !Alike(c, c.all[j], op) {
      AlikeSame(c, e.op, op, c.all[j]);
    }
    assert First(c, k, op);
  }

  lemma OpFound(c: Search, op: Op, dom: set<nat>, st: Walk, n: nat)
    requires Known(c, st, n) && n < |c.all| && c.all[n] == op && op.id !in dom && AllDistinct(op.results)
    requires TranslateAll(st.map_, op.operands) == TranslateAll(c.map_, op.operands)
    ensures var st' := WalkOp(c.fns, c.bound, c.comm, op, dom, st);
        && Known(c, st', n + 1)
        && (st'.redundant == if RedundantAt(c, Do(op), dom, op) then st.redundant + [op] else st.redundant)
        && (RedundantAt(c, Do(op), dom, op) && !Unnecessary(c.fns, c.bound, op) ==>
          forall e :: FirstAlike(c, e, op) ==> |e.results| == |op.results| && forall k :: 0 <= k < |op.results| ==>
            op.results[k] in st'.map_ && st'.map_[op.results[k]] == e.results[k])
  {
    hide Known, First, Alike, Unnecessary, FirstAlike;
    var st' := WalkOp(c.fns, c.bound, c.comm, op, dom, st);
    if !Searched(c, op) {
      KnownOn(c, st, st', n);
    } else {
      var operands := TranslateAll(st.map_, op.operands);
      var it := Find(c.comm, st.unique, op, operands);
      MatchIsAlike(c, st, n, op);
      if it.Some? {
        var e := it.value;
        RetainedFirst(c, st, n, e, op);
        forall e' | FirstAlike(c, e', op) ensures e' == e.op { OnlyFirst(c, e.op, e', op); }
        KnownOn(c, st, st', n);
        MapResultsAt(st.map_, op.results, e.op.results);
      } else {
        NewFirst(c, st, st', n);
        assert FirstAlike(c, op, op) by { AlikeItself(c, n); }
        forall e' | FirstAlike(c, e', op) ensures e' == op { OnlyFirst(c, op, e', op); }
      }
    }
  }

  lemma AlikeItself(c: Search, n: nat)
    requires n < |c.all| && First(c, n, c.all[n])
    ensures FirstAlike(c, c.all[n], c.all[n])
  {}

  lemma MatchIsAlike(c: Search, st: Walk, n: nat, op: Op)
    requires Known(c, st, n) && TranslateAll(st.map_, op.operands) == TranslateAll(c.map_, op.operands)
    ensures forall e :: e in st.unique ==>
        (Matches(c.comm, e, op, TranslateAll(st.map_, op.operands)) <==> Alike(c, e.op, op))
  {
    forall e | e in st.unique
      ensures Matches(c.comm, e, op, TranslateAll(st.map_, op.operands)) <==> Alike(c, e.op, op)
    {
      assert EntryKnown(c, e, n);
    }
  }

  // ---------- whole blocks ----------

  /** What `m` has, `map_` has, and besides only keys in `later`. */
  ghost predicate Fits(m: map<Id, Id>, map_: map<Id, Id>, later: set<Id>) {
    (forall x :: x in m ==> x in map_ && map_[x] == m[x]) && forall x :: x in map_ && x !in m ==> x in later
  }

  lemma FitsEarlier(st: Walk, st': Walk, defs: set<Id>, ids: set<nat>, map_: map<Id, Id>, later: set<Id>)
    requires Grows(st, st', defs, ids) && Fits(st'.map_, map_, later)
    ensures Fits(st.map_, map_, later + defs)
  {}

  lemma FitsTranslates(m: map<Id, Id>, map_: map<Id, Id>, later: set<Id>, ids: seq<Id>)
    requires Fits(m, map_, later) && Elements(ids) !! later
    ensures TranslateAll(m, ids) == TranslateAll(map_, ids)
  {
    forall k | 0 <= k < |ids| ensures Translate(m, ids[k]) == Translate(map_, ids[k]) {
      assert ids[k] in Elements(ids);
    }
  }

  lemma {:induction false} WalkedIds(b: Block)
    ensures forall op :: op in Walked(b) ==> op.id in BlockIds(b)
    decreases Size(b)
  {
    if b.Nil? {
    } else {
      WalkedIdsAt(b.head);
      WalkedIds(b.tail);
    }
  }

  lemma {:induction false} WalkedIdsAt(s: Stmt)
    ensures forall op :: op in WalkedAt(s) ==> op.id in Ids(s)
    decreases StmtSize(s)
  {
    match s {
      case Do(op) =>
      case If(_, thenB, _, elseB, _, _) =>
        WalkedIds(thenB);
        WalkedIds(elseB);
      case For(_, _, _, _, body, _, _) => WalkedIds(body);
    }
  }

  lemma {:induction false} PrecedesWithin(b: Block, e: Op, op: Op)
    requires Precedes(b, e, op)
    ensures op in Walked(b)
    decreases Size(b)
  {
    if b.head == Do(e) && op in Walked(b.tail) {
    } else if PrecedesAt(b.head, e, op) {
      PrecedesWithinAt(b.head, e, op);
    } else {
      PrecedesWithin(b.tail, e, op);
    }
  }

  lemma {:induction false} PrecedesWithinAt(s: Stmt, e: Op, op: Op)
    requires PrecedesAt(s, e, op)
    ensures op in WalkedAt(s)
    decreases StmtSize(s)
  {
    match s {
      case If(_, thenB, _, elseB, _, _) => if Precedes(thenB, e, op) { PrecedesWithin(thenB, e, op); } else {
        PrecedesWithin(elseB, e, op);
      }
      case For(_, _, _, _, body, _, _) => PrecedesWithin(body, e, op);
    }
  }

  /** Where code and its parts stand in the order of all operations. */
  ghost predicate Stands(c: Search, ops: seq<Op>, n: nat) {
    n + |ops| <= |c.all| && c.all[n..n + |ops|] == ops
  }

  lemma StandsParts(c: Search, s: seq<Op>, t: seq<Op>, n: nat)
    requires Stands(c, s + t, n)
    ensures Stands(c, s, n) && Stands(c, t, n + |s|)
  {
    assert c.all[n..n + |s|] == (s + t)[..|s|];
    assert c.all[n + |s|..n + |s| + |t|] == (s + t)[|s|..];
  }

  /** What makes an operation of the head redundant in the block makes it so in the head. */
  lemma HeadRedundant(c: Search, b: Block, dom: set<nat>, op: Op)
    requires b.Cons? && Ids(b.head) !! BlockIds(b.tail) && op in WalkedAt(b.head)
    ensures Redundant(c, b, dom, op) <==> RedundantAt(c, b.head, dom, op)
  {
    hide FirstAlike;
    WalkedIdsAt(b.head);
    WalkedIds(b.tail);
    forall e ensures Precedes(b, e, op) <==> PrecedesAt(b.head, e, op) {
      if Precedes(b.tail, e, op) { PrecedesWithin(b.tail, e, op); }
    }
  }

  /** And an operation behind the head is also preceded by the head itself. */
  lemma TailRedundant(c: Search, b: Block, dom: set<nat>, op: Op, n: nat)
    requires b.Cons? && Ids(b.head) !! BlockIds(b.tail) && op in Walked(b.tail)
    requires OwnIds(c.all) && Stands(c, Walked(b), n)
    ensures Redundant(c, b, dom, op) <==> Redundant(c, b.tail, dom + StmtId(b.head), op)
  {
    WalkedIdsAt(b.head);
    WalkedIds(b.tail);
    forall e | FirstAlike(c, e, op)
      ensures (e.id in dom || Precedes(b, e, op)) <==>
        (e.id in dom + StmtId(b.head) || Precedes(b.tail, e, op))
    {
      if PrecedesAt(b.head, e, op) { PrecedesWithinAt(b.head, e, op); }
      if b.head.Do? {
        StandsParts(c, WalkedAt(b.head), Walked(b.tail), n);
        assert c.all[n..n + 1][0] == b.head.op;
        var k: nat :| First(c, k, op) && c.all[k] == e;
        assert e.id == b.head.op.id ==> k == n;
      }
    }
  }

  /** What a walk needs to know where it starts. */
  ghost predicate Set(c: Search, st: Walk, defs: set<Id>, ids: set<nat>, dom: set<nat>, n: nat) {
    Known(c, st, n) && OwnIds(c.all) && Free(st, defs) && NoChains(st) && NotYet(st, ids) && dom !! ids
  }

  lemma SetLess(c: Search, st: Walk, defs: set<Id>, ids: set<nat>, dom: set<nat>, n: nat, defs': set<Id>,
          ids': set<nat>)
    requires Set(c, st, defs, ids, dom, n) && defs' <= defs && ids' <= ids
    ensures Set(c, st, defs', ids', dom, n)
  {
    hide Known, OwnIds, NoChains;
  }

  lemma SetNext(c: Search, st: Walk, st1: Walk, defs: set<Id>, ids: set<nat>, dom: set<nat>, n: nat, defs1: set<Id>,
                ids1: set<nat>, defs2: set<Id>, ids2: set<nat>, dom2: set<nat>, n2: nat)
    requires Set(c, st, defs, ids, dom, n) && Grows(st, st1, defs1, ids1) && NoChains(st1) && Known(c, st1, n2)
    requires defs1 !! defs2 && ids1 !! ids2 && defs2 <= defs && ids2 <= ids && dom2 <= dom + ids1
    ensures Set(c, st1, defs2, ids2, dom2, n2)
  {
    hide Known, OwnIds, NoChains, Grows, Free, NotYet;
    SetLess(c, st, defs, ids, dom, n, defs2, ids2);
    GrowsFree(st, st1, defs1, ids1, defs2);
    GrowsNotYet(st, st1, defs1, ids1, ids2);
  }

  lemma Unset(c: Search, st: Walk, defs: set<Id>, ids: set<nat>, dom: set<nat>, n: nat)
    requires Set(c, st, defs, ids, dom, n)
    ensures Free(st, defs) && NoChains(st)
  {}

  lemma Unique(c: Search, st: Walk, defs: set<Id>, ids: set<nat>, dom: set<nat>, n: nat)
    requires Set(c, st, defs, ids, dom, n)
    ensures OwnIds(c.all)
  {}

  lemma UnsetNext(c: Search, st: Walk, st1: Walk, defs1: set<Id>, ids1: set<nat>, defs2: set<Id>, defs: set<Id>,
                  ids: set<nat>, dom: set<nat>, n: nat)
    requires Set(c, st, defs, ids, dom, n) && Grows(st, st1, defs1, ids1) && defs1 !! defs2 && defs2 <= defs
    ensures Free(st1, defs2)
  {
    hide Known, OwnIds, NoChains, Grows, Free, NotYet;
    SetLess(c, st, defs, ids, dom, n, defs2, {});
    Unset(c, st, defs2, {}, dom, n);
    GrowsFree(st, st1, defs1, ids1, defs2);
  }

  ghost predicate AllFound(c: Search, b: Block, dom: set<nat>, st': Walk) {
    forall op :: op in Walked(b) ==>
      (op in st'.redundant <==> Redundant(c, b, dom, op)) &&
      (op in st'.redundant && !Unnecessary(c.fns, c.bound, op) ==> Follows(c, op))
  }

  ghost predicate AllFoundAt(c: Search, s: Stmt, dom: set<nat>, st': Walk) {
    forall op :: op in WalkedAt(s) ==>
      (op in st'.redundant <==> RedundantAt(c, s, dom, op)) &&
      (op in st'.redundant && !Unnecessary(c.fns, c.bound, op) ==> Follows(c, op))
  }

  lemma {:induction false} StmtFound(c: Search, s: Stmt, dom: set<nat>, st: Walk, v: set<Id>, n: nat, later: set<Id>)
    requires Scoped(s, v) && Set(c, st, Defs(s), Ids(s), dom, n) && Stands(c, WalkedAt(s), n)
    requires Fits(WalkStmt(c.fns, c.bound, c.comm, s, dom, st).map_, c.map_, later) && later !! v + Defs(s)
    ensures var st' := WalkStmt(c.fns, c.bound, c.comm, s, dom, st);
        Known(c, st', n + |WalkedAt(s)|) && AllFoundAt(c, s, dom, st')
    decreases StmtSize(s), 1
  {
    hide Known, Redundant, First, FirstAlike, Follows, Unnecessary, OwnIds;
    match s {
      case Do(op) => DoFound(c, op, dom, st, v, n, later);
      case If(_, _, _, _, _, _) => IfFound(c, s, dom, st, v, n, later);
      case For(_, _, iv, args, body, _, _) =>
        BlockFound(c, body, dom, st, v + {iv} + Elements(args), n, later);
        assert AllFoundAt(c, s, dom, WalkStmt(c.fns, c.bound, c.comm, s, dom, st)) by { BodyRedundant(c, s, dom); }
    }
  }

  lemma BodyRedundant(c: Search, s: Stmt, dom: set<nat>)
    requires s.For?
    ensures forall op :: Redundant(c, s.body, dom, op) <==> RedundantAt(c, s, dom, op)
  {}

  lemma DoFound(c: Search, op: Op, dom: set<nat>, st: Walk, v: set<Id>, n: nat, later: set<Id>)
    requires Scoped(Do(op), v) && Set(c, st, Defs(Do(op)), {op.id}, dom, n) && Stands(c, [op], n)
    requires Fits(WalkOp(c.fns, c.bound, c.comm, op, dom, st).map_, c.map_, later) && later !! v + Elements(op.results)
    ensures var st' := WalkOp(c.fns, c.bound, c.comm, op, dom, st);
        Known(c, st', n + 1) && AllFoundAt(c, Do(op), dom, st')
  {
    hide Known, Redundant, RedundantAt, First, FirstAlike, Unnecessary;
    assert c.all[n..n + 1][0] == op;
    var st' := WalkOp(c.fns, c.bound, c.comm, op, dom, st);
    OpGrows(c.fns, c.bound, c.comm, op, dom, st);
    FitsEarlier(st, st', Elements(op.results), {op.id}, c.map_, later);
    FitsTranslates(st.map_, c.map_, later + Elements(op.results), op.operands);
    OpFound(c, op, dom, st, n);
    assert op !in st.redundant;
  }

  lemma {:induction false} IfFound(c: Search, s: Stmt, dom: set<nat>, st: Walk, v: set<Id>, n: nat, later: set<Id>)
    requires s.If? && Scoped(s, v) && Set(c, st, Defs(s), Ids(s), dom, n) && Stands(c, WalkedAt(s), n)
    requires Fits(WalkStmt(c.fns, c.bound, c.comm, s, dom, st).map_, c.map_, later) && later !! v + Defs(s)
    ensures var st' := WalkStmt(c.fns, c.bound, c.comm, s, dom, st);
        Known(c, st', n + |WalkedAt(s)|) && AllFoundAt(c, s, dom, st')
    decreases StmtSize(s), 0
  {
    hide Known, Redundant, RedundantAt, First, FirstAlike, Follows, Unnecessary, OwnIds, Stands, AllFound, AllFoundAt;
    hide Fits, Grows, Free, NoChains, NotYet, Set;
    var thenB, elseB := s.thenB, s.elseB;
    var st1 := WalkBlock(c.fns, c.bound, c.comm, thenB, dom, st);
    var st2 := WalkBlock(c.fns, c.bound, c.comm, elseB, dom, st1);
    var m := n + |Walked(thenB)|;
    SetLess(c, st, Defs(s), Ids(s), dom, n, BlockDefs(thenB), BlockIds(thenB));
    Unset(c, st, BlockDefs(thenB), BlockIds(thenB), dom, n);
    BlockGrows(c.fns, c.bound, c.comm, thenB, dom, st, v);
    UnsetNext(c, st, st1, BlockDefs(thenB), BlockIds(thenB), BlockDefs(elseB), Defs(s), Ids(s), dom, n);
    BlockGrows(c.fns, c.bound, c.comm, elseB, dom, st1, v);
    FitsEarlier(st1, st2, BlockDefs(elseB), BlockIds(elseB), c.map_, later);
    StandsParts(c, Walked(thenB), Walked(elseB), n);
    BlockFound(c, thenB, dom, st, v, n, later + BlockDefs(elseB));
    SetNext(c, st, st1, Defs(s), Ids(s), dom, n, BlockDefs(thenB), BlockIds(thenB), BlockDefs(elseB), BlockIds(elseB),
            dom, m);
    BlockFound(c, elseB, dom, st1, v, m, later);
    BranchesJoined(c, s, dom, st1, st2);
  }

  lemma BranchesJoined(c: Search, s: Stmt, dom: set<nat>, st1: Walk, st2: Walk)
    requires s.If? && BlockIds(s.thenB) !! BlockIds(s.elseB) && Grows(st1, st2, BlockDefs(s.elseB), BlockIds(s.elseB))
    requires AllFound(c, s.thenB, dom, st1) && AllFound(c, s.elseB, dom, st2)
    ensures AllFoundAt(c, s, dom, st2)
  {
    hide Redundant, RedundantAt, Follows, Unnecessary;
    BranchRedundant(c, s, dom);
    StillFound(st1, st2, BlockDefs(s.elseB), BlockIds(s.elseB), s.thenB);
  }

  /** What is found in a block stays, and nothing in it is found later. */
  lemma StillFound(st: Walk, st': Walk, defs: set<Id>, ids: set<nat>, b: Block)
    requires Grows(st, st', defs, ids) && BlockIds(b) !! ids
    ensures forall op :: op in Walked(b) ==> (op in st'.redundant <==> op in st.redundant)
  {
    WalkedIds(b);
  }

  lemma BranchRedundant(c: Search, s: Stmt, dom: set<nat>)
    requires s.If? && BlockIds(s.thenB) !! BlockIds(s.elseB)
    ensures forall op :: op in Walked(s.thenB) ==> (Redundant(c, s.thenB, dom, op) <==> RedundantAt(c, s, dom, op))
    ensures forall op :: op in Walked(s.elseB) ==> (Redundant(c, s.elseB, dom, op) <==> RedundantAt(c, s, dom, op))
  {
    hide FirstAlike;
    WalkedIds(s.thenB);
    WalkedIds(s.elseB);
    forall op | op in Walked(s.thenB) ensures Redundant(c, s.thenB, dom, op) <==> RedundantAt(c, s, dom, op) {
      forall e ensures Precedes(s.thenB, e, op) <==> PrecedesAt(s, e, op) {
        if Precedes(s.elseB, e, op) { PrecedesWithin(s.elseB, e, op); }
      }
    }
    forall op | op in Walked(s.elseB) ensures Redundant(c, s.elseB, dom, op) <==> RedundantAt(c, s, dom, op) {
      forall e ensures Precedes(s.elseB, e, op) <==> PrecedesAt(s, e, op) {
        if Precedes(s.thenB, e, op) { PrecedesWithin(s.thenB, e, op); }
      }
    }
  }

  /** After the walk, exactly the redundant operations of a block have been found, and they follow their firsts. */
  lemma {:induction false} BlockFound(c: Search, b: Block, dom: set<nat>, st: Walk, v: set<Id>, n: nat, later: set<Id>)
    requires BlockScoped(b, v) && Set(c, st, BlockDefs(b), BlockIds(b), dom, n) && Stands(c, Walked(b), n)
    requires Fits(WalkBlock(c.fns, c.bound, c.comm, b, dom, st).map_, c.map_, later) && later !! v + BlockDefs(b)
    ensures var st' := WalkBlock(c.fns, c.bound, c.comm, b, dom, st);
        Known(c, st', n + |Walked(b)|) && AllFound(c, b, dom, st')
    decreases Size(b), 2
  {
    hide Known, Redundant, RedundantAt, First, FirstAlike, Follows, Unnecessary, OwnIds;
    if b.Nil? {
    } else {
      hide Stands, AllFound, AllFoundAt, Fits, Grows, Free, NoChains, NotYet, Set, Visible;
      var dom', v', m := dom + StmtId(b.head), v + Visible(b.head), n + |WalkedAt(b.head)|;
      var st1 := WalkStmt(c.fns, c.bound, c.comm, b.head, dom, st);
      var st2 := WalkBlock(c.fns, c.bound, c.comm, b.tail, dom', st1);
      SetLess(c, st, BlockDefs(b), BlockIds(b), dom, n, Defs(b.head), Ids(b.head));
      Unset(c, st, Defs(b.head), Ids(b.head), dom, n);
      StmtGrows(c.fns, c.bound, c.comm, b.head, dom, st, v);
      UnsetNext(c, st, st1, Defs(b.head), Ids(b.head), BlockDefs(b.tail), BlockDefs(b), BlockIds(b), dom, n);
      BlockGrows(c.fns, c.bound, c.comm, b.tail, dom', st1, v');
      FitsEarlier(st1, st2, BlockDefs(b.tail), BlockIds(b.tail), c.map_, later);
      StandsParts(c, WalkedAt(b.head), Walked(b.tail), n);
      LaterApart(b, v, later);
      StmtFound(c, b.head, dom, st, v, n, later + BlockDefs(b.tail));
      SetNext(c, st, st1, BlockDefs(b), BlockIds(b), dom, n, Defs(b.head), Ids(b.head), BlockDefs(b.tail),
              BlockIds(b.tail), dom', m);
      BlockFound(c, b.tail, dom', st1, v', m, later);
      Unique(c, st, BlockDefs(b), BlockIds(b), dom, n);
      BlockJoined(c, b, dom, st1, st2, n);
    }
  }

  lemma LaterApart(b: Block, v: set<Id>, later: set<Id>)
    requires b.Cons? && BlockScoped(b, v) && later !! v + BlockDefs(b)
    ensures later + BlockDefs(b.tail) !! v + Defs(b.head)
    ensures later !! v + Visible(b.head) + BlockDefs(b.tail)
  {
    BlockFresh(b.tail, v + Visible(b.head));
    assert Visible(b.head) <= Defs(b.head);
  }

  lemma BlockJoined(c: Search, b: Block, dom: set<nat>, st1: Walk, st2: Walk, n: nat)
    requires b.Cons? && Ids(b.head) !! BlockIds(b.tail) && OwnIds(c.all) && Stands(c, Walked(b), n)
    requires Grows(st1, st2, BlockDefs(b.tail), BlockIds(b.tail))
    requires AllFoundAt(c, b.head, dom, st1) && AllFound(c, b.tail, dom + StmtId(b.head), st2)
    ensures AllFound(c, b, dom, st2)
  {
    hide Redundant, RedundantAt, Follows, Unnecessary, OwnIds;
    WalkedIdsAt(b.head);
    forall op | op in Walked(b)
      ensures (op in st2.redundant <==> Redundant(c, b, dom, op)) &&
        (op in st2.redundant && !Unnecessary(c.fns, c.bound, op) ==> Follows(c, op))
    {
      if op in WalkedAt(b.head) {
        HeadRedundant(c, b, dom, op);
      } else {
        TailRedundant(c, b, dom, op, n);
      }
    }
  }

  // ---------- whole functions ----------

  /** Alike to an operation that is written first and in front. */
  ghost predicate Duplicate(c: Search, b: Block, op: Op) {
    IsCandidate(op) && exists e :: FirstAlike(c, e, op) && Precedes(b, e, op)
  }

  function SearchIn(fns: seq<Fn>, comm: set<nat>, fn: Fn, map_: map<Id, Id>): Search {
    Search(fns, fn.rank, comm, map_, Walked(fn.body))
  }

  lemma {:induction false} WalkedOwn(b: Block, v: set<Id>)
    requires BlockScoped(b, v)
    ensures OwnIds(Walked(b))
    decreases Size(b)
  {
    if b.Nil? {
    } else {
      WalkedOwnAt(b.head, v);
      WalkedOwn(b.tail, v + Visible(b.head));
      WalkedIdsAt(b.head);
      WalkedIds(b.tail);
      OwnConcat(WalkedAt(b.head), Walked(b.tail), Ids(b.head), BlockIds(b.tail));
    }
  }

  lemma {:induction false} WalkedOwnAt(s: Stmt, v: set<Id>)
    requires Scoped(s, v)
    ensures OwnIds(WalkedAt(s))
    decreases StmtSize(s)
  {
    match s {
      case Do(op) =>
      case If(_, thenB, _, elseB, _, _) =>
        WalkedOwn(thenB, v);
        WalkedOwn(elseB, v);
        WalkedIds(thenB);
        WalkedIds(elseB);
        OwnConcat(Walked(thenB), Walked(elseB), BlockIds(thenB), BlockIds(elseB));
      case For(_, _, iv, args, body, _, _) => WalkedOwn(body, v + {iv} + Elements(args));
    }
  }

  lemma OwnConcat(s: seq<Op>, t: seq<Op>, ids: set<nat>, ids': set<nat>)
    requires OwnIds(s) && OwnIds(t) && ids !! ids'
    requires (forall op :: op in s ==> op.id in ids) && forall op :: op in t ==> op.id in ids'
    ensures OwnIds(s + t)
  {
    var all := s + t;
    forall i, j | 0 <= i < j < |all| ensures all[i].id != all[j].id {
      if i < |s| { assert all[i] in s; } else { assert all[i] == t[i - |s|]; }
      if j >= |s| { assert all[j] in t; }
    }
  }

  lemma {:induction false} WalkedOps(b: Block)
    ensures forall op :: op in Walked(b) <==> op in OpsIn(b)
    decreases Size(b)
  {
    if b.Nil? {
    } else {
      WalkedOpsAt(b.head);
      WalkedOps(b.tail);
    }
  }

  lemma {:induction false} WalkedOpsAt(s: Stmt)
    ensures forall op :: op in WalkedAt(s) <==> op in OpsAt(s)
    decreases StmtSize(s)
  {
    match s {
      case Do(op) =>
      case If(_, thenB, _, elseB, _, _) =>
        WalkedOps(thenB);
        WalkedOps(elseB);
      case For(_, _, _, _, body, _, _) => WalkedOps(body);
    }
  }

  /** The walk over a function finds exactly the unnecessary operations and the duplicates, and replaces the results of
      a duplicate by those of its first. */
  lemma FnFound(fns: seq<Fn>, comm: set<nat>, fn: Fn, st: Walk)
    requires FnOk(fn) && st == WalkBlock(fns, fn.rank, comm, fn.body, {}, StartWalk())
    ensures var c := SearchIn(fns, comm, fn, st.map_);
        forall op :: op in Walked(fn.body) ==>
          (op in st.redundant <==> Unnecessary(fns, fn.rank, op) || Duplicate(c, fn.body, op)) &&
          (op in st.redundant && !Unnecessary(fns, fn.rank, op) ==> Follows(c, op))
  {
    hide First, FirstAlike, Follows, Unnecessary;
    var c, v := SearchIn(fns, comm, fn, st.map_), Elements(fn.params);
    WalkedOwn(fn.body, v);
    BlockFresh(fn.body, v);
    assert Known(c, StartWalk(), 0);
    BlockFound(c, fn.body, {}, StartWalk(), v, 0, {});
  }

  // ---------- what that comes to ----------

  predicate Straight(b: Block)
    decreases b
  {
    b.Cons? ==> b.head.Do? && Straight(b.tail)
  }

  lemma {:induction false} StraightPrecedes(b: Block, i: nat, j: nat)
    requires Straight(b) && i < j < |Walked(b)|
    ensures Precedes(b, Walked(b)[i], Walked(b)[j])
    decreases b
  {
    assert Walked(b) == [b.head.op] + Walked(b.tail);
    if i == 0 {
      assert Walked(b)[j] == Walked(b.tail)[j - 1];
    } else {
      StraightPrecedes(b.tail, i - 1, j - 1);
    }
  }

  lemma {:induction false} LeastAlike(c: Search, i: nat, op: Op) returns (k: nat)
    requires i < |c.all| && Searched(c, c.all[i]) && Alike(c, c.all[i], op)
    ensures k <= i && First(c, k, op)
  {
    if j :| 0 <= j < i && Searched(c, c.all[j]) && Alike(c, c.all[j], op) {
      k := LeastAlike(c, j, op);
    } else {
      k := i;
    }
  }

  /** Without branches and loops every candidate with anything alike in front is a duplicate. */
  lemma StraightFound(fns: seq<Fn>, comm: set<nat>, fn: Fn, map_: map<Id, Id>, i: nat, j: nat)
    requires Straight(fn.body) && i < j < |Walked(fn.body)|
    requires var c := SearchIn(fns, comm, fn, map_);
        Searched(c, c.all[i]) && IsCandidate(c.all[j]) && Alike(c, c.all[i], c.all[j])
    ensures Duplicate(SearchIn(fns, comm, fn, map_), fn.body, Walked(fn.body)[j])
  {
    var c := SearchIn(fns, comm, fn, map_);
    var k := LeastAlike(c, i, c.all[j]);
    StraightPrecedes(fn.body, k, j);
    assert FirstAlike(c, c.all[k], c.all[j]);
  }

  /** The same operation on the same operands, or on the two swapped where the order does not matter, is alike whatever
      is replaced. */
  lemma SameAlike(c: Search, e: Op, op: Op)
    requires e.kind == op.kind && e.tag == op.tag && |e.results| == |op.results|
    requires e.operands == op.operands ||
        (op.tag in c.comm && |op.operands| == 2 && e.operands == [op.operands[1], op.operands[0]])
    ensures Alike(c, e, op)
  {}

  // ---------- purposeless functions ----------

  ghost predicate CallsFn(fns: seq<Fn>, f: nat, g: nat) {
    f < |fns| && exists op :: op in Walked(fns[f].body) && op.kind == CallK(g)
  }

  /** A chain of calls, each made by the function before. */
  ghost predicate CallPath(fns: seq<Fn>, path: seq<nat>) {
    |path| > 0 && forall i :: 0 <= i < |path| - 1 ==> CallsFn(fns, path[i], path[i + 1])
  }

  predicate Quiet(op: Op) { !op.kind.EqK? && !op.kind.ContainK? && !op.kind.AssertK? && !op.kind.EffectK? }

  /** A constrain function that computes no witness, and whose own body neither constrains nor changes anything. */
  ghost predicate Tame(fns: seq<Fn>, f: nat) {
    && f < |fns| && fns[f].isConstrain && !fns[f].allowWitness
    && forall op :: op in Walked(fns[f].body) ==> Quiet(op)
  }

  /** Calls go down in the call graph. */
  ghost predicate RanksFall(fns: seq<Fn>) {
    forall f: nat, g: nat :: CallsFn(fns, f, g) && g < |fns| ==> fns[g].rank < fns[f].rank
  }

  lemma {:induction false} BlockPurposelessIs(fns: seq<Fn>, bound: nat, b: Block)
    ensures BlockPurposeless(fns, bound, b) <==> forall op :: op in Walked(b) ==>
        Quiet(op) && (op.kind.CallK? ==> Purposeless(fns, bound, op.kind.callee))
    decreases Size(b)
  {
    if b.Nil? {
    } else {
      StmtPurposelessIs(fns, bound, b.head);
      BlockPurposelessIs(fns, bound, b.tail);
    }
  }

  lemma {:induction false} StmtPurposelessIs(fns: seq<Fn>, bound: nat, s: Stmt)
    ensures StmtPurposeless(fns, bound, s) <==> forall op :: op in WalkedAt(s) ==>
        Quiet(op) && (op.kind.CallK? ==> Purposeless(fns, bound, op.kind.callee))
    decreases StmtSize(s)
  {
    match s {
      case Do(op) =>
      case If(_, thenB, _, elseB, _, _) =>
        BlockPurposelessIs(fns, bound, thenB);
        BlockPurposelessIs(fns, bound, elseB);
      case For(_, _, _, _, body, _, _) => BlockPurposelessIs(fns, bound, body);
    }
  }

  /** A function is purposeless exactly when nothing it reaches by calls is anything but tame. */
  lemma {:induction false} PurposelessIff(fns: seq<Fn>, bound: nat, f: nat)
    requires RanksFall(fns) && (f < |fns| ==> fns[f].rank < bound)
    ensures Purposeless(fns, bound, f) <==>
        forall path :: CallPath(fns, path) && path[0] == f ==> Tame(fns, path[|path| - 1])
    decreases bound
  {
    if f < |fns| { BlockPurposelessIs(fns, fns[f].rank, fns[f].body); }
    if Purposeless(fns, bound, f) {
      forall path | CallPath(fns, path) && path[0] == f ensures Tame(fns, path[|path| - 1]) {
        if |path| > 1 {
          var g := path[1];
          assert CallsFn(fns, path[0], g);
          var op :| op in Walked(fns[f].body) && op.kind == CallK(g);
          PurposelessIff(fns, fns[f].rank, g);
          assert CallPath(fns, path[1..]) by {
            forall i | 0 <= i < |path| - 2 ensures CallsFn(fns, path[1..][i], path[1..][i + 1]) {
              assert CallsFn(fns, path[i + 1], path[i + 2]);
            }
          }
          assert path[1..][|path| - 2] == path[|path| - 1];
        }
      }
    } else if !Tame(fns, f) {
      assert CallPath(fns, [f]) && !Tame(fns, [f][|[f]| - 1]);
    } else {
      var op :| op in Walked(fns[f].body) && op.kind.CallK? && !Purposeless(fns, fns[f].rank, op.kind.callee);
      var g := op.kind.callee;
      assert CallsFn(fns, f, g);
      PurposelessIff(fns, fns[f].rank, g);
      var path :| CallPath(fns, path) && path[0] == g && !Tame(fns, path[|path| - 1]);
      var longer := [f] + path;
      forall i | 0 <= i < |longer| - 1 ensures CallsFn(fns, longer[i], longer[i + 1]) {
        if i > 0 { assert CallsFn(fns, path[i - 1], path[i]); }
      }
      assert CallPath(fns, longer) && longer[|longer| - 1] == path[|path| - 1];
    }
  }

  // ---------- a duplicate that is missed ----------

  /** A product worked out in a branch, and twice behind it. */
  function BehindBranch(): Fn {
    var first := Op(0, PureK, 0, [0, 1], [3]);
    var second := Op(1, PureK, 0, [0, 1], [4]);
    var third := Op(2, PureK, 0, [0, 1], [5]);
    Fn(0, true, false, [0, 1, 2],
       Cons(If(2, Cons(Do(first), Nil), [], Nil, [], []), Cons(Do(second), Cons(Do(third), Nil))), [5])
  }

  lemma BehindBranchOps()
    ensures var b := BehindBranch().body; var ops := Walked(b);
        && |ops| == 3 && Precedes(b, ops[1], ops[2]) && b.head.thenB == Cons(Do(ops[0]), Nil)
        && b.tail == Cons(Do(ops[1]), Cons(Do(ops[2]), Nil))
        && ops[1].operands == ops[2].operands && ops[1].tag == ops[2].tag && ops[1].kind == ops[2].kind
        && |ops[1].results| == |ops[2].results|
  {
    var b := BehindBranch().body;
    var first, second, third := b.head.thenB.head.op, b.tail.head.op, b.tail.tail.head.op;
    assert Walked(b.tail.tail) == [third] && Walked(b.tail) == [second, third];
    assert Walked(b.head.thenB) == [first];
    assert Walked(b) == [first, second, third];
  }

  lemma BehindBranchWalk(fns: seq<Fn>, comm: set<nat>)
    ensures WalkBlock(fns, 0, comm, BehindBranch().body, {}, StartWalk()).redundant == []
  {
    var b := BehindBranch().body;
    var first := b.head.thenB.head.op;
    var st := WalkStmt(fns, 0, comm, b.head, {}, StartWalk());
    assert TranslateAll(map[], [0, 1]) == [0, 1];
    assert st == WalkBlock(fns, 0, comm, b.head.thenB, {}, StartWalk());
    assert st == Walk(map[], [Entry(first, [0, 1])], []);
  }

  /** The third product is not found, although the second one precedes it and is kept: the first of the three is the one
      that is remembered, and the branch it is in does not precede the others. */
  lemma MissedBehindBranch(fns: seq<Fn>, comm: set<nat>)
    ensures var fn := BehindBranch(); var ops := Walked(fn.body);
        && FnOk(fn) && |ops| == 3 && Precedes(fn.body, ops[1], ops[2])
        && (forall map_ :: Alike(SearchIn(fns, comm, fn, map_), ops[1], ops[2]))
        && WalkBlock(fns, fn.rank, comm, fn.body, {}, StartWalk()).redundant == []
  {
    hide WalkBlock, Walked, Precedes;
    var ops := Walked(BehindBranch().body);
    BehindBranchOps();
    BehindBranchWalk(fns, comm);
    forall map_ ensures Alike(SearchIn(fns, comm, BehindBranch(), map_), ops[1], ops[2]) {
      SameAlike(SearchIn(fns, comm, BehindBranch(), map_), ops[1], ops[2]);
    }
  }
}
