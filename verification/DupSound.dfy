/** On every run, what duplicate elimination calls redundant is: its results equal the retained ones and
    its constraint is implied. */
module DupSound {
  import opened DupIr
  import opened DupElim

  /** The order of two operands does not matter for the commutative tags. */
  ghost predicate Commutes(w: World, comm: set<nat>) {
    && (forall tag, x, y, k :: tag in comm ==> w.pure(tag, [x, y], k) == w.pure(tag, [y, x], k))
    && (forall tag, x, y :: tag in comm ==> w.rel(tag, [x, y]) == w.rel(tag, [y, x]))
  }

  /** The retained operation `e` has been run: its results are what its translated operands give, its constraint is
      among those so far. */
  ghost predicate EntryTrue(w: World, e: Entry, v: set<Id>, m: Machine) {
    && IsCandidate(e.op) && Elements(e.operands) <= v && Elements(e.op.results) <= v
    && (e.op.kind.PureK? ==>
      forall k: nat :: k < |e.op.results| ==> m.env(e.op.results[k]) == w.pure(e.op.tag, Vals(m.env, e.operands), k))
    && (!e.op.kind.PureK? ==> e.op.results == [] && (m.acc ==> Holds(w, e.op, Vals(m.env, e.operands))))
  }

  /** Replaced values equal their replacements. */
  ghost predicate MapTrue(map_: map<Id, Id>, v: set<Id>, m: Machine) {
    forall x :: x in v && x in map_ ==> map_[x] in v && m.env(x) == m.env(map_[x])
  }

  ghost predicate Sound(w: World, st: Walk, dom: set<nat>, v: set<Id>, m: Machine) {
    MapTrue(st.map_, v, m) && forall e :: e in st.unique && e.op.id in dom ==> EntryTrue(w, e, v, m)
  }

  /** Nothing recorded so far concerns the values in `defs`. */
  ghost predicate Free(st: Walk, defs: set<Id>) {
    && st.map_.Keys !! defs && (forall x :: x in st.map_ ==> st.map_[x] !in defs)
    && (forall e :: e in st.unique ==> Elements(e.op.results) !! defs)
  }

  /** No replacement is itself replaced, and no retained result is. */
  ghost predicate NoChains(st: Walk) {
    && (forall x :: x in st.map_ ==> st.map_[x] !in st.map_)
    && (forall e :: e in st.unique ==> Elements(e.op.results) !! st.map_.Keys)
  }

  ghost predicate Kept(st: Walk, v: Id) { exists e :: e in st.unique && v in e.op.results }

  /** What a walk over code that defines `defs` with operations `ids` may add. */
  ghost predicate Grows(st: Walk, st': Walk, defs: set<Id>, ids: set<nat>) {
    && (forall x :: x in st.map_ ==> x in st'.map_ && st'.map_[x] == st.map_[x])
    && (forall x :: x in st'.map_ && x !in st.map_ ==> x in defs && (st'.map_[x] in defs || Kept(st, st'.map_[x])))
    && (forall e :: e in st.unique ==> e in st'.unique)
    && (forall e :: e in st'.unique && e !in st.unique ==> Elements(e.op.results) <= defs && e.op.id in ids)
    && (forall op :: op in st.redundant ==> op in st'.redundant)
    && (forall op :: op in st'.redundant && op !in st.redundant ==> op.id in ids)
  }

  lemma GrowsTrans(st: Walk, st1: Walk, st2: Walk, defs1: set<Id>, ids1: set<nat>, defs2: set<Id>, ids2: set<nat>)
    requires Grows(st, st1, defs1, ids1) && Grows(st1, st2, defs2, ids2)
    ensures Grows(st, st2, defs1 + defs2, ids1 + ids2)
  {
    forall x | x in st2.map_ && x !in st.map_ ensures st2.map_[x] in defs1 + defs2 || Kept(st, st2.map_[x]) {
      if x !in st1.map_ && Kept(st1, st2.map_[x]) {
        var e :| e in st1.unique && st2.map_[x] in e.op.results;
      }
    }
  }

  lemma GrowsFree(st: Walk, st': Walk, defs: set<Id>, ids: set<nat>, more: set<Id>)
    requires Grows(st, st', defs, ids) && Free(st, more) && defs !! more
    ensures Free(st', more)
  {
    forall x | x in st'.map_ ensures st'.map_[x] !in more {
      if x !in st.map_ && Kept(st, st'.map_[x]) { var e :| e in st.unique && st'.map_[x] in e.op.results; }
    }
  }

  lemma {:induction false} MapResultsAt(map_: map<Id, Id>, from: seq<Id>, to: seq<Id>)
    requires |from| == |to| && AllDistinct(from)
    ensures forall x :: x in MapResults(map_, from, to) <==> x in map_ || x in from
    ensures forall k :: 0 <= k < |from| ==> MapResults(map_, from, to)[from[k]] == to[k]
    ensures forall x :: x in map_ && x !in from ==> MapResults(map_, from, to)[x] == map_[x]
  {
    if from == [] {
    } else {
      var n := |from| - 1;
      MapResultsAt(map_, from[..n], to[..n]);
      var before := MapResults(map_, from[..n], to[..n]);
      assert MapResults(map_, from, to) == before[from[n] := to[n]];
      forall x ensures x in from <==> x in from[..n] || x == from[n] { assert from == from[..n] + [from[n]]; }
      forall k | 0 <= k < n ensures before[from[k]] == to[k] { assert from[..n][k] == from[k] && to[..n][k] == to[k]; }
    }
  }

  lemma OpGrows(fns: seq<Fn>, bound: nat, comm: set<nat>, op: Op, dom: set<nat>, st: Walk)
    requires AllDistinct(op.results) && Free(st, Elements(op.results)) && NoChains(st)
    ensures var st' := WalkOp(fns, bound, comm, op, dom, st);
        Grows(st, st', Elements(op.results), {op.id}) && NoChains(st')
  {
    if !Unnecessary(fns, bound, op) && IsCandidate(op) {
      var operands := TranslateAll(st.map_, op.operands);
      var it := Find(comm, st.unique, op, operands);
      if it.Some? && it.value.op.id in dom {
        var st' := WalkOp(fns, bound, comm, op, dom, st);
        var to := it.value.op.results;
        MapResultsAt(st.map_, op.results, to);
        forall x | x in st'.map_ && x !in st.map_ ensures Kept(st, st'.map_[x]) && st'.map_[x] !in st'.map_ {
          var k :| 0 <= k < |op.results| && op.results[k] == x;
          assert st'.map_[x] == to[k] && to[k] in it.value.op.results;
          assert to[k] in Elements(it.value.op.results);
        }
      }
    }
  }

  lemma {:induction false} StmtGrows(fns: seq<Fn>, bound: nat, comm: set<nat>, s: Stmt, dom: set<nat>, st: Walk,
          v: set<Id>)
    requires Scoped(s, v) && Free(st, Defs(s)) && NoChains(st)
    ensures var st' := WalkStmt(fns, bound, comm, s, dom, st); Grows(st, st', Defs(s), Ids(s)) && NoChains(st')
    decreases StmtSize(s)
  {
    match s {
      case Do(op) => OpGrows(fns, bound, comm, op, dom, st);
      case If(_, thenB, _, elseB, _, _) =>
        var st1 := WalkBlock(fns, bound, comm, thenB, dom, st);
        BlockGrows(fns, bound, comm, thenB, dom, st, v);
        GrowsFree(st, st1, BlockDefs(thenB), BlockIds(thenB), BlockDefs(elseB));
        BlockGrows(fns, bound, comm, elseB, dom, st1, v);
        GrowsTrans(st, st1, WalkBlock(fns, bound, comm, elseB, dom, st1), BlockDefs(thenB), BlockIds(thenB),
          BlockDefs(elseB), BlockIds(elseB));
      case For(_, _, iv, args, body, _, _) => BlockGrows(fns, bound, comm, body, dom, st, v + {iv} + Elements(args));
    }
  }

  lemma {:induction false} BlockGrows(fns: seq<Fn>, bound: nat, comm: set<nat>, b: Block, dom: set<nat>, st: Walk,
          v: set<Id>)
    requires BlockScoped(b, v) && Free(st, BlockDefs(b)) && NoChains(st)
    ensures var st' := WalkBlock(fns, bound, comm, b, dom, st);
        Grows(st, st', BlockDefs(b), BlockIds(b)) && NoChains(st')
    decreases Size(b)
  {
    if b.Nil? {
    } else {
      var st1 := WalkStmt(fns, bound, comm, b.head, dom, st);
      StmtGrows(fns, bound, comm, b.head, dom, st, v);
      GrowsFree(st, st1, Defs(b.head), Ids(b.head), BlockDefs(b.tail));
      BlockGrows(fns, bound, comm, b.tail, dom + StmtId(b.head), st1, v + Visible(b.head));
      GrowsTrans(st, st1, WalkBlock(fns, bound, comm, b, dom, st), Defs(b.head), Ids(b.head), BlockDefs(b.tail),
        BlockIds(b.tail));
    }
  }

  // ---------- one operation ----------

  ghost predicate SameOn(m: Machine, m': Machine, v: set<Id>) {
    (forall x :: x in v ==> m'.env(x) == m.env(x)) && (m'.acc ==> m.acc)
  }

  /** Running `op` from `m` to `m'` could have been left out, its results taken from their replacements. */
  ghost predicate Harmless(op: Op, map_: map<Id, Id>, v: set<Id>, m: Machine, m': Machine) {
    && m'.acc == m.acc && m'.mem == m.mem
    && forall x :: x in op.results ==> x in map_ && map_[x] in v && m'.env(x) == m'.env(map_[x])
  }

  lemma EntryStays(w: World, e: Entry, v: set<Id>, more: set<Id>, m: Machine, m': Machine)
    requires EntryTrue(w, e, v, m) && SameOn(m, m', v)
    ensures EntryTrue(w, e, v + more, m')
  {
    assert forall k: nat :: k < |e.op.results| ==> e.op.results[k] in Elements(e.op.results);
    assert forall k: nat :: k < |e.operands| ==> e.operands[k] in Elements(e.operands);
    assert Vals(m.env, e.operands) == Vals(m'.env, e.operands);
  }

  lemma TranslatedVals(map_: map<Id, Id>, v: set<Id>, m: Machine, ids: seq<Id>)
    requires MapTrue(map_, v, m) && Elements(ids) <= v
    ensures Elements(TranslateAll(map_, ids)) <= v && Vals(m.env, TranslateAll(map_, ids)) == Vals(m.env, ids)
  {
    assert forall k :: 0 <= k < |ids| ==> ids[k] in Elements(ids);
  }

  lemma OpFrame(w: World, fns: seq<Fn>, bound: nat, op: Op, v: set<Id>, m: Machine)
    requires Scoped(Do(op), v)
    ensures SameOn(m, Exec(w, fns, bound, Do(op), m), v)
  {
    assert forall x :: x in op.results ==> x in Elements(op.results);
  }

  /** The values an operation leaves in its results. */
  lemma OpResults(w: World, fns: seq<Fn>, bound: nat, op: Op, m: Machine, k: nat)
    requires AllDistinct(op.results) && k < |op.results| && !op.kind.CallK?
    ensures Exec(w, fns, bound, Do(op), m).env(op.results[k]) == Outcome(w, op, Vals(m.env, op.operands), m)(k)
  {
    IndexOfAt(op.results, k);
  }

  lemma MatchedVals(w: World, comm: set<nat>, e: Entry, op: Op, operands: seq<Id>, m: Machine)
    requires Commutes(w, comm) && Matches(comm, e, op, operands)
    ensures forall k :: w.pure(op.tag, Vals(m.env, e.operands), k) == w.pure(op.tag, Vals(m.env, operands), k)
    ensures Holds(w, e.op, Vals(m.env, e.operands)) == Holds(w, op, Vals(m.env, operands))
  {
    if e.operands != operands {
      assert Vals(m.env, e.operands) == [m.env(e.operands[0]), m.env(e.operands[1])];
      assert Vals(m.env, operands) == [m.env(operands[0]), m.env(operands[1])];
    }
  }

  lemma DuplicateHarmless(w: World, fns: seq<Fn>, bound: nat, comm: set<nat>, op: Op, dom: set<nat>, st: Walk,
          v: set<Id>, m: Machine, e: Entry)
    requires Commutes(w, comm) && Scoped(Do(op), v) && Sound(w, st, dom, v, m) && IsCandidate(op)
    requires e in st.unique && e.op.id in dom && Matches(comm, e, op, TranslateAll(st.map_, op.operands))
    ensures Harmless(op, MapResults(st.map_, op.results, e.op.results), v, m, Exec(w, fns, bound, Do(op), m))
  {
    var m' := Exec(w, fns, bound, Do(op), m);
    var operands := TranslateAll(st.map_, op.operands);
    assert EntryTrue(w, e, v, m);
    TranslatedVals(st.map_, v, m, op.operands);
    MatchedVals(w, comm, e, op, operands, m);
    MapResultsAt(st.map_, op.results, e.op.results);
    OpFrame(w, fns, bound, op, v, m);
    forall x | x in op.results
      ensures var to := MapResults(st.map_, op.results, e.op.results)[x]; to in v && m'.env(x) == m'.env(to)
    {
      var k :| 0 <= k < |op.results| && op.results[k] == x;
      OpResults(w, fns, bound, op, m, k);
      assert e.op.results[k] in Elements(e.op.results);
    }
  }

  /** A retained candidate is recorded truthfully. */
  lemma NewEntryTrue(w: World, fns: seq<Fn>, bound: nat, op: Op, st: Walk, v: set<Id>, m: Machine)
    requires Scoped(Do(op), v) && MapTrue(st.map_, v, m) && IsCandidate(op)
    ensures EntryTrue(w, Entry(op, TranslateAll(st.map_, op.operands)), v + Elements(op.results),
        Exec(w, fns, bound, Do(op), m))
  {
    var m', operands := Exec(w, fns, bound, Do(op), m), TranslateAll(st.map_, op.operands);
    TranslatedVals(st.map_, v, m, op.operands);
    OpFrame(w, fns, bound, op, v, m);
    assert forall k :: 0 <= k < |operands| ==> operands[k] in Elements(operands);
    assert Vals(m'.env, operands) == Vals(m.env, op.operands);
    forall k: nat | k < |op.results| ensures m'.env(op.results[k]) == Outcome(w, op, Vals(m.env, op.operands), m)(k) {
      OpResults(w, fns, bound, op, m, k);
    }
  }

  lemma UnnecessaryHarmless(w: World, fns: seq<Fn>, bound: nat, op: Op, map_: map<Id, Id>, v: set<Id>, m: Machine)
    requires Scoped(Do(op), v) && Unnecessary(fns, bound, op)
    ensures Harmless(op, map_, v, m, Exec(w, fns, bound, Do(op), m))
  {
    if op.kind.CallK? {
      PurposelessSilent(w, fns, bound, op.kind.callee, Vals(m.env, op.operands), m.mem, m.it + [op.id]);
    }
  }

  lemma OpSound(w: World, fns: seq<Fn>, bound: nat, comm: set<nat>, op: Op, dom: set<nat>, st: Walk, v: set<Id>,
          m: Machine)
    requires Commutes(w, comm) && Scoped(Do(op), v) && Sound(w, st, dom, v, m) && Free(st, Elements(op.results))
    requires op.id !in dom
    requires forall e :: e in st.unique ==> e.op.id != op.id
    ensures var st', m' := WalkOp(fns, bound, comm, op, dom, st), Exec(w, fns, bound, Do(op), m);
            && Sound(w, st', dom + {op.id}, v + Elements(op.results), m')
            && (|st'.redundant| > |st.redundant| ==> Harmless(op, st'.map_, v, m, m'))
  {
    var st', m' := WalkOp(fns, bound, comm, op, dom, st), Exec(w, fns, bound, Do(op), m);
    OpFrame(w, fns, bound, op, v, m);
    forall e | e in st.unique && e.op.id in dom ensures EntryTrue(w, e, v + Elements(op.results), m') {
      EntryStays(w, e, v, Elements(op.results), m, m');
    }
    assert MapTrue(st.map_, v + Elements(op.results), m');
    if Unnecessary(fns, bound, op) {
      UnnecessaryHarmless(w, fns, bound, op, st.map_, v, m);
    } else if IsCandidate(op) {
      var operands := TranslateAll(st.map_, op.operands);
      var it := Find(comm, st.unique, op, operands);
      if it.Some? && it.value.op.id in dom {
        DuplicateHarmless(w, fns, bound, comm, op, dom, st, v, m, it.value);
        MapResultsAt(st.map_, op.results, it.value.op.results);
      } else if it.None? {
        NewEntryTrue(w, fns, bound, op, st, v, m);
      }
    }
  }

  // ---------- every run ----------

  /** Following the run: every operation in `gone` is harmless each time it is reached. */
  ghost predicate FineAt(w: World, fns: seq<Fn>, bound: nat, s: Stmt, map_: map<Id, Id>, gone: set<nat>, v: set<Id>,
          m: Machine)
    decreases StmtSize(s)
  {
    match s
    case Do(op) => op.id in gone ==> Harmless(op, map_, v, m, Exec(w, fns, bound, s, m))
    case If(cond, thenB, _, elseB, _, _) =>
      if m.env(cond) != 0 then FineIn(w, fns, bound, thenB, map_, gone, v, m)
        else FineIn(w, fns, bound, elseB, map_, gone, v, m)
    case For(bounds, _, iv, args, body, _, _) =>
      forall k: nat :: k < w.trips(Vals(m.env, bounds)) ==>
        FineIn(w, fns, bound, body, map_, gone, v + {iv} + Elements(args),
          IterStart(w, s, k, m, ExecLoop(w, fns, bound, s, k, m)))
  }

  ghost predicate FineIn(w: World, fns: seq<Fn>, bound: nat, b: Block, map_: map<Id, Id>, gone: set<nat>, v: set<Id>,
          m: Machine)
    decreases Size(b)
  {
    b.Cons? ==>
      FineAt(w, fns, bound, b.head, map_, gone, v, m) &&
      FineIn(w, fns, bound, b.tail, map_, gone, v + Visible(b.head), Exec(w, fns, bound, b.head, m))
  }

  /** `map_` and `gone` extend what the walk has found so far, without adding to what concerns the operations `ids`. */
  ghost predicate Extends(st: Walk, map_: map<Id, Id>, gone: set<nat>, ids: set<nat>) {
    && (forall x :: x in st.map_ ==> x in map_ && map_[x] == st.map_[x])
    && (forall id :: id in ids && id in gone ==> exists op :: op in st.redundant && op.id == id)
  }

  /** Nothing recorded so far concerns the operations in `ids`. */
  ghost predicate NotYet(st: Walk, ids: set<nat>) {
    (forall op :: op in st.redundant ==> op.id !in ids) && (forall e :: e in st.unique ==> e.op.id !in ids)
  }

  lemma GrowsNotYet(st: Walk, st': Walk, defs: set<Id>, ids: set<nat>, more: set<nat>)
    requires Grows(st, st', defs, ids) && NotYet(st, more) && ids !! more
    ensures NotYet(st', more)
  {}

  lemma ExtendsEarlier(st: Walk, st': Walk, defs: set<Id>, ids: set<nat>, map_: map<Id, Id>, gone: set<nat>,
          these: set<nat>)
    requires Grows(st, st', defs, ids) && Extends(st', map_, gone, these) && these !! ids
    ensures Extends(st, map_, gone, these)
  {
    forall id | id in these && id in gone ensures exists op :: op in st.redundant && op.id == id {
      var op :| op in st'.redundant && op.id == id;
    }
  }

  /** Past a structured operation, what was recorded outside it is still true. */
  lemma SoundPast(w: World, st: Walk, st': Walk, defs: set<Id>, ids: set<nat>, dom: set<nat>, v: set<Id>, more: set<Id>,
          m: Machine, m': Machine)
    requires Sound(w, st, dom, v, m) && SameOn(m, m', v) && Grows(st, st', defs, ids) && dom !! ids && v + more !! defs
    requires more !! st.map_.Keys
    ensures Sound(w, st', dom, v + more, m')
  {
    forall e | e in st'.unique && e.op.id in dom
      ensures EntryTrue(w, e, v + more, m')
    {
      EntryStays(w, e, v, more, m, m');
    }
  }

  ghost predicate Ready(st: Walk, b: Block, dom: set<nat>) {
    Free(st, BlockDefs(b)) && NoChains(st) && NotYet(st, BlockIds(b)) && dom !! BlockIds(b)
  }

  lemma {:induction false} BlockSound(w: World, fns: seq<Fn>, bound: nat, comm: set<nat>, b: Block, dom: set<nat>,
          st: Walk, v: set<Id>, m: Machine, map_: map<Id, Id>, gone: set<nat>)
    requires Commutes(w, comm) && BlockScoped(b, v) && Sound(w, st, dom, v, m) && Ready(st, b, dom)
    requires Extends(WalkBlock(fns, bound, comm, b, dom, st), map_, gone, BlockIds(b))
    ensures FineIn(w, fns, bound, b, map_, gone, v, m) && SameOn(m, ExecBlock(w, fns, bound, b, m), v)
    decreases Size(b), 0, 0
  {
    if b.Nil? {
    } else {
      var st1 := WalkStmt(fns, bound, comm, b.head, dom, st);
      var st2 := WalkBlock(fns, bound, comm, b.tail, dom + StmtId(b.head), st1);
      StmtGrows(fns, bound, comm, b.head, dom, st, v);
      GrowsFree(st, st1, Defs(b.head), Ids(b.head), BlockDefs(b.tail));
      GrowsNotYet(st, st1, Defs(b.head), Ids(b.head), BlockIds(b.tail));
      BlockGrows(fns, bound, comm, b.tail, dom + StmtId(b.head), st1, v + Visible(b.head));
      ExtendsEarlier(st1, st2, BlockDefs(b.tail), BlockIds(b.tail), map_, gone, Ids(b.head));
      StmtSound(w, fns, bound, comm, b.head, dom, st, v, m, map_, gone);
      BlockSound(w, fns, bound, comm, b.tail, dom + StmtId(b.head), st1, v + Visible(b.head),
        Exec(w, fns, bound, b.head, m), map_, gone);
    }
  }

  lemma {:induction false} StmtSound(w: World, fns: seq<Fn>, bound: nat, comm: set<nat>, s: Stmt, dom: set<nat>,
          st: Walk, v: set<Id>, m: Machine, map_: map<Id, Id>, gone: set<nat>)
    requires Commutes(w, comm) && Scoped(s, v) && Sound(w, st, dom, v, m)
    requires Free(st, Defs(s)) && NoChains(st) && NotYet(st, Ids(s)) && dom !! Ids(s)
    requires Extends(WalkStmt(fns, bound, comm, s, dom, st), map_, gone, Ids(s))
    ensures FineAt(w, fns, bound, s, map_, gone, v, m) && SameOn(m, Exec(w, fns, bound, s, m), v)
    ensures Sound(w, WalkStmt(fns, bound, comm, s, dom, st), dom + StmtId(s), v + Visible(s), Exec(w, fns, bound, s, m))
    decreases StmtSize(s), 0, 0
  {
    match s {
      case Do(op) =>
        OpSound(w, fns, bound, comm, op, dom, st, v, m);
        OpFrame(w, fns, bound, op, v, m);
      case If(_, _, _, _, _, _) => IfSound(w, fns, bound, comm, s, dom, st, v, m, map_, gone);
      case For(_, _, _, _, _, _, _) => ForSound(w, fns, bound, comm, s, dom, st, v, m, map_, gone);
    }
  }

  lemma YieldFrame(m: Machine, carry: seq<Id>, results: seq<Id>, v: set<Id>)
    requires Elements(results) !! v
    ensures SameOn(m, Yield(m, carry, results), v)
  {
    assert forall x :: x in results ==> x in Elements(results);
  }

  lemma {:induction false} IfSound(w: World, fns: seq<Fn>, bound: nat, comm: set<nat>, s: Stmt, dom: set<nat>, st: Walk,
          v: set<Id>, m: Machine, map_: map<Id, Id>, gone: set<nat>)
    requires s.If? && Commutes(w, comm) && Scoped(s, v) && Sound(w, st, dom, v, m)
    requires Free(st, Defs(s)) && NoChains(st) && NotYet(st, Ids(s)) && dom !! Ids(s)
    requires Extends(WalkStmt(fns, bound, comm, s, dom, st), map_, gone, Ids(s))
    ensures FineAt(w, fns, bound, s, map_, gone, v, m) && SameOn(m, Exec(w, fns, bound, s, m), v)
    ensures Sound(w, WalkStmt(fns, bound, comm, s, dom, st), dom, v + Visible(s), Exec(w, fns, bound, s, m))
    decreases StmtSize(s) - 1, 1, 0
  {
    var st1 := WalkBlock(fns, bound, comm, s.thenB, dom, st);
    var st2 := WalkBlock(fns, bound, comm, s.elseB, dom, st1);
    BlockGrows(fns, bound, comm, s.thenB, dom, st, v);
    GrowsFree(st, st1, BlockDefs(s.thenB), BlockIds(s.thenB), BlockDefs(s.elseB));
    GrowsNotYet(st, st1, BlockDefs(s.thenB), BlockIds(s.thenB), BlockIds(s.elseB));
    BlockGrows(fns, bound, comm, s.elseB, dom, st1, v);
    GrowsTrans(st, st1, st2, BlockDefs(s.thenB), BlockIds(s.thenB), BlockDefs(s.elseB), BlockIds(s.elseB));
    BlockFresh(s.thenB, v);
    BlockFresh(s.elseB, v);
    var m' := if m.env(s.cond) != 0 then ExecBlock(w, fns, bound, s.thenB, m) else ExecBlock(w, fns, bound, s.elseB, m);
    if m.env(s.cond) != 0 {
      ExtendsEarlier(st1, st2, BlockDefs(s.elseB), BlockIds(s.elseB), map_, gone, BlockIds(s.thenB));
      BlockSound(w, fns, bound, comm, s.thenB, dom, st, v, m, map_, gone);
    } else {
      SoundPast(w, st, st1, BlockDefs(s.thenB), BlockIds(s.thenB), dom, v, {}, m, m);
      assert v + {} == v;
      BlockSound(w, fns, bound, comm, s.elseB, dom, st1, v, m, map_, gone);
    }
    YieldFrame(m', if m.env(s.cond) != 0 then s.thenYields else s.elseYields, s.results, v);
    SoundPast(w, st, st2, BlockDefs(s.thenB) + BlockDefs(s.elseB), Ids(s), dom, v, Visible(s), m,
      Exec(w, fns, bound, s, m));
  }

  /** Iterations keep what is outside the loop. */
  lemma {:induction false} LoopSound(w: World, fns: seq<Fn>, bound: nat, comm: set<nat>, s: Stmt, n: nat, dom: set<nat>,
          st: Walk, v: set<Id>, m: Machine, map_: map<Id, Id>, gone: set<nat>)
    requires s.For? && Commutes(w, comm) && Scoped(s, v) && Sound(w, st, dom, v, m)
    requires Free(st, Defs(s)) && NoChains(st) && NotYet(st, Ids(s)) && dom !! Ids(s)
    requires Extends(WalkStmt(fns, bound, comm, s, dom, st), map_, gone, Ids(s))
    ensures SameOn(m, ExecLoop(w, fns, bound, s, n, m), v)
    ensures forall k: nat :: k < n ==>
              FineIn(w, fns, bound, s.body, map_, gone, v + {s.iv} + Elements(s.args),
                IterStart(w, s, k, m, ExecLoop(w, fns, bound, s, k, m)))
    decreases StmtSize(s) - 1, 1, n
  {
    hide FineIn, ExecBlock, Sound, IterStart, BlockDefs, BlockIds, Extends, NotYet, NoChains, BlockScoped;
    if n == 0 {
    } else {
      LoopSound(w, fns, bound, comm, s, n - 1, dom, st, v, m, map_, gone);
      var start := IterStart(w, s, n - 1, m, ExecLoop(w, fns, bound, s, n - 1, m));
      var inner := v + {s.iv} + Elements(s.args);
      IterFrame(w, s, n - 1, v, m, ExecLoop(w, fns, bound, s, n - 1, m));
      SoundPast(w, st, st, {}, {}, dom, v, {s.iv} + Elements(s.args), m, start);
      assert v + ({s.iv} + Elements(s.args)) == inner;
      BlockSound(w, fns, bound, comm, s.body, dom, st, inner, start, map_, gone);
    }
  }

  lemma IterFrame(w: World, s: Stmt, k: nat, v: set<Id>, outer: Machine, m: Machine)
    requires s.For? && v !! {s.iv} + Elements(s.args)
    ensures SameOn(m, IterStart(w, s, k, outer, m), v)
  {
    assert forall x :: x in s.args ==> x in Elements(s.args);
  }

  lemma {:induction false} ForSound(w: World, fns: seq<Fn>, bound: nat, comm: set<nat>, s: Stmt, dom: set<nat>,
          st: Walk, v: set<Id>, m: Machine, map_: map<Id, Id>, gone: set<nat>)
    requires s.For? && Commutes(w, comm) && Scoped(s, v) && Sound(w, st, dom, v, m)
    requires Free(st, Defs(s)) && NoChains(st) && NotYet(st, Ids(s)) && dom !! Ids(s)
    requires Extends(WalkStmt(fns, bound, comm, s, dom, st), map_, gone, Ids(s))
    ensures FineAt(w, fns, bound, s, map_, gone, v, m) && SameOn(m, Exec(w, fns, bound, s, m), v)
    ensures Sound(w, WalkStmt(fns, bound, comm, s, dom, st), dom, v + Visible(s), Exec(w, fns, bound, s, m))
    decreases StmtSize(s) - 1, 2, 0
  {
    var n, st1 := w.trips(Vals(m.env, s.bounds)), WalkBlock(fns, bound, comm, s.body, dom, st);
    LoopSound(w, fns, bound, comm, s, n, dom, st, v, m, map_, gone);
    BlockGrows(fns, bound, comm, s.body, dom, st, v + {s.iv} + Elements(s.args));
    BlockFresh(s.body, v + {s.iv} + Elements(s.args));
    YieldFrame(ExecLoop(w, fns, bound, s, n, m), if n == 0 then s.inits else s.carry, s.results, v);
    SoundPast(w, st, st1, BlockDefs(s.body), BlockIds(s.body), dom, v, Visible(s), m, Exec(w, fns, bound, s, m));
  }
}
