/** The duplicate elimination pass on one function: walk, erase what is redundant, then what has become dead. */
module DupPass {
  import opened DupIr
  import opened DupElim
  import opened DupSound
  import opened DupRewrite
  import opened DupSteps
  import opened DupFound

  // ---------- the state of the pass ----------

  function UsedBy(code: Block, rets: seq<Id>): set<Id> { UsedIn(code) + Elements(rets) }

  /** The code is the original with `replaced` replaced and `gone` erased. */
  ghost predicate Rewritten(fn: Fn, replaced: map<Id, Id>, gone: set<nat>, code: Block, rets: seq<Id>) {
    && FnOk(fn) && code == Rewrite(fn.body, replaced, gone) && rets == TranslateAll(replaced, fn.rets)
    && forall x :: x in replaced ==> replaced[x] !in replaced
  }

  /** The stack of candidates and the set of what is on it. */
  ghost predicate QueueOk(candidates: seq<nat>, queued: set<nat>) {
    && (forall i :: 0 <= i < |candidates| ==> candidates[i] in queued)
    && (forall id :: id in queued ==> id in candidates)
    && AllDistinct(candidates)
  }

  ghost predicate HasOp(code: Block, id: nat) { exists o :: o in OpsIn(code) && o.id == id }

  ghost predicate AllThere(code: Block, ids: set<nat>) { forall id :: id in ids ==> HasOp(code, id) }

  /** Trivially dead after having fed an erased operation. */
  ghost predicate Orphan(o: Op, used: set<Id>, redundantSet: set<nat>, fed: set<Id>) {
    o.id !in redundantSet && EffectFree(o) && !(Elements(o.results) !! fed) && Elements(o.results) !! used
  }

  ghost predicate NoneMissed(code: Block, rets: seq<Id>, redundantSet: set<nat>, fed: set<Id>, queued: set<nat>) {
    forall o :: o in OpsIn(code) && Orphan(o, UsedBy(code, rets), redundantSet, fed) ==> o.id in queued
  }

  /** Only the producers of these operands may still have to be queued. */
  ghost predicate OnlyMissing(code: Block, rets: seq<Id>, redundantSet: set<nat>, fed: set<Id>, queued: set<nat>,
          operands: seq<Id>, from: nat)
  {
    forall o :: o in OpsIn(code) && Orphan(o, UsedBy(code, rets), redundantSet, fed) && o.id !in queued ==> exists k ::
      from <= k < |operands| && operands[k] in o.results
  }

  ghost predicate OneDefiner(code: Block) {
    forall o1, o2 :: o1 in OpsIn(code) && o2 in OpsIn(code) && Share(o1, o2) ==> o1 == o2
  }

  lemma CodeOneDefiner(fn: Fn, replaced: map<Id, Id>, gone: set<nat>, code: Block, rets: seq<Id>)
    requires Rewritten(fn, replaced, gone, code, rets)
    ensures OneDefiner(code)
  {
    forall o1, o2 | o1 in OpsIn(code) && o2 in OpsIn(code) && Share(o1, o2) ensures o1 == o2 {
      OriginalOp(fn.body, replaced, gone, o1);
      OriginalOp(fn.body, replaced, gone, o2);
      var a :| a in OpsIn(fn.body) && o1 == a.(operands := TranslateAll(replaced, a.operands));
      var b :| b in OpsIn(fn.body) && o2 == b.(operands := TranslateAll(replaced, b.operands));
      assert Share(a, b);
      OnlyOne(fn.body, Elements(fn.params), a, b);
    }
  }

  lemma CodeHas(fn: Fn, replaced: map<Id, Id>, gone: set<nat>, code: Block, rets: seq<Id>, op: Op)
    requires Rewritten(fn, replaced, gone, code, rets) && op in OpsIn(fn.body) && op.id !in gone
    ensures op.(operands := TranslateAll(replaced, op.operands)) in OpsIn(code) && HasOp(code, op.id)
  {
    RewrittenOp(fn.body, replaced, gone, op);
  }

  // ---------- one replacement ----------

  lemma Replaced(fn: Fn, replaced: map<Id, Id>, gone: set<nat>, code: Block, rets: seq<Id>, x: Id, y: Id)
    requires Rewritten(fn, replaced, gone, code, rets) && x !in replaced && y !in replaced && x != y
    requires forall k :: k in replaced ==> replaced[k] != x
    ensures Rewritten(fn, replaced[x := y], gone, Rewrite(code, map[x := y], {}), TranslateAll(map[x := y], rets))
  {
    ReplaceOne(fn.body, replaced, gone, x, y);
    TranslateTwice(replaced, x, y, fn.rets);
  }

  lemma UnusedReplaced(code: Block, rets: seq<Id>, x: Id, y: Id)
    requires x !in UsedBy(code, rets)
    ensures Rewrite(code, map[x := y], {}) == code && TranslateAll(map[x := y], rets) == rets
  {
    ReplaceUnused(code, x, y);
    UnusedTranslate(x, y, rets);
  }

  /** A value replaced before is not used. */
  lemma ReplacedUnused(fn: Fn, replaced: map<Id, Id>, gone: set<nat>, code: Block, rets: seq<Id>, x: Id)
    requires Rewritten(fn, replaced, gone, code, rets) && x in replaced
    ensures x !in UsedBy(code, rets)
  {
    if x in UsedIn(code) { NoReplacedUse(fn.body, replaced, gone, x); }
    if x in Elements(rets) { TranslatedOnly(replaced, fn.rets, x); }
  }

  /** Replacing a result of a redundant operation makes no other operation dead. */
  lemma ReplaceMisses(code: Block, rets: seq<Id>, redundantSet: set<nat>, fed: set<Id>, queued: set<nat>, op: Op, x: Id,
          y: Id)
    requires NoneMissed(code, rets, redundantSet, fed, queued) && OneDefiner(code)
    requires op in OpsIn(code) && x in op.results && op.id in redundantSet
    ensures NoneMissed(Rewrite(code, map[x := y], {}), TranslateAll(map[x := y], rets), redundantSet, fed, queued)
  {
    var code', rets' := Rewrite(code, map[x := y], {}), TranslateAll(map[x := y], rets);
    forall o | o in OpsIn(code') && Orphan(o, UsedBy(code', rets'), redundantSet, fed) ensures o.id in queued {
      OriginalOp(code, map[x := y], {}, o);
      var o1 :| o1 in OpsIn(code) && o == o1.(operands := TranslateAll(map[x := y], o1.operands));
      assert o1.results == o.results && o1 != op && !Share(o1, op);
      assert x !in o1.results;
      forall u | u in Elements(o1.results) ensures u !in UsedBy(code, rets) {
        assert u in Elements(o.results);
        if u in UsedIn(code) { OtherUses(code, x, y, u); }
        if u in Elements(rets) { TranslatedUses(map[x := y], rets, u); }
      }
      assert Orphan(o1, UsedBy(code, rets), redundantSet, fed);
    }
  }

  lemma ReplaceKeepsThere(code: Block, ids: set<nat>, x: Id, y: Id)
    requires AllThere(code, ids)
    ensures AllThere(Rewrite(code, map[x := y], {}), ids)
  {
    forall id | id in ids ensures HasOp(Rewrite(code, map[x := y], {}), id) {
      var o :| o in OpsIn(code) && o.id == id;
      RewrittenOp(code, map[x := y], {}, o);
    }
  }

  // ---------- one erasure ----------

  lemma Erased(fn: Fn, replaced: map<Id, Id>, gone: set<nat>, code: Block, rets: seq<Id>, id: nat)
    requires Rewritten(fn, replaced, gone, code, rets)
    ensures Rewritten(fn, replaced, gone + {id}, Rewrite(code, map[], {id}), rets)
  {
    EraseOne(fn.body, replaced, gone, id);
  }

  lemma ErasedThere(code: Block, ids: set<nat>, id: nat)
    requires AllThere(code, ids) && id !in ids
    ensures AllThere(Rewrite(code, map[], {id}), ids)
  {
    forall i | i in ids ensures HasOp(Rewrite(code, map[], {id}), i) {
      var o :| o in OpsIn(code) && o.id == i;
      RewrittenOp(code, map[], {id}, o);
    }
  }

  /** What is dead after the erasure and feeds nothing of the erased operation was dead before. */
  lemma OrphanBefore(code: Block, rets: seq<Id>, redundantSet: set<nat>, fed: set<Id>, op: Op, o: Op)
    requires OneDefiner(code) && op in OpsIn(code) && Elements(o.results) !! Elements(op.operands)
    requires Orphan(o, UsedBy(Rewrite(code, map[], {op.id}), rets), redundantSet, fed + Elements(op.operands))
    ensures Orphan(o, UsedBy(code, rets), redundantSet, fed)
  {
    forall e | e in OpsIn(code) && e.id == op.id ensures e == op { assert Share(e, op); }
    forall u | u in UsedIn(code)
      ensures u in UsedIn(Rewrite(code, map[], {op.id})) || u in Elements(op.operands)
    {
      UsesOfErased(code, op.id, u);
    }
  }

  /** Only producers of the erased operation's operands can have become dead. */
  lemma EraseMisses(code: Block, rets: seq<Id>, redundantSet: set<nat>, fed: set<Id>, queued: set<nat>, op: Op)
    requires OneDefiner(code) && op in OpsIn(code)
    requires forall o ::
        o in OpsIn(code) && o.id != op.id && Orphan(o, UsedBy(code, rets), redundantSet, fed) ==> o.id in queued
    ensures OnlyMissing(Rewrite(code, map[], {op.id}), rets, redundantSet, fed + Elements(op.operands), queued,
        op.operands, 0)
  {
    var code' := Rewrite(code, map[], {op.id});
    forall o | o in OpsIn(code') && Orphan(o, UsedBy(code', rets), redundantSet, fed + Elements(op.operands)) &&
      o.id !in queued
      ensures exists k :: 0 <= k < |op.operands| && op.operands[k] in o.results
    {
      OriginalOp(code, map[], {op.id}, o);
      var o1 :| o1 in OpsIn(code) && o == o1.(operands := TranslateAll(map[], o1.operands));
      TranslateNothing(o1.operands);
      assert o1 == o;
      if Elements(o.results) !! Elements(op.operands) {
        OrphanBefore(code, rets, redundantSet, fed, op, o);
      } else {
        var u :| u in Elements(o.results) && u in Elements(op.operands);
        var k :| 0 <= k < |op.operands| && op.operands[k] == u;
      }
    }
  }

  // ---------- the pass ----------

  /** What every replacement and erasure keeps. */
  ghost predicate Consistent(fn: Fn, replaced: map<Id, Id>, gone: set<nat>, code: Block, rets: seq<Id>,
          redundantSet: set<nat>, candidates: seq<nat>, queued: set<nat>)
  {
    Rewritten(fn, replaced, gone, code, rets) && QueueOk(candidates, queued) && AllThere(code, queued) &&
      queued !! redundantSet
  }

  /** Erasing an operation that is not queued. */
  lemma EraseKeeps(fn: Fn, replaced: map<Id, Id>, gone: set<nat>, code: Block, rets: seq<Id>, redundantSet: set<nat>,
          candidates: seq<nat>, queued: set<nat>, fed: set<Id>, op: Op)
    requires Consistent(fn, replaced, gone, code, rets, redundantSet, candidates, queued) && op in OpsIn(code)
    requires op.id !in queued
    requires forall o ::
        o in OpsIn(code) && o.id != op.id && Orphan(o, UsedBy(code, rets), redundantSet, fed) ==> o.id in queued
    ensures var code' := Rewrite(code, map[], {op.id});
            && Consistent(fn, replaced, gone + {op.id}, code', rets, redundantSet, candidates, queued)
            && OnlyMissing(code', rets, redundantSet, fed + Elements(op.operands), queued, op.operands, 0)
  {
    CodeOneDefiner(fn, replaced, gone, code, rets);
    EraseMisses(code, rets, redundantSet, fed, queued, op);
    Erased(fn, replaced, gone, code, rets, op.id);
    ErasedThere(code, queued, op.id);
  }

  lemma OneLessMissing(code: Block, rets: seq<Id>, redundantSet: set<nat>, fed: set<Id>, queued: set<nat>,
          queued': set<nat>, operands: seq<Id>, from: nat)
    requires OnlyMissing(code, rets, redundantSet, fed, queued, operands, from) && from < |operands|
    requires queued <= queued'
    requires forall o :: o in OpsIn(code) && operands[from] in o.results && o.id !in redundantSet ==> o.id in queued'
    ensures OnlyMissing(code, rets, redundantSet, fed, queued', operands, from + 1)
  {}

  lemma NothingMissing(code: Block, rets: seq<Id>, redundantSet: set<nat>, fed: set<Id>, queued: set<nat>,
          operands: seq<Id>)
    requires OnlyMissing(code, rets, redundantSet, fed, queued, operands, |operands|)
    ensures NoneMissed(code, rets, redundantSet, fed, queued)
  {}

  // ---------- the redundant operations, one by one ----------

  /** What the walk found, as the erasing loop relies on it. */
  ghost predicate RedundantOk(fn: Fn, st: Walk) {
    FnOk(fn) && Mapped(st) && NoChains(st) && forall i :: 0 <= i < |st.redundant| ==> st.redundant[i] in OpsIn(fn.body)
  }

  ghost predicate WalkDone(fns: seq<Fn>, comm: set<nat>, fn: Fn, st: Walk) {
    FnOk(fn) && st == WalkBlock(fns, fn.rank, comm, fn.body, {}, StartWalk())
  }

  lemma WalkRedundantOk(fns: seq<Fn>, comm: set<nat>, fn: Fn, st: Walk)
    requires WalkDone(fns, comm, fn, st)
    ensures RedundantOk(fn, st)
  {
    BlockGrows(fns, fn.rank, comm, fn.body, {}, StartWalk(), Elements(fn.params));
    BlockMapped(fns, fn.rank, comm, fn.body, {}, StartWalk(), Elements(fn.params));
  }

  /** The results of the first `i` redundant operations are replaced, and the first `k` of the next. */
  ghost predicate ReplacedUpTo(st: Walk, replaced: map<Id, Id>, i: nat, k: nat) {
    && (forall x :: x in replaced ==> x in st.map_ && replaced[x] == st.map_[x])
    && (forall j, l ::
      0 <= j < i && j < |st.redundant| && 0 <= l < |st.redundant[j].results| ==> st.redundant[j].results[l] in replaced)
    && (i < |st.redundant| ==>
      forall l :: 0 <= l < k && l < |st.redundant[i].results| ==> st.redundant[i].results[l] in replaced)
  }

  ghost predicate ErasedUpTo(st: Walk, gone: set<nat>, i: nat) {
    forall id :: id in gone <==> exists j :: 0 <= j < i && j < |st.redundant| && st.redundant[j].id == id
  }

  lemma StillThere(fn: Fn, st: Walk, replaced: map<Id, Id>, gone: set<nat>, code: Block, rets: seq<Id>, i: nat)
    requires RedundantOk(fn, st) && Rewritten(fn, replaced, gone, code, rets) && ErasedUpTo(st, gone, i)
    requires i < |st.redundant|
    ensures var op := st.redundant[i];
        op.(operands := TranslateAll(replaced, op.operands)) in OpsIn(code) && HasOp(code, op.id)
  {
    CodeHas(fn, replaced, gone, code, rets, st.redundant[i]);
  }

  /** One result of a redundant operation: replaced where it is used. */
  lemma ResultStep(fn: Fn, st: Walk, replaced: map<Id, Id>, gone: set<nat>, code: Block, rets: seq<Id>,
          redundantSet: set<nat>, candidates: seq<nat>, queued: set<nat>, fed: set<Id>, i: nat, k: nat)
    requires RedundantOk(fn, st) && Consistent(fn, replaced, gone, code, rets, redundantSet, candidates, queued)
    requires NoneMissed(code, rets, redundantSet, fed, queued)
    requires i < |st.redundant| && k < |st.redundant[i].results| && ErasedUpTo(st, gone, i)
    requires ReplacedUpTo(st, replaced, i, k) && st.redundant[i].id in redundantSet
    ensures st.redundant[i].results[k] in st.map_
    ensures var x := st.redundant[i].results[k];
            var y := st.map_[x];
            var code' := if x in UsedBy(code, rets) then Rewrite(code, map[x := y], {}) else code;
            var rets' := if x in UsedBy(code, rets) then TranslateAll(map[x := y], rets) else rets;
            && Consistent(fn, replaced[x := y], gone, code', rets', redundantSet, candidates, queued)
            && NoneMissed(code', rets', redundantSet, fed, queued)
            && ReplacedUpTo(st, replaced[x := y], i, k + 1)
  {
    hide OpsIn, UsedIn, Rewrite, FnOk, Orphan;
    var op := st.redundant[i];
    var x := op.results[k];
    assert op in st.redundant && x in op.results;
    var y := st.map_[x];
    if x in replaced {
      ReplacedUnused(fn, replaced, gone, code, rets, x);
      assert replaced[x := y] == replaced;
    } else {
      Replaced(fn, replaced, gone, code, rets, x, y);
      if x in UsedBy(code, rets) {
        CodeOneDefiner(fn, replaced, gone, code, rets);
        StillThere(fn, st, replaced, gone, code, rets, i);
        ReplaceMisses(code, rets, redundantSet, fed, queued, op.(operands := TranslateAll(replaced, op.operands)), x,
          y);
        ReplaceKeepsThere(code, queued, x, y);
      } else {
        UnusedReplaced(code, rets, x, y);
      }
    }
  }

  lemma OpStep(st: Walk, replaced: map<Id, Id>, gone: set<nat>, i: nat)
    requires i < |st.redundant| && ErasedUpTo(st, gone, i) && ReplacedUpTo(st, replaced, i, |st.redundant[i].results|)
    ensures ErasedUpTo(st, gone + {st.redundant[i].id}, i + 1) && ReplacedUpTo(st, replaced, i + 1, 0)
  {
    var gone' := gone + {st.redundant[i].id};
    forall id ensures id in gone' <==> exists j :: 0 <= j < i + 1 && j < |st.redundant| && st.redundant[j].id == id {
      if id in gone { var j :| 0 <= j < i && j < |st.redundant| && st.redundant[j].id == id; }
    }
  }

  lemma ConsistentIs(fn: Fn, replaced: map<Id, Id>, gone: set<nat>, code: Block, rets: seq<Id>, redundantSet: set<nat>,
          candidates: seq<nat>, queued: set<nat>)
    requires Consistent(fn, replaced, gone, code, rets, redundantSet, candidates, queued)
    ensures Rewritten(fn, replaced, gone, code, rets) && QueueOk(candidates, queued) && queued !! redundantSet
  {}

  lemma NoneMissedBut(code: Block, rets: seq<Id>, redundantSet: set<nat>, fed: set<Id>, queued: set<nat>, id: nat)
    requires NoneMissed(code, rets, redundantSet, fed, queued)
    ensures forall o ::
        o in OpsIn(code) && o.id != id && Orphan(o, UsedBy(code, rets), redundantSet, fed) ==> o.id in queued
  {}

  function IdsOf(ops: seq<Op>): set<nat> { set op | op in ops :: op.id }

  /** Nothing left uses what was erased. */
  ghost predicate Clean(fn: Fn, gone: set<nat>, code: Block, rets: seq<Id>) {
    UsedBy(code, rets) !! LostIn(fn.body, gone)
  }

  /** After the last redundant operation: everything mapped is replaced, and nothing uses what is gone. */
  lemma AllErased(fn: Fn, st: Walk, replaced: map<Id, Id>, gone: set<nat>, code: Block, rets: seq<Id>)
    requires RedundantOk(fn, st) && Rewritten(fn, replaced, gone, code, rets) && ErasedUpTo(st, gone, |st.redundant|)
    requires ReplacedUpTo(st, replaced, |st.redundant|, 0)
    ensures replaced == st.map_ && gone == IdsOf(st.redundant) && Clean(fn, gone, code, rets)
  {
    forall x | x in st.map_ ensures x in replaced {
      assert InResults(st.redundant, x);
      var op :| op in st.redundant && x in op.results;
      var j :| 0 <= j < |st.redundant| && st.redundant[j] == op;
      var l :| 0 <= l < |op.results| && op.results[l] == x;
      assert st.redundant[j].results[l] in replaced;
    }
    forall id | id in IdsOf(st.redundant) ensures id in gone {
      var op :| op in st.redundant && op.id == id;
      var j :| 0 <= j < |st.redundant| && st.redundant[j] == op;
    }
    forall x | x in LostIn(fn.body, gone) ensures x !in UsedBy(code, rets) {
      LostIs(fn.body, gone, x);
      var op :| op in OpsIn(fn.body) && op.id in gone && x in op.results;
      var j :| 0 <= j < |st.redundant| && st.redundant[j].id == op.id;
      assert Share(op, st.redundant[j]);
      OnlyOne(fn.body, Elements(fn.params), op, st.redundant[j]);
      assert st.redundant[j] in st.redundant;
      ReplacedUnused(fn, replaced, gone, code, rets, x);
    }
  }

  // ---------- dead producers ----------

  lemma Popped(fn: Fn, replaced: map<Id, Id>, gone: set<nat>, code: Block, rets: seq<Id>, redundantSet: set<nat>,
          candidates: seq<nat>, queued: set<nat>)
    requires Consistent(fn, replaced, gone, code, rets, redundantSet, candidates, queued) && candidates != []
    ensures var id := candidates[|candidates| - 1];
            && Consistent(fn, replaced, gone, code, rets, redundantSet, candidates[..|candidates| - 1],
              queued - {id}) && HasOp(code, id) && id !in redundantSet
  {
    var n := |candidates| - 1;
    forall id | id in queued - {candidates[n]} ensures id in candidates[..n] {
      var j :| 0 <= j < |candidates| && candidates[j] == id;
      assert candidates[..n][j] == id;
    }
  }

  predicate TriviallyDead(op: Op, used: set<Id>) { EffectFree(op) && Elements(op.results) !! used }

  lemma PoppedMisses(code: Block, rets: seq<Id>, redundantSet: set<nat>, fed: set<Id>, queued: set<nat>, op: Op)
    requires NoneMissed(code, rets, redundantSet, fed, queued) && OneDefiner(code) && op in OpsIn(code)
    ensures forall o ::
        o in OpsIn(code) && o.id != op.id && Orphan(o, UsedBy(code, rets), redundantSet, fed) ==>
        o.id in queued - {op.id}
    ensures !TriviallyDead(op, UsedBy(code, rets)) ==> NoneMissed(code, rets, redundantSet, fed, queued - {op.id})
  {
    forall o | o in OpsIn(code) && o.id == op.id ensures o == op { assert Share(o, op); }
  }

  /** Erasing an unused operation without effects leaves nothing that uses it. */
  lemma DeadStep(fn: Fn, replaced: map<Id, Id>, gone: set<nat>, code: Block, rets: seq<Id>, redundantSet: set<nat>,
          op: Op)
    requires Rewritten(fn, replaced, gone, code, rets) && Clean(fn, gone, code, rets)
    requires GoneOk(OpsIn(fn.body), redundantSet, gone)
    requires op in OpsIn(code) && TriviallyDead(op, UsedBy(code, rets))
    ensures Clean(fn, gone + {op.id}, Rewrite(code, map[], {op.id}), rets)
    ensures GoneOk(OpsIn(fn.body), redundantSet, gone + {op.id})
    ensures op.id in BlockIds(fn.body) - gone
  {
    OriginalOp(fn.body, replaced, gone, op);
    var o :| o in OpsIn(fn.body) && op == o.(operands := TranslateAll(replaced, o.operands));
    IdsOfOps(fn.body);
    forall e | e in OpsIn(fn.body) && e.id == op.id ensures e == o {
      assert Share(e, o);
      OnlyOne(fn.body, Elements(fn.params), e, o);
    }
    EraseOne(fn.body, replaced, gone, op.id);
    FewerUses(fn.body, replaced, gone, gone + {op.id});
    forall x | x in LostIn(fn.body, gone + {op.id}) ensures x !in UsedBy(Rewrite(code, map[], {op.id}), rets) {
      LostIs(fn.body, gone + {op.id}, x);
      LostIs(fn.body, gone, x);
      var e :| e in OpsIn(fn.body) && e.id in gone + {op.id} && x in e.results;
      if e.id !in gone { assert x in Elements(op.results); }
    }
  }

  // ---------- the result ----------

  lemma ResultRuns(w: World, fns: seq<Fn>, comm: set<nat>, fn: Fn, st: Walk, gone: set<nat>, code: Block, rets: seq<Id>,
          vals: seq<int>, mem: int, it: seq<nat>)
    requires WalkDone(fns, comm, fn, st) && Commutes(w, comm) && Rewritten(fn, st.map_, gone, code, rets)
    requires Clean(fn, gone, code, rets)
    requires IdsOf(st.redundant) <= gone && GoneOk(OpsIn(fn.body), IdsOf(st.redundant), gone)
    ensures SameRun(w, fns, fn, fn.(body := code, rets := rets), vals, mem, it)
  {
    var lost, redundant := LostIn(fn.body, gone), IdsOf(st.redundant);
    forall x | x in lost ensures x in BlockDefs(fn.body) {
      LostIs(fn.body, gone, x);
      ResultsDefined(fn.body);
    }
    forall id | id in BlockIds(fn.body) ensures id in redundant <==> exists op :: op in st.redundant && op.id == id {}
    BlockOk(fns, fn.rank, comm, fn.body, {}, StartWalk(), Elements(fn.params), st.map_, redundant, gone, lost);
    NotLost(st.map_, lost, fn.rets);
    RunsAgree(w, fns, comm, fn, redundant, gone, lost, vals, mem, it);
  }

  /** A value that an operation reads, as it is written or as it was replaced. */
  ghost predicate ReadBy(op: Op, map_: map<Id, Id>, x: Id) {
    exists y :: y in op.operands && (x == y || (y in map_ && x == map_[y]))
  }

  ghost predicate FeedsOp(op: Op, fed: set<Id>) { exists x :: x in op.results && x in fed }

  ghost predicate WasRead(fn: Fn, map_: map<Id, Id>, gone: set<nat>, x: Id) {
    exists op :: op in OpsIn(fn.body) && op.id in gone && ReadBy(op, map_, x)
  }

  /** Besides what is redundant, only producers of values that erased operations read are erased or queued. */
  ghost predicate OnlyProducers(fn: Fn, map_: map<Id, Id>, redundantSet: set<nat>, gone: set<nat>, fed: set<Id>,
          queued: set<nat>)
  {
    && (forall op :: op in OpsIn(fn.body) && op.id in gone && op.id !in redundantSet ==> FeedsOp(op, fed))
    && (forall op :: op in OpsIn(fn.body) && op.id in queued ==> FeedsOp(op, fed))
    && forall x :: x in fed ==> WasRead(fn, map_, gone, x)
  }

  ghost predicate PartOf(replaced: map<Id, Id>, map_: map<Id, Id>) {
    forall x :: x in replaced ==> x in map_ && replaced[x] == map_[x]
  }

  /** Erasing an operation and taking note of its operands. */
  lemma ProducersErased(fn: Fn, map_: map<Id, Id>, replaced: map<Id, Id>, gone: set<nat>, code: Block, rets: seq<Id>,
          redundantSet: set<nat>, fed: set<Id>, queued: set<nat>, op: Op)
    requires Rewritten(fn, replaced, gone, code, rets) && OnlyProducers(fn, map_, redundantSet, gone, fed, queued)
    requires op in OpsIn(code) && PartOf(replaced, map_) && (op.id in redundantSet || FeedsOp(op, fed))
    ensures OnlyProducers(fn, map_, redundantSet, gone + {op.id}, fed + Elements(op.operands), queued)
  {
    OriginalOp(fn.body, replaced, gone, op);
    var o :| o in OpsIn(fn.body) && op == o.(operands := TranslateAll(replaced, o.operands));
    var gone', fed' := gone + {op.id}, fed + Elements(op.operands);
    forall e | e in OpsIn(fn.body) && e.id == op.id ensures e.results == op.results {
      assert Share(e, o);
      OnlyOne(fn.body, Elements(fn.params), e, o);
    }
    forall e | e in OpsIn(fn.body) && FeedsOp(e, fed) ensures FeedsOp(e, fed') {}
    forall x | x in fed' ensures WasRead(fn, map_, gone', x) {
      if x in fed {
        var e :| e in OpsIn(fn.body) && e.id in gone && ReadBy(e, map_, x);
        assert e.id in gone';
      } else {
        var k :| 0 <= k < |op.operands| && op.operands[k] == x;
        assert op.operands[k] == Translate(replaced, o.operands[k]) && o.operands[k] in o.operands;
        assert ReadBy(o, map_, x);
      }
    }
  }

  /** Queueing the producer of a value that was read. */
  lemma ProducersQueued(fn: Fn, map_: map<Id, Id>, replaced: map<Id, Id>, gone: set<nat>, code: Block, rets: seq<Id>,
          redundantSet: set<nat>, fed: set<Id>, queued: set<nat>, queued': set<nat>, value: Id)
    requires Rewritten(fn, replaced, gone, code, rets) && OnlyProducers(fn, map_, redundantSet, gone, fed, queued)
    requires value in fed && forall id :: id in queued' && id !in queued ==>
        exists o :: o in OpsIn(code) && o.id == id && value in o.results
    ensures OnlyProducers(fn, map_, redundantSet, gone, fed, queued')
  {
    forall op | op in OpsIn(fn.body) && op.id in queued' ensures FeedsOp(op, fed) {
      if op.id !in queued {
        var o :| o in OpsIn(code) && o.id == op.id && value in o.results;
        OriginalOp(fn.body, replaced, gone, o);
        var e :| e in OpsIn(fn.body) && o == e.(operands := TranslateAll(replaced, e.operands));
        assert Share(op, e);
        OnlyOne(fn.body, Elements(fn.params), op, e);
      }
    }
  }

  lemma ProducersLess(fn: Fn, map_: map<Id, Id>, redundantSet: set<nat>, gone: set<nat>, fed: set<Id>, queued: set<nat>,
          queued': set<nat>)
    requires OnlyProducers(fn, map_, redundantSet, gone, fed, queued) && queued' <= queued
    ensures OnlyProducers(fn, map_, redundantSet, gone, fed, queued')
  {}

  /** What is taken from the queue feeds what was erased. */
  lemma ProducerPopped(fn: Fn, map_: map<Id, Id>, replaced: map<Id, Id>, gone: set<nat>, code: Block, rets: seq<Id>,
          redundantSet: set<nat>, fed: set<Id>, queued: set<nat>, op: Op)
    requires Rewritten(fn, replaced, gone, code, rets) && OnlyProducers(fn, map_, redundantSet, gone, fed, queued)
    requires op in OpsIn(code) && op.id in queued
    ensures FeedsOp(op, fed)
  {
    OriginalOp(fn.body, replaced, gone, op);
    var o :| o in OpsIn(fn.body) && op == o.(operands := TranslateAll(replaced, o.operands));
    assert FeedsOp(o, fed);
  }

  lemma ReplacedPart(st: Walk, replaced: map<Id, Id>, i: nat, k: nat)
    requires ReplacedUpTo(st, replaced, i, k)
    ensures PartOf(replaced, st.map_)
  {}

  /** Nothing unnecessary and no duplicate is left, and the results of a duplicate are replaced by those of its
      first. */
  ghost predicate AllRedundantGone(fns: seq<Fn>, comm: set<nat>, fn: Fn, map_: map<Id, Id>, gone: set<nat>) {
    forall op :: op in Walked(fn.body) ==>
      (Unnecessary(fns, fn.rank, op) ==> op.id in gone) &&
      (Duplicate(SearchIn(fns, comm, fn, map_), fn.body, op) ==>
        op.id in gone && (Unnecessary(fns, fn.rank, op) || Follows(SearchIn(fns, comm, fn, map_), op)))
  }

  lemma FoundGone(fns: seq<Fn>, comm: set<nat>, fn: Fn, st: Walk, gone: set<nat>)
    requires WalkDone(fns, comm, fn, st) && IdsOf(st.redundant) <= gone
    ensures AllRedundantGone(fns, comm, fn, st.map_, gone)
  {
    hide WalkBlock, FnOk, Unnecessary, Duplicate, Follows, Walked;
    FnFound(fns, comm, fn, st);
    forall op | op in st.redundant ensures op.id in gone { assert op.id in IdsOf(st.redundant); }
  }

  lemma GoneFromCode(b: Block, map_: map<Id, Id>, gone: set<nat>)
    ensures forall o :: o in Walked(Rewrite(b, map_, gone)) ==> o.id !in gone && IsOriginal(OpsIn(b), map_, gone, o)
  {
    WalkedOps(Rewrite(b, map_, gone));
    forall o | o in Walked(Rewrite(b, map_, gone)) ensures o.id !in gone && IsOriginal(OpsIn(b), map_, gone, o) {
      OriginalOp(b, map_, gone, o);
    }
  }

  class Elimination {
    const fns: seq<Fn>
    const comm: set<nat>
    const fn: Fn
    var map_: map<Id, Id>
    var redundantOps: seq<Op>
    var uniqueOps: seq<Entry>
    var redundantOpSet: set<nat>
    var deadOpCandidates: seq<nat>
    var queuedDeadOps: set<nat>
    var code: Block
    var rets: seq<Id>
    ghost var gone: set<nat>
    ghost var replaced: map<Id, Id>
    ghost var fed: set<Id>

    constructor (fns: seq<Fn>, comm: set<nat>, fn: Fn)
      ensures this.fns == fns && this.comm == comm && this.fn == fn && Found() == StartWalk()
      ensures code == fn.body && rets == fn.rets && deadOpCandidates == [] && queuedDeadOps == {} && gone == {}
      ensures replaced == map[] && fed == {}
    {
      this.fns, this.comm, this.fn := fns, comm, fn;
      map_, redundantOps, uniqueOps, redundantOpSet, deadOpCandidates, queuedDeadOps := map[], [], [], {}, [], {};
      code, rets := fn.body, fn.rets;
      gone, replaced, fed := {}, map[], {};
    }

    function Found(): Walk
      reads this
    {
      Walk(map_, uniqueOps, redundantOps)
    }

    ghost predicate Valid()
      reads this
    {
      Consistent(fn, replaced, gone, code, rets, redundantOpSet, deadOpCandidates, queuedDeadOps)
    }

    ghost predicate Sparing()
      reads this
    {
      OnlyProducers(fn, map_, redundantOpSet, gone, fed, queuedDeadOps)
    }

    method VisitOp(op: Op, dom: set<nat>)
      modifies this`map_, this`redundantOps, this`uniqueOps
      ensures Found() == WalkOp(fns, fn.rank, comm, op, dom, old(Found()))
    {
      if Unnecessary(fns, fn.rank, op) {
        redundantOps := redundantOps + [op];
      } else if IsCandidate(op) {
        var operands := TranslateAll(map_, op.operands);
        var it := Find(comm, uniqueOps, op, operands);
        if it.Some? && it.value.op.id in dom {
          redundantOps := redundantOps + [op];
          var results, opNum := it.value.op.results, 0;
          while opNum < |op.results|
            invariant opNum <= |op.results| && map_ == MapResults(old(map_), op.results[..opNum], results[..opNum])
            invariant redundantOps == old(redundantOps) + [op] && uniqueOps == old(uniqueOps)
          {
            var next := opNum + 1;
            assert op.results[..next][..opNum] == op.results[..opNum] && results[..next][..opNum] == results[..opNum];
            map_ := map_[op.results[opNum] := results[opNum]];
            opNum := next;
          }
          assert op.results[..opNum] == op.results && results[..opNum] == results;
        } else if it.None? {
          uniqueOps := uniqueOps + [Entry(op, operands)];
        }
      }
    }

    method VisitStmt(s: Stmt, dom: set<nat>)
      modifies this`map_, this`redundantOps, this`uniqueOps
      ensures Found() == WalkStmt(fns, fn.rank, comm, s, dom, old(Found()))
      decreases StmtSize(s)
    {
      match s {
        case Do(op) => VisitOp(op, dom);
        case If(_, thenB, _, elseB, _, _) => VisitBlock(thenB, dom); VisitBlock(elseB, dom);
        case For(_, _, _, _, body, _, _) => VisitBlock(body, dom);
      }
    }

    method VisitBlock(b: Block, dom: set<nat>)
      modifies this`map_, this`redundantOps, this`uniqueOps
      ensures Found() == WalkBlock(fns, fn.rank, comm, b, dom, old(Found()))
      decreases Size(b)
    {
      if b.Cons? {
        VisitStmt(b.head, dom);
        VisitBlock(b.tail, dom + StmtId(b.head));
      }
    }

    /** The operation with this identity, as it stands in the code. */
    method OpById(id: nat) returns (op: Op)
      requires HasOp(code, id)
      ensures op in OpsIn(code) && op.id == id
    {
      op :| op in OpsIn(code) && op.id == id;
    }

    method EnqueueDeadOpCandidate(value: Id)
      requires Valid()
      modifies this`deadOpCandidates, this`queuedDeadOps
      ensures Valid() && old(queuedDeadOps) <= queuedDeadOps
      ensures forall o :: o in OpsIn(code) && value in o.results && o.id !in redundantOpSet ==> o.id in queuedDeadOps
      ensures old(Sparing()) && value in fed ==> Sparing()
    {
      hide OnlyProducers;
      CodeOneDefiner(fn, replaced, gone, code, rets);
      if definingOp :| definingOp in OpsIn(code) && value in definingOp.results {
        if definingOp.id !in redundantOpSet && definingOp.id !in queuedDeadOps {
          queuedDeadOps := queuedDeadOps + {definingOp.id};
          deadOpCandidates := deadOpCandidates + [definingOp.id];
          assert deadOpCandidates[|deadOpCandidates| - 1] == definingOp.id;
          assert forall id :: id in old(deadOpCandidates) ==> id in deadOpCandidates;
        }
        forall o | o in OpsIn(code) && value in o.results ensures o == definingOp {
          assert Share(o, definingOp);
        }
        if old(Sparing()) && value in fed {
          ProducersQueued(fn, map_, replaced, gone, code, rets, redundantOpSet, fed, old(queuedDeadOps), queuedDeadOps,
            value);
        }
      }
    }

    /** Takes an operation out of the code and queues the producers of its operands. */
    method EraseOp(op: Op)
      requires Valid() && op in OpsIn(code) && op.id !in queuedDeadOps
      requires forall o ::
          o in OpsIn(code) && o.id != op.id && Orphan(o, UsedBy(code, rets), redundantOpSet, fed) ==>
          o.id in queuedDeadOps
      requires Sparing() && PartOf(replaced, map_) && (op.id in redundantOpSet || FeedsOp(op, fed))
      modifies this`code, this`deadOpCandidates, this`queuedDeadOps, this`gone, this`fed
      ensures Valid() && gone == old(gone) + {op.id} && code == Rewrite(old(code), map[], {op.id})
      ensures fed == old(fed) + Elements(op.operands)
      ensures NoneMissed(code, rets, redundantOpSet, fed, queuedDeadOps) && Sparing()
    {
      hide Consistent, OnlyMissing, NoneMissed, Orphan, OpsIn, UsedIn, Rewrite, OnlyProducers, FeedsOp, PartOf;
      ConsistentIs(fn, replaced, gone, code, rets, redundantOpSet, deadOpCandidates, queuedDeadOps);
      ProducersErased(fn, map_, replaced, gone, code, rets, redundantOpSet, fed, queuedDeadOps, op);
      EraseKeeps(fn, replaced, gone, code, rets, redundantOpSet, deadOpCandidates, queuedDeadOps, fed, op);
      code := Rewrite(code, map[], {op.id});
      gone := gone + {op.id};
      fed := fed + Elements(op.operands);
      ghost var code0, gone0, fed0 := code, gone, fed;
      var i := 0;
      while i < |op.operands|
        invariant i <= |op.operands| && code == code0 && gone == gone0 && fed == fed0
        invariant Valid() && OnlyMissing(code, rets, redundantOpSet, fed, queuedDeadOps, op.operands, i) && Sparing()
      {
        ghost var queued := queuedDeadOps;
        assert op.operands[i] in Elements(op.operands);
        EnqueueDeadOpCandidate(op.operands[i]);
        OneLessMissing(code, rets, redundantOpSet, fed, queued, queuedDeadOps, op.operands, i);
        i := i + 1;
      }
      NothingMissing(code, rets, redundantOpSet, fed, queuedDeadOps, op.operands);
    }

    /** Redundant operation `i`: its used results replaced, then erased. */
    method EraseRedundantOp(i: nat)
      requires Valid() && NoneMissed(code, rets, redundantOpSet, fed, queuedDeadOps) && i < |redundantOps|
      requires redundantOps[i].id in redundantOpSet && Sparing()
      requires RedundantOk(fn, Found()) && ErasedUpTo(Found(), gone, i) && ReplacedUpTo(Found(), replaced, i, 0)
      modifies this`code, this`rets, this`deadOpCandidates, this`queuedDeadOps, this`gone, this`fed, this`replaced
      ensures Valid() && NoneMissed(code, rets, redundantOpSet, fed, queuedDeadOps)
      ensures ErasedUpTo(Found(), gone, i + 1) && ReplacedUpTo(Found(), replaced, i + 1, 0) && Sparing()
    {
      hide Consistent, NoneMissed, ErasedUpTo, ReplacedUpTo, RedundantOk, OpsIn, UsedIn, Rewrite, Orphan, OnlyProducers,
          PartOf;
      var op := redundantOps[i];
      var k := 0;
      while k < |op.results|
        invariant k <= |op.results| && Valid() && NoneMissed(code, rets, redundantOpSet, fed, queuedDeadOps)
        invariant ErasedUpTo(Found(), gone, i) && ReplacedUpTo(Found(), replaced, i, k) && Sparing()
      {
        var result := op.results[k];
        ResultStep(fn, Found(), replaced, gone, code, rets, redundantOpSet, deadOpCandidates, queuedDeadOps, fed, i, k);
        if result in UsedBy(code, rets) {
          code, rets := Rewrite(code, map[result := map_[result]], {}), TranslateAll(map[result := map_[result]], rets);
        }
        replaced := replaced[result := map_[result]];
        k := k + 1;
      }
      ConsistentIs(fn, replaced, gone, code, rets, redundantOpSet, deadOpCandidates, queuedDeadOps);
      StillThere(fn, Found(), replaced, gone, code, rets, i);
      NoneMissedBut(code, rets, redundantOpSet, fed, queuedDeadOps, op.id);
      ReplacedPart(Found(), replaced, i, k);
      OpStep(Found(), replaced, gone, i);
      var current := OpById(op.id);
      EraseOp(current);
    }

    method EraseRedundantOps()
      requires Valid() && NoneMissed(code, rets, redundantOpSet, fed, queuedDeadOps)
      requires redundantOpSet == IdsOf(redundantOps) && Sparing()
      requires RedundantOk(fn, Found()) && gone == {} && replaced == map[]
      modifies this`code, this`rets, this`deadOpCandidates, this`queuedDeadOps, this`gone, this`fed, this`replaced
      ensures Valid() && NoneMissed(code, rets, redundantOpSet, fed, queuedDeadOps)
      ensures replaced == map_ && gone == redundantOpSet && Clean(fn, gone, code, rets) && Sparing()
    {
      hide Consistent, NoneMissed, RedundantOk, OpsIn, UsedIn, Rewrite, Orphan, OnlyProducers;
      var i := 0;
      while i < |redundantOps|
        invariant i <= |redundantOps| && Valid() && NoneMissed(code, rets, redundantOpSet, fed, queuedDeadOps)
        invariant ErasedUpTo(Found(), gone, i) && ReplacedUpTo(Found(), replaced, i, 0) && Sparing()
      {
        EraseRedundantOp(i);
        i := i + 1;
      }
      ConsistentIs(fn, replaced, gone, code, rets, redundantOpSet, deadOpCandidates, queuedDeadOps);
      AllErased(fn, Found(), replaced, gone, code, rets);
    }

    /** Producers that have become dead, until none is left. */
    method EraseDeadOps()
      requires Valid() && NoneMissed(code, rets, redundantOpSet, fed, queuedDeadOps)
      requires Clean(fn, gone, code, rets) && GoneOk(OpsIn(fn.body), redundantOpSet, gone)
      requires Sparing() && PartOf(replaced, map_)
      modifies this`code, this`deadOpCandidates, this`queuedDeadOps, this`gone, this`fed
      ensures Valid() && NoneMissed(code, rets, redundantOpSet, fed, {}) && old(gone) <= gone
      ensures Clean(fn, gone, code, rets) && GoneOk(OpsIn(fn.body), redundantOpSet, gone) && Sparing()
    {
      hide Consistent, NoneMissed, OpsIn, UsedIn, Rewrite, Orphan, Clean, GoneOk, OnlyProducers, FeedsOp, PartOf;
      while deadOpCandidates != []
        invariant Valid() && NoneMissed(code, rets, redundantOpSet, fed, queuedDeadOps) && old(gone) <= gone
        invariant Clean(fn, gone, code, rets) && GoneOk(OpsIn(fn.body), redundantOpSet, gone) && Sparing()
        decreases BlockIds(fn.body) - gone, |deadOpCandidates|
      {
        Popped(fn, replaced, gone, code, rets, redundantOpSet, deadOpCandidates, queuedDeadOps);
        ConsistentIs(fn, replaced, gone, code, rets, redundantOpSet, deadOpCandidates, queuedDeadOps);
        CodeOneDefiner(fn, replaced, gone, code, rets);
        var n := |deadOpCandidates| - 1;
        var op := OpById(deadOpCandidates[n]);
        PoppedMisses(code, rets, redundantOpSet, fed, queuedDeadOps, op);
        ProducerPopped(fn, map_, replaced, gone, code, rets, redundantOpSet, fed, queuedDeadOps, op);
        ProducersLess(fn, map_, redundantOpSet, gone, fed, queuedDeadOps, queuedDeadOps - {op.id});
        deadOpCandidates, queuedDeadOps := deadOpCandidates[..n], queuedDeadOps - {op.id};
        if TriviallyDead(op, UsedBy(code, rets)) {
          DeadStep(fn, replaced, gone, code, rets, redundantOpSet, op);
          EraseOp(op);
        }
      }
      ConsistentIs(fn, replaced, gone, code, rets, redundantOpSet, deadOpCandidates, queuedDeadOps);
      assert queuedDeadOps == {};
    }

    /** The result accepts the same assignments, leaves the same memory and returns the same values on every run. */
    method RunOnFunc() returns (result: Fn)
      requires FnOk(fn) && Found() == StartWalk() && code == fn.body && rets == fn.rets
      requires deadOpCandidates == [] && queuedDeadOps == {} && gone == {} && replaced == map[] && fed == {}
      modifies this
      ensures result == fn.(body := Rewrite(fn.body, map_, gone), rets := TranslateAll(map_, fn.rets))
      ensures WalkDone(fns, comm, fn, Found()) && redundantOpSet == IdsOf(redundantOps) && redundantOpSet <= gone
      ensures GoneOk(OpsIn(fn.body), redundantOpSet, gone)
      ensures NoneMissed(result.body, result.rets, redundantOpSet, fed, {}) && Clean(fn, gone, result.body, result.rets)
      ensures forall w, vals, mem, it :: Commutes(w, comm) ==> SameRun(w, fns, fn, result, vals, mem, it)
      ensures AllRedundantGone(fns, comm, fn, map_, gone) && OnlyProducers(fn, map_, redundantOpSet, gone, fed, {})
      ensures forall op :: op in Walked(fn.body) ==> (op in redundantOps <==>
          Unnecessary(fns, fn.rank, op) || Duplicate(SearchIn(fns, comm, fn, map_), fn.body, op))
      ensures forall o :: o in Walked(result.body) ==> o.id !in gone
    {
      VisitBlock(fn.body, {});
      redundantOpSet := IdsOf(redundantOps);
      WalkRedundantOk(fns, comm, fn, Found());
      RewriteNothing(fn.body);
      TranslateNothing(fn.rets);
      EraseRedundantOps();
      EraseDeadOps();
      ConsistentIs(fn, replaced, gone, code, rets, redundantOpSet, deadOpCandidates, queuedDeadOps);
      result := fn.(body := code, rets := rets);
      forall w, vals, mem, it | Commutes(w, comm) ensures SameRun(w, fns, fn, result, vals, mem, it) {
        ResultRuns(w, fns, comm, fn, Found(), gone, code, rets, vals, mem, it);
      }
      FnFound(fns, comm, fn, Found());
      FoundGone(fns, comm, fn, Found(), gone);
      GoneFromCode(fn.body, map_, gone);
    }
  }
}
