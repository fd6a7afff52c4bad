/** Read/write elimination on one block: collect what is known, then replace and erase in place. */
module ReadWriteElim {
  import opened MemoryIr
  import opened KnownFacts
  import opened ReadWriteFacts
  import opened EliminationCorrect

  class Eliminator {
    const base: nat
    const prog: seq<Op>
    var known: map<Place, Node>
    var globals: map<nat, Id>
    var ram: map<Address, Id>
    var replacementMap: map<Id, Id>
    var readVals: seq<Id>
    var redundantWrites: seq<nat>
    var code: seq<Option<Op>>
    ghost var same: set<nat>
    ghost var dead: map<nat, nat>

    ghost function St(): Facts
      reads this
    {
      Facts(known, globals, ram, replacementMap, readVals, redundantWrites, same, dead)
    }

    constructor (base: nat, prog: seq<Op>)
      ensures this.base == base && this.prog == prog && St() == Start() && code == Whole(prog)
    {
      this.base, this.prog, code := base, prog, Whole(prog);
      known, globals, ram, replacementMap, readVals, redundantWrites := map[], map[], map[], map[], [], [];
      same, dead := {}, map[];
    }

    /** A read of a member or an element: the known content, or from now on this value. */
    method DoReadLike(res: Id, p: Place)
      requires p in known ==> known[p].stored != res
      modifies this
      ensures St() == AfterRead(old(St()), res, p) && code == old(code)
    {
      if p !in known {
        known := known[p := Node(res, None)];
      }
      if known[p].stored != res {
        replacementMap := replacementMap[res := known[p].stored];
      }
      readVals := readVals + [res];
    }

    /** A write to a member or an element: drop what may alias it, then compare with the known content. */
    method DoWriteLike(i: nat, p: Place, newVal: Id)
      modifies this
      ensures St() == AfterWrite(old(St()), i, p, newVal) && code == old(code)
    {
      var aliases := MayAlias(known, p);
      known := known - aliases;
      if aliases != {} && p in known {
        known := known[p := known[p].(lastWrite := None)];
      }
      if p in known && known[p].stored == newVal {
        redundantWrites := redundantWrites + [i];
        same := same + {i};
      } else {
        if p in known && known[p].lastWrite.Some? {
          redundantWrites := redundantWrites + [known[p].lastWrite.value];
          dead := dead[known[p].lastWrite.value := i];
        }
        known := known[p := Node(newVal, Some(i))];
      }
    }

    /** Every element of a new array is known by its constant index. */
    method DoNewArray(res: Id, elems: seq<Id>)
      modifies this
      ensures St() == old(St()).(known := WithElements(old(known), res, TranslateAll(replacementMap, elems), |elems|),
          readVals := old(readVals) + [res])
      ensures code == old(code)
    {
      var k := 0;
      while k < |elems|
        invariant 0 <= k <= |elems|
        invariant St() == old(St()).(known := WithElements(old(known), res, TranslateAll(replacementMap, elems), k))
        invariant code == old(code)
      {
        known := known[ElemPlace(res, k) := Node(Translate(replacementMap, elems[k]), None)];
        k := k + 1;
      }
      readVals := readVals + [res];
    }

    method RunOperation(i: nat)
      requires i < |prog| && Good(base, prog, i, St())
      modifies this
      ensures St() == After(base, prog, i, old(St())) && code == old(code)
    {
      hide Good, PlaceOf;
      var op, res := prog[i], base + i;
      StoredEarlier(base, prog, i, St());
      match op {
        case ReadGlobal(name) =>
          if name in globals {
            replacementMap := replacementMap[res := globals[name]];
          } else {
            globals := globals[name := res];
          }
          readVals := readVals + [res];
        case WriteGlobal(name, val) =>
          globals := globals[name := Translate(replacementMap, val)];
        case Load(addr) =>
          var a := AddressOf(base, prog, Translate(replacementMap, addr));
          if a in ram {
            replacementMap := replacementMap[res := ram[a]];
          } else {
            ram := ram[a := res];
          }
          readVals := readVals + [res];
        case Store(addr, val) =>
          ram := map[];
          ram := ram[AddressOf(base, prog, Translate(replacementMap, addr)) := Translate(replacementMap, val)];
        case NewStruct =>
          readVals := readVals + [res];
        case ReadMember(_, _, _) =>
          DoReadLike(res, PlaceOf(base, prog, op, replacementMap));
        case WriteMember(_, _, val) =>
          DoWriteLike(i, PlaceOf(base, prog, op, replacementMap), Translate(replacementMap, val));
        case NewArray(elems) =>
          DoNewArray(res, elems);
        case ReadArray(_, _) =>
          DoReadLike(res, PlaceOf(base, prog, op, replacementMap));
        case WriteArray(_, _, val) =>
          DoWriteLike(i, PlaceOf(base, prog, op, replacementMap), Translate(replacementMap, val));
        case Effect(_, _) =>
          globals := map[];
          ram := map[];
        case Const(_) =>
        case Pure(_, _) =>
        case Emit(_) =>
      }
    }

    /** `orig` replaced by `replace` in every operation still there. */
    method ReplaceAllUsesWith(orig: Id, replace: Id)
      modifies this`code
      ensures |code| == |old(code)|
      ensures forall i :: 0 <= i < |code| ==> code[i] == if old(code)[i].Some?
          then Some(Rewrite(old(code)[i].value, map[orig := replace])) else None
    {
      var i := 0;
      while i < |code|
        invariant 0 <= i <= |code| == |old(code)|
        invariant forall k :: i <= k < |code| ==> code[k] == old(code)[k]
        invariant forall k :: 0 <= k < i ==> code[k] == if old(code)[k].Some?
            then Some(Rewrite(old(code)[k].value, map[orig := replace])) else None
      {
        if code[i].Some? {
          code := code[i := Some(Rewrite(code[i].value, map[orig := replace]))];
        }
        i := i + 1;
      }
    }

    /** An operation is erased at most once. */
    method Erase(i: nat)
      requires i < |code| && code[i].Some?
      modifies this`code
      ensures code == old(code)[i := None]
    {
      code := code[i := None];
    }

    method UseEmpty(v: Id) returns (b: bool)
      ensures b <==> !Used(code, v)
    {
      b := true;
      var i := 0;
      while i < |code|
        invariant 0 <= i <= |code|
        invariant b <==> forall k :: 0 <= k < i && code[k].Some? ==> v !in Operands(code[k].value)
      {
        if code[i].Some? && v in Operands(code[i].value) {
          b := false;
        }
        i := i + 1;
      }
    }

    /** Run over the block, then replace redundant values in whatever order, erase redundant writes, and erase
        unused reads from last to first. */
    method RunOnFunc()
      requires WellFormed(base, prog) && St() == Start() && code == Whole(prog)
      modifies this
      ensures |code| == |prog| && AllDefined(base, code)
      ensures forall w: World, m: Machine :: |m.env| == base ==> SameRun(w, base, prog, code, m)
      ensures Lawful(base, prog, code)
      ensures St() == Analysed(base, prog, |prog|) && Exact(base, prog, St(), code)
    {
      hide Good, After, Rewrite, Eliminated, SameRun, WellFormed, Erasing, Exact, Start;
      GoodStart(base, prog);
      var i := 0;
      while i < |prog|
        invariant 0 <= i <= |prog| && Good(base, prog, i, St()) && code == Whole(prog)
        invariant St() == Analysed(base, prog, i)
      {
        GoodStep(base, prog, i, St());
        RunOperation(i);
        i := i + 1;
      }
      ReplaceRedundant();
      ghost var s := St();
      EraseRedundantWrites(s);
      ghost var gone := EraseUnusedReads(s);
      ErasedExactly(base, prog, s, gone, code);
      ErasedLawfully(base, prog, s, gone, code);
      EveryRun(base, prog, s, gone, code);
    }

    method ReplaceRedundant()
      requires Good(base, prog, |prog|, St()) && code == Whole(prog)
      modifies this`code
      ensures |code| == |prog| && forall i :: 0 <= i < |prog| ==> code[i] == Some(Rewrite(prog[i], replacementMap))
    {
      hide Good, Rewrite;
      var keys := replacementMap.Keys;
      forall i | 0 <= i < |prog| ensures Rewrite(prog[i], map[]) == prog[i] { RewriteNothing(prog[i]); }
      ghost var done: map<Id, Id> := map[];
      assert done == replacementMap - keys;
      ReplacedOnce(base, prog, St());
      while keys != {}
        invariant keys <= replacementMap.Keys && done == replacementMap - keys && |code| == |prog|
        invariant forall i :: 0 <= i < |prog| ==> code[i] == Some(Rewrite(prog[i], done))
        decreases keys
      {
        var orig :| orig in keys;
        ReplaceAllUsesWith(orig, replacementMap[orig]);
        forall i | 0 <= i < |prog|
          ensures Rewrite(Rewrite(prog[i], done), map[orig := replacementMap[orig]]) ==
              Rewrite(prog[i], done[orig := replacementMap[orig]])
        {
          RewriteOneMore(prog[i], done, orig, replacementMap[orig]);
        }
        keys := keys - {orig};
        done := done[orig := replacementMap[orig]];
        assert done == replacementMap - keys;
      }
      assert done == replacementMap;
    }

    method EraseRedundantWrites(ghost s: Facts)
      requires s == St() && Good(base, prog, |prog|, s) && |code| == |prog|
      requires forall i :: 0 <= i < |prog| ==> code[i] == Some(Rewrite(prog[i], s.repl))
      modifies this`code
      ensures |code| == |prog|
      ensures forall i :: 0 <= i < |prog| ==> code[i] == if i in s.redundant then None
          else Some(Rewrite(prog[i], s.repl))
    {
      hide Good, Rewrite, NoRepeat;
      var k := 0;
      RedundantInRange(base, prog, s);
      while k < |redundantWrites|
        invariant 0 <= k <= |redundantWrites| && |code| == |prog|
        invariant forall i :: 0 <= i < |prog| ==> code[i] == if i in redundantWrites[..k] then None
            else Some(Rewrite(prog[i], s.repl))
      {
        NotBefore(redundantWrites, k);
        Erase(redundantWrites[k]);
        assert redundantWrites[..k + 1] == redundantWrites[..k] + [redundantWrites[k]];
        k := k + 1;
      }
      assert redundantWrites[..k] == redundantWrites;
    }

    method EraseUnusedReads(ghost s: Facts) returns (ghost gone: set<Id>)
      requires s == St() && Good(base, prog, |prog|, s) && |code| == |prog|
      requires forall i :: 0 <= i < |prog| ==> code[i] == if i in s.redundant then None
          else Some(Rewrite(prog[i], s.repl))
      modifies this`code
      ensures Eliminated(base, prog, s, gone, code) && OthersUsed(readVals, gone, code, 0)
    {
      hide Rewrite, Good, Erasing, Eliminated, Bound, Used;
      gone := {};
      var k := |readVals|;
      ErasingStart(base, prog, s, code);
      while k > 0
        invariant 0 <= k <= |readVals| && Erasing(base, prog, s, gone, code, Bound(base, prog, s, k))
        invariant OthersUsed(readVals, gone, code, k)
      {
        k := k - 1;
        var v := readVals[k];
        var unused := UseEmpty(v);
        NextRead(base, prog, s, k);
        if unused {
          ErasingUnused(base, prog, s, gone, code, v, Bound(base, prog, s, k + 1));
          StillUsed(base, prog, s, gone, code, k);
          Erase(v - base);
          gone := gone + {v};
        } else {
          ErasingUsed(base, prog, s, gone, code, v, Bound(base, prog, s, k + 1));
        }
      }
      ErasingEnd(base, prog, s, gone, code);
    }
  }

  /** Where the reads from position `k` of the list on begin. */
  ghost function Bound(base: nat, prog: seq<Op>, s: Facts, k: nat): Id {
    if k < |s.readVals| then s.readVals[k] else base + |prog|
  }

  /** Reads from `bound` on have been looked at: those in `gone` are erased, and nothing uses them. */
  ghost predicate Erasing(base: nat, prog: seq<Op>, s: Facts, gone: set<Id>, code: seq<Option<Op>>, bound: Id) {
    && |code| == |prog|
    && (forall v :: v in gone ==> IsErasable(base, prog, v) && v >= bound)
    && (forall v :: v in s.repl && v >= bound ==> v in gone)
    && (forall i :: 0 <= i < |prog| ==> code[i] == if i in s.redundant || base + i in gone then None
      else Some(Rewrite(prog[i], s.repl)))
    && (forall i, y :: 0 <= i < |prog| && code[i].Some? && y in Operands(code[i].value) ==> y !in gone && y !in s.repl)
  }

  lemma ErasingStart(base: nat, prog: seq<Op>, s: Facts, code: seq<Option<Op>>)
    requires Good(base, prog, |prog|, s) && |code| == |prog|
    requires forall i :: 0 <= i < |prog| ==> code[i] == if i in s.redundant then None
        else Some(Rewrite(prog[i], s.repl))
    ensures Erasing(base, prog, s, {}, code, Bound(base, prog, s, |s.readVals|))
  {
    assert forall v :: v in s.repl ==> v < base + |prog|;
    hide Good, Rewrite;
    forall i, y | 0 <= i < |prog| && code[i].Some? && y in Operands(code[i].value)
      ensures y !in s.repl
    {
      UsesTranslated(base, prog, s, i, y);
    }
  }

  /** Between two neighbours of the list there is no other read. */
  lemma NextRead(base: nat, prog: seq<Op>, s: Facts, k: nat)
    requires Good(base, prog, |prog|, s) && k < |s.readVals|
    ensures Bound(base, prog, s, k) == s.readVals[k]
    ensures LastBefore(base, prog, s, s.readVals[k], Bound(base, prog, s, k + 1))
  {
    assert ReadsOk(base, prog, |prog|, s);
    hide Good;
    var v := s.readVals[k];
    assert v in s.readVals;
    ReadsFacts(base, prog, s);
    forall u | u in s.repl && u >= v ensures u == v || u >= Bound(base, prog, s, k + 1) {
      assert u in s.readVals;
      var j :| 0 <= j < |s.readVals| && s.readVals[j] == u;
    }
  }

  /** `v` is the last read in front of `next`. */
  ghost predicate LastBefore(base: nat, prog: seq<Op>, s: Facts, v: Id, next: Id) {
    && IsErasable(base, prog, v) && v - base !in s.redundant && v < next
    && forall u :: u in s.repl && u >= v ==> u == v || u >= next
  }

  ghost predicate Used(code: seq<Option<Op>>, v: Id) {
    exists i :: 0 <= i < |code| && code[i].Some? && v in Operands(code[i].value)
  }

  lemma ErasingUnused(base: nat, prog: seq<Op>, s: Facts, gone: set<Id>, code: seq<Option<Op>>, v: Id, next: Id)
    requires Erasing(base, prog, s, gone, code, next) && LastBefore(base, prog, s, v, next) && !Used(code, v)
    ensures v - base < |code| && code[v - base].Some? && Erasing(base, prog, s, gone + {v}, code[v - base := None], v)
  {
    hide Rewrite;
  }

  /** A read still used was not replaced. */
  lemma ErasingUsed(base: nat, prog: seq<Op>, s: Facts, gone: set<Id>, code: seq<Option<Op>>, v: Id, next: Id)
    requires Erasing(base, prog, s, gone, code, next) && LastBefore(base, prog, s, v, next) && Used(code, v)
    ensures Erasing(base, prog, s, gone, code, v)
  {
    hide Rewrite;
  }

  /** The reads from position `k` of the list on that are still there are used. */
  ghost predicate OthersUsed(readVals: seq<Id>, gone: set<Id>, code: seq<Option<Op>>, k: nat) {
    forall j :: k <= j < |readVals| && readVals[j] !in gone ==> Used(code, readVals[j])
  }

  /** Erasing a read takes no use from a later one: operations use earlier values only. */
  lemma StillUsed(base: nat, prog: seq<Op>, s: Facts, gone: set<Id>, code: seq<Option<Op>>, k: nat)
    requires Good(base, prog, |prog|, s) && k < |s.readVals|
    requires Erasing(base, prog, s, gone, code, Bound(base, prog, s, k + 1))
    requires OthersUsed(s.readVals, gone, code, k + 1) && base <= s.readVals[k] < base + |code|
    ensures OthersUsed(s.readVals, gone + {s.readVals[k]}, code[s.readVals[k] - base := None], k)
  {
    hide Good, Rewrite;
    var v := s.readVals[k];
    var code' := code[v - base := None];
    ReadsAscend(base, prog, s);
    forall j | k < j < |s.readVals| && s.readVals[j] !in gone ensures Used(code', s.readVals[j]) {
      var i :| 0 <= i < |code| && code[i].Some? && s.readVals[j] in Operands(code[i].value);
      UseAfter(base, prog, s, i, s.readVals[j]);
      assert code'[i] == code[i];
    }
  }

  lemma ReadsAscend(base: nat, prog: seq<Op>, s: Facts)
    requires Good(base, prog, |prog|, s)
    ensures forall a, b :: 0 <= a < b < |s.readVals| ==> s.readVals[a] < s.readVals[b]
  {
    assert ReadsOk(base, prog, |prog|, s);
    hide WellFormed, ReplOk, KnownOk, StatefulOk, RedundantOk;
  }

  lemma UseAfter(base: nat, prog: seq<Op>, s: Facts, i: nat, y: Id)
    requires Good(base, prog, |prog|, s) && i < |prog| && y in Operands(Rewrite(prog[i], s.repl))
    ensures y < base + i
  {
    hide KnownOk, StatefulOk, RedundantOk, ReadsOk, Rewrite, EnvEq;
    RewriteOperands(prog[i], s.repl);
    var j :| 0 <= j < |Operands(prog[i])| && y == Translate(s.repl, Operands(prog[i])[j]);
    assert Operands(prog[i])[j] in Operands(prog[i]) && OpOk(base, prog, i);
  }

  /** Erased are exactly the redundant writes and the unused reads and creations; the rest is rewritten. */
  ghost predicate Exact(base: nat, prog: seq<Op>, s: Facts, code: seq<Option<Op>>) {
    && |code| == |prog| && (forall i :: 0 <= i < |prog| && code[i].Some? ==> code[i].value == Rewrite(prog[i], s.repl))
    && forall i ::
      0 <= i < |prog| ==> (code[i].None? <==> i in s.redundant || (prog[i].IsErasable() && !Used(code, base + i)))
  }

  lemma ErasedExactly(base: nat, prog: seq<Op>, s: Facts, gone: set<Id>, code: seq<Option<Op>>)
    requires Eliminated(base, prog, s, gone, code) && OthersUsed(s.readVals, gone, code, 0)
    ensures Exact(base, prog, s, code)
  {
    hide Good, Rewrite;
    EliminatedForm(base, prog, s, gone, code);
    AllReads(base, prog, s);
    forall i | 0 <= i < |prog|
      ensures code[i].None? <==> i in s.redundant || (prog[i].IsErasable() && !Used(code, base + i))
    {
      if base + i in gone { assert IsErasable(base, prog, base + i); }
      if prog[i].IsErasable() && base + i !in gone {
        var j :| 0 <= j < |s.readVals| && s.readVals[j] == base + i;
      }
    }
  }

  lemma AllReads(base: nat, prog: seq<Op>, s: Facts)
    requires Good(base, prog, |prog|, s)
    ensures forall i :: 0 <= i < |prog| && prog[i].IsErasable() ==> base + i in s.readVals
  {
    assert ReadsOk(base, prog, |prog|, s);
    hide WellFormed, ReplOk, KnownOk, StatefulOk, RedundantOk;
  }

  lemma ErasingEnd(base: nat, prog: seq<Op>, s: Facts, gone: set<Id>, code: seq<Option<Op>>)
    requires Good(base, prog, |prog|, s) && Erasing(base, prog, s, gone, code, Bound(base, prog, s, 0))
    ensures Eliminated(base, prog, s, gone, code)
  {
    forall v | v in s.repl ensures v >= Bound(base, prog, s, 0) {
      ReadsFacts(base, prog, s);
      var j :| 0 <= j < |s.readVals| && s.readVals[j] == v;
    }
    hide Good, Rewrite;
  }

  lemma StoredEarlier(base: nat, prog: seq<Op>, i: nat, s: Facts)
    requires Good(base, prog, i, s)
    ensures forall p :: p in s.known ==> s.known[p].stored < base + i
  {
    forall p | p in s.known ensures s.known[p].stored < base + i { assert NodeOk(base, prog, i, s, p); }
  }

  lemma RewriteNothing(op: Op)
    ensures Rewrite(op, map[]) == op
  {
    assert forall vs: seq<Id> :: TranslateAll(map[], vs) == vs;
  }

  /** Replacing one more value afterwards is replacing them all at once, as no replacement is itself replaced. */
  lemma RewriteOneMore(op: Op, done: map<Id, Id>, orig: Id, replace: Id)
    requires orig !in done && replace !in done && replace != orig && forall v :: v in done ==> done[v] != orig
    ensures Rewrite(Rewrite(op, done), map[orig := replace]) == Rewrite(op, done[orig := replace])
  {
    assert forall vs: seq<Id> ::
        TranslateAll(map[orig := replace], TranslateAll(done, vs)) == TranslateAll(done[orig := replace], vs);
  }

  lemma ReplacedOnce(base: nat, prog: seq<Op>, s: Facts)
    requires Good(base, prog, |prog|, s)
    ensures forall v :: v in s.repl ==> s.repl[v] !in s.repl
  {
    hide WellFormed, KnownOk, StatefulOk, ReadsOk, RedundantOk, EnvEq;
  }

  lemma RedundantInRange(base: nat, prog: seq<Op>, s: Facts)
    requires Good(base, prog, |prog|, s)
    ensures NoRepeat(s.redundant) && forall j :: 0 <= j < |s.redundant| ==> s.redundant[j] < |prog|
  {
    hide Good;
    OnlyOnce(base, prog, s);
    forall j | 0 <= j < |s.redundant|
      ensures s.redundant[j] < |prog|
    {
      RedundantIsWrite(base, prog, s, s.redundant[j]);
    }
  }

  lemma OnlyOnce(base: nat, prog: seq<Op>, s: Facts)
    requires Good(base, prog, |prog|, s)
    ensures NoRepeat(s.redundant)
  {
    hide WellFormed, ReplOk, KnownOk, StatefulOk, ReadsOk, NoRepeat, DeadOk, SameOk;
  }

  lemma NotBefore(xs: seq<nat>, k: nat)
    requires NoRepeat(xs) && k < |xs|
    ensures xs[k] !in xs[..k]
  {}

  lemma ReadsFacts(base: nat, prog: seq<Op>, s: Facts)
    requires Good(base, prog, |prog|, s)
    ensures forall v ::
        v in s.readVals ==> base <= v < base + |prog| && prog[v - base].IsErasable() && v - base !in s.redundant
    ensures forall v :: v in s.repl ==> v in s.readVals
    ensures forall a, b :: 0 <= a < b < |s.readVals| ==> s.readVals[a] != s.readVals[b]
  {
    assert ReadsOk(base, prog, |prog|, s);
    forall v | v in s.readVals ensures v - base !in s.redundant {
      var x: nat := v - base;
      if x in s.redundant { RedundantIsWrite(base, prog, s, x); }
    }
  }

  /** No operation still uses a replaced value. */
  lemma UsesTranslated(base: nat, prog: seq<Op>, s: Facts, i: nat, y: Id)
    requires Good(base, prog, |prog|, s) && i < |prog| && y in Operands(Rewrite(prog[i], s.repl))
    ensures y !in s.repl
  {
    RewriteOperands(prog[i], s.repl);
  }

  /** Only reads, creations and writes are erased, and what is left uses only what is left. */
  ghost predicate Lawful(base: nat, prog: seq<Op>, code: seq<Option<Op>>) {
    && |code| == |prog|
    && (forall i :: 0 <= i < |prog| && code[i].None? ==> prog[i].IsErasable() || prog[i].IsWrite())
    && (forall i, y ::
      0 <= i < |prog| && code[i].Some? && y in Operands(code[i].value) && y >= base ==>
      y - base < |prog| && code[y - base].Some?)
  }

  lemma ErasedLawfully(base: nat, prog: seq<Op>, s: Facts, gone: set<Id>, code: seq<Option<Op>>)
    requires Eliminated(base, prog, s, gone, code) && WellFormed(base, prog)
    ensures Lawful(base, prog, code)
  {
    hide Good, Rewrite, WellFormed;
    forall i, y | 0 <= i < |prog| && code[i].Some? && y in Operands(code[i].value) && y >= base
      ensures y - base < |prog| && code[y - base].Some?
    {
      UseSurvives(base, prog, s, gone, code, i, y);
    }
    forall i | 0 <= i < |prog| && code[i].None?
      ensures prog[i].IsErasable() || prog[i].IsWrite()
    {
      ErasedKind(base, prog, s, gone, code, i);
    }
  }

  lemma EveryRun(base: nat, prog: seq<Op>, s: Facts, gone: set<Id>, code: seq<Option<Op>>)
    requires Eliminated(base, prog, s, gone, code) && WellFormed(base, prog)
    ensures |code| == |prog| && AllDefined(base, code)
    ensures forall w: World, m: Machine :: |m.env| == base ==> SameRun(w, base, prog, code, m)
  {
    CodeDefined(base, prog, s, gone, code, |prog|);
    assert code[..|prog|] == code;
    hide Eliminated, SameRun, WellFormed;
    forall w: World, m: Machine | |m.env| == base ensures SameRun(w, base, prog, code, m) {
      EliminationPreserves(w, base, prog, s, gone, code, m);
    }
  }

  lemma UseSurvives(base: nat, prog: seq<Op>, s: Facts, gone: set<Id>, code: seq<Option<Op>>, i: nat, y: Id)
    requires Eliminated(base, prog, s, gone, code) && i < |prog| && code[i].Some? && y in Operands(code[i].value)
    requires y >= base
    ensures y - base < |prog| && code[y - base].Some?
  {
    hide Good, Rewrite;
    EliminatedForm(base, prog, s, gone, code);
    var k: nat := y - base;
    OperandDefined(base, prog, s, i, y);
    if k in s.redundant { RedundantIsWrite(base, prog, s, k); }
  }

  lemma OperandDefined(base: nat, prog: seq<Op>, s: Facts, i: nat, y: Id)
    requires Good(base, prog, |prog|, s) && i < |prog| && y in Operands(Rewrite(prog[i], s.repl)) && y >= base
    ensures y - base < |prog| && prog[y - base].DefinesValue()
  {
    hide KnownOk, StatefulOk, RedundantOk, ReadsOk, Rewrite, EnvEq;
    RewriteOperands(prog[i], s.repl);
    var j :| 0 <= j < |Operands(prog[i])| && y == Translate(s.repl, Operands(prog[i])[j]);
    var x := Operands(prog[i])[j];
    assert x in Operands(prog[i]) && OpOk(base, prog, i);
  }
}
