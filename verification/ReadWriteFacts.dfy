/** The state read/write elimination threads through a block, what one operation does to it, and that
    everything in it stays justified. */
module ReadWriteFacts {
  import opened MemoryIr
  import opened KnownFacts

  /** The known places, globals and RAM words, the replacements, the values whose operations may be erased and the
      writes found redundant. `same` and `dead` record, for the proof, why each redundant write is: it writes
      what is there, or it is overwritten by a later write. */
  datatype Facts = Facts(
    known: map<Place, Node>, globals: map<nat, Id>, ram: map<Address, Id>,
    repl: map<Id, Id>, readVals: seq<Id>, redundant: seq<nat>,
    same: set<nat>, dead: map<nat, nat>)

  function Start(): Facts { Facts(map[], map[], map[], map[], [], [], {}, map[]) }

  /** The place a write goes to; struct and array handles are never replaced. */
  function Target(base: nat, prog: seq<Op>, op: Op): Place
    requires op.IsWrite()
  {
    PlaceOf(base, prog, op, map[])
  }

  predicate SameMember(p: Place, q: Place) {
    p.MemberPlace? && q.MemberPlace? && p.comp == q.comp && p.member == q.member
  }

  predicate Resolved(p: Place) { p.MemberPlace? && p.row.AtResolved? }

  /** Places of the written member whose row is not a known integer. */
  function MayAlias(known: map<Place, Node>, p: Place): set<Place> {
    set q | q in known && SameMember(p, q) && Resolved(q)
  }

  // ---------- the transition ----------

  function AfterRead(s: Facts, res: Id, p: Place): Facts {
    if p in s.known then s.(repl := s.repl[res := s.known[p].stored], readVals := s.readVals + [res])
    else s.(known := s.known[p := Node(res, None)], readVals := s.readVals + [res])
  }

  /** The known places once aliases of `p` are dropped; if there were any, the last write is no longer known to be
      unread. */
  function Invalidated(known: map<Place, Node>, p: Place): map<Place, Node> {
    var rest := known - MayAlias(known, p);
    if MayAlias(known, p) != {} && p in rest then rest[p := rest[p].(lastWrite := None)] else rest
  }

  function AfterWrite(s: Facts, i: nat, p: Place, val: Id): Facts {
    var known := Invalidated(s.known, p);
    if p in known && known[p].stored == val then
      s.(known := known, redundant := s.redundant + [i], same := s.same + {i})
    else if p in known && known[p].lastWrite.Some? then
      s.(known := known[p := Node(val, Some(i))], redundant := s.redundant + [known[p].lastWrite.value],
        dead := s.dead[known[p].lastWrite.value := i])
    else s.(known := known[p := Node(val, Some(i))])
  }

  function WithElements(known: map<Place, Node>, arr: Id, elems: seq<Id>, n: nat): map<Place, Node>
    requires n <= |elems|
  {
    if n == 0 then known else WithElements(known, arr, elems, n - 1)[ElemPlace(arr, n - 1) := Node(elems[n - 1], None)]
  }

  function After(base: nat, prog: seq<Op>, i: nat, s: Facts): Facts
    requires i < |prog|
  {
    var op, res := prog[i], base + i;
    match op
    case ReadGlobal(name) =>
      if name in s.globals then s.(repl := s.repl[res := s.globals[name]], readVals := s.readVals + [res])
      else s.(globals := s.globals[name := res], readVals := s.readVals + [res])
    case WriteGlobal(name, val) => s.(globals := s.globals[name := Translate(s.repl, val)])
    case Load(addr) =>
      var a := AddressOf(base, prog, Translate(s.repl, addr));
      if a in s.ram then s.(repl := s.repl[res := s.ram[a]], readVals := s.readVals + [res])
      else s.(ram := s.ram[a := res], readVals := s.readVals + [res])
    case Store(addr, val) => s.(ram := map[AddressOf(base, prog, Translate(s.repl, addr)) := Translate(s.repl, val)])
    case NewStruct => s.(readVals := s.readVals + [res])
    case NewArray(elems) =>
      s.(known := WithElements(s.known, res, TranslateAll(s.repl, elems), |elems|), readVals := s.readVals + [res])
    case ReadMember(_, _, _) => AfterRead(s, res, PlaceOf(base, prog, op, s.repl))
    case ReadArray(_, _) => AfterRead(s, res, PlaceOf(base, prog, op, s.repl))
    case WriteMember(_, _, val) => AfterWrite(s, i, PlaceOf(base, prog, op, s.repl), Translate(s.repl, val))
    case WriteArray(_, _, val) => AfterWrite(s, i, PlaceOf(base, prog, op, s.repl), Translate(s.repl, val))
    case Effect(_, _) => s.(globals := map[], ram := map[])
    case Const(_) => s
    case Pure(_, _) => s
    case Emit(_) => s
  }

  /** The state after the first `n` operations. */
  function Analysed(base: nat, prog: seq<Op>, n: nat): Facts
    requires n <= |prog|
  {
    if n == 0 then Start() else After(base, prog, n - 1, Analysed(base, prog, n - 1))
  }

  /** What a write does to the places other than its own. */
  lemma AfterWritePlaces(s: Facts, i: nat, p: Place, val: Id)
    requires !Resolved(p)
    ensures var s' := AfterWrite(s, i, p, val);
            && s' == s.(known := s'.known, redundant := s'.redundant, same := s'.same, dead := s'.dead) && p in s'.known
            && (forall q ::
              q in s'.known && q != p ==>
              q in s.known && s'.known[q] == s.known[q] && !(SameMember(p, q) && Resolved(q)))
            && (forall q :: q in s.known && q != p && !(SameMember(p, q) && Resolved(q)) ==> q in s'.known)
  {}

  /** What it does to its own place, and what it finds. */
  lemma AfterWriteAt(s: Facts, i: nat, p: Place, val: Id)
    requires !Resolved(p)
    ensures var s' := AfterWrite(s, i, p, val); p in s'.known
    ensures var s' := AfterWrite(s, i, p, val);
            if p in s.known && s.known[p].stored == val then
              && s'.known[p].stored == val
              && (s'.known[p].lastWrite.Some? ==> MayAlias(s.known, p) == {} && s'.known[p] == s.known[p])
              && s'.same == s.same + {i} && s'.redundant == s.redundant + [i] && s'.dead == s.dead
            else
              && s'.known[p] == Node(val, Some(i)) && s'.same == s.same
              && if p in s.known && s.known[p].lastWrite.Some? && MayAlias(s.known, p) == {}
                 then s'.redundant == s.redundant + [s.known[p].lastWrite.value] &&
                   s'.dead == s.dead[s.known[p].lastWrite.value := i]
                 else s'.redundant == s.redundant && s'.dead == s.dead
  {}

  /** What a write does to the state, place by place. */
  lemma AfterWriteIs(s: Facts, i: nat, p: Place, val: Id)
    requires !Resolved(p)
    ensures var s' := AfterWrite(s, i, p, val);
            && s' == s.(known := s'.known, redundant := s'.redundant, same := s'.same, dead := s'.dead) && p in s'.known
            && (forall q ::
              q in s'.known && q != p ==>
              q in s.known && s'.known[q] == s.known[q] && !(SameMember(p, q) && Resolved(q)))
            && (forall q :: q in s.known && q != p && !(SameMember(p, q) && Resolved(q)) ==> q in s'.known)
    ensures var s' := AfterWrite(s, i, p, val);
            if p in s.known && s.known[p].stored == val then
              && s'.known[p].stored == val
              && (s'.known[p].lastWrite.Some? ==> MayAlias(s.known, p) == {} && s'.known[p] == s.known[p])
              && s'.same == s.same + {i} && s'.redundant == s.redundant + [i] && s'.dead == s.dead
            else
              && s'.known[p] == Node(val, Some(i)) && s'.same == s.same
              && if p in s.known && s.known[p].lastWrite.Some? && MayAlias(s.known, p) == {}
                 then s'.redundant == s.redundant + [s.known[p].lastWrite.value] &&
                   s'.dead == s.dead[s.known[p].lastWrite.value := i]
                 else s'.redundant == s.redundant && s'.dead == s.dead
  {
    hide AfterWrite, MayAlias;
    AfterWritePlaces(s, i, p, val);
    AfterWriteAt(s, i, p, val);
  }

  lemma AfterIsWrite(base: nat, prog: seq<Op>, i: nat, s: Facts, p: Place)
    requires i < |prog| && prog[i].IsWrite() && PlaceOf(base, prog, prog[i], s.repl) == p
    ensures After(base, prog, i, s) == AfterWrite(s, i, p, Translate(s.repl, prog[i].val))
  {
    hide AfterWrite, PlaceOf;
  }

  // ---------- why it is sound ----------

  /** `op` may read the place `p` of some write. */
  predicate MayRead(base: nat, prog: seq<Op>, op: Op, p: Place) {
    match op
    case ReadMember(comp, member, off) => p.MemberPlace? && p.comp == comp && p.member == member &&
      (off.Row? ==> off.k == 0)
    case ReadArray(arr, idx) => p.ElemPlace? && p.arr == arr && IsConst(base, prog, idx) &&
      prog[idx - base].c == p.index
    case _ => false
  }

  predicate ReadsResolved(op: Op) { op.ReadMember? && op.off.Resolved? }

  /** Operation `j`, behind a write to `p`, neither needs that write nor replaces it. */
  ghost predicate PassesOver(base: nat, prog: seq<Op>, s: Facts, p: Place, j: nat)
    requires j < |prog|
  {
    && (MayRead(base, prog, prog[j], p) ==>
      base + j in s.repl || (ReadsResolved(prog[j]) && MayAlias(s.known, p) != {}))
    && (prog[j].IsWrite() && Target(base, prog, prog[j]) == p ==> j in s.same)
  }

  ghost predicate LastWriteOk(base: nat, prog: seq<Op>, i: nat, s: Facts, p: Place, x: nat)
    requires i <= |prog|
  {
    && x < i && prog[x].IsWrite() && Target(base, prog, prog[x]) == p && x !in s.redundant
    && forall j :: x < j < i ==> PassesOver(base, prog, s, p, j)
  }

  ghost predicate KnownOk(base: nat, prog: seq<Op>, i: nat, s: Facts)
    requires WellFormed(base, prog) && i <= |prog|
  {
    forall p :: p in s.known ==> NodeOk(base, prog, i, s, p)
  }

  ghost predicate NodeOk(base: nat, prog: seq<Op>, i: nat, s: Facts, p: Place)
    requires WellFormed(base, prog) && i <= |prog| && p in s.known
  {
    && CellIs(base, prog, i, p, s.known[p].stored) && s.known[p].stored !in s.repl
    && (p.ElemPlace? ==> p.arr < base + i)
    && (s.known[p].lastWrite.Some? ==> LastWriteOk(base, prog, i, s, p, s.known[p].lastWrite.value))
  }

  ghost predicate StatefulOk(base: nat, prog: seq<Op>, i: nat, s: Facts)
    requires WellFormed(base, prog) && i <= |prog|
  {
    && (forall name ::
      name in s.globals ==> GlobalIs(base, prog, i, name, s.globals[name]) && s.globals[name] !in s.repl)
    && (forall a :: a in s.ram ==> RamIs(base, prog, i, a, s.ram[a]) && s.ram[a] !in s.repl)
  }

  /** Write `x` stores what its cell already holds. */
  ghost predicate SameOk(base: nat, prog: seq<Op>, x: nat)
    requires WellFormed(base, prog) && x < |prog|
  {
    prog[x].IsWrite() && CellIs(base, prog, x, Target(base, prog, prog[x]), prog[x].val)
  }

  /** Write `x` is overwritten by `d` before anything that survives reads it. */
  ghost predicate DeadOk(base: nat, prog: seq<Op>, repl: map<Id, Id>, same: set<nat>, x: nat, d: nat)
    requires x < d < |prog|
  {
    && prog[x].IsWrite() && prog[d].IsWrite() && Target(base, prog, prog[d]) == Target(base, prog, prog[x])
    && d !in same
    && forall j :: x < j < d ==>
         && (MayRead(base, prog, prog[j], Target(base, prog, prog[x])) ==> base + j in repl)
         && (prog[j].IsWrite() && Target(base, prog, prog[j]) == Target(base, prog, prog[x]) ==> j in same)
  }

  ghost predicate NoRepeat(xs: seq<nat>) { forall i, j :: 0 <= i < j < |xs| ==> xs[i] != xs[j] }

  ghost predicate RedundantOk(base: nat, prog: seq<Op>, i: nat, s: Facts)
    requires WellFormed(base, prog) && i <= |prog|
  {
    && NoRepeat(s.redundant) && (forall x :: x in s.redundant <==> x in s.same || x in s.dead) && s.same !! s.dead.Keys
    && (forall x :: x in s.same ==> x < i && SameOk(base, prog, x))
    && (forall x :: x in s.dead ==> x < s.dead[x] < i && DeadOk(base, prog, s.repl, s.same, x, s.dead[x]))
  }

  /** Exactly the values whose operations may be erased, in order. */
  ghost predicate ReadsOk(base: nat, prog: seq<Op>, i: nat, s: Facts)
    requires i <= |prog|
  {
    && (forall v :: v in s.readVals <==> base <= v < base + i && prog[v - base].IsErasable())
    && (forall a, b :: 0 <= a < b < |s.readVals| ==> s.readVals[a] < s.readVals[b])
  }

  ghost predicate Good(base: nat, prog: seq<Op>, i: nat, s: Facts) {
    && WellFormed(base, prog) && i <= |prog|
    && ReplOk(base, prog, i, s.repl) && KnownOk(base, prog, i, s) && StatefulOk(base, prog, i, s)
    && RedundantOk(base, prog, i, s) && ReadsOk(base, prog, i, s)
  }

  // ---------- one operation keeps it ----------

  lemma TargetIsPlace(base: nat, prog: seq<Op>, i: nat, repl: map<Id, Id>)
    requires WellFormed(base, prog) && i < |prog| && ReplOk(base, prog, i, repl) && prog[i].IsWrite()
    ensures PlaceOf(base, prog, prog[i], repl) == Target(base, prog, prog[i]) && !Resolved(Target(base, prog, prog[i]))
    ensures forall q ::
        !Spares(base, prog, prog[i], q) ==>
        q == Target(base, prog, prog[i]) || (SameMember(Target(base, prog, prog[i]), q) && Resolved(q))
  {
    assert OpOk(base, prog, i);
  }

  /** A read of a write's place is a read of that very place, or through a resolved row. */
  lemma ReadPlace(base: nat, prog: seq<Op>, i: nat, repl: map<Id, Id>, p: Place)
    requires WellFormed(base, prog) && i < |prog| && ReplOk(base, prog, i, repl)
    requires (prog[i].ReadMember? || prog[i].ReadArray?)
    requires MayRead(base, prog, prog[i], p) && !Resolved(p) && (p.MemberPlace? ==> p.row == AtRow(0))
    ensures var q := PlaceOf(base, prog, prog[i], repl);
        if ReadsResolved(prog[i]) then SameMember(p, q) && Resolved(q) else q == p
  {
    assert OpOk(base, prog, i);
  }

  /** Replacements and redundancies only accumulate; places may be forgotten as long as this loses no alias that
      matters. */
  lemma LastWriteKept(base: nat, prog: seq<Op>, i: nat, s: Facts, s': Facts, p: Place, x: nat)
    requires i < |prog| && LastWriteOk(base, prog, i, s, p, x) && x !in s'.redundant
    requires (forall v :: v in s.repl ==> v in s'.repl) && s.same <= s'.same
    requires MayAlias(s.known, p) != {} ==> MayAlias(s'.known, p) != {}
    requires PassesOver(base, prog, s', p, i)
    ensures LastWriteOk(base, prog, i + 1, s', p, x)
  {
    forall j | x < j < i + 1 ensures PassesOver(base, prog, s', p, j) {
      if j < i { assert PassesOver(base, prog, s, p, j); }
    }
  }

  lemma ReplKept(base: nat, prog: seq<Op>, i: nat, repl: map<Id, Id>)
    requires WellFormed(base, prog) && i < |prog| && ReplOk(base, prog, i, repl)
    ensures ReplOk(base, prog, i + 1, repl)
  {
    forall v | v in repl ensures EnvEq(base, prog, i + 1, v, repl[v]) { EnvKept(base, prog, i, v, repl[v]); }
  }

  lemma ReplAdd(base: nat, prog: seq<Op>, i: nat, repl: map<Id, Id>, v: Id)
    requires WellFormed(base, prog) && i < |prog| && ReplOk(base, prog, i, repl) && prog[i].IsErasable()
    requires !prog[i].NewStruct? && !prog[i].NewArray?
    requires v < base + i && v !in repl && IsVal(base, prog, v) && EnvEq(base, prog, i + 1, base + i, v)
    ensures ReplOk(base, prog, i + 1, repl[base + i := v])
  {
    ReplKept(base, prog, i, repl);
  }

  lemma ReadsAdd(base: nat, prog: seq<Op>, i: nat, s: Facts, s': Facts)
    requires i < |prog| && ReadsOk(base, prog, i, s)
    requires s'.readVals == if prog[i].IsErasable() then s.readVals + [base + i] else s.readVals
    ensures ReadsOk(base, prog, i + 1, s')
  {
    if prog[i].IsErasable() {
      forall v
        ensures v in s'.readVals <==> v in s.readVals || v == base + i
      {
        assert s'.readVals[|s.readVals|] == base + i;
      }
      forall a | 0 <= a < |s.readVals| ensures s.readVals[a] < base + i { assert s.readVals[a] in s.readVals; }
    }
  }

  lemma RedundantKept(base: nat, prog: seq<Op>, i: nat, s: Facts, s': Facts)
    requires WellFormed(base, prog) && i < |prog| && RedundantOk(base, prog, i, s)
    requires s'.redundant == s.redundant && s'.same == s.same && s'.dead == s.dead
    requires forall v :: v in s.repl ==> v in s'.repl
    ensures RedundantOk(base, prog, i + 1, s')
  {
    forall x | x in s'.dead ensures DeadOk(base, prog, s'.repl, s'.same, x, s'.dead[x]) {
      assert DeadOk(base, prog, s.repl, s.same, x, s.dead[x]);
    }
  }

  /** Whatever the operation spares stays known. */
  lemma NodeKept(base: nat, prog: seq<Op>, i: nat, s: Facts, s': Facts, p: Place)
    requires WellFormed(base, prog) && i < |prog| && p in s.known && NodeOk(base, prog, i, s, p) && p in s'.known
    requires s'.known[p] == s.known[p]
    requires Spares(base, prog, prog[i], p) && (forall v :: v in s.repl ==> v in s'.repl)
    requires (forall v :: v in s'.repl ==> v in s.repl || v == base + i)
    requires s.same <= s'.same && (s.known[p].lastWrite.Some? ==> s.known[p].lastWrite.value !in s'.redundant)
    requires MayAlias(s.known, p) != {} ==> MayAlias(s'.known, p) != {}
    requires s.known[p].lastWrite.Some? ==> PassesOver(base, prog, s', p, i)
    ensures NodeOk(base, prog, i + 1, s', p)
  {
    CellKept(base, prog, i, p, s.known[p].stored);
    if s.known[p].lastWrite.Some? { LastWriteKept(base, prog, i, s, s', p, s.known[p].lastWrite.value); }
  }

  /** Operations that touch no cell and read none leave the known places as they are. */
  lemma KnownKept(base: nat, prog: seq<Op>, i: nat, s: Facts, s': Facts)
    requires WellFormed(base, prog) && i < |prog| && KnownOk(base, prog, i, s) && s'.known == s.known
    requires s'.redundant == s.redundant && s'.same == s.same
    requires !prog[i].IsWrite() && !prog[i].ReadMember? && !prog[i].ReadArray?
    requires (forall v :: v in s.repl ==> v in s'.repl) && (forall v :: v in s'.repl ==> v in s.repl || v == base + i)
    ensures KnownOk(base, prog, i + 1, s')
  {
    forall p | p in s'.known ensures NodeOk(base, prog, i + 1, s', p) {
      assert NodeOk(base, prog, i, s, p);
      NodeKept(base, prog, i, s, s', p);
    }
  }

  lemma StatefulKept(base: nat, prog: seq<Op>, i: nat, s: Facts, s': Facts)
    requires WellFormed(base, prog) && i < |prog| && StatefulOk(base, prog, i, s) && s'.globals == s.globals
    requires s'.ram == s.ram
    requires !prog[i].WriteGlobal? && !prog[i].Store? && !prog[i].Effect?
    requires forall v :: v in s'.repl ==> v in s.repl || v == base + i
    ensures StatefulOk(base, prog, i + 1, s')
  {
    forall name | name in s'.globals
      ensures GlobalIs(base, prog, i + 1, name, s'.globals[name]) && s'.globals[name] !in s'.repl
    {
      GlobalKept(base, prog, i, name, s.globals[name]);
    }
    forall a | a in s'.ram
      ensures RamIs(base, prog, i + 1, a, s'.ram[a]) && s'.ram[a] !in s'.repl
    {
      RamKept(base, prog, i, a, s.ram[a]);
    }
  }

  lemma ReadNodes(base: nat, prog: seq<Op>, i: nat, s: Facts)
    requires WellFormed(base, prog) && i < |prog| && (prog[i].ReadMember? || prog[i].ReadArray?)
    requires ReplOk(base, prog, i, s.repl) && KnownOk(base, prog, i, s)
    ensures KnownOk(base, prog, i + 1, After(base, prog, i, s))
  {
    hide WellFormed, ReplOk, KnownOk, CellIs, PassesOver, PlaceOf;
    var s', p := After(base, prog, i, s), PlaceOf(base, prog, prog[i], s.repl);
    ReadFresh(base, prog, i, s.repl);
    PlaceHasCell(base, prog, i, s.repl);
    ReplBelow(base, prog, i, s.repl);
    forall q | q in s'.known ensures NodeOk(base, prog, i + 1, s', q) {
      if q in s.known {
        NodeAt(base, prog, i, s, q);
        ReadPasses(base, prog, i, s, q);
        NodeKept(base, prog, i, s, s', q);
      }
    }
    NodesKnown(base, prog, i + 1, s');
  }

  lemma NodesKnown(base: nat, prog: seq<Op>, i: nat, s: Facts)
    requires WellFormed(base, prog) && i <= |prog| && forall p :: p in s.known ==> NodeOk(base, prog, i, s, p)
    ensures KnownOk(base, prog, i, s)
  {}

  lemma ReplBelow(base: nat, prog: seq<Op>, i: nat, repl: map<Id, Id>)
    requires WellFormed(base, prog) && i <= |prog| && ReplOk(base, prog, i, repl)
    ensures forall v :: v in repl ==> v < base + i
  {}

  lemma StepRead(base: nat, prog: seq<Op>, i: nat, s: Facts)
    requires Good(base, prog, i, s) && i < |prog| && (prog[i].ReadMember? || prog[i].ReadArray?)
    ensures Good(base, prog, i + 1, After(base, prog, i, s))
  {
    hide KnownOk, StatefulOk, ReplOk, ReadsOk, RedundantOk, WellFormed, LastWriteOk, PassesOver, PlaceOf, EnvEq;
    var s', p := After(base, prog, i, s), PlaceOf(base, prog, prog[i], s.repl);
    if p in s.known {
      NodeAt(base, prog, i, s, p);
      ReadKnown(base, prog, i, s.repl, s.known[p].stored);
      ReplAdd(base, prog, i, s.repl, s.known[p].stored);
    } else {
      ReplKept(base, prog, i, s.repl);
      ReadFresh(base, prog, i, s.repl);
      PlaceHasCell(base, prog, i, s.repl);
    }
    ReadNodes(base, prog, i, s);
    StatefulKept(base, prog, i, s, s');
    RedundantKept(base, prog, i, s, s');
    ReadsAdd(base, prog, i, s, s');
  }

  /** A read needs the last write of a known place only through a resolved row, which then is known too. */
  lemma ReadPasses(base: nat, prog: seq<Op>, i: nat, s: Facts, q: Place)
    requires WellFormed(base, prog) && i < |prog| && ReplOk(base, prog, i, s.repl)
    requires (prog[i].ReadMember? || prog[i].ReadArray?) && q in s.known
    requires s.known[q].lastWrite.Some? ==> LastWriteOk(base, prog, i, s, q, s.known[q].lastWrite.value)
    ensures s.known[q].lastWrite.Some? ==> PassesOver(base, prog, After(base, prog, i, s), q, i)
    ensures MayAlias(s.known, q) <= MayAlias(After(base, prog, i, s).known, q)
  {
    var s', p := After(base, prog, i, s), PlaceOf(base, prog, prog[i], s.repl);
    if s.known[q].lastWrite.Some? && MayRead(base, prog, prog[i], q) {
      assert !Resolved(q) && (q.MemberPlace? ==> q.row == AtRow(0));
      ReadPlace(base, prog, i, s.repl, q);
      if p !in s.known { assert p in MayAlias(s'.known, q); }
    }
  }

  lemma StepPlain(base: nat, prog: seq<Op>, i: nat, s: Facts)
    requires Good(base, prog, i, s) && i < |prog|
    requires (prog[i].Const? || prog[i].Pure? || prog[i].Emit? || prog[i].NewStruct? || prog[i].Effect?)
    ensures Good(base, prog, i + 1, After(base, prog, i, s))
  {
    var s' := After(base, prog, i, s);
    ReplKept(base, prog, i, s.repl);
    KnownKept(base, prog, i, s, s');
    if !prog[i].Effect? { StatefulKept(base, prog, i, s, s'); }
    RedundantKept(base, prog, i, s, s');
    ReadsAdd(base, prog, i, s, s');
  }

  lemma StepGlobal(base: nat, prog: seq<Op>, i: nat, s: Facts)
    requires Good(base, prog, i, s) && i < |prog| && (prog[i].ReadGlobal? || prog[i].WriteGlobal?)
    ensures Good(base, prog, i + 1, After(base, prog, i, s))
  {
    var s', name := After(base, prog, i, s), prog[i].name;
    if prog[i].ReadGlobal? {
      GlobalRead(base, prog, i);
      if name in s.globals {
        ReplAdd(base, prog, i, s.repl, s.globals[name]);
      } else {
        ReplKept(base, prog, i, s.repl);
      }
    } else {
      ReplKept(base, prog, i, s.repl);
      GlobalWritten(base, prog, i, s.repl);
      assert OpOk(base, prog, i);
      DefinedArgs(prog[i], base + i);
      TranslateEq(base, prog, i, s.repl, prog[i].val);
    }
    KnownKept(base, prog, i, s, s');
    forall n | n in s'.globals ensures GlobalIs(base, prog, i + 1, n, s'.globals[n]) && s'.globals[n] !in s'.repl {
      if n != name || (prog[i].ReadGlobal? && n in s.globals) { GlobalKept(base, prog, i, n, s.globals[n]); }
    }
    forall a | a in s'.ram
      ensures RamIs(base, prog, i + 1, a, s'.ram[a]) && s'.ram[a] !in s'.repl
    {
      RamKept(base, prog, i, a, s.ram[a]);
    }
    RedundantKept(base, prog, i, s, s');
    ReadsAdd(base, prog, i, s, s');
  }

  lemma StepRam(base: nat, prog: seq<Op>, i: nat, s: Facts)
    requires Good(base, prog, i, s) && i < |prog| && (prog[i].Load? || prog[i].Store?)
    ensures Good(base, prog, i + 1, After(base, prog, i, s))
  {
    var s', a := After(base, prog, i, s), AddressOf(base, prog, Translate(s.repl, prog[i].addr));
    if prog[i].Load? {
      LoadRead(base, prog, i, s.repl);
      if a in s.ram { ReplAdd(base, prog, i, s.repl, s.ram[a]); } else { ReplKept(base, prog, i, s.repl); }
    } else {
      ReplKept(base, prog, i, s.repl);
      Stored(base, prog, i, s.repl);
      assert OpOk(base, prog, i);
      DefinedArgs(prog[i], base + i);
      TranslateEq(base, prog, i, s.repl, prog[i].val);
    }
    KnownKept(base, prog, i, s, s');
    forall n | n in s'.globals
      ensures GlobalIs(base, prog, i + 1, n, s'.globals[n]) && s'.globals[n] !in s'.repl
    {
      GlobalKept(base, prog, i, n, s.globals[n]);
    }
    forall b | b in s'.ram ensures RamIs(base, prog, i + 1, b, s'.ram[b]) && s'.ram[b] !in s'.repl {
      if prog[i].Load? && b in s.ram { RamKept(base, prog, i, b, s.ram[b]); }
    }
    RedundantKept(base, prog, i, s, s');
    ReadsAdd(base, prog, i, s, s');
  }

  lemma {:induction false} ElementsIn(known: map<Place, Node>, arr: Id, elems: seq<Id>, n: nat)
    requires n <= |elems|
    ensures forall p ::
        p in WithElements(known, arr, elems, n) <==> p in known || (p.ElemPlace? && p.arr == arr && 0 <= p.index < n)
    ensures forall p :: p in WithElements(known, arr, elems, n) ==>
              WithElements(known, arr, elems, n)[p] == if p.ElemPlace? && p.arr == arr && 0 <= p.index < n
                then Node(elems[p.index], None) else known[p]
  {
    if n == 0 {
    } else {
      ElementsIn(known, arr, elems, n - 1);
    }
  }

  lemma StepNewArray(base: nat, prog: seq<Op>, i: nat, s: Facts)
    requires Good(base, prog, i, s) && i < |prog| && prog[i].NewArray?
    ensures Good(base, prog, i + 1, After(base, prog, i, s))
  {
    var s', elems := After(base, prog, i, s), TranslateAll(s.repl, prog[i].elems);
    ReplKept(base, prog, i, s.repl);
    ElementsIn(s.known, base + i, elems, |elems|);
    assert OpOk(base, prog, i);
    DefinedArgs(prog[i], base + i);
    forall p | p in s'.known ensures NodeOk(base, prog, i + 1, s', p) {
      if p in s.known {
        assert NodeOk(base, prog, i, s, p);
        assert forall q :: q in MayAlias(s.known, p) ==> q in MayAlias(s'.known, p);
        NodeKept(base, prog, i, s, s', p);
      } else {
        ArraySets(base, prog, i, s.repl, p.index);
        TranslateEq(base, prog, i, s.repl, prog[i].elems[p.index]);
      }
    }
    StatefulKept(base, prog, i, s, s');
    RedundantKept(base, prog, i, s, s');
    ReadsAdd(base, prog, i, s, s');
  }

  lemma WriteTouches(base: nat, prog: seq<Op>, i: nat, s: Facts)
    requires i < |prog| && prog[i].IsWrite()
    ensures var s' := After(base, prog, i, s);
            s'.repl == s.repl && s'.globals == s.globals && s'.ram == s.ram && s'.readVals == if prog[i].IsErasable()
              then s.readVals + [base + i] else s.readVals
  {
    hide After, PlaceOf, Invalidated;
    AfterIsWrite(base, prog, i, s, PlaceOf(base, prog, prog[i], s.repl));
  }

  lemma AllNodes(base: nat, prog: seq<Op>, i: nat, s: Facts)
    requires Good(base, prog, i, s) && i < |prog| && prog[i].IsWrite()
    ensures KnownOk(base, prog, i + 1, After(base, prog, i, s))
  {
    hide Good, NodeOk, After, WellFormed;
    WellFormedOf(base, prog, i, s);
    forall q | q in After(base, prog, i, s).known
      ensures NodeOk(base, prog, i + 1, After(base, prog, i, s), q)
    {
      WriteNode(base, prog, i, s, q);
    }
  }

  lemma WellFormedOf(base: nat, prog: seq<Op>, i: nat, s: Facts)
    requires Good(base, prog, i, s)
    ensures WellFormed(base, prog) && i <= |prog|
  {}

  lemma StepWrite(base: nat, prog: seq<Op>, i: nat, s: Facts)
    requires Good(base, prog, i, s) && i < |prog| && prog[i].IsWrite()
    ensures Good(base, prog, i + 1, After(base, prog, i, s))
  {
    hide KnownOk, NodeOk, StatefulOk, ReplOk, ReadsOk, RedundantOk, WellFormed, PlaceOf, Target;
    var s' := After(base, prog, i, s);
    WriteTouches(base, prog, i, s);
    TargetIsPlace(base, prog, i, s.repl);
    ReplKept(base, prog, i, s.repl);
    WriteRedundant(base, prog, i, s);
    AllNodes(base, prog, i, s);
    StatefulKept(base, prog, i, s, s');
    ReadsAdd(base, prog, i, s, s');
  }

  /** Each place still known behind a write is justified. */
  lemma WriteNode(base: nat, prog: seq<Op>, i: nat, s: Facts, q: Place)
    requires Good(base, prog, i, s) && i < |prog| && prog[i].IsWrite() && q in After(base, prog, i, s).known
    ensures NodeOk(base, prog, i + 1, After(base, prog, i, s), q)
  {
    TargetIsPlace(base, prog, i, s.repl);
    if q == Target(base, prog, prog[i]) { WrittenNode(base, prog, i, s); } else { OtherNode(base, prog, i, s, q); }
  }

  lemma ValDefined(base: nat, prog: seq<Op>, i: nat)
    requires WellFormed(base, prog) && i < |prog| && prog[i].IsWrite()
    ensures prog[i].val < base + i
  {
    assert OpOk(base, prog, i);
    DefinedArgs(prog[i], base + i);
  }

  lemma WrittenNode(base: nat, prog: seq<Op>, i: nat, s: Facts)
    requires Good(base, prog, i, s) && i < |prog| && prog[i].IsWrite()
    ensures var p, s' := Target(base, prog, prog[i]), After(base, prog, i, s);
        p in s'.known && NodeOk(base, prog, i + 1, s', p)
  {
    hide KnownOk, StatefulOk, ReplOk, ReadsOk, RedundantOk, WellFormed, PlaceOf, Target, Spares, CellIs, After,
        AfterWrite, LastWriteOk, MayAlias, PassesOver;
    var s', p, val := After(base, prog, i, s), Target(base, prog, prog[i]), Translate(s.repl, prog[i].val);
    TargetIsPlace(base, prog, i, s.repl);
    AfterIsWrite(base, prog, i, s, p);
    AfterWriteIs(s, i, p, val);
    ValDefined(base, prog, i);
    TranslateEq(base, prog, i, s.repl, prog[i].val);
    WriteSets(base, prog, i, s.repl);
    PlaceHasCell(base, prog, i, s.repl);
    if p in s.known && s.known[p].stored == val {
      NodeAt(base, prog, i, s, p);
      if s'.known[p].lastWrite.Some? {
        var x := s.known[p].lastWrite.value;
        LastWritePast(base, prog, i, s, p, x);
        PassesSame(base, prog, s', p, i);
        LastWriteKept(base, prog, i, s, s', p, x);
      }
    } else {
      if p in s.known {
        NodeAt(base, prog, i, s, p);
        if s.known[p].lastWrite.Some? { LastWritePast(base, prog, i, s, p, s.known[p].lastWrite.value); }
      }
      NotSameYet(base, prog, i, s);
      NewLastWrite(base, prog, i, s', p);
    }
  }

  lemma LastWritePast(base: nat, prog: seq<Op>, i: nat, s: Facts, p: Place, x: nat)
    requires i <= |prog| && LastWriteOk(base, prog, i, s, p, x)
    ensures x < i && prog[x].IsWrite() && Target(base, prog, prog[x]) == p && x !in s.redundant
  {}

  /** The write itself passes over its own place when it stores what is there, and over all others. */
  lemma PassesSame(base: nat, prog: seq<Op>, s: Facts, p: Place, j: nat)
    requires j < |prog| && prog[j].IsWrite() && (Target(base, prog, prog[j]) == p ==> j in s.same)
    ensures PassesOver(base, prog, s, p, j)
  {}

  lemma NewLastWrite(base: nat, prog: seq<Op>, i: nat, s: Facts, p: Place)
    requires i < |prog| && prog[i].IsWrite() && Target(base, prog, prog[i]) == p && i !in s.redundant
    ensures LastWriteOk(base, prog, i + 1, s, p, i)
  {}

  lemma NodeAt(base: nat, prog: seq<Op>, i: nat, s: Facts, p: Place)
    requires WellFormed(base, prog) && i <= |prog| && KnownOk(base, prog, i, s) && p in s.known
    ensures NodeOk(base, prog, i, s, p)
  {}

  /** Writes to different places go to different members, or to different elements. */
  lemma TargetsApart(base: nat, prog: seq<Op>, i: nat, x: nat)
    requires i < |prog| && x < |prog| && prog[i].IsWrite() && prog[x].IsWrite()
    requires Target(base, prog, prog[x]) != Target(base, prog, prog[i])
    ensures !SameMember(Target(base, prog, prog[i]), Target(base, prog, prog[x]))
  {}

  lemma AliasesStay(s: Facts, s': Facts, p: Place, q: Place)
    requires !Resolved(p) && !SameMember(p, q)
    requires forall r :: r in s.known && r != p && !(SameMember(p, r) && Resolved(r)) ==> r in s'.known
    ensures MayAlias(s.known, q) <= MayAlias(s'.known, q)
  {}

  lemma OtherNode(base: nat, prog: seq<Op>, i: nat, s: Facts, q: Place)
    requires Good(base, prog, i, s) && i < |prog| && prog[i].IsWrite() && q in After(base, prog, i, s).known
    requires q != Target(base, prog, prog[i])
    ensures NodeOk(base, prog, i + 1, After(base, prog, i, s), q)
  {
    hide KnownOk, StatefulOk, ReplOk, ReadsOk, RedundantOk, Spares, CellIs, WellFormed, PlaceOf, Target, After,
        AfterWrite, LastWriteOk, MayAlias, PassesOver, SameMember, Resolved;
    var s', p := After(base, prog, i, s), Target(base, prog, prog[i]);
    TargetIsPlace(base, prog, i, s.repl);
    AfterIsWrite(base, prog, i, s, p);
    AfterWriteIs(s, i, p, Translate(s.repl, prog[i].val));
    assert Spares(base, prog, prog[i], q);
    NodeAt(base, prog, i, s, q);
    if s.known[q].lastWrite.Some? {
      var x := s.known[q].lastWrite.value;
      LastWritePast(base, prog, i, s, q, x);
      if p in s.known {
        NodeAt(base, prog, i, s, p);
        if s.known[p].lastWrite.Some? { LastWritePast(base, prog, i, s, p, s.known[p].lastWrite.value); }
      }
      TargetsApart(base, prog, i, x);
      AliasesStay(s, s', p, q);
      PassesSame(base, prog, s', q, i);
      LastWriteKept(base, prog, i, s, s', q, x);
    }
    CellKept(base, prog, i, q, s.known[q].stored);
  }

  /** The write found redundant, if any, is. */
  lemma WriteRedundant(base: nat, prog: seq<Op>, i: nat, s: Facts)
    requires Good(base, prog, i, s) && i < |prog| && prog[i].IsWrite()
    ensures RedundantOk(base, prog, i + 1, After(base, prog, i, s))
  {
    hide KnownOk, StatefulOk, ReplOk, ReadsOk, WellFormed, PlaceOf, Target, Spares, RedundantOk, After, AfterWrite,
        CellIs, LastWriteOk;
    var p := Target(base, prog, prog[i]);
    TargetIsPlace(base, prog, i, s.repl);
    AfterIsWrite(base, prog, i, s, p);
    if p in s.known {
      NodeAt(base, prog, i, s, p);
      if s.known[p].stored == Translate(s.repl, prog[i].val) { SameWritten(base, prog, i, s.repl, p); }
    }
    RedundantAfter(base, prog, i, s, p, Translate(s.repl, prog[i].val));
  }

  lemma RedundantAfter(base: nat, prog: seq<Op>, i: nat, s: Facts, p: Place, val: Id)
    requires WellFormed(base, prog) && i < |prog| && prog[i].IsWrite() && Target(base, prog, prog[i]) == p
    requires !Resolved(p) && RedundantOk(base, prog, i, s)
    requires p in s.known && s.known[p].lastWrite.Some? ==> LastWriteOk(base, prog, i, s, p, s.known[p].lastWrite.value)
    requires p in s.known && s.known[p].stored == val ==> SameOk(base, prog, i)
    ensures RedundantOk(base, prog, i + 1, AfterWrite(s, i, p, val))
  {
    hide RedundantOk, SameOk, Target, MayRead, MayAlias, WellFormed, PassesOver, AfterWrite, LastWriteOk, DeadOk;
    var s' := AfterWrite(s, i, p, val);
    AfterWriteIs(s, i, p, val);
    if p in s.known && s.known[p].stored == val {
      AddSame(base, prog, i, s, s');
    } else if p in s.known && s.known[p].lastWrite.Some? && MayAlias(s.known, p) == {} {
      var x := s.known[p].lastWrite.value;
      LastWritePast(base, prog, i, s, p, x);
      NotSameYet(base, prog, i, s);
      Overwritten(base, prog, i, s, p, x);
      AddDead(base, prog, i, s, s', x);
    } else {
      RedundantKept(base, prog, i, s, s');
    }
  }

  lemma NotSameYet(base: nat, prog: seq<Op>, i: nat, s: Facts)
    requires WellFormed(base, prog) && i < |prog| && RedundantOk(base, prog, i, s)
    ensures i !in s.same && i !in s.redundant
  {}

  lemma AddSame(base: nat, prog: seq<Op>, i: nat, s: Facts, s': Facts)
    requires WellFormed(base, prog) && i < |prog| && RedundantOk(base, prog, i, s) && SameOk(base, prog, i)
    requires s'.same == s.same + {i} && s'.redundant == s.redundant + [i] && s'.dead == s.dead && s'.repl == s.repl
    ensures RedundantOk(base, prog, i + 1, s')
  {
    hide SameOk, WellFormed, Target, MayRead;
    forall x | x in s.dead ensures DeadOk(base, prog, s'.repl, s'.same, x, s.dead[x]) {
      assert DeadOk(base, prog, s.repl, s.same, x, s.dead[x]);
    }
    forall x
      ensures x in s'.redundant <==> x in s'.same || x in s'.dead
    {
      assert x in s'.redundant <==> x in s.redundant || x == i;
    }
    assert forall k :: 0 <= k < |s.redundant| ==> s.redundant[k] in s.redundant;
  }

  lemma AddDead(base: nat, prog: seq<Op>, i: nat, s: Facts, s': Facts, x: nat)
    requires WellFormed(base, prog) && i < |prog| && RedundantOk(base, prog, i, s) && x < i && x !in s.redundant
    requires DeadOk(base, prog, s.repl, s.same, x, i)
    requires s'.same == s.same && s'.redundant == s.redundant + [x] && s'.dead == s.dead[x := i] && s'.repl == s.repl
    ensures RedundantOk(base, prog, i + 1, s')
  {
    hide SameOk, WellFormed, DeadOk;
    forall y
      ensures y in s'.redundant <==> y in s'.same || y in s'.dead
    {
      assert y in s'.redundant <==> y in s.redundant || y == x;
    }
    assert forall k :: 0 <= k < |s.redundant| ==> s.redundant[k] in s.redundant;
  }

  lemma Overwritten(base: nat, prog: seq<Op>, i: nat, s: Facts, p: Place, x: nat)
    requires i < |prog| && LastWriteOk(base, prog, i, s, p, x) && MayAlias(s.known, p) == {}
    requires prog[i].IsWrite() && Target(base, prog, prog[i]) == p && i !in s.same
    ensures DeadOk(base, prog, s.repl, s.same, x, i)
  {
    forall j | x < j < i
      ensures MayRead(base, prog, prog[j], p) ==> base + j in s.repl
      ensures prog[j].IsWrite() && Target(base, prog, prog[j]) == p ==> j in s.same
    {
      assert PassesOver(base, prog, s, p, j);
    }
  }

  lemma SameWritten(base: nat, prog: seq<Op>, i: nat, repl: map<Id, Id>, p: Place)
    requires WellFormed(base, prog) && i < |prog| && ReplOk(base, prog, i, repl) && prog[i].IsWrite()
    requires p == Target(base, prog, prog[i])
    requires CellIs(base, prog, i, p, Translate(repl, prog[i].val))
    ensures SameOk(base, prog, i)
  {
    assert OpOk(base, prog, i);
    DefinedArgs(prog[i], base + i);
    TranslateEq(base, prog, i, repl, prog[i].val);
    forall w: World, m: Machine | |m.env| == base
      ensures At(w, base, prog, i, m).cells(CellAt(w, At(w, base, prog, i, m).env, p)) ==
          At(w, base, prog, i, m).env[prog[i].val]
    {
      assert At(w, base, prog, i, m).env[Translate(repl, prog[i].val)] == At(w, base, prog, i, m).env[prog[i].val];
    }
  }

  /** Every operation keeps everything justified. */
  lemma GoodStep(base: nat, prog: seq<Op>, i: nat, s: Facts)
    requires Good(base, prog, i, s) && i < |prog|
    ensures Good(base, prog, i + 1, After(base, prog, i, s))
  {
    match prog[i] {
      case ReadMember(_, _, _) => StepRead(base, prog, i, s);
      case ReadArray(_, _) => StepRead(base, prog, i, s);
      case WriteMember(_, _, _) => StepWrite(base, prog, i, s);
      case WriteArray(_, _, _) => StepWrite(base, prog, i, s);
      case NewArray(_) => StepNewArray(base, prog, i, s);
      case ReadGlobal(_) => StepGlobal(base, prog, i, s);
      case WriteGlobal(_, _) => StepGlobal(base, prog, i, s);
      case Load(_) => StepRam(base, prog, i, s);
      case Store(_, _) => StepRam(base, prog, i, s);
      case _ => StepPlain(base, prog, i, s);
    }
  }

  lemma GoodStart(base: nat, prog: seq<Op>)
    requires WellFormed(base, prog)
    ensures Good(base, prog, 0, Start())
  {}
}
