/** Collecting the operands visible in an array at an operation, by walking its write history backwards from there. */
module ContainmentMap {
  import opened ArrayIndex
  import opened ArrayHistory

  // ---------- histories that come back to an array ----------

  /** An array looked at before operation `n`, under `prefix`. */
  datatype View = View(arr: Id, n: nat, prefix: Index)

  /** Looking at `v` needs looking at `u`: extracted from it, or inserted into what `v` shows. */
  ghost predicate Feeds(ops: seq<Op>, u: View, v: View) {
    && u.n < v.n && u.n < |ops|
    && match ops[u.n]
       case Extract(arr, source, index) => arr == v.arr && source == u.arr && u.prefix == index + v.prefix
       case Insert(arr, index, source) => arr == v.arr && source == u.arr && u.prefix == [] &&
         CanOverlap(index, v.prefix)
       case _ => false
  }

  /** Each view needs the next. */
  ghost predicate IsChain(ops: seq<Op>, chain: seq<View>) {
    forall i :: 0 <= i < |chain| - 1 ==> Feeds(ops, chain[i + 1], chain[i])
  }

  ghost predicate ComesBack(chain: seq<View>, active: set<Id>) {
    chain != [] && (chain[|chain| - 1].arr in active ||
      exists i :: 0 <= i < |chain| - 1 && chain[i].arr == chain[|chain| - 1].arr)
  }

  /** Some chain of copies leads from `v` back to an array on it, or to an active one. */
  ghost predicate Cyclic(ops: seq<Op>, v: View, active: set<Id>) {
    exists chain: seq<View> :: chain != [] && chain[0] == v && IsChain(ops, chain) && ComesBack(chain, active)
  }

  lemma ActiveCyclic(ops: seq<Op>, v: View, active: set<Id>)
    requires v.arr in active
    ensures Cyclic(ops, v, active)
  {
    var chain := [v];
    assert IsChain(ops, chain) && ComesBack(chain, active);
  }

  lemma FedCyclic(ops: seq<Op>, u: View, v: View, active: set<Id>)
    requires Feeds(ops, u, v) && Cyclic(ops, u, active + {v.arr})
    ensures Cyclic(ops, v, active)
  {
    var tail: seq<View> :| tail != [] && tail[0] == u && IsChain(ops, tail) && ComesBack(tail, active + {v.arr});
    var chain := [v] + tail;
    forall i | 0 <= i < |chain| - 1 ensures Feeds(ops, chain[i + 1], chain[i]) {
      if i > 0 { assert chain[i + 1] == tail[i] && chain[i] == tail[i - 1]; }
    }
    var last := tail[|tail| - 1];
    assert chain[|chain| - 1] == last;
    if last.arr == v.arr {
      assert chain[0].arr == last.arr;
    } else if last.arr !in active {
      var i :| 0 <= i < |tail| - 1 && tail[i].arr == last.arr;
      assert chain[i + 1].arr == last.arr;
    }
    assert ComesBack(chain, active);
  }

  lemma CyclicFed(ops: seq<Op>, v: View, active: set<Id>) returns (u: View)
    requires Cyclic(ops, v, active) && v.arr !in active
    ensures Feeds(ops, u, v) && Cyclic(ops, u, active + {v.arr})
  {
    var chain: seq<View> :| chain != [] && chain[0] == v && IsChain(ops, chain) && ComesBack(chain, active);
    var tail := chain[1..];
    u := chain[1];
    forall i | 0 <= i < |tail| - 1 ensures Feeds(ops, tail[i + 1], tail[i]) {
      assert Feeds(ops, chain[i + 2], chain[i + 1]);
    }
    var last := chain[|chain| - 1];
    assert tail[|tail| - 1] == last && Feeds(ops, chain[0 + 1], chain[0]);
    if last.arr !in active + {v.arr} {
      var i :| 0 <= i < |chain| - 1 && chain[i].arr == last.arr;
      assert tail[i - 1].arr == last.arr;
    }
    assert ComesBack(tail, active + {v.arr});
  }

  /** Copies that only go from arrays of lower rank to arrays of higher rank. */
  ghost predicate Ranked(ops: seq<Op>, rank: Id -> nat) {
    forall j :: 0 <= j < |ops| && (ops[j].Extract? || ops[j].Insert?) ==> rank(ops[j].source) < rank(ops[j].arr)
  }

  /** Then no history comes back. */
  lemma RankedNeverCyclic(ops: seq<Op>, rank: Id -> nat, v: View)
    requires Ranked(ops, rank)
    ensures !Cyclic(ops, v, {})
  {
    if Cyclic(ops, v, {}) {
      var chain: seq<View> :| chain != [] && chain[0] == v && IsChain(ops, chain) && ComesBack(chain, {});
      var last := |chain| - 1;
      var i :| 0 <= i < last && chain[i].arr == chain[last].arr;
      RanksFall(ops, rank, chain, i, last);
    }
  }

  lemma {:induction false} RanksFall(ops: seq<Op>, rank: Id -> nat, chain: seq<View>, i: nat, j: nat)
    requires Ranked(ops, rank) && IsChain(ops, chain) && i < j < |chain|
    ensures rank(chain[j].arr) < rank(chain[i].arr)
    decreases j
  {
    var m := j - 1;
    assert Feeds(ops, chain[m + 1], chain[m]);
    if i == m {
    } else {
      RanksFall(ops, rank, chain, i, m);
    }
  }

  // ---------- what has been collected ----------

  ghost predicate Shows(elements: map<Index, Ref>, w: Index -> Option<Ref>, prefix: Index) {
    forall idx: Index :: if idx in elements then w(prefix + idx) == Some(elements[idx]) else w(prefix + idx) == None
  }

  lemma PrefixRest(idx: Index, prefix: Index, rest: Index)
    ensures idx == prefix + rest <==> StartsWith(idx, prefix) && idx[|prefix|..] == rest
  {
    if StartsWith(idx, prefix) { assert idx == prefix + idx[|prefix|..]; }
    if idx == prefix + rest { assert idx[|prefix|..] == rest; }
  }

  /** The element at `idx` set to `ref`, or to nothing, as far as the prefix shows it. */
  function Put(elements: map<Index, Ref>, prefix: Index, idx: Index, ref: Option<Ref>): map<Index, Ref> {
    if !StartsWith(idx, prefix) then elements
    else if ref.Some? then elements[idx[|prefix|..] := ref.value]
    else elements - {idx[|prefix|..]}
  }

  lemma PutShows(elements: map<Index, Ref>, w: Index -> Option<Ref>, w': Index -> Option<Ref>, prefix: Index,
          idx: Index, ref: Option<Ref>)
    requires Shows(elements, w, prefix) && forall i: Index :: w'(i) == if i == idx then ref else w(i)
    ensures Shows(Put(elements, prefix, idx, ref), w', prefix)
  {
    var elements' := Put(elements, prefix, idx, ref);
    forall rest: Index
      ensures if rest in elements' then w'(prefix + rest) == Some(elements'[rest]) else w'(prefix + rest) == None
    {
      PrefixRest(idx, prefix, rest);
    }
  }

  /** The first `n` elements of a new array, or of an inserted one, in row-major order. */
  ghost function Filled(shape: Index, n: nat, at: Index, from: Index -> Option<Ref>,
          w: Index -> Option<Ref>): Index -> Option<Ref>
  {
    (idx: Index) => if StartsWith(idx, at) && InShape(shape, idx[|at|..]) && Linear(shape, idx[|at|..]) < n
      then from(idx[|at|..]) else w(idx)
  }

  lemma FilledStep(shape: Index, n: nat, at: Index, from: Index -> Option<Ref>, w: Index -> Option<Ref>, idx: Index)
    requires n < Count(shape)
    ensures Filled(shape, n + 1, at, from, w)(idx) == if idx == at + Delinear(shape, n) then from(Delinear(shape, n))
        else Filled(shape, n, at, from, w)(idx)
  {
    LinearOfDelinear(shape, n);
    PrefixRest(idx, at, Delinear(shape, n));
    if StartsWith(idx, at) && InShape(shape, idx[|at|..]) && Linear(shape, idx[|at|..]) == n {
      DelinearOfLinear(shape, idx[|at|..]);
    }
  }

  // ---------- one operation of the history ----------

  /** The operation that defines an array, among the first `n`. */
  method DefiningOp(ops: seq<Op>, a: Id, n: nat) returns (def: Option<nat>)
    requires n <= |ops|
    ensures def.Some? ==> def.value < n && Defines(ops[def.value], a)
    ensures def.None? ==> forall j :: 0 <= j < n ==> !Defines(ops[j], a)
  {
    var j := 0;
    while j < n
      invariant j <= n && forall i :: 0 <= i < j ==> !Defines(ops[i], a)
    {
      if Defines(ops[j], a) { return Some(j); }
      j := j + 1;
    }
    return None;
  }

  /** Where the history of an array begins. */
  function Begin(def: Option<nat>): nat { if def.Some? then def.value + 1 else 0 }

  ghost predicate IsDef(ops: seq<Op>, a: Id, n: nat, def: Option<nat>) {
    && n <= |ops| && (def.Some? ==> def.value < n && Defines(ops[def.value], a))
    && (def.None? ==> forall j :: 0 <= j < n ==> !Defines(ops[j], a))
  }

  predicate Changes(op: Op, a: Id) { (op.Write? || op.Insert?) && op.arr == a }

  lemma DefinedOnce(ops: seq<Op>, shape: Id -> Index, i: nat, j: nat, a: Id)
    requires Ordered(ops, shape) && i < |ops| && j < |ops| && Defines(ops[i], a) && Defines(ops[j], a)
    ensures i == j
  {}

  lemma ChangesAfter(ops: seq<Op>, shape: Id -> Index, a: Id, n: nat, def: Option<nat>, j: nat)
    requires Ordered(ops, shape) && IsDef(ops, a, n, def) && j < n
    ensures Changes(ops[j], a) ==> Begin(def) <= j
    ensures Begin(def) <= j ==> !Defines(ops[j], a)
  {
    if def.Some? {
      if j < def.value { assert !Mentions(ops[j], a); }
      if Defines(ops[j], a) { DefinedOnce(ops, shape, def.value, j, a); }
    }
  }

  function Reached(def: Option<nat>, j: nat): nat { if j < Begin(def) then Begin(def) else j }

  lemma SameShows(elements: map<Index, Ref>, w: Index -> Option<Ref>, w': Index -> Option<Ref>, prefix: Index)
    requires Shows(elements, w, prefix) && forall idx: Index :: w'(prefix + idx) == w(prefix + idx)
    ensures Shows(elements, w', prefix)
  {}

  lemma NothingBefore(ops: seq<Op>, shape: Id -> Index, a: Id, prefix: Index)
    ensures Shows(map[], Before(ops, shape, 0)(a), prefix)
  {}

  lemma OverlapsPrefix(index: Index, prefix: Index, rest: Index)
    requires StartsWith(prefix + rest, index)
    ensures CanOverlap(index, prefix)
  {}

  /** An operation that does not change the array. */
  lemma UnchangedStep(ops: seq<Op>, shape: Id -> Index, a: Id, n: nat, def: Option<nat>, j: nat,
          elements: map<Index, Ref>, prefix: Index)
    requires Ordered(ops, shape) && IsDef(ops, a, n, def) && j < n
    requires Shows(elements, Before(ops, shape, Reached(def, j))(a), prefix)
    requires !Changes(ops[j], a) || (ops[j].Insert? && !CanOverlap(ops[j].index, prefix))
    ensures Shows(elements, Before(ops, shape, Reached(def, j + 1))(a), prefix)
  {
    ChangesAfter(ops, shape, a, n, def, j);
    if Begin(def) <= j {
      forall idx: Index ensures Before(ops, shape, j + 1)(a)(prefix + idx) == Before(ops, shape, j)(a)(prefix + idx) {
        if Changes(ops[j], a) && StartsWith(prefix + idx, ops[j].index) { OverlapsPrefix(ops[j].index, prefix, idx); }
      }
      SameShows(elements, Before(ops, shape, j)(a), Before(ops, shape, j + 1)(a), prefix);
    }
  }

  lemma WriteStep(ops: seq<Op>, shape: Id -> Index, a: Id, n: nat, def: Option<nat>, j: nat, elements: map<Index, Ref>,
          prefix: Index)
    requires Ordered(ops, shape) && IsDef(ops, a, n, def) && j < n
    requires Shows(elements, Before(ops, shape, Reached(def, j))(a), prefix)
    requires ops[j].Write? && ops[j].arr == a
    ensures Shows(Put(elements, prefix, ops[j].index, Some(Ref(j, 0))), Before(ops, shape, Reached(def, j + 1))(a),
        prefix)
  {
    ChangesAfter(ops, shape, a, n, def, j);
    PutShows(elements, Before(ops, shape, j)(a), Before(ops, shape, j + 1)(a), prefix, ops[j].index, Some(Ref(j, 0)));
  }

  /** All elements of a shape, in row-major order, put at `at`. */
  method PutAll(elements: map<Index, Ref>, prefix: Index, shape: Index, at: Index, inserted: map<Index, Ref>,
          ghost from: Index -> Option<Ref>, ghost w: Index -> Option<Ref>)
    returns (result: map<Index, Ref>)
    requires Shows(elements, w, prefix) && InsertedIs(inserted, shape, from)
    ensures Shows(result, Filled(shape, Count(shape), at, from, w), prefix)
  {
    hide Shows, Filled, Put, InShape, InsertedIs;
    result := elements;
    FilledNothing(shape, at, from, w, elements, prefix);
    var k := 0;
    while k < Count(shape)
      invariant k <= Count(shape) && Shows(result, Filled(shape, k, at, from, w), prefix)
    {
      var next, index := k + 1, Delinear(shape, k);
      var ref := if index in inserted then Some(inserted[index]) else None;
      InsertedAt(inserted, shape, from, k);
      forall idx: Index
        ensures Filled(shape, next, at, from, w)(idx) == if idx == at + index then ref
            else Filled(shape, k, at, from, w)(idx)
      {
        FilledStep(shape, k, at, from, w, idx);
      }
      PutShows(result, Filled(shape, k, at, from, w), Filled(shape, next, at, from, w), prefix, at + index, ref);
      result := Put(result, prefix, at + index, ref);
      k := next;
    }
  }

  ghost predicate InsertedIs(inserted: map<Index, Ref>, shape: Index, from: Index -> Option<Ref>) {
    forall idx: Index :: InShape(shape, idx) ==> if idx in inserted then from(idx) == Some(inserted[idx])
      else from(idx) == None
  }

  lemma InsertedAt(inserted: map<Index, Ref>, shape: Index, from: Index -> Option<Ref>, k: nat)
    requires InsertedIs(inserted, shape, from) && k < Count(shape)
    ensures from(Delinear(shape, k)) == if Delinear(shape, k) in inserted then Some(inserted[Delinear(shape, k)])
        else None
  {
    LinearOfDelinear(shape, k);
  }

  lemma FilledNothing(shape: Index, at: Index, from: Index -> Option<Ref>, w: Index -> Option<Ref>,
          elements: map<Index, Ref>, prefix: Index)
    requires Shows(elements, w, prefix)
    ensures Shows(elements, Filled(shape, 0, at, from, w), prefix)
  {
    SameShows(elements, w, Filled(shape, 0, at, from, w), prefix);
  }

  lemma InsertStep(ops: seq<Op>, shape: Id -> Index, a: Id, n: nat, def: Option<nat>, j: nat, elements: map<Index, Ref>,
          prefix: Index)
    requires Ordered(ops, shape) && IsDef(ops, a, n, def) && j < n && ops[j].Insert? && ops[j].arr == a
    requires var s := shape(ops[j].source);
             Shows(elements, Filled(s, Count(s), ops[j].index, Before(ops, shape, j)(ops[j].source),
               Before(ops, shape, j)(a)), prefix)
    ensures Shows(elements, Before(ops, shape, Reached(def, j + 1))(a), prefix)
  {
    ChangesAfter(ops, shape, a, n, def, j);
    var s, w := shape(ops[j].source), Before(ops, shape, j)(a);
    var filled := Filled(s, Count(s), ops[j].index, Before(ops, shape, j)(ops[j].source), w);
    forall idx: Index ensures Before(ops, shape, j + 1)(a)(idx) == filled(idx) {
      if StartsWith(idx, ops[j].index) && InShape(s, idx[|ops[j].index|..]) { LinearInRange(s, idx[|ops[j].index|..]); }
    }
    SameShows(elements, filled, Before(ops, shape, j + 1)(a), prefix);
  }

  lemma ExtractStart(ops: seq<Op>, shape: Id -> Index, d: nat, elements: map<Index, Ref>, prefix: Index)
    requires d < |ops| && ops[d].Extract?
    requires Shows(elements, Before(ops, shape, d)(ops[d].source), ops[d].index + prefix)
    ensures Shows(elements, Before(ops, shape, d + 1)(ops[d].arr), prefix)
  {
    forall idx: Index
      ensures Before(ops, shape, d + 1)(ops[d].arr)(prefix + idx) ==
          Before(ops, shape, d)(ops[d].source)(ops[d].index + prefix + idx)
    {
      assert ops[d].index + (prefix + idx) == ops[d].index + prefix + idx;
    }
  }

  // ---------- new arrays ----------

  const WHOLE: Index := []

  ghost function Nothing(): Index -> Option<Ref> { (idx: Index) => None }

  ghost function NewRefs(shape: Index, d: nat): Index -> Option<Ref> {
    (idx: Index) => if |idx| == |shape| then Some(Ref(d, Linear(shape, idx))) else None
  }

  /** The operands of a new array, in row-major order. */
  method PutNew(prefix: Index, shape: Index, d: nat) returns (result: map<Index, Ref>)
    ensures Shows(result, Filled(shape, Count(shape), WHOLE, NewRefs(shape, d), Nothing()), prefix)
  {
    hide Shows, Filled, Put, InShape;
    result := map[];
    EmptyShows(prefix);
    FilledNothing(shape, WHOLE, NewRefs(shape, d), Nothing(), result, prefix);
    var k := 0;
    while k < Count(shape)
      invariant k <= Count(shape) && Shows(result, Filled(shape, k, WHOLE, NewRefs(shape, d), Nothing()), prefix)
    {
      var next, index := k + 1, Delinear(shape, k);
      LinearOfDelinear(shape, k);
      assert WHOLE + index == index;
      forall idx: Index
        ensures Filled(shape, next, WHOLE, NewRefs(shape, d), Nothing())(idx) == if idx == index then Some(Ref(d, k))
            else Filled(shape, k, WHOLE, NewRefs(shape, d), Nothing())(idx)
      {
        FilledStep(shape, k, WHOLE, NewRefs(shape, d), Nothing(), idx);
      }
      PutShows(result, Filled(shape, k, WHOLE, NewRefs(shape, d), Nothing()),
        Filled(shape, next, WHOLE, NewRefs(shape, d), Nothing()), prefix, index, Some(Ref(d, k)));
      result := Put(result, prefix, index, Some(Ref(d, k)));
      k := next;
    }
  }

  lemma EmptyShows(prefix: Index)
    ensures Shows(map[], Nothing(), prefix)
  {}

  lemma NewStart(ops: seq<Op>, shape: Id -> Index, d: nat, elements: map<Index, Ref>, prefix: Index)
    requires Ordered(ops, shape) && d < |ops| && ops[d].New?
    requires var s := shape(ops[d].arr);
             Shows(elements, if ops[d].elems == [] then Nothing()
               else Filled(s, Count(s), WHOLE, NewRefs(s, d), Nothing()), prefix)
    ensures Shows(elements, Before(ops, shape, d + 1)(ops[d].arr), prefix)
  {
    hide Shows, Linear, Count, InShape;
    var arr := ops[d].arr;
    var s := shape(arr);
    if ops[d].elems == [] {
      SameShows(elements, Nothing(), Before(ops, shape, d + 1)(arr), prefix);
    } else {
      forall idx: Index
        ensures Before(ops, shape, d + 1)(arr)(idx) == Filled(s, Count(s), WHOLE, NewRefs(s, d), Nothing())(idx)
      {
        assert idx[|WHOLE|..] == idx && StartsWith(idx, WHOLE);
        if InShape(s, idx) {
          LinearInRange(s, idx);
          InShapeLength(s, idx);
        }
      }
      SameShows(elements, Filled(s, Count(s), WHOLE, NewRefs(s, d), Nothing()), Before(ops, shape, d + 1)(arr), prefix);
    }
  }

  lemma InShapeLength(shape: Index, idx: Index)
    requires InShape(shape, idx)
    ensures |idx| == |shape|
  {}

  // ---------- the collection ----------

  /** The operation defining the array, or inserting into it, before `j`: none of their sources comes back. */
  ghost predicate NoneBack(ops: seq<Op>, v: View, active: set<Id>, j: nat) {
    forall u :: Feeds(ops, u, v) && (u.n < j || Defines(ops[u.n], v.arr)) ==> !Cyclic(ops, u, active + {v.arr})
  }

  lemma StartNoneBack(ops: seq<Op>, shape: Id -> Index, v: View, active: set<Id>, def: Option<nat>)
    requires Ordered(ops, shape) && v.n <= |ops| && IsDef(ops, v.arr, v.n, def)
    requires def.Some? && ops[def.value].Extract? ==>
        !Cyclic(ops, View(ops[def.value].source, def.value, ops[def.value].index + v.prefix), active + {v.arr})
    ensures NoneBack(ops, v, active, 0)
  {
    forall u | Feeds(ops, u, v) && Defines(ops[u.n], v.arr) ensures !Cyclic(ops, u, active + {v.arr}) {
      DefinedOnce(ops, shape, u.n, def.value, v.arr);
    }
  }

  lemma StepNoneBack(ops: seq<Op>, v: View, active: set<Id>, j: nat)
    requires NoneBack(ops, v, active, j) && j < |ops|
    requires Changes(ops[j], v.arr) && ops[j].Insert? && CanOverlap(ops[j].index, v.prefix) ==>
        !Cyclic(ops, View(ops[j].source, j, []), active + {v.arr})
    ensures NoneBack(ops, v, active, j + 1)
  {
    forall u | Feeds(ops, u, v) && (u.n < j + 1 || Defines(ops[u.n], v.arr)) ensures !Cyclic(ops, u, active + {v.arr}) {
      if u.n == j && !Defines(ops[j], v.arr) { assert u == View(ops[j].source, j, []); }
    }
  }

  lemma EndNotCyclic(ops: seq<Op>, v: View, active: set<Id>)
    requires NoneBack(ops, v, active, v.n) && v.arr !in active
    ensures !Cyclic(ops, v, active)
  {
    if Cyclic(ops, v, active) { var u := CyclicFed(ops, v, active); }
  }

  /** The operands visible under the prefix, by the rest of the index; fails exactly when a history comes back to an
      array being looked at. */
  method CollectMap(ops: seq<Op>, shape: Id -> Index, v: View, active: set<Id>)
    returns (ok: bool, elements: map<Index, Ref>)
    requires Ordered(ops, shape) && v.n <= |ops|
    ensures ok <==> !Cyclic(ops, v, active)
    ensures ok ==> Shows(elements, Before(ops, shape, v.n)(v.arr), v.prefix)
    decreases v.n, 1
  {
    hide Ordered, Cyclic, Shows, Before, NoneBack, IsDef, Filled, Put, CanOverlap, StartsWith;
    elements := map[];
    if v.arr in active {
      ActiveCyclic(ops, v, active);
      return false, elements;
    }
    NothingBefore(ops, shape, v.arr, v.prefix);
    var def := DefiningOp(ops, v.arr, v.n);
    assert IsDef(ops, v.arr, v.n, def) by { DefIs(ops, v.arr, v.n, def); }
    if def.Some? {
      match ops[def.value] {
        case New(_, elems) =>
          if elems == [] { EmptyShows(v.prefix); } else { elements := PutNew(v.prefix, shape(v.arr), def.value); }
          NewStart(ops, shape, def.value, elements, v.prefix);
        case Extract(_, source, index) =>
          var u := View(source, def.value, index + v.prefix);
          ok, elements := CollectMap(ops, shape, u, active + {v.arr});
          if !ok {
            FedCyclic(ops, u, v, active);
            return;
          }
          ExtractStart(ops, shape, def.value, elements, v.prefix);
      }
    }
    StartNoneBack(ops, shape, v, active, def);
    var j := 0;
    while j < v.n
      invariant j <= v.n && Shows(elements, Before(ops, shape, Reached(def, j))(v.arr), v.prefix)
      invariant NoneBack(ops, v, active, j)
    {
      ok, elements := CollectOp(ops, shape, v, active, def, j, elements);
      if !ok { return; }
      j := j + 1;
    }
    EndNotCyclic(ops, v, active);
    DefBefore(ops, v.arr, v.n, def);
    ok := true;
  }

  lemma DefIs(ops: seq<Op>, a: Id, n: nat, def: Option<nat>)
    requires n <= |ops| && (def.Some? ==> def.value < n && Defines(ops[def.value], a))
    requires (def.None? ==> forall j :: 0 <= j < n ==> !Defines(ops[j], a))
    ensures IsDef(ops, a, n, def)
  {}

  lemma DefBefore(ops: seq<Op>, a: Id, n: nat, def: Option<nat>)
    requires IsDef(ops, a, n, def)
    ensures Reached(def, n) == n
  {}

  /** One operation of the history: writes and overlapping insertions are taken over. */
  method CollectOp(ops: seq<Op>, shape: Id -> Index, v: View, active: set<Id>, def: Option<nat>, j: nat,
          elements0: map<Index, Ref>)
    returns (ok: bool, elements: map<Index, Ref>)
    requires Ordered(ops, shape) && j < v.n <= |ops| && IsDef(ops, v.arr, v.n, def)
    requires Shows(elements0, Before(ops, shape, Reached(def, j))(v.arr), v.prefix) && NoneBack(ops, v, active, j)
    ensures ok ==>
        Shows(elements, Before(ops, shape, Reached(def, j + 1))(v.arr), v.prefix) && NoneBack(ops, v, active, j + 1)
    ensures !ok ==> Cyclic(ops, v, active)
    decreases v.n, 0
  {
    hide Ordered, Cyclic, Shows, Before, NoneBack, IsDef, Filled, Put, CanOverlap, StartsWith;
    elements := elements0;
    ok := true;
    if !Changes(ops[j], v.arr) {
      UnchangedStep(ops, shape, v.arr, v.n, def, j, elements0, v.prefix);
    } else if ops[j].Write? {
      WriteStep(ops, shape, v.arr, v.n, def, j, elements0, v.prefix);
      elements := Put(elements0, v.prefix, ops[j].index, Some(Ref(j, 0)));
    } else if !CanOverlap(ops[j].index, v.prefix) {
      UnchangedStep(ops, shape, v.arr, v.n, def, j, elements0, v.prefix);
    } else {
      var source := ops[j].source;
      var s, u := shape(source), View(source, j, []);
      var inserted: seq<(Index, Ref)>;
      ok, inserted := CollectElements(ops, shape, u, active + {v.arr});
      if !ok {
        FedCyclic(ops, u, v, active);
        return;
      }
      var insertedMap := ToMap(inserted, s, Before(ops, shape, j)(source));
      ReachedHere(ops, shape, v.arr, v.n, def, j);
      elements := PutAll(elements0, v.prefix, s, ops[j].index, insertedMap, Before(ops, shape, j)(source),
        Before(ops, shape, j)(v.arr));
      InsertStep(ops, shape, v.arr, v.n, def, j, elements, v.prefix);
    }
    StepNoneBack(ops, v, active, j);
  }

  lemma ReachedHere(ops: seq<Op>, shape: Id -> Index, a: Id, n: nat, def: Option<nat>, j: nat)
    requires Ordered(ops, shape) && IsDef(ops, a, n, def) && j < n && Changes(ops[j], a)
    ensures Reached(def, j) == j
  {
    ChangesAfter(ops, shape, a, n, def, j);
  }

  function Position(shape: Index, idx: Index): nat { if InShape(shape, idx) then Linear(shape, idx) else 0 }

  ghost predicate Visible(shape: Index, k: nat, w: Index -> Option<Ref>, idx: Index) {
    InShape(shape, idx) && Position(shape, idx) < k && w(idx).Some?
  }

  ghost predicate ItemOk(item: (Index, Ref), shape: Index, k: nat, prefix: Index, w: Index -> Option<Ref>) {
    Visible(shape, k, w, prefix + item.0) && w(prefix + item.0).value == item.1
  }

  /** The elements visible below position `k`, each once, in row-major order, with indices relative to the prefix. */
  ghost predicate Listed(elements: seq<(Index, Ref)>, shape: Index, k: nat, prefix: Index, w: Index -> Option<Ref>) {
    && (forall i :: 0 <= i < |elements| ==> ItemOk(elements[i], shape, k, prefix, w))
    && (forall i, j ::
      0 <= i < j < |elements| ==> Position(shape, prefix + elements[i].0) < Position(shape, prefix + elements[j].0))
    && (forall idx :: Visible(shape, k, w, prefix + idx) ==> IndexListed(elements, idx))
  }

  ghost predicate IndexListed(elements: seq<(Index, Ref)>, idx: Index) {
    exists i :: 0 <= i < |elements| && elements[i].0 == idx
  }

  /** The one index at position `k`. */
  lemma VisibleNext(shape: Index, k: nat, w: Index -> Option<Ref>, idx: Index)
    requires k < Count(shape)
    ensures Visible(shape, k + 1, w, idx) <==> Visible(shape, k, w, idx) || (idx == Delinear(shape, k) && w(idx).Some?)
    ensures Position(shape, Delinear(shape, k)) == k
  {
    LinearOfDelinear(shape, k);
    if InShape(shape, idx) { DelinearOfLinear(shape, idx); }
  }

  lemma ListAdd(elements: seq<(Index, Ref)>, shape: Index, k: nat, prefix: Index, w: Index -> Option<Ref>, rest: Index,
          ref: Ref)
    requires Listed(elements, shape, k, prefix, w) && k < Count(shape) && Delinear(shape, k) == prefix + rest
    requires w(prefix + rest) == Some(ref)
    ensures Listed(elements + [(rest, ref)], shape, k + 1, prefix, w)
  {
    hide Position, InShape, Count;
    var elements' := elements + [(rest, ref)];
    VisibleNext(shape, k, w, prefix + rest);
    forall i | 0 <= i < |elements'| ensures ItemOk(elements'[i], shape, k + 1, prefix, w) {
      if i < |elements| { VisibleNext(shape, k, w, prefix + elements[i].0); }
    }
    forall i | 0 <= i < |elements|
      ensures Position(shape, prefix + elements[i].0) < k
    {
      assert ItemOk(elements[i], shape, k, prefix, w);
    }
    forall idx | Visible(shape, k + 1, w, prefix + idx) ensures IndexListed(elements', idx) {
      VisibleNext(shape, k, w, prefix + idx);
      if Visible(shape, k, w, prefix + idx) {
        var i :| 0 <= i < |elements| && elements[i].0 == idx;
        assert elements'[i].0 == idx;
      } else {
        PrefixRest(prefix + rest, prefix, idx);
        PrefixRest(prefix + rest, prefix, rest);
        assert elements'[|elements|].0 == idx;
      }
    }
  }

  lemma ListSkip(elements: seq<(Index, Ref)>, shape: Index, k: nat, prefix: Index, w: Index -> Option<Ref>)
    requires Listed(elements, shape, k, prefix, w) && k < Count(shape)
    requires forall rest :: Delinear(shape, k) == prefix + rest ==> w(prefix + rest) == None
    ensures Listed(elements, shape, k + 1, prefix, w)
  {
    hide Position, InShape, Count;
    forall i | 0 <= i < |elements|
      ensures ItemOk(elements[i], shape, k + 1, prefix, w)
    {
      VisibleNext(shape, k, w, prefix + elements[i].0);
    }
    forall idx | Visible(shape, k + 1, w, prefix + idx)
      ensures IndexListed(elements, idx)
    {
      VisibleNext(shape, k, w, prefix + idx);
    }
  }

  lemma ListStep(elements: seq<(Index, Ref)>, shape: Index, k: nat, prefix: Index, w: Index -> Option<Ref>,
          final: map<Index, Ref>)
    requires Listed(elements, shape, k, prefix, w) && Shows(final, w, prefix) && k < Count(shape)
    ensures var index := Delinear(shape, k);
            Listed(if StartsWith(index, prefix) && index[|prefix|..] in final
              then elements + [(index[|prefix|..], final[index[|prefix|..]])] else elements, shape, k + 1, prefix, w)
  {
    hide Listed, Count;
    var index := Delinear(shape, k);
    forall rest: Index
      ensures index == prefix + rest <==> StartsWith(index, prefix) && index[|prefix|..] == rest
    {
      PrefixRest(index, prefix, rest);
    }
    if StartsWith(index, prefix) && index[|prefix|..] in final {
      ListAdd(elements, shape, k, prefix, w, index[|prefix|..], final[index[|prefix|..]]);
    } else {
      ListSkip(elements, shape, k, prefix, w);
    }
  }

  method CollectElements(ops: seq<Op>, shape: Id -> Index, v: View, active: set<Id>)
    returns (ok: bool, elements: seq<(Index, Ref)>)
    requires Ordered(ops, shape) && v.n <= |ops|
    ensures ok <==> !Cyclic(ops, v, active)
    ensures ok ==> Listed(elements, shape(v.arr), Count(shape(v.arr)), v.prefix, Before(ops, shape, v.n)(v.arr))
    decreases v.n, 2
  {
    hide Ordered, Cyclic, Shows, Before, Listed, StartsWith;
    elements := [];
    var final: map<Index, Ref>;
    ok, final := CollectMap(ops, shape, v, active);
    if !ok { return; }
    var k, s := 0, shape(v.arr);
    NoneListed(s, v.prefix, Before(ops, shape, v.n)(v.arr));
    while k < Count(s)
      invariant k <= Count(s) && Listed(elements, s, k, v.prefix, Before(ops, shape, v.n)(v.arr))
    {
      ListStep(elements, s, k, v.prefix, Before(ops, shape, v.n)(v.arr), final);
      var index := Delinear(s, k);
      if StartsWith(index, v.prefix) {
        Starts(index, v.prefix);
        var relativeIndex := index[|v.prefix|..];
        if relativeIndex in final { elements := elements + [(relativeIndex, final[relativeIndex])]; }
      }
      k := k + 1;
    }
  }

  lemma NoneListed(shape: Index, prefix: Index, w: Index -> Option<Ref>)
    ensures Listed([], shape, 0, prefix, w)
  {}

  lemma Starts(idx: Index, prefix: Index)
    requires StartsWith(idx, prefix)
    ensures |prefix| <= |idx|
  {}

  method ToMap(inserted: seq<(Index, Ref)>, shape: Index, ghost w: Index -> Option<Ref>) returns (m: map<Index, Ref>)
    requires Listed(inserted, shape, Count(shape), [], w)
    ensures InsertedIs(m, shape, w)
  {
    m := map[];
    var i := 0;
    while i < |inserted|
      invariant i <= |inserted| && (forall idx :: idx in m ==> w(idx) == Some(m[idx]))
      invariant forall j :: 0 <= j < i ==> inserted[j].0 in m
    {
      assert [] + inserted[i].0 == inserted[i].0;
      m := m[inserted[i].0 := inserted[i].1];
      i := i + 1;
    }
    forall idx | InShape(shape, idx) && w(idx).Some? ensures idx in m {
      assert [] + idx == idx;
      LinearInRange(shape, idx);
      assert IndexListed(inserted, idx);
      var j :| 0 <= j < |inserted| && inserted[j].0 == idx;
    }
  }

  // ---------- what the elements are for ----------

  /** Every collected operand has the value the array holds there, whatever the arrays held at first. */
  lemma CollectedHold(ops: seq<Op>, shape: Id -> Index, env: Val -> int, c: Contents, v: View,
          elements: seq<(Index, Ref)>)
    requires Ordered(ops, shape) && v.n <= |ops|
    requires Listed(elements, shape(v.arr), Count(shape(v.arr)), v.prefix, Before(ops, shape, v.n)(v.arr))
    ensures forall i ::
        0 <= i < |elements| ==>
        RefTrue(ops, env, elements[i].1, RunTo(ops, shape, env, c, v.n)(v.arr)(v.prefix + elements[i].0))
  {
    forall i | 0 <= i < |elements|
      ensures RefTrue(ops, env, elements[i].1, RunTo(ops, shape, env, c, v.n)(v.arr)(v.prefix + elements[i].0))
    {
      LastWriterHolds(ops, shape, env, c, v.n, v.arr, v.prefix + elements[i].0);
    }
  }

  /** A row copied within its own array: every element is known, yet the collection gives up. */
  lemma RowCopyFails()
    ensures var ops := [New(0, [7, 8]), Extract(1, 0, [0]), Insert(0, [1], 1)];
            var shape := (a: Id) => if a == 0 then [2, 1] else [1];
            && Ordered(ops, shape) && Cyclic(ops, View(0, 3, []), {})
            && Before(ops, shape, 3)(0)([0, 0]) == Some(Ref(0, 0)) &&
              Before(ops, shape, 3)(0)([1, 0]) == Some(Ref(0, 0))
  {
    hide Before, Ordered, Cyclic;
    var ops := [New(0, [7, 8]), Extract(1, 0, [0]), Insert(0, [1], 1)];
    var shape := (a: Id) => if a == 0 then [2, 1] else [1];
    CopyCyclic(ops);
    CopyOrdered(ops, shape);
    WritersOfCopy(ops, shape);
  }

  lemma CopyCyclic(ops: seq<Op>)
    requires ops == [New(0, [7, 8]), Extract(1, 0, [0]), Insert(0, [1], 1)]
    ensures Cyclic(ops, View(0, 3, []), {})
  {
    var chain := [View(0, 3, WHOLE), View(1, 2, WHOLE), View(0, 1, [0])];
    assert [0] + WHOLE == [0];
    assert Feeds(ops, chain[1], chain[0]) && Feeds(ops, chain[2], chain[1]);
    assert chain[0].arr == chain[2].arr;
    assert IsChain(ops, chain) && ComesBack(chain, {});
  }

  lemma CopyOrdered(ops: seq<Op>, shape: Id -> Index)
    requires ops == [New(0, [7, 8]), Extract(1, 0, [0]), Insert(0, [1], 1)] && shape(0) == [2, 1] && shape(1) == [1]
    ensures Ordered(ops, shape)
  {
    SmallIndices();
  }

  lemma SmallIndices()
    ensures Count([2, 1]) == 2 && InShape([2, 1], [0, 0]) && InShape([1], [0]) && Linear([2, 1], [0, 0]) == 0
  {
    assert Count([1]) == 1 && Count([2, 1]) == 2;
    assert Linear([1], [0]) == 0;
  }

  lemma WritersOfCopy(ops: seq<Op>, shape: Id -> Index)
    requires ops == [New(0, [7, 8]), Extract(1, 0, [0]), Insert(0, [1], 1)] && shape(0) == [2, 1] && shape(1) == [1]
    ensures Before(ops, shape, 3)(0)([0, 0]) == Some(Ref(0, 0)) && Before(ops, shape, 3)(0)([1, 0]) == Some(Ref(0, 0))
  {
    SmallIndices();
    assert [1, 0][1..] == [0] && [0] + [0] == [0, 0];
    assert Before(ops, shape, 1)(0)([0, 0]) == Some(Ref(0, 0));
    assert Before(ops, shape, 2)(1)([0]) == Some(Ref(0, 0));
    assert Before(ops, shape, 2)(0)([0, 0]) == Some(Ref(0, 0));
  }
}
