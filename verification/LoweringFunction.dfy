/** Degree lowering of one expression as a function of the state it finds: which edits are made, in which order,
    and which value stands for the expression afterwards. */
module LoweringFunction {
  import opened Ir
  import opened LoweringState
  import opened LoweringSteps
  import opened PolyLowering

  /** A state, and the value that stands for what was lowered. */
  datatype Next = Next(s: State, r: Id)

  /** A state with both lowered operands of a binary operation. */
  datatype Pair = Pair(s: State, lhs: Id, rhs: Id)

  /** `v` stands for itself unless something already stands for it. */
  ghost function Cached(s: State, v: Id): State {
    if v in s.rewrites then s else s.(rewrites := s.rewrites[v := v])
  }

  /** One side factored out after the other, the larger first, until the product of both fits. */
  ghost function Fit(c: Config, s: State, lhs: Id, rhs: Id, k: nat): (Pair, nat)
    decreases (if lhs in s.memo then s.memo[lhs] else 0) + (if rhs in s.memo then s.memo[rhs] else 0)
  {
    if !(lhs in s.memo && rhs in s.memo && lhs in s.tree && rhs in s.tree && k <= |s.order|) then (Pair(s, lhs, rhs), k)
    else if Plus(s.memo[lhs], s.memo[rhs]) <= c.maxDegree || s.memo[lhs] + s.memo[rhs] <= 2 then (Pair(s, lhs, rhs), k)
    else if lhs == s.nextId || rhs == s.nextId then (Pair(s, lhs, rhs), k)
    else if s.memo[lhs] >= s.memo[rhs] then Fit(c, Factored(s, lhs, k, k), s.nextId, rhs, k + 2)
    else Fit(c, Factored(s, rhs, k, k), lhs, s.nextId, k + 2)
  }

  /** Product `v` rebuilt right behind itself from its lowered operands, and erased if it was over the bound. */
  ghost function Rebuilt(c: Config, b: Pair, v: Id): Next {
    var Pair(s, lhs, rhs) := b;
    if !(v in s.order && lhs in s.memo && rhs in s.memo && lhs in s.tree) then Next(s, v)
    else
      var k := Pos(s.order, v) + 1;
      var over := Plus(s.memo[lhs], s.memo[rhs]) > c.maxDegree;
      if lhs == rhs && over then Finished(Fit(c, Factored(s, lhs, k, k), s.nextId, s.nextId, k + 2), v, over)
      else Finished(Fit(c, s, lhs, rhs, k), v, over)
  }

  ghost function Finished(f: (Pair, nat), v: Id, over: bool): Next {
    var Pair(s, lhs, rhs) := f.0;
    if !(f.1 <= |s.order| && v in s.tree && lhs in s.memo && rhs in s.memo) then Next(s, v)
    else
      var s' := WithMul(s, v, lhs, rhs, f.1);
      Next(if over && v in s'.order then Retired(s', v, s.nextId) else s', s.nextId)
  }

  /** A sum or difference with its operands set to the lowered ones. */
  ghost function Rooted(b: Pair, v: Id): Next {
    var Pair(s, lhs, rhs) := b;
    if !(v in s.ops && s.ops[v].Bin? && lhs in s.memo && rhs in s.memo) then Next(s, v)
    else Next(Cached(Rerooted(s, v, Bin(s.ops[v].kind, lhs, rhs), Max(s.memo[lhs], s.memo[rhs])), v), v)
  }

  ghost function Negated(a: Next, v: Id): Next {
    if a.r !in a.s.memo || v !in a.s.ops then Next(a.s, v)
    else Next(Cached(Rerooted(a.s, v, Neg(a.r), a.s.memo[a.r]), v), v)
  }

  /** Lowering of `v` for a use in `use`: a value already standing for it if that one dominates the use, `v` itself if
      its degree fits, and otherwise what its operation is lowered to. */
  ghost function Lower(c: Config, s: State, v: Id, use: Id): Next
    decreases Measure(s.tree, v), 2
  {
    if v in s.rewrites && s.rewrites[v] in s.order && use in s.order &&
      Pos(s.order, s.rewrites[v]) < Pos(s.order, use) then
      Next(s, s.rewrites[v])
    else
      var s1 := s.(memo := Measured(s.ops, s.tree, v, s.memo));
      if v !in s1.memo || s1.memo[v] <= c.maxDegree then Next(Cached(s1, v), v) else LowerRoot(c, s1, v)
  }

  ghost function LowerRoot(c: Config, s: State, v: Id): Next
    decreases Measure(s.tree, v), 1
  {
    if v in s.ops && s.ops[v].IsMul() then Rebuilt(c, LowerBoth(c, s, v), v)
    else if v in s.ops && s.ops[v].Bin? && s.ops[v].kind != DivK then Rooted(LowerBoth(c, s, v), v)
    else if v in s.ops && s.ops[v].Neg? && Smaller(s.tree, s.ops[v].x, Measure(s.tree, v)) then
      Negated(Lower(c, s, s.ops[v].x, v), v)
    else Next(Cached(s, v), v)
  }

  /** Both operands of `v`, the second one as it is once the first is lowered. */
  ghost function LowerBoth(c: Config, s: State, v: Id): Pair
    requires v in s.ops && s.ops[v].Bin?
    decreases Measure(s.tree, v), 0
  {
    if !Smaller(s.tree, s.ops[v].l, Measure(s.tree, v)) then Pair(s, v, v)
    else
      var a := Lower(c, s, s.ops[v].l, v);
      if !(v in a.s.ops && a.s.ops[v].Bin? && Smaller(a.s.tree, a.s.ops[v].r, Measure(s.tree, v))) then Pair(a.s, v, v)
      else
        var b := Lower(c, a.s, a.s.ops[v].r, v);
        Pair(b.s, a.r, b.r)
  }

  // ---------- constrain calls ----------

  /** The degree of `x` looked up from scratch is at most 1. */
  ghost predicate Linear(s: State, x: Id) {
    var memo := Measured(s.ops, s.tree, x, map[]);
    x in memo && memo[x] <= 1
  }

  /** `v` lowered for `callOp`, and named by a generated member in front of it if that is not linear. */
  ghost function Materialised(c: Config, s: State, v: Id, callOp: Id): Next {
    var a := Lower(c, s, v, callOp);
    if Linear(a.s, a.r) || callOp !in a.s.order || a.r !in a.s.tree then a
    else
      var s1 := Factored(a.s, a.r, Pos(a.s.order, callOp), |a.s.order|);
      Next(s1.(rewrites := s1.rewrites[v := a.s.nextId]), a.s.nextId)
  }

  /** The captured operands of a call after the turns from `j` on, and whether one was gone at its turn. */
  datatype Turns = Turns(s: State, vals: seq<Id>, stale: bool)

  ghost function TakeTurns(c: Config, s: State, x: Id, vals: seq<Id>, j: nat): Turns
    decreases |vals| - j
  {
    if j >= |vals| then Turns(s, vals, false)
    else if vals[j] !in s.ops then Turns(s, vals, true)
    else if Linear(s, vals[j]) then TakeTurns(c, s, x, vals, j + 1)
    else
      var a := Materialised(c, s, vals[j], x);
      TakeTurns(c, a.s, x, vals[j := a.r], j + 1)
  }

  /** One call with its arguments materialised, or the state in which an operand turned out to be gone. */
  ghost function Called(c: Config, s: State, x: Id): (State, bool) {
    if !(x in s.ops && s.ops[x].Use?) then (s, false)
    else
      var t := TakeTurns(c, s, x, s.ops[x].args, 0);
      if t.stale || (exists i :: 0 <= i < |t.vals| && t.vals[i] !in t.s.ops) || !(x in t.s.ops && t.s.ops[x].Use?)
        then (t.s, true)
      else (t.s.(ops := t.s.ops[x := t.s.ops[x].(args := t.vals)]), false)
  }

  /** The calls `xs` one after the other, up to the first one with an operand gone. */
  ghost function CallsLowered(c: Config, s: State, xs: seq<Id>): (State, bool)
    decreases |xs|
  {
    if xs == [] then (s, false)
    else
      var r := Called(c, s, xs[0]);
      if r.1 then r else CallsLowered(c, r.0, xs[1..])
  }

  // ---------- the function, unfolded along one path ----------

  lemma HitIs(c: Config, s: State, v: Id, use: Id)
    requires v in s.rewrites && s.rewrites[v] in s.order && use in s.order
    requires Pos(s.order, s.rewrites[v]) < Pos(s.order, use)
    ensures Lower(c, s, v, use) == Next(s, s.rewrites[v])
  {}

  ghost predicate Missed(s: State, v: Id, use: Id) {
    v in s.rewrites && s.rewrites[v] in s.order && use in s.order ==> Pos(s.order, s.rewrites[v]) >= Pos(s.order, use)
  }

  lemma MissIs(c: Config, s: State, s1: State, v: Id, use: Id)
    requires Missed(s, v, use) && s1 == s.(memo := Measured(s.ops, s.tree, v, s.memo)) && v in s1.memo
    ensures s1.memo[v] <= c.maxDegree ==> Lower(c, s, v, use) == Next(Cached(s1, v), v)
    ensures s1.memo[v] > c.maxDegree ==> Lower(c, s, v, use) == LowerRoot(c, s1, v)
  {
    hide LowerRoot, Measured, Cached;
  }

  lemma OtherIs(c: Config, s: State, v: Id)
    requires v in s.ops && !(s.ops[v].Bin? && s.ops[v].kind != DivK) && !s.ops[v].Neg?
    ensures LowerRoot(c, s, v) == Next(Cached(s, v), v)
  {}

  lemma BothIs(c: Config, s0: State, s1: State, s2: State, v: Id, lhs: Id, rhs: Id, use: Id)
    requires BothLowered(c, s0, s1, s2, v, lhs, rhs) && Available(s0, v, use)
    requires Lower(c, s0, s0.ops[v].l, v) == Next(s1, lhs) && Lower(c, s1, s1.ops[v].r, v) == Next(s2, rhs)
    ensures LowerBoth(c, s0, v) == Pair(s2, lhs, rhs)
  {
    hide Inv, Lower, Lowered, Available;
    FirstOperand(c, s0, v, use);
    SecondOperand(c, s0, s1, v, use, lhs);
  }

  lemma SumIs(c: Config, s: State, v: Id, b: Pair)
    requires v in s.ops && s.ops[v].Bin? && (s.ops[v].kind == AddK || s.ops[v].kind == SubK) && LowerBoth(c, s, v) == b
    ensures LowerRoot(c, s, v) == Rooted(b, v)
  {
    hide LowerBoth, Rooted;
  }

  lemma MulIs(c: Config, s: State, v: Id, b: Pair)
    requires v in s.ops && s.ops[v].IsMul() && LowerBoth(c, s, v) == b
    ensures LowerRoot(c, s, v) == Rebuilt(c, b, v)
  {
    hide LowerBoth, Rebuilt;
  }

  lemma RootedIs(b: Pair, v: Id, op: Op, s3: State)
    requires v in b.s.ops && b.s.ops[v].Bin? && b.lhs in b.s.memo && b.rhs in b.s.memo
    requires op == Bin(b.s.ops[v].kind, b.lhs, b.rhs)
    requires s3 == Rerooted(b.s, v, op, Max(b.s.memo[b.lhs], b.s.memo[b.rhs]))
    ensures Rooted(b, v) == Next(Cached(s3, v), v)
  {}

  lemma NegIs(c: Config, s0: State, s2: State, v: Id, x: Id, use: Id, s3: State)
    requires Inv(c, s0) && Available(s0, v, use) && s0.ops[v].Neg? && Lower(c, s0, s0.ops[v].x, v) == Next(s2, x)
    requires x in s2.memo && v in s2.ops
    requires s3 == Rerooted(s2, v, Neg(x), s2.memo[x])
    ensures LowerRoot(c, s0, v) == Next(Cached(s3, v), v)
  {
    hide Inv, Lower, Rerooted;
    FirstOperand(c, s0, v, use);
  }

  lemma FitStep(c: Config, s: State, lhs: Id, rhs: Id, k: nat)
    requires lhs in s.memo && rhs in s.memo && lhs in s.tree && rhs in s.tree && k <= |s.order| && lhs != s.nextId
    requires rhs != s.nextId
    requires c.maxDegree >= 2 && s.memo[lhs] + s.memo[rhs] < UNSIGNED_RANGE
    ensures Plus(s.memo[lhs], s.memo[rhs]) <= c.maxDegree ==> Fit(c, s, lhs, rhs, k) == (Pair(s, lhs, rhs), k)
    ensures Plus(s.memo[lhs], s.memo[rhs]) > c.maxDegree ==>
      Fit(c, s, lhs, rhs, k) == if s.memo[lhs] >= s.memo[rhs] then Fit(c, Factored(s, lhs, k, k), s.nextId, rhs, k + 2)
                                else Fit(c, Factored(s, rhs, k, k), lhs, s.nextId, k + 2)
  {
    hide Factored;
  }

  lemma RebuiltIs(c: Config, b: Pair, v: Id, k: nat, over: bool, f: (Pair, nat))
    requires v in b.s.order && b.lhs in b.s.memo && b.rhs in b.s.memo && b.lhs in b.s.tree && k == Pos(b.s.order, v) + 1
    requires over == (Plus(b.s.memo[b.lhs], b.s.memo[b.rhs]) > c.maxDegree)
    requires f == if b.lhs == b.rhs && over then Fit(c, Factored(b.s, b.lhs, k, k), b.s.nextId, b.s.nextId, k + 2)
        else Fit(c, b.s, b.lhs, b.rhs, k)
    ensures Rebuilt(c, b, v) == Finished(f, v, over)
  {
    hide Fit, Factored, Finished;
  }

  lemma FinishedIs(f: (Pair, nat), v: Id, over: bool, s1: State)
    requires f.1 <= |f.0.s.order| && v in f.0.s.tree && f.0.lhs in f.0.s.memo && f.0.rhs in f.0.s.memo
    requires s1 == WithMul(f.0.s, v, f.0.lhs, f.0.rhs, f.1)
    ensures !over ==> Finished(f, v, over) == Next(s1, f.0.s.nextId)
    ensures over && v in s1.order ==> Finished(f, v, over) == Next(Retired(s1, v, f.0.s.nextId), f.0.s.nextId)
  {
    hide WithMul, Retired;
  }

  lemma NamedIs(c: Config, s: State, a: Next, v: Id, callOp: Id, k: nat)
    requires Lower(c, s, v, callOp) == a && a.r in a.s.tree && k < |a.s.order| && callOp in a.s.order
    requires k == Pos(a.s.order, callOp)
    ensures Linear(a.s, a.r) ==> Materialised(c, s, v, callOp) == a
    ensures !Linear(a.s, a.r) ==>
      var s1 := Factored(a.s, a.r, k, |a.s.order|);
      Materialised(c, s, v, callOp) == Next(s1.(rewrites := s1.rewrites[v := a.s.nextId]), a.s.nextId)
  {
    hide Lower, Factored, Linear;
  }

  lemma TurnIs(c: Config, s: State, x: Id, vals: seq<Id>, j: nat)
    requires j < |vals|
    ensures vals[j] !in s.ops ==> TakeTurns(c, s, x, vals, j) == Turns(s, vals, true)
    ensures vals[j] in s.ops && Linear(s, vals[j]) ==> TakeTurns(c, s, x, vals, j) == TakeTurns(c, s, x, vals, j + 1)
    ensures vals[j] in s.ops && !Linear(s, vals[j]) ==>
      var a := Materialised(c, s, vals[j], x);
      TakeTurns(c, s, x, vals, j) == TakeTurns(c, a.s, x, vals[j := a.r], j + 1)
  {
    hide Linear, Materialised;
  }

  lemma TurnsDone(c: Config, s: State, x: Id, vals: seq<Id>)
    ensures TakeTurns(c, s, x, vals, |vals|) == Turns(s, vals, false)
  {}

  lemma CalledIs(c: Config, s: State, x: Id, t: Turns)
    requires x in s.ops && s.ops[x].Use? && TakeTurns(c, s, x, s.ops[x].args, 0) == t && x in t.s.ops && t.s.ops[x].Use?
    ensures t.stale || (exists i :: 0 <= i < |t.vals| && t.vals[i] !in t.s.ops) ==> Called(c, s, x) == (t.s, true)
    ensures !t.stale && (forall i :: 0 <= i < |t.vals| ==> t.vals[i] in t.s.ops) ==>
      Called(c, s, x) == (t.s.(ops := t.s.ops[x := t.s.ops[x].(args := t.vals)]), false)
  {
    hide TakeTurns;
  }

  lemma CallsStep(c: Config, s: State, xs: seq<Id>, i: nat)
    requires i < |xs|
    ensures var r := Called(c, s, xs[i]);
        CallsLowered(c, s, xs[i..]) == if r.1 then r else CallsLowered(c, r.0, xs[i + 1..])
  {
    assert xs[i..][0] == xs[i] && xs[i..][1..] == xs[i + 1..];
    hide Called;
  }

  lemma CallsNone(c: Config, s: State)
    ensures CallsLowered(c, s, []) == (s, false)
  {}
}
