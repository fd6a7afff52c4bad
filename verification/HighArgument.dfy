/** A body without felt divisions on which the last check of the lowering fails: an argument that was linear when its
    turn came is raised to degree 2 by lowering a later one. */
module HighArgument {
  import opened Ir
  import opened LoweringState
  import opened LoweringSteps
  import opened PolyLowering
  import opened LoweringFunction
  import opened LoweringMeaning
  import opened LoweringRules
  import opened ConsumerLowering
  import opened LoweringExamples
  import opened CallArguments
  import opened PolyLoweringRun

  /** s = x * x; call(s); p = s * s; n = -p; call(p); l = p * s; g = l * s; y = 3 * l; m = -y; h = g + m; e = y + n;
      call(e, l, g, m, h). */
  function BodyOp(i: nat): Op {
    if i == 0 then INPUT
    else if i == 1 then Bin(MulK, 0, 0)
    else if i == 2 then Use(0, [1])
    else if i == 3 then Const(3)
    else if i == 4 then Bin(MulK, 1, 1)
    else if i == 5 then Neg(4)
    else if i == 6 then Use(0, [4])
    else if i == 7 then Bin(MulK, 4, 1)
    else if i == 8 then Bin(MulK, 7, 1)
    else if i == 9 then Bin(MulK, 3, 7)
    else if i == 10 then Neg(9)
    else if i == 11 then Bin(AddK, 8, 10)
    else if i == 12 then Bin(AddK, 9, 5)
    else Use(0, [12, 7, 8, 10, 11])
  }

  function Body(): map<Id, Op> { map i: nat | i < 14 :: BodyOp(i) }

  // ---------- what is known of the block between the turns ----------

  /** Setting an entry leaves the others. */
  lemma EntryMoves(m: map<Id, nat>, m': map<Id, nat>, w: Id, d: nat)
    requires m' == m[w := d]
    ensures Entry(m', w, d) && forall x: Id, e: nat :: Entry(m, x, e) && x != w ==> Entry(m', x, e)
  {}

  /** What has no entry yet gets none by the entries set for others. */
  lemma FreshMoves(s: State, s': State, keys: set<Id>)
    requires s'.memo.Keys <= s.memo.Keys + keys && s'.rewrites.Keys <= s.rewrites.Keys + keys
    ensures forall x: Id :: Fresh(s, x) && x !in keys ==> Fresh(s', x)
  {}

  /** Neither memoised nor cached. */
  ghost predicate Fresh(s: State, x: Id) { x !in s.memo && x !in s.rewrites }

  ghost predicate Sized(s: State, next: Id) {
    Listed(s.ops, s.order, s.nextId) && s.nextId == next
  }

  /** Before the first call. */
  ghost predicate Start(s: State) {
    && Sized(s, 14) && |s.order| == 14 && s.memo == map[] && s.rewrites == map[]
    && Has(s, 0, 0, INPUT, 1) && Has(s, 1, 1, Bin(MulK, 0, 0), 3) && CallIs(s, 2, 2, [1]) && Has(s, 3, 3, Const(3), 1)
    && Has(s, 4, 4, Bin(MulK, 1, 1), 7) && Has(s, 5, 5, Neg(4), 8) && CallIs(s, 6, 6, [4])
    && Has(s, 7, 7, Bin(MulK, 4, 1), 11)
    && Has(s, 8, 8, Bin(MulK, 7, 1), 15) && Has(s, 9, 9, Bin(MulK, 3, 7), 13) && Has(s, 10, 10, Neg(9), 14)
    && Has(s, 11, 11, Bin(AddK, 8, 10), 30) && Has(s, 12, 12, Bin(AddK, 9, 5), 22)
    && CallIs(s, 13, 13, [12, 7, 8, 10, 11])
  }

  /** Behind `call(s)`: 14 reads s. */
  ghost predicate First(s: State) {
    && Sized(s, 16) && Entry(s.memo, 1, 2) && Entry(s.memo, 14, 1) && Entry(s.rewrites, 1, 14)
    && Fresh(s, 3) && Fresh(s, 4) && Fresh(s, 5) && Fresh(s, 7) && Fresh(s, 8) && Fresh(s, 9) && Fresh(s, 10)
    && Fresh(s, 11) && Fresh(s, 12)
    && Has(s, 0, 0, INPUT, 1) && Has(s, 1, 1, Bin(MulK, 0, 0), 3) && ReadAt(s, 14, 2, 3) && Has(s, 3, 5, Const(3), 1)
    && Has(s, 4, 6, Bin(MulK, 1, 1), 7) && Has(s, 5, 7, Neg(4), 8) && CallIs(s, 6, 8, [4])
    && Has(s, 7, 9, Bin(MulK, 4, 1), 11)
    && Has(s, 8, 10, Bin(MulK, 7, 1), 15) && Has(s, 9, 11, Bin(MulK, 3, 7), 13) && Has(s, 10, 12, Neg(9), 14)
    && Has(s, 11, 13, Bin(AddK, 8, 10), 30) && Has(s, 12, 14, Bin(AddK, 9, 5), 22)
    && CallIs(s, 13, 15, [12, 7, 8, 10, 11])
  }

  lemma EvalS(c: Config, s: State)
    requires c.maxDegree == 2 && Start(s)
    ensures !Linear(s, 1) && Lower(c, s, 1, 2) == Next(s.(memo := map[0 := 1, 1 := 2], rewrites := map[1 := 1]), 1)
    ensures !Linear(s.(memo := map[0 := 1, 1 := 2], rewrites := map[1 := 1]), 1)
  {
    hide Size, Lower, Measured, Pos, NoDup;
    MeasureLeaf(s, 0, map[]);
    var m0 := map[0 := 1];
    MeasuredHit(s.ops, s.tree, 0, m0);
    MeasureBin(s, 1, map[], m0, m0);
    var m := map[0 := 1, 1 := 2];
    assert m0[1 := 2] == m;
    MissIs(c, s, s.(memo := m), 1, 2);
    MeasuredMemo(s, s.(memo := m, rewrites := map[1 := 1]), 1);
  }

  lemma FirstTurn(c: Config, s: State)
    requires c.maxDegree == 2 && Start(s)
    ensures !Linear(s, 1)
    ensures var Next(t, a) := Materialised(c, s, 1, 2); a == 14 && a in t.ops && First(t) && CallAt(t, 2, 4)
  {
    hide Size, Lower, Linear, Listed, Has, ReadAt, CallAt, CallIs, Materialised;
    EvalS(c, s);
    SizeOf(s, 1, 1, Bin(MulK, 0, 0), 3);
    var t := s.(memo := map[0 := 1, 1 := 2], rewrites := map[1 := 1]);
    SameBlock(s, t);
    CallIsAt(t, 2, 2, [1]);
    CallPlace(t, 2, 2);
    NamedMoves(c, s, t, 1, 1, 2, 2);
  }

  /** The degree looked up from scratch depends on the operations alone. */
  lemma MeasuredMemo(s: State, t: State, x: Id)
    requires t.ops == s.ops && t.tree == s.tree
    ensures Linear(t, x) <==> Linear(s, x)
  {}

  lemma FirstCall(c: Config, s: State)
    requires c.maxDegree == 2 && Start(s)
    ensures !Called(c, s, 2).1 && First(Called(c, s, 2).0)
  {
    hide Linear, Materialised, Has, ReadAt, Listed, Called;
    FirstTurn(c, s);
    StartFacts(s);
    OneArgument(c, s, 2, 1);
    SetCall(Materialised(c, s, 1, 2).s, 2, [14]);
  }

  lemma StartFacts(s: State)
    requires Start(s)
    ensures 1 in s.ops
  {}

  lemma FirstFacts(s: State)
    requires First(s)
    ensures 4 in s.ops
  {}

  /** Setting the operands of call `x` changes nothing else. */
  lemma SetCall(s: State, x: Id, args: seq<Id>)
    requires x in s.ops && s.ops[x].Use?
    ensures var s' := s.(ops := s.ops[x := s.ops[x].(args := args)]);
            && (Listed(s.ops, s.order, s.nextId) ==> Listed(s'.ops, s'.order, s'.nextId))
            && (forall y, pos, op, size :: Has(s, y, pos, op, size) && y != x ==> Has(s', y, pos, op, size))
            && (forall y, pos, size :: ReadAt(s, y, pos, size) ==> ReadAt(s', y, pos, size))
  {
    hide NoDup, Pos, Size;
  }

  /** A call with one argument, which has to be named. */
  lemma OneArgument(c: Config, s: State, x: Id, v: Id)
    requires x in s.ops && s.ops[x] == Use(0, [v]) && v in s.ops && !Linear(s, v)
    requires var Next(t, a) := Materialised(c, s, v, x); a in t.ops && x in t.ops && t.ops[x].Use?
    ensures var Next(t, a) := Materialised(c, s, v, x);
        Called(c, s, x) == (t.(ops := t.ops[x := t.ops[x].(args := [a])]), false)
  {
    hide Linear, Materialised, TakeTurns;
    var Next(t, a) := Materialised(c, s, v, x);
    TurnIs(c, s, x, [v], 0);
    assert [v][0 := a] == [a];
    TurnsDone(c, t, x, [a]);
    CalledIs(c, s, x, TakeTurns(c, s, x, [v], 0));
  }

  /** Behind `call(p)`: 17 reads p, whose product 16 = 14 * 14 stands for it elsewhere. */
  ghost predicate Second(s: State) {
    && Sized(s, 19) && Entry(s.memo, 1, 2) && Entry(s.memo, 4, 4) && Entry(s.memo, 14, 1) && Entry(s.memo, 17, 1)
    && Entry(s.rewrites, 1, 14) && Entry(s.rewrites, 4, 17)
    && Fresh(s, 3) && Fresh(s, 5) && Fresh(s, 7) && Fresh(s, 8) && Fresh(s, 9) && Fresh(s, 10) && Fresh(s, 11)
    && Fresh(s, 12)
    && Has(s, 0, 0, INPUT, 1) && Has(s, 1, 1, Bin(MulK, 0, 0), 3) && ReadAt(s, 14, 2, 3) && Has(s, 3, 5, Const(3), 1)
    && Has(s, 4, 6, Bin(MulK, 1, 1), 7) && Has(s, 5, 8, Neg(4), 8) && ReadAt(s, 17, 9, 7)
    && Has(s, 7, 12, Bin(MulK, 4, 1), 11)
    && Has(s, 8, 13, Bin(MulK, 7, 1), 15) && Has(s, 9, 14, Bin(MulK, 3, 7), 13) && Has(s, 10, 15, Neg(9), 14)
    && Has(s, 11, 16, Bin(AddK, 8, 10), 30) && Has(s, 12, 17, Bin(AddK, 9, 5), 22)
    && CallIs(s, 13, 18, [12, 7, 8, 10, 11])
  }

  /** p = s * s, with s already named: the square of the read fits, and p stays. */
  lemma SquareLowered(c: Config, s: State, use: Id, p: nat)
    requires c.maxDegree == 2 && Listed(s.ops, s.order, s.nextId) && 14 < s.nextId && Missed(s, 4, use)
    requires Has(s, 1, 1, Bin(MulK, 0, 0), 3) && Has(s, 4, 6, Bin(MulK, 1, 1), 7) && ReadAt(s, 14, 2, 3)
    requires 1 in s.rewrites && s.rewrites[1] == 14 && 14 in s.memo && s.memo[14] == 1 && 4 in s.memo && s.memo[4] == 4
    ensures 7 <= |s.order| && Lower(c, s, 4, use) == Next(WithMul(s, 4, 14, 14, 7), s.nextId)
  {
    hide Size, Lower, LowerRoot, LowerBoth, Measured, Pos, NoDup;
    Over(c, s, 4, use);
    HitIs(c, s, 1, 4);
    BothRule(c, s, s, s, 4, 14, 14);
    Fitting(c, s, s, 4, 14, 14);
  }

  lemma EvalP(c: Config, s: State)
    requires c.maxDegree == 2 && First(s)
    ensures !Linear(s, 4)
    ensures var s1 := s.(memo := s.memo[4 := 4]);
            7 <= |s1.order| && Lower(c, s, 4, 6) == Next(WithMul(s1, 4, 14, 14, 7), 16) &&
              !Linear(WithMul(s1, 4, 14, 14, 7), 16)
  {
    hide Size, Lower, LowerRoot, Measured, Pos, NoDup, WithMul;
    MeasureLeaf(s, 0, map[]);
    var m0 := map[0 := 1];
    MeasuredHit(s.ops, s.tree, 0, m0);
    MeasureBin(s, 1, map[], m0, m0);
    var m1 := m0[1 := 2];
    MeasuredHit(s.ops, s.tree, 1, m1);
    MeasureBin(s, 4, map[], m1, m1);
    MeasuredHit(s.ops, s.tree, 1, s.memo);
    MeasureBin(s, 4, s.memo, s.memo, s.memo);
    var s1 := s.(memo := s.memo[4 := 4]);
    OverNew(c, s, 4, 6, s1.memo);
    SquareLowered(c, s1, 6, 6);
    Over(c, s1, 4, 6);
    MulRule(s1, 4, 14, 14, 7);
    FreshProductOfReads(WithMul(s1, 4, 14, 14, 7), 16, 14, 14, map[]);
  }

  /** p = s * s with the square of the read behind it. */
  ghost predicate Squared(s: State) {
    && Sized(s, 17) && Entry(s.memo, 1, 2) && Entry(s.memo, 4, 4) && Entry(s.memo, 14, 1) && Entry(s.memo, 16, 2)
    && Entry(s.rewrites, 1, 14) && Fresh(s, 3) && Fresh(s, 5) && Fresh(s, 7) && Fresh(s, 8) && Fresh(s, 9)
    && Fresh(s, 10) && Fresh(s, 11) && Fresh(s, 12)
    && Has(s, 0, 0, INPUT, 1) && Has(s, 1, 1, Bin(MulK, 0, 0), 3) && ReadAt(s, 14, 2, 3) && Has(s, 3, 5, Const(3), 1)
    && Has(s, 4, 6, Bin(MulK, 1, 1), 7) && Has(s, 16, 7, Bin(MulK, 14, 14), 7) && Has(s, 5, 8, Neg(4), 8)
    && CallIs(s, 6, 9, [4]) && Has(s, 7, 10, Bin(MulK, 4, 1), 11) && Has(s, 8, 11, Bin(MulK, 7, 1), 15)
    && Has(s, 9, 12, Bin(MulK, 3, 7), 13) && Has(s, 10, 13, Neg(9), 14) && Has(s, 11, 14, Bin(AddK, 8, 10), 30)
    && Has(s, 12, 15, Bin(AddK, 9, 5), 22) && CallIs(s, 13, 16, [12, 7, 8, 10, 11])
  }

  lemma PSquared(c: Config, s: State)
    requires c.maxDegree == 2 && First(s)
    ensures !Linear(s, 4) && Lower(c, s, 4, 6).r == 16 && Squared(Lower(c, s, 4, 6).s)
    ensures !Linear(Lower(c, s, 4, 6).s, 16)
  {
    hide Size, Lower, Linear, Listed, Has, ReadAt, CallAt, CallIs, WithMul;
    EvalP(c, s);
    var s1 := s.(memo := s.memo[4 := 4]);
    SameBlock(s, s1);
    SizeOf(s1, 4, 6, Bin(MulK, 1, 1), 7);
    MulMoves(s1, 4, 14, 14, 7);
  }

  lemma SecondTurn(c: Config, s: State)
    requires c.maxDegree == 2 && First(s)
    ensures !Linear(s, 4)
    ensures var Next(t, a) := Materialised(c, s, 4, 6); a == 17 && a in t.ops && Second(t) && CallAt(t, 6, 11)
  {
    hide Size, Lower, Linear, Listed, Has, ReadAt, CallAt, CallIs, Materialised, WithMul;
    PSquared(c, s);
    var t := Lower(c, s, 4, 6).s;
    SizeOf(t, 16, 7, Bin(MulK, 14, 14), 7);
    CallIsAt(t, 6, 9, [4]);
    CallPlace(t, 6, 9);
    NamedMoves(c, s, t, 4, 16, 6, 9);
  }

  lemma SecondCall(c: Config, s: State)
    requires c.maxDegree == 2 && First(s)
    ensures !Called(c, s, 6).1 && Second(Called(c, s, 6).0)
  {
    hide Linear, Materialised, Has, ReadAt, Listed, Called;
    SecondTurn(c, s);
    FirstFacts(s);
    OneArgument(c, s, 6, 4);
    SetCall(Materialised(c, s, 4, 6).s, 6, [17]);
  }

  // ---------- the third call: e = y + n ----------

  /** p from scratch has degree 4, and l degree 6. */
  lemma FreshL(s: State)
    requires s.ops.Keys >= {0, 1, 4, 7} && s.ops[0] == INPUT && s.ops[1] == Bin(MulK, 0, 0)
    requires s.ops[4] == Bin(MulK, 1, 1) && s.ops[7] == Bin(MulK, 4, 1)
    requires s.tree.Keys >= {0, 1, 4, 7} && Size(s.tree[0]) == 1 && Size(s.tree[1]) == 3 && Size(s.tree[4]) == 7
    requires Size(s.tree[7]) == 11
    requires 3 in s.ops && s.ops[3] == Const(3) && 3 in s.tree
    ensures Measured(s.ops, s.tree, 7, map[]) == map[0 := 1, 1 := 2, 4 := 4, 7 := 6]
    ensures Measured(s.ops, s.tree, 7, map[3 := 0]) == map[3 := 0, 0 := 1, 1 := 2, 4 := 4, 7 := 6]
  {
    FreshFrom(s, map[]);
    FreshFrom(s, map[3 := 0]);
  }

  lemma FreshFrom(s: State, m: map<Id, nat>)
    requires s.ops.Keys >= {0, 1, 4, 7} && s.ops[0] == INPUT && s.ops[1] == Bin(MulK, 0, 0)
    requires s.ops[4] == Bin(MulK, 1, 1) && s.ops[7] == Bin(MulK, 4, 1)
    requires s.tree.Keys >= {0, 1, 4, 7} && Size(s.tree[0]) == 1 && Size(s.tree[1]) == 3 && Size(s.tree[4]) == 7
    requires Size(s.tree[7]) == 11
    requires 0 !in m && 1 !in m && 4 !in m && 7 !in m
    ensures Measured(s.ops, s.tree, 7, m) == m[0 := 1][1 := 2][4 := 4][7 := 6]
  {
    hide Size, Measured;
    MeasureLeaf(s, 0, m);
    var m0 := m[0 := 1];
    MeasuredHit(s.ops, s.tree, 0, m0);
    MeasureBin(s, 1, m, m0, m0);
    var m1 := m0[1 := 2];
    MeasuredHit(s.ops, s.tree, 1, m1);
    MeasureBin(s, 4, m, m1, m1);
    var m4 := m1[4 := 4];
    MeasuredHit(s.ops, s.tree, 1, m4);
    MeasureBin(s, 7, m, m4, m4);
  }

  /** e is over the bound, from scratch and by the memo of the lowering. */
  lemma DegreesOfE(s: State)
    requires Second(s)
    ensures !Linear(s, 12)
    ensures Measured(s.ops, s.tree, 12, s.memo) == s.memo[3 := 0][7 := 6][9 := 6][5 := 4][12 := 6]
  {
    hide Size, Measured, Pos, NoDup;
    MeasureLeaf(s, 3, map[]);
    FreshL(s);
    var f := map[3 := 0, 0 := 1, 1 := 2, 4 := 4, 7 := 6];
    MeasureBin(s, 9, map[], map[3 := 0], f);
    MeasuredHit(s.ops, s.tree, 4, f[9 := 6]);
    MeasureNeg(s, 5, f[9 := 6], f[9 := 6]);
    MeasureBin(s, 12, map[], f[9 := 6], f[9 := 6][5 := 4]);
    var m := s.memo;
    MeasureLeaf(s, 3, m);
    var m3 := m[3 := 0];
    MeasuredHit(s.ops, s.tree, 4, m3);
    MeasuredHit(s.ops, s.tree, 1, m3);
    MeasureBin(s, 7, m3, m3, m3);
    var m7 := m3[7 := 6];
    MeasureBin(s, 9, m, m3, m7);
    var m9 := m7[9 := 6];
    MeasuredHit(s.ops, s.tree, 4, m9);
    MeasureNeg(s, 5, m9, m9);
    MeasureBin(s, 12, m, m9, m9[5 := 4]);
  }

  /** The degrees of e and all it is made of are memoised. */
  ghost predicate Looked(s: State) {
    && Sized(s, 19) && Entry(s.memo, 1, 2) && Entry(s.memo, 4, 4) && Entry(s.memo, 14, 1) && Entry(s.memo, 17, 1)
    && Entry(s.memo, 3, 0) && Entry(s.memo, 7, 6) && Entry(s.memo, 9, 6) && Entry(s.memo, 12, 6) && Entry(s.memo, 5, 4)
    && Entry(s.rewrites, 1, 14) && Entry(s.rewrites, 4, 17)
    && 3 !in s.rewrites && 5 !in s.rewrites && 7 !in s.rewrites && 9 !in s.rewrites && 12 !in s.rewrites && Fresh(s, 8)
    && Fresh(s, 10) && Fresh(s, 11)
    && Has(s, 0, 0, INPUT, 1) && Has(s, 1, 1, Bin(MulK, 0, 0), 3) && ReadAt(s, 14, 2, 3) && Has(s, 3, 5, Const(3), 1)
    && Has(s, 4, 6, Bin(MulK, 1, 1), 7) && Has(s, 5, 8, Neg(4), 8) && ReadAt(s, 17, 9, 7)
    && Has(s, 7, 12, Bin(MulK, 4, 1), 11)
    && Has(s, 8, 13, Bin(MulK, 7, 1), 15) && Has(s, 9, 14, Bin(MulK, 3, 7), 13) && Has(s, 10, 15, Neg(9), 14)
    && Has(s, 11, 16, Bin(AddK, 8, 10), 30) && Has(s, 12, 17, Bin(AddK, 9, 5), 22) && CallAt(s, 13, 18)
  }

  /** l = p * s is now the product 19 of two reads, and y = 3 * l the product 20 = 3 * 19; both originals stay. */
  ghost predicate YLowered(s: State) {
    && Sized(s, 21) && Entry(s.memo, 1, 2) && Entry(s.memo, 4, 4) && Entry(s.memo, 14, 1) && Entry(s.memo, 17, 1)
    && Entry(s.memo, 3, 0) && Entry(s.memo, 7, 6) && Entry(s.memo, 9, 6) && Entry(s.memo, 12, 6)
    && Entry(s.memo, 5, 4) && Entry(s.memo, 19, 2) && Entry(s.memo, 20, 2) && Entry(s.rewrites, 1, 14)
    && Entry(s.rewrites, 4, 17) && Entry(s.rewrites, 3, 3) && Entry(s.rewrites, 7, 19) && Entry(s.rewrites, 9, 20)
    && 5 !in s.rewrites && 12 !in s.rewrites && Fresh(s, 8) && Fresh(s, 10) && Fresh(s, 11)
    && Has(s, 0, 0, INPUT, 1) && Has(s, 1, 1, Bin(MulK, 0, 0), 3) && ReadAt(s, 14, 2, 3) && Has(s, 3, 5, Const(3), 1)
    && Has(s, 4, 6, Bin(MulK, 1, 1), 7) && Has(s, 5, 8, Neg(4), 8) && ReadAt(s, 17, 9, 7)
    && Has(s, 7, 12, Bin(MulK, 4, 1), 11) && Has(s, 19, 13, Bin(MulK, 17, 14), 11)
    && Has(s, 8, 14, Bin(MulK, 7, 1), 15) && Has(s, 9, 15, Bin(MulK, 3, 7), 13)
    && Has(s, 20, 16, Bin(MulK, 3, 19), 13) && Has(s, 10, 17, Neg(9), 14) && Has(s, 11, 18, Bin(AddK, 8, 10), 30)
    && Has(s, 12, 19, Bin(AddK, 9, 5), 22) && CallAt(s, 13, 20)
  }

  lemma LowerL(c: Config, s: State)
    requires c.maxDegree == 2 && Looked(s)
    ensures var s2 := s.(rewrites := s.rewrites[3 := 3]);
            13 <= |s2.order| && Lower(c, s2, 7, 9) == Next(WithMul(s2, 7, 17, 14, 13), 19)
  {
    hide Size, Lower, LowerRoot, LowerBoth, Measured, Pos, NoDup, WithMul;
    var s2 := s.(rewrites := s.rewrites[3 := 3]);
    Over(c, s2, 7, 9);
    HitIs(c, s2, 4, 7);
    HitIs(c, s2, 1, 7);
    BothRule(c, s2, s2, s2, 7, 17, 14);
    Fitting(c, s2, s2, 7, 17, 14);
  }

  lemma LowerY(c: Config, s: State)
    requires c.maxDegree == 2 && Looked(s)
    ensures Lower(c, s, 9, 12).r == 20 && YLowered(Lower(c, s, 9, 12).s)
  {
    hide Size, Lower, Listed, WithMul, Has, ReadAt, CallAt, Subst, Entry, Fresh;
    EvalY(c, s);
    LookedFacts(s);
    var s2 := s.(rewrites := s.rewrites[3 := 3]);
    SameBlock(s, s2);
    EntryMoves(s.rewrites, s2.rewrites, 3, 3);
    MulMoves(s2, 7, 17, 14, 13);
    var s3 := WithMul(s2, 7, 17, 14, 13);
    EntryMoves(s2.memo, s3.memo, 19, 2);
    EntryMoves(s2.rewrites, s3.rewrites, 7, 19);
    SizeOf(s3, 9, 15, Bin(MulK, 3, 7), 13);
    MulMoves(s3, 9, 3, 19, 16);
    var s4 := WithMul(s3, 9, 3, 19, 16);
    EntryMoves(s3.memo, s4.memo, 20, 2);
    EntryMoves(s3.rewrites, s4.rewrites, 9, 20);
    FreshMoves(s, s4, {3, 7, 9, 19, 20});
  }

  lemma SizeOf(s: State, x: Id, pos: nat, op: Op, size: nat)
    requires Has(s, x, pos, op, size)
    ensures x in s.tree && Size(s.tree[x]) == size && x in s.ops && s.ops[x] == op
  {}

  lemma LookedFacts(s: State)
    requires Looked(s)
    ensures |s.order| >= 13 && 7 in s.tree && Size(s.tree[7]) == 11 && 9 in s.tree && Size(s.tree[9]) == 13
    ensures 3 in s.memo && s.memo[3] == 0 && 14 in s.memo && s.memo[14] == 1 && 17 in s.memo && s.memo[17] == 1
  {}

  lemma EvalY(c: Config, s: State)
    requires c.maxDegree == 2 && Looked(s)
    ensures var s2 := s.(rewrites := s.rewrites[3 := 3]);
            && |s2.order| >= 13 && 7 in s2.tree && 17 in s2.memo && 14 in s2.memo
            && var s3 := WithMul(s2, 7, 17, 14, 13);
               |s3.order| >= 16 && 9 in s3.tree && 3 in s3.memo && 19 in s3.memo &&
                 Lower(c, s, 9, 12) == Next(WithMul(s3, 9, 3, 19, 16), 20)
  {
    hide Size, Lower, LowerRoot, LowerBoth, Measured, Pos, NoDup, WithMul;
    Over(c, s, 9, 12);
    Under(c, s, 3, 9);
    var s2 := s.(rewrites := s.rewrites[3 := 3]);
    LowerL(c, s);
    MulRule(s2, 7, 17, 14, 13);
    var s3 := WithMul(s2, 7, 17, 14, 13);
    BothRule(c, s, s2, s3, 9, 3, 19);
    Fitting(c, s, s3, 9, 3, 19);
  }

  /** p stands in front of its read 17 where n = -p does: it is lowered again, to 21. */
  ghost predicate NLowered(s: State) {
    && Sized(s, 22) && Entry(s.memo, 1, 2) && Entry(s.memo, 4, 4) && Entry(s.memo, 14, 1) && Entry(s.memo, 17, 1)
    && Entry(s.memo, 3, 0) && Entry(s.memo, 7, 6) && Entry(s.memo, 9, 6) && Entry(s.memo, 12, 6) && Entry(s.memo, 5, 2)
    && Entry(s.memo, 19, 2) && Entry(s.memo, 20, 2) && Entry(s.memo, 21, 2)
    && Entry(s.rewrites, 1, 14) && Entry(s.rewrites, 4, 21) && Entry(s.rewrites, 3, 3) && Entry(s.rewrites, 7, 19)
    && Entry(s.rewrites, 9, 20)
    && 12 !in s.rewrites && Fresh(s, 8) && Fresh(s, 10) && Fresh(s, 11)
    && Has(s, 0, 0, INPUT, 1) && Has(s, 1, 1, Bin(MulK, 0, 0), 3) && ReadAt(s, 14, 2, 3) && Has(s, 3, 5, Const(3), 1)
    && Has(s, 4, 6, Bin(MulK, 1, 1), 7) && Has(s, 21, 7, Bin(MulK, 14, 14), 7) && Has(s, 5, 9, Neg(21), 8)
    && ReadAt(s, 17, 10, 7)
    && Has(s, 7, 13, Bin(MulK, 4, 1), 11) && Has(s, 19, 14, Bin(MulK, 17, 14), 11) && Has(s, 8, 15, Bin(MulK, 7, 1), 15)
    && Has(s, 9, 16, Bin(MulK, 3, 7), 13) && Has(s, 20, 17, Bin(MulK, 3, 19), 13) && Has(s, 10, 18, Neg(9), 14)
    && Has(s, 11, 19, Bin(AddK, 8, 10), 30) && Has(s, 12, 20, Bin(AddK, 9, 5), 22) && CallAt(s, 13, 21)
  }

  lemma LowerN(c: Config, s: State)
    requires c.maxDegree == 2 && YLowered(s)
    ensures Lower(c, s, 5, 12).r == 5 && NLowered(Lower(c, s, 5, 12).s)
  {
    hide Size, Lower, Listed, WithMul, Has, ReadAt, CallAt;
    EvalN(c, s);
    MulMoves(s, 4, 14, 14, 7);
    SetValue(WithMul(s, 4, 14, 14, 7), Lower(c, s, 5, 12).s, 5, Neg(21));
  }

  lemma EvalN(c: Config, s: State)
    requires c.maxDegree == 2 && YLowered(s)
    ensures |s.order| >= 7 && 4 in s.tree && Size(s.tree[4]) == 7 && 14 in s.memo
    ensures var t := WithMul(s, 4, 14, 14, 7);
            && 5 in t.ops && 21 in t.memo
            && Lower(c, s, 5, 12) == Next(t.(ops := t.ops[5 := Neg(21)], memo := t.memo[5 := t.memo[21]],
              rewrites := t.rewrites[5 := 5]), 5)
  {
    hide Size, Lower, LowerRoot, LowerBoth, Measured, Pos, NoDup, WithMul;
    Over(c, s, 5, 12);
    SquareLowered(c, s, 5, 6);
    MulRule(s, 4, 14, 14, 7);
    Negation(c, s, WithMul(s, 4, 14, 14, 7), 5, 21);
  }

  /** e = y + n lowered and named by 22. */
  ghost predicate Third(s: State) {
    && Sized(s, 24) && Entry(s.memo, 1, 2) && Entry(s.memo, 4, 4) && Entry(s.memo, 14, 1) && Entry(s.memo, 3, 0)
    && Entry(s.memo, 7, 6) && Entry(s.memo, 9, 6) && Entry(s.memo, 19, 2) && Entry(s.memo, 20, 2)
    && Entry(s.memo, 21, 2) && Entry(s.rewrites, 1, 14) && Entry(s.rewrites, 4, 21) && Entry(s.rewrites, 3, 3)
    && Entry(s.rewrites, 7, 19) && Entry(s.rewrites, 9, 20) && Fresh(s, 8) && Fresh(s, 10) && Fresh(s, 11)
    && Has(s, 0, 0, INPUT, 1) && Has(s, 1, 1, Bin(MulK, 0, 0), 3) && ReadAt(s, 14, 2, 3) && Has(s, 3, 5, Const(3), 1)
    && Has(s, 4, 6, Bin(MulK, 1, 1), 7) && Has(s, 21, 7, Bin(MulK, 14, 14), 7) && ReadAt(s, 17, 10, 7)
    && Has(s, 7, 13, Bin(MulK, 4, 1), 11) && Has(s, 19, 14, Bin(MulK, 17, 14), 11)
    && Has(s, 8, 15, Bin(MulK, 7, 1), 15) && Has(s, 9, 16, Bin(MulK, 3, 7), 13)
    && Has(s, 20, 17, Bin(MulK, 3, 19), 13) && Has(s, 10, 18, Neg(9), 14) && Has(s, 11, 19, Bin(AddK, 8, 10), 30)
    && ReadAt(s, 22, 21, 22) && CallAt(s, 13, 23)
  }

  /** The product of two reads, from scratch. */
  lemma FreshProductOfReads(s: State, x: Id, l: Id, r: Id, m: map<Id, nat>)
    requires x in s.ops && s.ops[x] == Bin(MulK, l, r) && l in s.ops && s.ops[l].Leaf? && r in s.ops && s.ops[r].Leaf?
    requires x in s.tree && l in s.tree && r in s.tree && Size(s.tree[l]) < Size(s.tree[x])
    requires Size(s.tree[r]) < Size(s.tree[x])
    requires x !in m && l !in m && (r == l || r !in m)
    ensures Measured(s.ops, s.tree, x, m) == m[l := 1][r := 1][x := 2]
  {
    hide Size, Measured;
    MeasureLeaf(s, l, m);
    if r == l { MeasuredHit(s.ops, s.tree, r, m[l := 1]); } else { MeasureLeaf(s, r, m[l := 1]); }
    MeasureBin(s, x, m, m[l := 1], m[l := 1][r := 1]);
  }

  ghost function SetOp(s: State, x: Id, op: Op, d: nat): State {
    s.(ops := s.ops[x := op], memo := s.memo[x := d], rewrites := s.rewrites[x := x])
  }

  lemma EIsLooked(s: State, s1: State)
    requires Second(s) && s1 == s.(memo := s.memo[3 := 0][7 := 6][9 := 6][5 := 4][12 := 6])
    ensures Looked(s1) && Missed(s, 12, 13)
  {
    hide Size, Listed, Has, ReadAt, CallAt, CallIs;
    SameBlock(s, s1);
    CallIsAt(s1, 13, 18, [12, 7, 8, 10, 11]);
  }

  lemma EvalE(c: Config, s: State)
    requires c.maxDegree == 2 && Second(s)
    ensures NLowered(AfterN(c, s)) && Lower(c, s, 12, 13) == Next(SetOp(AfterN(c, s), 12, Bin(AddK, 20, 5), 2), 12)
  {
    hide Size, Lower, LowerRoot, LowerBoth, Measured, Has, Listed, ReadAt, CallAt, CallIs;
    DegreesOfE(s);
    var s1 := s.(memo := s.memo[3 := 0][7 := 6][9 := 6][5 := 4][12 := 6]);
    EIsLooked(s, s1);
    SizeOf(s1, 12, 17, Bin(AddK, 9, 5), 22);
    SizeOf(s1, 9, 14, Bin(MulK, 3, 7), 13);
    OverNew(c, s, 12, 13, s1.memo);
    LowerY(c, s1);
    var s4 := Lower(c, s1, 9, 12).s;
    LowerN(c, s4);
    var t := Lower(c, s4, 5, 12).s;
    SizeOf(s4, 12, 19, Bin(AddK, 9, 5), 22);
    SizeOf(s4, 5, 8, Neg(4), 8);
    SizeOf(t, 12, 20, Bin(AddK, 9, 5), 22);
    BothRule(c, s1, s4, t, 12, 20, 5);
    Sum(c, s1, t, 12, 20, 5);
  }

  /** The block once y and n are lowered. */
  ghost function AfterN(c: Config, s: State): State {
    Lower(c, Lower(c, s.(memo := s.memo[3 := 0][7 := 6][9 := 6][5 := 4][12 := 6]), 9, 12).s, 5, 12).s
  }

  lemma EHigh(s: State)
    requires NLowered(s)
    ensures !Linear(SetOp(s, 12, Bin(AddK, 20, 5), 2), 12)
  {
    hide Size, Measured, Pos, NoDup;
    var u := SetOp(s, 12, Bin(AddK, 20, 5), 2);
    MeasureLeaf(u, 3, map[]);
    FreshProductOfReads(u, 19, 17, 14, map[3 := 0]);
    var m := map[3 := 0][17 := 1][14 := 1][19 := 2];
    MeasureBin(u, 20, map[], map[3 := 0], m);
    var m20 := m[20 := 2];
    MeasuredHit(u.ops, u.tree, 14, m20);
    MeasureBin(u, 21, m20, m20, m20);
    MeasureNeg(u, 5, m20, m20[21 := 2]);
    MeasureBin(u, 12, map[], m20, m20[21 := 2][5 := 2]);
  }

  lemma ThirdTurn(c: Config, s: State)
    requires c.maxDegree == 2 && Second(s)
    ensures !Linear(s, 12)
    ensures var Next(t, a) := Materialised(c, s, 12, 13); a == 22 && Third(t)
  {
    hide Size, Lower, Linear, Listed, Has, ReadAt, CallAt, Materialised, AfterN, Entry, Fresh;
    DegreesOfE(s);
    EvalE(c, s);
    var t := AfterN(c, s);
    EHigh(t);
    var u := SetOp(t, 12, Bin(AddK, 20, 5), 2);
    ThereE(t);
    SetValue(t, u, 12, Bin(AddK, 20, 5));
    EntryMoves(t.memo, u.memo, 12, 2);
    EntryMoves(t.rewrites, u.rewrites, 12, 12);
    SizeOf(u, 12, 20, Bin(AddK, 20, 5), 22);
    CallPlace(u, 13, 21);
    NamedMoves(c, s, u, 12, 12, 13, 21);
    var w := Materialised(c, s, 12, 13).s;
    EntryMoves(u.memo, w.memo, 22, 1);
    EntryMoves(u.rewrites, w.rewrites, 12, 22);
    FreshMoves(t, w, {12, 22});
  }

  lemma ThereE(s: State)
    requires NLowered(s)
    ensures 12 in s.ops
  {}

  lemma CallPlace(s: State, x: Id, pos: nat)
    requires CallAt(s, x, pos)
    ensures x in s.order && Pos(s.order, x) == pos
  {}

  // ---------- l ----------

  /** l named by 24, in front of the call. */
  ghost predicate Fourth(s: State) {
    && Sized(s, 26) && Entry(s.memo, 1, 2) && Entry(s.memo, 4, 4) && Entry(s.memo, 14, 1) && Entry(s.memo, 3, 0)
    && Entry(s.memo, 7, 6) && Entry(s.memo, 9, 6) && Entry(s.memo, 19, 2) && Entry(s.memo, 20, 2)
    && Entry(s.memo, 21, 2)
    && Entry(s.rewrites, 1, 14) && Entry(s.rewrites, 4, 21) && Entry(s.rewrites, 3, 3) && Entry(s.rewrites, 7, 24)
    && Entry(s.rewrites, 9, 20) && Fresh(s, 8) && Fresh(s, 10) && Fresh(s, 11)
    && Has(s, 0, 0, INPUT, 1) && Has(s, 1, 1, Bin(MulK, 0, 0), 3) && ReadAt(s, 14, 2, 3) && Has(s, 3, 5, Const(3), 1)
    && Has(s, 4, 6, Bin(MulK, 1, 1), 7) && Has(s, 21, 7, Bin(MulK, 14, 14), 7) && ReadAt(s, 17, 10, 7)
    && Has(s, 7, 13, Bin(MulK, 4, 1), 11) && Has(s, 19, 14, Bin(MulK, 17, 14), 11)
    && Has(s, 8, 15, Bin(MulK, 7, 1), 15) && Has(s, 9, 16, Bin(MulK, 3, 7), 13)
    && Has(s, 20, 17, Bin(MulK, 3, 19), 13) && Has(s, 10, 18, Neg(9), 14) && Has(s, 11, 19, Bin(AddK, 8, 10), 30)
    && ReadAt(s, 22, 21, 22) && ReadAt(s, 24, 23, 11) && CallAt(s, 13, 25)
  }

  lemma EvalL(c: Config, s: State)
    requires Third(s)
    ensures !Linear(s, 7) && !Linear(s, 19) && Lower(c, s, 7, 13) == Next(s, 19)
  {
    hide Size, Measured, NoDup, Lower;
    FreshL(s);
    FreshProductOfReads(s, 19, 17, 14, map[]);
    HitIs(c, s, 7, 13);
  }

  lemma FourthTurn(c: Config, s: State)
    requires c.maxDegree == 2 && Third(s)
    ensures !Linear(s, 7)
    ensures var Next(t, a) := Materialised(c, s, 7, 13); a == 24 && Fourth(t)
  {
    hide Size, Lower, Linear, Listed, Has, ReadAt, CallAt, Materialised;
    EvalL(c, s);
    SizeOf(s, 19, 14, Bin(MulK, 17, 14), 11);
    CallPlace(s, 13, 23);
    NamedMoves(c, s, s, 7, 19, 13, 23);
  }

  // ---------- g ----------

  /** l lowered again where g uses it, in front of 24: its factor 21 is named by 26, and l is erased. */
  ghost predicate LGone(s: State) { LGoneTables(s) && LGonePlaces(s) }

  ghost predicate LGoneTables(s: State) {
    && Sized(s, 29) && Entry(s.memo, 1, 2) && Entry(s.memo, 14, 1) && Entry(s.memo, 3, 0) && Entry(s.memo, 9, 6)
    && Entry(s.memo, 19, 2) && Entry(s.memo, 20, 2) && Entry(s.memo, 8, 8) && Entry(s.memo, 26, 1)
    && Entry(s.memo, 28, 2)
    && Entry(s.rewrites, 1, 14) && Entry(s.rewrites, 3, 3) && Entry(s.rewrites, 7, 28) && Entry(s.rewrites, 9, 20)
    && Fresh(s, 10) && Fresh(s, 11)
  }

  ghost predicate LGonePlaces(s: State) {
    && Has(s, 1, 1, Bin(MulK, 0, 0), 3) && ReadAt(s, 14, 2, 3) && Has(s, 3, 5, Const(3), 1) && ReadAt(s, 17, 10, 7)
    && Has(s, 28, 15, Bin(MulK, 26, 14), 11) && Has(s, 19, 16, Bin(MulK, 17, 14), 11)
    && Has(s, 8, 17, Bin(MulK, 28, 1), 15) && Has(s, 9, 18, Bin(MulK, 3, 28), 13)
    && Has(s, 20, 19, Bin(MulK, 3, 19), 13) && Has(s, 10, 20, Neg(9), 14) && Has(s, 11, 21, Bin(AddK, 8, 10), 30)
    && ReadAt(s, 22, 23, 22) && ReadAt(s, 24, 25, 11) && CallAt(s, 13, 27)
  }

  lemma DegreesOfG(s: State)
    requires Fourth(s)
    ensures !Linear(s, 8) && Measured(s.ops, s.tree, 8, s.memo) == s.memo[8 := 8]
  {
    hide Size, Measured, Pos, NoDup;
    FreshL(s);
    var f := map[0 := 1, 1 := 2, 4 := 4, 7 := 6];
    MeasuredHit(s.ops, s.tree, 1, f);
    MeasureBin(s, 8, map[], f, f);
    MeasuredHit(s.ops, s.tree, 7, s.memo);
    MeasuredHit(s.ops, s.tree, 1, s.memo);
    MeasureBin(s, 8, s.memo, s.memo, s.memo);
  }

  lemma EvalLAgain(c: Config, s: State, s1: State)
    requires c.maxDegree == 2 && Fourth(s) && s1 == s.(memo := s.memo[8 := 8])
    ensures Listed(s1.ops, s1.order, s1.nextId) && 7 in s1.order && Pos(s1.order, 7) == 13 && 21 in s1.tree
    ensures 7 in s1.tree && 14 in s1.memo
    ensures Size(s1.tree[21]) == 7 && Size(s1.tree[7]) == 11
    ensures Lower(c, s1, 7, 8).r == 28 && TakenApart(s1, 7, 21, 14, Lower(c, s1, 7, 8).s)
  {
    hide Size, Lower, LowerRoot, LowerBoth, Measured, NoDup, TakenApart;
    Over(c, s1, 7, 8);
    HitIs(c, s1, 4, 7);
    HitIs(c, s1, 1, 7);
    BothRule(c, s1, s1, s1, 7, 21, 14);
    Replaced(c, s1, s1, 7, 21, 14);
  }

  lemma LAgain(c: Config, s: State, s1: State)
    requires c.maxDegree == 2 && Fourth(s) && s1 == s.(memo := s.memo[8 := 8])
    ensures Lower(c, s1, 7, 8).r == 28 && LGone(Lower(c, s1, 7, 8).s)
  {
    hide Size, Lower, Listed, Has, ReadAt, CallAt, TakenApart, Pos, Fourth, LGonePlaces, LGoneTables;
    EvalLAgain(c, s, s1);
    LGoneTable(s, s1, Lower(c, s1, 7, 8).s);
    LGonePlace(s, s1, Lower(c, s1, 7, 8).s);
  }

  lemma LGoneTable(s: State, s1: State, t: State)
    requires Fourth(s) && s1 == s.(memo := s.memo[8 := 8])
    requires Listed(s1.ops, s1.order, s1.nextId) && 7 in s1.order && Pos(s1.order, 7) == 13 && 21 in s1.tree
    requires 7 in s1.tree && 14 in s1.memo
    requires TakenApart(s1, 7, 21, 14, t)
    ensures LGoneTables(t)
  {
    hide Size, Has, ReadAt, CallAt, Listed;
  }

  lemma LGonePlace(s: State, s1: State, t: State)
    requires Fourth(s) && s1 == s.(memo := s.memo[8 := 8])
    requires Listed(s1.ops, s1.order, s1.nextId) && 7 in s1.order && Pos(s1.order, 7) == 13 && 21 in s1.tree
    requires 7 in s1.tree && 14 in s1.memo
    requires Size(s1.tree[21]) == 7 && Size(s1.tree[7]) == 11 && TakenApart(s1, 7, 21, 14, t)
    ensures LGonePlaces(t)
  {
    hide Size, Listed, Has, ReadAt, CallAt, TakenApart, Pos, Entry, Fresh;
    SameBlock(s, s1);
    ApartMoves(s1, 7, 21, 14, t, 13);
  }

  /** g erased in turn: what replaced l is named by 29, which y reads from now on. */
  ghost predicate GGone(s: State) {
    && Sized(s, 32) && Entry(s.memo, 1, 2) && Entry(s.memo, 14, 1) && Entry(s.memo, 3, 0) && Entry(s.memo, 9, 6)
    && Entry(s.memo, 19, 2) && Entry(s.memo, 20, 2) && Entry(s.memo, 29, 1) && Entry(s.memo, 31, 2)
    && Entry(s.rewrites, 3, 3) && Entry(s.rewrites, 9, 20) && Fresh(s, 10) && Fresh(s, 11)
    && ReadAt(s, 14, 2, 3) && Has(s, 3, 5, Const(3), 1) && ReadAt(s, 17, 10, 7)
    && Has(s, 19, 16, Bin(MulK, 17, 14), 11) && ReadAt(s, 29, 17, 11) && Has(s, 31, 19, Bin(MulK, 29, 14), 15)
    && Has(s, 9, 20, Bin(MulK, 3, 29), 13) && Has(s, 20, 21, Bin(MulK, 3, 19), 13) && Has(s, 10, 22, Neg(9), 14)
    && Has(s, 11, 23, Bin(AddK, 31, 10), 30) && ReadAt(s, 22, 25, 22) && ReadAt(s, 24, 27, 11) && CallAt(s, 13, 29)
  }

  lemma EvalG(c: Config, s: State, s1: State)
    requires c.maxDegree == 2 && Fourth(s) && s1 == s.(memo := s.memo[8 := 8])
    ensures var t := Lower(c, s1, 7, 8).s;
            && LGone(t) && Listed(t.ops, t.order, t.nextId) && 8 in t.order && Pos(t.order, 8) == 17 && 28 in t.tree
            && 8 in t.tree && 14 in t.memo
            && Size(t.tree[28]) == 11 && Size(t.tree[8]) == 15
            && Lower(c, s, 8, 13).r == 31 && TakenApart(t, 8, 28, 14, Lower(c, s, 8, 13).s)
  {
    hide Size, Lower, LowerRoot, LowerBoth, Measured, NoDup, TakenApart;
    DegreesOfG(s);
    OverNew(c, s, 8, 13, s1.memo);
    LAgain(c, s, s1);
    var t := Lower(c, s1, 7, 8).s;
    HitIs(c, t, 1, 8);
    BothRule(c, s1, t, t, 8, 28, 14);
    Replaced(c, s1, t, 8, 28, 14);
  }

  lemma GLowered(c: Config, s: State)
    requires c.maxDegree == 2 && Fourth(s)
    ensures Lower(c, s, 8, 13).r == 31 && GGone(Lower(c, s, 8, 13).s)
  {
    hide Size, Lower, Listed, Has, ReadAt, CallAt, TakenApart, Pos;
    var s1 := s.(memo := s.memo[8 := 8]);
    EvalG(c, s, s1);
    ApartMoves(Lower(c, s1, 7, 8).s, 8, 28, 14, Lower(c, s, 8, 13).s, 17);
  }

  /** g named by 32. Now m = -y has degree 1, but what is cached for y has degree 2. */
  ghost predicate Fifth(s: State) {
    && Sized(s, 34) && Entry(s.memo, 1, 2) && Entry(s.memo, 14, 1) && Entry(s.memo, 3, 0) && Entry(s.memo, 9, 6)
    && Entry(s.memo, 19, 2) && Entry(s.memo, 20, 2) && Entry(s.memo, 29, 1) && Entry(s.memo, 31, 2)
    && Entry(s.rewrites, 3, 3) && Entry(s.rewrites, 9, 20) && Entry(s.rewrites, 31, 32) && Fresh(s, 10) && Fresh(s, 11)
    && ReadAt(s, 14, 2, 3) && Has(s, 3, 5, Const(3), 1) && ReadAt(s, 17, 10, 7)
    && Has(s, 19, 16, Bin(MulK, 17, 14), 11) && ReadAt(s, 29, 17, 11) && Has(s, 31, 19, Bin(MulK, 29, 14), 15)
    && Has(s, 9, 20, Bin(MulK, 3, 29), 13) && Has(s, 20, 21, Bin(MulK, 3, 19), 13) && Has(s, 10, 22, Neg(9), 14)
    && Has(s, 11, 23, Bin(AddK, 31, 10), 30) && ReadAt(s, 22, 25, 22) && ReadAt(s, 24, 27, 11)
    && ReadAt(s, 32, 29, 15) && CallAt(s, 13, 31)
  }

  lemma GHigh(s: State)
    requires GGone(s)
    ensures !Linear(s, 31)
  {
    hide Size, Measured, Pos, NoDup;
    FreshProductOfReads(s, 31, 29, 14, map[]);
  }

  lemma FifthTurn(c: Config, s: State)
    requires c.maxDegree == 2 && Fourth(s)
    ensures !Linear(s, 8)
    ensures var Next(t, a) := Materialised(c, s, 8, 13); a == 32 && Fifth(t)
  {
    hide Size, Lower, Linear, Listed, Has, ReadAt, CallAt, Materialised;
    DegreesOfG(s);
    GLowered(c, s);
    var u := Lower(c, s, 8, 13).s;
    GHigh(u);
    SizeOf(u, 31, 19, Bin(MulK, 29, 14), 15);
    CallPlace(u, 13, 29);
    NamedMoves(c, s, u, 8, 31, 13, 29);
  }

  // ---------- m, which is linear at its turn, and h ----------

  lemma SixthTurn(s: State)
    requires Fifth(s)
    ensures 10 in s.ops && Linear(s, 10)
  {
    hide Size, Measured, Pos, NoDup;
    MeasureLeaf(s, 3, map[]);
    MeasureLeaf(s, 29, map[3 := 0]);
    var m := map[3 := 0][29 := 1];
    MeasureBin(s, 9, map[], map[3 := 0], m);
    MeasureNeg(s, 10, map[], m[9 := 1]);
  }

  /** h = g + m lowered and named by 34, which put the product cached for y under m. */
  ghost predicate Sixth(s: State) {
    && Sized(s, 36) && Has(s, 3, 5, Const(3), 1) && ReadAt(s, 14, 2, 3) && ReadAt(s, 17, 10, 7)
    && Has(s, 19, 16, Bin(MulK, 17, 14), 11)
    && Has(s, 20, 21, Bin(MulK, 3, 19), 13) && Has(s, 10, 22, Neg(20), 14)
    && ReadAt(s, 22, 25, 22) && ReadAt(s, 24, 27, 11) && ReadAt(s, 32, 29, 15) && ReadAt(s, 34, 31, 30)
    && CallAt(s, 13, 33)
  }

  lemma DegreesOfH(s: State)
    requires Fifth(s)
    ensures !Linear(s, 11) && Measured(s.ops, s.tree, 11, s.memo) == s.memo[10 := 6][11 := 6]
  {
    hide Size, Measured, Pos, NoDup;
    FreshProductOfReads(s, 31, 29, 14, map[]);
    var f := map[29 := 1][14 := 1][31 := 2];
    MeasureLeaf(s, 3, f);
    MeasuredHit(s.ops, s.tree, 29, f[3 := 0]);
    MeasureBin(s, 9, f, f[3 := 0], f[3 := 0]);
    MeasureNeg(s, 10, f, f[3 := 0][9 := 1]);
    MeasureBin(s, 11, map[], f, f[3 := 0][9 := 1][10 := 1]);
    var m := s.memo;
    MeasuredHit(s.ops, s.tree, 31, m);
    MeasuredHit(s.ops, s.tree, 9, m);
    MeasureNeg(s, 10, m, m);
    MeasureBin(s, 11, m, m, m[10 := 6]);
  }

  /** What is cached for y goes under m. */
  lemma EvalH(c: Config, s: State)
    requires c.maxDegree == 2 && Fifth(s)
    ensures var t := SetOp(s.(memo := s.memo[10 := 6][11 := 6]), 10, Neg(20), 2);
            Lower(c, s, 11, 13) == Next(SetOp(t, 11, Bin(AddK, 31, 10), 2), 11)
  {
    hide Size, Lower, LowerRoot, LowerBoth, Measured, NoDup;
    DegreesOfH(s);
    var s1 := s.(memo := s.memo[10 := 6][11 := 6]);
    OverNew(c, s, 11, 13, s1.memo);
    Under(c, s1, 31, 11);
    Over(c, s1, 10, 11);
    HitIs(c, s1, 9, 10);
    Negation(c, s1, s1, 10, 20);
    var t := SetOp(s1, 10, Neg(20), 2);
    BothRule(c, s1, s1, t, 11, 31, 10);
    Sum(c, s1, t, 11, 31, 10);
  }

  ghost predicate HLowered(s: State) {
    && Sized(s, 34) && Has(s, 3, 5, Const(3), 1) && ReadAt(s, 14, 2, 3) && ReadAt(s, 17, 10, 7)
    && Has(s, 19, 16, Bin(MulK, 17, 14), 11)
    && ReadAt(s, 29, 17, 11) && Has(s, 31, 19, Bin(MulK, 29, 14), 15) && Has(s, 20, 21, Bin(MulK, 3, 19), 13)
    && Has(s, 10, 22, Neg(20), 14)
    && Has(s, 11, 23, Bin(AddK, 31, 10), 30)
    && ReadAt(s, 22, 25, 22) && ReadAt(s, 24, 27, 11) && ReadAt(s, 32, 29, 15) && CallAt(s, 13, 31)
  }

  lemma HSet(c: Config, s: State)
    requires c.maxDegree == 2 && Fifth(s)
    ensures HLowered(Lower(c, s, 11, 13).s)
  {
    hide Size, Lower, Listed, Has, ReadAt, CallAt;
    EvalH(c, s);
    var s1 := s.(memo := s.memo[10 := 6][11 := 6]);
    SameBlock(s, s1);
    var t := SetOp(s1, 10, Neg(20), 2);
    SizeOf(s1, 10, 22, Neg(9), 14);
    SetValue(s1, t, 10, Neg(20));
    SizeOf(t, 11, 23, Bin(AddK, 31, 10), 30);
    SetValue(t, SetOp(t, 11, Bin(AddK, 31, 10), 2), 11, Bin(AddK, 31, 10));
  }

  lemma HHigh(s: State)
    requires HLowered(s)
    ensures !Linear(s, 11)
  {
    hide Size, Measured, Pos, NoDup;
    FreshProductOfReads(s, 31, 29, 14, map[]);
    var f := map[29 := 1][14 := 1][31 := 2];
    MeasureLeaf(s, 3, f);
    var f3 := f[3 := 0];
    MeasureLeaf(s, 17, f3);
    MeasuredHit(s.ops, s.tree, 14, f3[17 := 1]);
    MeasureBin(s, 19, f3, f3[17 := 1], f3[17 := 1]);
    var f19 := f3[17 := 1][19 := 2];
    MeasureBin(s, 20, f, f3, f19);
    MeasureNeg(s, 10, f, f19[20 := 2]);
    MeasureBin(s, 11, map[], f, f19[20 := 2][10 := 2]);
  }

  lemma SeventhTurn(c: Config, s: State)
    requires c.maxDegree == 2 && Fifth(s)
    ensures !Linear(s, 11)
    ensures var Next(t, a) := Materialised(c, s, 11, 13); a == 34 && Sixth(t)
  {
    hide Size, Lower, Linear, Listed, Has, ReadAt, CallAt, Materialised;
    DegreesOfH(s);
    EvalH(c, s);
    HSet(c, s);
    var u := Lower(c, s, 11, 13).s;
    HHigh(u);
    SizeOf(u, 11, 23, Bin(AddK, 31, 10), 30);
    CallPlace(u, 13, 31);
    NamedMoves(c, s, u, 11, 11, 13, 31);
  }

  // ---------- the run as a whole ----------

  /** Behind the last call, m = -20 with 20 = 3 * (17 * 14) is one of its operands. */
  ghost predicate Last(s: State) {
    && 13 in s.ops && s.ops[13].Use? && s.ops[13].args == [22, 24, 32, 10, 34] && 3 in s.ops && s.ops[3] == Const(3)
    && 14 in s.ops && s.ops[14].Leaf? && 17 in s.ops && s.ops[17].Leaf? && 19 in s.ops && s.ops[19] == Bin(MulK, 17, 14)
    && 20 in s.ops && s.ops[20] == Bin(MulK, 3, 19) && 10 in s.ops && s.ops[10] == Neg(20)
  }

  lemma Turns(c: Config, s: State)
    requires c.maxDegree == 2 && Second(s)
    ensures var t := TakeTurns(c, s, 13, [12, 7, 8, 10, 11], 0);
        Sixth(t.s) && t.vals == [22, 24, 32, 10, 34] && !t.stale
  {
    hide Second, Third, Fourth, Fifth, Sixth, Linear, Materialised, TakeTurns;
    ThirdTurn(c, s);
    ArgumentThere(s, 12);
    TurnIs(c, s, 13, [12, 7, 8, 10, 11], 0);
    var s1 := Materialised(c, s, 12, 13).s;
    assert [12, 7, 8, 10, 11][0 := 22] == [22, 7, 8, 10, 11];
    FourthTurn(c, s1);
    LThere(s1);
    TurnIs(c, s1, 13, [22, 7, 8, 10, 11], 1);
    var s2 := Materialised(c, s1, 7, 13).s;
    assert [22, 7, 8, 10, 11][1 := 24] == [22, 24, 8, 10, 11];
    FifthTurn(c, s2);
    GThere(s2);
    TurnIs(c, s2, 13, [22, 24, 8, 10, 11], 2);
    var s3 := Materialised(c, s2, 8, 13).s;
    assert [22, 24, 8, 10, 11][2 := 32] == [22, 24, 32, 10, 11];
    LastTurns(c, s3);
  }

  lemma LastTurns(c: Config, s: State)
    requires c.maxDegree == 2 && Fifth(s)
    ensures var t := TakeTurns(c, s, 13, [22, 24, 32, 10, 11], 3);
        Sixth(t.s) && t.vals == [22, 24, 32, 10, 34] && !t.stale
  {
    hide Fifth, Sixth, Linear, Materialised, TakeTurns;
    SixthTurn(s);
    TurnIs(c, s, 13, [22, 24, 32, 10, 11], 3);
    SeventhTurn(c, s);
    HThere(s);
    TurnIs(c, s, 13, [22, 24, 32, 10, 11], 4);
    assert [22, 24, 32, 10, 11][4 := 34] == [22, 24, 32, 10, 34];
    TurnsDone(c, Materialised(c, s, 11, 13).s, 13, [22, 24, 32, 10, 34]);
  }

  lemma ArgumentThere(s: State, x: Id)
    requires Second(s) && x == 12
    ensures x in s.ops && 13 in s.ops && s.ops[13] == Use(0, [12, 7, 8, 10, 11])
  {}

  lemma LThere(s: State)
    requires Third(s)
    ensures 7 in s.ops
  {}

  lemma GThere(s: State)
    requires Fourth(s)
    ensures 8 in s.ops
  {}

  lemma HThere(s: State)
    requires Fifth(s)
    ensures 11 in s.ops
  {}

  lemma LastCall(c: Config, s: State)
    requires c.maxDegree == 2 && Second(s)
    ensures !Called(c, s, 13).1 && Last(Called(c, s, 13).0)
  {
    hide TakeTurns, Second, Pos, Size, Listed;
    Turns(c, s);
    ArgumentThere(s, 12);
    CalledIs(c, s, 13, TakeTurns(c, s, 13, [12, 7, 8, 10, 11], 0));
  }

  lemma AllCalls(c: Config, s: State)
    requires c.maxDegree == 2 && Start(s)
    ensures var r := CallsLowered(c, s, [2, 6, 13]); !r.1 && Last(r.0)
  {
    hide Called, CallsLowered, Start, First, Second, Last;
    var xs := [2, 6, 13];
    assert xs[0..] == xs && xs[3..] == [];
    FirstCall(c, s);
    CallsStep(c, s, xs, 0);
    var s1 := Called(c, s, 2).0;
    SecondCall(c, s1);
    CallsStep(c, s1, xs, 1);
    var s2 := Called(c, s1, 6).0;
    LastCall(c, s2);
    CallsStep(c, s2, xs, 2);
    CallsNone(c, Called(c, s2, 13).0);
  }

  lemma BodyNumbered()
    ensures Numbered(Body(), Order(14), 14) && WellFormed(Body(), Order(14)) && Listed(Body(), Order(14), 14)
    ensures DivFree(Body())
    ensures forall i: nat :: i < 14 ==> i in Order(14) && Pos(Order(14), i) == i
  {
    hide BodyOp;
    var ops := Body();
    forall x: Id | x in ops ensures UsesSmaller(ops, x) {
      forall y | y in Operands(ops[x]) ensures y < x && y in ops && ops[y].IsValue() { BodyUse(x, y); }
    }
    forall x | x in ops ensures !(ops[x].Bin? && ops[x].kind == DivK) { BodyUse(x, 0); }
    NumberedFormed(ops, Order(14), 14);
  }

  lemma BodyUse(x: Id, y: Id)
    requires x < 14
    ensures y in Operands(BodyOp(x)) ==> y < x && BodyOp(y).IsValue()
    ensures !(BodyOp(x).Bin? && BodyOp(x).kind == DivK)
  {}

  /** The values of the body with the size and the degree of their source expressions. */
  function SizeAt(i: nat): nat {
    if i == 0 || i == 3 then 1 else if i == 1 then 3 else if i == 4 then 7 else if i == 5 then 8 else if i == 7 then 11
      else if i == 8 then 15
    else if i == 9 then 13 else if i == 10 then 14 else if i == 11 then 30 else 22
  }

  function DegreeAt(i: nat): nat {
    if i == 0 then 1 else if i == 1 then 2 else if i == 3 then 0 else if i == 4 || i == 5 then 4
      else if i == 8 || i == 11 then 8 else 6
  }

  lemma {:induction false} BodyTree(i: nat)
    requires i < 13 && i != 2 && i != 6 && Numbered(Body(), Order(14), 14) && WellFormed(Body(), Order(14))
    ensures i in Body() && Body()[i].IsValue() && Size(Unfold(Body(), Order(14), i)) == SizeAt(i)
    ensures Degree(Unfold(Body(), Order(14), i)) == DegreeAt(i)
    decreases i
  {
    hide WellFormed, Numbered, Unfold;
    UnfoldStep(Body(), Order(14), 14, i);
    match BodyOp(i) {
      case Bin(_, l, r) => BodyTree(l); BodyTree(r);
      case Neg(y) => BodyTree(y);
      case _ =>
    }
  }

  lemma BodyLowerable()
    requires Numbered(Body(), Order(14), 14) && WellFormed(Body(), Order(14))
    ensures LowerableStruct(Body(), Order(14), 14, {})
  {
    hide WellFormed, Numbered, Unfold, Degree, Size, LowerableStruct;
    forall i | i in Body() && Body()[i].IsValue() ensures Degree(Unfold(Body(), Order(14), i)) <= 8 { BodyTree(i); }
    SmallLowerable(Body(), Order(14), 14);
  }

  lemma ValueStarts(auxCounter: nat, i: nat)
    requires i < 13 && i != 2 && i != 6 && Numbered(Body(), Order(14), 14) && WellFormed(Body(), Order(14))
    ensures Has(StartState(Body(), Order(14), 14, auxCounter), i, i, BodyOp(i), SizeAt(i))
  {
    hide WellFormed, Numbered, Unfold, Degree, Size, Pos, Has;
    BodyTree(i);
    StartHas(Body(), Order(14), 14, auxCounter, i);
  }

  lemma CallStarts(auxCounter: nat, i: nat)
    requires (i == 13 || i == 2 || i == 6) && Numbered(Body(), Order(14), 14) && WellFormed(Body(), Order(14))
    ensures CallIs(StartState(Body(), Order(14), 14, auxCounter), i, i, BodyOp(i).args)
  {
    hide WellFormed, Numbered, Unfold, Pos;
    StartHas(Body(), Order(14), 14, auxCounter, i);
  }

  lemma BodyStarts(auxCounter: nat)
    requires Numbered(Body(), Order(14), 14) && WellFormed(Body(), Order(14))
    ensures Start(StartState(Body(), Order(14), 14, auxCounter))
  {
    hide WellFormed, Numbered, Listed, Has, CallIs, StartState;
    StartTables(Body(), Order(14), 14, auxCounter);
    ValueStarts(auxCounter, 0);
    ValueStarts(auxCounter, 1);
    CallStarts(auxCounter, 2);
    ValueStarts(auxCounter, 3);
    ValueStarts(auxCounter, 4);
    ValueStarts(auxCounter, 5);
    CallStarts(auxCounter, 6);
    ValueStarts(auxCounter, 7);
    ValueStarts(auxCounter, 8);
    ValueStarts(auxCounter, 9);
    ValueStarts(auxCounter, 10);
    ValueStarts(auxCounter, 11);
    ValueStarts(auxCounter, 12);
    CallStarts(auxCounter, 13);
  }

  /** Between two calls there are none. */
  lemma {:induction false} CallsBetween(calls: set<nat>, i: nat, j: nat)
    requires i <= j <= 14 && forall k: nat :: i <= k < j ==> !BodyOp(k).Use?
    ensures ConsumersIn(Body(), Order(14)[..j], calls, true) == ConsumersIn(Body(), Order(14)[..i], calls, true)
    decreases j - i
  {
    hide ConsumersIn, BodyOp;
    if i == j {
    } else {
      CallsBetween(calls, i, j - 1);
      ConsumersNext(Body(), Order(14), calls, true, j - 1);
    }
  }

  lemma BodyCalls()
    ensures OnlyCalls(Body(), {0}) && ConsumersIn(Body(), Order(14), {0}, true) == [2, 6, 13]
  {
    hide ConsumersIn;
    var ops, order := Body(), Order(14);
    NoConsumers(ops, {0}, true);
    CallsBetween({0}, 0, 2);
    ConsumersNext(ops, order, {0}, true, 2);
    CallsBetween({0}, 3, 6);
    ConsumersNext(ops, order, {0}, true, 6);
    CallsBetween({0}, 7, 13);
    ConsumersNext(ops, order, {0}, true, 13);
    assert order[..0] == [] && order[..14] == order;
  }

  lemma LastHigh(c: Config, s: State)
    requires Inv(c, s) && Last(s)
    ensures WellFormed(s.ops, s.order) && !OperandWithin(s.ops, s.order, 13, 3, 1)
  {
    hide TreesOk, MemoOk, RewritesOk, AuxOk, ChecksOk, NoDup, Pos;
    assert UsesBefore(s.ops, s.order, 10, 20) by { assert 20 in Operands(s.ops[10]); }
    assert UsesBefore(s.ops, s.order, 20, 3) &&
        UsesBefore(s.ops, s.order, 20, 19) by { assert 3 in Operands(s.ops[20]) && 19 in Operands(s.ops[20]); }
    assert UsesBefore(s.ops, s.order, 19, 17) &&
        UsesBefore(s.ops, s.order, 19, 14) by { assert 17 in Operands(s.ops[19]) && 14 in Operands(s.ops[19]); }
    assert OpDegree(s.ops, s.order, 17) == 1 && OpDegree(s.ops, s.order, 14) == 1 && OpDegree(s.ops, s.order, 3) == 0;
    assert OpDegree(s.ops, s.order, 19) == 2;
    assert OpDegree(s.ops, s.order, 20) == 2;
  }

  lemma BodyRun(auxCounter: nat)
    ensures WellFormed(Body(), Order(14)) && LowerableStruct(Body(), Order(14), 14, {}) && DivFree(Body())
    ensures OnlyCalls(Body(), {0})
    ensures var c, s := StartConfig(Body(), Order(14), 2, auxCounter), StartState(Body(), Order(14), 14, auxCounter);
            var r := CallsLowered(c, s, ConsumersIn(Body(), Order(14), {0}, true));
            !r.1 && Last(r.0) && IsConsumer(c, 13, {0}, true) && IsRow(c, 13, 3)
  {
    hide LowerableStruct, WellFormed, CallsLowered, Numbered, Start, Last, Listed, Pos, Body, Order, OnlyCalls, DivFree,
        Unfold, UnfoldAll, IsConsumer, IsRow;
    BodyNumbered();
    BodyLowerable();
    BodyStarts(auxCounter);
    BodyCalls();
    AllCalls(StartConfig(Body(), Order(14), 2, auxCounter), StartState(Body(), Order(14), 14, auxCounter));
    BodyRow(auxCounter);
  }

  /** A body without felt divisions whose lowering ends with a nonlinear argument. */
  method RaisedArgument(auxCounter: nat) returns (out: Outcome)
    ensures DivFree(Body()) && out.CallArgumentTooHigh?
  {
    hide Inv, LowerableStruct, WellFormed, PreservesConstraints, CompletesWitnesses, CallsLowered, Last, Body, Order,
        OperandWithin, OnlyCalls, DivFree,
         StartConfig, StartState, IsConsumer, IsRow, ArgumentsClash;
    BodyRun(auxCounter);
    var pass;
    out, pass := RunOnStruct(Body(), Order(14), 14, {}, {0}, 2, auxCounter);
    LastHigh(pass.cfg, pass.St());
  }

  /** Operand 3 of the last call is an argument of a constrain call. */
  lemma BodyRow(auxCounter: nat)
    requires WellFormed(Body(), Order(14))
    ensures var c := StartConfig(Body(), Order(14), 2, auxCounter); IsConsumer(c, 13, {0}, true) && IsRow(c, 13, 3)
  {
    assert forall y :: y in Operands(Body()[13]) ==> UsesBefore(Body(), Order(14), 13, y);
  }
}
