/** One struct lowered from end to end, and what the whole run guarantees. */
module PolyLoweringRun {
  import opened Ir
  import opened LoweringState
  import opened PolyLowering
  import opened PolyLoweringPass
  import opened LoweringMeaning
  import opened ConsumerLowering
  import opened WitnessRebuild
  import opened LoweringFunction
  import opened LoweringEffects
  import opened LoweringThrift
  import opened CallArguments

  datatype Outcome =
    | Success(writes: seq<CInstr>)
    | InvalidMaxDegree
    | NameConflict
    | StaleCallOperand
    | EqualityTooHigh
    | RowTooHigh
    | CallArgumentTooHigh
    | CannotRebuild

  /** One assignment satisfies the lowered block exactly when it satisfies the original one and
      every generated member has its defining value. */
  ghost predicate SameSolutions(p: nat, ops: map<Id, Op>, order: seq<Id>, s: State, inp: Inputs, rel: Relation)
    requires p >= 2 && WellFormed(ops, order) && WellFormed(s.ops, s.order)
  {
    Satisfies(p, s.ops, s.order, inp, rel) <==>
    Satisfies(p, ops, order, inp, rel) && forall k :: 0 <= k < |s.aux| ==> AuxDefined(p, s, inp, k)
  }

  /** One witness, completed by the appended writes, satisfies the lowered block exactly when it
      satisfied the original one. */
  ghost predicate SameWitnesses(p: nat, ops: map<Id, Op>, order: seq<Id>, s: State, writes: seq<CInstr>, ctx: Context,
          members: Name -> int, rel: Relation)
    requires p >= 2 && WellFormed(ops, order) && WellFormed(s.ops, s.order) && Ordered(writes)
  {
    Satisfies(p, s.ops, s.order, InputsOf(ctx, Run(p, writes, ctx, members).members), rel) <==>
    Satisfies(p, ops, order, InputsOf(ctx, members), rel)
  }

  ghost predicate PreservesConstraints(ops: map<Id, Op>, order: seq<Id>, s: State)
    requires WellFormed(ops, order) && WellFormed(s.ops, s.order)
  {
    forall p: nat, inp: Inputs, rel: Relation :: p >= 2 ==> SameSolutions(p, ops, order, s, inp, rel)
  }

  ghost predicate CompletesWitnesses(ops: map<Id, Op>, order: seq<Id>, s: State, writes: seq<CInstr>)
    requires WellFormed(ops, order) && WellFormed(s.ops, s.order)
  {
    Ordered(writes) &&
    forall p: nat, ctx: Context, members: Name -> int, rel: Relation ::
      p >= 2 ==> SameWitnesses(p, ops, order, s, writes, ctx, members, rel)
  }

  /** Every argument of a constrain call has degree at most 1. */
  ghost predicate LinearArguments(c: Config, s: State, calls: set<nat>)
    requires WellFormed(s.ops, s.order)
  {
    forall x, j: nat :: IsConsumer(c, x, calls, true) && IsRow(c, x, j) ==> OperandWithin(s.ops, s.order, x, j, 1)
  }

  /** Every equality, original or generated, and every lookup row is within `maxDegree`; every call argument is
      linear. */
  ghost predicate DegreesBounded(c: Config, s: State, calls: set<nat>, maxDegree: nat)
    requires WellFormed(s.ops, s.order)
  {
    && (forall y :: y in s.ops && s.ops[y].Eq? ==> EqDegreeWithin(s.ops, s.order, y, maxDegree))
    && (forall x, j: nat ::
      IsConsumer(c, x, calls, false) && IsRow(c, x, j) ==> OperandWithin(s.ops, s.order, x, j, maxDegree))
    && LinearArguments(c, s, calls)
  }

  lemma RunPreserves(ops: map<Id, Op>, order: seq<Id>, nextId: Id, maxDegree: nat, counter: nat, s: State)
    requires Lowerable(ops, order) && maxDegree >= 2 && forall x :: x in ops ==> x < nextId
    requires Inv(StartConfig(ops, order, maxDegree, counter), s)
    ensures PreservesConstraints(ops, order, s)
  {
    var c, s0 := StartConfig(ops, order, maxDegree, counter), StartState(ops, order, nextId, counter);
    StartHolds(ops, order, nextId, maxDegree, counter);
    hide Inv, Satisfies, AuxDefined;
    forall p: nat, inp: Inputs, rel: Relation | p >= 2 ensures SameSolutions(p, ops, order, s, inp, rel) {
      LoweringPreserves(p, c, s0, s, inp, rel);
    }
  }

  lemma RunCompletes(ops: map<Id, Op>, order: seq<Id>, nextId: Id, maxDegree: nat, counter: nat, s: State,
          writes: seq<CInstr>)
    requires Lowerable(ops, order) && maxDegree >= 2 && forall x :: x in ops ==> x < nextId
    requires Inv(StartConfig(ops, order, maxDegree, counter), s)
    requires Ordered(writes) && WritesSound(StartConfig(ops, order, maxDegree, counter), s, writes)
    requires forall k: nat :: k < |s.aux| ==> Written(StartConfig(ops, order, maxDegree, counter), s, writes, k)
    ensures WellFormed(s.ops, s.order) && CompletesWitnesses(ops, order, s, writes)
  {
    var c, s0 := StartConfig(ops, order, maxDegree, counter), StartState(ops, order, nextId, counter);
    StartHolds(ops, order, nextId, maxDegree, counter);
    hide Inv, Satisfies, WritesSound, Written;
    forall p: nat, ctx: Context, members: Name -> int, rel: Relation | p >= 2
      ensures SameWitnesses(p, ops, order, s, writes, ctx, members, rel)
    {
      WitnessComplete(p, c, s0, s, writes, ctx, members, rel);
    }
  }

  /** What a struct must look like for its degrees to be computed at all: single-block SSA over declared
      members, and no degree beyond a 32-bit unsigned integer. */
  ghost predicate LowerableStruct(ops: map<Id, Op>, order: seq<Id>, nextId: Id, members: set<Name>) {
    && WellFormed(ops, order) && (forall x :: x in ops ==> x < nextId)
    && (forall x :: x in ops && ops[x].Leaf? && ops[x].src.Member? ==> ops[x].src.name in members)
    && (forall x :: x in ops && ops[x].IsValue() ==> Degree(Unfold(ops, order, x)) < UNSIGNED_RANGE)
  }

  /** The body states nothing but constrain calls. */
  ghost predicate OnlyCalls(ops: map<Id, Op>, calls: set<nat>) {
    forall x :: x in ops ==> !ops[x].Eq? && (ops[x].Use? ==> ops[x].tag in calls)
  }

  ghost predicate SomeEqualityTooHigh(s: State, maxDegree: nat)
    requires WellFormed(s.ops, s.order)
  {
    exists y :: y in s.ops && s.ops[y].Eq? && !EqDegreeWithin(s.ops, s.order, y, maxDegree)
  }

  ghost predicate SomeRowTooHigh(c: Config, s: State, calls: set<nat>, maxDegree: nat)
    requires WellFormed(s.ops, s.order)
  {
    exists x, j: nat ::
      IsConsumer(c, x, calls, false) && IsRow(c, x, j) && !OperandWithin(s.ops, s.order, x, j, maxDegree)
  }

  // ---------- nothing more than needed ----------

  lemma StartFits(ops: map<Id, Op>, order: seq<Id>, nextId: Id, maxDegree: nat, counter: nat, calls: set<nat>)
    requires WellFormed(ops, order) && BodyFits(ops, order, calls, maxDegree)
    ensures var c, s := StartConfig(ops, order, maxDegree, counter), StartState(ops, order, nextId, counter);
        EqualitiesFit(c, s) && ConsumersFit(s, calls, false, maxDegree) && ConsumersFit(s, calls, true, 1)
  {
    hide EqualitiesFit, ConsumersFit, BodyFits, WellFormed, UnfoldAll;
    FitsAtStart(StartConfig(ops, order, maxDegree, counter), StartState(ops, order, nextId, counter), ops, order,
      calls);
  }

  lemma StillFits(s: State, s': State, calls: set<nat>, maxDegree: nat)
    requires Untouched(s, s')
    ensures ConsumersFit(s, calls, false, maxDegree) ==> ConsumersFit(s', calls, false, maxDegree)
    ensures ConsumersFit(s, calls, true, 1) ==> ConsumersFit(s', calls, true, 1)
  {
    ConsumersStill(s, s', calls, false, maxDegree);
    ConsumersStill(s, s', calls, true, 1);
  }

  lemma RunJustified(c: Config, s0: State, s1: State, s2: State, s3: State, calls: set<nat>)
    requires OnlyNeeded(c, s0, s1) && OnlyNeeded(c, s1, s2) && OnlyJustified(c, s2, s3, calls) && s0.aux == []
    ensures forall k: nat :: k < |s3.aux| ==> Justified(c, s3, k, calls)
  {
    NeededTrans(c, s0, s1, s2);
    NeededJustified(c, s0, s2, calls);
    JustifiedTrans(c, s0, s2, s3, calls);
  }

  lemma LeftAlone(ops: map<Id, Op>, order: seq<Id>, nextId: Id, maxDegree: nat, counter: nat, calls: set<nat>, s: State)
    requires WellFormed(ops, order) && BodyFits(ops, order, calls, maxDegree)
    requires Untouched(StartState(ops, order, nextId, counter), s)
    requires Inv(StartConfig(ops, order, maxDegree, counter), s)
    ensures s.ops == ops && s.order == order && s.aux == [] && WellFormed(s.ops, s.order)
    ensures !SomeEqualityTooHigh(s, maxDegree)
    ensures !SomeRowTooHigh(StartConfig(ops, order, maxDegree, counter), s, calls, maxDegree)
    ensures LinearArguments(StartConfig(ops, order, maxDegree, counter), s, calls)
  {
    hide BodyFits, EqualitiesFit, ConsumersFit, Inv, UnfoldAll, EqDegreeWithin, OperandWithin, IsConsumer, IsRow;
    var c, s0 := StartConfig(ops, order, maxDegree, counter), StartState(ops, order, nextId, counter);
    StartFits(ops, order, nextId, maxDegree, counter, calls);
    StillFits(s0, s, calls, maxDegree);
    assert EqualitiesFit(c, s) by { EqualitiesStill(c, s0, s); }
    FitPasses(c, s, calls);
  }

  lemma EqualitiesStill(c: Config, s0: State, s: State)
    requires EqualitiesFit(c, s0) && Untouched(s0, s)
    ensures EqualitiesFit(c, s)
  {
    forall x | x in s.ops ensures SidesFit(c, s, x) { StillFit(c, s0, s, x); }
  }

  /** The end of the run: check every degree, then write the generated members on the compute side. */
  method CheckAndComplete(ops: map<Id, Op>, ghost order: seq<Id>, ghost nextId: Id, calls: set<nat>, maxDegree: nat,
          ghost auxCounter: nat, pass: Pass)
    returns (out: Outcome)
    requires Lowerable(ops, order) && maxDegree >= 2 && forall x :: x in ops ==> x < nextId
    requires pass.Valid() && pass.cfg == StartConfig(ops, order, maxDegree, auxCounter)
    requires pass.cfg.noDiv == DivFree(ops) && pass.cfg.maxDegree == maxDegree && AllEqLow(pass.cfg, pass.St())
    requires RowsLow(pass.cfg, pass.St(), set x | x in pass.cfg.checks && IsConsumer(pass.cfg, x, calls, false))
    requires DivFree(ops) && !ArgumentsClash(pass.cfg, calls) ==>
      forall x :: IsConsumer(pass.cfg, x, calls, true) ==> CallLow(pass.cfg, pass.St(), x)
    ensures !out.InvalidMaxDegree? && !out.NameConflict? && !out.StaleCallOperand? && WellFormed(pass.ops, pass.order)
    ensures DivFree(ops) ==> !out.EqualityTooHigh? && !out.RowTooHigh?
    ensures out.CallArgumentTooHigh? ==>
      !LinearArguments(pass.cfg, pass.St(), calls) && (DivFree(ops) ==> ArgumentsClash(pass.cfg, calls))
    ensures !out.EqualityTooHigh? && !out.RowTooHigh? ==>
        (out.CallArgumentTooHigh? <==> !LinearArguments(pass.cfg, pass.St(), calls))
    ensures out.Success? || out.CannotRebuild? ==> DegreesBounded(pass.cfg, pass.St(), calls, maxDegree)
    ensures out.CannotRebuild? ==> exists k: nat :: k < |pass.auxAssignments| && !Rebuildable(pass.St(), k)
    ensures out.Success? ==> forall k: nat :: k < |pass.auxAssignments| ==> Rebuildable(pass.St(), k)
    ensures out.Success? ==>
        PreservesConstraints(ops, order, pass.St()) && CompletesWitnesses(ops, order, pass.St(), out.writes)
    ensures out.EqualityTooHigh? ==> SomeEqualityTooHigh(pass.St(), maxDegree)
    ensures out.RowTooHigh? ==> SomeRowTooHigh(pass.cfg, pass.St(), calls, maxDegree)
    ensures out.Success? && pass.auxAssignments == [] ==> out.writes == []
  {
    hide Inv, Lowerable, AllEqLow, RowsLow, IsConsumer, EqDegreeWithin, OperandWithin, IsRow, StartConfig, WritesSound,
        Written, Ordered, Rebuildable, PreservesConstraints, CompletesWitnesses, DivFree, WellFormed, ArgumentsClash,
        CallLow;
    ghost var c, s := pass.cfg, pass.St();
    var ok := pass.CheckEqualityDegrees();
    if !ok {
      EqualitiesFine(c, s);
      return EqualityTooHigh;
    }
    ok := pass.CheckConsumers(calls, false, maxDegree);
    if !ok {
      RowsFine(c, s, calls);
      return RowTooHigh;
    }
    ok := pass.CheckConsumers(calls, true, 1);
    if !ok {
      if c.noDiv && !ArgumentsClash(c, calls) { CallsFine(c, s, calls); }
      return CallArgumentTooHigh;
    }
    var writes;
    ok, writes := WriteAuxiliaries(pass.ops, pass.auxAssignments, c, s);
    if !ok {
      return CannotRebuild;
    }
    RunPreserves(ops, order, nextId, maxDegree, auxCounter, s);
    RunCompletes(ops, order, nextId, maxDegree, auxCounter, s, writes);
    return Success(writes);
  }

  /** The lowering of one struct: validate, lower equalities, rows and calls, check every degree, then
      write the generated members on the compute side. */
  method RunOnStruct(ops: map<Id, Op>, order: seq<Id>, nextId: Id, members: set<Name>, calls: set<nat>, maxDegree: nat,
          auxCounter: nat)
    returns (out: Outcome, pass: Pass?)
    requires LowerableStruct(ops, order, nextId, members)
    ensures out.InvalidMaxDegree? <==> maxDegree < 2
    ensures out.NameConflict? <==> maxDegree >= 2 && exists k :: Auxiliary(k) in members
    ensures pass == null <==> out.InvalidMaxDegree? || out.NameConflict?
    ensures pass != null ==> pass.Valid() && pass.cfg == StartConfig(ops, order, maxDegree, auxCounter)
    ensures DivFree(ops) ==> !out.EqualityTooHigh? && !out.RowTooHigh?
    ensures out.CallArgumentTooHigh? ==>
      pass != null && WellFormed(pass.ops, pass.order) && !LinearArguments(pass.cfg, pass.St(), calls) &&
        (DivFree(ops) ==> ArgumentsClash(pass.cfg, calls))
    ensures pass != null && !out.StaleCallOperand? && !out.EqualityTooHigh? && !out.RowTooHigh? ==>
      WellFormed(pass.ops, pass.order) &&
      (out.CallArgumentTooHigh? <==> !LinearArguments(pass.cfg, pass.St(), calls))
    ensures out.StaleCallOperand? ==>
      pass != null && exists x ::
        IsConsumer(pass.cfg, x, calls, true) && HasErasableArgument(pass.cfg, x) &&
        (DivFree(ops) ==> StalePair(pass.cfg, x))
    ensures maxDegree >= 2 && !out.NameConflict? && OnlyCalls(ops, calls) ==>
      pass != null && (pass.St(), out.StaleCallOperand?) ==
                      CallsLowered(pass.cfg, StartState(ops, order, nextId, auxCounter),
                        ConsumersIn(ops, order, calls, true))
    ensures out.Success? || out.CannotRebuild? ==>
        pass != null && WellFormed(pass.ops, pass.order) && DegreesBounded(pass.cfg, pass.St(), calls, maxDegree)
    ensures out.CannotRebuild? ==> exists k: nat :: k < |pass.auxAssignments| && !Rebuildable(pass.St(), k)
    ensures out.Success? ==> forall k: nat :: k < |pass.auxAssignments| ==> Rebuildable(pass.St(), k)
    ensures out.Success? ==>
        PreservesConstraints(ops, order, pass.St()) && CompletesWitnesses(ops, order, pass.St(), out.writes)
    ensures out.EqualityTooHigh? ==>
      pass != null && WellFormed(pass.ops, pass.order) && SomeEqualityTooHigh(pass.St(), maxDegree)
    ensures out.RowTooHigh? ==>
      pass != null && WellFormed(pass.ops, pass.order) && SomeRowTooHigh(pass.cfg, pass.St(), calls, maxDegree)
    ensures pass != null ==> forall k: nat :: k < |pass.auxAssignments| ==> Justified(pass.cfg, pass.St(), k, calls)
    ensures maxDegree >= 2 && !out.NameConflict? && BodyFits(ops, order, calls, maxDegree) ==>
      out.Success? && pass.ops == ops && pass.order == order && pass.auxAssignments == [] && out.writes == []
  {
    hide EqualitiesFit, ConsumersFit, BodyFits, OnlyNeeded, OnlyJustified, Justified, SomeEqualityTooHigh,
        SomeRowTooHigh;
    hide Inv, Lowerable, LowerableStruct, AllEqLow, RowsLow, IsConsumer, HasErasableArgument, EqDegreeWithin,
        OperandWithin, IsRow, Unfold, UnfoldAll, StartConfig, StartState,
         WritesSound, Written, Ordered, Rebuildable, PreservesConstraints, CompletesWitnesses, DivFree, WellFormed,
           OnlyCalls, ArgumentsClash, StalePair, CallLow, CallsLowered, Tame, LinearArguments, DegreesBounded;
    pass := null;
    if maxDegree < 2 {
      return InvalidMaxDegree, null;
    }
    if exists name :: name in members && name.Auxiliary? {
      var name :| name in members && name.Auxiliary?;
      assert name == Auxiliary(name.k);
      return NameConflict, null;
    }
    LowerableFrom(ops, order, nextId, members, maxDegree, auxCounter);
    ghost var c := StartConfig(ops, order, maxDegree, auxCounter);
    pass := new Pass(ops, order, nextId, maxDegree, auxCounter);
    ghost var s0 := pass.St();
    StartTame(ops, order, nextId, maxDegree, auxCounter);
    OnlyCallsMeans(ops, order, nextId, maxDegree, auxCounter, calls);
    ghost var fits := BodyFits(ops, order, calls, maxDegree);
    if fits { StartFits(ops, order, nextId, maxDegree, auxCounter, calls); }
    pass.LowerEqualities();
    ghost var s1 := pass.St();
    if fits { StillFits(s0, s1, calls, maxDegree); }
    pass.LowerRows(calls);
    ghost var s2 := pass.St();
    if fits { StillFits(s1, s2, calls, maxDegree); }
    var stale := pass.LowerCalls(calls);
    RunJustified(c, s0, s1, s2, pass.St(), calls);
    if fits { LeftAlone(ops, order, nextId, maxDegree, auxCounter, calls, pass.St()); }
    if stale {
      return StaleCallOperand, pass;
    }
    out := CheckAndComplete(ops, order, nextId, calls, maxDegree, auxCounter, pass);
  }

  lemma LowerableFrom(ops: map<Id, Op>, order: seq<Id>, nextId: Id, members: set<Name>, maxDegree: nat, auxCounter: nat)
    requires LowerableStruct(ops, order, nextId, members) && !(exists name :: name in members && name.Auxiliary?)
    ensures WellFormed(ops, order) && Lowerable(ops, order) && (forall x :: x in ops ==> x < nextId)
    ensures StartState(ops, order, nextId, auxCounter).eqIds == []
    ensures StartState(ops, order, nextId, auxCounter).aux == []
    ensures StartConfig(ops, order, maxDegree, auxCounter).noDiv == DivFree(ops)
    ensures StartConfig(ops, order, maxDegree, auxCounter).maxDegree == maxDegree
  {}

  lemma EqualitiesFine(c: Config, s: State)
    requires Inv(c, s) && AllEqLow(c, s)
    ensures WellFormed(s.ops, s.order)
    ensures c.noDiv ==> forall y :: y in s.ops && s.ops[y].Eq? ==> EqDegreeWithin(s.ops, s.order, y, c.maxDegree)
  {
    if c.noDiv {
      forall y | y in s.ops && s.ops[y].Eq?
        ensures EqDegreeWithin(s.ops, s.order, y, c.maxDegree)
      {
        LowWithin(c, s, y);
      }
    }
  }

  lemma RowsFine(c: Config, s: State, calls: set<nat>)
    requires Inv(c, s) && RowsLow(c, s, set x | x in c.checks && IsConsumer(c, x, calls, false))
    ensures WellFormed(s.ops, s.order)
    ensures c.noDiv ==>
        forall x, j: nat ::
        IsConsumer(c, x, calls, false) && IsRow(c, x, j) ==> OperandWithin(s.ops, s.order, x, j, c.maxDegree)
  {
    if c.noDiv {
      forall x, j: nat | IsConsumer(c, x, calls, false) && IsRow(c, x, j)
        ensures OperandWithin(s.ops, s.order, x, j, c.maxDegree)
      {
        RowWithin(c, s, x, j);
      }
    }
  }

  lemma StartTame(ops: map<Id, Op>, order: seq<Id>, nextId: Id, maxDegree: nat, auxCounter: nat)
    requires WellFormed(ops, order)
    ensures Tame(StartConfig(ops, order, maxDegree, auxCounter), StartState(ops, order, nextId, auxCounter))
  {
    var c, s := StartConfig(ops, order, maxDegree, auxCounter), StartState(ops, order, nextId, auxCounter);
    forall x, k: nat | x in s.ops && k < |Operands(s.ops[x])| ensures SlotTame(c, s, x, k) {}
  }

  lemma OnlyCallsMeans(ops: map<Id, Op>, order: seq<Id>, nextId: Id, maxDegree: nat, auxCounter: nat, calls: set<nat>)
    requires WellFormed(ops, order)
    ensures StartState(ops, order, nextId, auxCounter).ops == ops
    ensures StartState(ops, order, nextId, auxCounter).order == order
    ensures OnlyCalls(ops, calls) ==> forall x :: x in ops ==> !ops[x].Eq?
    ensures OnlyCalls(ops, calls) ==>
        forall x :: !IsConsumer(StartConfig(ops, order, maxDegree, auxCounter), x, calls, false)
  {
    var c := StartConfig(ops, order, maxDegree, auxCounter);
    forall x | OnlyCalls(ops, calls) ensures !IsConsumer(c, x, calls, false) {
      if x in ops && ops[x].Use? { assert forall y :: y in Operands(ops[x]) ==> UsesBefore(ops, order, x, y); }
    }
  }

  lemma CallsFine(c: Config, s: State, calls: set<nat>)
    requires Inv(c, s) && forall x :: IsConsumer(c, x, calls, true) ==> CallLow(c, s, x)
    ensures WellFormed(s.ops, s.order) && LinearArguments(c, s, calls)
  {
    forall x, j: nat | IsConsumer(c, x, calls, true) && IsRow(c, x, j) ensures OperandWithin(s.ops, s.order, x, j, 1) {
      assert CallLow(c, s, x);
      LowWithinOne(c, s, x, j);
    }
  }
}
