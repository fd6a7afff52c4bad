# Verified models of the LLZK passes

This project models the transformation passes, the range analysis and the witness tool's data conversion of
LLZK, a compiler infrastructure for zero-knowledge circuits, and proves what those components promise. MLIR
itself is not modelled: operations are small SSA datatypes, values are identities or integers, and field
elements are integers with arithmetic modulo a prime.

Verify everything with `dafny verify dfyconfig.toml`.

## What is modelled

**Polynomial degree lowering** (`Ir`, `LoweringState`, `LoweringSteps`, `PolyLowering`, `LoweringFunction`,
`LoweringEffects`, `ConsumerLowering`, `CallArguments`, `StaleOperands`, `PolyLoweringPass`, `LoweringMeaning`,
`LoweringThrift`, `AuxOrder`, `WitnessRebuild`, `PolyLoweringRun`, `LoweringRules`, `LoweringExamples`,
`HighArgument`, `DegreeOverflow`). A `constrain` body is a map from identities to operations plus a block order. The
class `PolyLoweringPass.Pass` has the pass's fields and edits the block in place as the pass does: it factors operands
out into generated members, redirects later uses, replaces and erases products, resets operands of sums and negations.
One invariant, `LoweringState.Inv`, holds between any two edits: every value still computes the source expression
recorded for it, memoised degrees are sound, generated equalities directly follow the reads they define, constraints
still state what they stated. From it follow the theorems: the lowered body has exactly the original solutions, each
extended in exactly one way to the generated members; all equalities and lookup rows end within the degree bound; the
generated members can be written in dependency order; and the program appended to `compute` completes any witness.
`LoweringFunction` is the lowering as a function of the state, which every method is proved to compute;
`LoweringThrift` says what it does not do, namely touch what is within the bound or name what is no factor of a
product over it; `LoweringEffects` says what one lowering leaves alone, `CallArguments` what that means for the
arguments of constrain calls; `LoweringRules` runs the function on bodies known operation by operation, for the two
example modules.

**Lookup-row array histories** (`ArrayIndex`, `ArrayHistory`, `ContainmentMap`, `RowOperands`). Array operations with
static indices, executed forwards, define which operand was last written at each index; there is one exactly where the
contents do not depend on how the arrays began. The backward collection of the pass gives exactly that map, and fails
exactly when copies lead back to an array being looked at. `RowOperands` feeds the operands it finds to the lowering.

**Redundant read/write elimination** (`MemoryIr`, `KnownFacts`, `ReadWriteFacts`, `EliminationCorrect`,
`ReadWriteElim`, `EliminationThorough`, `EliminationReads` for straight-line code; `RegionFacts`, `RegionKept` for
nested branches and loops; `RegionWorklist` for the walk over blocks). Facts are predicates over all runs; a machine
with memory cells, globals, RAM and emitted constraints runs the original and the rewritten block side by side.
`EliminationThorough`, `EliminationReads` and `RegionKept` are the other half: which repeated reads, write-backs and
overwritten writes are certain to go, what replaces them, and which facts are certain to reach the code behind a
branch.

**Field and interval arithmetic** (`ModMath`, `DynamicInt`, `Intervals`, `IntervalOps`, `ZeroProduct`), with Euclid's
lemma and Fermat's little theorem proved from the definition of a prime.

**Duplicate operation elimination** (`DupIr`, `DupElim`, `DupSound`, `DupRewrite`, `DupSteps`, `DupFound`, `DupPass`,
`DupModule`): value numbering with dominance over nested regions, the erasing loops, the dead-producer worklist, and a
whole module walked from the bottom of its call graph. `DupFound` says what is found without mentioning the walk.

**Type unification** (`TypeUnify`, `TypeTracking`, `TypePlaces`, `TypeUnifier`, `TypeSubstitution`, `TypeInstances`),
**call-graph reachability** (`Reachability`), **unused structs and members** (`StructReferences`, `UnusedStructs`,
`DanglingReferences`, `UnusedMembers`) and the **witness tool's JSON and buffers** (`Json`, `JsonArray`, `WitgenJson`,
`WitgenBuffer`, `JsonDiff`).

## Where the code does not do what one would expect

Each of these is a result, with the input on which it shows. The condition is exact where it says "if and only
if"; otherwise it is one a caller can check that rules the defect out.

- Degrees are summed in 32-bit unsigned integers. The machine's degree of an expression is right if and only
  if the true degree is below 2^32 (`DegreeOverflow.MachineDegreeExact`); a signal squared 32 or more times
  over counts as degree 0 (`OverflowHidesDegree`). The lowering theorems are stated for bodies whose degrees fit.
- The call phase captures a call's operands before it lowers them one by one, so lowering one may erase another
  that is still to be used. The run ends in `StaleCallOperand` then. `call(m, m)` with `m = (x * x) * x` and bound 2
  does it (`LoweringExamples.CubeTwice`). In a body without felt division it can happen only for a call with an argument
  that is, or is made of, a later argument that is a nonlinear product over the bound (`StalePair` in
  `Pass.LowerCall`); the same such product twice, not lowered before and with nothing but linear arguments in front,
  is always stale (`StaleOperands.RepeatedStale`). The first condition is necessary only: the fifth power
  passed twice with bound 3 meets it and is not stale (`FifthTwice`), because lowering its factor already
  leaves it within the bound.
- The last check of the pass, that call arguments are linear, can fail although every argument was made linear at its
  turn: lowering a sum, difference or negation sets operands in place, under whatever was made of it before.
  `HighArgument.RaisedArgument` is a body without felt division that ends so. It cannot happen unless there are
  two call arguments that share a sum, difference or negation over the bound, of which the one that may be raised is no
  nonlinear product (`ArgumentsClash` in `RunOnStruct` and `Pass.LowerCalls`).
- The collected array map is not always the last-writer map: copying a row within its own array makes the
  collection report a cyclic update although every element is known (`ContainmentMap.RowCopyFails`). It
  succeeds if and only if no chain of copies comes back (`CollectMap`).
- `binaryBitOp` halves toward zero, so for negative operands it does not see two's complement bits. It does so
  if and only if the operand is non-negative or minus a power of two (`DynamicInt.SeenExact`).
- `modInversePrime` checks its argument against 0 only; the inverse it computes is right if and only if the
  prime does not divide the argument (`DynamicInt.InverseCheck`).
- `Interval::join` mixes a point's raw ends with a range around zero, and `intersect` re-tags a point in the
  upper half as if it lay in the lower half. Each is sound if and only if it meets no such pair
  (`Intervals.JoinSound`, `Intervals.IntersectSound`).
- Types that unify are described as possibly equal after instantiation. That is exact up to pairs of different
  affine maps, which never unify (`TypeInstances.UnifyIffCommonInstance`). Function instantiation, which
  appends the dimensions of an element type that becomes an array, gives a type that unifies with the original
  if and only if no array has grown (`FlattenedUnifies`). Being at least as concrete is no order up to equality: two
  different types can each count as more concrete than the other, if and only if they differ in nothing but type
  variables and wildcard dimensions, each opposite any other variable, or any size or affine map
  (`TypeInstances.BothWays`; `WildcardBothWays` has the smallest pairs).
- The size checks for nested arrays can refuse an array without elements (`WitgenJson.EmptyRefused`); when
  exactly they refuse is `WitgenJson.SerializeArray` and `WitgenBuffer.BufferPack.BufferToJsonArray`. An array that
  fits in memory and has no empty dimension is never refused.
- Unused structs are said to be found by looking for any uses. Operations outside all structs are skipped, and of a
  type only the struct it is itself of counts, not one inside an array or a pod. A struct that a free function takes
  (`DanglingReferences.FreeFunctionDangles`), or that is the element type of an array member (`ArrayMemberDangles`),
  is removed under a reference that stays. Nothing is left dangling if and only if every such uncollected
  reference from what stays is to a struct that a chain of collected ones anchors anyway (`DanglesIff`).
- A candidate is compared with the one retained operation it matches, the first of its kind in the function. If that one
  is in a branch or loop the candidate is not in, the candidate stays, and so does a third one although the second
  precedes it (`DupFound.MissedBehindBranch`). A candidate is found if and only if the first one like it is in front of
  it in an enclosing block (`DupFound.FnFound`).
- Global and RAM facts are said to be kept across a region if they hold before and after it. A loop region is walked
  without facts, so a loop that leaves a global or RAM alone loses all facts about it
  (`RegionKept.ReadBehindLoopStays`): nothing is known behind a loop of a cell that one of its regions does not write
  (`LoopForgets`), and a body that ends by writing back what was known keeps it (`LoopKeeps`).
- `operator+` on intervals takes an empty operand for zero instead of giving an empty sum (`IntervalOps.AddEmpty`).

## Model

| member | source | states |
|---|---|---|
| `PolyLowering.GetDegree` | lib/Transforms/LLZKPolyLoweringPass.cpp:195-231 | Started on an empty memo the result is the degree the value has in the block as it now stands, 32-bit sums included; on any sound memo it is memoised, never exceeds the degree of the source expression, and changes no earlier entry. |
| `PolyLowering.DegreeBound` | lib/Transforms/LLZKPolyLoweringPass.cpp:195-231 | In every state the lowering can reach, a memoised degree is never below the degree the value then has, although operands have been replaced since it was memoised. |
| `LoweringSteps.FactorStep` | lib/Transforms/LLZKPolyLoweringPass.cpp:349-366 | Naming an operand by a generated member (read, equality directly behind it, later uses redirected) keeps the whole invariant, and the read stands for the operand. |
| `LoweringSteps.MulStep` | lib/Transforms/LLZKPolyLoweringPass.cpp:376-385 | The rebuilt product of lowered operands keeps the invariant, is within the bound, and stands for the old product. |
| `LoweringSteps.RetireStep` | lib/Transforms/LLZKPolyLoweringPass.cpp:378-381 | Replacing all uses of an over-degree product by the rebuilt one and erasing it keeps the invariant: no use dangles and no rewrite leads to the erased value. |
| `LoweringSteps.RerootStep` | lib/Transforms/LLZKPolyLoweringPass.cpp:260-279 | Setting the operands of a sum, difference or negation in place keeps the invariant and moves nothing behind it. |
| `LoweringSteps.CheckStep` | lib/Transforms/LLZKPolyLoweringPass.cpp:970-983 | Setting an operand of an original constraint to a value that stands for it leaves the constraint stating its source expression. |
| `PolyLowering.FactorOutOps` | lib/Transforms/LLZKLoweringUtils.cpp:270-287 | Inserting the read and its equality and then redirecting every use behind the equality, use by use, is the one factoring step the invariant is proved for. |
| `PolyLoweringPass.Pass.constructor` | lib/Transforms/LLZKPolyLoweringPass.cpp:958-961 | A run starts in a state that satisfies the invariant, with empty tables. |
| `PolyLoweringPass.Pass.Dominates` | lib/Transforms/LLZKPolyLoweringPass.cpp:238-241 | Dominance in the block, decided by position: true exactly when the value stands in front of the use. |
| `PolyLoweringPass.Pass.Degree` | lib/Transforms/LLZKPolyLoweringPass.cpp:195-231 | Memoises the degree, changing nothing else: no operation, no order, no earlier memo entry. |
| `PolyLoweringPass.Pass.CacheIdentityIfAbsent` | lib/Transforms/LLZKPolyLoweringPass.cpp:243-248 | Caches a value as standing for itself, only if nothing is cached for it yet. |
| `PolyLoweringPass.Pass.ReplaceSubsequentUsesWith` | lib/Transforms/LLZKLoweringUtils.cpp:270-287 | Exactly the uses behind the given operation are redirected; those in front of it and in it are left. |
| `PolyLoweringPass.Pass.ReplaceAndErase` | lib/Transforms/LLZKPolyLoweringPass.cpp:378-381 | The operation is gone from block and order and every use of it reads the replacement. |
| `PolyLoweringPass.Pass.NameBefore` | lib/Transforms/LLZKPolyLoweringPass.cpp:409-426 | A fresh read of a fresh member and its defining equality at the given place, recorded as an assignment, degree 1, and as the rewrite of the named value. |
| `PolyLoweringPass.Pass.FactorOut` | lib/Transforms/LLZKPolyLoweringPass.cpp:349-366 | Naming plus redirecting the later uses gives exactly the factored state. |
| `PolyLoweringPass.Pass.LowerBinaryRoot` | lib/Transforms/LLZKPolyLoweringPass.cpp:259-279 | A sum or difference over the bound is lowered in place: it still stands for its source expression and is available at the use, with all invariants kept; the state is the one the functional lowering gives. |
| `PolyLoweringPass.Pass.LowerNegation` | lib/Transforms/LLZKPolyLoweringPass.cpp:289-301 | The same for a negation. |
| `PolyLoweringPass.Pass.LowerProduct` | lib/Transforms/LLZKPolyLoweringPass.cpp:303-388 | Lowers both operands, factors a square once or the larger side repeatedly until the product fits, rebuilds it and erases the old one: terminates, the result stands for the product at the use, and only nonlinear products over the bound are gone. |
| `PolyLoweringPass.Pass.LowerExpression` | lib/Transforms/LLZKPolyLoweringPass.cpp:233-393 | Terminates on every DAG and computes exactly the functional lowering; the result has the same source expression as the argument, is available at the use, is within the bound (unless the body has a felt division), everything behind the use stays where it is, and a linear value that shares nothing lowered in place with the argument stays linear. Every member it generates names one of the two factors of a product over the bound that the argument is made of. |
| `LoweringThrift.ThriftyFactored` | lib/Transforms/LLZKPolyLoweringPass.cpp:320-373 | A side of a product is named only while the product is over the bound: what the new member stands for is one of the two factors of an over-degree product of the source. |
| `LoweringThrift.NamedItself` | lib/Transforms/LLZKPolyLoweringPass.cpp:395-428 | Naming a call argument generates, besides names of factors, one member for the argument itself, and only if its degree is above 1. |
| `LoweringThrift.FitPasses` | lib/Transforms/LLZKPolyLoweringPass.cpp:430-478 | A body that was within the bound and was left alone passes all the checks the pass ends with. |
| `PolyLoweringPass.Pass.LowerSide` | lib/Transforms/LLZKPolyLoweringPass.cpp:970-983 | Only a side whose degree, as it was looked up, is over the bound is lowered, and then exactly as the functional lowering does it; it ends within the bound, the other side no worse than it was, and every member generated names a factor of an over-degree product that the source side is made of. |
| `PolyLoweringPass.Pass.LowerEquality` | lib/Transforms/LLZKPolyLoweringPass.cpp:964-984 | Both degrees are looked up before either side is lowered. Both sides are within the bound afterwards and the equality still states its source constraint; an equality whose source sides are within the bound is left as it is. |
| `PolyLoweringPass.Pass.LowerEqualities` | lib/Transforms/LLZKPolyLoweringPass.cpp:963-984 | After the walk every equality, original or generated, is within the bound. If all equality sides of the source are, the walk changes no operation and generates nothing; otherwise it names nothing but factors of over-degree products that source expressions are made of. |
| `PolyLoweringPass.Pass.LowerRowOperand` | lib/Transforms/LLZKPolyLoweringPass.cpp:783-801 | One felt operand of an operation that feeds a lookup row, the row itself or the array operation that owns it, ends within the bound, and nothing lowered before is spoiled; an operand within the bound is left alone, and only factors of over-degree products are named. |
| `PolyLoweringPass.Pass.LowerRows` | lib/Transforms/LLZKPolyLoweringPass.cpp:986-1000 | All operands of all operations that feed lookup rows end within the bound and all equalities still are. If all of them are within it in the source nothing changes, and nothing but factors of over-degree products of the source is named. |
| `RowOperands.LowerContainmentRhs` | lib/Transforms/LLZKPolyLoweringPass.cpp:803-837 | Lowering an array that is looked up, through the collected map: it fails, changing nothing, if and only if the history is cyclic; otherwise every operand that some element of the array shows ends within the bound at the operation that owns it, with the source expression it had. If all of them are within the bound in the source, nothing changes. |
| `PolyLoweringPass.Pass.MaterializeCallArgument` | lib/Transforms/LLZKPolyLoweringPass.cpp:395-428 | The value passed to the call has degree at most 1 as the block stands and has the source expression of the argument; the members generated name the argument, if it is nonlinear, and factors of over-degree products in it. |
| `PolyLoweringPass.Pass.LowerCall` | lib/Transforms/LLZKPolyLoweringPass.cpp:1002-1033 | Runs exactly as the functional form of the turns. An operand found erased at its turn means, in bodies without felt division, that in the source an earlier argument is or is made of a later one that is a nonlinear product over the bound; the same fresh product twice is always found erased. Otherwise the rebuilt call states its source arguments, all of them linear unless one turn may raise an earlier argument, and so stay those of other calls. A call whose source arguments are all linear is left alone. |
| `StaleOperands.LowerNew` | lib/Transforms/LLZKPolyLoweringPass.cpp:233-393 | No lowering brings an erased value back: what is in the block afterwards was in it before or is new. |
| `StaleOperands.RepeatedStale` | lib/Transforms/LLZKPolyLoweringPass.cpp:1004-1022 | A call that takes one not yet lowered product over the bound twice, with nothing but linear arguments in front, is always stale. |
| `LoweringExamples.CubeTwice` | lib/Transforms/LLZKPolyLoweringPass.cpp:1004-1022 | m = (x * x) * x; call(m, m) with bound 2: the whole run ends with a stale operand. |
| `LoweringExamples.FifthTwice` | lib/Transforms/LLZKPolyLoweringPass.cpp:1004-1022 | The fifth power twice with bound 3: over the bound, passed twice, and yet not stale, because lowering its factors already leaves it within the bound in place. |
| `PolyLoweringPass.Pass.LowerCalls` | lib/Transforms/LLZKPolyLoweringPass.cpp:1001-1034 | The call phase is the functional one, call by call. It spoils no equality and no lookup row; in bodies without felt division every argument of every call ends linear, unless lowering one argument of some call may raise another. With none but linear arguments in the source it changes nothing. |
| `LoweringEffects.LowInduct` | lib/Transforms/LLZKPolyLoweringPass.cpp:233-393 | A linear value gets no higher by an edit that redirects only what no linear value has, or to a read, provided it is not made of a sum, difference or negation that was set in place. |
| `HighArgument.RaisedArgument` | lib/Transforms/LLZKPolyLoweringPass.cpp:1001-1034 | A body of fourteen operations without felt division whose run ends with a nonlinear call argument: a negation that is linear at its turn is raised when a later argument sets it in place. |
| `PolyLoweringPass.Pass.CheckEqualityDegrees` | lib/Transforms/LLZKPolyLoweringPass.cpp:430-449 | The final check passes exactly when both sides of every equality, recomputed from scratch, are within the bound. |
| `PolyLoweringPass.Pass.CheckConsumers` | lib/Transforms/LLZKPolyLoweringPass.cpp:451-478 | The final check on operands of calls (with bound 1) or of lookup rows passes exactly when all are within the bound. |
| `PolyLowering.LowWithin` | lib/Transforms/LLZKPolyLoweringPass.cpp:430-449 | For bodies without felt division the check on equalities can never fire. |
| `ConsumerLowering.RowWithin` | lib/Transforms/LLZKPolyLoweringPass.cpp:866-908 | Nor can the check on lookup rows. |
| `ConsumerLowering.CallSpoilsNothing` | lib/Transforms/LLZKPolyLoweringPass.cpp:1001-1034 | Editing a call leaves all equalities and rows within the bound. |
| `LoweringMeaning.StartHolds` | lib/Transforms/LLZKPolyLoweringPass.cpp:958-961 | Every straight-line body whose degrees fit 32 bits satisfies the invariant before lowering. |
| `LoweringMeaning.EvalIsValue` | lib/Transforms/LLZKPolyLoweringPass.cpp:233-393 | With the generated members at their defining values, every value of the lowered block evaluates to its source expression modulo p. |
| `LoweringMeaning.SatisfiedDefines` | lib/Transforms/LLZKPolyLoweringPass.cpp:358-361 | A satisfied lowered body forces every generated member to its defining value: the equalities pin them one after the other. |
| `LoweringMeaning.LoweringPreserves` | lib/Transforms/LLZKPolyLoweringPass.cpp:233-393 | For every modulus, assignment and relation for the other consumers, the lowered body is satisfied if and only if the original is and each generated member has its defining value. |
| `LoweringMeaning.ExtensionExists` | lib/Transforms/LLZKPolyLoweringPass.cpp:233-393 | Every solution of the original body extends to one of the lowered body. |
| `LoweringMeaning.ExtensionUnique` | lib/Transforms/LLZKPolyLoweringPass.cpp:233-393 | Two solutions of the lowered body that agree on the original signals agree modulo p on every generated member. |
| `AuxOrder.AddAuxDependency` | lib/Transforms/LLZKPolyLoweringPass.cpp:89-99 | Adds the dependency unless it is the owner or already there. |
| `AuxOrder.CollectAuxDependencies` | lib/Transforms/LLZKPolyLoweringPass.cpp:101-131 | The dependencies found are exactly the generated members read by the newly visited values; visited values bring their operands along. |
| `AuxOrder.DependenciesDescend` | lib/Transforms/LLZKPolyLoweringPass.cpp:133-158 | The dependency graph the lowering produces is acyclic: every dependency has a strictly smaller source expression. |
| `AuxOrder.AuxTables` | lib/Transforms/LLZKPolyLoweringPass.cpp:164-172 | Both look-up tables lead from each generated read, and each generated name, to its assignment. |
| `AuxOrder.AllDependencies` | lib/Transforms/LLZKPolyLoweringPass.cpp:174-182 | For each assignment the collected list holds exactly the members its value is built from. |
| `AuxOrder.VisitAuxAssignment` | lib/Transforms/LLZKPolyLoweringPass.cpp:133-158 | The depth-first visit never reports a cycle and appends each assignment behind all it depends on. |
| `AuxOrder.OrderAuxAssignments` | lib/Transforms/LLZKPolyLoweringPass.cpp:160-193 | Succeeds always; the result is a permutation of all assignments with every prerequisite first. |
| `WitnessRebuild.RebuildExprInCompute` | lib/Transforms/LLZKLoweringUtils.cpp:57-217 | Succeeds if and only if the value is not made of a nondeterministic one, apart from what reads generated members; then the rebuilt compute-side value amounts to the source expression of the constrain-side one, sharing what was rebuilt before. |
| `WitnessRebuild.WriteAuxiliary` | lib/Transforms/LLZKPolyLoweringPass.cpp:1063-1080 | One member rebuilt and written, if and only if what it is computed from has no nondeterministic value; its read may be used by later members without reading it back. |
| `WitnessRebuild.WriteAuxiliaries` | lib/Transforms/LLZKPolyLoweringPass.cpp:1051-1080 | Succeeds if and only if no generated member is computed from a nondeterministic value; then every one is written, each time with its own source expression. |
| `WitnessRebuild.RunIsMeaning` | lib/Transforms/LLZKLoweringUtils.cpp:57-217 | Running the appended operations computes exactly the expressions they amount to and leaves declared members alone. |
| `WitnessRebuild.WritesLand` | lib/Transforms/LLZKPolyLoweringPass.cpp:1051-1080 | After the run each generated member holds exactly the value its constrain-side equality demands. |
| `WitnessRebuild.WitnessComplete` | lib/Transforms/LLZKPolyLoweringPass.cpp:1051-1080 | A completed witness satisfies the lowered constraints if and only if the witness before completion satisfied the original ones. |
| `PolyLoweringRun.RunOnStruct` | lib/Transforms/LLZKPolyLoweringPass.cpp:910-1082 | One struct from end to end. Invalid bounds and reserved names are refused exactly; success or a member that cannot be rebuilt means that all degrees are bounded, and which of the two is decided exactly by whether some member is computed from a nondeterministic value; success means that solutions are preserved and witnesses completed. The check on call arguments, when it is reached, fails exactly when some argument ends nonlinear. Without felt division the checks on equalities and rows never fire, and the one on call arguments only if lowering one argument may raise another; a stale operand means a call with an argument made of a later, erasable one. A body whose equality sides and rows are within the bound and whose call arguments are linear comes out as it went in, with no generated member and no write; in any body each generated member names a factor of an over-degree product of the source or a nonlinear argument of a constrain call. |
| `DegreeOverflow.MachineDegreeExact` | lib/Transforms/LLZKPolyLoweringPass.cpp:195-231 | The degree summed in 32-bit unsigned integers is the true degree if and only if that is below 2^32. |
| `DegreeOverflow.OverflowHidesDegree` | lib/Transforms/LLZKPolyLoweringPass.cpp:220-225 | From 32 nested squarings on, the machine takes the degree for 0. |
| `ArrayIndex.DelinearOfLinear` | lib/Dialect/Array/Util/ArrayTypeHelper.cpp:102-126 | An index in the shape is recovered from its row-major position, which is in range. |
| `ArrayIndex.LinearOfDelinear` | lib/Dialect/Array/Util/ArrayTypeHelper.cpp:128-141 | Every position in range is the position of its index. |
| `ArrayHistory.LastWriterHolds` | lib/Transforms/LLZKPolyLoweringPass.cpp:639-646 | Executing the array operations forwards from any contents, an array holds where it was written the value of the operand the last-writer map names. |
| `ArrayHistory.NoWriterHolds` | lib/Transforms/LLZKPolyLoweringPass.cpp:639-646 | An element without a last writer holds, through all the copies, what one definite element held at the start. |
| `ArrayHistory.WriterIff` | lib/Transforms/LLZKPolyLoweringPass.cpp:639-646 | An element has a last writer if and only if what it holds never depends on what arrays held at the start. |
| `ContainmentMap.DefiningOp` | lib/Transforms/LLZKPolyLoweringPass.cpp:663-702 | The operation that defines the array, if one in front of the boundary does. |
| `ContainmentMap.CollectMap` | lib/Transforms/LLZKPolyLoweringPass.cpp:639-779 | The collected map equals the last-writer map at the boundary under the view prefix, both ways; the collection fails if and only if a chain of copies leads back to an array being looked at. |
| `ContainmentMap.CollectOp` | lib/Transforms/LLZKPolyLoweringPass.cpp:704-776 | One operation of the history: writes and overlapping insertions are taken over, elements an insertion leaves unknown are removed, everything else is skipped. |
| `ContainmentMap.CollectElements` | lib/Transforms/LLZKPolyLoweringPass.cpp:571-606 | The elements visible under the prefix, each once, in row-major order, and none missing. |
| `ContainmentMap.ToMap` | lib/Transforms/LLZKPolyLoweringPass.cpp:756-759 | The listed elements of an inserted array, as a map from index to operand. |
| `ContainmentMap.FedCyclic` | lib/Transforms/LLZKPolyLoweringPass.cpp:656-659 | A history that comes back through a copy makes the array that needs it come back too. |
| `ContainmentMap.CyclicFed` | lib/Transforms/LLZKPolyLoweringPass.cpp:656-659 | And only that: a history that comes back does so through one of the copies the collection follows. |
| `ContainmentMap.RankedNeverCyclic` | lib/Transforms/LLZKPolyLoweringPass.cpp:656-659 | If copies only go from arrays of lower to arrays of higher rank, the collection never reports a cyclic update. |
| `ContainmentMap.CollectedHold` | lib/Transforms/LLZKPolyLoweringPass.cpp:571-606 | Every collected operand has the value its array holds at that index when the code runs. |
| `ContainmentMap.RowCopyFails` | lib/Transforms/LLZKPolyLoweringPass.cpp:656-659 | A row copied within its own array: every element has a last writer, yet the history counts as cyclic. |
| `KnownFacts.PlaceIsCell` | lib/Transforms/LLZKRedundantReadAndWriteEliminationPass.cpp:633-659 | A member access with translated component, offset and map operands names the cell the access really touches. |
| `KnownFacts.ReadKnown` | lib/Transforms/LLZKRedundantReadAndWriteEliminationPass.cpp:763-784 | A read of a place whose content is known equals the known value on every run. |
| `KnownFacts.ReadFresh` | lib/Transforms/LLZKRedundantReadAndWriteEliminationPass.cpp:771-773 | A first read makes the place known, truthfully. |
| `KnownFacts.WriteSets` | lib/Transforms/LLZKRedundantReadAndWriteEliminationPass.cpp:785-821 | After a write its translated value is what the place holds on every run. |
| `KnownFacts.ArraySets` | lib/Transforms/LLZKRedundantReadAndWriteEliminationPass.cpp:823-841 | A new array first holds its translated elements at their constant indices. |
| `KnownFacts.CellKept` | lib/Transforms/LLZKRedundantReadAndWriteEliminationPass.cpp:785-800 | A fact about a place survives every operation that cannot write to it. |
| `KnownFacts.LoadRead` | lib/Transforms/LLZKRedundantReadAndWriteEliminationPass.cpp:622-631 | A load of a known RAM address equals the known value; a first load makes it known. |
| `KnownFacts.Stored` | lib/Transforms/LLZKRedundantReadAndWriteEliminationPass.cpp:749-752 | After a store the stored value is what the address holds, whatever else it may have aliased. |
| `ReadWriteFacts.AfterWriteIs` | lib/Transforms/LLZKRedundantReadAndWriteEliminationPass.cpp:785-821 | What a write does to the state, place by place: may-alias places dropped, redundancy recorded, last write replaced. |
| `ReadWriteFacts.Overwritten` | lib/Transforms/LLZKRedundantReadAndWriteEliminationPass.cpp:729-735 | A write recorded as overwritten is read by nothing that survives before a later write to the same place. |
| `ReadWriteFacts.SameWritten` | lib/Transforms/LLZKRedundantReadAndWriteEliminationPass.cpp:801-806 | A write recorded as redundant stores what its cell already holds on every run. |
| `ReadWriteFacts.GoodStep` | lib/Transforms/LLZKRedundantReadAndWriteEliminationPass.cpp:600-856 | Every operation keeps everything justified: facts true on all runs, replacements equal and never themselves replaced, no write recorded as redundant twice. |
| `EliminationCorrect.RunsAgree` | lib/Transforms/LLZKRedundantReadAndWriteEliminationPass.cpp:419-440 | Original and rewritten block run side by side and agree on everything that survives, operation by operation. |
| `EliminationCorrect.EliminationPreserves` | lib/Transforms/LLZKRedundantReadAndWriteEliminationPass.cpp:393-441 | On every run all surviving values, the memory apart from erased arrays, globals, RAM and the emitted constraints are unchanged. |
| `ReadWriteElim.Eliminator.RunOperation` | lib/Transforms/LLZKRedundantReadAndWriteEliminationPass.cpp:600-856 | One operation performs exactly one transition and leaves the code alone. |
| `ReadWriteElim.Eliminator.ReplaceRedundant` | lib/Transforms/LLZKRedundantReadAndWriteEliminationPass.cpp:419-425 | Replacing one value after the other, in any order, is replacing all at once. |
| `ReadWriteElim.Eliminator.EraseRedundantWrites` | lib/Transforms/LLZKRedundantReadAndWriteEliminationPass.cpp:426-430 | Erases exactly the redundant writes, each one once. |
| `ReadWriteElim.Eliminator.EraseUnusedReads` | lib/Transforms/LLZKRedundantReadAndWriteEliminationPass.cpp:431-440 | From last to first, every unused read is erased, among them every replaced one, and nothing left uses what is gone. |
| `ReadWriteElim.Eliminator.RunOnFunc` | lib/Transforms/LLZKRedundantReadAndWriteEliminationPass.cpp:391-441 | The whole elimination on one block: every run is preserved, only reads, creations and member or array writes are erased, and what is left uses only what is left. |
| `EliminationThorough.RepeatedReadGone` | lib/Transforms/LLZKRedundantReadAndWriteEliminationPass.cpp:661-696 | A second read of a place that nothing in between can have written is erased. |
| `EliminationThorough.WriteBackGone` | lib/Transforms/LLZKRedundantReadAndWriteEliminationPass.cpp:698-738 | Writing back what was read from the place, with nothing in between that can have written to it, is erased. |
| `EliminationThorough.OneWriteGone` | lib/Transforms/LLZKRedundantReadAndWriteEliminationPass.cpp:698-738 | Of two writes to one place one is erased, unless in between the place is written again or its member is read at a computed offset. |
| `EliminationReads.ReadOfRead` | lib/Transforms/LLZKRedundantReadAndWriteEliminationPass.cpp:661-696 | A second read of a place that nothing in between can have written is erased, and its value replaced by that of the first. |
| `EliminationReads.ReadOfWritten` | lib/Transforms/LLZKRedundantReadAndWriteEliminationPass.cpp:661-738 | A read of a place that was written, with nothing in between that can have written it, is erased and its value replaced by the written one. |
| `EliminationReads.ReadOfElement` | lib/Transforms/LLZKRedundantReadAndWriteEliminationPass.cpp:661-696 | A read of a new array at a constant index is replaced by the value the array was made with there, unless that place may have been written in between. |
| `EliminationReads.GlobalReread` | lib/Transforms/LLZKRedundantReadAndWriteEliminationPass.cpp:740-743 | A read of a global behind a read or a write of it, with no unknown effect and no write of that global in between, is erased and its value replaced by what was read or written. |
| `EliminationReads.RamReread` | lib/Transforms/LLZKRedundantReadAndWriteEliminationPass.cpp:745-751 | So is a load behind a load or a store at the same address, with no unknown effect and no store in between. |
| `RegionFacts.OpSound` | lib/Transforms/LLZKRedundantReadAndWriteEliminationPass.cpp:740-752 | One straight-line operation keeps all global and RAM facts true; a read found redundant has the value it is replaced by. |
| `RegionFacts.IntersectTrue` | lib/Transforms/LLZKRedundantReadAndWriteEliminationPass.cpp:343-352 | What both sides map to the same value is true if either side is. |
| `RegionFacts.IfSound` | lib/Transforms/LLZKRedundantReadAndWriteEliminationPass.cpp:544-588 | Facts behind a branch are true whichever side ran, also when there is no else side. |
| `RegionFacts.ForSound` | lib/Transforms/LLZKRedundantReadAndWriteEliminationPass.cpp:544-588 | Facts behind a for loop are true for any number of iterations, zero included. |
| `RegionFacts.WhileSound` | lib/Transforms/LLZKRedundantReadAndWriteEliminationPass.cpp:544-588 | The same for a while loop with its condition and body regions. |
| `RegionFacts.FactsAlwaysTrue` | lib/Transforms/LLZKRedundantReadAndWriteEliminationPass.cpp:540-591 | Through arbitrarily nested branches and loops, every global and RAM fact is true each time its point is reached, and every read found redundant gives the value that replaces it. |
| `RegionFacts.RegionPass.RunOn` | lib/Transforms/LLZKRedundantReadAndWriteEliminationPass.cpp:544-588 | The traversal of an operation with regions computes exactly the analysis proved sound. |
| `RegionFacts.RegionPass.RunRegion` | lib/Transforms/LLZKRedundantReadAndWriteEliminationPass.cpp:540-591 | So does a region. |
| `RegionKept.BlockHeld` | lib/Transforms/LLZKRedundantReadAndWriteEliminationPass.cpp:343-588 | A global or RAM fact is still there, unchanged, behind any code that cannot write the cell and has no loop in it, branches included. |
| `RegionKept.ReadReplaced` | lib/Transforms/LLZKRedundantReadAndWriteEliminationPass.cpp:540-591 | A read that is reached from where its cell is known, inside branches too and past nothing that can write the cell, is replaced by the known value. |
| `RegionKept.RereadReplaced` | lib/Transforms/LLZKRedundantReadAndWriteEliminationPass.cpp:540-752 | A read of a global or of RAM that is reached from another read or from a write of the same cell is replaced by what was read or written there, wherever in nested branches and loops the two are. |
| `RegionKept.EveryReread` | lib/Transforms/LLZKRedundantReadAndWriteEliminationPass.cpp:540-752 | The same for a whole function body. |
| `RegionKept.LoopForgets` | lib/Transforms/LLZKRedundantReadAndWriteEliminationPass.cpp:546-588 | Behind a loop nothing is known of a cell that one of its regions does not write: the traversal of a region starts without facts, and only what is known both before the loop and at the end of its regions is kept. |
| `RegionKept.LoopKeeps` | lib/Transforms/LLZKRedundantReadAndWriteEliminationPass.cpp:546-588 | A for loop whose body ends by writing back what was known before keeps the fact. |
| `RegionKept.WhileKeeps` | lib/Transforms/LLZKRedundantReadAndWriteEliminationPass.cpp:546-588 | So does a while loop both of whose regions end so. |
| `RegionKept.ReadBehindLoopStays` | lib/Transforms/LLZKRedundantReadAndWriteEliminationPass.cpp:546-588 | A global read, an empty loop, and the same read again: the second read is not replaced. |
| `RegionWorklist.SomeReady` | lib/Transforms/LLZKRedundantReadAndWriteEliminationPass.cpp:485-498 | On an acyclic graph with all blocks reachable, some queued block always has all predecessors processed. |
| `RegionWorklist.IsReady` | lib/Transforms/LLZKRedundantReadAndWriteEliminationPass.cpp:485-488 | Ready exactly when all predecessors have end states. |
| `RegionWorklist.Enqueue` | lib/Transforms/LLZKRedundantReadAndWriteEliminationPass.cpp:462-466 | Queues exactly the successors that are neither processed nor queued. |
| `RegionWorklist.EveryBlock` | lib/Transforms/LLZKRedundantReadAndWriteEliminationPass.cpp:472-529 | An empty queue means that every block has been processed. |
| `RegionWorklist.RunOnRegion` | lib/Transforms/LLZKRedundantReadAndWriteEliminationPass.cpp:443-538 | Terminates; every block is run exactly once, behind all its predecessors, from the intersection of their end states; the deferral guard never fires; the result is the intersection over all terminal blocks, of which there is one. |
| `ModMath.Euclid` | lib/Analysis/IntervalAnalysis.cpp:1696-1702 | A prime that divides a product divides a factor; the zero-product rule rests on it. |
| `ModMath.Fermat` | lib/Util/DynamicAPIntHelper.cpp:172-179 | Fermat's little theorem, by the binomial theorem. |
| `DynamicInt.ShiftRightFloors` | lib/Util/DynamicAPIntHelper.cpp:79-91 | The right shift rounds toward negative infinity for both signs. |
| `DynamicInt.ShiftRoundTrip` | lib/Util/DynamicAPIntHelper.cpp:77-91 | Shifting left and back gives the original integer. |
| `DynamicInt.SignedValueBit` | lib/Util/DynamicAPIntHelper.cpp:34-40 | The bits collected, read as a signed integer, have exactly these two's complement bits, sign extended. |
| `DynamicInt.BinaryBitOp` | lib/Util/DynamicAPIntHelper.cpp:42-58 | Bit by bit, without end, the result is the operation applied to the bits the halving loop sees. |
| `DynamicInt.SeenExact` | lib/Util/DynamicAPIntHelper.cpp:45-53 | The loop sees the two's complement bits of an operand if and only if it is non-negative or minus a power of two. |
| `DynamicInt.And` | lib/Util/DynamicAPIntHelper.cpp:62-65 | Bitwise and of non-negative integers: right in every bit, non-negative, and bounded by each operand. |
| `DynamicInt.ToDynamicInt` | lib/Util/DynamicAPIntHelper.cpp:98-120 | The value of a fixed-width integer, signed or unsigned, at every width, the most negative one included. |
| `DynamicInt.ModExp` | lib/Util/DynamicAPIntHelper.cpp:155-170 | Square and multiply computes the power modulo the modulus, for every exponent. |
| `DynamicInt.ModInversePrime` | lib/Util/DynamicAPIntHelper.cpp:172-179 | For every prime and every argument it does not divide, the result times the argument is 1 modulo the prime. |
| `DynamicInt.InverseCheck` | lib/Util/DynamicAPIntHelper.cpp:172-179 | The check in the code holds if and only if the prime does not divide the argument. |
| `Intervals.ReduceIsMod` | lib/Util/Field.cpp:131-137 | Reduction gives the canonical remainder for negative integers too. |
| `Intervals.ToSignedNearest` | lib/Util/Field.cpp:141 | The signed representative is the one nearest to zero and reduces back. |
| `Intervals.ReduceSound` | lib/Analysis/Intervals.cpp:23-51 | Reducing a range contains every residue of it and is properly tagged. |
| `Intervals.ReduceExact` | lib/Analysis/Intervals.cpp:23-51 | Unless it answers Entire, it contains nothing else. |
| `Intervals.ReduceGivesUp` | lib/Analysis/Intervals.cpp:23-51 | It answers Entire if and only if the range holds every residue, or crosses both from one period into the next and from a lower into an upper half. |
| `Intervals.RepresentativeFits` | lib/Analysis/Intervals.cpp:245-255 | Every value of an interval has a representative in its first integer form. |
| `Intervals.JoinSound` | lib/Analysis/Intervals.cpp:257-313 | A join contains both operands if and only if it does not mix a point with a range around zero. |
| `Intervals.IntersectSound` | lib/Analysis/Intervals.cpp:315-386 | An intersection contains all common values if and only if no point of the upper half meets a range there. |
| `Intervals.JoinNarrow` | lib/Analysis/Intervals.cpp:257-313 | A join that does not answer Entire starts where one operand starts and ends where one ends. It answers Entire only for an Entire operand, for a range across half with one around zero, for operands that hold both sides of zero and of half, and for a point joined to what reaches the other end of the field. |
| `Intervals.IntersectNarrow` | lib/Analysis/Intervals.cpp:315-386 | An intersection holds nothing but common values, unless a range across half and one around zero meet in both halves. |
| `IntervalOps.ProductRange` | lib/Analysis/Intervals.cpp:109-119 | All products of two integer ranges lie between the products of their ends. |
| `IntervalOps.AddSound` | lib/Analysis/Intervals.cpp:456-465 | x + y lies in the sum of the intervals. |
| `IntervalOps.NegateSound` | lib/Analysis/Intervals.cpp:450 | -x lies in the negated interval. |
| `IntervalOps.SubSound` | lib/Analysis/Intervals.cpp:467 | x - y lies in the difference. |
| `IntervalOps.MulSound` | lib/Analysis/Intervals.cpp:469-486 | x * y lies in the product. |
| `IntervalOps.AddExact` | lib/Analysis/Intervals.cpp:456-465 | The sum of two non-empty intervals holds nothing but sums unless it is Entire, and it is Entire if and only if an operand is or the range of the sums is one that reduction gives up on. |
| `IntervalOps.AddEmpty` | lib/Analysis/Intervals.cpp:456-465 | An empty operand is taken for zero: the sum is the other operand. |
| `IntervalOps.NegateExact` | lib/Analysis/Intervals.cpp:450 | A negated interval holds nothing but negatives unless it is Entire; when it is Entire is exact too. |
| `IntervalOps.SubExact` | lib/Analysis/Intervals.cpp:467 | A difference holds nothing but differences unless it is Entire. |
| `IntervalOps.MulExact` | lib/Analysis/Intervals.cpp:469-486 | A product that is not Entire holds only residues of integers that lie between two products of values of the operands. It is Entire if and only if neither operand is the point 0 and an operand is Entire or the range of the products is one that reduction gives up on. |
| `IntervalOps.FeltDiv` | lib/Analysis/Intervals.cpp:488-501 | Fails exactly for a non-empty dividend and a divisor that is neither empty nor a nonzero point; otherwise every x times an inverse of y is contained, and inverses exist. |
| `IntervalOps.PartsExact` | lib/Analysis/Intervals.cpp:159-177 | The unsigned parts contain exactly the canonical values of the interval. |
| `IntervalOps.PieceCovers` | lib/Analysis/Intervals.cpp:221-229 | One pair of parts adds all its quotients and loses none found before. |
| `IntervalOps.JoinReached` | lib/Analysis/Intervals.cpp:503-527 | Joining two ranges of quotients gives one that starts and ends at quotients. |
| `IntervalOps.UnsignedIntDiv` | lib/Analysis/Intervals.cpp:503-527 | Fails if and only if both operands are non-empty and the divisor contains 0; otherwise contains every truncated quotient, across wrap-around parts. The result is no wider than it must be: both its ends are quotients of values of the operands, it is Entire only if 0 and the greatest value are, and it wraps around only if the dividend does. |
| `IntervalOps.ModuloSound` | lib/Analysis/Intervals.cpp:595-626 | Contains every remainder by a nonzero divisor. |
| `IntervalOps.ModuloByZero` | lib/Analysis/Intervals.cpp:619-623 | A divisor interval that contains 0 always gives Entire. |
| `IntervalOps.ModuloExact` | lib/Analysis/Intervals.cpp:595-626 | For a divisor interval without 0: two points give exactly the remainder, and otherwise exactly the values below some divisor are contained. |
| `IntervalOps.BitAnd` | lib/Analysis/Intervals.cpp:628-641 | Contains the bitwise and of every pair; for two points nothing else, and nothing above a point operand. |
| `ZeroProduct.StepMul` | lib/Analysis/IntervalAnalysis.cpp:1696-1702 | Replacing a product on the frontier by its factors changes neither when the tree is zero nor whether it has the required form. |
| `ZeroProduct.StepFactor` | lib/Analysis/IntervalAnalysis.cpp:1680-1694 | Taking a factor off the frontier adds exactly its root. |
| `ZeroProduct.NotFactors` | lib/Analysis/IntervalAnalysis.cpp:1660-1704 | The first value that is no factor of the one signal means the tree is no such product. |
| `ZeroProduct.GetGeneralizedDecompInterval` | lib/Analysis/IntervalAnalysis.cpp:1629-1712 | Succeeds if and only if exactly one side is the zero constant and the other is a product of (s - c), (c - s) and s over one scalar signal; then the equality holds exactly when s is one of the roots, all in the interval, whose ends are roots. |
| `DupElim.PurposelessSilent` | lib/Transforms/LLZKRedundantOperationEliminationPass.cpp:186-225 | A call judged purposeless accepts everything and leaves memory alone, over any recursion-free call graph. |
| `DupFound.PurposelessIff` | lib/Transforms/LLZKRedundantOperationEliminationPass.cpp:186-230 | A function is purposeless if and only if every function that a chain of calls from it reaches is a constrain function that computes no witness and whose own body neither constrains nor changes anything. |
| `DupElim.Find` | lib/Transforms/LLZKRedundantOperationEliminationPass.cpp:96-117 | The retained entry that matches, up to the order of two commutative operands, if there is one. |
| `DupSound.MatchedVals` | lib/Transforms/LLZKRedundantOperationEliminationPass.cpp:96-117 | Matching operations give the same results and the same verdict. |
| `DupSound.DuplicateHarmless` | lib/Transforms/LLZKRedundantOperationEliminationPass.cpp:265-272 | Leaving out a duplicate whose match dominates it changes neither memory nor verdict, and its results equal those of the match. |
| `DupSound.UnnecessaryHarmless` | lib/Transforms/LLZKRedundantOperationEliminationPass.cpp:238-251 | So does leaving out x == x and purposeless calls. |
| `DupSound.OpSound` | lib/Transforms/LLZKRedundantOperationEliminationPass.cpp:253-278 | One operation of the walk keeps the value numbering true: every mapped value equals its replacement, every retained result is what its translated operands give. |
| `DupSound.StmtGrows` | lib/Transforms/LLZKRedundantOperationEliminationPass.cpp:253-278 | Replacements are never themselves replaced, and only values just walked over gain one. |
| `DupSound.BlockSound` | lib/Transforms/LLZKRedundantOperationEliminationPass.cpp:253-278 | At every point of every run, each time it is reached, every operation found redundant is harmless, through nested branches and loops. |
| `DupFound.FnFound` | lib/Transforms/LLZKRedundantOperationEliminationPass.cpp:232-280 | What is found redundant, said without the walk: exactly the trivial equalities, the calls without purpose, and every candidate for which the first operation written in the function with the same name, types, attributes and operands (replaced values taken for their replacements, two commutative operands in either order) is in front of it in an enclosing block; the results of such a duplicate are replaced by those of that first one. |
| `DupFound.StraightFound` | lib/Transforms/LLZKRedundantOperationEliminationPass.cpp:253-278 | Without branches and loops a candidate is found as soon as anything alike is in front of it. |
| `DupFound.SameAlike` | lib/Transforms/LLZKRedundantOperationEliminationPass.cpp:96-117 | The same operation on the same operands, or on two commutative ones swapped, is alike whatever is replaced. |
| `DupFound.MissedBehindBranch` | lib/Transforms/LLZKRedundantOperationEliminationPass.cpp:253-278 | A product worked out in a branch and twice behind it: the third is not found although the second precedes it. |
| `DupSteps.ReplaceOne` | lib/Transforms/LLZKRedundantOperationEliminationPass.cpp:298-307 | Replacing one more value in rewritten code is rewriting with one more replacement. |
| `DupSteps.EraseOne` | lib/Transforms/LLZKRedundantOperationEliminationPass.cpp:309-310 | Erasing one more operation is rewriting with one more left out. |
| `DupSteps.BlockMapped` | lib/Transforms/LLZKRedundantOperationEliminationPass.cpp:296-307 | No operation is redundant twice, and the replaced values are exactly the results of redundant operations, so the lookup of a replacement never fails. |
| `DupRewrite.BlockSim` | lib/Transforms/LLZKRedundantOperationEliminationPass.cpp:296-331 | Original and rewritten code run side by side and agree on everything not lost. |
| `DupPass.Elimination.VisitOp` | lib/Transforms/LLZKRedundantOperationEliminationPass.cpp:238-278 | The walk on one operation updates the tables exactly as value numbering prescribes. |
| `DupPass.Elimination.VisitBlock` | lib/Transforms/LLZKRedundantOperationEliminationPass.cpp:253-278 | So does the walk over a block, dominance being what encloses or precedes. |
| `DupPass.Elimination.EnqueueDeadOpCandidate` | lib/Transforms/LLZKRedundantOperationEliminationPass.cpp:285-294 | Queues the producer of a value once, unless it is redundant. |
| `DupPass.Elimination.EraseOp` | lib/Transforms/LLZKRedundantOperationEliminationPass.cpp:309-313 | Takes the operation out and queues all producers that may have become dead. |
| `DupPass.Elimination.EraseRedundantOp` | lib/Transforms/LLZKRedundantOperationEliminationPass.cpp:296-314 | Replaces the used results of one redundant operation and erases it. |
| `DupPass.Elimination.EraseRedundantOps` | lib/Transforms/LLZKRedundantOperationEliminationPass.cpp:296-314 | Afterwards exactly the redundant operations are gone and nothing uses them. |
| `DupPass.Elimination.EraseDeadOps` | lib/Transforms/LLZKRedundantOperationEliminationPass.cpp:316-331 | Terminates; erases only unused operations without effects that produced values an erased operation read, and leaves no producer that the erasing made dead. |
| `DupPass.Elimination.RunOnFunc` | lib/Transforms/LLZKRedundantOperationEliminationPass.cpp:232-332 | The rewritten function accepts the same assignments, leaves the same memory and returns the same values on every run. Every trivial equality, every call without purpose and every duplicate in the sense of `DupFound.FnFound` is gone from it, and besides them only producers of what erased operations read. |
| `DupModule.SwapMeaning` | lib/Transforms/LLZKRedundantOperationEliminationPass.cpp:171-184 | Replacing one function by one with the same runs leaves the meaning of every function in the module. |
| `DupModule.PurposefulStep` | lib/Transforms/LLZKRedundantOperationEliminationPass.cpp:171-184 | One more function done, callees before callers: still none of the functions done calls one without purpose. |
| `DupModule.RunOnModule` | lib/Transforms/LLZKRedundantOperationEliminationPass.cpp:171-184 | Over a whole module every function keeps its constraints, memory and returned values; every function walked over has lost all that is redundant in it, and with callees before callers no call to a purposeless function is left in the module. |
| `TypeUnify.TypesSymmetric` | lib/Util/TypeHelper.cpp:718-747 | Without prefix and override, which type is on the left does not matter. |
| `TypeTracking.SymbolOnlyLhs` | lib/Util/TypeHelper.cpp:777-796 | Tracking a symbol records nothing for the right-hand side exactly when it is on the left and the other is no symbol. |
| `TypeTracking.OnlyLhsRefines` | lib/Util/TypeHelper.cpp:930-950 | Unifying without recording anything for the right-hand side is being, place by place, at least as concrete on the right. |
| `TypePlaces.TypePlaced` | lib/Util/TypeHelper.cpp:718-878 | What unifying two types records, said without unifying: for two types that unify a record is made if and only if at some place of both a symbol or type variable stands opposite that other part, or an affine map opposite that integer. |
| `TypeUnifier.EntryAgrees` | lib/Util/TypeHelper.cpp:750-759 | A key has an entry if and only if something was tracked for it, and a value if and only if everything tracked for it agreed. |
| `TypeUnifier.SymbolEntry` | lib/Util/TypeHelper.cpp:750-796 | When two types unify, a symbol of a side has an entry if and only if it stands opposite something in the two types, and value v if and only if everywhere it stands it stands opposite v. |
| `TypeUnifier.AffineEntry` | lib/Util/TypeHelper.cpp:798-805 | The same for affine maps and the integers they stand opposite. |
| `TypeUnifier.KeySides` | lib/Util/TypeHelper.cpp:945-949 | The maps have a right-hand key if and only if some record was for the right-hand side. |
| `TypeUnifier.Unifier.TrackParam` | lib/Util/TypeHelper.cpp:777-796 | A symbol opposite a symbol is tracked in both directions, a type variable as its symbol. |
| `TypeUnifier.Unifier.TrackAffine` | lib/Util/TypeHelper.cpp:798-805 | An affine map opposite an integer is tracked. |
| `TypeUnifier.Unifier.UnifyTypes` | lib/Util/TypeHelper.cpp:718-747 | Decides unification, and records exactly the places up to the first that does not unify, in order; what those records are in the two types is `TypePlaces.TypePlaced`. |
| `TypeUnifier.Unifier.UnifyStructs` | lib/Util/TypeHelper.cpp:673-698 | Structs unify when the names agree, up to the prefix, and the parameter lists unify. |
| `TypeUnifier.Unifier.UnifyArrays` | lib/Util/TypeHelper.cpp:662-671 | Arrays unify when element types and then dimensions do. |
| `TypeUnifier.Unifier.UnifyFunctions` | lib/Util/TypeHelper.cpp:713-716 | Function types unify when inputs and then results do. |
| `TypeUnifier.Unifier.UnifyLists` | lib/Util/TypeHelper.cpp:626-633 | Lists unify when they have one length and unify position by position. |
| `TypeUnifier.Unifier.UnifyRecords` | lib/Util/TypeHelper.cpp:700-711 | Pods unify when their records have the same names in the same order and unifying types. |
| `TypeUnifier.Unifier.UnifyParams` | lib/Util/TypeHelper.cpp:635-646 | Parameter lists unify position by position. |
| `TypeUnifier.Unifier.UnifyParam` | lib/Util/TypeHelper.cpp:807-878 | Decides unification of two parameters, dynamic sizes counting only in array dimensions. |
| `TypeUnifier.UnifyWithMap` | lib/Util/TypeHelper.cpp:924-928 | When the types unify, the map has an entry for a symbol on a side if and only if it stands opposite something there, and value v if and only if that is v everywhere, type variables taken for their symbols; when they do not, it holds what was tracked up to the first failure. |
| `TypeSubstitution.SubstGives` | lib/Util/TypeHelper.cpp:718-878 | Values that honour every record for the left side, put in for its symbols, variables and affine maps, give the right type when that is ground, up to wildcard dimensions; exactly it unless a wildcard dimension is met. |
| `TypeSubstitution.Forced` | lib/Util/TypeHelper.cpp:718-878 | Conversely, values that give the right type honour every record for the left side. |
| `TypeSubstitution.UnificationSubstitutes` | lib/Util/TypeHelper.cpp:718-928 | The values unification leaves give the ground right type if and only if every left-hand entry has one and no wildcard dimension is met; if they do not, no values do. |
| `TypeUnifier.IsMoreConcreteUnification` | lib/Util/TypeHelper.cpp:930-950 | True if and only if the new type is, place by place, at least as concrete as the old one. |
| `TypeInstances.InstanceRefines` | lib/Util/TypeHelper.cpp:930-950 | Every ground instance, chosen differently at each occurrence if need be, is more concrete than the type. |
| `TypeInstances.RefinesUnify` | lib/Util/TypeHelper.cpp:718-747 | What is more concrete unifies. |
| `TypeInstances.BothWays` | lib/Util/TypeHelper.cpp:930-950 | Two types are each at least as concrete as the other if and only if they are the same but for type variables, which stand for any other, and wildcard dimensions, which stand for any size or affine map. |
| `TypeInstances.UnifyIffCommonInstance` | lib/Util/TypeHelper.cpp:718-878 | Two types unify if and only if some type is an instance of both and no two different affine maps meet. |
| `TypeInstances.FlattenedUnifies` | lib/Dialect/Polymorphic/Transforms/FlatteningPass.cpp:997-1007 | An instantiation that flattens nested arrays unifies with the original if and only if no array has grown. |
| `TypeInstances.GrowingInstance` | lib/Dialect/Polymorphic/Transforms/FlatteningPass.cpp:997-1007 | The smallest instantiation that does not unify: an array of a type variable, given an array. |
| `Reachability.StackReaches` | lib/Analysis/CallGraphAnalyses.cpp:78-82 | Every function on the search path reaches those above it, which is what the cache records. |
| `Reachability.NeverFound` | lib/Analysis/CallGraphAnalyses.cpp:69-88 | A search that ends without finding the target has visited everything reachable: there is no path. |
| `Reachability.Analysis.CachePath` | lib/Analysis/CallGraphAnalyses.cpp:78-82 | Caching along the path keeps every cached pair a real path, and caches that the node reaches itself. |
| `Reachability.Analysis.Visit` | lib/Analysis/CallGraphAnalyses.cpp:71-87 | Answers yes only for a real path; a no means that neither the node nor what it is cached to reach is the target. |
| `Reachability.Analysis.IsReachable` | lib/Analysis/CallGraphAnalyses.cpp:51-89 | After any queries before, true if and only if there is a path; terminates on cyclic graphs; the cache stays true. |
| `UnusedStructs.LeastSafe` | lib/Transforms/LLZKUnusedDeclarationEliminationPass.cpp:218-251 | What is removed is not main, and no collected reference from a struct that stays leads to it. |
| `UnusedStructs.RemovedIffNotAnchored` | lib/Transforms/LLZKUnusedDeclarationEliminationPass.cpp:218-251 | A struct is removed if and only if no chain of users leads to it from a main component or from a cycle. |
| `StructReferences.WalkedIff` | lib/Transforms/LLZKUnusedDeclarationEliminationPass.cpp:208-213 | Walking an attribute names a struct if and only if some type attribute in it, at whatever depth, is of that struct itself, not of an array, pod or function that has it inside. |
| `StructReferences.FoundIff` | lib/Transforms/LLZKUnusedDeclarationEliminationPass.cpp:189-213 | What is found in an operation is what its operands, results and block arguments are of, and what its attributes name; nothing inside the type of a value. |
| `DanglingReferences.DanglesIff` | lib/Transforms/LLZKUnusedDeclarationEliminationPass.cpp:158-251 | Removal leaves no reference dangling if and only if every reference that is not collected, in a struct that a chain of users anchors or outside all structs, is to a struct that is anchored too. |
| `DanglingReferences.FreeFunctionDangles` | lib/Transforms/LLZKUnusedDeclarationEliminationPass.cpp:168-172 | A struct that only a free function takes as an argument is removed, and the function stays. |
| `DanglingReferences.ArrayMemberDangles` | lib/Transforms/LLZKUnusedDeclarationEliminationPass.cpp:174-184 | A struct that only occurs as the element type of an array member of the main component is removed, and the member stays. |
| `UnusedStructs.Elimination.TryAddUse` | lib/Transforms/LLZKUnusedDeclarationEliminationPass.cpp:174-184 | One type: its struct, if it is one, is entered in both maps unless it is the struct the operation is in. |
| `UnusedStructs.Elimination.WalkAttr` | lib/Transforms/LLZKUnusedDeclarationEliminationPass.cpp:208-213 | Walking one attribute enters exactly the structs the walk names. |
| `UnusedStructs.Elimination.CollectUses` | lib/Transforms/LLZKUnusedDeclarationEliminationPass.cpp:158-216 | Both maps hold exactly the references between different structs that are found in the operations inside structs. |
| `UnusedStructs.Elimination.UpdateUnusedStructs` | lib/Transforms/LLZKUnusedDeclarationEliminationPass.cpp:218-226 | Queues every struct that has no users and is not main; none queued means none left. |
| `UnusedStructs.Elimination.Remove` | lib/Transforms/LLZKUnusedDeclarationEliminationPass.cpp:234-243 | Takes a struct out of both maps, keeping them exact and inverse. |
| `UnusedStructs.Elimination.RemoveUnusedStructs` | lib/Transforms/LLZKUnusedDeclarationEliminationPass.cpp:158-251 | Removes exactly the one least set closed under "not main and all users removed", each struct once, in whatever order; the two maps stay inverse. |
| `UnusedMembers.SameReads` | lib/Transforms/LLZKUnusedDeclarationEliminationPass.cpp:121-139 | Without the writes to members that are never read, every read gives what it gave, and kept members end with what they held. |
| `UnusedMembers.RemoveUnusedMembers` | lib/Transforms/LLZKUnusedDeclarationEliminationPass.cpp:83-152 | Removes exactly the members never read, other than public outputs of a main component, and exactly the writes to them. |
| `Json.DigitsOfRender` | tools/llzk-witgen/JSON.cpp:195-201 | A rendered number reads back. |
| `Json.FeltRoundTrip` | tools/llzk-witgen/JSON.cpp:130-140 | A canonical field element rendered as a decimal string parses to itself. |
| `Json.FeltStands` | tools/llzk-witgen/JSON.cpp:130-140 | Exactly integers and optionally signed strings of decimal digits are accepted; the result is below p and congruent modulo p to the number written, negative ones and those of p or more included, its decimal value given place by place. |
| `JsonArray.FlattenIffShaped` | tools/llzk-witgen/JSON.cpp:142-193 | Parsing succeeds if and only if the nesting is exactly the shape with a field element at every end. |
| `JsonArray.FlattenAt` | tools/llzk-witgen/JSON.cpp:142-193 | The element at a multi-dimensional index is at its row-major position. |
| `JsonArray.CanonicalAt` | tools/llzk-witgen/JSON.cpp:142-259 | The element of the canonical array at a multi-dimensional index is the rendered canonical representative of the number the parsed array has there. |
| `JsonArray.FlattenBelow` | tools/llzk-witgen/JSON.cpp:130-140 | Everything parsed is reduced. |
| `JsonArray.NestOfFlatten` | tools/llzk-witgen/JSON.cpp:142-259 | Parsing then serialising gives the canonical nested array. |
| `JsonArray.FlattenOfNest` | tools/llzk-witgen/JSON.cpp:142-259 | Serialising then parsing gives back the elements. |
| `WitgenJson.ParseArray` | tools/llzk-witgen/JSON.cpp:142-193 | The recursive parser with its loops computes exactly the flat form, or the first error; every element is below p and congruent to the number the JSON has at its index. |
| `WitgenJson.SubArraySize` | tools/llzk-witgen/JSON.cpp:232-243 | The product of the remaining dimensions, or an error if and only if multiplying them one by one leaves the size type. |
| `WitgenJson.FittingNeverTooBig` | tools/llzk-witgen/JSON.cpp:232-243 | In an array that fits and has no empty dimension no product of consecutive dimensions overflows. |
| `WitgenJson.RefusedTooBig` | tools/llzk-witgen/JSON.cpp:232-243 | A refusal means that some product of consecutive dimensions overflows, so arrays that fit without empty dimensions are never refused. |
| `WitgenJson.EmptyRefused` | tools/llzk-witgen/JSON.cpp:232-243 | An array without elements can be refused, with dimensions that fit a signed 64-bit integer. |
| `WitgenJson.SerializeArray` | tools/llzk-witgen/JSON.cpp:203-259 | The nested form of the elements from the offset, refused if and only if the serialiser comes to a sub-array whose size runs over; flat offsets never overflow. |
| `WitgenBuffer.CreateBufferPack` | tools/llzk-witgen/ExecutionEngineBackend.cpp:144-174 | Fails if and only if the element count or the byte count overflows the size type. |
| `WitgenBuffer.FittingRows` | tools/llzk-witgen/ExecutionEngineBackend.cpp:281-286 | An array that fits and has no empty dimension is never refused when it is emitted. |
| `WitgenBuffer.OtherSlot` | tools/llzk-witgen/ExecutionEngineBackend.cpp:176-191 | Writing inside one slot leaves every other slot as it was. |
| `WitgenBuffer.BufferPack.StoreElement` | tools/llzk-witgen/ExecutionEngineBackend.cpp:176-191 | The value is in its slot and every other element is unchanged. |
| `WitgenBuffer.BufferPack.LoadElement` | tools/llzk-witgen/ExecutionEngineBackend.cpp:193-207 | Reads back the element of the slot. |
| `WitgenBuffer.BufferPack.FillInputBuffer` | tools/llzk-witgen/ExecutionEngineBackend.cpp:209-240 | Succeeds exactly for the right count; then the buffer holds the elements in order, otherwise it is untouched. |
| `WitgenBuffer.BufferPack.BufferToJsonArray` | tools/llzk-witgen/ExecutionEngineBackend.cpp:254-302 | The nested array of what the buffer holds, as the serialiser makes it; refused if and only if it comes to a sub-array whose size does not fit. |
| `WitgenBuffer.ThroughBuffer` | tools/llzk-witgen/ExecutionEngineBackend.cpp:209-302 | A nested array parsed, stored and emitted from the buffer is its canonical form: at every index the rendered representative below p of the number that was there; it gets through if and only if it has the shape and the sizes fit. |
| `JsonDiff.Differ.DiffJson` | tools/llzk-witgen/JSON.cpp:473-502 | Reports, below the path, each clash of the two values once with what is wrong there, and nothing else: a path at which they differ in kind, in length or in a leaf, or that only one of them has. None is reported if and only if the values are the same up to the order of object fields. |
| `JsonDiff.Differ.DiffArrays` | tools/llzk-witgen/JSON.cpp:97-112 | The same for arrays: a length mismatch does not keep the shared positions from being reported. |
| `JsonDiff.Differ.DiffFields` | tools/llzk-witgen/JSON.cpp:83-89 | The same for the keys of the expected object: missing ones, and clashes below shared ones. |
| `JsonDiff.Differ.UnexpectedKeys` | tools/llzk-witgen/JSON.cpp:90-94 | Completes it by the keys only the actual object has. |

## Left out

Degree lowering:

- PolyLoweringPass.Pass.LowerCall: with felt division in the body, an operand found erased is tied only to some argument that is an over-degree product, and nothing is said about arguments staying linear, because the pass leaves such divisions over the bound. Without it, the condition for an erased operand is necessary and another one sufficient; what lies between depends on memoised degrees, which may be too high after an edit.
- PolyLoweringRun.RunOnStruct: likewise, the condition under which a call argument may end nonlinear is necessary, not sufficient.
- PolyLoweringPass.Pass.constructor: a body with a degree of 2^32 or more, which the code accepts and takes for a wrapped one, is excluded; how wrong the degree then is says `DegreeOverflow`.
- LoweringMeaning.StartHolds: the same.
- PolyLoweringPass.Pass.LowerExpression: claims no degree bound for bodies with felt divisions, because the pass leaves a division over the bound as it is.
- Non-felt operands of calls and rows, `struct.readm` table offsets and map operands, and calls as felt values; rebuilding calls and index values on the compute side.
- PolyLoweringPass.Pass.LowerRows: the consumers it walks stand for the operations that own the operands (the row, or the array operations its elements come from), in block order; that the operands of one looked-up array are the ones its history names is `RowOperands.LowerContainmentRhs`.
- Identities are never reused. The pass keys its tables by the addresses of values, which may come up again after an erasure.
- The rejection of bodies with control flow; a straight-line body is a precondition.

Lookup-row histories:

- ContainmentMap.CollectMap: static shapes and indices only; the code refuses the others. Two `struct.readm` of the same member, which the code treats as one array, are one array identity here.

Read/write elimination:

- ReadWriteElim.Eliminator.RunOnFunc: distinct struct values are assumed not to alias, arrays are one-dimensional, created in the block and indexed by constants; dynamic indices, sub-array extraction and insertion, structs in structs and calls are not modelled.
- RegionFacts.FactsAlwaysTrue: global and RAM facts only; struct and array facts across branches and loops are not modelled. Regions have one block; the walk over several blocks is `RegionWorklist`, for an arbitrary transfer function and meet.
- What unknown operations do to memory depends only on their operands and the old content of each cell.

Field and intervals:

- IntervalOps.FeltDiv: primes are odd and at least 3, fields given as integers; the table of known fields and the attribute parsing are left out.
- Interval difference, signed division and remainder, complement, comparison narrowing, `|`, `^` and shifts of intervals, Boolean operations: easy cases or claims that do not hold as coded.
- DynamicInt.ToDynamicInt: conversions through decimal strings are left out.
- ZeroProduct.GetGeneralizedDecompInterval: which references denote one scalar signal is a parameter; SSA sharing is unfolded into trees, which changes neither meaning nor outcome.

Duplicate elimination:

- DupPass.Elimination.RunOnFunc: regions are branches and for loops.
- DupPass.Elimination.EraseDeadOps: a dead loop or branch that produced an erased operation's operand is kept, where the code could erase it with its regions.
- DupModule.RunOnModule: no recursion; calls to other than constrain functions count as operations with effects. Hashing of operations is not modelled, only equality. Array and aggregate values are integers.

Types:

- TypeUnifier.Unifier.UnifyTypes: both tracking maps are always kept (the code allows none); a missing parameter list is an empty one, which the code treats alike.
- TypeInstances.UnifyIffCommonInstance: that types are valid (array dimensions are sizes, symbols or affine maps, elements are no arrays) is given, not checked.

Other components:

- Reachability.Analysis.IsReachable: external and unresolved callees are one node without callees.
- UnusedStructs.Elimination.RemoveUnusedStructs: operations are given in walk order with the types and attributes on them; symbol lookup and the removal of empty modules are left out.
- UnusedMembers.RemoveUnusedMembers: accesses are resolved and in one sequence; a failing symbol lookup is left out.
- Json.FeltRoundTrip: JSON text, doubles, Boolean, index, struct and pod values are left out. A string that is no decimal number is an error here; the code asserts.
- WitgenBuffer.BufferPack.StoreElement: a little-endian host; the memref descriptor is left out.
- JsonDiff.Differ.DiffJson: objects are field lists with distinct keys, and mismatch messages are shortened.
- SMT solving, product-loop fusion, JIT execution, file access, the C interface, MLIR plumbing and diagnostics.
