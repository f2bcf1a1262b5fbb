# Verification of the Plank compiler's evaluator, lowering and kernels

A Dafny model of the stages of the Plank compiler that transform programs, and of the storage and arithmetic below
them, with proofs of what they promise.  `dafny verify dfyconfig.toml` checks everything.

## What is modelled

**The compile-time evaluator** (`hir-eval`) turns HIR, a block language with mutable variables, into residual MIR. It
keeps each local as a known value, as a MIR local, or as poison.  Known values are folded.  Run-time loops are
evaluated once and comptime loops are run.  Results of arms are joined in one MIR local.

- `Values`, `World`, `Mir`, `Hir`: values, operations, and the meaning of both languages. Every run has an effect
  trace and a memory, and the surroundings answer each effect from the whole history before it.
- `Specialiser` is the evaluator as a function of its state. `Scope` is the same evaluator as a class whose methods
  update its fields in place; each is proved equal to the function.
- `Scoping`, `StaticProof`, `ExprProof`, `SimulationProof`, `Specialisation`, `Tidy`: when the residual code means what
  the source means, in both directions.
- `HirTyping`, `Acceptance`: a typing judgement on the text and on the types of locals, and what it is enough for: a
  well-typed block is accepted exactly if its comptime loops fit the quota.
- `Losses`: the two places where it does not (below), with exact conditions and concrete programs.
- `Quota`: the branch quota and its replay for cached calls. `QuotaTrace` ties it to what an evaluation does.
- `Evm`: the folding arithmetic against the meaning of the machine's operations, over `Bits` and `Powers`.

**The lowering of MIR to basic blocks** (`mir-lower-sona`) drives a builder that has a current block.

- `Graph` is a machine that runs basic blocks over variables and temporaries, one instruction at a time. `Lowering` is
  the lowering as a function and `FunctionLowering` the pass over the mutable builder, proved equal to it.
- `MemoryOps`, `PieceProof`, `SetProof`, `GraphProof`: the graph does what the structured code does, ends when it ends
  and runs forever when it does. `Discipline`: every finished block has exactly one terminator, at its end.
- `TypedMir`, `TypedResidual`: what the evaluator accepts never makes the lowering panic.
- `Pipeline` puts both stages together: an accepted entry point that lost nothing and its graph cannot be told apart from
  the outside. `Compiler` runs the two passes, in place, one after the other.

**Kernels**: `ChunkedArena`, `Bigint` (literals), `ListOfLists`, `Interner`, `DenseIndexSet`, and `Consts` (memoised
constants with cycle detection).

## What the proofs found

The code is modelled as it is. Where it does not keep a promise, the exact condition is proved and a concrete input is
given.

1. *Else-if chains.* `with_conditional(false, ..)` around a known inner condition (`scope.rs:543-547`) makes the inner
   arm rebind the target of an enclosing run-time join, so the value of the first arm is lost; if the inner arm is
   itself run-time, the target is left in a MIR local the first arm never sets. The frontend generates such chains
   (`plankc/frontend/hir/src/lowerer/mod.rs:651-674`). `Losses.ChainPreservedIff` is about chains of that shape,
   `Losses.BranchPreservedIff` about any run-time branch; `Losses.ChainCounterexample` and `Losses.UnsetCounterexample`
   are programs.
2. *Loop conditions that halt.* When the condition block of a run-time loop ends control flow, the instructions it
   emitted are dropped with it (`scope.rs:584-590`), so `while` on a halting operation compiles to nothing. See
   `Losses.LoopPreservedIff` and `Losses.LoopCounterexample`.
3. *Cyclic constants.* The call that evaluates a constant hands back the value of its body even when the constant was
   recorded as poisoned because it was asked for meanwhile; every later call sees poison. See
   `Consts.FirstCallAgreesIff`, `Consts.CycleDecides` for the same over the reference graph, and
   `Consts.CycleCounterexample`.
4. `limbs_to_u256` is documented to refuse lists of more than eight limbs; the code refuses them only if a limb past
   the eighth is not zero. The model follows the code. See `Bigint.DocumentedRefusalIff` and `Bigint.NineLimbs`.
5. A cached call can be refused although running it again would succeed, because the replay checks the limit before
   the raises of the call count. See `Quotas.ReplayAgreesIff` and `Quotas.RefusedReplayCanStillRun`.

## Conditions on programs

Programs are well scoped (`Scoping.WfBlock`): locals are read where they are visible and introduced once, and comptime
code assigns only what it declares. `Specialisation.SpecialisationPreservesMeaning` and `Pipeline.CompiledMeansSource`
hold for every accepted evaluation in which no join was torn and no loop condition was dropped. `Tidy.TidyBlock` is a
condition on the text that is enough for that. It follows which locals are certainly known and which certainly
run-time, and asks two things outside comptime blocks: below a condition not certainly known, what an arm gives may
hang on further conditions only if those are certainly run-time; and on no course does a loop condition end control
flow. Whether an evaluation is accepted follows from the text as well for well-typed programs (`HirTyping.Check`), up
to the quota.

## Model

| member | source | states |
|---|---|---|
| Pipeline.CompiledMeansSource | plankc/frontend/hir-eval/src/scope.rs:106-121 | for every well-scoped entry point the evaluator accepts without tearing a join or dropping a loop condition, every environment and every outcome: the source ends with the outcome exactly if the compiled graph does, and the outcome is then a halt by an operation of the program, never the trap behind the body |
| Pipeline.TidyMeansSource | plankc/frontend/hir-eval/src/scope.rs:106-121 | the same with the condition on the program text in place of what the evaluation did |
| Pipeline.TidyCompiles | plankc/frontend/hir-eval/src/scope.rs:500-627 | an accepted entry point that meets the condition on the text loses nothing |
| Compiler.CompileEntryPoint | plankc/frontend/hir-eval/src/evaluator.rs:201-229 | the evaluator run in place and then the lowering run in place: there is a graph exactly if the entry point is accepted, which for one that is well typed and halts is exactly if its comptime loops fit the quota; its blocks have one terminator each, and if nothing was lost it ends with every outcome, in every environment, exactly as the source does |
| Pipeline.AcceptedLowers | plankc/frontend/mir-lower-sona/src/function.rs:120-142 | what the evaluator accepts is lowered without a panic, to blocks that each have exactly one terminator, at the end |
| Pipeline.SourceRun | plankc/frontend/hir-eval/src/scope.rs:106-121 | a finished run of the source is matched by a run of the residual code of the same fuel |
| Pipeline.ResidualRun | plankc/frontend/hir-eval/src/scope.rs:106-121 | a finished run of the residual code is matched by a source run, with as much more fuel as branches were taken at compile time |
| Pipeline.WellTypedEntry | plankc/frontend/hir-eval/src/scope.rs:106-121 | a well-scoped, well-typed entry point that halts on every course is accepted if and only if its comptime loops fit the default quota, and always if the evaluator runs no loop |
| Pipeline.SumIsWellTyped | plankc/frontend/hir-eval/src/builtins.rs:43-90 | `let mut x = 1; let y = 2; let z = add(x, y); stop()` meets the judgement, so its sum of a run-time and a known operand has to be accepted |
| Acceptance.WellTypedAcceptedIff | plankc/frontend/hir-eval/src/scope.rs:387-392 | of the blocks that a judgement on the text and on the types of locals calls well typed, evaluated in any state the judgement describes and in any mode, exactly those are accepted (no diagnostic, and control flow goes on or ends at a halting operation) whose quota events never take more branches than were allowed so far; the bindings afterwards are as the judgement says |
| Acceptance.WellTypedLoopless | plankc/frontend/hir-eval/src/scope.rs:387-392 | where the evaluator runs no loop, every well-typed block is accepted |
| Acceptance.BlockJudged | plankc/frontend/hir-eval/src/scope.rs:387-392 | well-typed blocks leave off only in the ways the judgement allows, without a diagnostic, with every local known, known to have a type, or at run time as it says |
| Acceptance.SimpleJudged | plankc/frontend/hir-eval/src/scope.rs:249-491 | the same for immutable and mutable locals, results of arms in each mode, assignments and expression statements |
| Acceptance.AnnotationJudged | plankc/frontend/hir-eval/src/scope.rs:249-281 | an annotation that names the type of the value is accepted and changes nothing |
| Acceptance.RuntimeIfJudged | plankc/frontend/hir-eval/src/scope.rs:500-541 | two well-typed arms that give the same locals at the same types are joined without a diagnostic, in a branch that ends only if both arms do |
| Acceptance.ComptimeWhileJudged | plankc/frontend/hir-eval/src/scope.rs:629-657 | a comptime loop whose round keeps what was said before it is run to its end without a diagnostic while the quota allows its branches |
| Acceptance.ExprJudged | plankc/frontend/hir-eval/src/scope.rs:688-728 | a well-typed expression is evaluated without a diagnostic, to the known value, to some known value of the type, or to a run-time value of the type |
| Acceptance.FoldableJudged | plankc/frontend/hir-eval/src/builtins.rs:43-90 | operands of a signature are enough: all known, the operation folds to a value of the result type; some at run time and outside comptime, it is emitted as a run-time value of that type |
| Acceptance.FoldTotal | plankc/frontend/hir-eval/src/builtins.rs:966-1021 | folding known operands of a signature never panics and gives a value of the result type |
| Acceptance.LiteralJudged | plankc/frontend/hir-eval/src/structs.rs:335-426 | a literal that gives each field of its definition once and at its type is accepted, known if all its fields are and otherwise at run time |
| Acceptance.ComptimeNeedsKnown | plankc/frontend/hir-eval/src/scope.rs:212-224 | the other way round in comptime mode: an instruction whose expression is a run-time value is diagnosed, or goes on from poison |
| World.BinarySignatures | plankc/frontend/values/src/builtins.rs:65-94 | searching the signatures of a binary operation finds exactly its result on two words, pointers or booleans, for every operation and every pair of them |
| Values.ComptimeOnlyIff | plankc/frontend/values/src/type_interner.rs:310-317 | a type exists at compile time only if and only if the type of types is reached from it by some path of fields |
| Specialisation.SpecialisationPreservesMeaning | plankc/frontend/hir-eval/src/scope.rs:249-627 | in both directions, for every pair of related stores: if the evaluation went through and no join or loop condition was lost, source and residual code end together in the same world, both halted or both completed in related stores, and neither goes wrong |
| Tidy.AcceptedIsPreserved | plankc/frontend/hir-eval/src/scope.rs:249-627 | the same with the condition on the program text and the verdict of the compiler: no known condition below a possibly run-time one decides what an arm gives, loop conditions go on, and no diagnostic was emitted; in comptime mode nothing is asked of the text |
| Tidy.TidyLosesNothing | plankc/frontend/hir-eval/src/scope.rs:500-627 | with that condition on the text, from bindings of which the text says the truth, no accepted evaluation tears a join or drops the code of a loop condition |
| Tidy.SoundAfter | plankc/frontend/hir-eval/src/scope.rs:249-378 | what the text says to be known is bound to a value and what it says to be run-time is in a MIR local, after every instruction |
| Tidy.BlockLeaves | plankc/frontend/hir-eval/src/scope.rs:453-491 | evaluating a block leaves the binding of every local it neither introduces nor assigns as it was, on every path and with every exit |
| Tidy.ArmRebinds | plankc/frontend/hir-eval/src/scope.rs:319-378 | an arm that gives a result directly, or through branches on run-time conditions at any depth, leaves the join target bound to the MIR local an earlier arm made |
| Tidy.BlockGoesOn | plankc/frontend/hir-eval/src/scope.rs:576-627 | a block goes on when it is evaluated if on no course an instruction ends it; a branch on a run-time condition does so only if both arms do |
| Losses.LoopPreservedIff | plankc/frontend/hir-eval/src/scope.rs:576-627 | a run-time loop is preserved if and only if the evaluation of its condition block falls through; otherwise its code is dropped and the residual code runs straight on while the source never does |
| Losses.LoopCounterexample | plankc/frontend/hir-eval/src/scope.rs:576-627 | the loop whose condition is `stop` compiles to nothing |
| Losses.BranchPreservedIff | plankc/frontend/hir-eval/src/scope.rs:500-541 | any accepted run-time branch, with any arms that lose nothing themselves, is preserved on given stores if and only if its first arm is not taken, or never completes, or every join still says what the first arm gave when the second has been evaluated |
| Losses.ChainPreservedIff | plankc/frontend/hir-eval/src/scope.rs:500-561 | `if c0 {..} else if test {..} else {..}` as the front end writes it (`plankc/frontend/hir/src/lowerer/mod.rs:651-674`), with any statements in the arms and before the test: preserved if and only if the evaluator did not know the test, or the arm it chose does not go on to its end, or the first arm is not taken or never completes, or what it gives is the known value (or the content of the new MIR local) the chosen arm left for the result |
| Losses.ChainCounterexample | plankc/frontend/hir-eval/src/scope.rs:543-547 | a concrete chain, with the local the front end sets for the test, whose result is that of an arm that is not taken |
| Losses.UnsetCounterexample | plankc/frontend/hir-eval/src/scope.rs:543-547 | a concrete chain whose chosen arm is run-time: after the first arm the result is in a MIR local that was never set |
| Losses.LiveChainIsTidy | plankc/frontend/hir-eval/src/scope.rs:319-378 | chains whose test is computed from run-time values meet the condition on the text |
| Specialisation.BlockFresh | plankc/frontend/hir-eval/src/scope.rs:453-491 | on every path, a local is only ever bound anew to a MIR local made during the evaluation, and in comptime mode to none |
| Specialisation.ComptimeIsPure | plankc/frontend/hir-eval/src/scope.rs:123-133 | in comptime mode no instruction is emitted, no block ends, and no binding becomes a MIR local, on every path |
| Specialisation.ConstResultIsKnown | plankc/frontend/hir-eval/src/evaluator.rs:157-162 | the result of a constant body is never bound to a MIR local, so that panic is unreachable |
| Specialisation.ComptimeRunEnds | plankc/frontend/hir-eval/src/scope.rs:629-657 | what the evaluator runs itself ends, after at most 2^32-1 counted branches over all nested loops, in the store the bindings describe and without touching the world |
| StaticProof.BlockStatic | plankc/frontend/hir-eval/src/scope.rs:387-392 | an accepted evaluation keeps every binding that was visible before (but for what comptime code assigns), poisons nothing, and never binds two HIR locals to one MIR local |
| SimulationProof.BlockSim | plankc/frontend/hir-eval/src/scope.rs:387-392 | the simulation for blocks, forwards and backwards, at every fuel |
| SimulationProof.RuntimeIfSim | plankc/frontend/hir-eval/src/scope.rs:500-561 | a run-time branch: whichever arm is taken, the join ends related |
| SimulationProof.KnownIfSim | plankc/frontend/hir-eval/src/scope.rs:543-547 | a branch on a known condition: the chosen arm inlined means the `if` |
| SimulationProof.RuntimeWhileSim | plankc/frontend/hir-eval/src/scope.rs:576-627 | a loop specialised once means the loop, for every number of iterations |
| SimulationProof.ComptimeWhileSim | plankc/frontend/hir-eval/src/scope.rs:629-657 | a loop run by the evaluator means the loop, its fuel bounded by the branches counted |
| SimulationProof.SetSim | plankc/frontend/hir-eval/src/scope.rs:249-281 | immutable locals: what is bound, stored or kept known is the value of the expression |
| SimulationProof.SetMutSim | plankc/frontend/hir-eval/src/scope.rs:283-317 | mutable locals are stored in a MIR local from the start, and hold the value of the expression |
| SimulationProof.BranchSetSim | plankc/frontend/hir-eval/src/scope.rs:319-378 | results of arms, first and second, in each mode |
| SimulationProof.AssignSim | plankc/frontend/hir-eval/src/scope.rs:419-451 | assignments reach the one MIR local of their target |
| ExprProof.ExprSim | plankc/frontend/hir-eval/src/scope.rs:688-728 | emitted code followed by the residual expression has the value, world and halting of the expression |
| ExprProof.BuiltinSim | plankc/frontend/hir-eval/src/builtins.rs:43-116 | operations, folded or emitted, on any mix of known and run-time operands |
| ExprProof.FoldSim | plankc/frontend/hir-eval/src/builtins.rs:966-1021 | folding gives what the machine would have computed, as a value of the result type |
| ExprProof.EqualSim | plankc/frontend/hir-eval/src/operators.rs:247-339 | `==` and `!=` on words, pointers, booleans, types and void, refused on structs: folded, as `eq`, as `iszero` of `eq`, or as `xor` of booleans |
| ExprProof.NotSim | plankc/frontend/hir-eval/src/operators.rs:341-367 | logical negation, folded or as `iszero` |
| ExprProof.StructLitSim | plankc/frontend/hir-eval/src/structs.rs:335-426 | a literal in any field order and any mix of known and run-time values denotes the struct with its fields in definition order; the folded and the run-time path agree |
| ExprProof.LitFieldsSim | plankc/frontend/hir-eval/src/structs.rs:177-333 | field by field, wherever the first run-time field occurs: the k-th buffered value or local holds the value given for the k-th field of the definition |
| ExprProof.MemberSim | plankc/frontend/hir-eval/src/structs.rs:77-134 | member access by name, on known and run-time structs |
| ExprProof.MaterialiseAllSim | plankc/frontend/hir-eval/src/builtins.rs:954-964 | known operands are put in fresh locals, in order, and no older local changes |
| TypedResidual.BlockTypedOk | plankc/frontend/hir-eval/src/scope.rs:387-392 | the residual code of an accepted evaluation is well typed over a table of types that only grew |
| TypedResidual.LiteralTyped | plankc/frontend/hir-eval/src/structs.rs:335-426 | an accepted literal, known or residual, has exactly the fields and types of its definition |
| TypedMir.TypedBlockLowers | plankc/frontend/mir-lower-sona/src/function.rs:144-300 | lowering well-typed code of the model never panics |
| Scopes.Scope.EvalInstr | plankc/frontend/hir-eval/src/scope.rs:453-491 | updates bindings, types, quota, diagnostics and the instruction stack in place exactly as the specification of the evaluator says, for every instruction of the model |
| Scopes.Scope.EvalBlockInline | plankc/frontend/hir-eval/src/scope.rs:387-392 | runs a block in order and stops at the first exit that is not a fall-through |
| Scopes.Scope.EvalEntryPointBody | plankc/frontend/hir-eval/src/scope.rs:106-121 | evaluates the body into a block of its own, and reports a body that can be left at its end |
| Scopes.Scope.EvalBlockToMir | plankc/frontend/hir-eval/src/scope.rs:380-385 | takes exactly the instructions of the block off the shared stack |
| Scopes.Scope.DrainFrom | plankc/frontend/hir-eval/src/scope.rs:165-173 | splits the instruction stack at a height |
| Scopes.Scope.EvalRuntimeIf | plankc/frontend/hir-eval/src/scope.rs:500-541 | both arms evaluated one after the other in conditional mode, one `if` emitted, exits combined |
| Scopes.Scope.EvalIf | plankc/frontend/hir-eval/src/scope.rs:500-561 | dispatch on what the condition is bound to |
| Scopes.Scope.EvalRuntimeWhile | plankc/frontend/hir-eval/src/scope.rs:576-627 | a run-time loop is evaluated once and emitted with its condition block |
| Scopes.Scope.EvalComptimeWhile | plankc/frontend/hir-eval/src/scope.rs:629-657 | the loop over the state equals the recursive specification, one counted branch per iteration |
| Scopes.Scope.EvalSet | plankc/frontend/hir-eval/src/scope.rs:249-281 | immutable locals, with their annotation |
| Scopes.Scope.EvalSetMut | plankc/frontend/hir-eval/src/scope.rs:283-317 | mutable locals, with their annotation |
| Scopes.Scope.EvalBranchSet | plankc/frontend/hir-eval/src/scope.rs:319-378 | results of arms in each mode |
| Scopes.Scope.Rejoin | plankc/frontend/hir-eval/src/scope.rs:334-378 | the second arm: unify the types, then assign the same MIR local |
| Scopes.Scope.EvalAssign | plankc/frontend/hir-eval/src/scope.rs:419-451 | assignment in each mode |
| Scopes.Scope.EvalEffect | plankc/frontend/hir-eval/src/scope.rs:461-478 | an expression statement is kept if it exists at run time |
| Scopes.Scope.EvalExpr | plankc/frontend/hir-eval/src/scope.rs:688-728 | dispatch over the expressions of the model |
| Scopes.Scope.EvalRuntimeFoldable | plankc/frontend/hir-eval/src/builtins.rs:43-90 | fold when all operands are known, otherwise emit |
| Scopes.Scope.EvalRuntimeOnly | plankc/frontend/hir-eval/src/builtins.rs:92-116 | operations that exist at run time only |
| Scopes.Scope.EmitRuntimeBuiltin | plankc/frontend/hir-eval/src/builtins.rs:144-176 | operands materialised left to right; a call that never returns is kept and ends the block |
| Scopes.Scope.MaterialiseArgs | plankc/frontend/hir-eval/src/builtins.rs:149-165 | the loop over the operands |
| Scopes.Scope.EvalEquality | plankc/frontend/hir-eval/src/operators.rs:247-339 | equality and inequality at each type of the model |
| Scopes.Scope.EvalLogicalNot | plankc/frontend/hir-eval/src/operators.rs:341-367 | logical negation |
| Scopes.Scope.EvalMember | plankc/frontend/hir-eval/src/structs.rs:77-134 | member access on structs |
| Scopes.Scope.EvalStructLit | plankc/frontend/hir-eval/src/structs.rs:335-426 | literals: checks, then two-phase building |
| Scopes.Scope.CheckLit | plankc/frontend/hir-eval/src/structs.rs:155-410 | the loops over duplicate, unknown, ill-typed and missing fields decide exactly whether the literal covers its definition with values of the right types |
| Scopes.Scope.BuildFields | plankc/frontend/hir-eval/src/structs.rs:177-333 | the loop over the definition with its two buffers |
| Scopes.Scope.SetEvalBranchQuota | plankc/frontend/hir-eval/src/builtins.rs:266-297 | raises the limit and the largest limit seen |
| QuotaTrace.QuotaFollowsEvents | plankc/frontend/hir-eval/src/scope.rs:629-657 | the quota an evaluation leaves and the largest limit it saw are those of its events, one spend for each round of a loop it runs and one raise for each executed call, and it runs out exactly where these events, one after the other, do |
| QuotaTrace.SummaryIsOfEvents | plankc/frontend/hir-eval/src/evaluator.rs:201-229 | what a call is cached with is what its events count: the branches spent and the largest limit asked for, so that `Quotas.ReplayAgreesIff` is about evaluations |
| QuotaTrace.SimpleFollows | plankc/frontend/hir-eval/src/builtins.rs:266-297 | an executed call raises limit and largest limit seen to its known argument; no other instruction touches the quota |
| Quotas.ReplayRefinesReExecution | plankc/frontend/hir-eval/src/quota.rs:39-51 | for every sequence of spend and raise events: whenever a cached call is replayed, running its events one by one would not have run out and would have left exactly the same limit and count |
| Quotas.ReplayedFailsIff | plankc/frontend/hir-eval/src/quota.rs:18-29 | running spend and raise events one by one fails if and only if some prefix of them takes more branches than the largest limit asked for up to there |
| Quotas.ReplayAgreesIff | plankc/frontend/hir-eval/src/quota.rs:39-51 | replaying a cached call and running it again leave the same quota or both fail, if and only if all its branches fit the limit as it stands or running it again would fail |
| Quotas.OnlySpendingAgrees | plankc/frontend/hir-eval/src/quota.rs:39-51 | for calls that raise no limit they always agree |
| Quotas.RefusedReplayCanStillRun | plankc/frontend/hir-eval/src/quota.rs:39-51 | a refused replay that re-running would have survived, because the call raises the limit first |
| Quotas.ComptimeQuota.RaiseLimit | plankc/frontend/hir-eval/src/quota.rs:18-20 | the limit never falls |
| Quotas.ComptimeQuota.SpendBranch | plankc/frontend/hir-eval/src/quota.rs:22-29 | counts one branch unless the limit is reached |
| Quotas.ComptimeQuota.ReplayCachedCall | plankc/frontend/hir-eval/src/quota.rs:39-51 | spends and raises in one step or changes nothing |
| Evm.FoldMeansOp | plankc/crates/plank-evm/src/lib.rs:10-137 | every folding function computes on all words what Appendix H.2 of the Ethereum Yellow Paper (EIP-145 for shifts) means by its operation |
| Evm.BitwiseLaws | plankc/crates/plank-evm/src/lib.rs:96-106 | the folded `and`, `or` and `xor` of any two words, bit by bit |
| Bits.BitXorAt | plankc/crates/plank-evm/src/lib.rs:104 | bit i of an exclusive or is set exactly if bit i of one operand is, and of the other is not |
| Bits.XorTwice | plankc/crates/plank-evm/src/lib.rs:104 | exclusive or undoes itself |
| Evm.PowLaws | plankc/crates/plank-evm/src/lib.rs:56 | the power folded by `exp` obeys the laws of powers, for every base and all exponents |
| Evm.SdivSmodIdentity | plankc/crates/plank-evm/src/lib.rs:26-40 | sdiv(a,b)*b + smod(a,b) = a modulo 2^256 for every b other than 0, the minimum over -1 included |
| Evm.SarIsFloor | plankc/crates/plank-evm/src/lib.rs:128-137 | sar is floor division by 2^shift for every 256-bit shift and either sign |
| Evm.SignExtendLaws | plankc/crates/plank-evm/src/lib.rs:60-70 | signextend keeps the signed value of the low bytes and is idempotent |
| Evm.SdivMeans | plankc/crates/plank-evm/src/lib.rs:26-30 | signed division through magnitudes rounds towards zero |
| Evm.SmodMeans | plankc/crates/plank-evm/src/lib.rs:36-40 | signed remainder has the sign of the dividend |
| Evm.TernaryMeans | plankc/crates/plank-evm/src/lib.rs:42-54 | addmod and mulmod never wrap at 512 bits before they are reduced, and the result is the exact remainder |
| GraphProof.LoweringPreservesMeaning | plankc/frontend/mir-lower-sona/src/function.rs:120-300 | for every well-formed call of every function: the graph ends with an outcome (return value, halt or trap, after the same effects) exactly if the structured body does, so one runs forever exactly if the other does |
| GraphProof.BlockSim | plankc/frontend/mir-lower-sona/src/function.rs:144-165 | from the block that was current at entry, the graph follows every run of a block to its exit store at the block current afterwards, to the same halt or return; a run out of fuel keeps it busy for at least as many steps |
| GraphProof.IfSim | plankc/frontend/mir-lower-sona/src/function.rs:235-272 | branches, with arms that end early in any combination |
| GraphProof.LoopSim | plankc/frontend/mir-lower-sona/src/function.rs:274-300 | loops from their head, for every number of iterations |
| GraphProof.ConditionRuns | plankc/frontend/mir-lower-sona/src/function.rs:327-336 | a condition of either shape branches to the block of its truth value |
| GraphProof.EntrySim | plankc/frontend/mir-lower-sona/src/function.rs:120-135 | arguments that exist at run time reach their variables, zero-sized ones are skipped |
| SetProof.SetRuns | plankc/frontend/mir-lower-sona/src/function.rs:167-233 | the straight-line code of an assignment has its effect, its value and its halting |
| SetProof.OpGives | plankc/frontend/mir-lower-sona/src/function.rs:405-590 | one operation on operands in temporaries |
| SetProof.CallGives | plankc/frontend/mir-lower-sona/src/function.rs:189-210 | calls pass exactly the run-time arguments and deliver the result |
| SetProof.LoadGives | plankc/frontend/mir-lower-sona/src/function.rs:544-553 | a synthesised N-byte load leaves the big-endian number of the N bytes |
| SetProof.StoreGives | plankc/frontend/mir-lower-sona/src/function.rs:554-586 | a synthesised N-byte store has the effect of writing the low N bytes |
| PieceProof.LocalsGive | plankc/frontend/mir-lower-sona/src/function.rs:338-362 | an aggregate built from locals holds each run-time field at its index |
| PieceProof.ConstantGives | plankc/frontend/mir-lower-sona/src/function.rs:374-391 | a materialised constant is the constant, type erased, at any nesting |
| PieceProof.FieldGives | plankc/frontend/mir-lower-sona/src/function.rs:364-373 | field access reads the field, or nothing if it is zero-sized |
| PieceProof.ShapeAgrees | plankc/frontend/mir-lower-sona/src/module.rs:101-158 | a value leaves something at run time exactly if its type has a shape |
| MemoryOps.LoadIsRead | plankc/frontend/mir-lower-sona/src/function.rs:544-553 | for every width 1 to 32, memory and address: load and shift give the number in the N bytes |
| MemoryOps.StoreIsWrite | plankc/frontend/mir-lower-sona/src/function.rs:554-586 | for every width, memory, address and value: the sequence writes the low N bytes big-endian and nothing else |
| MemoryOps.StoreExactly | plankc/frontend/mir-lower-sona/src/function.rs:554-586 | byte by byte, the memory after a store |
| MemoryOps.StoreThenLoad | plankc/frontend/mir-lower-sona/src/function.rs:543-586 | loading what was stored gives the value modulo 2^(8N) |
| Discipline.BlockDiscipline | plankc/frontend/mir-lower-sona/src/function.rs:144-165 | a loose exit leaves exactly one open block, the current one; a terminated exit none |
| Discipline.IfDiscipline | plankc/frontend/mir-lower-sona/src/function.rs:235-272 | the same at every return of `lower_if` |
| Discipline.WhileDiscipline | plankc/frontend/mir-lower-sona/src/function.rs:274-300 | the same at every return of `lower_while` |
| Discipline.FunctionDiscipline | plankc/frontend/mir-lower-sona/src/function.rs:120-142 | every block of a finished function has exactly one terminator, at its end |
| FunctionLowering.FunctionLowerer.Lower | plankc/frontend/mir-lower-sona/src/function.rs:120-142 | the whole pass over the mutable builder gives the specified graph, or panics exactly where the specification does |
| FunctionLowering.FunctionLowerer.LowerBlock | plankc/frontend/mir-lower-sona/src/function.rs:144-165 | the loop over instructions |
| FunctionLowering.FunctionLowerer.LowerIf | plankc/frontend/mir-lower-sona/src/function.rs:235-272 | blocks in the order they are appended, ends of arms remembered, one merge block or none |
| FunctionLowering.FunctionLowerer.LowerWhile | plankc/frontend/mir-lower-sona/src/function.rs:274-300 | head, body and continuation |
| FunctionLowering.FunctionLowerer.LowerSet | plankc/frontend/mir-lower-sona/src/function.rs:167-233 | assignments |
| FunctionLowering.FunctionLowerer.LowerBuiltin | plankc/frontend/mir-lower-sona/src/function.rs:405-619 | operations |
| FunctionLowering.FunctionLowerer.LowerStore | plankc/frontend/mir-lower-sona/src/function.rs:554-586 | the synthesised store, instruction by instruction |
| FunctionLowering.FunctionLowerer.LowerLoad | plankc/frontend/mir-lower-sona/src/function.rs:544-553 | the synthesised load |
| FunctionLowering.FunctionLowerer.LowerCall | plankc/frontend/mir-lower-sona/src/function.rs:189-210 | calls, and the trap after a callee that never returns |
| FunctionLowering.FunctionLowerer.CallArgs | plankc/frontend/mir-lower-sona/src/function.rs:190-193 | the arguments that exist at run time, in order |
| FunctionLowering.FunctionLowerer.ArgValues | plankc/frontend/mir-lower-sona/src/function.rs:646-658 | the operands, in order; a panic exactly if one is missing |
| FunctionLowering.FunctionLowerer.BuildFromLocals | plankc/frontend/mir-lower-sona/src/function.rs:338-362 | the loop that inserts the run-time fields |
| FunctionLowering.FunctionLowerer.BuildFromValues | plankc/frontend/mir-lower-sona/src/function.rs:338-391 | the same for constants |
| FunctionLowering.FunctionLowerer.ReadCondition | plankc/frontend/mir-lower-sona/src/function.rs:327-336 | comparison with zero unless the local is a boolean |
| Arenas.OffsetInverse | plankc/crates/plank-core/src/chunked_arena.rs:10-31 | `offset_to_chunk` undoes start offset plus relative offset |
| Arenas.RunSafe | plankc/crates/plank-core/src/chunked_arena.rs:87-156 | over every run from a fresh arena: non-empty allocations are aligned, inside their chunk, found again through `get`, and share no byte with one another, neither as offsets nor inside chunks |
| Arenas.RunLaid | plankc/crates/plank-core/src/chunked_arena.rs:87-119 | over every run: allocations follow one another, stay resolvable to the end, and the end offset grows by at most three times what was asked for plus less than one alignment for each request |
| Arenas.NoPanicWhileSmall | plankc/crates/plank-core/src/chunked_arena.rs:94-100 | the arena cannot run out of chunks while three times what was asked for, with less than one alignment added for each request, fits 2^31 |
| Arenas.AllocPlace | plankc/crates/plank-core/src/chunked_arena.rs:87-119 | a request is rounded up to the alignment and no further, and goes directly behind the last one if that fits the chunk, otherwise to the start of the first later chunk that holds it; there is a panic only if no chunk from the current one on does |
| Arenas.FirstFit | plankc/crates/plank-core/src/chunked_arena.rs:90-104 | the first chunk from the current one on with room is used |
| Arenas.RoundedLeast | plankc/crates/plank-core/src/chunked_arena.rs:88 | the rounded size is the least multiple of the alignment that holds the request |
| Arenas.OutOfChunks | plankc/crates/plank-core/src/chunked_arena.rs:94-100 | when it does run out, end offset plus three times the request is past 2^31 |
| Arenas.FootprintStep | plankc/crates/plank-core/src/chunked_arena.rs:87-119 | skipping chunks for one request wastes less than twice the request |
| Arenas.AllocFacts | plankc/crates/plank-core/src/chunked_arena.rs:87-119 | one request keeps the invariant, allocates a chunk only where there was none, and keeps every allocation before it |
| Arenas.ChunkedArena.AllocAppend | plankc/crates/plank-core/src/chunked_arena.rs:87-119 | the loop over the cells gives the specified allocation, or panics exactly when the specification has none |
| Arenas.ChunkedArena.AllocateChunk | plankc/crates/plank-core/src/chunked_arena.rs:121-140 | is only called for a chunk that was not allocated yet |
| Arenas.ChunkedArena.Get | plankc/crates/plank-core/src/chunked_arena.rs:148-156 | resolves an offset through the chunk table |
| Bigint.FromRadix10In | plankc/crates/plank-core/src/bigint.rs:85-102 | appends the canonical limbs of the value of the numeral, for any number of digits and underscores, and leaves every earlier list as it was; panics exactly when the storage is full |
| Bigint.MulAddOverLimbs | plankc/crates/plank-core/src/bigint.rs:104-114 | limbs' + carry * 2^(32n) = limbs * mul + add, in place, for all 32-bit factors and summands, the carry never overflowing |
| Bigint.LimbStep | plankc/crates/plank-core/src/bigint.rs:107-112 | the carry of one limb fits 32 bits |
| Bigint.FromRadix16In | plankc/crates/plank-core/src/bigint.rs:22-47 | the same result for hexadecimal numerals |
| Bigint.FromRadix2In | plankc/crates/plank-core/src/bigint.rs:54-78 | the same result for binary numerals |
| Bigint.FromDigitBits | plankc/crates/plank-core/src/bigint.rs:22-78 | the loop over digits from the least significant one |
| Bigint.PrintThenParse | plankc/crates/plank-core/src/bigint.rs:22-102 | printing any number in radix 2, 10 or 16, in either case, and parsing what was printed appends exactly the limbs of that number |
| Bigint.PrintedMeans | plankc/crates/plank-core/src/bigint.rs:22-102 | a number printed in any radix up to 16 is a numeral that means the number |
| Bigint.DigitOf | plankc/crates/plank-core/src/bigint.rs:31 | the character at position k of either alphabet is the digit k |
| Bigint.CanonicalUnique | plankc/crates/plank-core/src/bigint.rs:17-102 | a number has one canonical limb list |
| Bigint.RadixAgreement | plankc/crates/plank-core/src/bigint.rs:17-102 | numerals give the same list exactly if they have the same value, whatever their radix and spelling |
| Bigint.LimbsToU256 | plankc/crates/plank-core/src/bigint.rs:121-137 | none exactly when the value is at least 2^256, otherwise the value, for any limb list |
| Bigint.DocumentedRefusalIff | plankc/crates/plank-core/src/bigint.rs:118-137 | the documented rule, that more than eight limbs are refused and no others, is true of a list if and only if it has at most eight limbs or one past the eighth is not zero |
| Bigint.NineLimbs | plankc/crates/plank-core/src/bigint.rs:118-137 | nine limbs of which only the first is not zero give its value |
| Bigint.StripKeepsMeaning | plankc/crates/plank-core/src/bigint.rs:11-15 | leading zeros and underscores mean nothing |
| ListsOfLists.ListAdded | plankc/crates/plank-core/src/list_of_lists.rs:57-66 | a list pushed behind the others moves none of them |
| ListsOfLists.ListRemoved | plankc/crates/plank-core/src/list_of_lists.rs:113-116 | popping undoes the push |
| ListsOfLists.ListOfLists.PushSlice | plankc/crates/plank-core/src/list_of_lists.rs:143-147 | appends one list, and panics exactly when 2^32-1 values are exceeded |
| ListsOfLists.ListOfLists.Finish | plankc/crates/plank-core/src/list_of_lists.rs:57-66 | closes the list being pushed |
| ListsOfLists.ListOfLists.Get | plankc/crates/plank-core/src/list_of_lists.rs:96-100 | a list by index, the last one ending where the values end |
| ListsOfLists.ListOfLists.Pop | plankc/crates/plank-core/src/list_of_lists.rs:113-116 | takes the last list off |
| ListsOfLists.ListOfLists.Clear | plankc/crates/plank-core/src/list_of_lists.rs:108-111 | leaves nothing |
| Interner.StableBijection | plankc/crates/plank-core/src/intern.rs:28-43 | over every run two calls get the same id exactly if they were given the same bytes |
| Interner.IdsResolve | plankc/crates/plank-core/src/intern.rs:51-57 | every id a run hands out resolves to the bytes it was given for, at its end and so ever after |
| Interner.BytesInterner.Intern | plankc/crates/plank-core/src/intern.rs:28-43 | for any hash function: the id of the contents, and one new list only if they are new |
| Interner.BytesInterner.Find | plankc/crates/plank-core/src/intern.rs:29-33 | looking in one bucket finds the contents if they are anywhere |
| Interner.BytesInterner.Resolve | plankc/crates/plank-core/src/intern.rs:51-57 | an id gives its bytes |
| DenseIndexSets.DenseIndexSet.Add | plankc/crates/plank-core/src/dense_index_set.rs:70-88 | adds one element and says whether it was new |
| DenseIndexSets.DenseIndexSet.Remove | plankc/crates/plank-core/src/dense_index_set.rs:109-125 | removes one element and says whether it was there |
| DenseIndexSets.DenseIndexSet.UnionWith | plankc/crates/plank-core/src/dense_index_set.rs:93-104 | the union, and whether it changed anything |
| DenseIndexSets.DenseIndexSet.Contains | plankc/crates/plank-core/src/dense_index_set.rs:58-65 | membership |
| DenseIndexSets.DenseIndexSet.Clear | plankc/crates/plank-core/src/dense_index_set.rs:38-40 | the empty set |
| DenseIndexSets.DenseIndexSet.Len | plankc/crates/plank-core/src/dense_index_set.rs:43-45 | the cardinality |
| DenseIndexSets.DenseIndexSet.IsEmpty | plankc/crates/plank-core/src/dense_index_set.rs:48-50 | emptiness |
| DenseIndexSets.DenseIndexSetIter.Next | plankc/crates/plank-core/src/dense_index_set.rs:137-148 | the least element not given yet, which is then gone, and no other |
| DenseIndexSets.Collect | plankc/crates/plank-core/src/dense_index_set.rs:137-148 | iterating gives exactly the elements, once each, in strictly ascending order |
| DenseIndexSets.ClearLowest | plankc/crates/plank-core/src/dense_index_set.rs:141 | w & (w-1) takes away the lowest bit and no other |
| DenseIndexSets.LengthIsCardinality | plankc/crates/plank-core/src/dense_index_set.rs:43-45 | the sum of the bit counts is the size of the set |
| DenseIndexSets.UnionElements | plankc/crates/plank-core/src/dense_index_set.rs:93-104 | word-wise `or` is union |
| DenseIndexSets.SameElements | plankc/crates/plank-core/src/dense_index_set.rs:98-102 | vectors of one length stand for one set only if they are equal, which is what `changed` compares |
| Consts.CallsMeanPlain | plankc/frontend/hir-eval/src/evaluator.rs:120-181 | over every run of calls, a constant whose plain recursive evaluation ends gives exactly that answer at the first and every later call |
| Consts.MemoMeansPlain | plankc/frontend/hir-eval/src/evaluator.rs:120-181 | the same for one use in the middle of any evaluation, whatever the table holds |
| Consts.PoisonedIffAsked | plankc/frontend/hir-eval/src/evaluator.rs:127-131 | a constant that is being evaluated is poisoned if and only if it is among the constants asked for, at any depth, meanwhile |
| Consts.ValueRecordedIff | plankc/frontend/hir-eval/src/evaluator.rs:157-178 | a first evaluation records a value if and only if the constant is not asked for in it and it gives a value, and records that the quota ran out if and only if its body ended so |
| Consts.FirstCallAgreesIff | plankc/frontend/hir-eval/src/evaluator.rs:157-181 | the evaluating call and every later one agree if and only if the constant is not asked for while it is evaluated or the first call sees no value either |
| Consts.AskedIffOnCycle | plankc/frontend/hir-eval/src/evaluator.rs:120-155 | a constant asked for while it is evaluated lies on a cycle of references through unevaluated constants; where what bodies ask for does not depend on the answers, every constant on such a cycle is asked for |
| Consts.CycleDecides | plankc/frontend/hir-eval/src/evaluator.rs:120-181 | off the cycles of the reference graph the first call agrees with every later one; on them, for such bodies, exactly if it has no value |
| Consts.CycleHasNoValue | plankc/frontend/hir-eval/src/evaluator.rs:127-181 | for bodies that ask the same whatever the answers are and give a value only if every answer was one: the first evaluation of a constant on a cycle of unevaluated constants gives no value, and neither it nor any other constant on the cycle is recorded with one |
| Consts.CycleIsPoison | plankc/frontend/hir-eval/src/evaluator.rs:127-181 | no call of a constant on a cycle, first or later, sees a value |
| Consts.CycleNotFollowed | plankc/frontend/hir-eval/src/evaluator.rs:120-155 | a concrete constant on a cycle that is not asked for, as the reference is never followed |
| Consts.CycleCounterexample | plankc/frontend/hir-eval/src/evaluator.rs:157-181 | a constant that hands a value to its first user and poison to all others |
| Consts.EntryWhileRunning | plankc/frontend/hir-eval/src/evaluator.rs:169-178 | the states that the final match calls impossible are |
| Consts.Evaluator.EvaluateConst | plankc/frontend/hir-eval/src/evaluator.rs:120-181 | in place on the table: ends, begins each body at most once, and gives the specified answer |
| Consts.Evaluator.EvalBody | plankc/frontend/hir-eval/src/evaluator.rs:136-155 | the body with its questions to other constants |

## Left out

- Function calls, returns, parameters and the cache of evaluated functions on the HIR side; the only early exit of HIR
  is a halting operation. MIR has calls and returns, a call being an effect that the surroundings answer with a value.
- `SetField`, `Uninit`, byte strings, hashing, tuples, type-level builtins and the standard-library operators: special
  cases over the same state, or library calls.
- Texts and places of diagnostics; only that one was emitted is kept. A lookup of a local that was never bound is
  the panic the code has there, checked before the expression is evaluated.
- The frontend that makes HIR, the Sonatina back end behind the builder, and the module-level driver. `Extract` and
  `Insert` on aggregates, and reading and defining a variable, are instructions of the model's machine.
- Scopes.Scope.EvalInstr: `Return` and `Param` are not modelled, as there are no calls on the HIR side.
- Scopes.Scope.EvalExpr: references to constants, definitions of functions and types, tuples, calls and the operators
  of the standard library are not among the model's expressions; `Consts` models references to constants on their own.
- Scopes.Scope.EvalEquality: byte strings and function values are not among the model's values.
- Scopes.Scope.EvalMember: the length of byte strings is not modelled.
- ExprProof.EqualSim: says nothing about byte strings and function values, which are not among the model's values.
- ExprProof.MemberSim: says nothing about the length of byte strings.
- PieceProof.ShapeAgrees: says nothing about tuples, which are erased as structs are but are not among the model's types.
- SetProof.SetRuns: says nothing about `DataOffset`, as byte strings are not modelled.
- TypedMir.TypedBlockLowers: says nothing about `DataOffset`, for the same reason.
- FunctionLowering.FunctionLowerer.LowerSet: does not lower `DataOffset`, for the same reason.
- FunctionLowering.FunctionLowerer.LowerBuiltin: allocation and section-offset builtins are single opaque effects; the
  copy by which zeroed memory is obtained is not spelled out.
- Tidy.TidyLosesNothing: its condition on the text is sufficient and not necessary: the result of a `&&` or `||` and a
  struct member are not counted as certainly run-time, and a test that is known is refused even where the chosen arm
  would do no harm. The theorems that do without it are `Specialisation.SpecialisationPreservesMeaning` and
  `Pipeline.CompiledMeansSource`.
- Tidy.AcceptedIsPreserved: the same condition, with the same reach.
- Acceptance.WellTypedAcceptedIff: the judgement is sufficient and not necessary: a new quota must be a known number that
  the text shows, arms of a branch on a condition not known from the text must both be well typed, mutable locals are
  not followed to their values, and results of arms and assignments must have exactly the type of their target.
- Consts.CycleHasNoValue: for bodies that ask the same questions whatever the answers are; a body that gives a value
  although an answer was poison may have one on a cycle (`Consts.CycleCounterexample`).
- Losses.ChainPreservedIff: the arms and the test may be anything that loses nothing itself; a loss nested in an arm is
  that arm's own and the theorem is applied there.
- Consts.AskedIffOnCycle: the way back from a cycle to being asked for is for bodies whose questions do not depend on the
  answers; where they do, a reference may never be followed (`Consts.CycleNotFollowed`), and
  `Consts.FirstCallAgreesIff` decides.
- Specialiser.EvalIf: the field `lossy` of the state is bookkeeping of the model, set where a join is torn or code of a
  loop condition is dropped; the code has no such flag and nothing it does depends on it.
- Specialiser.EvalExpr: memory pointers occur as run-time values only; folding an operation to a pointer is the panic
  it is in the code.
- Lowering.OpPiece: that the builder takes no value of another type for a variable is its own rule, modelled at
  N-byte loads, the only place where it could differ from the type of the target.
- Graph.Exec: growth of memory, gas and the `msize` operation are not modelled; allocation builtins are effects.
- Blocks of MIR are nested trees, not ids into a table of blocks; identical blocks are not shared.
- Arenas.RunSafe: says nothing about empty requests, whose pointer dangles; the operating-system allocator, `Drop`
  and raw pointers are identities of chunks and distances into them.
- DenseIndexSets.DenseIndexSetIter.Next: indices are naturals; elements are added as 32-bit indices, so the 32-bit
  product of word and width does not wrap for any of them.
- Interner.BytesInterner.Intern: the hash table is one bucket per hash, without probing and growth.
- Consts.CallsMeanPlain: a body is a function from the answers so far to its next question, with a bound on their
  number; the quota that gives that bound is modelled with the evaluator. Naming of types is left out.
- Bigint.FromRadix10In: characters that are no digits, on which the parsers panic, are excluded by the precondition.
