/** The two stages together: from the HIR of an entry point to its graph of basic blocks. */
module Pipeline {
  import opened Values
  import opened World
  import opened Mir
  import opened Hir
  import opened Quotas
  import opened Specialiser
  import opened Scoping
  import opened Graph
  import opened Lowering
  import opened GraphProof
  import ExprProof
  import SimulationProof
  import StaticProof
  import Specialisation
  import Tidy
  import TypedMir
  import TypedResidual
  import Discipline
  import HirTyping
  import Acceptance
  import QuotaTrace
  import Evm

  /** Where the evaluation of an entry point starts. */
  const FRESH: State := State(false, false, DEFAULT, DEFAULT_COMPTIME_BRANCH_QUOTA, map[], [], false, false)

  /** The residual code of an entry point, lowered. */
  function Compiled(b: seq<HInstr>): Lowered {
    LowerFunction(EvalBlock(FRESH, b).st.types, 0, EvalBlock(FRESH, b).code)
  }

  /** An entry point is rejected when its body can be left at the end. */
  predicate EntryAccepted(r: Step) {
    !r.st.diagnosed && r.exit == BlockEnd
  }

  /** Accepted, with no join torn and no loop condition dropped. */
  predicate Compiles(b: seq<HInstr>) {
    WfBlock({}, false, b) && EntryAccepted(EvalBlock(FRESH, b)) && !EvalBlock(FRESH, b).st.lossy
  }

  /** The condition on the text alone is enough for that. */
  lemma {:induction false} TidyCompiles(b: seq<HInstr>)
    requires WfBlock({}, false, b) && Tidy.TidyBlock(Tidy.NO_FACTS, b) && EntryAccepted(EvalBlock(FRESH, b))
    ensures Compiles(b)
  {
    FreshRelated();
    hide EvalBlock, WfBlock, Tidy.TidyBlock;
    Tidy.TidyLosesNothing(Tidy.NO_FACTS, FRESH, {}, b);
  }

  /** A well-scoped entry point that is well typed and whose every course ends at an operation that never returns. */
  predicate WellTyped(b: seq<HInstr>) {
    && WfBlock({}, false, b)
    && HirTyping.Check(HirTyping.EMPTY, false, false, b).Some?
    && HirTyping.Check(HirTyping.EMPTY, false, false, b).value.goes.None?
  }

  /** It is accepted exactly if its comptime loops fit the quota. */
  lemma {:induction false} WellTypedEntry(b: seq<HInstr>)
    requires WellTyped(b)
    ensures EntryAccepted(EvalBlock(FRESH, b)) <==> !RunsOut(DEFAULT, QuotaTrace.Events(FRESH, b))
    ensures Acceptance.Loopless(false, b) ==> EntryAccepted(EvalBlock(FRESH, b))
  {
    FreshAgrees();
    Acceptance.WellTypedAcceptedIff(HirTyping.EMPTY, FRESH, {}, b);
    if Acceptance.Loopless(false, b) { Acceptance.WellTypedLoopless(HirTyping.EMPTY, FRESH, {}, b); }
    hide EvalBlock, WfBlock, HirTyping.Check, QuotaTrace.Events, RunsOut, Acceptance.Agrees;
  }

  lemma FreshAgrees()
    ensures Acceptance.Agrees(HirTyping.EMPTY, FRESH) && TypedResidual.Typed(FRESH) && FRESH.quota.Valid()
  {
  }

  /** `let mut x = 1; let y = x + 2; stop()` is well typed, and its sum is left to run time. */
  lemma SumIsWellTyped()
    ensures WellTyped([HSetMut(0, None, HValue(Some(Num(1)))), HSet(1, None, HValue(Some(Num(2)))),
                       HSet(2, None, HBuiltin(Foldable(Evm.Add), [0, 1])), HEval(HBuiltin(STOP, []))])
  {
    var a, b := HSetMut(0, None, HValue(Some(Num(1)))), HSet(1, None, HValue(Some(Num(2))));
    var c, d := HSet(2, None, HBuiltin(Foldable(Evm.Add), [0, 1])), HEval(HBuiltin(STOP, []));
    SumScoped(a, b, c, d);
    SumChecks(a, b, c, d);
    hide WfBlock, HirTyping.Check;
  }

  lemma SumChecks(a: HInstr, b: HInstr, c: HInstr, d: HInstr)
    requires a == HSetMut(0, None, HValue(Some(Num(1)))) && b == HSet(1, None, HValue(Some(Num(2))))
    requires c == HSet(2, None, HBuiltin(Foldable(Evm.Add), [0, 1])) && d == HEval(HBuiltin(STOP, []))
    ensures var r := HirTyping.Check(HirTyping.EMPTY, false, false, [a, b, c, d]); r.Some? && r.value.goes.None?
  {
    var c0 := HirTyping.EMPTY;
    var c1 := HirTyping.Bound(c0, 0, HirTyping.Live(TU256));
    var c2 := HirTyping.Bound(c1, 1, HirTyping.Exactly(Num(2)));
    var c3 := HirTyping.Bound(c2, 2, HirTyping.Live(TU256));
    ValueStep(c0, a, 1);
    ValueStep(c1, b, 2);
    SumStep(c2, c);
    StopSort(c3);
    hide HirTyping.ExprSort, HirTyping.Check, HirTyping.CheckInstr, HirTyping.Bound;
    CheckLast(c3, d);
    CheckFirst(c2, c, [d], c3);
    CheckFirst(c1, b, [c, d], c2);
    CheckFirst(c0, a, [b, c, d], c1);
    assert [a] + [b, c, d] == [a, b, c, d] && [b] + [c, d] == [b, c, d] && [c] + [d] == [c, d];
  }

  lemma {:induction false} ValueStep(ctx: HirTyping.Context, i: HInstr, n: nat)
    requires (i.HSet? || i.HSetMut?) && i.ty == None && i.e == HValue(Some(Num(n)))
    ensures HirTyping.CheckInstr(ctx, false, false, i)
            == HirTyping.Goes(HirTyping.Bound(ctx, i.local, if i.HSet? then HirTyping.Exactly(Num(n)) else HirTyping.Live(TU256)))
  {
    assert Uses(i.e) == [];
    assert HirTyping.ExprSort(ctx, false, i.e) == HirTyping.Gives(HirTyping.Exactly(Num(n)));
    hide HirTyping.ExprSort, HirTyping.Bound;
  }

  lemma {:induction false} SumStep(ctx: HirTyping.Context, i: HInstr)
    requires i == HSet(2, None, HBuiltin(Foldable(Evm.Add), [0, 1]))
    requires 0 in ctx.sorts && ctx.sorts[0] == HirTyping.Live(TU256) && 1 in ctx.sorts && ctx.sorts[1] == HirTyping.Exactly(Num(2))
    ensures HirTyping.CheckInstr(ctx, false, false, i) == HirTyping.Goes(HirTyping.Bound(ctx, 2, HirTyping.Live(TU256)))
  {
    SumSort(ctx);
    hide HirTyping.ExprSort, HirTyping.Bound;
  }

  lemma SumSort(ctx: HirTyping.Context)
    requires 0 in ctx.sorts && ctx.sorts[0] == HirTyping.Live(TU256) && 1 in ctx.sorts && ctx.sorts[1] == HirTyping.Exactly(Num(2))
    ensures HirTyping.ExprSort(ctx, false, HBuiltin(Foldable(Evm.Add), [0, 1])) == HirTyping.Gives(HirTyping.Live(TU256))
  {
    assert Uses(HBuiltin(Foldable(Evm.Add), [0, 1])) == [0, 1];
    var tys := HirTyping.SortTypes(ctx, [0, 1]);
    assert tys == [TU256, TU256];
    assert Matches(Signatures(Foldable(Evm.Add))[0], tys);
    assert !HirTyping.AllKnown(ctx, [0, 1]) by { assert !HirTyping.IsKnown(ctx.sorts[[0, 1][0]]); }
  }

  lemma StopSort(ctx: HirTyping.Context)
    ensures HirTyping.ExprSort(ctx, false, HBuiltin(STOP, [])) == HirTyping.Ends
  {
    assert Uses(HBuiltin(STOP, [])) == [];
    assert HirTyping.SortTypes(ctx, []) == [];
    assert Matches(Signatures(STOP)[0], []);
  }

  lemma {:induction false} CheckFirst(ctx: HirTyping.Context, i: HInstr, rest: seq<HInstr>, next: HirTyping.Context)
    requires HirTyping.CheckInstr(ctx, false, false, i) == HirTyping.Goes(next)
    requires HirTyping.Check(next, false, false, rest).Some? && HirTyping.Check(next, false, false, rest).value.goes.None?
    ensures HirTyping.Check(ctx, false, false, [i] + rest).Some? && HirTyping.Check(ctx, false, false, [i] + rest).value.goes.None?
  {
    hide HirTyping.CheckInstr;
    assert ([i] + rest)[0] == i && ([i] + rest)[1..] == rest;
  }

  lemma {:induction false} CheckLast(ctx: HirTyping.Context, i: HInstr)
    requires i.HEval? && HirTyping.ExprSort(ctx, false, i.e) == HirTyping.Ends
    ensures HirTyping.Check(ctx, false, false, [i]).Some? && HirTyping.Check(ctx, false, false, [i]).value.goes.None?
  {
    hide HirTyping.ExprSort;
    assert HirTyping.CheckInstr(ctx, false, false, i) == Some(HirTyping.Flow(None, Some(ctx)));
    assert [i][0] == i && [i] != [];
  }

  lemma {:induction false} ScopedFirst(vis: set<nat>, i: HInstr, rest: seq<HInstr>)
    requires Wf(vis, false, i) && WfBlock(After(vis, i), false, rest)
    ensures WfBlock(vis, false, [i] + rest)
  {
    hide Wf, After;
    assert ([i] + rest)[0] == i && ([i] + rest)[1..] == rest;
  }

  lemma SumScoped(a: HInstr, b: HInstr, c: HInstr, d: HInstr)
    requires a == HSetMut(0, None, HValue(Some(Num(1)))) && b == HSet(1, None, HValue(Some(Num(2))))
    requires c == HSet(2, None, HBuiltin(Foldable(Evm.Add), [0, 1])) && d == HEval(HBuiltin(STOP, []))
    ensures WfBlock({}, false, [a, b, c, d])
  {
    assert Uses(a.e) == [] && Uses(b.e) == [] && Uses(c.e) == [0, 1] && Uses(d.e) == [];
    assert {} + {0} == {0} && {0} + {1} == {0, 1} && {0, 1} + {2} == {0, 1, 2};
    assert Wf({}, false, a) && After({}, a) == {0};
    assert Wf({0}, false, b) && After({0}, b) == {0, 1};
    assert Wf({0, 1}, false, c) && After({0, 1}, c) == {0, 1, 2};
    assert Wf({0, 1, 2}, false, d) && After({0, 1, 2}, d) == {0, 1, 2};
    assert WfBlock({0, 1, 2}, false, []);
    hide WfBlock, Wf, After;
    ScopedFirst({0, 1, 2}, d, []);
    ScopedFirst({0, 1}, c, [d]);
    ScopedFirst({0}, b, [c, d]);
    ScopedFirst({}, a, [b, c, d]);
    assert [d] + [] == [d];
    assert [a] + [b, c, d] == [a, b, c, d] && [b] + [c, d] == [b, c, d] && [c] + [d] == [c, d];
  }

  /** What the first stage accepts the second stage lowers without a panic, to blocks with one terminator each. */
  lemma {:induction false} AcceptedLowers(b: seq<HInstr>)
    requires WfBlock({}, false, b) && EntryAccepted(EvalBlock(FRESH, b))
    ensures Compiled(b).exit.Terminated?
    ensures forall k | 0 <= k < |Compiled(b).bld.blocks| :: Finished(Compiled(b).bld.blocks[k])
  {
    hide EvalBlock, WfBlock, LowerBlock, Finished, TypedMir.BlockTyped;
    var r := EvalBlock(FRESH, b);
    TypedResidual.BlockTypedOk(FRESH, {}, b);
    TypedMir.TypedBlockLowers(r.st.types, Entry(r.st.types, 0), r.code);
    Discipline.FunctionDiscipline(r.st.types, 0, r.code);
  }

  /** How an entry point ends for the outside. */
  function EntryOutcome(r: Result): Option<Outcome> {
    match r
    case Normal(_, w) => Some(Trapped(w))
    case Halted(w) => Some(Outcome.Halted(w))
    case _ => None
  }

  ghost predicate SourceEnds(env: Env, b: seq<HInstr>, w: World, o: Outcome) {
    exists fuel: nat :: EntryOutcome(HRun(env, fuel, false, map[], w, b)) == Some(o)
  }

  /**
   * The graph compiled from an entry point ends with an outcome, after the same effects, exactly if the HIR ends
   * with it, and then it halted by an operation of its own: the trap behind the body is never reached.  Nothing the
   * compiler ran, folded, joined or rearranged can be seen from the outside.
   */
  lemma CompiledMeansSource(env: Env, b: seq<HInstr>, w: World, o: Outcome)
    requires Compiles(b)
    ensures SourceEnds(env, b, w, o) <==> GraphEnds(env, Compiled(b).bld.blocks, EntryConfig([], w), o)
    ensures GraphEnds(env, Compiled(b).bld.blocks, EntryConfig([], w), o) ==> o.Halted?
  {
    hide EvalBlock, HRun, Run, LowerFunction, WfBlock, GraphEnds, EntryConfig;
    var r := EvalBlock(FRESH, b);
    var args: seq<Value> := [];
    assert StoreUpTo(args, |args|) == map[];
    AcceptedLowers(b);
    hide StoreUpTo;
    forall n: nat ensures !Run(env, r.st.types, n, StoreUpTo(args, |args|), w, r.code).Wrong? {
      if !Run(env, r.st.types, n, map[], w, r.code).OutOfFuel? { ResidualRun(env, b, w, n); }
    }
    LoweringPreservesMeaning(env, r.st.types, r.code, args, w, o);
    if SourceEnds(env, b, w, o) {
      var F: nat :| EntryOutcome(HRun(env, F, false, map[], w, b)) == Some(o);
      SourceRun(env, b, w, F);
      assert FunctionOutcome(Run(env, r.st.types, F, StoreUpTo(args, |args|), w, r.code)) == Some(o);
    }
    if BodyEnds(env, r.st.types, r.code, args, w, o) {
      var n: nat :| FunctionOutcome(Run(env, r.st.types, n, StoreUpTo(args, |args|), w, r.code)) == Some(o);
      ResidualRun(env, b, w, n);
      assert EntryOutcome(HRun(env, n + r.st.quota.spent + 1, false, map[], w, b)) == Some(o);
    }
  }

  lemma FreshRelated()
    ensures StaticProof.Inv(FRESH) && ExprProof.Rel(FRESH, {}, map[], map[])
  {
  }

  /** A finished run of the source is matched by the residual code. */
  lemma {:induction false} SourceRun(env: Env, b: seq<HInstr>, w: World, F: nat)
    requires Compiles(b) && !HRun(env, F, false, map[], w, b).OutOfFuel?
    ensures var r := EvalBlock(FRESH, b);
            && EntryOutcome(HRun(env, F, false, map[], w, b)).Some?
            && EntryOutcome(HRun(env, F, false, map[], w, b)).value.Halted?
            && FunctionOutcome(Run(env, r.st.types, F, map[], w, r.code)) == EntryOutcome(HRun(env, F, false, map[], w, b))
  {
    FreshRelated();
    hide EvalBlock, HRun, Run, Compiled, WfBlock, AfterBlock, StaticProof.Inv, ExprProof.Rel,
      SimulationProof.Agree, EntryOutcome, FunctionOutcome;
    var r := EvalBlock(FRESH, b);
    Specialisation.SpecialisationPreservesMeaning(env, r.st.types, FRESH, {}, b, map[], map[], w);
    AgreeingOutcomes(HRun(env, F, false, map[], w, b), Run(env, r.st.types, F, map[], w, r.code), r, AfterBlock({}, b));
  }

  /** A finished run of the residual code is matched by the source. */
  lemma {:induction false} ResidualRun(env: Env, b: seq<HInstr>, w: World, n: nat)
    requires Compiles(b) && !Run(env, EvalBlock(FRESH, b).st.types, n, map[], w, EvalBlock(FRESH, b).code).OutOfFuel?
    ensures var r := EvalBlock(FRESH, b);
            && !Run(env, r.st.types, n, map[], w, r.code).Wrong?
            && FunctionOutcome(Run(env, r.st.types, n, map[], w, r.code))
               == EntryOutcome(HRun(env, n + r.st.quota.spent + 1, false, map[], w, b))
  {
    FreshRelated();
    hide EvalBlock, HRun, Run, Compiled, WfBlock, AfterBlock, StaticProof.Inv, ExprProof.Rel,
      SimulationProof.Agree, EntryOutcome, FunctionOutcome;
    var r := EvalBlock(FRESH, b);
    Specialisation.SpecialisationPreservesMeaning(env, r.st.types, FRESH, {}, b, map[], map[], w);
    AgreeingOutcomes(HRun(env, n + r.st.quota.spent + 1, false, map[], w, b), Run(env, r.st.types, n, map[], w, r.code), r,
                     AfterBlock({}, b));
  }

  lemma AgreeingOutcomes(h: Result, m: Result, r: Step, vis: set<nat>)
    requires SimulationProof.Agree(h, m, r, vis) && r.exit == BlockEnd
    ensures !m.Wrong? && EntryOutcome(h).Some? && EntryOutcome(h).value.Halted? && FunctionOutcome(m) == EntryOutcome(h)
  {
    hide ExprProof.Rel;
  }

  /** The same from the program text and the compiler's verdict. */
  lemma {:induction false} TidyMeansSource(env: Env, b: seq<HInstr>, w: World, o: Outcome)
    requires WfBlock({}, false, b) && Tidy.TidyBlock(Tidy.NO_FACTS, b) && EntryAccepted(EvalBlock(FRESH, b))
    ensures SourceEnds(env, b, w, o) <==> GraphEnds(env, Compiled(b).bld.blocks, EntryConfig([], w), o)
    ensures GraphEnds(env, Compiled(b).bld.blocks, EntryConfig([], w), o) ==> o.Halted?
  {
    TidyCompiles(b);
    hide EvalBlock, WfBlock, Compiled, SourceEnds, GraphEnds, EntryConfig;
    CompiledMeansSource(env, b, w, o);
  }
}
