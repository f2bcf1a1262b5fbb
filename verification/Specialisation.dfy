/** The main results about the evaluator: when the residual MIR means what the HIR means, and when it does not. */
module Specialisation {
  import opened Values
  import opened World
  import opened Mir
  import opened Hir
  import opened Quotas
  import opened Specialiser
  import opened Scoping
  import opened StaticProof
  import opened ExprProof
  import opened SimulationProof

  /**
   * Specialisation preserves meaning, in both directions: whenever the HIR run of a block ends, so does the run of
   * the residual code, and they agree; and whenever the residual run ends, so does the HIR run, with as much more fuel
   * as the branches the evaluator took itself.
   */
  lemma SpecialisationPreservesMeaning(env: Env, T: seq<Ty>, st: State, vis: set<nat>, b: seq<HInstr>,
                                       hs: Store, ms: Store, w: World)
    requires Inv(st) && Rel(st, vis, hs, ms) && WfBlock(vis, st.comptime, b)
    requires Clean(EvalBlock(st, b)) && Refines(EvalBlock(st, b).st.types, T)
    ensures var r := EvalBlock(st, b);
            forall F: nat :: !HRun(env, F, st.comptime, hs, w, b).OutOfFuel? ==>
              Agree(HRun(env, F, st.comptime, hs, w, b), Run(env, T, F, ms, w, r.code), r, AfterBlock(vis, b))
    ensures var r := EvalBlock(st, b);
            forall n: nat :: !Run(env, T, n, ms, w, r.code).OutOfFuel? ==>
              Agree(HRun(env, n + r.st.quota.spent - st.quota.spent + 1, st.comptime, hs, w, b),
                    Run(env, T, n, ms, w, r.code), r, AfterBlock(vis, b))
  {
    hide Agree, Run, HRun, EvalBlock, Rel, WfBlock;
    var r := EvalBlock(st, b);
    forall F: nat | !HRun(env, F, st.comptime, hs, w, b).OutOfFuel?
      ensures Agree(HRun(env, F, st.comptime, hs, w, b), Run(env, T, F, ms, w, r.code), r, AfterBlock(vis, b))
    {
      BlockSim(env, T, false, F, F, st, vis, b, hs, ms, w);
    }
    forall n: nat | !Run(env, T, n, ms, w, r.code).OutOfFuel?
      ensures Agree(HRun(env, n + r.st.quota.spent - st.quota.spent + 1, st.comptime, hs, w, b),
                    Run(env, T, n, ms, w, r.code), r, AfterBlock(vis, b))
    {
      BlockSim(env, T, true, n + r.st.quota.spent - st.quota.spent + 1, n, st, vis, b, hs, ms, w);
    }
  }

  // ----- what bindings can become -----

  /** A run-time binding that was not there before is to a MIR local made since, and in comptime mode there is none. */
  ghost predicate NewAreFresh(st: State, st': State) {
    forall x | x in st'.bindings && st'.bindings[x].Runtime? ::
      (x in st.bindings && st.bindings[x] == st'.bindings[x]) || (!st.comptime && |st.types| <= st'.bindings[x].m)
  }

  lemma NewAreFreshTrans(a: State, b: State, c: State)
    requires NewAreFresh(a, b) && NewAreFresh(b, c) && a.comptime == b.comptime && |a.types| <= |b.types|
    ensures NewAreFresh(a, c)
  {
  }

  lemma PiecesFresh(st: State, x: nat, value: EvalValue)
    ensures st.comptime ==> NewAreFresh(st, BindComptime(st, x, value))
    ensures !value.PoisonV? && !value.RuntimeV? ==> NewAreFresh(st, BindComptime(st, x, value))
    ensures !st.comptime && !value.ComptimeV? ==> NewAreFresh(st, BindFresh(st, x, value).st)
    ensures x in st.bindings && !value.ComptimeV? ==> NewAreFresh(st, Rejoin(st, x, value).st)
  {
    hide StepKeeps, Unify;
  }

  lemma StoreFresh(st: State, x: nat, value: EvalValue)
    ensures NewAreFresh(st, StoreSet(st, x, value).st)
    ensures NewAreFresh(st, StoreMut(st, x, value).st)
    ensures NewAreFresh(st, StoreBranch(st, x, value).st)
    ensures x in st.bindings ==> NewAreFresh(st, AssignChecked(st, x, value).st)
  {
    hide BindComptime, BindFresh, Rejoin, StepKeeps, Quiet, AssignChecked, ToRuntime, NewAreFresh;
    PiecesFresh(st, x, value);
    var r := ToRuntime(st, value);
    PiecesFresh(r.st, x, r.value);
    FromDiagnosed(st, value);
    if x in st.bindings { AssignFresh(st, x, value); }
  }

  lemma FromDiagnosed(st: State, value: EvalValue)
    ensures ToRuntime(st, value).st.comptime == st.comptime
    ensures forall later :: NewAreFresh(ToRuntime(st, value).st, later) ==> NewAreFresh(st, later)
  {
    hide StepKeeps;
  }

  lemma AssignFresh(st: State, x: nat, value: EvalValue)
    requires x in st.bindings
    ensures NewAreFresh(st, AssignChecked(st, x, value).st)
  {
    hide StepKeeps, Quiet, ComptimeOnly, Assignable;
  }

  lemma SimpleFresh(st: State, i: HInstr)
    requires !i.HIf? && !i.HWhile? && !i.HComptime?
    ensures NewAreFresh(st, EvalSimple(st, i).st)
  {
    hide EvalExpr, StoreSet, StoreMut, StoreBranch, AssignChecked, CheckAnnotation, Keeps, Quiet, StepKeeps;
    var es := EvalExpr(st, i.e);
    assert es.st.bindings == st.bindings && es.st.comptime == st.comptime && |st.types| <= |es.st.types| by {
      ExprKeepsBindings(st, i.e);
    }
    match i
    case HSet(x, ty, e) => if ty.Some? ==> ty.value in es.st.bindings { AnnotatedFresh(es.st, x, ty, es.value); }
    case HSetMut(x, ty, e) => if ty.Some? ==> ty.value in es.st.bindings { AnnotatedFresh(es.st, x, ty, es.value); }
    case HBranchSet(x, e) =>
      StoreFresh(es.st, x, es.value);
      AnnotatedFresh(es.st, x, None, es.value);
    case HAssign(x, e) => StoreFresh(es.st, x, es.value);
    case HEval(e) =>
  }

  lemma AnnotatedFresh(st: State, x: nat, ty: Option<nat>, value: EvalValue)
    requires ty.Some? ==> ty.value in st.bindings
    ensures var c := CheckAnnotation(st, ty, value);
            && c.st.types == st.types && NewAreFresh(st, StoreSet(c.st, x, c.value).st)
            && NewAreFresh(st, StoreMut(c.st, x, c.value).st)
  {
    hide StoreSet, StoreMut, StoreBranch, AssignChecked;
    var c := CheckAnnotation(st, ty, value);
    StoreFresh(c.st, x, c.value);
  }

  lemma ExprKeepsBindings(st: State, e: HExpr)
    ensures EvalExpr(st, e).st.bindings == st.bindings && EvalExpr(st, e).st.comptime == st.comptime
    ensures |st.types| <= |EvalExpr(st, e).st.types|
  {
    hide EvalExpr;
  }

  /** Evaluation never binds a local to a MIR local that existed before, unless it was bound to it already. */
  lemma {:induction false} BlockFresh(st: State, b: seq<HInstr>)
    requires st.quota.Valid()
    ensures NewAreFresh(st, EvalBlock(st, b).st)
    decreases st.quota.Left(), b, 3
  {
    hide EvalInstr, NewAreFresh;
    if b == [] {
      SameIsFresh(st, EvalBlock(st, b).st);
    } else {
      InstrFresh(st, b[0]);
      var first := EvalInstr(st, b[0]);
      if first.exit == Fallthrough {
        BlockFresh(first.st, b[1..]);
        NewAreFreshTrans(st, first.st, EvalBlock(first.st, b[1..]).st);
      }
    }
  }

  lemma SameIsFresh(st: State, st': State)
    requires st.bindings == st'.bindings
    ensures NewAreFresh(st, st')
  {
  }

  lemma {:induction false} InstrFresh(st: State, i: HInstr)
    requires st.quota.Valid()
    ensures NewAreFresh(st, EvalInstr(st, i).st)
    decreases st.quota.Left(), i, 2
  {
    hide EvalBlock, EvalSimple, EvalIf, EvalRuntimeWhile, EvalComptimeWhile;
    match i
    case HIf(c, t, e) => IfFresh(st, i);
    case HWhile(cb, c, body) => if st.comptime { ComptimeWhileFresh(st, i); } else { RuntimeWhileFresh(st, i); }
    case HComptime(body) => BlockFresh(st.(comptime := true), body);
    case _ => SimpleFresh(st, i);
  }

  lemma {:induction false} IfFresh(st: State, i: HInstr)
    requires i.HIf? && st.quota.Valid()
    ensures NewAreFresh(st, EvalIf(st, i).st)
    decreases st.quota.Left(), i, 1
  {
    hide EvalBlock, Joins;
    if i.condition in st.bindings {
      match st.bindings[i.condition]
      case Poison =>
      case Runtime(m) =>
        var st0 := st.(conditional := true);
        var t := EvalBlock(st0, i.thenBlock);
        BlockFresh(st0, i.thenBlock);
        BlockFresh(t.st, i.elseBlock);
        NewAreFreshTrans(st0, t.st, EvalBlock(t.st, i.elseBlock).st);
      case Comptime(v) =>
        if v.Boolean? { BlockFresh(st.(conditional := false), if v.b then i.thenBlock else i.elseBlock); }
    }
  }

  lemma {:induction false} RuntimeWhileFresh(st: State, i: HInstr)
    requires i.HWhile? && !st.comptime && st.quota.Valid()
    ensures NewAreFresh(st, EvalRuntimeWhile(st, i).st)
    decreases st.quota.Left(), i, 1
  {
    hide EvalBlock;
    var cb := EvalBlock(st, i.conditionBlock);
    BlockFresh(st, i.conditionBlock);
    var c := LoopCondition(cb.st, i.condition);
    BlockFresh(c.st, i.body);
    hide LoopCondition;
    NewAreFreshTrans(st, c.st, EvalBlock(c.st, i.body).st);
  }

  lemma {:induction false} ComptimeWhileFresh(st: State, i: HInstr)
    requires i.HWhile? && st.comptime && st.quota.Valid()
    ensures NewAreFresh(st, EvalComptimeWhile(st, i).st)
    decreases st.quota.Left(), i, 1
  {
    hide EvalBlock;
    var cb := EvalBlock(st, i.conditionBlock);
    BlockFresh(st, i.conditionBlock);
    if cb.exit == Fallthrough {
      match LoopDecision(cb.st, i.condition)
      case Stop(_, _) =>
      case Go(st') =>
        BlockFresh(st', i.body);
        var body := EvalBlock(st', i.body);
        if body.exit == Fallthrough { ComptimeWhileFresh(body.st, i); }
    }
  }

  // ----- comptime mode -----

  /** Every binding is one that was there before, or a known value, or poison. */
  ghost predicate NothingNewAtRuntime(st: State, st': State) {
    forall x | x in st'.bindings :: st'.bindings[x].Runtime? ==> x in st.bindings && st.bindings[x] == st'.bindings[x]
  }

  /** Comptime mode is pure: no code is emitted, no block ends, and nothing new is bound to a MIR local. */
  lemma {:induction false} ComptimeIsPure(st: State, b: seq<HInstr>)
    requires st.comptime && st.quota.Valid()
    ensures EvalBlock(st, b).code == [] && EvalBlock(st, b).exit != BlockEnd
    ensures NothingNewAtRuntime(st, EvalBlock(st, b).st)
  {
    BlockFresh(st, b);
    hide EvalBlock;
  }

  /** The body of a constant never leaves its result bound to a MIR local. */
  lemma {:induction false} ConstResultIsKnown(st: State, body: seq<HInstr>, result: nat)
    requires st.comptime && st.quota.Valid() && st.bindings == map[]
    ensures result in EvalBlock(st, body).st.bindings ==> !EvalBlock(st, body).st.bindings[result].Runtime?
  {
    ComptimeIsPure(st, body);
    hide EvalBlock;
  }

  /**
   * What the evaluator runs itself ends: with one unit of fuel more than the branches it counted, the HIR run of the
   * block completes, in the store the bindings describe and without touching the world.
   */
  lemma ComptimeRunEnds(env: Env, st: State, vis: set<nat>, b: seq<HInstr>, hs: Store, ms: Store, w: World)
    requires st.comptime && st.quota.Valid() && Inv(st) && Rel(st, vis, hs, ms) && WfBlock(vis, true, b)
             && Clean(EvalBlock(st, b))
    ensures var r := EvalBlock(st, b);
            var h := HRun(env, r.st.quota.spent - st.quota.spent + 1, true, hs, w, b);
            r.st.quota.spent <= U32_MAX && h.Normal? && h.w == w && Rel(r.st, AfterBlock(vis, b), h.s, ms)
  {
    ComptimeIsPure(st, b);
    hide EvalBlock, HRun, Rel, AfterBlock, WfBlock, Inv;
    var r := EvalBlock(st, b);
    RunNothing(env, r.st.types, 0, ms, w);
    BlockSim(env, r.st.types, true, r.st.quota.spent - st.quota.spent + 1, 0, st, vis, b, hs, ms, w);
  }
}
