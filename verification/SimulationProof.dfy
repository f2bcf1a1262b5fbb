/** Specialisation preserves meaning: the simulation between HIR runs and runs of the residual MIR. */
module SimulationProof {
  import opened Values
  import opened World
  import opened Mir
  import opened Hir
  import opened Quotas
  import opened Specialiser
  import opened Scoping
  import opened StaticProof
  import opened ExprProof
  import Evm

  /**
   * Two finished runs agree: the same world and halting, or the same world and related stores.  Neither is `Wrong`,
   * and a block that ends at specialisation time never completes.
   */
  ghost predicate Agree(h: Result, m: Result, r: Step, vis: set<nat>) {
    match (h, m)
    case (Normal(hs, w1), Normal(ms, w2)) => w1 == w2 && r.exit == Fallthrough && Rel(r.st, vis, hs, ms)
    case (Halted(w1), Halted(w2)) => w1 == w2
    case _ => false
  }

  /** A binding written with a value the residual code has just stored. */
  lemma {:induction false} StoreRel(st: State, st': State, vis: set<nat>, hs: Store, ms: Store, ms': Store, x: nat, v: Value)
    requires Rel(st, vis, hs, ms) && Inv(st) && WfValue(v) && Refines(st.types, st'.types)
    requires x in st'.bindings && Holds(st', st'.bindings[x], v, ms')
    requires forall y | y in vis && y != x :: y in st'.bindings && st'.bindings[y] == st.bindings[y]
    requires forall m | 0 <= m < |st.types| && !(st'.bindings[x].Runtime? && st'.bindings[x].m == m) :: (m in ms <==> m in ms') && (m in ms ==> ms'[m] == ms[m])
    requires st'.bindings[x].Runtime? ==>
               forall y | y in vis && y != x && st.bindings[y].Runtime? :: st.bindings[y].m != st'.bindings[x].m
    ensures Rel(st', vis + {x}, hs[x := v], ms')
  {
    var hs' := hs[x := v];
    forall y | y in vis + {x}
      ensures y in st'.bindings && y in hs' && WfValue(hs'[y]) && Holds(st', st'.bindings[y], hs'[y], ms')
    {
      if y != x {
        assert Holds(st, st.bindings[y], hs[y], ms);
        NoNeverValue(hs[y]);
      }
    }
  }

  /** The value an expression left, ready to be stored: known, or a residual expression to run in `ms`. */
  ghost predicate Ready(env: Env, st: State, ms: Store, w: World, value: EvalValue, v: Value, w': World) {
    match value
    case PoisonV => false
    case ComptimeV(c) => c == v && w' == w
    case RuntimeV(e, ty) => Eval(env, ms, w, e, ty) == Val(v, w') && TypeOf(v) == ty
  }

  lemma {:induction false} SetRuns(env: Env, T: seq<Ty>, fuel: nat, ms: Store, w: World, m: nat, e: Expr, v: Value, w': World)
    requires m < |T| && T[m] == TypeOf(v) && Eval(env, ms, w, e, TypeOf(v)) == Val(v, w')
    ensures Run(env, T, fuel, ms, w, [Set(m, e)]) == Normal(ms[m := v], w')
  {
    RunOne(env, T, fuel, ms, w, Set(m, e));
  }

  lemma {:induction false} BindFreshSim(env: Env, T: seq<Ty>, fuel: nat, st: State, vis: set<nat>, hs: Store, ms: Store, w: World,
                     x: nat, value: EvalValue, v: Value, w': World)
    requires Inv(st) && Rel(st, vis, hs, ms) && Ready(env, st, ms, w, value, v, w') && WfValue(v) && value.RuntimeV?
    requires x !in vis && Refines(BindFresh(st, x, value).st.types, T)
    ensures Agree(Normal(hs[x := v], w'), Run(env, T, fuel, ms, w, BindFresh(st, x, value).code), BindFresh(st, x, value), vis + {x})
  {
    hide Eval, Run;
    var r := BindFresh(st, x, value);
    var m := |st.types|;
    NoNeverValue(v);
    assert r.st.types[m] == TypeOf(v);
    SetRuns(env, T, fuel, ms, w, m, value.e, v, w');
    StoreRel(st, r.st, vis, hs, ms, ms[m := v], x, v);
  }

  lemma {:induction false} ToRuntimeReady(env: Env, st: State, ms: Store, w: World, value: EvalValue, v: Value, w': World)
    requires Ready(env, st, ms, w, value, v, w') && WfValue(v) && !ToRuntime(st, value).st.diagnosed
    ensures ToRuntime(st, value).st == st
    ensures ToRuntime(st, value).value.RuntimeV? && Ready(env, st, ms, w, ToRuntime(st, value).value, v, w')
  {
  }

  lemma {:induction false} BindComptimeSim(env: Env, T: seq<Ty>, fuel: nat, st: State, vis: set<nat>, hs: Store, ms: Store, w: World,
                        x: nat, value: EvalValue, v: Value, w': World)
    requires Inv(st) && Rel(st, vis, hs, ms) && Ready(env, st, ms, w, value, v, w') && WfValue(v)
    requires !BindComptime(st, x, value).diagnosed
    ensures Agree(Normal(hs[x := v], w'), Run(env, T, fuel, ms, w, []), Step(BindComptime(st, x, value), [], Fallthrough), vis + {x})
  {
    hide Eval, Run;
    RunNothing(env, T, fuel, ms, w);
    StoreRel(st, BindComptime(st, x, value), vis, hs, ms, ms, x, v);
  }

  lemma {:induction false} StoreSetSim(env: Env, T: seq<Ty>, fuel: nat, st: State, vis: set<nat>, hs: Store, ms: Store, w: World,
                    x: nat, value: EvalValue, v: Value, w': World)
    requires Inv(st) && Rel(st, vis, hs, ms) && Ready(env, st, ms, w, value, v, w') && WfValue(v) && x !in vis
    requires var r := StoreSet(st, x, value); !r.st.diagnosed && Refines(r.st.types, T)
    ensures var r := StoreSet(st, x, value); Agree(Normal(hs[x := v], w'), Run(env, T, fuel, ms, w, r.code), r, vis + {x})
  {
    hide Eval, Run, Agree, BindFresh, BindComptime, Rel, Inv;
    if st.comptime || value.ComptimeV? {
      BindComptimeSim(env, T, fuel, st, vis, hs, ms, w, x, value, v, w');
    } else {
      BindFreshSim(env, T, fuel, st, vis, hs, ms, w, x, value, v, w');
    }
  }

  lemma {:induction false} StoreMutSim(env: Env, T: seq<Ty>, fuel: nat, st: State, vis: set<nat>, hs: Store, ms: Store, w: World,
                    x: nat, value: EvalValue, v: Value, w': World)
    requires Inv(st) && Rel(st, vis, hs, ms) && Ready(env, st, ms, w, value, v, w') && WfValue(v) && x !in vis
    requires var r := StoreMut(st, x, value); !r.st.diagnosed && Refines(r.st.types, T)
    ensures var r := StoreMut(st, x, value); Agree(Normal(hs[x := v], w'), Run(env, T, fuel, ms, w, r.code), r, vis + {x})
  {
    hide Eval, Run, Agree, BindFresh, BindComptime, Rel, Inv, ToRuntime;
    if st.comptime {
      BindComptimeSim(env, T, fuel, st, vis, hs, ms, w, x, value, v, w');
    } else {
      ToRuntimeReady(env, st, ms, w, value, v, w');
      BindFreshSim(env, T, fuel, st, vis, hs, ms, w, x, ToRuntime(st, value).value, v, w');
    }
  }

  lemma {:induction false} RejoinSim(env: Env, T: seq<Ty>, fuel: nat, st: State, vis: set<nat>, hs: Store, ms: Store, w: World,
                  x: nat, value: EvalValue, v: Value, w': World)
    requires Inv(st) && Rel(st, vis, hs, ms) && Ready(env, st, ms, w, value, v, w') && WfValue(v) && value.RuntimeV?
    requires x !in vis && x in st.bindings
    requires var r := Rejoin(st, x, value); !r.st.diagnosed && r.exit != Panic && Refines(r.st.types, T)
    ensures var r := Rejoin(st, x, value); Agree(Normal(hs[x := v], w'), Run(env, T, fuel, ms, w, r.code), r, vis + {x})
  {
    hide Eval, Run;
    var r := Rejoin(st, x, value);
    NoNeverValue(v);
    match st.bindings[x]
    case Runtime(m) =>
      assert r.st.types[m] == TypeOf(v);
      SetRuns(env, T, fuel, ms, w, m, value.e, v, w');
      StoreRel(st, r.st, vis, hs, ms, ms[m := v], x, v);
    case _ =>
  }

  lemma {:induction false} StoreBranchSim(env: Env, T: seq<Ty>, fuel: nat, st: State, vis: set<nat>, hs: Store, ms: Store, w: World,
                       x: nat, value: EvalValue, v: Value, w': World)
    requires Inv(st) && Rel(st, vis, hs, ms) && Ready(env, st, ms, w, value, v, w') && WfValue(v) && x !in vis
    requires var r := StoreBranch(st, x, value); !r.st.diagnosed && r.exit != Panic && Refines(r.st.types, T)
    ensures var r := StoreBranch(st, x, value); Agree(Normal(hs[x := v], w'), Run(env, T, fuel, ms, w, r.code), r, vis + {x})
  {
    hide Eval, Run, Agree, BindFresh, BindComptime, Rejoin, Rel, Inv, ToRuntime;
    if st.comptime {
      BindComptimeSim(env, T, fuel, st, vis, hs, ms, w, x, value, v, w');
    } else {
      ToRuntimeReady(env, st, ms, w, value, v, w');
      if x in st.bindings {
        RejoinSim(env, T, fuel, st, vis, hs, ms, w, x, ToRuntime(st, value).value, v, w');
      } else {
        BindFreshSim(env, T, fuel, st, vis, hs, ms, w, x, ToRuntime(st, value).value, v, w');
      }
    }
  }

  /** What `ExprSim` gives, in the form a store needs it. */
  lemma ExprReady(env: Env, T: seq<Ty>, fuel: nat, st: State, vis: set<nat>, hs: Store, ms: Store, w: World, e: HExpr)
    returns (ms1: Store, v: Value, w': World)
    requires Inv(st) && Rel(st, vis, hs, ms) && WfExpr(vis, e)
    requires var es := EvalExpr(st, e); es.exit == Fallthrough && !es.st.diagnosed && Refines(es.st.types, T)
    ensures var es := EvalExpr(st, e);
            && Run(env, T, fuel, ms, w, es.code) == Normal(ms1, w)
            && Meaning(env, st.comptime, hs, w, e) == Val(v, w') && WfValue(v)
            && Inv(es.st) && Rel(es.st, vis, hs, ms1) && Ready(env, es.st, ms1, w, es.value, v, w')
  {
    ExprSim(env, T, fuel, st, vis, hs, ms, w, e);
    hide EvalExpr, Meaning, Eval;
    var es := EvalExpr(st, e);
    var m := Run(env, T, fuel, ms, w, es.code);
    var h := Meaning(env, st.comptime, hs, w, e);
    ms1, v, w' := m.s, h.v, h.w;
    RelStable(st, es.st, vis, hs, ms, ms1);
  }

  lemma {:induction false} ExprHalts(env: Env, T: seq<Ty>, fuel: nat, st: State, vis: set<nat>, hs: Store, ms: Store, w: World, e: HExpr)
    requires Inv(st) && Rel(st, vis, hs, ms) && WfExpr(vis, e)
    requires var es := EvalExpr(st, e); es.exit == BlockEnd && !es.st.diagnosed && Refines(es.st.types, T)
    ensures Meaning(env, st.comptime, hs, w, e).Halt?
    ensures Run(env, T, fuel, ms, w, EvalExpr(st, e).code) == Halted(Meaning(env, st.comptime, hs, w, e).w)
  {
    ExprSim(env, T, fuel, st, vis, hs, ms, w, e);
    hide EvalExpr, Meaning, Eval;
  }

  lemma {:induction false} AnnotationSim(env: Env, st: State, vis: set<nat>, hs: Store, ms: Store, w: World, ty: Option<nat>,
                      value: EvalValue, v: Value, w': World)
    requires Rel(st, vis, hs, ms) && Ready(env, st, ms, w, value, v, w') && WfValue(v)
    requires ty.Some? ==> ty.value in vis && ty.value in st.bindings
    requires CheckAnnotation(st, ty, value) == Checked(st, value)
    ensures Annotated(hs, ty, v)
  {
    if ty.Some? {
      assert Holds(st, st.bindings[ty.value], hs[ty.value], ms);
      NoNeverValue(v);
    }
  }

  lemma {:induction false} AfterCode(env: Env, T: seq<Ty>, fuel: nat, ms: Store, w: World, code: seq<Instr>, ms1: Store, r: Step, h: Result, vis: set<nat>)
    requires Run(env, T, fuel, ms, w, code) == Normal(ms1, w)
    requires Agree(h, Run(env, T, fuel, ms1, w, r.code), r, vis)
    ensures Agree(h, Run(env, T, fuel, ms, w, Prefix(code, r).code), Prefix(code, r), vis)
  {
    RunConcat(env, T, fuel, ms, w, code, r.code);
  }

  lemma {:induction false} SetSim(env: Env, T: seq<Ty>, fuel: nat, st: State, vis: set<nat>, hs: Store, ms: Store, w: World,
               x: nat, ty: Option<nat>, e: HExpr)
    requires Inv(st) && Rel(st, vis, hs, ms) && WfExpr(vis, e) && x !in vis && (ty.Some? ==> ty.value in vis)
    requires Clean(EvalSet(st, x, ty, e)) && Refines(EvalSet(st, x, ty, e).st.types, T)
    ensures var r := EvalSet(st, x, ty, e);
            Agree(HBind(env, st.comptime, hs, w, x, ty, e), Run(env, T, fuel, ms, w, r.code), r, vis + {x})
  {
    hide EvalExpr, Meaning, Eval, Run, Rel, Inv, StoreSet, CheckAnnotation, Ready, Annotated;
    var es := EvalExpr(st, e);
    if es.exit == BlockEnd {
      ExprHalts(env, T, fuel, st, vis, hs, ms, w, e);
    } else {
      var c := CheckAnnotation(es.st, ty, es.value);
      var r := StoreSet(c.st, x, c.value);
      RefinesTrans(es.st.types, r.st.types, T);
      var ms1, v, w' := ExprReady(env, T, fuel, st, vis, hs, ms, w, e);
      PoisonIsDiagnosed(st, e);
      AnnotationStatic(es.st, ty, es.value);
      AnnotationSim(env, es.st, vis, hs, ms1, w, ty, es.value, v, w');
      StoreSetSim(env, T, fuel, es.st, vis, hs, ms1, w, x, es.value, v, w');
      AfterCode(env, T, fuel, ms, w, es.code, ms1, r, Normal(hs[x := v], w'), vis + {x});
    }
  }

  lemma {:induction false} SetMutSim(env: Env, T: seq<Ty>, fuel: nat, st: State, vis: set<nat>, hs: Store, ms: Store, w: World,
                  x: nat, ty: Option<nat>, e: HExpr)
    requires Inv(st) && Rel(st, vis, hs, ms) && WfExpr(vis, e) && x !in vis && (ty.Some? ==> ty.value in vis)
    requires Clean(EvalSetMut(st, x, ty, e)) && Refines(EvalSetMut(st, x, ty, e).st.types, T)
    ensures var r := EvalSetMut(st, x, ty, e);
            Agree(HBind(env, st.comptime, hs, w, x, ty, e), Run(env, T, fuel, ms, w, r.code), r, vis + {x})
  {
    hide EvalExpr, Meaning, Eval, Run, Rel, Inv, StoreMut, CheckAnnotation, Ready, Annotated;
    var es := EvalExpr(st, e);
    if es.exit == BlockEnd {
      ExprHalts(env, T, fuel, st, vis, hs, ms, w, e);
    } else {
      var c := CheckAnnotation(es.st, ty, es.value);
      var r := StoreMut(c.st, x, c.value);
      RefinesTrans(es.st.types, r.st.types, T);
      var ms1, v, w' := ExprReady(env, T, fuel, st, vis, hs, ms, w, e);
      PoisonIsDiagnosed(st, e);
      AnnotationStatic(es.st, ty, es.value);
      AnnotationSim(env, es.st, vis, hs, ms1, w, ty, es.value, v, w');
      StoreMutSim(env, T, fuel, es.st, vis, hs, ms1, w, x, es.value, v, w');
      AfterCode(env, T, fuel, ms, w, es.code, ms1, r, Normal(hs[x := v], w'), vis + {x});
    }
  }

  lemma RefinesTrans(a: seq<Ty>, b: seq<Ty>, c: seq<Ty>)
    requires Refines(a, b) && Refines(b, c)
    ensures Refines(a, c)
  {
  }

  lemma {:induction false} BranchSetSim(env: Env, T: seq<Ty>, fuel: nat, st: State, vis: set<nat>, hs: Store, ms: Store, w: World,
                     x: nat, e: HExpr)
    requires Inv(st) && Rel(st, vis, hs, ms) && WfExpr(vis, e) && x !in vis
    requires Clean(EvalBranchSet(st, x, e)) && Refines(EvalBranchSet(st, x, e).st.types, T)
    ensures var r := EvalBranchSet(st, x, e);
            Agree(HBind(env, st.comptime, hs, w, x, None, e), Run(env, T, fuel, ms, w, r.code), r, vis + {x})
  {
    hide EvalExpr, Meaning, Eval, Run, Rel, Inv, StoreBranch, EvalSet, Ready;
    if !st.conditional {
      SetSim(env, T, fuel, st, vis, hs, ms, w, x, None, e);
    } else {
      var es := EvalExpr(st, e);
      if es.exit == BlockEnd {
        ExprHalts(env, T, fuel, st, vis, hs, ms, w, e);
      } else {
        var r := StoreBranch(es.st, x, es.value);
        RefinesTrans(es.st.types, r.st.types, T);
        var ms1, v, w' := ExprReady(env, T, fuel, st, vis, hs, ms, w, e);
        StoreBranchSim(env, T, fuel, es.st, vis, hs, ms1, w, x, es.value, v, w');
        AfterCode(env, T, fuel, ms, w, es.code, ms1, r, Normal(hs[x := v], w'), vis + {x});
      }
    }
  }

  lemma {:induction false} AssignCheckedSim(env: Env, T: seq<Ty>, fuel: nat, st: State, vis: set<nat>, hs: Store, ms: Store, w: World,
                         x: nat, value: EvalValue, v: Value, w': World)
    requires Inv(st) && Rel(st, vis, hs, ms) && Ready(env, st, ms, w, value, v, w') && WfValue(v)
    requires x in vis && x in st.bindings
    requires var r := AssignChecked(st, x, value); !r.st.diagnosed && r.exit != Panic && Refines(r.st.types, T)
    ensures x in hs && TypeOf(v) == TypeOf(hs[x])
    ensures var r := AssignChecked(st, x, value); Agree(Normal(hs[x := v], w'), Run(env, T, fuel, ms, w, r.code), r, vis)
  {
    hide Eval, Run;
    assert Holds(st, st.bindings[x], hs[x], ms);
    var r := AssignChecked(st, x, value);
    NoNeverValue(v);
    assert vis + {x} == vis;
    if st.comptime {
      RunNothing(env, T, fuel, ms, w);
      StoreRel(st, r.st, vis, hs, ms, ms, x, v);
    } else {
      ToRuntimeReady(env, st, ms, w, value, v, w');
      var m := st.bindings[x].m;
      SetRuns(env, T, fuel, ms, w, m, ToRuntime(st, value).value.e, v, w');
      StoreRel(st, r.st, vis, hs, ms, ms[m := v], x, v);
    }
  }

  lemma {:induction false} AssignSim(env: Env, T: seq<Ty>, fuel: nat, st: State, vis: set<nat>, hs: Store, ms: Store, w: World, x: nat, e: HExpr)
    requires Inv(st) && Rel(st, vis, hs, ms) && WfExpr(vis, e) && x in vis
    requires Clean(EvalAssign(st, x, e)) && Refines(EvalAssign(st, x, e).st.types, T)
    ensures var r := EvalAssign(st, x, e);
            Agree(HRunInstr(env, fuel, st.comptime, hs, w, HAssign(x, e)), Run(env, T, fuel, ms, w, r.code), r, vis)
  {
    hide EvalExpr, Meaning, Eval, Run, Rel, Inv, AssignChecked, Ready;
    var es := EvalExpr(st, e);
    if es.exit == BlockEnd {
      ExprHalts(env, T, fuel, st, vis, hs, ms, w, e);
    } else {
      var r := AssignChecked(es.st, x, es.value);
      RefinesTrans(es.st.types, r.st.types, T);
      var ms1, v, w' := ExprReady(env, T, fuel, st, vis, hs, ms, w, e);
      AssignCheckedSim(env, T, fuel, es.st, vis, hs, ms1, w, x, es.value, v, w');
      AfterCode(env, T, fuel, ms, w, es.code, ms1, r, Normal(hs[x := v], w'), vis);
    }
  }

  lemma {:induction false} EffectSim(env: Env, T: seq<Ty>, fuel: nat, st: State, vis: set<nat>, hs: Store, ms: Store, w: World, e: HExpr)
    requires Inv(st) && Rel(st, vis, hs, ms) && WfExpr(vis, e)
    requires Clean(EvalEffect(st, e)) && Refines(EvalEffect(st, e).st.types, T)
    ensures var r := EvalEffect(st, e);
            Agree(HRunInstr(env, fuel, st.comptime, hs, w, HEval(e)), Run(env, T, fuel, ms, w, r.code), r, vis)
  {
    hide EvalExpr, Meaning, Eval, Run, Inv;
    var es := EvalExpr(st, e);
    if es.exit == BlockEnd {
      ExprHalts(env, T, fuel, st, vis, hs, ms, w, e);
    } else {
      var ms1, v, w' := ExprReady(env, T, fuel, st, vis, hs, ms, w, e);
      PoisonIsDiagnosed(st, e);
      if es.value.RuntimeV? {
        var m := |es.st.types|;
        var r := EvalEffect(st, e);
        assert r.st.types[m] == es.value.ty;
        NoNeverValue(v);
        SetRuns(env, T, fuel, ms1, w, m, es.value.e, v, w');
        RelStable(es.st, r.st, vis, hs, ms1, ms1[m := v]);
        RunConcat(env, T, fuel, ms, w, es.code, [Set(m, es.value.e)]);
      }
    }
  }

  lemma {:induction false} SimpleSim(env: Env, T: seq<Ty>, F: nat, fuel: nat, st: State, vis: set<nat>, hs: Store, ms: Store, w: World, i: HInstr)
    requires !i.HIf? && !i.HWhile? && !i.HComptime?
    requires Inv(st) && Rel(st, vis, hs, ms) && Wf(vis, st.comptime, i)
    requires Clean(EvalSimple(st, i)) && Refines(EvalSimple(st, i).st.types, T)
    ensures var r := EvalSimple(st, i);
            Agree(HRunInstr(env, F, st.comptime, hs, w, i), Run(env, T, fuel, ms, w, r.code), r, After(vis, i))
  {
    hide EvalSet, EvalSetMut, EvalBranchSet, EvalAssign, EvalEffect, Agree, Inv, Rel, Run, HBind, WfExpr, Clean, Meaning;
    match i
    case HSet(x, ty, e) => SetSim(env, T, fuel, st, vis, hs, ms, w, x, ty, e);
    case HSetMut(x, ty, e) => SetMutSim(env, T, fuel, st, vis, hs, ms, w, x, ty, e);
    case HBranchSet(x, e) => BranchSetSim(env, T, fuel, st, vis, hs, ms, w, x, e);
    case HAssign(x, e) =>
      AssignSim(env, T, fuel, st, vis, hs, ms, w, x, e);
      assert HRunInstr(env, fuel, st.comptime, hs, w, i) == HRunInstr(env, F, st.comptime, hs, w, i);
    case HEval(e) =>
      EffectSim(env, T, fuel, st, vis, hs, ms, w, e);
      assert HRunInstr(env, fuel, st.comptime, hs, w, i) == HRunInstr(env, F, st.comptime, hs, w, i);
  }

  // ----- control flow -----

  /**
   * The fuels of the two runs.  Forwards, MIR has at least the fuel of HIR.  Backwards, HIR needs as much more
   * as the quota the evaluator spent, for the loops it ran itself.
   */
  predicate Fuel(back: bool, F: nat, n: nat, st: State, r: Step) {
    if back then F > n + r.st.quota.spent - st.quota.spent else n >= F
  }

  /** If the run that is given finished, so did the other, and they agree. */
  ghost predicate Matched(back: bool, h: Result, m: Result, r: Step, vis: set<nat>) {
    !(if back then m else h).OutOfFuel? ==> Agree(h, m, r, vis)
  }

  lemma RelSmaller(st: State, vis: set<nat>, vis': set<nat>, hs: Store, ms: Store)
    requires Rel(st, vis, hs, ms) && vis' <= vis
    ensures Rel(st, vis', hs, ms)
  {
  }

  lemma AgreeSmaller(h: Result, m: Result, r: Step, vis: set<nat>, vis': set<nat>)
    requires Agree(h, m, r, vis) && vis' <= vis
    ensures Agree(h, m, r, vis')
  {
  }

  /** Later states with the same bindings say the same about the visible locals. */
  lemma RelSameBindings(st: State, st': State, vis: set<nat>, hs: Store, ms: Store)
    requires Rel(st, vis, hs, ms) && Refines(st.types, st'.types)
    requires forall x | x in vis :: SameBinding(st, st', x)
    ensures Rel(st', vis, hs, ms)
  {
    RelStable(st, st', vis, hs, ms, ms);
  }

  /** Earlier states too, as far as their locals already existed. */
  lemma RelBack(st: State, st': State, vis: set<nat>, hs: Store, ms: Store)
    requires Rel(st', vis, hs, ms) && Inv(st) && Refines(st.types, st'.types)
    requires forall x | x in vis :: SameBinding(st, st', x)
    requires forall x | x in vis && x in st.bindings && st.bindings[x].Runtime? :: st.types[st.bindings[x].m] != TNever
    ensures Rel(st, vis, hs, ms)
  {
    forall x | x in vis
      ensures x in st.bindings && x in hs && WfValue(hs[x]) && Holds(st, st.bindings[x], hs[x], ms)
    {
      assert Holds(st', st'.bindings[x], hs[x], ms);
    }
  }

  /** Related stores: every visible run-time local already has its type. */
  lemma RelTyped(st: State, vis: set<nat>, hs: Store, ms: Store)
    requires Rel(st, vis, hs, ms)
    ensures forall x | x in vis && st.bindings[x].Runtime? ::
              st.bindings[x].m < |st.types| && st.types[st.bindings[x].m] != TNever
    ensures forall x | x in vis :: x in st.bindings
  {
    forall x | x in vis
      ensures x in st.bindings
      ensures st.bindings[x].Runtime? ==> st.bindings[x].m < |st.types| && st.types[st.bindings[x].m] != TNever
    {
      assert Holds(st, st.bindings[x], hs[x], ms);
      NoNeverValue(hs[x]);
    }
  }

  lemma {:induction false} BlockSim(env: Env, T: seq<Ty>, back: bool, F: nat, n: nat, st: State, vis: set<nat>,
                                    b: seq<HInstr>, hs: Store, ms: Store, w: World)
    requires st.quota.Valid() && Inv(st) && Rel(st, vis, hs, ms) && WfBlock(vis, st.comptime, b)
    requires var r := EvalBlock(st, b); Clean(r) && Refines(r.st.types, T) && Fuel(back, F, n, st, r)
    ensures var r := EvalBlock(st, b);
            Matched(back, HRun(env, F, st.comptime, hs, w, b), Run(env, T, n, ms, w, r.code), r, AfterBlock(vis, b))
    decreases F, b, 3
  {
    hide EvalInstr, Wf, HRunInstr, Rel, Inv, RunInstr;
    if b == [] {
    } else {
      var first := EvalInstr(st, b[0]);
      if first.exit == Fallthrough {
        var rest := EvalBlock(first.st, b[1..]);
        RefinesTrans(first.st.types, rest.st.types, T);
        InstrSim(env, T, back, F, n, st, vis, b[0], hs, ms, w);
        InstrStatic(st, vis, b[0]);
        RunConcat(env, T, n, ms, w, first.code, rest.code);
        var h1 := HRunInstr(env, F, st.comptime, hs, w, b[0]);
        var m1 := Run(env, T, n, ms, w, first.code);
        if h1.Normal? && m1.Normal? && Agree(h1, m1, first, After(vis, b[0])) {
          BlockSim(env, T, back, F, n, first.st, After(vis, b[0]), b[1..], h1.s, m1.s, h1.w);
        }
      } else {
        InstrSim(env, T, back, F, n, st, vis, b[0], hs, ms, w);
      }
    }
  }

  lemma {:induction false} InstrSim(env: Env, T: seq<Ty>, back: bool, F: nat, n: nat, st: State, vis: set<nat>,
                                    i: HInstr, hs: Store, ms: Store, w: World)
    requires st.quota.Valid() && Inv(st) && Rel(st, vis, hs, ms) && Wf(vis, st.comptime, i)
    requires var r := EvalInstr(st, i); Clean(r) && Refines(r.st.types, T) && Fuel(back, F, n, st, r)
    ensures var r := EvalInstr(st, i);
            Matched(back, HRunInstr(env, F, st.comptime, hs, w, i), Run(env, T, n, ms, w, r.code), r, After(vis, i))
    decreases F, i, 2
  {
    hide EvalBlock, EvalIf, EvalSimple, EvalRuntimeWhile, EvalComptimeWhile, WfBlock, Rel, Inv, Run, HRun, AfterBlock, Joins, Results;
    match i
    case HIf(c, t, e) => IfSim(env, T, back, F, n, st, vis, i, hs, ms, w);
    case HWhile(cb, c, body) =>
      if st.comptime {
        ComptimeWhileSim(env, T, back, F, n, st, vis, i, hs, ms, w);
      } else {
        RuntimeWhileSim(env, T, back, F, n, st, vis, i, hs, ms, w);
      }
    case HComptime(body) => ComptimeSim(env, T, back, F, n, st, vis, i, hs, ms, w);
    case _ => SimpleSim(env, T, F, n, st, vis, hs, ms, w, i);
  }

  lemma {:induction false} ComptimeSim(env: Env, T: seq<Ty>, back: bool, F: nat, n: nat, st: State, vis: set<nat>,
                                       i: HInstr, hs: Store, ms: Store, w: World)
    requires i.HComptime? && Inv(st) && Rel(st, vis, hs, ms) && Wf(vis, st.comptime, i)
    requires var r := EvalInstr(st, i); Clean(r) && Refines(r.st.types, T) && Fuel(back, F, n, st, r)
    ensures var r := EvalInstr(st, i);
            Matched(back, HRunInstr(env, F, st.comptime, hs, w, i), Run(env, T, n, ms, w, r.code), r, After(vis, i))
    decreases F, i, 1
  {
    hide EvalBlock, WfBlock, Run, HRun, AfterBlock, Results;
    var inner := st.(comptime := true);
    BlockSim(env, T, back, F, n, inner, vis, i.body, hs, ms, w);
    AfterGrows(vis, i.body);
    var h := HRun(env, F, true, hs, w, i.body);
    var r := EvalBlock(inner, i.body);
    var m := Run(env, T, n, ms, w, r.code);
    if Agree(h, m, r, AfterBlock(vis, i.body)) {
      AgreeSmaller(h, m, r, AfterBlock(vis, i.body), vis + Results(i.body));
    }
  }

  // ----- branches -----

  lemma {:induction false} IfSim(env: Env, T: seq<Ty>, back: bool, F: nat, n: nat, st: State, vis: set<nat>,
                                 i: HInstr, hs: Store, ms: Store, w: World)
    requires i.HIf? && st.quota.Valid() && Inv(st) && Rel(st, vis, hs, ms) && Wf(vis, st.comptime, i)
    requires var r := EvalIf(st, i); Clean(r) && Refines(r.st.types, T) && Fuel(back, F, n, st, r)
    ensures var r := EvalIf(st, i);
            Matched(back, HRunInstr(env, F, st.comptime, hs, w, i), Run(env, T, n, ms, w, r.code), r, After(vis, i))
    decreases F, i, 1
  {
    hide EvalBlock, WfBlock, Run, HRun, AfterBlock, Joins;
    assert Holds(st, st.bindings[i.condition], hs[i.condition], ms);
    match st.bindings[i.condition]
    case Runtime(m) =>
      NoNeverValue(hs[i.condition]);
      var b := hs[i.condition].b;
      RuntimeIfSim(env, T, back, F, n, st, vis, i, hs, ms, w, m, b);
      var r := EvalIf(st, i);
      RunOne(env, T, n, ms, w, r.code[0]);
      assert r.code == [r.code[0]];
    case Comptime(v) => KnownIfSim(env, T, back, F, n, st, vis, i, hs, ms, w, v.b);
  }

  lemma {:induction false} KnownIfSim(env: Env, T: seq<Ty>, back: bool, F: nat, n: nat, st: State, vis: set<nat>,
                                      i: HInstr, hs: Store, ms: Store, w: World, b: bool)
    requires i.HIf? && st.quota.Valid() && Inv(st) && Rel(st, vis, hs, ms) && Wf(vis, st.comptime, i)
    requires i.condition in st.bindings && st.bindings[i.condition] == Comptime(Boolean(b))
    requires var r := EvalIf(st, i); Clean(r) && Refines(r.st.types, T) && Fuel(back, F, n, st, r)
    ensures var r := EvalIf(st, i);
            Matched(back, HRun(env, F, st.comptime, hs, w, if b then i.thenBlock else i.elseBlock),
                    Run(env, T, n, ms, w, r.code), r, After(vis, i))
    decreases F, i, 0
  {
    hide EvalBlock, WfBlock, Run, HRun, AfterBlock, Joins;
    var arm := if b then i.thenBlock else i.elseBlock;
    var inner := st.(conditional := false);
    BlockSim(env, T, back, F, n, inner, vis, arm, hs, ms, w);
    AfterGrows(vis, arm);
    var h := HRun(env, F, st.comptime, hs, w, arm);
    var r := EvalBlock(inner, arm);
    var m := Run(env, T, n, ms, w, r.code);
    if Agree(h, m, r, AfterBlock(vis, arm)) {
      AgreeSmaller(h, m, r, AfterBlock(vis, arm), vis + Joins(i.thenBlock) * Joins(i.elseBlock));
    }
  }

  lemma {:induction false} RuntimeIfSim(env: Env, T: seq<Ty>, back: bool, F: nat, n: nat, st: State, vis: set<nat>,
                                        i: HInstr, hs: Store, ms: Store, w: World, m: nat, b: bool)
    requires i.HIf? && st.quota.Valid() && Inv(st) && Rel(st, vis, hs, ms) && Wf(vis, st.comptime, i) && !st.comptime
    requires i.condition in st.bindings && st.bindings[i.condition] == Runtime(m)
    requires var r := EvalIf(st, i); Clean(r) && Refines(r.st.types, T) && Fuel(back, F, n, st, r)
    ensures var r := EvalIf(st, i);
            && |r.code| == 1 && r.code[0].If? && r.code[0].condition == m
            && Matched(back, HRun(env, F, st.comptime, hs, w, if b then i.thenBlock else i.elseBlock),
                       Run(env, T, n, ms, w, if b then r.code[0].thenBlock else r.code[0].elseBlock), r, After(vis, i))
    decreases F, i, 0
  {
    hide EvalBlock, WfBlock, Run, HRun, AfterBlock, Joins, Rel, Inv;
    var st0 := st.(conditional := true);
    var t := EvalBlock(st0, i.thenBlock);
    var e := EvalBlock(t.st, i.elseBlock);
    var r := EvalIf(st, i);
    var joins := Joins(i.thenBlock) * Joins(i.elseBlock);
    assert Inv(st0) && Rel(st0, vis, hs, ms) by { SameButMode(st, st0, vis, hs, ms); }
    BlockStatic(st0, vis, i.thenBlock);
    BlockStatic(t.st, vis, i.elseBlock);
    RelTyped(st, vis, hs, ms);
    RefinesTrans(t.st.types, e.st.types, T);
    if b {
      BlockSim(env, T, back, F, n, st0, vis, i.thenBlock, hs, ms, w);
      var h := HRun(env, F, st.comptime, hs, w, i.thenBlock);
      var m1 := Run(env, T, n, ms, w, t.code);
      if Agree(h, m1, t, AfterBlock(vis, i.thenBlock)) && h.Normal? {
        AfterGrows(vis, i.thenBlock);
        RelSmaller(t.st, AfterBlock(vis, i.thenBlock), vis + joins, h.s, m1.s);
        RelTyped(t.st, vis + joins, h.s, m1.s);
        RelSameBindings(t.st, r.st, vis + joins, h.s, m1.s);
      }
    } else {
      RelSameBindings(st0, t.st, vis, hs, ms);
      BlockSim(env, T, back, F, n, t.st, vis, i.elseBlock, hs, ms, w);
      var h := HRun(env, F, st.comptime, hs, w, i.elseBlock);
      var m1 := Run(env, T, n, ms, w, e.code);
      if Agree(h, m1, e, AfterBlock(vis, i.elseBlock)) && h.Normal? {
        AfterGrows(vis, i.elseBlock);
        RelSmaller(e.st, AfterBlock(vis, i.elseBlock), vis + joins, h.s, m1.s);
        SameButMode(e.st, r.st, vis + joins, h.s, m1.s);
      }
    }
  }

  lemma SameButMode(st: State, st': State, vis: set<nat>, hs: Store, ms: Store)
    requires st'.bindings == st.bindings && st'.types == st.types && st'.quota == st.quota
    ensures Inv(st) ==> Inv(st')
    ensures Rel(st, vis, hs, ms) ==> Rel(st', vis, hs, ms)
  {
    if Rel(st, vis, hs, ms) {
      forall x | x in vis
        ensures x in st'.bindings && x in hs && WfValue(hs[x]) && Holds(st', st'.bindings[x], hs[x], ms)
      {
        assert Holds(st, st.bindings[x], hs[x], ms);
      }
    }
  }

  // ----- loops -----

  /** The condition of a run-time loop: in both runs it is the same boolean. */
  lemma LoopConditionSim(env: Env, T: seq<Ty>, n: nat, st: State, vis: set<nat>, hs: Store, ms: Store, w: World, c: nat)
    returns (ms': Store)
    requires st.quota.Valid() && Inv(st) && Rel(st, vis, hs, ms) && c in vis && c in st.bindings
    requires var lc := LoopCondition(st, c); !lc.value.PoisonV? && Refines(lc.st.types, T)
    ensures c in hs && hs[c].Boolean?
    ensures var lc := LoopCondition(st, c);
            var (m, extra) := if lc.value.RuntimeV? then (lc.value.e.local, []) else (|st.types|, [Set(|st.types|, Const(lc.value.v))]);
            && Run(env, T, n, ms, w, extra) == Normal(ms', w)
            && Condition(ms', m) == Some(hs[c].b)
            && Inv(lc.st) && Rel(lc.st, vis, hs, ms')
  {
    assert Holds(st, st.bindings[c], hs[c], ms);
    NoNeverValue(hs[c]);
    var lc := LoopCondition(st, c);
    if lc.value.RuntimeV? {
      ms' := ms;
      RunNothing(env, T, n, ms, w);
    } else {
      var m := |st.types|;
      var v := lc.value.v;
      ms' := ms[m := v];
      assert lc.st.types[m] == TBool;
      SetRuns(env, T, n, ms, w, m, Const(v), v, w);
      RelStable(st, lc.st, vis, hs, ms, ms');
    }
  }

  /** The MIR local a run-time loop tests, and the code that sets it if it is a known value. */
  function Tested(before: State, lc: Checked): (nat, seq<Instr>)
    requires lc.value.RuntimeV? ==> lc.value.e.LocalRef?
    requires !lc.value.PoisonV?
  {
    if lc.value.RuntimeV? then (lc.value.e.local, []) else (|before.types|, [Set(|before.types|, Const(lc.value.v))])
  }

  /** The first half of an iteration: the condition block, then the test. */
  lemma {:induction false} LoopHeadSim(env: Env, T: seq<Ty>, back: bool, F: nat, n: nat, st: State, vis: set<nat>,
                                       i: HInstr, hs: Store, ms: Store, w: World)
    requires i.HWhile? && !st.comptime && st.quota.Valid() && Inv(st) && Rel(st, vis, hs, ms) && Wf(vis, st.comptime, i)
    requires var r := EvalRuntimeWhile(st, i); Clean(r) && Refines(r.st.types, T) && Fuel(back, F, n, st, r)
    ensures var cb := EvalBlock(st, i.conditionBlock);
            var lc := LoopCondition(cb.st, i.condition);
            !lc.value.PoisonV? &&
            var (m, extra) := Tested(cb.st, lc);
            var h := HRun(env, F, st.comptime, hs, w, i.conditionBlock);
            var mr := Run(env, T, n, ms, w, cb.code + extra);
            && Matched(back, h, mr, Step(lc.st, [], Fallthrough), vis)
            && (h.Normal? && mr.Normal? ==>
                  i.condition in h.s && h.s[i.condition].Boolean? && Condition(mr.s, m) == Some(h.s[i.condition].b))
    decreases F, i, 0
  {
    hide EvalBlock, WfBlock, Run, HRun, AfterBlock, Rel, Inv, LoopCondition, Condition, EvalRuntimeWhile;
    var cb := EvalBlock(st, i.conditionBlock);
    var lc := LoopCondition(cb.st, i.condition);
    LoopParts(st, vis, i);
    var body := EvalBlock(lc.st, i.body);
    var (m, extra) := Tested(cb.st, lc);
    var after := AfterBlock(vis, i.conditionBlock);
    RefinesTrans(lc.st.types, body.st.types, T);
    RefinesTrans(cb.st.types, lc.st.types, T);
    assert i.condition in after by { WfLoop(vis, st.comptime, i); }
    BlockSim(env, T, back, F, n, st, vis, i.conditionBlock, hs, ms, w);
    RunConcat(env, T, n, ms, w, cb.code, extra);
    var hc := HRun(env, F, st.comptime, hs, w, i.conditionBlock);
    var mc := Run(env, T, n, ms, w, cb.code);
    if Agree(hc, mc, cb, after) && hc.Normal? {
      AfterGrows(vis, i.conditionBlock);
      var ms1 := LoopConditionSim(env, T, n, cb.st, after, hc.s, mc.s, hc.w, i.condition);
      RelSmaller(lc.st, after, vis, hc.s, ms1);
    }
  }

  lemma {:induction false} WfLoop(vis: set<nat>, ct: bool, i: HInstr)
    requires i.HWhile? && Wf(vis, ct, i)
    ensures WfBlock(vis, ct, i.conditionBlock) && i.condition in AfterBlock(vis, i.conditionBlock) && WfBlock(vis, ct, i.body)
  {
  }

  /** The second half: the body, after which the stores are related as before the iteration. */
  lemma {:induction false} LoopBodySim(env: Env, T: seq<Ty>, back: bool, F: nat, n: nat, st: State, vis: set<nat>,
                                       i: HInstr, hs0: Store, ms0: Store, hs: Store, ms: Store, w: World)
    requires i.HWhile? && !st.comptime && st.quota.Valid() && Inv(st) && Rel(st, vis, hs0, ms0) && Wf(vis, st.comptime, i)
    requires var r := EvalRuntimeWhile(st, i); Clean(r) && Refines(r.st.types, T) && Fuel(back, F, n, st, r)
    requires var lc := LoopCondition(EvalBlock(st, i.conditionBlock).st, i.condition); Rel(lc.st, vis, hs, ms)
    ensures var cb := EvalBlock(st, i.conditionBlock);
            var lc := LoopCondition(cb.st, i.condition);
            lc.st.quota.Valid() &&
            var body := EvalBlock(lc.st, i.body);
            Matched(back, HRun(env, F, st.comptime, hs, w, i.body), Run(env, T, n, ms, w, body.code), Step(st, [], Fallthrough), vis)
    decreases F, i, 0
  {
    hide EvalBlock, WfBlock, Run, HRun, AfterBlock, Rel, Inv, LoopCondition, EvalRuntimeWhile;
    var cb := EvalBlock(st, i.conditionBlock);
    var lc := LoopCondition(cb.st, i.condition);
    LoopParts(st, vis, i);
    WfLoop(vis, st.comptime, i);
    var body := EvalBlock(lc.st, i.body);
    RelTyped(st, vis, hs0, ms0);
    RelTyped(lc.st, vis, hs, ms);
    BlockSim(env, T, back, F, n, lc.st, vis, i.body, hs, ms, w);
    var hb := HRun(env, F, st.comptime, hs, w, i.body);
    var mb := Run(env, T, n, ms, w, body.code);
    if Agree(hb, mb, body, AfterBlock(vis, i.body)) && hb.Normal? {
      AfterGrows(vis, i.body);
      RelSmaller(body.st, AfterBlock(vis, i.body), vis, hb.s, mb.s);
      RelBack(st, body.st, vis, hb.s, mb.s);
    }
  }

  lemma {:induction false} RuntimeWhileSim(env: Env, T: seq<Ty>, back: bool, F: nat, n: nat, st: State, vis: set<nat>,
                                           i: HInstr, hs: Store, ms: Store, w: World)
    requires i.HWhile? && !st.comptime && st.quota.Valid() && Inv(st) && Rel(st, vis, hs, ms) && Wf(vis, st.comptime, i)
    requires var r := EvalRuntimeWhile(st, i); Clean(r) && Refines(r.st.types, T) && Fuel(back, F, n, st, r)
    ensures var r := EvalRuntimeWhile(st, i);
            Matched(back, HRunInstr(env, F, st.comptime, hs, w, i), Run(env, T, n, ms, w, r.code), r, vis)
    decreases F, i, 1
  {
    hide EvalBlock, WfBlock, Run, HRun, AfterBlock, Rel, Inv, LoopCondition, Condition, Wf;
    var r := EvalRuntimeWhile(st, i);
    LoopParts(st, vis, i);
    assert r.code == [r.code[0]];
    RunOne(env, T, n, ms, w, r.code[0]);
    if F > 0 && n > 0 {
      LoopHeadSim(env, T, back, F, n, st, vis, i, hs, ms, w);
      var cb := EvalBlock(st, i.conditionBlock);
      var lc := LoopCondition(cb.st, i.condition);
      var (m, extra) := Tested(cb.st, lc);
      var hc := HRun(env, F, st.comptime, hs, w, i.conditionBlock);
      var mc := Run(env, T, n, ms, w, cb.code + extra);
      if hc.Normal? && mc.Normal? && Agree(hc, mc, Step(lc.st, [], Fallthrough), vis) {
        if hc.s[i.condition].b {
          LoopBodySim(env, T, back, F, n, st, vis, i, hs, ms, hc.s, mc.s, hc.w);
          var body := EvalBlock(lc.st, i.body);
          var hb := HRun(env, F, st.comptime, hc.s, hc.w, i.body);
          var mb := Run(env, T, n, mc.s, hc.w, body.code);
          if hb.Normal? && mb.Normal? && Agree(hb, mb, Step(st, [], Fallthrough), vis) {
            RuntimeWhileSim(env, T, back, F - 1, n - 1, st, vis, i, hb.s, mb.s, hb.w);
            RunOne(env, T, n - 1, mb.s, hb.w, r.code[0]);
          }
        } else {
          RelTyped(lc.st, vis, hc.s, mc.s);
          RelSameBindings(lc.st, r.st, vis, hc.s, mc.s);
        }
      }
    }
  }

  /** The static facts about a run-time loop: all its parts leave the visible bindings alone. */
  lemma {:induction false} LoopParts(st: State, vis: set<nat>, i: HInstr)
    requires i.HWhile? && !st.comptime && st.quota.Valid() && Inv(st) && Wf(vis, st.comptime, i) && Clean(EvalRuntimeWhile(st, i))
    ensures var cb := EvalBlock(st, i.conditionBlock);
            var lc := LoopCondition(cb.st, i.condition);
            var body := EvalBlock(lc.st, i.body);
            && Clean(cb) && Clean(body) && cb.exit == Fallthrough && i.condition in cb.st.bindings && !lc.value.PoisonV?
            && EvalRuntimeWhile(st, i).st == body.st
            && Inv(cb.st) && Inv(lc.st) && Inv(body.st)
            && lc.st == cb.st.(types := lc.st.types) && Refines(st.types, body.st.types)
            && Refines(cb.st.types, lc.st.types) && Refines(lc.st.types, body.st.types)
            && Framed(st, lc.st, vis) && Framed(lc.st, body.st, vis)
  {
    hide EvalBlock, WfBlock;
    var cb := EvalBlock(st, i.conditionBlock);
    var lc := LoopCondition(cb.st, i.condition);
    BlockStatic(st, vis, i.conditionBlock);
    BlockStatic(lc.st, vis, i.body);
    var body := EvalBlock(lc.st, i.body);
    RefinesTrans(st.types, cb.st.types, lc.st.types);
    RefinesTrans(st.types, lc.st.types, body.st.types);
  }

  lemma {:induction false} ComptimeWhileSim(env: Env, T: seq<Ty>, back: bool, F: nat, n: nat, st: State, vis: set<nat>,
                                            i: HInstr, hs: Store, ms: Store, w: World)
    requires i.HWhile? && st.comptime && st.quota.Valid() && Inv(st) && Rel(st, vis, hs, ms) && Wf(vis, st.comptime, i)
    requires var r := EvalComptimeWhile(st, i); Clean(r) && Refines(r.st.types, T) && Fuel(back, F, n, st, r)
    ensures var r := EvalComptimeWhile(st, i);
            Matched(back, HRunInstr(env, F, st.comptime, hs, w, i), Run(env, T, n, ms, w, r.code), r, vis)
    decreases F, i, 1
  {
    hide EvalBlock, WfBlock, Run, HRun, AfterBlock, Rel, Inv, LoopDecision;
    var r := EvalComptimeWhile(st, i);
    RunNothing(env, T, n, ms, w);
    if F > 0 {
      var cb := EvalBlock(st, i.conditionBlock);
      var after := AfterBlock(vis, i.conditionBlock);
      RefinesTrans(cb.st.types, r.st.types, T);
      BlockSim(env, T, back, F, n, st, vis, i.conditionBlock, hs, ms, w);
      BlockStatic(st, vis, i.conditionBlock);
      AfterGrows(vis, i.conditionBlock);
      var hc := HRun(env, F, st.comptime, hs, w, i.conditionBlock);
      if hc.Normal? && Agree(hc, Normal(ms, w), cb, after) {
        RelSmaller(cb.st, after, vis, hc.s, ms);
        DecisionSim(cb.st, after, hc.s, ms, i.condition);
        match LoopDecision(cb.st, i.condition)
        case Stop(_, _) =>
        case Go(st') =>
          var body := EvalBlock(st', i.body);
          assert Inv(st') && Rel(st', vis, hc.s, ms) by { GoKeeps(cb.st, vis, hc.s, ms, i.condition); }
          RefinesTrans(body.st.types, r.st.types, T);
          BlockSim(env, T, back, F, n, st', vis, i.body, hc.s, ms, w);
          BlockStatic(st', vis, i.body);
          var hb := HRun(env, F, st.comptime, hc.s, w, i.body);
          if hb.Normal? && Agree(hb, Normal(ms, w), body, AfterBlock(vis, i.body)) {
            AfterGrows(vis, i.body);
            RelSmaller(body.st, AfterBlock(vis, i.body), vis, hb.s, ms);
            ComptimeWhileSim(env, T, back, F - 1, n, body.st, vis, i, hb.s, ms, w);
          }
      }
    }
  }

  /** The loop goes on exactly when the HIR condition holds. */
  lemma DecisionSim(st: State, vis: set<nat>, hs: Store, ms: Store, c: nat)
    requires Rel(st, vis, hs, ms) && c in vis && st.quota.Valid() && !LoopDecision(st, c).st.diagnosed
    requires LoopDecision(st, c).Stop? ==> LoopDecision(st, c).exit == Fallthrough
    ensures c in hs && hs[c].Boolean?
    ensures LoopDecision(st, c).Go? <==> hs[c].b
    ensures LoopDecision(st, c).Stop? ==> LoopDecision(st, c).st == st
  {
    assert Holds(st, st.bindings[c], hs[c], ms);
  }

  lemma GoKeeps(st: State, vis: set<nat>, hs: Store, ms: Store, c: nat)
    requires st.quota.Valid() && Inv(st) && Rel(st, vis, hs, ms) && LoopDecision(st, c).Go?
    ensures Inv(LoopDecision(st, c).st) && Rel(LoopDecision(st, c).st, vis, hs, ms)
  {
    forall x | x in vis
      ensures x in st.bindings && x in hs && WfValue(hs[x]) && Holds(LoopDecision(st, c).st, st.bindings[x], hs[x], ms)
    {
      assert Holds(st, st.bindings[x], hs[x], ms);
    }
  }
}
