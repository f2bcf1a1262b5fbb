/** What a diagnostic-free evaluation does to the bindings, whatever the program would do when run. */
module StaticProof {
  import opened Values
  import opened World
  import opened Mir
  import opened Hir
  import opened Quotas
  import opened Specialiser
  import opened Scoping
  import Evm

  /** Nothing is poisoned, and no two HIR locals share a MIR local. */
  ghost predicate Inv(st: State) {
    && st.quota.Valid()
    && (forall x | x in st.bindings :: !st.bindings[x].Poison?)
    && (forall x | x in st.bindings && st.bindings[x].Runtime? :: st.bindings[x].m < |st.types|)
    && (forall x, y | x in st.bindings && y in st.bindings && x != y
                      && st.bindings[x].Runtime? && st.bindings[y].Runtime? :: st.bindings[x].m != st.bindings[y].m)
  }

  /** The evaluation went through: nothing diagnosed, no panic, nothing lost. */
  predicate Clean(r: Step) {
    !r.st.diagnosed && !r.st.lossy && (r.exit == Fallthrough || r.exit == BlockEnd)
  }

  /** The compiler's own verdict: nothing diagnosed and no panic. */
  predicate Accepted(r: Step) {
    !r.st.diagnosed && (r.exit == Fallthrough || r.exit == BlockEnd)
  }

  lemma {:induction false} LitDiagnosed(st: State, acc: Lit, fields: seq<Field>, lits: seq<LitField>)
    requires forall i | 0 <= i < |lits| :: lits[i].value in st.bindings && !st.bindings[lits[i].value].Poison?
    requires forall k | 0 <= k < |fields| :: FindLit(lits, fields[k].name).Some?
    requires !acc.valid ==> acc.diagnosed
    ensures !LitFields(st, acc, fields, lits).valid ==> LitFields(st, acc, fields, lits).diagnosed
    decreases |fields|
  {
    if fields != [] {
      if acc.valid { LitConstsDiagnosed(acc, acc.values); }
      LitDiagnosed(st, LitStep(st, acc, fields[0], lits), fields[1..], lits);
    }
  }

  lemma {:induction false} LitConstsDiagnosed(acc: Lit, vs: seq<Value>)
    requires !acc.valid ==> acc.diagnosed
    ensures !LitConsts(acc, vs).valid ==> LitConsts(acc, vs).diagnosed
    decreases |vs|
  {
    if vs != [] {
      LitConstsDiagnosed(LitConst(acc, vs[0]), vs[1..]);
    }
  }

  lemma StructLitDiagnosed(st: State, t: nat, lits: seq<LitField>)
    requires t in st.bindings && forall i | 0 <= i < |lits| :: lits[i].value in st.bindings
    requires Inv(st)
    ensures EvalStructLit(st, t, lits).value.PoisonV? ==> EvalStructLit(st, t, lits).st.diagnosed
  {
    if st.bindings[t].Comptime? && st.bindings[t].v.TypeVal? && st.bindings[t].v.ty.TStruct? {
      var fields := st.bindings[t].v.ty.fields;
      var valid := LitChecks(st, fields, lits);
      if valid {
        LitDiagnosed(st, Lit(st.types, st.diagnosed, [], [], [], false, valid), fields, lits);
      }
    }
  }

  lemma BuiltinDiagnosed(st: State, op: Op, args: seq<nat>)
    requires Inv(st) && AllBound(st, args)
    ensures op.Foldable? ==> var es := EvalFoldable(st, op.f, args);
                             es.exit == Fallthrough && es.value.PoisonV? ==> es.st.diagnosed
    ensures !op.Foldable? ==> var es := EvalRuntimeOnly(st, op, args);
                              es.exit == Fallthrough && es.value.PoisonV? ==> es.st.diagnosed
  {
    assert ArgTypes(st, args).Some?;
    hide ResultType;
  }

  lemma EqualDiagnosed(st: State, positive: bool, l: nat, r: nat)
    requires Inv(st) && l in st.bindings && r in st.bindings
    ensures var es := EvalEqual(st, positive, l, r); es.exit == Fallthrough && es.value.PoisonV? ==> es.st.diagnosed
  {
    hide EvalFoldable;
    BuiltinDiagnosed(st, Foldable(Evm.Eq), [l, r]);
  }

  /** From poison-free bindings a poisoned value comes with a diagnostic. */
  lemma PoisonIsDiagnosed(st: State, e: HExpr)
    requires Inv(st) && (e.HValue? ==> e.v.Some?)
    ensures var es := EvalExpr(st, e); es.exit == Fallthrough && es.value.PoisonV? ==> es.st.diagnosed
  {
    hide EvalStructLit, EvalFoldable, EvalRuntimeOnly, EvalEqual;
    if AllBound(st, Uses(e)) {
      match e
      case HStructLit(t, lits) =>
        assert Uses(e)[0] == t;
        assert forall i | 0 <= i < |lits| :: lits[i].value == Uses(e)[i + 1];
        StructLitDiagnosed(st, t, lits);
      case HBuiltin(op, args) => BuiltinDiagnosed(st, op, args);
      case HEqual(positive, l, r) =>
        assert Uses(e)[0] == l && Uses(e)[1] == r;
        EqualDiagnosed(st, positive, l, r);
      case HLocal(x) => assert Uses(e)[0] == x;
      case HNot(x) => assert Uses(e)[0] == x;
      case HMember(obj, _) => assert Uses(e)[0] == obj;
      case HSetQuota(x) => assert Uses(e)[0] == x;
      case _ =>
    }
  }

  ghost predicate Framed(st: State, st': State, keep: set<nat>) {
    forall x | x in keep && x in st.bindings :: SameBinding(st, st', x)
  }

  lemma StoreStatic(st: State, x: nat, value: EvalValue)
    requires Inv(st) && (value.PoisonV? ==> st.diagnosed)
    ensures Clean(StoreSet(st, x, value)) ==>
              Inv(StoreSet(st, x, value).st) && Framed(st, StoreSet(st, x, value).st, st.bindings.Keys - {x})
  {
  }

  lemma StoreMutStatic(st: State, x: nat, value: EvalValue)
    requires Inv(st) && (value.PoisonV? ==> st.diagnosed)
    ensures Clean(StoreMut(st, x, value)) ==>
              Inv(StoreMut(st, x, value).st) && Framed(st, StoreMut(st, x, value).st, st.bindings.Keys - {x})
  {
  }

  lemma StoreBranchStatic(st: State, x: nat, value: EvalValue)
    requires Inv(st) && (value.PoisonV? ==> st.diagnosed)
    ensures Clean(StoreBranch(st, x, value)) ==>
              Inv(StoreBranch(st, x, value).st) && Framed(st, StoreBranch(st, x, value).st, st.bindings.Keys - {x})
  {
  }

  lemma AnnotationStatic(st: State, ty: Option<nat>, value: EvalValue)
    requires Inv(st) && (ty.Some? ==> ty.value in st.bindings) && (value.PoisonV? ==> st.diagnosed)
    ensures Inv(CheckAnnotation(st, ty, value).st)
    ensures CheckAnnotation(st, ty, value).value.PoisonV? ==> CheckAnnotation(st, ty, value).st.diagnosed
  {
  }

  lemma SetStatic(st: State, x: nat, ty: Option<nat>, e: HExpr)
    requires Inv(st) && (e.HValue? ==> e.v.Some?)
    ensures Clean(EvalSet(st, x, ty, e)) ==>
              Inv(EvalSet(st, x, ty, e).st) && Framed(st, EvalSet(st, x, ty, e).st, st.bindings.Keys - {x})
  {
    PoisonIsDiagnosed(st, e);
    hide EvalExpr, StoreSet, CheckAnnotation;
    var es := EvalExpr(st, e);
    if es.exit == Fallthrough && (ty.Some? ==> ty.value in es.st.bindings) && Clean(EvalSet(st, x, ty, e)) {
      AnnotationStatic(es.st, ty, es.value);
      var c := CheckAnnotation(es.st, ty, es.value);
      StoreStatic(c.st, x, c.value);
    }
  }

  lemma SetMutStatic(st: State, x: nat, ty: Option<nat>, e: HExpr)
    requires Inv(st) && (e.HValue? ==> e.v.Some?)
    ensures Clean(EvalSetMut(st, x, ty, e)) ==>
              Inv(EvalSetMut(st, x, ty, e).st) && Framed(st, EvalSetMut(st, x, ty, e).st, st.bindings.Keys - {x})
  {
    PoisonIsDiagnosed(st, e);
    hide EvalExpr, StoreMut, CheckAnnotation;
    var es := EvalExpr(st, e);
    if es.exit == Fallthrough && (ty.Some? ==> ty.value in es.st.bindings) && Clean(EvalSetMut(st, x, ty, e)) {
      AnnotationStatic(es.st, ty, es.value);
      var c := CheckAnnotation(es.st, ty, es.value);
      StoreMutStatic(c.st, x, c.value);
    }
  }

  lemma BranchSetStatic(st: State, x: nat, e: HExpr)
    requires Inv(st) && (e.HValue? ==> e.v.Some?)
    requires Clean(EvalBranchSet(st, x, e))
    ensures Inv(EvalBranchSet(st, x, e).st)
    ensures Framed(st, EvalBranchSet(st, x, e).st, st.bindings.Keys - {x})
  {
    hide EvalExpr, EvalSet, StoreBranch;
    if !st.conditional {
      SetStatic(st, x, None, e);
    } else {
      PoisonIsDiagnosed(st, e);
      var es := EvalExpr(st, e);
      if es.exit == Fallthrough { StoreBranchStatic(es.st, x, es.value); }
    }
  }

  lemma AssignStatic(st: State, x: nat, e: HExpr)
    requires Inv(st) && (e.HValue? ==> e.v.Some?)
    requires Clean(EvalAssign(st, x, e))
    ensures Inv(EvalAssign(st, x, e).st)
    ensures Framed(st, EvalAssign(st, x, e).st, if st.comptime then st.bindings.Keys - {x} else st.bindings.Keys)
  {
    PoisonIsDiagnosed(st, e);
    hide EvalExpr;
  }

  /** The locals a block of this mode leaves bound as they were. */
  function Kept(vis: set<nat>, ct: bool, targets: set<nat>): set<nat> {
    if ct then vis - targets else vis
  }

  lemma {:induction false} SimpleStatic(st: State, vis: set<nat>, i: HInstr)
    requires !i.HIf? && !i.HWhile? && !i.HComptime?
    requires Inv(st) && Wf(vis, st.comptime, i) && Clean(EvalSimple(st, i))
    ensures Inv(EvalSimple(st, i).st)
    ensures Framed(st, EvalSimple(st, i).st, Kept(vis, st.comptime, InstrTargets(i)))
  {
    hide EvalSet, EvalSetMut, EvalBranchSet, EvalAssign, EvalEffect, EvalExpr;
    match i
    case HSet(x, ty, e) => SetStatic(st, x, ty, e);
    case HSetMut(x, ty, e) => SetMutStatic(st, x, ty, e);
    case HBranchSet(x, e) => BranchSetStatic(st, x, e);
    case HAssign(x, e) => AssignStatic(st, x, e);
    case HEval(e) => EffectStatic(st, e);
  }

  lemma EffectStatic(st: State, e: HExpr)
    requires Inv(st)
    ensures Inv(EvalEffect(st, e).st)
    ensures EvalEffect(st, e).st.bindings == st.bindings
  {
    hide EvalExpr;
  }

  /** A clean evaluation of a well-scoped block keeps the invariant and every binding that was visible before it. */
  lemma {:induction false} BlockStatic(st: State, vis: set<nat>, b: seq<HInstr>)
    requires Inv(st) && WfBlock(vis, st.comptime, b) && Clean(EvalBlock(st, b))
    ensures Inv(EvalBlock(st, b).st)
    ensures Framed(st, EvalBlock(st, b).st, Kept(vis, st.comptime, Targets(b)))
    decreases st.quota.Left(), b, 3
  {
    hide EvalInstr, Wf;
    if b != [] {
      var first := EvalInstr(st, b[0]);
      InstrStatic(st, vis, b[0]);
      if first.exit == Fallthrough {
        BlockStatic(first.st, After(vis, b[0]), b[1..]);
      }
    }
  }

  lemma {:induction false} InstrStatic(st: State, vis: set<nat>, i: HInstr)
    requires Inv(st) && Wf(vis, st.comptime, i) && Clean(EvalInstr(st, i))
    ensures Inv(EvalInstr(st, i).st)
    ensures Framed(st, EvalInstr(st, i).st, Kept(vis, st.comptime, InstrTargets(i)))
    decreases st.quota.Left(), i, 2
  {
    hide EvalBlock, EvalIf, EvalSimple, EvalRuntimeWhile, EvalComptimeWhile, WfBlock;
    match i
    case HIf(c, t, e) => IfStatic(st, vis, i);
    case HWhile(cb, c, body) =>
      if st.comptime { ComptimeWhileStatic(st, vis, i); } else { RuntimeWhileStatic(st, vis, i); }
    case HComptime(body) => BlockStatic(st.(comptime := true), vis, body);
    case _ => SimpleStatic(st, vis, i);
  }

  lemma {:induction false} IfStatic(st: State, vis: set<nat>, i: HInstr)
    requires i.HIf? && Inv(st) && Wf(vis, st.comptime, i) && Clean(EvalIf(st, i))
    ensures Inv(EvalIf(st, i).st)
    ensures Framed(st, EvalIf(st, i).st, Kept(vis, st.comptime, InstrTargets(i)))
    decreases st.quota.Left(), i, 1
  {
    hide EvalBlock, WfBlock, Joins;
    if i.condition in st.bindings {
      match st.bindings[i.condition]
      case Runtime(m) =>
        var st0 := st.(conditional := true);
        var t := EvalBlock(st0, i.thenBlock);
        var e := EvalBlock(t.st, i.elseBlock);
        BlockStatic(st0, vis, i.thenBlock);
        BlockStatic(t.st, vis, i.elseBlock);
      case Comptime(v) =>
        BlockStatic(st.(conditional := false), vis, if v.b then i.thenBlock else i.elseBlock);
    }
  }

  lemma {:induction false} RuntimeWhileStatic(st: State, vis: set<nat>, i: HInstr)
    requires i.HWhile? && !st.comptime && Inv(st) && Wf(vis, st.comptime, i) && Clean(EvalRuntimeWhile(st, i))
    ensures Inv(EvalRuntimeWhile(st, i).st)
    ensures Framed(st, EvalRuntimeWhile(st, i).st, vis)
    decreases st.quota.Left(), i, 1
  {
    hide EvalBlock, WfBlock;
    var cb := EvalBlock(st, i.conditionBlock);
    var c := LoopCondition(cb.st, i.condition);
    BlockStatic(st, vis, i.conditionBlock);
    BlockStatic(c.st, vis, i.body);
  }

  lemma {:induction false} ComptimeWhileStatic(st: State, vis: set<nat>, i: HInstr)
    requires i.HWhile? && st.comptime && Inv(st) && Wf(vis, st.comptime, i) && Clean(EvalComptimeWhile(st, i))
    ensures Inv(EvalComptimeWhile(st, i).st)
    ensures Framed(st, EvalComptimeWhile(st, i).st, Kept(vis, true, InstrTargets(i)))
    decreases st.quota.Left(), i, 1
  {
    hide EvalBlock, WfBlock;
    var cb := EvalBlock(st, i.conditionBlock);
    BlockStatic(st, vis, i.conditionBlock);
    match LoopDecision(cb.st, i.condition)
    case Stop(_, _) =>
    case Go(st') =>
      BlockStatic(st', vis, i.body);
      var body := EvalBlock(st', i.body);
      if body.exit == Fallthrough {
        ComptimeWhileStatic(body.st, vis, i);
      }
  }
}
