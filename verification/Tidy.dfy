/**
 * The two shapes the evaluator relies on, as conditions on the program text alone; with them every evaluation that
 * ends without a diagnostic preserves meaning.
 */
module Tidy {
  import opened Values
  import opened World
  import opened Mir
  import opened Hir
  import opened Quotas
  import opened Specialiser
  import opened Scoping
  import opened StaticProof
  import opened ExprProof
  import opened SimulationProof
  import opened Specialisation
  import Evm

  // ----- what the text says about locals -----

  /** Locals that are certainly known, and locals that are certainly in a MIR local of a type with run-time values. */
  datatype Facts = Facts(known: set<nat>, live: set<nat>)

  const NO_FACTS: Facts := Facts({}, {})

  predicate Solid(ty: Ty) {
    ty != TVoid && ty != TNever
  }

  /** Everything the value depends on is known. */
  predicate KnownExpr(f: Facts, e: HExpr) {
    match e
    case HValue(_) => true
    case HLocal(x) => x in f.known
    case HBuiltin(op, args) => op.Foldable? && forall i | 0 <= i < |args| :: args[i] in f.known
    case HEqual(_, l, r) => l in f.known && r in f.known
    case HNot(x) => x in f.known
    case HMember(obj, _) => obj in f.known
    case HInComptime => true
    case _ => false
  }

  /** The value comes from the machine: it depends on a run-time local, or on an operation that only exists there. */
  predicate LiveExpr(f: Facts, e: HExpr) {
    match e
    case HLocal(x) => x in f.live
    case HBuiltin(op, args) =>
      (match op
       case Foldable(_) => exists i | 0 <= i < |args| :: args[i] in f.live
       case RuntimeOnly(_, _, result) => Solid(result)
       case MLoad(_) => true
       case MStore(_) => false)
    case HEqual(_, l, r) => l in f.live || r in f.live
    case HNot(x) => x in f.live
    case _ => false
  }

  /** The value is of a type that has values at run time. */
  predicate SolidExpr(f: Facts, e: HExpr) {
    match e
    case HValue(v) => v.Some? && v.value != VoidVal
    case HBuiltin(op, _) => op.Foldable? || LiveExpr(f, e)
    case HEqual(_, _, _) => true
    case HNot(_) => true
    case HInComptime => true
    case _ => LiveExpr(f, e)
  }

  function FactsAfter(f: Facts, i: HInstr): Facts {
    match i
    case HSet(x, _, e) =>
      if KnownExpr(f, e) then f.(known := f.known + {x})
      else if LiveExpr(f, e) then f.(live := f.live + {x})
      else f
    case HSetMut(x, _, e) => if SolidExpr(f, e) then f.(live := f.live + {x}) else f
    case HBranchSet(x, e) => if LiveExpr(f, e) then f.(live := f.live + {x}) else f
    case _ => f
  }

  // ----- the conditions -----

  predicate ExprHaltsNever(e: HExpr) {
    e.HBuiltin? ==> !Halting(e.op)
  }

  /** Some course of the block ends control flow; for a run-time branch both arms have to. */
  predicate MayEnd(f: Facts, b: seq<HInstr>)
    decreases b
  {
    b != [] && (MayEndIn(f, b[0]) || MayEnd(FactsAfter(f, b[0]), b[1..]))
  }

  predicate MayEndIn(f: Facts, i: HInstr)
    decreases i
  {
    match i
    case HIf(c, t, e) => if c in f.live then MayEnd(f, t) && MayEnd(f, e) else MayEnd(f, t) || MayEnd(f, e)
    case HWhile(_, _, _) => false
    case HComptime(_) => false
    case _ => !ExprHaltsNever(i.e)
  }

  /** The arm sets `x` once: directly, or in both arms of a branch on a run-time condition, to any depth. */
  predicate Gives(f: Facts, b: seq<HInstr>, x: nat)
    decreases b
  {
    b != []
    && if x !in InstrTouches(b[0]) then Gives(FactsAfter(f, b[0]), b[1..], x)
       else x !in Touches(b[1..]) && GivesIn(f, b[0], x)
  }

  predicate GivesIn(f: Facts, i: HInstr, x: nat)
    decreases i
  {
    match i
    case HBranchSet(_, _) => true
    case HIf(c, t, e) => c in f.live && Gives(f, t, x) && Gives(f, e, x)
    case _ => false
  }

  /**
   * Both arms of a branch give its results, where no condition below one that may be run-time is known; and the
   * condition block of a loop goes on.
   */
  predicate TidyBlock(f: Facts, b: seq<HInstr>)
    decreases b
  {
    b == [] || (TidyInstr(f, b[0]) && TidyBlock(FactsAfter(f, b[0]), b[1..]))
  }

  predicate TidyInstr(f: Facts, i: HInstr)
    decreases i
  {
    match i
    case HIf(c, t, e) =>
      && TidyBlock(f, t) && TidyBlock(f, e)
      && (c in f.known || forall x | x in Joins(t) * Joins(e) :: Gives(f, t, x) && Gives(f, e, x))
    case HWhile(cb, _, body) => !MayEnd(f, cb) && TidyBlock(f, cb) && TidyBlock(f, body)
    case _ => true
  }

  // ----- what the text says is so -----

  predicate LiveAt(st: State, b: Binding) {
    b.Runtime? && b.m < |st.types| && Solid(st.types[b.m])
  }

  ghost predicate Sound(f: Facts, st: State) {
    && (forall x | x in f.known :: x in st.bindings && st.bindings[x].Comptime?)
    && (forall x | x in f.live :: x in st.bindings && LiveAt(st, st.bindings[x]))
  }

  predicate Within(f: Facts, vis: set<nat>) {
    f.known <= vis && f.live <= vis
  }

  lemma SoundStays(f: Facts, st: State, st': State, vis: set<nat>)
    requires Sound(f, st) && Within(f, vis) && Framed(st, st', vis) && Refines(st.types, st'.types)
    ensures Sound(f, st')
  {
    forall x | x in f.live ensures x in st'.bindings && LiveAt(st', st'.bindings[x]) {
      assert SameBinding(st, st', x);
    }
    forall x | x in f.known ensures x in st'.bindings && st'.bindings[x].Comptime? {
      assert SameBinding(st, st', x);
    }
  }

  lemma FoldedType(op: Op, tys: seq<Ty>, ty: Ty)
    requires ResultType(op, tys) == Some(ty)
    ensures op.Foldable? ==> Solid(ty)
    ensures op.RuntimeOnly? ==> ty == op.result
    ensures op.MLoad? ==> Solid(ty)
  {
    hide Matches, Signatures;
    var i :| 0 <= i < |Signatures(op)| && Matches(Signatures(op)[i], tys) && Signatures(op)[i].result == ty;
    SignatureType(op, i);
  }

  lemma SignatureType(op: Op, i: nat)
    requires i < |Signatures(op)|
    ensures op.Foldable? ==> Solid(Signatures(op)[i].result)
    ensures op.RuntimeOnly? ==> Signatures(op)[i].result == op.result
    ensures op.MLoad? ==> Solid(Signatures(op)[i].result)
  {
  }

  /** What a successful evaluation of an expression gave is as good as its value. */
  ghost predicate FoundAs(es: ExprStep, known: bool, live: bool, solid: bool) {
    es.exit == Fallthrough && !es.st.diagnosed ==>
      && !es.value.PoisonV?
      && (known ==> es.value.ComptimeV?)
      && (live ==> es.value.RuntimeV? && Solid(es.value.ty))
      && (solid ==> Solid(ValueType(es.value)))
  }

  lemma BuiltinFacts(st: State, op: Op, args: seq<nat>)
    requires Inv(st) && !st.comptime && AllBound(st, args)
    ensures op.Foldable? ==>
              FoundAs(EvalFoldable(st, op.f, args), forall i | 0 <= i < |args| :: st.bindings[args[i]].Comptime?,
                      exists i | 0 <= i < |args| :: st.bindings[args[i]].Runtime?, true)
    ensures !op.Foldable? ==>
              FoundAs(EvalRuntimeOnly(st, op, args), false, op.MLoad? || (op.RuntimeOnly? && Solid(op.result)), false)
  {
    hide MaterialiseAll, ResultType, Signatures;
    BuiltinDiagnosed(st, op, args);
    var tys := ArgTypes(st, args).value;
    if ResultType(op, tys).Some? { FoldedType(op, tys, ResultType(op, tys).value); }
  }

  lemma EqualFacts(st: State, positive: bool, l: nat, r: nat)
    requires Inv(st) && !st.comptime && l in st.bindings && r in st.bindings
    ensures FoundAs(EvalEqual(st, positive, l, r), st.bindings[l].Comptime? && st.bindings[r].Comptime?,
                    LiveAt(st, st.bindings[l]) || LiveAt(st, st.bindings[r]), true)
  {
    hide EvalFoldable, MaterialiseAll;
    EqualDiagnosed(st, positive, l, r);
    BuiltinFacts(st, Foldable(Evm.Eq), [l, r]);
    assert [l, r][0] == l && [l, r][1] == r;
  }

  lemma ExprFacts(f: Facts, st: State, e: HExpr)
    requires Inv(st) && !st.comptime && Sound(f, st) && (e.HValue? ==> e.v.Some? && WfValue(e.v.value))
    ensures FoundAs(EvalExpr(st, e), KnownExpr(f, e), LiveExpr(f, e), SolidExpr(f, e))
  {
    PoisonIsDiagnosed(st, e);
    hide EvalStructLit, EvalFoldable, EvalRuntimeOnly, EvalEqual, WfValue;
    if AllBound(st, Uses(e)) {
      match e
      case HValue(v) => NoNeverValue(v.value);
      case HBuiltin(op, args) => BuiltinFacts(st, op, args);
      case HEqual(positive, l, r) =>
        assert Uses(e)[0] == l && Uses(e)[1] == r;
        EqualFacts(st, positive, l, r);
      case HLocal(x) => assert Uses(e)[0] == x;
      case HNot(x) => assert Uses(e)[0] == x;
      case HMember(obj, _) => assert Uses(e)[0] == obj;
      case _ =>
    }
  }

  lemma StoreFacts(f: Facts, st: State, x: nat, value: EvalValue)
    requires !st.comptime && !value.PoisonV?
    ensures value.ComptimeV? ==> var r := StoreSet(st, x, value).st; x in r.bindings && r.bindings[x].Comptime?
    ensures value.RuntimeV? && Solid(value.ty) ==>
            var r := StoreSet(st, x, value).st; x in r.bindings && LiveAt(r, r.bindings[x])
    ensures Solid(ValueType(value)) && !StoreMut(st, x, value).st.diagnosed ==>
              var r := StoreMut(st, x, value).st; x in r.bindings && LiveAt(r, r.bindings[x])
    ensures value.RuntimeV? && Solid(value.ty) && Clean(StoreBranch(st, x, value)) && Inv(st) ==>
              var r := StoreBranch(st, x, value).st; x in r.bindings && LiveAt(r, r.bindings[x])
  {
    hide StepKeeps, Quiet, ComptimeOnly;
  }

  /** The local an instruction introduces is what the text says. */
  ghost predicate Introduced(f: Facts, i: HInstr, st: State)
    requires i.HSet? || i.HSetMut? || i.HBranchSet?
  {
    && (i.HSet? && KnownExpr(f, i.e) ==> i.local in st.bindings && st.bindings[i.local].Comptime?)
    && (i.HSet? && !KnownExpr(f, i.e) && LiveExpr(f, i.e) ==>
        i.local in st.bindings && LiveAt(st, st.bindings[i.local]))
    && (i.HSetMut? && SolidExpr(f, i.e) ==> i.local in st.bindings && LiveAt(st, st.bindings[i.local]))
    && (i.HBranchSet? && LiveExpr(f, i.e) ==> i.local in st.bindings && LiveAt(st, st.bindings[i.local]))
  }

  lemma SoundAdds(f: Facts, st: State, i: HInstr, vis: set<nat>)
    requires (i.HSet? || i.HSetMut? || i.HBranchSet?) && Sound(f, st) && Introduced(f, i, st) && Within(f, vis)
    ensures Sound(FactsAfter(f, i), st) && Within(FactsAfter(f, i), After(vis, i))
  {
    hide KnownExpr, LiveExpr, SolidExpr, LiveAt;
  }

  /** What is said about a local right after the instruction that introduces it. */
  lemma {:induction false} IntroducedFacts(f: Facts, st: State, i: HInstr)
    requires Inv(st) && !st.comptime && Sound(f, st) && (i.HSet? || i.HSetMut? || i.HBranchSet?)
    requires i.e.HValue? ==> i.e.v.Some? && WfValue(i.e.v.value)
    requires Clean(EvalSimple(st, i)) && EvalSimple(st, i).exit == Fallthrough
    ensures Introduced(f, i, EvalSimple(st, i).st)
  {
    ExprFacts(f, st, i.e);
    hide EvalExpr, StoreSet, StoreMut, StoreBranch, KnownExpr, LiveExpr, SolidExpr, WfValue, StepKeeps, Quiet, LiveAt,
      Inv,
      CheckAnnotation, Sound;
    var es := EvalExpr(st, i.e);
    assert Keeps(st, es.st);
    if es.exit == Fallthrough && !es.value.PoisonV? && !es.st.diagnosed {
      InvLater(st, es.st);
      StoreFacts(f, es.st, i.local, es.value);
      if !i.HBranchSet? && (i.ty.Some? ==> i.ty.value in es.st.bindings) { AnnotationStatic(es.st, i.ty, es.value); }
    }
  }

  lemma InvLater(st: State, st': State)
    requires Inv(st) && Keeps(st, st')
    ensures Inv(st')
  {
  }

  lemma {:induction false} SoundAfter(f: Facts, st: State, vis: set<nat>, i: HInstr)
    requires Inv(st) && !st.comptime && Wf(vis, false, i) && Sound(f, st) && Within(f, vis)
    requires Clean(EvalInstr(st, i)) && EvalInstr(st, i).exit == Fallthrough
    ensures Sound(FactsAfter(f, i), EvalInstr(st, i).st) && Within(FactsAfter(f, i), After(vis, i))
  {
    InstrStatic(st, vis, i);
    hide Inv, Sound, EvalBlock, EvalIf, EvalSimple, EvalRuntimeWhile, EvalComptimeWhile, Introduced, WfBlock, Joins,
      Results,
      Targets, FactsAfter;
    SoundStays(f, st, EvalInstr(st, i).st, vis);
    if i.HSet? || i.HSetMut? || i.HBranchSet? {
      IntroducedFacts(f, st, i);
      SoundAdds(f, EvalInstr(st, i).st, i, vis);
    } else {
      NothingAdded(f, i, vis);
    }
  }

  lemma NothingAdded(f: Facts, i: HInstr, vis: set<nat>)
    requires !i.HSet? && !i.HSetMut? && !i.HBranchSet? && Within(f, vis)
    ensures FactsAfter(f, i) == f && Within(f, After(vis, i))
  {
  }

  // ----- a block that may not end does not end -----

  lemma NotNever(op: Op, tys: seq<Ty>)
    ensures ResultType(op, tys) == Some(TNever) ==> Halting(op)
  {
    hide Matches, Signatures;
    if ResultType(op, tys) == Some(TNever) {
      var i :| 0 <= i < |Signatures(op)| && Matches(Signatures(op)[i], tys) && Signatures(op)[i].result == TNever;
      NeverResult(op, i);
    }
  }

  lemma NeverResult(op: Op, i: nat)
    requires i < |Signatures(op)| && Signatures(op)[i].result == TNever
    ensures Halting(op)
  {
  }

  lemma BuiltinGoesOn(st: State, op: Op, args: seq<nat>)
    requires AllBound(st, args) && !Halting(op)
    ensures op.Foldable? ==> EvalFoldable(st, op.f, args).exit != BlockEnd
    ensures EvalRuntimeOnly(st, op, args).exit != BlockEnd
  {
    hide MaterialiseAll, ResultType, FoldValue, Known;
    match ArgTypes(st, args)
    case Some(tys) => NotNever(op, tys);
    case None =>
  }

  lemma ExprGoesOn(st: State, e: HExpr)
    requires ExprHaltsNever(e)
    ensures EvalExpr(st, e).exit != BlockEnd
  {
    hide EvalFoldable, EvalRuntimeOnly, EvalStructLit, MaterialiseAll;
    if AllBound(st, Uses(e)) {
      match e
      case HBuiltin(op, args) => BuiltinGoesOn(st, op, args);
      case HEqual(positive, l, r) =>
        assert Uses(e)[0] == l && Uses(e)[1] == r;
        BuiltinGoesOn(st, Foldable(Evm.Eq), [l, r]);
      case HStructLit(t, lits) =>
        assert Uses(e)[0] == t;
        assert forall i | 0 <= i < |lits| :: lits[i].value == Uses(e)[i + 1];
        LiteralGoesOn(st, t, lits);
      case HLocal(x) => assert Uses(e)[0] == x;
      case HNot(x) => assert Uses(e)[0] == x;
      case HMember(obj, _) => assert Uses(e)[0] == obj;
      case HSetQuota(x) => assert Uses(e)[0] == x;
      case _ =>
    }
  }

  lemma LiteralGoesOn(st: State, t: nat, lits: seq<LitField>)
    requires t in st.bindings && forall i | 0 <= i < |lits| :: lits[i].value in st.bindings
    ensures EvalStructLit(st, t, lits).exit != BlockEnd
  {
    hide LitFields, LitChecks;
  }

  lemma {:induction false} SimpleGoesOn(st: State, i: HInstr)
    requires !i.HIf? && !i.HWhile? && !i.HComptime? && ExprHaltsNever(i.e)
    ensures EvalSimple(st, i).exit != BlockEnd
  {
    hide EvalExpr, ExprHaltsNever;
    ExprGoesOn(st, i.e);
  }

  /** The first instruction of a cleanly evaluated block, and what is left of it. */
  lemma {:induction false} CleanHead(st: State, vis: set<nat>, b: seq<HInstr>)
    requires b != [] && Inv(st) && WfBlock(vis, st.comptime, b) && Clean(EvalBlock(st, b))
    ensures var first := EvalInstr(st, b[0]);
            && Clean(first) && Inv(first.st)
            && first.st.comptime == st.comptime && first.st.conditional == st.conditional
            && (first.exit == Fallthrough ==>
                  Clean(EvalBlock(first.st, b[1..])) && EvalBlock(st, b).st == EvalBlock(first.st, b[1..]).st
                  && EvalBlock(st, b).exit == EvalBlock(first.st, b[1..]).exit)
            && (first.exit != Fallthrough ==> EvalBlock(st, b) == first)
  {
    hide EvalInstr, Wf, Inv;
    InvQuota(st);
    InstrStatic(st, vis, b[0]);
  }

  lemma InvQuota(st: State)
    requires Inv(st)
    ensures st.quota.Valid()
  {
  }

  /** A block none of whose courses ends control flow does not end it when it is evaluated. */
  lemma {:induction false} BlockGoesOn(f: Facts, st: State, vis: set<nat>, b: seq<HInstr>)
    requires Inv(st) && !st.comptime && WfBlock(vis, false, b) && Sound(f, st) && Within(f, vis)
    requires Clean(EvalBlock(st, b)) && !MayEnd(f, b)
    ensures EvalBlock(st, b).exit == Fallthrough
    decreases st.quota.Left(), b, 3
  {
    hide EvalInstr, MayEndIn, Wf, Inv, Sound;
    InvQuota(st);
    if b != [] {
      CleanHead(st, vis, b);
      InstrGoesOn(f, st, vis, b[0]);
      var first := EvalInstr(st, b[0]);
      SoundAfter(f, st, vis, b[0]);
      InvQuota(first.st);
      BlockGoesOn(FactsAfter(f, b[0]), first.st, After(vis, b[0]), b[1..]);
    }
  }

  lemma {:induction false} InstrGoesOn(f: Facts, st: State, vis: set<nat>, i: HInstr)
    requires Inv(st) && !st.comptime && Wf(vis, false, i) && Sound(f, st) && Within(f, vis)
    requires Clean(EvalInstr(st, i)) && !MayEndIn(f, i)
    ensures EvalInstr(st, i).exit == Fallthrough
    decreases st.quota.Left(), i, 2
  {
    hide EvalBlock, EvalSimple, EvalIf, MayEnd, WfBlock, LoopCondition;
    match i
    case HIf(c, t, e) => IfGoesOn(f, st, vis, i);
    case HWhile(cb, c, body) =>
    case HComptime(body) =>
    case _ => SimpleGoesOn(st, i);
  }

  lemma {:induction false} IfGoesOn(f: Facts, st: State, vis: set<nat>, i: HInstr)
    requires i.HIf? && Inv(st) && !st.comptime && Wf(vis, false, i) && Sound(f, st) && Within(f, vis)
    requires Clean(EvalIf(st, i)) && !MayEndIn(f, i)
    ensures EvalIf(st, i).exit == Fallthrough
    decreases st.quota.Left(), i, 1
  {
    hide EvalBlock, MayEnd, WfBlock, Joins;
    match st.bindings[i.condition]
    case Runtime(m) =>
      var st0 := st.(conditional := true);
      var t := EvalBlock(st0, i.thenBlock);
      BlockStatic(st0, vis, i.thenBlock);
      SoundStays(f, st, t.st, vis);
      if !MayEnd(f, i.thenBlock) {
        BlockGoesOn(f, st0, vis, i.thenBlock);
      } else {
        BlockGoesOn(f, t.st, vis, i.elseBlock);
      }
    case Comptime(v) => BlockGoesOn(f, st.(conditional := false), vis, if v.b then i.thenBlock else i.elseBlock);
  }

  // ----- what a block does not touch stays -----

  predicate SameAt(a: State, b: State, x: nat) {
    (x in b.bindings <==> x in a.bindings) && (x in a.bindings ==> b.bindings[x] == a.bindings[x])
  }

  lemma StoresLeave(st: State, y: nat, value: EvalValue, x: nat)
    requires x != y
    ensures SameAt(st, StoreSet(st, y, value).st, x)
    ensures SameAt(st, StoreMut(st, y, value).st, x)
    ensures SameAt(st, StoreBranch(st, y, value).st, x)
    ensures y in st.bindings ==> SameAt(st, AssignChecked(st, y, value).st, x)
  {
    hide BindFresh;
    if !value.ComptimeV? { FreshLeaves(st, y, value, x); }
    FreshLeaves(ToRuntime(st, value).st, y, ToRuntime(st, value).value, x);
    hide StepKeeps, Quiet, ComptimeOnly, Unify, Assignable, ToRuntime, Rejoin, BindComptime, AssignChecked, TypeAt,
      TypeOf;
    JoinLeaves(st, y, value, x);
    JoinLeaves(st, y, ToRuntime(st, value).value, x);
    JoinLeaves(ToRuntime(st, value).st, y, ToRuntime(st, value).value, x);
    if y in st.bindings { AssignLeaves(st, y, value, x); }
  }

  lemma FreshLeaves(st: State, y: nat, value: EvalValue, x: nat)
    requires x != y && !value.ComptimeV?
    ensures SameAt(st, BindFresh(st, y, value).st, x)
  {
    hide StepKeeps;
  }

  lemma JoinLeaves(st: State, y: nat, value: EvalValue, x: nat)
    requires x != y
    ensures SameAt(st, BindComptime(st, y, value), x)
    ensures y in st.bindings && !value.ComptimeV? ==> SameAt(st, Rejoin(st, y, value).st, x)
  {
    hide StepKeeps, Unify;
  }

  lemma AssignLeaves(st: State, y: nat, value: EvalValue, x: nat)
    requires x != y && y in st.bindings
    ensures SameAt(st, AssignChecked(st, y, value).st, x)
  {
    hide StepKeeps, Quiet, ToRuntime, Assignable, TypeAt;
  }

  lemma {:induction false} SimpleLeaves(st: State, i: HInstr, x: nat)
    requires !i.HIf? && !i.HWhile? && !i.HComptime? && x !in InstrTouches(i)
    ensures SameAt(st, EvalSimple(st, i).st, x)
  {
    hide EvalExpr, StoreSet, StoreMut, StoreBranch, AssignChecked, CheckAnnotation, StepKeeps, Keeps, Quiet;
    var es := EvalExpr(st, i.e);
    assert es.st.bindings == st.bindings by { ExprKeepsBindings(st, i.e); }
    match i
    case HSet(y, ty, e) => AnnotatedLeaves(es.st, y, ty, es.value, x);
    case HSetMut(y, ty, e) => AnnotatedLeaves(es.st, y, ty, es.value, x);
    case HBranchSet(y, e) =>
      StoresLeave(es.st, y, es.value, x);
      AnnotatedLeaves(es.st, y, None, es.value, x);
    case HAssign(y, e) => StoresLeave(es.st, y, es.value, x);
    case HEval(_) =>
  }

  lemma AnnotatedLeaves(st: State, y: nat, ty: Option<nat>, value: EvalValue, x: nat)
    requires x != y
    ensures (ty.Some? ==> ty.value in st.bindings) ==>
              SameAt(st, StoreSet(CheckAnnotation(st, ty, value).st, y, CheckAnnotation(st, ty, value).value).st, x)
              && SameAt(st, StoreMut(CheckAnnotation(st, ty, value).st, y, CheckAnnotation(st, ty, value).value).st, x)
  {
    hide StoreSet, StoreMut, StoreBranch, AssignChecked, CheckAnnotation;
    if ty.None? || ty.value in st.bindings {
      var c := CheckAnnotation(st, ty, value);
      StoresLeave(c.st, y, c.value, x);
    }
  }

  lemma {:induction false} BlockLeaves(st: State, b: seq<HInstr>, x: nat)
    requires st.quota.Valid() && x !in Touches(b)
    ensures var r := EvalBlock(st, b); SameAt(st, r.st, x)
    decreases st.quota.Left(), b, 3
  {
    hide EvalInstr;
    if b != [] {
      InstrLeaves(st, b[0], x);
      var first := EvalInstr(st, b[0]);
      if first.exit == Fallthrough { BlockLeaves(first.st, b[1..], x); }
    }
  }

  lemma {:induction false} InstrLeaves(st: State, i: HInstr, x: nat)
    requires st.quota.Valid() && x !in InstrTouches(i)
    ensures var r := EvalInstr(st, i); SameAt(st, r.st, x)
    decreases st.quota.Left(), i, 2
  {
    hide EvalBlock, EvalSimple, Joins, EvalComptimeWhile, EvalRuntimeWhile;
    match i
    case HIf(c, t, e) =>
      if c in st.bindings {
        match st.bindings[c]
        case Runtime(m) =>
          BlockLeaves(st.(conditional := true), t, x);
          BlockLeaves(EvalBlock(st.(conditional := true), t).st, e, x);
        case Comptime(v) => BlockLeaves(st.(conditional := false), if v.Boolean? && v.b then t else e, x);
        case Poison =>
      }
    case HWhile(cb, c, body) => WhileLeaves(st, i, x);
    case HComptime(body) => BlockLeaves(st.(comptime := true), body, x);
    case _ => SimpleLeaves(st, i, x);
  }

  lemma {:induction false} WhileLeaves(st: State, i: HInstr, x: nat)
    requires i.HWhile? && st.quota.Valid() && x !in InstrTouches(i)
    ensures var r := if st.comptime then EvalComptimeWhile(st, i) else EvalRuntimeWhile(st, i); SameAt(st, r.st, x)
    decreases st.quota.Left(), i, 1
  {
    hide EvalBlock;
    BlockLeaves(st, i.conditionBlock, x);
    var cb := EvalBlock(st, i.conditionBlock);
    if st.comptime {
      match LoopDecision(cb.st, i.condition)
      case Stop(_, _) =>
      case Go(st') =>
        if cb.exit == Fallthrough {
          BlockLeaves(st', i.body, x);
          var body := EvalBlock(st', i.body);
          if body.exit == Fallthrough { WhileLeaves(body.st, i, x); }
        }
    } else {
      BlockLeaves(LoopCondition(cb.st, i.condition).st, i.body, x);
    }
  }

  // ----- arms that give their results directly -----

  /** In a conditional arm a branch result gets a MIR local, and a later one keeps it. */
  lemma ArmSets(st: State, x: nat, e: HExpr)
    requires Inv(st) && !st.comptime && st.conditional && (e.HValue? ==> e.v.Some?)
    requires Clean(EvalBranchSet(st, x, e))
    ensures EvalBranchSet(st, x, e).exit == Fallthrough ==> x in EvalBranchSet(st, x, e).st.bindings
    ensures x in st.bindings ==> SameBinding(st, EvalBranchSet(st, x, e).st, x)
  {
    PoisonIsDiagnosed(st, e);
    hide EvalExpr;
  }

  /** An arm that gives `x` and falls through leaves it bound. */
  lemma {:induction false} ArmBinds(f: Facts, st: State, vis: set<nat>, b: seq<HInstr>, x: nat)
    requires Inv(st) && !st.comptime && st.conditional && WfBlock(vis, false, b) && Gives(f, b, x)
    requires Sound(f, st) && Within(f, vis)
    requires Clean(EvalBlock(st, b)) && EvalBlock(st, b).exit == Fallthrough
    ensures x in EvalBlock(st, b).st.bindings
    decreases b, 1
  {
    hide EvalBlock, EvalInstr, Inv, Sound, Wf, InstrTouches, GivesIn;
    InvQuota(st);
    CleanHead(st, vis, b);
    var first := EvalInstr(st, b[0]);
    InvQuota(first.st);
    if x !in InstrTouches(b[0]) {
      SoundAfter(f, st, vis, b[0]);
      ArmBinds(FactsAfter(f, b[0]), first.st, After(vis, b[0]), b[1..], x);
    } else {
      InstrBinds(f, st, vis, b[0], x);
      BlockLeaves(first.st, b[1..], x);
    }
  }

  lemma {:induction false} InstrBinds(f: Facts, st: State, vis: set<nat>, i: HInstr, x: nat)
    requires Inv(st) && !st.comptime && st.conditional && Wf(vis, false, i) && x in InstrTouches(i) && GivesIn(f, i, x)
    requires Sound(f, st) && Within(f, vis)
    requires Clean(EvalInstr(st, i)) && EvalInstr(st, i).exit == Fallthrough
    ensures x in EvalInstr(st, i).st.bindings
    decreases i, 0
  {
    hide EvalBlock, EvalBranchSet, WfBlock, Gives, Joins;
    match i
    case HBranchSet(_, e) => ArmSets(st, x, e);
    case HIf(c, t, e) =>
      var tr := EvalBlock(st, t);
      assert st.(conditional := true) == st;
      ArmStatic(f, st, vis, t);
      if tr.exit == Fallthrough {
        ArmBinds(f, st, vis, t, x);
        ArmRebinds(f, tr.st, vis, e, x);
      } else {
        ArmBinds(f, tr.st, vis, e, x);
      }
  }

  lemma {:induction false} ArmStatic(f: Facts, st: State, vis: set<nat>, b: seq<HInstr>)
    requires Inv(st) && !st.comptime && WfBlock(vis, false, b) && Sound(f, st) && Within(f, vis)
             && Clean(EvalBlock(st, b))
    ensures Inv(EvalBlock(st, b).st) && Sound(f, EvalBlock(st, b).st)
  {
    BlockStatic(st, vis, b);
    hide EvalBlock, WfBlock, Inv;
    SoundStays(f, st, EvalBlock(st, b).st, vis);
  }

  lemma {:induction false} BranchSetInstr(st: State, i: HInstr)
    requires i.HBranchSet? && st.quota.Valid()
    ensures EvalInstr(st, i) == EvalBranchSet(st, i.local, i.e)
  {
    hide EvalBranchSet;
  }

  /** A later arm leaves `x` bound as the first arm did. */
  lemma {:induction false} ArmRebinds(f: Facts, st: State, vis: set<nat>, b: seq<HInstr>, x: nat)
    requires Inv(st) && !st.comptime && st.conditional && WfBlock(vis, false, b) && Gives(f, b, x)
    requires Sound(f, st) && Within(f, vis)
    requires Clean(EvalBlock(st, b)) && x in st.bindings
    ensures SameBinding(st, EvalBlock(st, b).st, x)
    decreases b, 1
  {
    hide EvalBlock, EvalInstr, Inv, Sound, Wf, InstrTouches, GivesIn;
    InvQuota(st);
    CleanHead(st, vis, b);
    var first := EvalInstr(st, b[0]);
    InvQuota(first.st);
    if x !in InstrTouches(b[0]) {
      InstrLeaves(st, b[0], x);
      if first.exit == Fallthrough {
        SoundAfter(f, st, vis, b[0]);
        ArmRebinds(FactsAfter(f, b[0]), first.st, After(vis, b[0]), b[1..], x);
      }
    } else {
      InstrRebinds(f, st, vis, b[0], x);
      BlockLeaves(first.st, b[1..], x);
    }
  }

  lemma {:induction false} InstrRebinds(f: Facts, st: State, vis: set<nat>, i: HInstr, x: nat)
    requires Inv(st) && !st.comptime && st.conditional && Wf(vis, false, i) && x in InstrTouches(i) && GivesIn(f, i, x)
    requires Sound(f, st) && Within(f, vis)
    requires Clean(EvalInstr(st, i)) && x in st.bindings
    ensures SameBinding(st, EvalInstr(st, i).st, x)
    decreases i, 0
  {
    hide EvalBlock, EvalBranchSet, WfBlock, Gives, Joins;
    match i
    case HBranchSet(_, e) => ArmSets(st, x, e);
    case HIf(c, t, e) =>
      var tr := EvalBlock(st, t);
      assert st.(conditional := true) == st;
      ArmStatic(f, st, vis, t);
      ArmRebinds(f, st, vis, t, x);
      ArmRebinds(f, tr.st, vis, e, x);
  }

  // ----- nothing is lost -----

  /** What is asked of a block: nothing in comptime mode, where no code is emitted. */
  ghost predicate Tidied(f: Facts, st: State, vis: set<nat>, b: seq<HInstr>) {
    st.comptime || (TidyBlock(f, b) && Sound(f, st) && Within(f, vis))
  }

  /** A tidy, well-scoped block that is accepted without a diagnostic loses nothing. */
  lemma {:induction false} TidyLosesNothing(f: Facts, st: State, vis: set<nat>, b: seq<HInstr>)
    requires Inv(st) && !st.lossy && WfBlock(vis, st.comptime, b) && Tidied(f, st, vis, b) && Accepted(EvalBlock(st, b))
    ensures Clean(EvalBlock(st, b))
    decreases st.quota.Left(), b, 3
  {
    hide EvalInstr, Wf, TidyInstr, Sound;
    if b != [] {
      InstrLosesNothing(f, st, vis, b[0]);
      var first := EvalInstr(st, b[0]);
      InstrStatic(st, vis, b[0]);
      if first.exit == Fallthrough {
        if !st.comptime { SoundAfter(f, st, vis, b[0]); }
        TidyLosesNothing(FactsAfter(f, b[0]), first.st, After(vis, b[0]), b[1..]);
      }
    }
  }

  lemma {:induction false} InstrLosesNothing(f: Facts, st: State, vis: set<nat>, i: HInstr)
    requires Inv(st) && !st.lossy && Wf(vis, st.comptime, i) && Accepted(EvalInstr(st, i))
    requires st.comptime || (TidyInstr(f, i) && Sound(f, st) && Within(f, vis))
    ensures Clean(EvalInstr(st, i))
    decreases st.quota.Left(), i, 2
  {
    hide EvalBlock, EvalExpr, EvalIf, EvalComptimeWhile, EvalRuntimeWhile, EvalSimple, WfBlock, Joins, Gives, MayEnd,
      TidyBlock;
    match i
    case HIf(c, t, e) => IfLosesNothing(f, st, vis, i);
    case HWhile(cb, c, body) =>
      if st.comptime { ComptimeWhileLosesNothing(st, vis, i); } else { RuntimeWhileLosesNothing(f, st, vis, i); }
    case HComptime(body) => TidyLosesNothing(f, st.(comptime := true), vis, body);
    case _ => SimpleLosesNothing(st, i);
  }

  lemma SimpleLosesNothing(st: State, i: HInstr)
    requires !i.HIf? && !i.HWhile? && !i.HComptime? && !st.lossy
    ensures !EvalSimple(st, i).st.lossy
  {
    hide EvalExpr;
    var es := EvalExpr(st, i.e);
    assert es.st.lossy == st.lossy;
  }

  lemma {:induction false} IfLosesNothing(f: Facts, st: State, vis: set<nat>, i: HInstr)
    requires i.HIf? && Inv(st) && !st.lossy && Wf(vis, st.comptime, i) && Accepted(EvalIf(st, i))
    requires st.comptime || (TidyInstr(f, i) && Sound(f, st) && Within(f, vis))
    ensures Clean(EvalIf(st, i))
    decreases st.quota.Left(), i, 1
  {
    hide EvalBlock, WfBlock, Joins, Gives, TidyBlock;
    match st.bindings[i.condition]
    case Runtime(m) =>
      var st0 := st.(conditional := true);
      var t := EvalBlock(st0, i.thenBlock);
      var e := EvalBlock(t.st, i.elseBlock);
      TidyLosesNothing(f, st0, vis, i.thenBlock);
      ArmStatic(f, st0, vis, i.thenBlock);
      TidyLosesNothing(f, t.st, vis, i.elseBlock);
      if t.exit == Fallthrough {
        forall x | x in Joins(i.thenBlock) * Joins(i.elseBlock) ensures SameBinding(t.st, e.st, x) {
          ArmBinds(f, st0, vis, i.thenBlock, x);
          ArmRebinds(f, t.st, vis, i.elseBlock, x);
        }
      }
    case Comptime(v) =>
      TidyLosesNothing(f, st.(conditional := false), vis, if v.b then i.thenBlock else i.elseBlock);
  }

  lemma {:induction false} RuntimeWhileLosesNothing(f: Facts, st: State, vis: set<nat>, i: HInstr)
    requires i.HWhile? && !st.comptime && Inv(st) && !st.lossy && Wf(vis, false, i) && TidyInstr(f, i)
    requires Sound(f, st) && Within(f, vis) && Accepted(EvalRuntimeWhile(st, i))
    ensures Clean(EvalRuntimeWhile(st, i))
    decreases st.quota.Left(), i, 1
  {
    hide EvalBlock, WfBlock, MayEnd, TidyBlock;
    TidyLosesNothing(f, st, vis, i.conditionBlock);
    BlockGoesOn(f, st, vis, i.conditionBlock);
    ArmStatic(f, st, vis, i.conditionBlock);
    var cb := EvalBlock(st, i.conditionBlock);
    var c := LoopCondition(cb.st, i.condition);
    SoundStays(f, cb.st, c.st, vis);
    TidyLosesNothing(f, c.st, vis, i.body);
  }

  lemma {:induction false} ComptimeWhileLosesNothing(st: State, vis: set<nat>, i: HInstr)
    requires i.HWhile? && st.comptime && Inv(st) && !st.lossy && Wf(vis, true, i) && Accepted(EvalComptimeWhile(st, i))
    ensures Clean(EvalComptimeWhile(st, i))
    decreases st.quota.Left(), i, 1
  {
    hide EvalBlock, WfBlock, TidyBlock;
    TidyLosesNothing(NO_FACTS, st, vis, i.conditionBlock);
    BlockStatic(st, vis, i.conditionBlock);
    var cb := EvalBlock(st, i.conditionBlock);
    if cb.exit == Fallthrough {
      match LoopDecision(cb.st, i.condition)
      case Stop(_, _) =>
      case Go(st') =>
        TidyLosesNothing(NO_FACTS, st', vis, i.body);
        BlockStatic(st', vis, i.body);
        var body := EvalBlock(st', i.body);
        if body.exit == Fallthrough { ComptimeWhileLosesNothing(body.st, vis, i); }
    }
  }

  /**
   * Specialisation preserves meaning, with every condition either on the program text or on the evaluator's own
   * verdict: a tidy, well-scoped block that is accepted without a diagnostic and its residual code, run from related
   * stores, end in the same way, in both directions.
   */
  lemma AcceptedIsPreserved(env: Env, T: seq<Ty>, f: Facts, st: State, vis: set<nat>, b: seq<HInstr>, hs: Store,
                            ms: Store, w: World)
    requires Inv(st) && !st.lossy && Rel(st, vis, hs, ms) && WfBlock(vis, st.comptime, b) && Tidied(f, st, vis, b)
    requires Accepted(EvalBlock(st, b)) && Refines(EvalBlock(st, b).st.types, T)
    ensures var r := EvalBlock(st, b);
            forall F: nat :: !HRun(env, F, st.comptime, hs, w, b).OutOfFuel? ==>
              Agree(HRun(env, F, st.comptime, hs, w, b), Run(env, T, F, ms, w, r.code), r, AfterBlock(vis, b))
    ensures var r := EvalBlock(st, b);
            forall n: nat :: !Run(env, T, n, ms, w, r.code).OutOfFuel? ==>
              Agree(HRun(env, n + r.st.quota.spent - st.quota.spent + 1, st.comptime, hs, w, b),
                    Run(env, T, n, ms, w, r.code), r, AfterBlock(vis, b))
  {
    TidyLosesNothing(f, st, vis, b);
    SpecialisationPreservesMeaning(env, T, st, vis, b, hs, ms, w);
  }
}
