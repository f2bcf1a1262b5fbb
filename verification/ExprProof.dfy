/** Expressions: the code emitted for one, followed by its residual expression, computes its HIR value. */
module ExprProof {
  import opened Values
  import opened World
  import opened Mir
  import opened Hir
  import opened Quotas
  import opened Specialiser
  import opened Scoping
  import opened StaticProof
  import Evm

  /** The MIR store `ms` holds what the bindings say about the visible part of the HIR store `hs`. */
  ghost predicate Rel(st: State, vis: set<nat>, hs: Store, ms: Store) {
    forall x | x in vis :: x in st.bindings && x in hs && WfValue(hs[x]) && Holds(st, st.bindings[x], hs[x], ms)
  }

  ghost predicate Holds(st: State, b: Binding, v: Value, ms: Store) {
    match b
    case Poison => false
    case Comptime(c) => c == v
    case Runtime(m) => m < |st.types| && m in ms && ms[m] == v && TypeOf(v) == st.types[m]
  }

  lemma {:induction false} NoNeverValue(v: Value)
    requires WfValue(v)
    ensures TypeOf(v) != TNever
  {
  }

  /** Two MIR stores that agree on the locals below `n`. */
  ghost predicate Same(a: Store, b: Store, n: nat) {
    forall m | 0 <= m < n :: (m in a <==> m in b) && (m in a ==> a[m] == b[m])
  }

  lemma RelStable(st: State, st': State, vis: set<nat>, hs: Store, ms: Store, ms': Store)
    requires Rel(st, vis, hs, ms) && Same(ms, ms', |st.types|) && Refines(st.types, st'.types)
    requires forall x | x in vis :: x in st'.bindings && st'.bindings[x] == st.bindings[x]
    ensures Rel(st', vis, hs, ms')
  {
    forall x | x in vis
      ensures x in st'.bindings && x in hs && WfValue(hs[x]) && Holds(st', st'.bindings[x], hs[x], ms')
    {
      assert Holds(st, st.bindings[x], hs[x], ms);
      NoNeverValue(hs[x]);
    }
  }

  /** What running the emitted code must achieve for the expression to mean `h`. */
  ghost predicate Simulates(env: Env, T: seq<Ty>, fuel: nat, st: State, ms: Store, w: World, es: ExprStep, h: Out) {
    var m := Run(env, T, fuel, ms, w, es.code);
    if es.exit == BlockEnd then h.Halt? && m == Halted(h.w)
    else
      && m.Normal? && m.w == w && Same(ms, m.s, |st.types|)
      && h.Val? && WfValue(h.v)
      && match es.value
         case PoisonV => false
         case ComptimeV(v) => h == Val(v, w)
         case RuntimeV(e, ty) => Eval(env, m.s, w, e, ty) == h && TypeOf(h.v) == ty
  }

  lemma {:induction false} RunOne(env: Env, T: seq<Ty>, fuel: nat, s: Store, w: World, i: Instr)
    ensures Run(env, T, fuel, s, w, [i]) == RunInstr(env, T, fuel, s, w, i)
  {
    assert [i][0] == i && [i][1..] == [];
  }

  // ----- operands -----

  lemma {:induction false} MaterialiseAllSim(env: Env, T: seq<Ty>, fuel: nat, st: State, vis: set<nat>,
                                             hs: Store, ms: Store, w: World, args: seq<nat>)
    requires Rel(st, vis, hs, ms) && forall i | 0 <= i < |args| :: args[i] in vis
    requires AllBound(st, args) && forall i | 0 <= i < |args| :: !HoldsComptimeOnly(st.bindings[args[i]])
    requires forall i | 0 <= i < |args| :: !st.bindings[args[i]].Poison?
    requires Refines(MaterialiseAll(st, args).st.types, T)
    ensures var ops := MaterialiseAll(st, args);
            var m := Run(env, T, fuel, ms, w, ops.code);
            m.Normal? && m.w == w && Same(ms, m.s, |st.types|)
            && (forall i | 0 <= i < |args| :: ops.locals[i] < |ops.st.types| && ops.locals[i] in m.s
                                              && m.s[ops.locals[i]] == hs[args[i]])
    decreases |args|
  {
    if args != [] {
      var b := st.bindings[args[0]];
      var first := Materialise(st, b);
      var rest := MaterialiseAll(first.st, args[1..]);
      assert Holds(st, b, hs[args[0]], ms);
      MaterialiseSim(env, T, fuel, st, b, hs[args[0]], ms, w, rest.st.types);
      var m1 := Run(env, T, fuel, ms, w, first.code);
      RelStable(st, first.st, vis, hs, ms, m1.s);
      MaterialiseAllSim(env, T, fuel, first.st, vis, hs, m1.s, w, args[1..]);
      RunConcat(env, T, fuel, ms, w, first.code, rest.code);
      var ops := MaterialiseAll(st, args);
      var m := Run(env, T, fuel, ms, w, ops.code);
      forall i | 0 <= i < |args|
        ensures ops.locals[i] < |ops.st.types| && ops.locals[i] in m.s && m.s[ops.locals[i]] == hs[args[i]]
      {
        if i > 0 { assert ops.locals[i] == rest.locals[i - 1] && args[i] == args[1..][i - 1]; }
      }
    }
  }

  lemma {:induction false} MaterialiseSim(env: Env, T: seq<Ty>, fuel: nat, st: State, b: Binding, v: Value, ms: Store, w: World, later: seq<Ty>)
    requires Holds(st, b, v, ms) && WfValue(v) && !HoldsComptimeOnly(b)
    requires Materialise(st, b).st.types <= later && Refines(later, T)
    ensures var ops := Materialise(st, b);
            var m := Run(env, T, fuel, ms, w, ops.code);
            m.Normal? && m.w == w && Same(ms, m.s, |st.types|)
            && ops.locals[0] < |ops.st.types| && ops.locals[0] in m.s && m.s[ops.locals[0]] == v
  {
    var ops := Materialise(st, b);
    if b.Comptime? {
      NoNeverValue(v);
      assert later[|st.types|] == TypeOf(v) && T[|st.types|] == TypeOf(v);
      RunOne(env, T, fuel, ms, w, Set(|st.types|, Const(v)));
    }
  }

  /** The operands of a MIR builtin hold the values of the HIR locals. */
  lemma LookupOperands(s: Store, locals: seq<nat>, hs: Store, args: seq<nat>)
    requires |locals| == |args|
    requires forall i | 0 <= i < |args| :: args[i] in hs && locals[i] in s && s[locals[i]] == hs[args[i]]
    ensures Lookup(s, locals).Some? && Lookup(s, locals) == Lookup(hs, args)
  {
    assert Lookup(s, locals).value == Lookup(hs, args).value;
  }

  // ----- builtins -----

  lemma SignatureShape(op: Op, i: nat)
    requires WfOp(op) && i < |Signatures(op)|
    ensures var sig := Signatures(op)[i];
            && |sig.params| == OpArity(op)
            && (forall k | 0 <= k < |sig.params| :: Scalar(sig.params[k]))
            && (Scalar(sig.result) || sig.result == TVoid || sig.result == TNever)
            && (sig.result == TNever <==> Halting(op))
  {
  }

  lemma ResultShape(op: Op, vs: seq<Value>, ty: Ty)
    requires WfOp(op) && (forall i | 0 <= i < |vs| :: WfValue(vs[i])) && ResultType(op, Types(vs)) == Some(ty)
    ensures Words(vs).Some? && |vs| == OpArity(op)
    ensures Scalar(ty) || ty == TVoid || ty == TNever
    ensures ty == TNever <==> Halting(op)
    ensures forall i | 0 <= i < |vs| :: Words(vs).value[i] < WORD
  {
    var sigs := Signatures(op);
    var i :| 0 <= i < |sigs| && Matches(sigs[i], Types(vs)) && sigs[i].result == ty;
    SignatureShape(op, i);
    hide Signatures;
    forall k | 0 <= k < |vs|
      ensures AsWord(vs[k]).Some? && AsWord(vs[k]).value < WORD
    {
      assert Assignable(Types(vs)[k], sigs[i].params[k]);
      NoNeverValue(vs[k]);
    }
  }

  lemma CallOpTyped(env: Env, w: World, op: Op, vs: seq<Value>, ty: Ty)
    requires Words(vs).Some? && |vs| == OpArity(op) && (Scalar(ty) || ty == TVoid) && !Halting(op)
    ensures var r := CallOp(env, w, op, vs, ty); r.Val? && WfValue(r.v) && TypeOf(r.v) == ty
  {
    hide Signatures;
  }

  lemma ArgValues(st: State, vis: set<nat>, hs: Store, ms: Store, args: seq<nat>)
    requires Rel(st, vis, hs, ms) && forall i | 0 <= i < |args| :: args[i] in vis
    requires AllBound(st, args)
    ensures Lookup(hs, args).Some? && ArgTypes(st, args).Some?
    ensures var vs := Lookup(hs, args).value;
            Types(vs) == ArgTypes(st, args).value && forall i | 0 <= i < |vs| :: WfValue(vs[i])
  {
    forall i | 0 <= i < |args|
      ensures args[i] in hs && !st.bindings[args[i]].Poison? && WfValue(hs[args[i]])
              && BindingType(st, st.bindings[args[i]]) == TypeOf(hs[args[i]])
    {
      assert Holds(st, st.bindings[args[i]], hs[args[i]], ms);
    }
  }

  lemma EmitSim(env: Env, T: seq<Ty>, fuel: nat, st: State, vis: set<nat>, hs: Store, ms: Store, w: World,
                op: Op, args: seq<nat>, ty: Ty)
    requires Rel(st, vis, hs, ms) && forall i | 0 <= i < |args| :: args[i] in vis
    requires AllBound(st, args) && Lookup(hs, args).Some? && ArgTypes(st, args).Some? && WfOp(op)
    requires forall i | 0 <= i < |args| :: WfValue(hs[args[i]])
    requires ResultType(op, Types(Lookup(hs, args).value)) == Some(ty)
    requires EmitBuiltin(st, op, args, ty).exit != Panic
    requires Refines(EmitBuiltin(st, op, args, ty).st.types, T)
    ensures Simulates(env, T, fuel, st, ms, w, EmitBuiltin(st, op, args, ty), CallOp(env, w, op, Lookup(hs, args).value, ty))
  {
    hide Signatures, ResultType, OpArity, Halting, Keeps, BindingType, WfValue;
    var vs := Lookup(hs, args).value;
    var ops := MaterialiseAll(st, args);
    ResultShape(op, vs, ty);
    if ty == TNever {
      assert ops.st.types <= EmitBuiltin(st, op, args, ty).st.types;
    }
    MaterialiseAllSim(env, T, fuel, st, vis, hs, ms, w, args);
    var m := Run(env, T, fuel, ms, w, ops.code);
    LookupOperands(m.s, ops.locals, hs, args);
    if ty == TNever {
      var target := |ops.st.types|;
      RunConcat(env, T, fuel, ms, w, ops.code, [Set(target, Builtin(op, ops.locals))]);
      RunOne(env, T, fuel, m.s, w, Set(target, Builtin(op, ops.locals)));
    } else {
      CallOpTyped(env, w, op, vs, ty);
    }
  }

  lemma {:induction false} FoldSim(env: Env, w: World, f: Evm.FoldOp, vs: seq<Value>, ty: Ty, v: Value)
    requires (forall i | 0 <= i < |vs| :: WfValue(vs[i])) && ResultType(Foldable(f), Types(vs)) == Some(ty)
    requires FoldValue(f, vs, ty) == Some(v)
    ensures CallOp(env, w, Foldable(f), vs, ty) == Val(v, w) && WfValue(v)
  {
    hide Signatures, ResultType, Evm.Fold, Evm.Meaning;
    ResultShape(Foldable(f), vs, ty);
    Evm.FoldMeansOp(f, Words(vs).value);
  }

  lemma BuiltinSim(env: Env, T: seq<Ty>, fuel: nat, st: State, vis: set<nat>, hs: Store, ms: Store, w: World,
                   op: Op, args: seq<nat>)
    requires Rel(st, vis, hs, ms) && WfOp(op) && forall i | 0 <= i < |args| :: args[i] in vis
    requires AllBound(st, args)
    requires var es := EvalExpr(st, HBuiltin(op, args)); es.exit != Panic && !es.st.diagnosed && Refines(es.st.types, T)
    ensures Simulates(env, T, fuel, st, ms, w, EvalExpr(st, HBuiltin(op, args)), Meaning(env, st.comptime, hs, w, HBuiltin(op, args)))
  {
    hide Signatures, ResultType, OpArity, Halting, MaterialiseAll, EmitBuiltin, CallOp;
    ArgValues(st, vis, hs, ms, args);
    var vs := Lookup(hs, args).value;
    var ty := ResultType(op, Types(vs));
    if ty.Some? {
      if Known(st, args).Some? && op.Foldable? {
        assert Known(st, args).value == vs by {
          forall i | 0 <= i < |args| ensures Known(st, args).value[i] == vs[i] {
            assert Holds(st, st.bindings[args[i]], hs[args[i]], ms);
          }
        }
        FoldSim(env, w, op.f, vs, ty.value, FoldValue(op.f, vs, ty.value).value);
      } else if !st.comptime {
        assert EvalExpr(st, HBuiltin(op, args)) == EmitBuiltin(st, op, args, ty.value);
        EmitSim(env, T, fuel, st, vis, hs, ms, w, op, args, ty.value);
      }
    }
  }

  // ----- operators -----

  lemma NotSim(env: Env, T: seq<Ty>, fuel: nat, st: State, vis: set<nat>, hs: Store, ms: Store, w: World, x: nat)
    requires Rel(st, vis, hs, ms) && x in vis && x in st.bindings
    requires EvalNot(st, x).exit != Panic && !EvalNot(st, x).st.diagnosed
    ensures Simulates(env, T, fuel, st, ms, w, EvalNot(st, x), Meaning(env, st.comptime, hs, w, HNot(x)))
  {
    assert Holds(st, st.bindings[x], hs[x], ms);
    NoNeverValue(hs[x]);
    match st.bindings[x]
    case Runtime(m) => IsZeroBool(env, ms, w, m);
    case _ =>
  }

  lemma IsZeroBool(env: Env, ms: Store, w: World, m: nat)
    requires m in ms && ms[m].Boolean?
    ensures Eval(env, ms, w, Builtin(Foldable(Evm.IsZero), [m]), TBool) == Val(Boolean(!ms[m].b), w)
  {
    var vs := [ms[m]];
    assert Lookup(ms, [m]).value == vs;
    var word := if ms[m].b then 1 else 0;
    assert Words(vs).value == [word];
    Evm.IsZeroMeaning(word);
  }

  lemma {:induction false} EqWords(env: Env, w: World, a: Value, b: Value)
    requires TypeOf(a) == TypeOf(b) && Scalar(TypeOf(a)) && WfValue(a) && WfValue(b)
    ensures CallOp(env, w, Foldable(Evm.Eq), [a, b], TBool) == Val(Boolean(a == b), w)
    ensures TypeOf(a) == TBool ==> CallOp(env, w, Foldable(Evm.Xor), [a, b], TBool) == Val(Boolean(a != b), w)
  {
    var words := [AsWord(a).value, AsWord(b).value];
    assert Words([a, b]).value == words;
    Evm.EqMeaning(words[0], words[1]);
    if TypeOf(a) == TBool { Evm.XorMeaning(words[0], words[1]); }
  }

  lemma {:induction false} PairSim(env: Env, T: seq<Ty>, fuel: nat, st: State, vis: set<nat>, hs: Store, ms: Store, w: World, l: nat, r: nat)
    requires Rel(st, vis, hs, ms) && l in vis && r in vis && l in st.bindings && r in st.bindings
    requires Scalar(TypeOf(hs[l])) && TypeOf(hs[l]) == TypeOf(hs[r])
    requires Refines(MaterialiseAll(st, [l, r]).st.types, T)
    ensures var ops := MaterialiseAll(st, [l, r]);
            var m := Run(env, T, fuel, ms, w, ops.code);
            && m.Normal? && m.w == w && Same(ms, m.s, |st.types|)
            && Lookup(m.s, ops.locals) == Some([hs[l], hs[r]])
  {
    hide MaterialiseAll;
    assert Holds(st, st.bindings[l], hs[l], ms) && Holds(st, st.bindings[r], hs[r], ms);
    assert forall i | 0 <= i < 2 :: !HoldsComptimeOnly(st.bindings[[l, r][i]]);
    MaterialiseAllSim(env, T, fuel, st, vis, hs, ms, w, [l, r]);
    var ops := MaterialiseAll(st, [l, r]);
    var m := Run(env, T, fuel, ms, w, ops.code);
    assert m.s[ops.locals[0]] == hs[[l, r][0]] && m.s[ops.locals[1]] == hs[[l, r][1]];
    assert Lookup(m.s, ops.locals).value == [hs[l], hs[r]];
  }

  /** `eq` into a fresh local, then `iszero` of it. */
  lemma {:induction false} NegatedEqSim(env: Env, T: seq<Ty>, fuel: nat, s: Store, w: World, locals: seq<nat>, a: Value, b: Value, isEq: nat)
    requires Lookup(s, locals) == Some([a, b]) && isEq < |T| && T[isEq] == TBool
    requires Scalar(TypeOf(a)) && TypeOf(a) == TypeOf(b) && WfValue(a) && WfValue(b)
    ensures var s' := s[isEq := Boolean(a == b)];
            && Run(env, T, fuel, s, w, [Set(isEq, Builtin(Foldable(Evm.Eq), locals))]) == Normal(s', w)
            && Eval(env, s', w, Builtin(Foldable(Evm.IsZero), [isEq]), TBool) == Val(Boolean(a != b), w)
  {
    hide CallOp;
    EqWords(env, w, a, b);
    RunOne(env, T, fuel, s, w, Set(isEq, Builtin(Foldable(Evm.Eq), locals)));
    IsZeroBool(env, s[isEq := Boolean(a == b)], w, isEq);
  }

  lemma NotEqualSim(env: Env, T: seq<Ty>, fuel: nat, st: State, vis: set<nat>, hs: Store, ms: Store, w: World,
                    ty: Ty, l: nat, r: nat)
    requires Rel(st, vis, hs, ms) && l in vis && r in vis && l in st.bindings && r in st.bindings
    requires Scalar(ty) && TypeOf(hs[l]) == ty == TypeOf(hs[r])
    requires !st.bindings[l].Poison? && !st.bindings[r].Poison?
    requires !EvalNotEqual(st, ty, l, r).st.diagnosed && Refines(EvalNotEqual(st, ty, l, r).st.types, T)
    ensures Simulates(env, T, fuel, st, ms, w, EvalNotEqual(st, ty, l, r), Val(Boolean(hs[l] != hs[r]), w))
  {
    hide MaterialiseAll, CallOp, Eval, Run;
    var (bl, br) := (st.bindings[l], st.bindings[r]);
    assert Holds(st, bl, hs[l], ms) && Holds(st, br, hs[r], ms);
    if !(bl.Comptime? && br.Comptime?) {
      var ops := MaterialiseAll(st, [l, r]);
      PairSim(env, T, fuel, st, vis, hs, ms, w, l, r);
      var m := Run(env, T, fuel, ms, w, ops.code);
      if ty == TBool {
        XorSim(env, m.s, w, ops.locals, hs[l], hs[r]);
      } else {
        var isEq := |ops.st.types|;
        assert T[isEq] == TBool by { assert EvalNotEqual(st, ty, l, r).st.types[isEq] == TBool; }
        RunConcat(env, T, fuel, ms, w, ops.code, [Set(isEq, Builtin(Foldable(Evm.Eq), ops.locals))]);
        NegatedEqSim(env, T, fuel, m.s, w, ops.locals, hs[l], hs[r], isEq);
      }
    } else {
      RunNothing(env, T, fuel, ms, w);
    }
  }

  lemma {:induction false} RunNothing(env: Env, T: seq<Ty>, fuel: nat, s: Store, w: World)
    ensures Run(env, T, fuel, s, w, []) == Normal(s, w)
  {
  }

  lemma XorSim(env: Env, s: Store, w: World, locals: seq<nat>, a: Value, b: Value)
    requires Lookup(s, locals) == Some([a, b]) && a.Boolean? && b.Boolean?
    ensures Eval(env, s, w, Builtin(Foldable(Evm.Xor), locals), TBool) == Val(Boolean(a != b), w)
  {
    hide CallOp;
    EqWords(env, w, a, b);
  }

  lemma EqualSim(env: Env, T: seq<Ty>, fuel: nat, st: State, vis: set<nat>, hs: Store, ms: Store, w: World,
                 positive: bool, l: nat, r: nat)
    requires Rel(st, vis, hs, ms) && l in vis && r in vis && l in st.bindings && r in st.bindings
    requires var es := EvalEqual(st, positive, l, r); es.exit != Panic && !es.st.diagnosed && Refines(es.st.types, T)
    ensures Simulates(env, T, fuel, st, ms, w, EvalEqual(st, positive, l, r),
                      Meaning(env, st.comptime, hs, w, HEqual(positive, l, r)))
  {
    hide EvalFoldable, EvalNotEqual, MaterialiseAll, CallOp;
    assert Holds(st, st.bindings[l], hs[l], ms) && Holds(st, st.bindings[r], hs[r], ms);
    NoNeverValue(hs[l]);
    var ty := TypeOf(hs[l]);
    if Scalar(ty) {
      if positive {
        assert AllBound(st, [l, r]);
        EqBuiltinSim(env, T, fuel, st, vis, hs, ms, w, l, r);
      } else {
        NotEqualSim(env, T, fuel, st, vis, hs, ms, w, ty, l, r);
      }
    }
  }

  lemma EqBuiltinSim(env: Env, T: seq<Ty>, fuel: nat, st: State, vis: set<nat>, hs: Store, ms: Store, w: World, l: nat, r: nat)
    requires Rel(st, vis, hs, ms) && l in vis && r in vis && AllBound(st, [l, r])
    requires Scalar(TypeOf(hs[l])) && TypeOf(hs[l]) == TypeOf(hs[r])
    requires var es := EvalFoldable(st, Evm.Eq, [l, r]); es.exit != Panic && !es.st.diagnosed && Refines(es.st.types, T)
    ensures Simulates(env, T, fuel, st, ms, w, EvalFoldable(st, Evm.Eq, [l, r]), Val(Boolean(hs[l] == hs[r]), w))
  {
    hide EvalFoldable, EvalExpr, CallOp, ResultType, Meaning, Simulates, Refines;
    EqAsBuiltin(st, l, r);
    EqMeaning(env, st.comptime, hs, w, l, r);
    BuiltinSim(env, T, fuel, st, vis, hs, ms, w, Foldable(Evm.Eq), [l, r]);
  }

  lemma EqAsBuiltin(st: State, l: nat, r: nat)
    requires AllBound(st, [l, r])
    ensures EvalExpr(st, HBuiltin(Foldable(Evm.Eq), [l, r])) == EvalFoldable(st, Evm.Eq, [l, r])
  {
    hide EvalFoldable;
    assert Uses(HBuiltin(Foldable(Evm.Eq), [l, r])) == [l, r];
  }

  lemma EqMeaning(env: Env, ct: bool, hs: Store, w: World, l: nat, r: nat)
    requires l in hs && r in hs && Scalar(TypeOf(hs[l])) && TypeOf(hs[l]) == TypeOf(hs[r]) && WfValue(hs[l]) && WfValue(hs[r])
    ensures Meaning(env, ct, hs, w, HBuiltin(Foldable(Evm.Eq), [l, r])) == Val(Boolean(hs[l] == hs[r]), w)
  {
    hide CallOp, ResultType, WfValue;
    var vs := [hs[l], hs[r]];
    assert Lookup(hs, [l, r]).value == vs;
    EqWords(env, w, hs[l], hs[r]);
    assert Types(vs) == [TypeOf(hs[l]), TypeOf(hs[l])];
    EqSignature(TypeOf(hs[l]));
  }

  lemma EqSignature(ty: Ty)
    requires Scalar(ty)
    ensures ResultType(Foldable(Evm.Eq), [ty, ty]) == Some(TBool)
  {
    var sigs := Signatures(Foldable(Evm.Eq));
    assert sigs[1..] == [sigs[1], sigs[2]] && sigs[1..][1..] == [sigs[2]];
    match ty
    case TU256 => assert Matches(sigs[0], [ty, ty]);
    case TMemPtr =>
      assert !Matches(sigs[0], [ty, ty]) by { assert !Assignable([ty, ty][0], sigs[0].params[0]); }
      assert Matches(sigs[1], [ty, ty]);
      assert FirstMatch(sigs[1..], [ty, ty]) == Some(TBool);
    case TBool =>
      assert !Matches(sigs[0], [ty, ty]) by { assert !Assignable([ty, ty][0], sigs[0].params[0]); }
      assert !Matches(sigs[1], [ty, ty]) by { assert !Assignable([ty, ty][0], sigs[1].params[0]); }
      assert Matches(sigs[2], [ty, ty]);
      assert FirstMatch([sigs[2]], [ty, ty]) == Some(TBool);
      assert FirstMatch(sigs[1..], [ty, ty]) == Some(TBool);
  }

  lemma MemberSim(env: Env, T: seq<Ty>, fuel: nat, st: State, vis: set<nat>, hs: Store, ms: Store, w: World,
                  obj: nat, name: nat)
    requires Rel(st, vis, hs, ms) && obj in vis && obj in st.bindings
    requires EvalMember(st, obj, name).exit != Panic && !EvalMember(st, obj, name).st.diagnosed
    ensures Simulates(env, T, fuel, st, ms, w, EvalMember(st, obj, name), Meaning(env, st.comptime, hs, w, HMember(obj, name)))
  {
    assert Holds(st, st.bindings[obj], hs[obj], ms);
    assert WfValue(hs[obj]);
  }

  // ----- struct literals -----

  /** After the code so far, the literal's local buffer holds these values. */
  ghost predicate LocalsHold(env: Env, T: seq<Ty>, fuel: nat, n: nat, ms: Store, w: World, acc: Lit, vals: seq<Value>) {
    var m := Run(env, T, fuel, ms, w, acc.code);
    && n <= |acc.types| && m.Normal? && m.w == w && Same(ms, m.s, n)
    && |acc.locals| == |vals|
    && forall k | 0 <= k < |vals| :: acc.locals[k] < |acc.types| && acc.locals[k] in m.s && m.s[acc.locals[k]] == vals[k]
  }

  lemma {:induction false} LitConstSim(env: Env, T: seq<Ty>, fuel: nat, n: nat, ms: Store, w: World, acc: Lit, vals: seq<Value>, v: Value)
    requires LocalsHold(env, T, fuel, n, ms, w, acc, vals) && WfValue(v)
    requires LitConst(acc, v).valid && Refines(LitConst(acc, v).types, T)
    ensures LocalsHold(env, T, fuel, n, ms, w, LitConst(acc, v), vals + [v])
  {
    var target := |acc.types|;
    var acc' := LitConst(acc, v);
    assert acc'.types[target] == TypeOf(v);
    NoNeverValue(v);
    var m := Run(env, T, fuel, ms, w, acc.code);
    RunConcat(env, T, fuel, ms, w, acc.code, [Set(target, Const(v))]);
    RunOne(env, T, fuel, m.s, w, Set(target, Const(v)));
  }

  lemma {:induction false} LitConstsSim(env: Env, T: seq<Ty>, fuel: nat, n: nat, ms: Store, w: World,
                                        acc: Lit, vals: seq<Value>, vs: seq<Value>)
    requires LocalsHold(env, T, fuel, n, ms, w, acc, vals) && forall i | 0 <= i < |vs| :: WfValue(vs[i])
    requires LitConsts(acc, vs).valid && Refines(LitConsts(acc, vs).types, T)
    ensures LocalsHold(env, T, fuel, n, ms, w, LitConsts(acc, vs), vals + vs)
    decreases |vs|
  {
    if vs == [] {
      assert vals + vs == vals;
    } else {
      hide LocalsHold;
      LitConstSim(env, T, fuel, n, ms, w, acc, vals, vs[0]);
      LitConstsSim(env, T, fuel, n, ms, w, LitConst(acc, vs[0]), vals + [vs[0]], vs[1..]);
      assert vals + vs == (vals + [vs[0]]) + vs[1..];
    }
  }

  ghost predicate LitInv(env: Env, T: seq<Ty>, fuel: nat, n: nat, ms: Store, w: World, acc: Lit, vals: seq<Value>) {
    if acc.mixed then LocalsHold(env, T, fuel, n, ms, w, acc, vals)
    else acc.values == vals && acc.code == [] && acc.locals == [] && n <= |acc.types|
  }

  lemma {:induction false} LitStepSim(env: Env, T: seq<Ty>, fuel: nat, st: State, hs: Store, ms: Store, w: World,
                   acc: Lit, vals: seq<Value>, field: Field, lits: seq<LitField>, v: Value)
    requires LitInv(env, T, fuel, |st.types|, ms, w, acc, vals) && forall i | 0 <= i < |vals| :: WfValue(vals[i])
    requires forall i | 0 <= i < |lits| :: lits[i].value in st.bindings
    requires FindLit(lits, field.name).Some?
    requires Holds(st, st.bindings[lits[FindLit(lits, field.name).value].value], v, ms) && WfValue(v)
    requires LitStep(st, acc, field, lits).valid && Refines(LitStep(st, acc, field, lits).types, T)
    ensures LitInv(env, T, fuel, |st.types|, ms, w, LitStep(st, acc, field, lits), vals + [v])
  {
    hide WfValue, ComptimeOnly, TypeOf;
    match st.bindings[lits[FindLit(lits, field.name).value].value]
    case Runtime(m) =>
      var n := |st.types|;
      if !acc.mixed {
        RunNothing(env, T, fuel, ms, w);
        LitConstsSim(env, T, fuel, n, ms, w, acc, [], acc.values);
        assert [] + acc.values == vals;
      }
      var acc1 := if acc.mixed then acc else LitConsts(acc, acc.values);
      assert LocalsHold(env, T, fuel, n, ms, w, acc1, vals);
    case Comptime(c) =>
      if acc.mixed { LitConstSim(env, T, fuel, |st.types|, ms, w, acc, vals, v); }
  }

  ghost function FieldValues(hs: Store, fields: seq<Field>, lits: seq<LitField>): (r: seq<Value>)
    requires forall k | 0 <= k < |fields| :: FindLit(lits, fields[k].name).Some?
                                             && lits[FindLit(lits, fields[k].name).value].value in hs
    ensures |r| == |fields|
  {
    seq(|fields|, k requires 0 <= k < |fields| => hs[lits[FindLit(lits, fields[k].name).value].value])
  }

  /** Building a literal field by field: what is buffered is the value given for each field, in definition order. */
  lemma {:induction false} LitFieldsSim(env: Env, T: seq<Ty>, fuel: nat, st: State, vis: set<nat>, hs: Store, ms: Store, w: World,
                                        acc: Lit, vals: seq<Value>, fields: seq<Field>, lits: seq<LitField>)
    requires LitInv(env, T, fuel, |st.types|, ms, w, acc, vals) && forall i | 0 <= i < |vals| :: WfValue(vals[i])
    requires Rel(st, vis, hs, ms) && forall i | 0 <= i < |lits| :: lits[i].value in vis && lits[i].value in st.bindings
    requires forall k | 0 <= k < |fields| :: FindLit(lits, fields[k].name).Some?
    requires LitFields(st, acc, fields, lits).valid && Refines(LitFields(st, acc, fields, lits).types, T)
    ensures LitInv(env, T, fuel, |st.types|, ms, w, LitFields(st, acc, fields, lits), vals + FieldValues(hs, fields, lits))
    decreases |fields|
  {
    hide LitInv, LitStep;
    if fields == [] {
      assert vals + FieldValues(hs, fields, lits) == vals;
    } else {
      var x := lits[FindLit(lits, fields[0].name).value].value;
      var acc' := LitStep(st, acc, fields[0], lits);
      assert x in vis;
      assert Holds(st, st.bindings[x], hs[x], ms);
      LitStepSim(env, T, fuel, st, hs, ms, w, acc, vals, fields[0], lits, hs[x]);
      LitFieldsSim(env, T, fuel, st, vis, hs, ms, w, acc', vals + [hs[x]], fields[1..], lits);
      assert vals + FieldValues(hs, fields, lits) == (vals + [hs[x]]) + FieldValues(hs, fields[1..], lits);
    }
  }

  lemma StructLitSim(env: Env, T: seq<Ty>, fuel: nat, st: State, vis: set<nat>, hs: Store, ms: Store, w: World,
                     t: nat, lits: seq<LitField>)
    requires Rel(st, vis, hs, ms) && t in vis && t in st.bindings
    requires forall i | 0 <= i < |lits| :: lits[i].value in vis && lits[i].value in st.bindings
    requires var es := EvalStructLit(st, t, lits); !es.value.PoisonV? && !es.st.diagnosed && Refines(es.st.types, T)
    ensures Simulates(env, T, fuel, st, ms, w, EvalStructLit(st, t, lits), Meaning(env, st.comptime, hs, w, HStructLit(t, lits)))
  {
    hide LitFields, LitChecks, LitInv, LitValues, FieldValues, Lookup, Covers;
    assert Holds(st, st.bindings[t], hs[t], ms);
    var fields := hs[t].ty.fields;
    var start := Lit(st.types, st.diagnosed, [], [], [], false, true);
    var acc := LitFields(st, start, fields, lits);
    assert LitChecks(st, fields, lits);
    ChecksCover(st, fields, lits);
    assert LitInv(env, T, fuel, |st.types|, ms, w, start, []) by { StartInv(env, T, fuel, st, ms, w, start); }
    LitFieldsSim(env, T, fuel, st, vis, hs, ms, w, start, [], fields, lits);
    var vals := FieldValues(hs, fields, lits);
    assert [] + vals == vals;
    LitValuesAre(st, vis, hs, ms, fields, lits);
    LitResult(env, T, fuel, st, ms, w, acc, vals, hs[t].ty);
  }

  lemma {:induction false} ChecksCover(st: State, fields: seq<Field>, lits: seq<LitField>)
    requires forall i | 0 <= i < |lits| :: lits[i].value in st.bindings
    requires LitChecks(st, fields, lits)
    ensures Covers(fields, lits) && forall k | 0 <= k < |fields| :: FindLit(lits, fields[k].name).Some?
  {
  }

  lemma StartInv(env: Env, T: seq<Ty>, fuel: nat, st: State, ms: Store, w: World, acc: Lit)
    requires !acc.mixed && acc.values == [] && acc.code == [] && acc.locals == [] && acc.types == st.types
    ensures LitInv(env, T, fuel, |st.types|, ms, w, acc, [])
  {
  }

  /** The finished buffers, as one value. */
  lemma {:induction false} LitResult(env: Env, T: seq<Ty>, fuel: nat, st: State, ms: Store, w: World, acc: Lit, vals: seq<Value>, sty: Ty)
    requires LitInv(env, T, fuel, |st.types|, ms, w, acc, vals) && WfValue(Struct(sty, vals))
    ensures var value := if acc.mixed then RuntimeV(CompoundLit(sty, acc.locals), sty) else ComptimeV(Struct(sty, acc.values));
            Simulates(env, T, fuel, st, ms, w, ExprStep(st.(types := acc.types, diagnosed := acc.diagnosed), acc.code, Fallthrough, value),
                      Val(Struct(sty, vals), w))
  {
    if acc.mixed {
      var m := Run(env, T, fuel, ms, w, acc.code);
      assert Lookup(m.s, acc.locals) == Some(vals) by { assert Lookup(m.s, acc.locals).value == vals; }
    } else {
      RunNothing(env, T, fuel, ms, w);
    }
  }

  lemma LitValuesAre(st: State, vis: set<nat>, hs: Store, ms: Store, fields: seq<Field>, lits: seq<LitField>)
    requires Rel(st, vis, hs, ms)
    requires forall i | 0 <= i < |lits| :: lits[i].value in vis && lits[i].value in st.bindings
    requires LitChecks(st, fields, lits) && DistinctNames(fields)
    ensures LitValues(hs, fields, lits) == Some(FieldValues(hs, fields, lits))
    ensures forall k | 0 <= k < |fields| ::
              WfValue(FieldValues(hs, fields, lits)[k]) && TypeOf(FieldValues(hs, fields, lits)[k]) == fields[k].ty
  {
    assert LitValues(hs, fields, lits).value == FieldValues(hs, fields, lits);
    forall k | 0 <= k < |fields|
      ensures WfValue(FieldValues(hs, fields, lits)[k]) && TypeOf(FieldValues(hs, fields, lits)[k]) == fields[k].ty
    {
      var i := FindLit(lits, fields[k].name).value;
      var x := lits[i].value;
      assert Holds(st, st.bindings[x], hs[x], ms);
      NoNeverValue(hs[x]);
    }
  }

  /** Every expression that evaluates without a diagnostic. */
  lemma ExprSim(env: Env, T: seq<Ty>, fuel: nat, st: State, vis: set<nat>, hs: Store, ms: Store, w: World, e: HExpr)
    requires Inv(st) && Rel(st, vis, hs, ms) && WfExpr(vis, e)
    requires var es := EvalExpr(st, e);
             (es.exit == Fallthrough || es.exit == BlockEnd) && !es.st.diagnosed && Refines(es.st.types, T)
    ensures Simulates(env, T, fuel, st, ms, w, EvalExpr(st, e), Meaning(env, st.comptime, hs, w, e))
  {
    PoisonIsDiagnosed(st, e);
    hide EvalStructLit, EvalFoldable, EvalRuntimeOnly, EvalEqual, EvalNot, EvalMember, CallOp, LitValues, Covers,
      Simulates, Keeps, Quiet, EvalSetQuota;
    match e
    case HBuiltin(op, args) => BuiltinSim(env, T, fuel, st, vis, hs, ms, w, op, args);
    case HEqual(positive, l, r) =>
      assert Uses(e)[0] == l && Uses(e)[1] == r;
      EqualSim(env, T, fuel, st, vis, hs, ms, w, positive, l, r);
    case HNot(x) =>
      assert Uses(e)[0] == x;
      NotSim(env, T, fuel, st, vis, hs, ms, w, x);
    case HStructLit(t, lits) =>
      assert Uses(e)[0] == t;
      assert forall i | 0 <= i < |lits| :: lits[i].value == Uses(e)[i + 1];
      StructLitSim(env, T, fuel, st, vis, hs, ms, w, t, lits);
    case HMember(obj, name) =>
      assert Uses(e)[0] == obj;
      MemberSim(env, T, fuel, st, vis, hs, ms, w, obj, name);
    case _ => PlainSim(env, T, fuel, st, vis, hs, ms, w, e);
  }

  lemma {:induction false} PlainSim(env: Env, T: seq<Ty>, fuel: nat, st: State, vis: set<nat>, hs: Store, ms: Store, w: World, e: HExpr)
    requires Inv(st) && Rel(st, vis, hs, ms) && WfExpr(vis, e)
    requires e.HLocal? || e.HSetQuota? || e.HValue? || e.HInComptime?
    requires EvalExpr(st, e).exit != Panic && !EvalExpr(st, e).st.diagnosed
    ensures Simulates(env, T, fuel, st, ms, w, EvalExpr(st, e), Meaning(env, st.comptime, hs, w, e))
  {
    RunNothing(env, T, fuel, ms, w);
    hide Run, Keeps, Quiet, CallOp, EvalFoldable, EvalRuntimeOnly, EvalEqual, EvalStructLit, EvalMember, EvalNot, LitValues, Covers;
    match e
    case HLocal(x) =>
      assert Uses(e)[0] == x;
      assert Holds(st, st.bindings[x], hs[x], ms);
    case HSetQuota(x) =>
      assert Uses(e)[0] == x;
      assert Holds(st, st.bindings[x], hs[x], ms);
    case HValue(_) =>
    case HInComptime =>
  }
}
