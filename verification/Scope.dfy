/**
 * The evaluator as it runs: one scope whose bindings, types and instruction stack are updated in place.  Every method
 * is proved to do what the function of the same name in `Specialiser` says.
 */
module Scopes {
  import opened Values
  import opened World
  import opened Mir
  import opened Hir
  import opened Quotas
  import S = Specialiser
  import opened Specialiser
  import Evm

  /** One field of a literal: it is a field of the definition, and its value has the type given there. */
  predicate LitFits(st: State, fields: seq<Field>, lit: LitField)
    requires lit.value in st.bindings
  {
    && FieldIndex(fields, lit.name).Some?
    && !st.bindings[lit.value].Poison?
    && Assignable(BindingType(st, st.bindings[lit.value]), fields[FieldIndex(fields, lit.name).value].ty)
  }

  lemma {:induction false} ChecksAreFits(st: State, fields: seq<Field>, lits: seq<LitField>)
    requires forall i | 0 <= i < |lits| :: lits[i].value in st.bindings
    ensures LitChecks(st, fields, lits)
            <==> (NoDuplicates(lits) && (forall i | 0 <= i < |lits| :: LitFits(st, fields, lits[i]))
                  && forall k | 0 <= k < |fields| :: FindLit(lits, fields[k].name).Some?)
  {
    hide FieldIndex, FindLit, NoDuplicates, BindingType, Assignable;
  }

  class Scope {
    var comptime: bool
    var conditional: bool
    var quota: Quota
    var maxSeen: nat
    var bindings: map<nat, Binding>
    var mirTypes: seq<Ty>
    var diagnosed: bool
    /** The instruction stack shared by all the blocks that are being built. */
    var instrStack: seq<Instr>
    ghost var lossy: bool

    ghost function St(): State
      reads this
    {
      State(comptime, conditional, quota, maxSeen, bindings, mirTypes, diagnosed, lossy)
    }

    constructor (comptime: bool, quota: Quota)
      requires quota.Valid()
      ensures St() == State(comptime, false, quota, DEFAULT_COMPTIME_BRANCH_QUOTA, map[], [], false, false)
      ensures instrStack == []
    {
      this.comptime, this.conditional := comptime, false;
      this.quota, this.maxSeen := quota, DEFAULT_COMPTIME_BRANCH_QUOTA;
      this.bindings, this.mirTypes, this.instrStack := map[], [], [];
      this.diagnosed, this.lossy := false, false;
    }

    method EmitDiagnostic()
      modifies this`diagnosed
      ensures St() == S.Diagnose(old(St()))
    {
      diagnosed := true;
    }

    method Emit(i: Instr)
      requires !comptime
      modifies this`instrStack
      ensures instrStack == old(instrStack) + [i]
    {
      instrStack := instrStack + [i];
    }

    method PushType(ty: Ty) returns (target: nat)
      modifies this`mirTypes
      ensures St() == S.Push(old(St()), ty) && target == |old(mirTypes)|
    {
      target := |mirTypes|;
      mirTypes := mirTypes + [ty];
    }

    /** The instructions emitted since the stack had height `offset`, taken off again. */
    method DrainFrom(offset: nat) returns (block: seq<Instr>)
      requires offset <= |instrStack|
      modifies this`instrStack
      ensures block == old(instrStack)[offset..] && instrStack == old(instrStack)[..offset]
    {
      block := instrStack[offset..];
      instrStack := instrStack[..offset];
    }

    // ----- builtins and operators -----

    method MaterialiseAsLocal(b: Binding) returns (local: nat)
      requires !b.Poison? && !comptime
      modifies this`mirTypes, this`instrStack
      ensures var ops := S.Materialise(old(St()), b);
              St() == ops.st && instrStack == old(instrStack) + ops.code && [local] == ops.locals
    {
      match b
      case Runtime(m) => local := m;
      case Comptime(v) =>
        local := PushType(TypeOf(v));
        Emit(Set(local, Const(v)));
    }

    static lemma {:induction false} OneMaterialised(whole: Operands, st: State, args: seq<nat>, code: seq<Instr>, locals: seq<nat>)
      requires args != [] && AllBound(st, args) && forall i | 0 <= i < |args| :: !st.bindings[args[i]].Poison?
      requires var r := S.MaterialiseAll(st, args); whole == Operands(r.st, code + r.code, locals + r.locals)
      ensures var first := S.Materialise(st, st.bindings[args[0]]);
              && first.st.bindings == st.bindings && first.st.comptime == st.comptime
              && var r := S.MaterialiseAll(first.st, args[1..]);
                 whole == Operands(r.st, code + first.code + r.code, locals + first.locals + r.locals)
    {
      hide S.Materialise, S.MaterialiseAll;
      MaterialiseSteps(st, args);
      var first := S.Materialise(st, st.bindings[args[0]]);
      var r := S.MaterialiseAll(first.st, args[1..]);
      assert code + first.code + r.code == code + (first.code + r.code);
      assert locals + first.locals + r.locals == locals + (first.locals + r.locals);
    }

    method MaterialiseArgs(args: seq<nat>) returns (locals: seq<nat>)
      requires !comptime && AllBound(St(), args)
      requires forall i | 0 <= i < |args| :: !bindings[args[i]].Poison?
      modifies this`mirTypes, this`instrStack
      ensures var ops := S.MaterialiseAll(old(St()), args);
              St() == ops.st && instrStack == old(instrStack) + ops.code && locals == ops.locals
    {
      hide S.Materialise, S.MaterialiseAll;
      locals := [];
      ghost var code: seq<Instr> := [];
      ghost var whole := S.MaterialiseAll(St(), args);
      assert args[0..] == args && [] + whole.code == whole.code && [] + whole.locals == whole.locals;
      for i := 0 to |args|
        invariant bindings == old(bindings) && !comptime
        invariant instrStack == old(instrStack) + code
        invariant var rest := S.MaterialiseAll(St(), args[i..]);
                  whole == Operands(rest.st, code + rest.code, locals + rest.locals)
      {
        assert args[i..][0] == args[i] && args[i..][1..] == args[i + 1..];
        OneMaterialised(whole, St(), args[i..], code, locals);
        ghost var first := S.Materialise(St(), bindings[args[i]]);
        var local := MaterialiseAsLocal(bindings[args[i]]);
        locals := locals + [local];
        code := code + first.code;
      }
      assert args[|args|..] == [];
      MaterialiseSteps(St(), []);
      assert code + [] == code && locals + [] == locals;
    }

    method EmitRuntimeBuiltin(op: Op, args: seq<nat>, ty: Ty) returns (exit: Exit, value: EvalValue)
      requires !comptime && AllBound(St(), args)
      requires forall i | 0 <= i < |args| :: !bindings[args[i]].Poison?
      modifies this
      ensures var es := S.EmitBuiltin(old(St()), op, args, ty);
              St() == es.st && instrStack == old(instrStack) + es.code && exit == es.exit && value == es.value
    {
      if exists i | 0 <= i < |args| :: HoldsComptimeOnly(bindings[args[i]]) {
        return Panic, PoisonV;
      }
      var locals := MaterialiseArgs(args);
      if ty == TNever {
        var target := PushType(ty);
        Emit(Set(target, Builtin(op, locals)));
        return BlockEnd, PoisonV;
      }
      return Fallthrough, RuntimeV(Builtin(op, locals), ty);
    }

    method EvalRuntimeFoldable(f: Evm.FoldOp, args: seq<nat>) returns (exit: Exit, value: EvalValue)
      requires AllBound(St(), args)
      modifies this
      ensures var es := S.EvalFoldable(old(St()), f, args);
              St() == es.st && instrStack == old(instrStack) + es.code && exit == es.exit && value == es.value
    {
      hide S.EmitBuiltin, S.FoldValue, ResultType;
      ghost var before := St();
      var tys: seq<Ty> := [];
      for i := 0 to |args|
        invariant |tys| == i && forall k | 0 <= k < i :: !bindings[args[k]].Poison? && tys[k] == BindingType(St(), bindings[args[k]])
      {
        if bindings[args[i]].Poison? {
          return Fallthrough, PoisonV;
        }
        tys := tys + [match bindings[args[i]] case Comptime(v) => TypeOf(v) case Runtime(m) => TypeAt(mirTypes, m)];
      }
      assert ArgTypes(before, args) == Some(tys) by { assert ArgTypes(before, args).value == tys; }
      var ty := ResultType(Foldable(f), tys);
      if ty.None? {
        EmitDiagnostic();
        return Fallthrough, PoisonV;
      }
      var values: seq<Value> := [];
      for i := 0 to |args|
        invariant St() == before && instrStack == old(instrStack)
        invariant |values| == i && forall k | 0 <= k < i :: bindings[args[k]] == Comptime(values[k])
      {
        match bindings[args[i]]
        case Comptime(v) => values := values + [v];
        case Runtime(_) =>
          if comptime {
            EmitDiagnostic();
            return Fallthrough, PoisonV;
          }
          exit, value := EmitRuntimeBuiltin(Foldable(f), args, ty.value);
          return;
      }
      assert Known(before, args) == Some(values) by { assert Known(before, args).value == values; }
      match S.FoldValue(f, values, ty.value)
      case None => return Panic, PoisonV;
      case Some(v) => return Fallthrough, ComptimeV(v);
    }

    method EvalRuntimeOnly(op: Op, args: seq<nat>) returns (exit: Exit, value: EvalValue)
      requires AllBound(St(), args)
      modifies this
      ensures var es := S.EvalRuntimeOnly(old(St()), op, args);
              St() == es.st && instrStack == old(instrStack) + es.code && exit == es.exit && value == es.value
    {
      hide S.EmitBuiltin, ResultType;
      var ty: Option<Ty> := None;
      if forall i | 0 <= i < |args| :: !bindings[args[i]].Poison? {
        var tys := seq(|args|, i requires 0 <= i < |args| && AllBound(St(), args) && !bindings[args[i]].Poison? reads this =>
                                 match bindings[args[i]] case Comptime(v) => TypeOf(v) case Runtime(m) => TypeAt(mirTypes, m));
        assert ArgTypes(St(), args) == Some(tys) by { assert ArgTypes(St(), args).value == tys; }
        ty := ResultType(op, tys);
        if ty.None? { EmitDiagnostic(); }
      }
      var never := ty == Some(TNever) || (ty.None? && Halting(op));
      if comptime {
        EmitDiagnostic();
        return if never then ControlFlowPoisoned else Fallthrough, PoisonV;
      }
      match ty
      case Some(t) => exit, value := EmitRuntimeBuiltin(op, args, t);
      case None => return if never then BlockEnd else Fallthrough, PoisonV;
    }

    method EvalNotEqual(ty: Ty, l: nat, r: nat) returns (exit: Exit, value: EvalValue)
      requires l in bindings && r in bindings && !bindings[l].Poison? && !bindings[r].Poison?
      modifies this
      ensures var es := S.EvalNotEqual(old(St()), ty, l, r);
              St() == es.st && instrStack == old(instrStack) + es.code && exit == es.exit && value == es.value
    {
      hide S.MaterialiseAll;
      if bindings[l].Comptime? && bindings[r].Comptime? {
        return Fallthrough, ComptimeV(Boolean(bindings[l].v != bindings[r].v));
      }
      if comptime {
        EmitDiagnostic();
        return Fallthrough, PoisonV;
      }
      var locals := MaterialiseArgs([l, r]);
      if ty == TBool {
        return Fallthrough, RuntimeV(Builtin(Foldable(Evm.Xor), locals), TBool);
      }
      var isEq := PushType(TBool);
      Emit(Set(isEq, Builtin(Foldable(Evm.Eq), locals)));
      return Fallthrough, RuntimeV(Builtin(Foldable(Evm.IsZero), [isEq]), TBool);
    }

    method EvalEquality(positive: bool, l: nat, r: nat) returns (exit: Exit, value: EvalValue)
      requires l in bindings && r in bindings
      modifies this
      ensures var es := S.EvalEqual(old(St()), positive, l, r);
              St() == es.st && instrStack == old(instrStack) + es.code && exit == es.exit && value == es.value
    {
      hide S.EvalFoldable, S.EvalNotEqual;
      var bl, br := bindings[l], bindings[r];
      if bl.Poison? || br.Poison? {
        return Fallthrough, PoisonV;
      }
      var lty := match bl case Comptime(v) => TypeOf(v) case Runtime(m) => TypeAt(mirTypes, m);
      var rty := match br case Comptime(v) => TypeOf(v) case Runtime(m) => TypeAt(mirTypes, m);
      if lty != rty {
        EmitDiagnostic();
        return Fallthrough, PoisonV;
      }
      match lty
      case TType =>
        if bl.Comptime? && br.Comptime? {
          return Fallthrough, ComptimeV(Boolean((bl.v == br.v) == positive));
        }
        return Panic, PoisonV;
      case TVoid => return Fallthrough, ComptimeV(Boolean(positive));
      case TNever =>
        EmitDiagnostic();
        return Fallthrough, PoisonV;
      case TStruct(_, _) =>
        EmitDiagnostic();
        return Fallthrough, PoisonV;
      case _ =>
        if positive {
          exit, value := EvalRuntimeFoldable(Evm.Eq, [l, r]);
        } else {
          exit, value := EvalNotEqual(lty, l, r);
        }
    }

    method EvalLogicalNot(x: nat) returns (exit: Exit, value: EvalValue)
      requires x in bindings
      modifies this`diagnosed
      ensures var es := S.EvalNot(old(St()), x);
              St() == es.st && instrStack == old(instrStack) + es.code && exit == es.exit && value == es.value
    {
      match bindings[x]
      case Poison => return Fallthrough, PoisonV;
      case Runtime(m) =>
        if !Assignable(TypeAt(mirTypes, m), TBool) {
          EmitDiagnostic();
          return Fallthrough, PoisonV;
        }
        return Fallthrough, RuntimeV(Builtin(Foldable(Evm.IsZero), [m]), TBool);
      case Comptime(v) =>
        if !Assignable(TypeOf(v), TBool) {
          EmitDiagnostic();
          return Fallthrough, PoisonV;
        }
        if !v.Boolean? {
          return Panic, PoisonV;
        }
        return Fallthrough, ComptimeV(Boolean(!v.b));
    }

    method EvalMember(obj: nat, name: nat) returns (exit: Exit, value: EvalValue)
      requires obj in bindings
      modifies this`diagnosed
      ensures var es := S.EvalMember(old(St()), obj, name);
              St() == es.st && instrStack == old(instrStack) + es.code && exit == es.exit && value == es.value
    {
      if bindings[obj].Poison? {
        return Fallthrough, PoisonV;
      }
      var ty := match bindings[obj] case Comptime(v) => TypeOf(v) case Runtime(m) => TypeAt(mirTypes, m);
      var index := if ty.TStruct? then FieldIndex(ty.fields, name) else None;
      if index.None? {
        EmitDiagnostic();
        return Fallthrough, PoisonV;
      }
      match bindings[obj]
      case Runtime(m) => return Fallthrough, RuntimeV(FieldAccess(m, index.value), ty.fields[index.value].ty);
      case Comptime(v) =>
        if v.Struct? && index.value < |v.fields| {
          return Fallthrough, ComptimeV(v.fields[index.value]);
        }
        return Panic, PoisonV;
    }

    method SetEvalBranchQuota(x: nat) returns (exit: Exit, value: EvalValue)
      requires x in bindings
      modifies this`diagnosed, this`quota, this`maxSeen
      ensures var es := S.EvalSetQuota(old(St()), x);
              St() == es.st && instrStack == old(instrStack) + es.code && exit == es.exit && value == es.value
    {
      match bindings[x]
      case Poison => return Fallthrough, PoisonV;
      case Runtime(_) =>
        EmitDiagnostic();
        return Fallthrough, PoisonV;
      case Comptime(v) =>
        if !v.Num? || v.n > U32_MAX {
          EmitDiagnostic();
          return Fallthrough, PoisonV;
        }
        quota := Raised(quota, v.n);
        maxSeen := Max(maxSeen, v.n);
        return Fallthrough, ComptimeV(VoidVal);
    }

    // ----- struct literals -----

    /** The literal under construction: its two buffers, and the code emitted above height `base`. */
    ghost function Building(base: nat, values: seq<Value>, locals: seq<nat>, mixed: bool, valid: bool): Lit
      reads this
      requires base <= |instrStack|
    {
      Lit(mirTypes, diagnosed, instrStack[base..], values, locals, mixed, valid)
    }

    method LitConst(ghost base: nat, ghost values: seq<Value>, locals: seq<nat>, ghost mixed: bool, valid: bool, v: Value)
      returns (locals': seq<nat>, valid': bool)
      requires !comptime && base <= |instrStack|
      modifies this`diagnosed, this`mirTypes, this`instrStack
      ensures |instrStack| >= |old(instrStack)| && instrStack[..base] == old(instrStack)[..base]
      ensures Building(base, values, locals', mixed, valid') == S.LitConst(old(Building(base, values, locals, mixed, valid)), v)
    {
      if ComptimeOnly(TypeOf(v)) {
        EmitDiagnostic();
        return locals, false;
      }
      var target := PushType(TypeOf(v));
      Emit(Set(target, Const(v)));
      return locals + [target], valid;
    }

    /** The one-time conversion of the values buffered before the first run-time field. */
    method MaterialiseBuffered(ghost base: nat, values: seq<Value>, locals: seq<nat>, valid: bool)
      returns (locals': seq<nat>, valid': bool)
      requires !comptime && base <= |instrStack|
      modifies this`diagnosed, this`mirTypes, this`instrStack
      ensures |instrStack| >= |old(instrStack)| && instrStack[..base] == old(instrStack)[..base]
      ensures Building(base, values, locals', false, valid') == S.LitConsts(old(Building(base, values, locals, false, valid)), values)
    {
      locals', valid' := locals, valid;
      ghost var start := Building(base, values, locals, false, valid);
      for i := 0 to |values|
        invariant |instrStack| >= |old(instrStack)| && instrStack[..base] == old(instrStack)[..base]
        invariant S.LitConsts(start, values) == S.LitConsts(Building(base, values, locals', false, valid'), values[i..])
      {
        assert values[i..][0] == values[i] && values[i..][1..] == values[i + 1..];
        locals', valid' := LitConst(base, values, locals', false, valid', values[i]);
      }
    }

    method BuildFields(fields: seq<Field>, lits: seq<LitField>, valid: bool)
      returns (values: seq<Value>, locals: seq<nat>, mixed: bool, valid': bool)
      requires forall i | 0 <= i < |lits| :: lits[i].value in bindings
      modifies this`diagnosed, this`mirTypes, this`instrStack
      ensures |instrStack| >= |old(instrStack)| && instrStack[..|old(instrStack)|] == old(instrStack)
      ensures Building(|old(instrStack)|, values, locals, mixed, valid')
              == S.LitFields(old(St()), old(Lit(mirTypes, diagnosed, [], [], [], false, valid)), fields, lits)
    {
      hide S.LitConsts, S.LitConst;
      values, locals, mixed, valid' := [], [], false, valid;
      ghost var before, base := St(), |instrStack|;
      ghost var start := Building(base, values, locals, mixed, valid');
      assert instrStack[base..] == [];
      for k := 0 to |fields|
        invariant |instrStack| >= base && instrStack[..base] == old(instrStack)
        invariant comptime ==> !mixed
        invariant S.LitFields(before, start, fields, lits)
                  == S.LitFields(before, Building(base, values, locals, mixed, valid'), fields[k..], lits)
      {
        assert fields[k..][0] == fields[k] && fields[k..][1..] == fields[k + 1..];
        ghost var acc := Building(base, values, locals, mixed, valid');
        var lit := FindLit(lits, fields[k].name);
        if lit.None? || bindings[lits[lit.value].value].Poison? {
          valid' := false;
        } else {
          match bindings[lits[lit.value].value]
          case Runtime(m) =>
            if comptime {
              EmitDiagnostic();
              valid' := false;
            } else {
              if !mixed {
                locals, valid' := MaterialiseBuffered(base, values, locals, valid');
                mixed := true;
              }
              locals := locals + [m];
            }
          case Comptime(v) =>
            if mixed {
              locals, valid' := LitConst(base, values, locals, mixed, valid', v);
            } else {
              values := values + [v];
            }
        }
        assert Building(base, values, locals, mixed, valid') == S.LitStep(before, acc, fields[k], lits);
      }
    }

    method EvalStructLit(t: nat, lits: seq<LitField>) returns (exit: Exit, value: EvalValue)
      requires t in bindings && forall i | 0 <= i < |lits| :: lits[i].value in bindings
      modifies this
      ensures var es := S.EvalStructLit(old(St()), t, lits);
              St() == es.st && instrStack == old(instrStack) + es.code && exit == es.exit && value == es.value
    {
      hide S.LitFields, LitChecks;
      match bindings[t]
      case Poison =>
        if !NoDuplicates(lits) { EmitDiagnostic(); }
        return Fallthrough, PoisonV;
      case Runtime(_) =>
        EmitDiagnostic();
        return Fallthrough, PoisonV;
      case Comptime(tv) =>
        if !tv.TypeVal? || !tv.ty.TStruct? {
          EmitDiagnostic();
          return Fallthrough, PoisonV;
        }
        var valid := CheckLit(tv.ty.fields, lits);
        var values, locals, mixed, valid' := BuildFields(tv.ty.fields, lits, valid);
        ghost var base := |old(instrStack)|;
        assert instrStack == instrStack[..base] + instrStack[base..];
        if !valid' {
          return Fallthrough, PoisonV;
        }
        return Fallthrough, if mixed then RuntimeV(CompoundLit(tv.ty, locals), tv.ty) else ComptimeV(Struct(tv.ty, values));
    }

    /** The checks before a literal is built: no duplicate, no unknown or ill-typed field, none missing. */
    method CheckLit(fields: seq<Field>, lits: seq<LitField>) returns (valid: bool)
      requires forall i | 0 <= i < |lits| :: lits[i].value in bindings
      modifies this`diagnosed
      ensures valid == LitChecks(old(St()), fields, lits)
      ensures St() == if valid then old(St()) else S.Diagnose(old(St()))
    {
      hide LitChecks;
      valid := NoDuplicates(lits);
      for i := 0 to |lits|
        invariant diagnosed == old(diagnosed)
        invariant valid <==> NoDuplicates(lits) && forall k | 0 <= k < i :: LitFits(St(), fields, lits[k])
      {
        var index := FieldIndex(fields, lits[i].name);
        match bindings[lits[i].value]
        case Poison => valid := false;
        case Comptime(v) => valid := valid && index.Some? && Assignable(TypeOf(v), fields[index.value].ty);
        case Runtime(m) => valid := valid && index.Some? && Assignable(TypeAt(mirTypes, m), fields[index.value].ty);
      }
      hide LitFits;
      ghost var typed := valid;
      for k := 0 to |fields|
        invariant diagnosed == old(diagnosed)
        invariant valid <==> typed && forall j | 0 <= j < k :: FindLit(lits, fields[j].name).Some?
      {
        if FindLit(lits, fields[k].name).None? {
          valid := false;
        }
      }
      ChecksAreFits(St(), fields, lits);
      if !valid { EmitDiagnostic(); }
    }

    method EvalExpr(e: HExpr) returns (exit: Exit, value: EvalValue)
      modifies this
      ensures var es := S.EvalExpr(old(St()), e);
              St() == es.st && instrStack == old(instrStack) + es.code && exit == es.exit && value == es.value
    {
      hide S.EvalFoldable, S.EvalRuntimeOnly, S.EvalEqual, S.EvalNot, S.EvalStructLit, S.EvalMember, S.EvalSetQuota,
        S.Keeps, S.Quiet, TypeAt;
      if exists i | 0 <= i < |Uses(e)| :: Uses(e)[i] !in bindings {
        return Panic, PoisonV;
      }
      match e
      case HValue(v) => return Fallthrough, if v.None? then PoisonV else ComptimeV(v.value);
      case HLocal(x) =>
        assert Uses(e)[0] == x;
        match bindings[x] {
          case Poison => return Fallthrough, PoisonV;
          case Comptime(v) => return Fallthrough, ComptimeV(v);
          case Runtime(m) => return Fallthrough, RuntimeV(LocalRef(m), TypeAt(mirTypes, m));
        }
      case HBuiltin(op, args) =>
        assert forall i | 0 <= i < |args| :: args[i] == Uses(e)[i];
        if op.Foldable? {
          exit, value := EvalRuntimeFoldable(op.f, args);
        } else {
          exit, value := EvalRuntimeOnly(op, args);
        }
      case HEqual(positive, l, r) =>
        assert Uses(e)[0] == l && Uses(e)[1] == r;
        exit, value := EvalEquality(positive, l, r);
      case HNot(x) =>
        assert Uses(e)[0] == x;
        exit, value := EvalLogicalNot(x);
      case HStructLit(t, lits) =>
        assert Uses(e)[0] == t;
        assert forall i | 0 <= i < |lits| :: lits[i].value == Uses(e)[i + 1];
        exit, value := EvalStructLit(t, lits);
      case HMember(obj, name) =>
        assert Uses(e)[0] == obj;
        exit, value := EvalMember(obj, name);
      case HSetQuota(x) =>
        assert Uses(e)[0] == x;
        exit, value := SetEvalBranchQuota(x);
      case HInComptime => return Fallthrough, ComptimeV(Boolean(comptime));
    }

    // ----- instructions -----

    method CheckAnnotation(ty: Option<nat>, value: EvalValue) returns (value': EvalValue)
      requires ty.Some? ==> ty.value in bindings
      modifies this`diagnosed
      ensures var c := S.CheckAnnotation(old(St()), ty, value); St() == c.st && value' == c.value
    {
      if ty.None? || value.PoisonV? {
        return value;
      }
      match bindings[ty.value]
      case Poison => return PoisonV;
      case Runtime(_) =>
        EmitDiagnostic();
        return PoisonV;
      case Comptime(t) =>
        if t.TypeVal? && Assignable(ValueType(value), t.ty) {
          return value;
        }
        EmitDiagnostic();
        return PoisonV;
    }

    method ValueToRuntimeExpr(value: EvalValue) returns (value': EvalValue)
      modifies this`diagnosed
      ensures var c := S.ToRuntime(old(St()), value); St() == c.st && value' == c.value
    {
      if !value.ComptimeV? {
        return value;
      }
      if ComptimeOnly(TypeOf(value.v)) {
        EmitDiagnostic();
        return PoisonV;
      }
      return RuntimeV(Const(value.v), TypeOf(value.v));
    }

    method InsertComptime(x: nat, value: EvalValue)
      modifies this`diagnosed, this`bindings
      ensures St() == S.BindComptime(old(St()), x, value)
    {
      match value
      case PoisonV => bindings := bindings[x := Poison];
      case ComptimeV(v) => bindings := bindings[x := Comptime(v)];
      case RuntimeV(_, _) =>
        EmitDiagnostic();
        bindings := bindings[x := Poison];
    }

    method InsertFresh(x: nat, value: EvalValue)
      requires !comptime && !value.ComptimeV?
      modifies this`bindings, this`mirTypes, this`instrStack
      ensures var r := S.BindFresh(old(St()), x, value); St() == r.st && instrStack == old(instrStack) + r.code && r.exit == Fallthrough
    {
      match value
      case PoisonV => bindings := bindings[x := Poison];
      case RuntimeV(e, ty) =>
        var target := PushType(ty);
        Emit(Set(target, e));
        bindings := bindings[x := Runtime(target)];
    }

    method EvalSet(x: nat, ty: Option<nat>, e: HExpr) returns (exit: Exit)
      modifies this
      ensures var r := S.EvalSet(old(St()), x, ty, e); St() == r.st && instrStack == old(instrStack) + r.code && exit == r.exit
    {
      hide S.EvalExpr, S.CheckAnnotation, S.BindComptime, S.BindFresh;
      var exit', value := EvalExpr(e);
      if exit' != Fallthrough {
        return exit';
      }
      if ty.Some? && ty.value !in bindings {
        return Panic;
      }
      value := CheckAnnotation(ty, value);
      if comptime || value.ComptimeV? {
        InsertComptime(x, value);
      } else {
        InsertFresh(x, value);
      }
      return Fallthrough;
    }

    method EvalSetMut(x: nat, ty: Option<nat>, e: HExpr) returns (exit: Exit)
      modifies this
      ensures var r := S.EvalSetMut(old(St()), x, ty, e); St() == r.st && instrStack == old(instrStack) + r.code && exit == r.exit
    {
      hide S.EvalExpr, S.CheckAnnotation, S.BindComptime, S.BindFresh, S.ToRuntime;
      var exit', value := EvalExpr(e);
      if exit' != Fallthrough {
        return exit';
      }
      if ty.Some? && ty.value !in bindings {
        return Panic;
      }
      value := CheckAnnotation(ty, value);
      if comptime {
        InsertComptime(x, value);
      } else {
        value := ValueToRuntimeExpr(value);
        InsertFresh(x, value);
      }
      return Fallthrough;
    }

    /** The second arm of a run-time branch reuses the local of the first. */
    method Rejoin(x: nat, value: EvalValue) returns (exit: Exit)
      requires !comptime && x in bindings && !value.ComptimeV?
      modifies this
      ensures var r := S.Rejoin(old(St()), x, value); St() == r.st && instrStack == old(instrStack) + r.code && exit == r.exit
    {
      if bindings[x].Poison? || value.PoisonV? {
        bindings := bindings[x := Poison];
        return Fallthrough;
      }
      if bindings[x].Comptime? || bindings[x].m >= |mirTypes| {
        return Panic;
      }
      var m := bindings[x].m;
      match Unify(mirTypes[m], value.ty) {
        case None =>
          EmitDiagnostic();
          bindings := bindings[x := Poison];
        case Some(u) =>
          mirTypes := mirTypes[m := u];
          Emit(Set(m, value.e));
      }
      return Fallthrough;
    }

    method EvalBranchSet(x: nat, e: HExpr) returns (exit: Exit)
      modifies this
      ensures var r := S.EvalBranchSet(old(St()), x, e); St() == r.st && instrStack == old(instrStack) + r.code && exit == r.exit
    {
      hide S.EvalExpr, S.EvalSet, S.BindComptime, S.BindFresh, S.ToRuntime, S.Rejoin;
      if !conditional {
        exit := EvalSet(x, None, e);
        return;
      }
      var exit', value := EvalExpr(e);
      if exit' != Fallthrough {
        return exit';
      }
      if comptime {
        InsertComptime(x, value);
        return Fallthrough;
      }
      value := ValueToRuntimeExpr(value);
      if x !in bindings {
        InsertFresh(x, value);
        return Fallthrough;
      }
      exit := Rejoin(x, value);
    }

    /** The value of an assignment, once evaluated, given to the binding of its target. */
    method AssignValue(x: nat, value: EvalValue) returns (exit: Exit)
      requires x in bindings
      modifies this
      ensures var r := S.AssignChecked(old(St()), x, value); St() == r.st && instrStack == old(instrStack) + r.code && exit == r.exit
    {
      var b := bindings[x];
      if b.Poison? || value.PoisonV? {
        bindings := bindings[x := Poison];
        return Fallthrough;
      }
      var expected := match b case Comptime(v) => TypeOf(v) case Runtime(m) => TypeAt(mirTypes, m);
      var ok := Assignable(ValueType(value), expected);
      if !ok { EmitDiagnostic(); }
      if comptime {
        if b.Runtime? { EmitDiagnostic(); }
        if value.RuntimeV? { EmitDiagnostic(); }
        bindings := bindings[x := if ok && b.Comptime? && value.ComptimeV? then Comptime(value.v) else Poison];
        return Fallthrough;
      }
      if b.Comptime? {
        return Panic;
      }
      var value' := ValueToRuntimeExpr(value);
      if value'.PoisonV? {
        bindings := bindings[x := Poison];
      } else {
        Emit(Set(b.m, value'.e));
      }
      return Fallthrough;
    }

    method EvalAssign(x: nat, e: HExpr) returns (exit: Exit)
      modifies this
      ensures var r := S.EvalAssign(old(St()), x, e); St() == r.st && instrStack == old(instrStack) + r.code && exit == r.exit
    {
      hide S.EvalExpr, S.AssignChecked;
      var exit', value := EvalExpr(e);
      if exit' != Fallthrough {
        return exit';
      }
      if x !in bindings {
        return Panic;
      }
      exit := AssignValue(x, value);
    }

    /** An expression for its effect: it is kept only if it is not known. */
    method EvalEffect(e: HExpr) returns (exit: Exit)
      modifies this
      ensures var r := S.EvalEffect(old(St()), e); St() == r.st && instrStack == old(instrStack) + r.code && exit == r.exit
    {
      hide S.EvalExpr;
      var exit', value := EvalExpr(e);
      if exit' != Fallthrough {
        return exit';
      }
      if value.RuntimeV? {
        if comptime {
          EmitDiagnostic();
        } else {
          var target := PushType(value.ty);
          Emit(Set(target, value.e));
        }
      }
      return Fallthrough;
    }

    method EvalSimple(i: HInstr) returns (exit: Exit)
      requires !i.HIf? && !i.HWhile? && !i.HComptime?
      modifies this
      ensures var r := S.EvalSimple(old(St()), i); St() == r.st && instrStack == old(instrStack) + r.code && exit == r.exit
    {
      hide S.EvalSet, S.EvalSetMut, S.EvalBranchSet, S.EvalAssign, S.EvalEffect;
      match i
      case HSet(x, ty, e) => exit := EvalSet(x, ty, e);
      case HSetMut(x, ty, e) => exit := EvalSetMut(x, ty, e);
      case HBranchSet(x, e) => exit := EvalBranchSet(x, e);
      case HAssign(x, e) => exit := EvalAssign(x, e);
      case HEval(e) => exit := EvalEffect(e);
    }

    // ----- control flow -----

    method EvalBlockInline(b: seq<HInstr>) returns (exit: Exit)
      requires quota.Valid()
      modifies this
      ensures var r := S.EvalBlock(old(St()), b); St() == r.st && instrStack == old(instrStack) + r.code && exit == r.exit
      decreases quota.Left(), b, 3
    {
      hide S.EvalInstr;
      ghost var code: seq<Instr> := [];
      for k := 0 to |b|
        invariant quota.Valid() && quota.spent >= old(quota.spent)
        invariant instrStack == old(instrStack) + code
        invariant S.EvalBlock(old(St()), b) == Prefix(code, S.EvalBlock(St(), b[k..]))
      {
        assert b[k..][0] == b[k] && b[k..][1..] == b[k + 1..];
        ghost var before := St();
        ghost var first := S.EvalInstr(before, b[k]);
        exit := EvalInstr(b[k]);
        assert instrStack == old(instrStack) + (code + first.code);
        if exit != Fallthrough {
          return;
        }
        ghost var rest := S.EvalBlock(St(), b[k + 1..]);
        assert (code + first.code) + rest.code == code + (first.code + rest.code);
        code := code + first.code;
      }
      assert b[|b|..] == [] && code + [] == code;
      return Fallthrough;
    }

    /** A block evaluated on top of the stack, and taken off it as a MIR block of its own. */
    method EvalBlockToMir(b: seq<HInstr>) returns (block: seq<Instr>, exit: Exit)
      requires quota.Valid()
      modifies this
      ensures var r := S.EvalBlock(old(St()), b); St() == r.st && instrStack == old(instrStack) && block == r.code && exit == r.exit
      decreases quota.Left(), b, 4
    {
      hide S.EvalBlock;
      var offset := |instrStack|;
      exit := EvalBlockInline(b);
      block := DrainFrom(offset);
    }

    /** The body of an entry point: being able to leave it at the end is an error. */
    method EvalEntryPointBody(b: seq<HInstr>) returns (block: seq<Instr>, exit: Exit)
      requires quota.Valid()
      modifies this
      ensures var r := S.EvalBlock(old(St()), b);
              && St() == (if r.exit == Fallthrough then S.Diagnose(r.st) else r.st)
              && instrStack == old(instrStack) && block == r.code && exit == r.exit
    {
      hide S.EvalBlock;
      block, exit := EvalBlockToMir(b);
      if exit == Fallthrough {
        EmitDiagnostic();
      }
    }

    method EvalInstr(i: HInstr) returns (exit: Exit)
      requires quota.Valid()
      modifies this
      ensures var r := S.EvalInstr(old(St()), i); St() == r.st && instrStack == old(instrStack) + r.code && exit == r.exit
      decreases quota.Left(), i, 7
    {
      hide S.EvalBlock, S.EvalSimple, S.EvalIf, S.EvalRuntimeWhile, S.EvalComptimeWhile;
      match i
      case HIf(c, t, e) => exit := EvalIf(i);
      case HWhile(cb, c, body) =>
        if comptime {
          exit := EvalComptimeWhile(i);
        } else {
          exit := EvalRuntimeWhile(i);
        }
      case HComptime(body) =>
        var parent := comptime;
        comptime := true;
        exit := EvalBlockInline(body);
        comptime := parent;
      case _ => exit := EvalSimple(i);
    }

    /** Both arms are evaluated, each into a block of its own. */
    method EvalRuntimeIf(i: HInstr, m: nat) returns (exit: Exit)
      requires i.HIf? && quota.Valid() && !comptime && i.condition in bindings && bindings[i.condition] == Runtime(m)
      requires Assignable(TypeAt(mirTypes, m), TBool)
      modifies this
      ensures var r := S.EvalIf(old(St()), i); St() == r.st && instrStack == old(instrStack) + r.code && exit == r.exit
      decreases quota.Left(), i, 5
    {
      hide S.EvalBlock, Joins, Quiet, Refines;
      var previous := conditional;
      conditional := true;
      var thenBlock, thenExit := EvalBlockToMir(i.thenBlock);
      ghost var middle := St();
      var elseBlock, elseExit := EvalBlockToMir(i.elseBlock);
      ghost var torn := thenExit == Fallthrough
                        && exists x | x in Joins(i.thenBlock) * Joins(i.elseBlock) :: !SameBinding(middle, St(), x);
      conditional := previous;
      lossy := lossy || torn;
      Emit(If(m, thenBlock, elseBlock));
      return JoinExits(thenExit, elseExit);
    }

    method EvalIf(i: HInstr) returns (exit: Exit)
      requires i.HIf? && quota.Valid()
      modifies this
      ensures var r := S.EvalIf(old(St()), i); St() == r.st && instrStack == old(instrStack) + r.code && exit == r.exit
      decreases quota.Left(), i, 6
    {
      hide S.EvalBlock, Joins;
      if i.condition !in bindings {
        return Panic;
      }
      match bindings[i.condition]
      case Poison => return ControlFlowPoisoned;
      case Runtime(m) =>
        if !Assignable(TypeAt(mirTypes, m), TBool) || comptime {
          EmitDiagnostic();
          return ControlFlowPoisoned;
        }
        exit := EvalRuntimeIf(i, m);
      case Comptime(v) =>
        if !v.Boolean? {
          EmitDiagnostic();
          return ControlFlowPoisoned;
        }
        var previous := conditional;
        conditional := false;
        exit := EvalBlockInline(if v.b then i.thenBlock else i.elseBlock);
        conditional := previous;
    }

    /** The MIR local a run-time loop tests, or nothing. */
    method LoopConditionLocal(c: nat) returns (local: Option<nat>)
      requires !comptime && c in bindings
      modifies this`diagnosed, this`mirTypes, this`instrStack
      ensures var lc := S.LoopCondition(old(St()), c);
              && St() == lc.st
              && (lc.value.PoisonV? <==> local.None?)
              && (lc.value.PoisonV? ==> instrStack == old(instrStack))
              && (lc.value.RuntimeV? ==> local == Some(lc.value.e.local) && instrStack == old(instrStack))
              && (lc.value.ComptimeV? ==> local == Some(|old(mirTypes)|)
                                          && instrStack == old(instrStack) + [Set(|old(mirTypes)|, Const(lc.value.v))])
    {
      match bindings[c]
      case Poison => return None;
      case Runtime(m) =>
        if !Assignable(TypeAt(mirTypes, m), TBool) {
          EmitDiagnostic();
          return None;
        }
        return Some(m);
      case Comptime(v) =>
        if !Assignable(TypeOf(v), TBool) {
          EmitDiagnostic();
          return None;
        }
        var target := PushType(TypeOf(v));
        Emit(Set(target, Const(v)));
        return Some(target);
    }

    method EvalRuntimeWhile(i: HInstr) returns (exit: Exit)
      requires i.HWhile? && quota.Valid() && !comptime
      modifies this
      ensures var r := S.EvalRuntimeWhile(old(St()), i); St() == r.st && instrStack == old(instrStack) + r.code && exit == r.exit
      decreases quota.Left(), i, 6
    {
      hide S.EvalBlock, S.LoopCondition;
      var offset := |instrStack|;
      ghost var cb := S.EvalBlock(St(), i.conditionBlock);
      exit := EvalBlockInline(i.conditionBlock);
      if exit != Fallthrough {
        // The instructions of the condition block leave the stack here, whatever they were.
        var _ := DrainFrom(offset);
        lossy := lossy || exit == BlockEnd;
        return;
      }
      if i.condition !in bindings {
        var _ := DrainFrom(offset);
        return Panic;
      }
      ghost var lc := S.LoopCondition(cb.st, i.condition);
      ghost var extra := if lc.value.ComptimeV? then [Set(|cb.st.types|, Const(lc.value.v))] else [];
      var local := LoopConditionLocal(i.condition);
      assert instrStack == old(instrStack) + (cb.code + extra);
      var conditionBlock := DrainFrom(offset);
      if local.None? {
        return ControlFlowPoisoned;
      }
      var body, bodyExit := EvalBlockToMir(i.body);
      if bodyExit in {ControlFlowPoisoned, QuotaExhausted, Panic} {
        return bodyExit;
      }
      Emit(While(conditionBlock, local.value, body));
      return Fallthrough;
    }

    method EvalComptimeWhile(i: HInstr) returns (exit: Exit)
      requires i.HWhile? && quota.Valid() && comptime
      modifies this
      ensures var r := S.EvalComptimeWhile(old(St()), i); St() == r.st && instrStack == old(instrStack) + r.code && exit == r.exit
      decreases quota.Left(), i, 6
    {
      hide S.EvalBlock;
      while true
        invariant quota.Valid() && quota.spent >= old(quota.spent) && comptime
        invariant instrStack == old(instrStack)
        invariant S.EvalComptimeWhile(old(St()), i) == S.EvalComptimeWhile(St(), i)
        decreases quota.Left()
      {
        ghost var start := St();
        ghost var cb := S.EvalBlock(start, i.conditionBlock);
        exit := EvalBlockInline(i.conditionBlock);
        if exit != Fallthrough {
          return;
        }
        if i.condition !in bindings {
          return Panic;
        }
        match bindings[i.condition]
        case Poison => return ControlFlowPoisoned;
        case Runtime(_) =>
          EmitDiagnostic();
          return ControlFlowPoisoned;
        case Comptime(v) =>
          if !v.Boolean? {
            EmitDiagnostic();
            return ControlFlowPoisoned;
          }
          if !v.b {
            return Fallthrough;
          }
        var spent := SpentOne(quota);
        if spent.None? {
          EmitDiagnostic();
          return QuotaExhausted;
        }
        quota := spent.value;
        assert LoopDecision(cb.st, i.condition) == Go(St());
        exit := EvalBlockInline(i.body);
        if exit != Fallthrough {
          return;
        }
      }
    }
  }
}
