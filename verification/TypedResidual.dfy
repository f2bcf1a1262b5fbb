/** The residual code of an accepted evaluation is well typed, so the next stage never panics on it. */
module TypedResidual {
  import opened Values
  import opened World
  import opened Mir
  import opened Hir
  import opened Quotas
  import opened Specialiser
  import opened Scoping
  import opened StaticProof
  import opened TypedMir
  import Evm

  predicate Inhabited(ty: Ty) {
    match ty
    case TNever => false
    case TStruct(_, fs) => forall i | 0 <= i < |fs| :: Inhabited(fs[i].ty)
    case _ => true
  }

  /** Types whose values exist at run time. */
  predicate RuntimeType(ty: Ty) {
    Inhabited(ty) && !ComptimeOnly(ty)
  }

  predicate KnownValue(v: Value) {
    WfValue(v) && NoPointer(v)
  }

  lemma {:induction false} KnownInhabited(v: Value)
    requires WfValue(v)
    ensures Inhabited(TypeOf(v))
    decreases v
  {
    match v
    case Struct(ty, fs) =>
      forall i | 0 <= i < |ty.fields| ensures Inhabited(ty.fields[i].ty) { KnownInhabited(fs[i]); }
    case _ =>
  }

  lemma {:induction false} KnownMaterial(v: Value)
    requires KnownValue(v) && !ComptimeOnly(TypeOf(v))
    ensures Material(v) && RuntimeType(TypeOf(v))
    decreases v
  {
    KnownInhabited(v);
    match v
    case Struct(ty, fs) =>
      forall i | 0 <= i < |fs| ensures Material(fs[i]) && TypeOf(fs[i]) == ty.fields[i].ty {
        assert TypeOf(fs[i]) == ty.fields[i].ty && !ComptimeOnly(ty.fields[i].ty);
        KnownMaterial(fs[i]);
      }
    case _ =>
  }

  /** Known values are no pointers, and MIR locals that are bound have types with run-time values. */
  ghost predicate Typed(st: State) {
    forall x | x in st.bindings ::
      match st.bindings[x]
      case Poison => true
      case Comptime(v) => KnownValue(v)
      case Runtime(m) => m < |st.types| && RuntimeType(st.types[m])
  }

  ghost predicate ValueTyped(types: seq<Ty>, value: EvalValue) {
    match value
    case PoisonV => true
    case ComptimeV(v) => KnownValue(v)
    case RuntimeV(e, ty) => ExprTyped(types, e, ty) && RuntimeType(ty)
  }

  /** What an accepted expression leaves. */
  ghost predicate ExprOk(st: State, es: ExprStep) {
    st.types <= es.st.types && BlockTyped(es.st.types, es.code) && ValueTyped(es.st.types, es.value)
  }

  lemma BoundType(st: State, x: nat)
    requires Typed(st) && x in st.bindings && !st.bindings[x].Poison?
    ensures Inhabited(BindingType(st, st.bindings[x]))
    ensures st.bindings[x].Runtime? ==> st.bindings[x].m < |st.types| && RuntimeType(BindingType(st, st.bindings[x]))
  {
    if st.bindings[x].Comptime? { KnownInhabited(st.bindings[x].v); }
  }

  // ----- operands -----

  lemma {:induction false} NothingTyped(types: seq<Ty>)
    ensures BlockTyped(types, [])
  {
  }

  lemma MaterialiseTyped(st: State, b: Binding)
    requires !b.Poison? && (b.Comptime? ==> KnownValue(b.v) && !ComptimeOnly(TypeOf(b.v)))
    requires b.Runtime? ==> b.m < |st.types|
    ensures var ops := Materialise(st, b);
            && st.types <= ops.st.types && BlockTyped(ops.st.types, ops.code)
            && |ops.locals| == 1 && ops.locals[0] < |ops.st.types| && ops.st.types[ops.locals[0]] == BindingType(st, b)
  {
    NothingTyped(st.types);
    match b
    case Comptime(v) =>
      KnownMaterial(v);
      OneTyped(Push(st, TypeOf(v)).types, Set(|st.types|, Const(v)));
    case _ =>
  }

  lemma {:induction false} MaterialiseAllTyped(st: State, args: seq<nat>)
    requires Typed(st) && AllBound(st, args) && forall i | 0 <= i < |args| :: !st.bindings[args[i]].Poison?
    requires forall i | 0 <= i < |args| :: !HoldsComptimeOnly(st.bindings[args[i]])
    ensures var ops := MaterialiseAll(st, args);
            && st.types <= ops.st.types && BlockTyped(ops.st.types, ops.code) && InRange(ops.st.types, ops.locals)
            && forall i | 0 <= i < |args| :: ops.st.types[ops.locals[i]] == BindingType(st, st.bindings[args[i]])
    decreases |args|
  {
    hide BlockTyped, Typed, Materialise, MaterialiseAll, BindingType, HoldsComptimeOnly;
    MaterialiseSteps(st, args);
    if args == [] {
      NothingTyped(st.types);
    } else {
      var first := Materialise(st, st.bindings[args[0]]);
      FirstTyped(st, args[0]);
      MaterialiseAllTyped(first.st, args[1..]);
      var rest := MaterialiseAll(first.st, args[1..]);
      BlockGrows(first.st.types, rest.st.types, first.code);
      BlockConcat(rest.st.types, first.code, rest.code);
      forall x | x in args[1..] ensures BindingType(first.st, st.bindings[x]) == BindingType(st, st.bindings[x]) {
        SameBindingType(st, first.st, x);
      }
      TypesOfAll(st, first.st, args, first.locals[0], rest.locals, rest.st.types);
      assert first.locals + rest.locals == [first.locals[0]] + rest.locals;
    }
  }

  lemma FirstTyped(st: State, x: nat)
    requires Typed(st) && x in st.bindings && !st.bindings[x].Poison? && !HoldsComptimeOnly(st.bindings[x])
    ensures var ops := Materialise(st, st.bindings[x]);
            && Typed(ops.st) && ops.st.bindings == st.bindings
            && st.types <= ops.st.types && BlockTyped(ops.st.types, ops.code)
            && |ops.locals| == 1 && ops.locals[0] < |ops.st.types|
            && ops.st.types[ops.locals[0]] == BindingType(st, st.bindings[x])
  {
    hide KnownValue, ComptimeOnly, RuntimeType, BlockTyped;
    MaterialiseTyped(st, st.bindings[x]);
  }

  lemma {:induction false} TypesOfAll(st: State, st': State, args: seq<nat>, l: nat, rest: seq<nat>, types: seq<Ty>)
    requires AllBound(st, args) && args != [] && (forall i | 0 <= i < |args| :: !st.bindings[args[i]].Poison?) && st'.bindings == st.bindings
    requires l < |types| && types[l] == BindingType(st, st.bindings[args[0]]) && InRange(types, rest) && |rest| == |args| - 1
    requires forall i | 0 <= i < |rest| :: types[rest[i]] == BindingType(st', st.bindings[args[1..][i]])
    requires forall x | x in args[1..] :: BindingType(st', st.bindings[x]) == BindingType(st, st.bindings[x])
    ensures InRange(types, [l] + rest)
    ensures forall i | 0 <= i < |args| :: types[([l] + rest)[i]] == BindingType(st, st.bindings[args[i]])
  {
    hide BindingType;
    forall i | 0 <= i < |args| ensures types[([l] + rest)[i]] == BindingType(st, st.bindings[args[i]]) {
      if i > 0 { assert ([l] + rest)[i] == rest[i - 1] && args[1..][i - 1] == args[i]; }
    }
  }

  lemma SameBindingType(st: State, st': State, x: nat)
    requires Typed(st) && x in st.bindings && !st.bindings[x].Poison? && st.types <= st'.types
    ensures BindingType(st', st.bindings[x]) == BindingType(st, st.bindings[x])
  {
    hide KnownValue, RuntimeType;
  }

  // ----- operations -----

  /** A matching signature has scalar parameters and the result the operation leaves. */
  lemma ResultTyped(op: Op, tys: seq<Ty>, ty: Ty)
    requires WfOp(op) && ResultType(op, tys) == Some(ty) && forall i | 0 <= i < |tys| :: tys[i] != TNever
    ensures OpTyped(op, ty) && |tys| == OpArity(op) && forall i | 0 <= i < |tys| :: Scalar(tys[i])
    ensures ty != TNever ==> RuntimeType(ty)
  {
    hide Signatures, Matches;
    var i :| 0 <= i < |Signatures(op)| && Matches(Signatures(op)[i], tys) && Signatures(op)[i].result == ty;
    SignatureTyped(op, i);
    MatchedScalars(Signatures(op)[i], tys);
  }

  lemma SignatureTyped(op: Op, i: nat)
    requires WfOp(op) && i < |Signatures(op)|
    ensures var sig := Signatures(op)[i];
            && |sig.params| == OpArity(op) && OpTyped(op, sig.result)
            && (forall k | 0 <= k < |sig.params| :: Scalar(sig.params[k]))
            && (sig.result != TNever ==> RuntimeType(sig.result))
  {
  }

  lemma MatchedScalars(sig: Sig, tys: seq<Ty>)
    requires Matches(sig, tys) && (forall k | 0 <= k < |sig.params| :: Scalar(sig.params[k]))
    requires forall i | 0 <= i < |tys| :: tys[i] != TNever
    ensures |tys| == |sig.params| && forall i | 0 <= i < |tys| :: Scalar(tys[i])
  {
  }

  lemma ArgsInhabited(st: State, args: seq<nat>)
    requires Typed(st) && AllBound(st, args) && ArgTypes(st, args).Some?
    ensures forall i | 0 <= i < |args| :: ArgTypes(st, args).value[i] != TNever
  {
    forall i | 0 <= i < |args| ensures ArgTypes(st, args).value[i] != TNever { BoundType(st, args[i]); }
  }

  lemma EmitTyped(st: State, op: Op, args: seq<nat>, ty: Ty)
    requires Typed(st) && AllBound(st, args) && ArgTypes(st, args).Some? && WfOp(op)
    requires ResultType(op, ArgTypes(st, args).value) == Some(ty) && EmitBuiltin(st, op, args, ty).exit != Panic
    ensures ExprOk(st, EmitBuiltin(st, op, args, ty))
  {
    hide Signatures, ResultType, OpArity, Scalar, RuntimeType, OpTyped, BlockTyped, BindingType, ComptimeOnly;
    var tys := ArgTypes(st, args).value;
    ArgsInhabited(st, args);
    ResultTyped(op, tys, ty);
    MaterialiseAllTyped(st, args);
    var ops := MaterialiseAll(st, args);
    if ty == TNever {
      var later := ops.st.types + [TNever];
      var set_ := Set(|ops.st.types|, Builtin(op, ops.locals));
      assert ExprTyped(ops.st.types, Builtin(op, ops.locals), TNever);
      ExprGrows(ops.st.types, later, Builtin(op, ops.locals), TNever);
      OneTyped(later, set_);
      BlockGrows(ops.st.types, later, ops.code);
      BlockConcat(later, ops.code, [set_]);
    }
  }

  lemma FoldKnown(f: Evm.FoldOp, args: seq<Value>, ty: Ty)
    requires (forall i | 0 <= i < |args| :: KnownValue(args[i])) && FoldValue(f, args, ty).Some?
    ensures KnownValue(FoldValue(f, args, ty).value)
  {
    hide Evm.Fold, Evm.Meaning;
    var words := Words(args).value;
    forall i | 0 <= i < |words| ensures words[i] < WORD {
      assert WfValue(args[i]);
    }
    Evm.FoldMeansOp(f, words);
  }

  lemma FoldableTyped(st: State, f: Evm.FoldOp, args: seq<nat>)
    requires Typed(st) && AllBound(st, args)
    requires EvalFoldable(st, f, args).exit != Panic && !EvalFoldable(st, f, args).st.diagnosed
    ensures ExprOk(st, EvalFoldable(st, f, args))
  {
    hide ResultType, FoldValue, EmitBuiltin, KnownValue, BlockTyped;
    NothingTyped(st.types);
    match ArgTypes(st, args)
    case None =>
    case Some(tys) =>
      match ResultType(Foldable(f), tys)
      case None =>
      case Some(ty) =>
        if Known(st, args).Some? {
          var vs := Known(st, args).value;
          forall i | 0 <= i < |vs| ensures KnownValue(vs[i]) { assert args[i] in st.bindings; }
          FoldKnown(f, vs, ty);
        } else if !st.comptime {
          EmitTyped(st, Foldable(f), args, ty);
        }
  }

  lemma RuntimeOnlyTyped(st: State, op: Op, args: seq<nat>)
    requires Typed(st) && AllBound(st, args) && WfOp(op)
    requires EvalRuntimeOnly(st, op, args).exit != Panic && !EvalRuntimeOnly(st, op, args).st.diagnosed
    ensures ExprOk(st, EvalRuntimeOnly(st, op, args))
  {
    hide ResultType, EmitBuiltin, BlockTyped;
    NothingTyped(st.types);
    if ArgTypes(st, args).Some? && ResultType(op, ArgTypes(st, args).value).Some? && !st.comptime {
      EmitTyped(st, op, args, ResultType(op, ArgTypes(st, args).value).value);
    }
  }

  // ----- operators -----

  lemma NotTyped(st: State, x: nat)
    requires Typed(st) && x in st.bindings
    ensures EvalNot(st, x).exit != Panic && !EvalNot(st, x).st.diagnosed ==> ExprOk(st, EvalNot(st, x))
  {
    NothingTyped(st.types);
    hide BlockTyped;
    if !st.bindings[x].Poison? { BoundType(st, x); }
  }

  lemma XorTyped(types: seq<Ty>, locals: seq<nat>)
    requires |locals| == 2 && InRange(types, locals) && types[locals[0]] == types[locals[1]] == TBool
    ensures ExprTyped(types, Builtin(Foldable(Evm.Xor), locals), TBool) && RuntimeType(TBool)
  {
  }

  lemma {:induction false} EqThenIsZero(types: seq<Ty>, code: seq<Instr>, locals: seq<nat>)
    requires BlockTyped(types, code) && |locals| == 2 && InRange(types, locals)
    requires Scalar(types[locals[0]]) && Scalar(types[locals[1]])
    ensures var later := types + [TBool];
            && BlockTyped(later, code + [Set(|types|, Builtin(Foldable(Evm.Eq), locals))])
            && ExprTyped(later, Builtin(Foldable(Evm.IsZero), [|types|]), TBool) && RuntimeType(TBool)
  {
    var later := types + [TBool];
    var eq := Builtin(Foldable(Evm.Eq), locals);
    assert ExprTyped(types, eq, TBool);
    hide BlockTyped;
    ExprGrows(types, later, eq, TBool);
    OneTyped(later, Set(|types|, eq));
    BlockGrows(types, later, code);
    BlockConcat(later, code, [Set(|types|, eq)]);
  }

  lemma NotEqualTyped(st: State, ty: Ty, l: nat, r: nat)
    requires Typed(st) && l in st.bindings && r in st.bindings && !st.bindings[l].Poison? && !st.bindings[r].Poison?
    requires BindingType(st, st.bindings[l]) == BindingType(st, st.bindings[r]) == ty && Scalar(ty)
    ensures !EvalNotEqual(st, ty, l, r).st.diagnosed ==> ExprOk(st, EvalNotEqual(st, ty, l, r))
  {
    hide BlockTyped, MaterialiseAll, KnownValue, RuntimeType, Typed, BindingType, ExprTyped;
    NothingTyped(st.types);
    if st.bindings[l].Comptime? && st.bindings[r].Comptime? {
      assert KnownValue(Boolean(st.bindings[l].v != st.bindings[r].v)) by { BooleanKnown(); }
    } else if !st.comptime {
      var args := [l, r];
      assert args[0] == l && args[1] == r;
      ScalarsOnly(st, args, ty);
      MaterialiseAllTyped(st, args);
      var ops := MaterialiseAll(st, args);
      assert ops.st.types[ops.locals[0]] == ty && ops.st.types[ops.locals[1]] == ty;
      if ty == TBool { XorTyped(ops.st.types, ops.locals); } else { EqThenIsZero(ops.st.types, ops.code, ops.locals); }
    }
  }

  lemma BooleanKnown()
    ensures forall b: bool :: KnownValue(Boolean(b))
  {
  }

  lemma ScalarsOnly(st: State, args: seq<nat>, ty: Ty)
    requires AllBound(st, args) && Scalar(ty)
    requires forall i | 0 <= i < |args| :: !st.bindings[args[i]].Poison? && BindingType(st, st.bindings[args[i]]) == ty
    ensures forall i | 0 <= i < |args| :: !HoldsComptimeOnly(st.bindings[args[i]])
  {
  }

  lemma EqualTyped(st: State, positive: bool, l: nat, r: nat)
    requires Typed(st) && l in st.bindings && r in st.bindings
    requires EvalEqual(st, positive, l, r).exit != Panic && !EvalEqual(st, positive, l, r).st.diagnosed
    ensures ExprOk(st, EvalEqual(st, positive, l, r))
  {
    NothingTyped(st.types);
    hide EvalFoldable, EvalNotEqual, BlockTyped;
    var (bl, br) := (st.bindings[l], st.bindings[r]);
    if !bl.Poison? && !br.Poison? && BindingType(st, bl) == BindingType(st, br) && Scalar(BindingType(st, bl)) {
      if positive { FoldableTyped(st, Evm.Eq, [l, r]); } else { NotEqualTyped(st, BindingType(st, bl), l, r); }
    }
  }

  // ----- compound values -----

  lemma MemberTyped(st: State, obj: nat, name: nat)
    requires Typed(st) && obj in st.bindings
    requires EvalMember(st, obj, name).exit != Panic && !EvalMember(st, obj, name).st.diagnosed
    ensures ExprOk(st, EvalMember(st, obj, name))
  {
    NothingTyped(st.types);
    hide BlockTyped;
  }

  /** The buffers of a literal whose first fields, of types `done`, were handled. */
  ghost predicate LitTyped(base: seq<Ty>, acc: Lit, done: seq<Ty>) {
    && base <= acc.types && BlockTyped(acc.types, acc.code)
    && (acc.mixed ==> LocalsTyped(acc.types, acc.locals, done))
    && (!acc.mixed ==> acc.code == [] && acc.locals == [] && ValuesTyped(acc.values, done))
  }

  predicate LocalsTyped(types: seq<Ty>, locals: seq<nat>, done: seq<Ty>) {
    && |locals| == |done| && InRange(types, locals)
    && forall j | 0 <= j < |done| :: types[locals[j]] == done[j] && RuntimeType(done[j])
  }

  predicate ValuesTyped(values: seq<Value>, done: seq<Ty>) {
    |values| == |done| && forall j | 0 <= j < |done| :: KnownValue(values[j]) && TypeOf(values[j]) == done[j]
  }

  lemma LitConstTyped(acc: Lit, v: Value, done: seq<Ty>)
    requires BlockTyped(acc.types, acc.code) && LocalsTyped(acc.types, acc.locals, done) && KnownValue(v) && LitConst(acc, v).valid
    ensures var r := LitConst(acc, v);
            && acc.types <= r.types && BlockTyped(r.types, r.code) && LocalsTyped(r.types, r.locals, done + [TypeOf(v)])
            && r.mixed == acc.mixed && r.values == acc.values
  {
    KnownMaterial(v);
    hide BlockTyped, KnownValue, RuntimeType, ComptimeOnly, Material;
    var later := acc.types + [TypeOf(v)];
    var set_ := Set(|acc.types|, Const(v));
    assert InstrTyped(later, set_);
    OneTyped(later, set_);
    BlockGrows(acc.types, later, acc.code);
    BlockConcat(later, acc.code, [set_]);
  }

  lemma {:induction false} LitConstsTyped(acc: Lit, vs: seq<Value>, done: seq<Ty>, rest: seq<Ty>)
    requires BlockTyped(acc.types, acc.code) && LocalsTyped(acc.types, acc.locals, done) && ValuesTyped(vs, rest)
    requires LitConsts(acc, vs).valid
    ensures var r := LitConsts(acc, vs);
            acc.types <= r.types && BlockTyped(r.types, r.code) && LocalsTyped(r.types, r.locals, done + rest)
    decreases |vs|
  {
    hide BlockTyped, LocalsTyped, KnownValue, LitConst;
    if vs == [] {
      assert done + rest == done;
    } else {
      LitConstTyped(acc, vs[0], done);
      LitConstsTyped(LitConst(acc, vs[0]), vs[1..], done + [TypeOf(vs[0])], rest[1..]);
      assert done + [TypeOf(vs[0])] + rest[1..] == done + rest;
    }
  }

  lemma {:induction false} NoLocals(types: seq<Ty>)
    ensures LocalsTyped(types, [], []) && BlockTyped(types, []) && ValuesTyped([], [])
  {
  }

  lemma LocalTyped(types: seq<Ty>, locals: seq<nat>, done: seq<Ty>, m: nat)
    requires LocalsTyped(types, locals, done) && m < |types| && RuntimeType(types[m])
    ensures LocalsTyped(types, locals + [m], done + [types[m]])
  {
    hide RuntimeType;
  }

  lemma {:induction false} LitStepTyped(st: State, acc: Lit, field: Field, lits: seq<LitField>, done: seq<Ty>)
    requires Typed(st) && LitTyped(st.types, acc, done) && forall i | 0 <= i < |lits| :: lits[i].value in st.bindings
    requires FindLit(lits, field.name).Some?
    requires var b := st.bindings[lits[FindLit(lits, field.name).value].value]; !b.Poison? && BindingType(st, b) == field.ty
    requires LitStep(st, acc, field, lits).valid
    ensures LitTyped(st.types, LitStep(st, acc, field, lits), done + [field.ty])
  {
    var x := lits[FindLit(lits, field.name).value].value;
    BoundType(st, x);
    hide BlockTyped, LocalsTyped, KnownValue, RuntimeType, LitConst, LitConsts, ComptimeOnly;
    match st.bindings[x]
    case Runtime(m) =>
      if !acc.mixed {
        NoLocals(acc.types);
        LitConstsTyped(acc, acc.values, [], done);
        assert [] + done == done;
      }
      var acc' := if acc.mixed then acc else LitConsts(acc, acc.values).(mixed := true);
      LocalTyped(acc'.types, acc'.locals, done, m);
    case Comptime(v) => if acc.mixed { LitConstTyped(acc, v, done); }
  }

  predicate Given(st: State, field: Field, lits: seq<LitField>)
    requires forall i | 0 <= i < |lits| :: lits[i].value in st.bindings
  {
    && FindLit(lits, field.name).Some?
    && var b := st.bindings[lits[FindLit(lits, field.name).value].value];
    !b.Poison? && BindingType(st, b) == field.ty
  }

  function FieldTypes(fields: seq<Field>): (r: seq<Ty>)
    ensures |r| == |fields| && forall i | 0 <= i < |fields| :: r[i] == fields[i].ty
  {
    seq(|fields|, i requires 0 <= i < |fields| => fields[i].ty)
  }

  lemma {:induction false} LitFieldsTyped(st: State, acc: Lit, fields: seq<Field>, lits: seq<LitField>, done: seq<Ty>)
    requires Typed(st) && LitTyped(st.types, acc, done) && forall i | 0 <= i < |lits| :: lits[i].value in st.bindings
    requires forall k | 0 <= k < |fields| :: Given(st, fields[k], lits)
    requires LitFields(st, acc, fields, lits).valid
    ensures LitTyped(st.types, LitFields(st, acc, fields, lits), done + FieldTypes(fields))
    decreases |fields|
  {
    hide LitTyped, LitStep, Typed;
    if fields == [] {
      assert done + FieldTypes(fields) == done;
    } else {
      assert Given(st, fields[0], lits);
      LitStepTyped(st, acc, fields[0], lits, done);
      forall k | 0 <= k < |fields[1..]| ensures Given(st, fields[1..][k], lits) { assert fields[1..][k] == fields[k + 1]; }
      LitFieldsTyped(st, LitStep(st, acc, fields[0], lits), fields[1..], lits, done + [fields[0].ty]);
      assert done + [fields[0].ty] + FieldTypes(fields[1..]) == done + FieldTypes(fields);
    }
  }

  /** The checks give every field of the definition a value of its type. */
  lemma ChecksGive(st: State, fields: seq<Field>, lits: seq<LitField>, k: nat)
    requires Typed(st) && DistinctNames(fields) && k < |fields| && forall i | 0 <= i < |lits| :: lits[i].value in st.bindings
    requires LitChecks(st, fields, lits)
    ensures Given(st, fields[k], lits)
  {
    var i := FindLit(lits, fields[k].name).value;
    var j := FieldIndex(fields, lits[i].name).value;
    SameIndex(fields, j, k);
    BoundType(st, lits[i].value);
  }

  lemma SameIndex(fields: seq<Field>, j: nat, k: nat)
    requires DistinctNames(fields) && j < |fields| && k < |fields| && fields[j].name == fields[k].name
    ensures j == k
  {
  }

  lemma LiteralTyped(st: State, t: nat, lits: seq<LitField>)
    requires Typed(st) && t in st.bindings && forall i | 0 <= i < |lits| :: lits[i].value in st.bindings
    requires !EvalStructLit(st, t, lits).st.diagnosed
    ensures ExprOk(st, EvalStructLit(st, t, lits))
  {
    NothingTyped(st.types);
    hide BlockTyped, LocalsTyped, ValuesTyped, Given, RuntimeType, LitFields, Covers, KnownValue;
    if st.bindings[t].Comptime? && st.bindings[t].v.TypeVal? && st.bindings[t].v.ty.TStruct? {
      var ty := st.bindings[t].v.ty;
      assert KnownValue(st.bindings[t].v);
      KnownTypeNames(st.bindings[t].v);
      AcceptedIsBuilt(st, t, lits);
      BuiltTyped(st, ty, lits);
    }
  }

  /** A literal that is not diagnosed passed the checks and was built. */
  lemma {:induction false} AcceptedIsBuilt(st: State, t: nat, lits: seq<LitField>)
    requires t in st.bindings && forall i | 0 <= i < |lits| :: lits[i].value in st.bindings
    requires st.bindings[t].Comptime? && st.bindings[t].v.TypeVal? && st.bindings[t].v.ty.TStruct?
    requires !EvalStructLit(st, t, lits).st.diagnosed
    ensures var ty := st.bindings[t].v.ty;
            && LitChecks(st, ty.fields, lits) && !st.diagnosed
            && LitFields(st, Lit(st.types, st.diagnosed, [], [], [], false, true), ty.fields, lits).valid
  {
    hide LitFields;
    var ty := st.bindings[t].v.ty;
    if LitChecks(st, ty.fields, lits) {
      LitDiagnosed(st, Lit(st.types, st.diagnosed, [], [], [], false, true), ty.fields, lits);
    }
  }

  lemma KnownTypeNames(v: Value)
    requires KnownValue(v) && v.TypeVal? && v.ty.TStruct?
    ensures DistinctNames(v.ty.fields)
  {
  }

  lemma {:induction false} BuiltTyped(st: State, ty: Ty, lits: seq<LitField>)
    requires Typed(st) && ty.TStruct? && DistinctNames(ty.fields) && forall i | 0 <= i < |lits| :: lits[i].value in st.bindings
    requires LitChecks(st, ty.fields, lits)
    requires LitFields(st, Lit(st.types, st.diagnosed, [], [], [], false, true), ty.fields, lits).valid
    ensures var r := LitFields(st, Lit(st.types, st.diagnosed, [], [], [], false, true), ty.fields, lits);
            && st.types <= r.types && BlockTyped(r.types, r.code)
            && (r.mixed ==> ExprTyped(r.types, CompoundLit(ty, r.locals), ty) && RuntimeType(ty))
            && (!r.mixed ==> KnownValue(Struct(ty, r.values)))
  {
    hide BlockTyped, LocalsTyped, ValuesTyped, Given, LitChecks, RuntimeType, LitFields, Typed, KnownValue;
    NoLocals(st.types);
    forall k | 0 <= k < |ty.fields| ensures Given(st, ty.fields[k], lits) { ChecksGive(st, ty.fields, lits, k); }
    var acc := Lit(st.types, st.diagnosed, [], [], [], false, true);
    LitFieldsTyped(st, acc, ty.fields, lits, []);
    assert [] + FieldTypes(ty.fields) == FieldTypes(ty.fields);
    LitOutcome(st.types, LitFields(st, acc, ty.fields, lits), ty);
  }

  lemma LitOutcome(base: seq<Ty>, r: Lit, ty: Ty)
    requires ty.TStruct? && LitTyped(base, r, FieldTypes(ty.fields))
    ensures r.mixed ==> ExprTyped(r.types, CompoundLit(ty, r.locals), ty) && RuntimeType(ty)
    ensures !r.mixed ==> KnownValue(Struct(ty, r.values))
  {
    hide BlockTyped;
  }

  // ----- expressions -----

  lemma ExprTypedOk(st: State, vis: set<nat>, e: HExpr)
    requires Typed(st) && WfExpr(vis, e)
    requires EvalExpr(st, e).exit != Panic && !EvalExpr(st, e).st.diagnosed
    ensures ExprOk(st, EvalExpr(st, e))
  {
    hide EvalStructLit, EvalFoldable, EvalRuntimeOnly, EvalEqual, EvalNot, EvalMember, EvalSetQuota, ExprOk, Typed, Keeps, Quiet;
    match e
    case HBuiltin(op, args) => if op.Foldable? { FoldableTyped(st, op.f, args); } else { RuntimeOnlyTyped(st, op, args); }
    case HEqual(positive, l, r) =>
      assert Uses(e)[0] == l && Uses(e)[1] == r;
      EqualTyped(st, positive, l, r);
    case HNot(x) =>
      assert Uses(e)[0] == x;
      NotTyped(st, x);
    case HStructLit(t, lits) =>
      assert Uses(e)[0] == t;
      assert forall i | 0 <= i < |lits| :: lits[i].value == Uses(e)[i + 1];
      LiteralTyped(st, t, lits);
    case HMember(obj, name) =>
      assert Uses(e)[0] == obj;
      MemberTyped(st, obj, name);
    case _ => PlainTyped(st, vis, e);
  }

  lemma PlainTyped(st: State, vis: set<nat>, e: HExpr)
    requires Typed(st) && WfExpr(vis, e) && (e.HLocal? || e.HSetQuota? || e.HValue? || e.HInComptime?)
    requires EvalExpr(st, e).exit != Panic && !EvalExpr(st, e).st.diagnosed
    ensures ExprOk(st, EvalExpr(st, e))
  {
    hide BlockTyped, RuntimeType, Keeps, Quiet;
    NothingTyped(st.types);
    match e
    case HLocal(x) => assert Uses(e)[0] == x;
    case HSetQuota(x) => assert Uses(e)[0] == x;
    case HValue(_) =>
    case HInComptime =>
  }

  // ----- instructions -----

  /** What an accepted instruction leaves. */
  ghost predicate StepOk(st: State, r: Step) {
    Typed(r.st) && st.types <= r.st.types && BlockTyped(r.st.types, r.code)
  }

  lemma TypedGrows(st: State, st': State)
    requires Typed(st) && st'.bindings == st.bindings && st.types <= st'.types
    ensures Typed(st')
  {
    hide KnownValue, RuntimeType;
  }

  lemma BindKnown(st: State, x: nat, v: Value)
    requires Typed(st) && KnownValue(v)
    ensures Typed(Bind(st, x, Comptime(v)))
  {
    hide KnownValue, RuntimeType;
  }

  lemma BindPoison(st: State, x: nat)
    requires Typed(st)
    ensures Typed(Bind(st, x, Poison))
  {
    hide KnownValue, RuntimeType;
  }

  lemma BindComptimeTyped(st: State, x: nat, value: EvalValue)
    requires Typed(st) && ValueTyped(st.types, value) && !BindComptime(st, x, value).diagnosed
    ensures StepOk(st, Step(BindComptime(st, x, value), [], Fallthrough))
  {
    hide KnownValue, RuntimeType, ExprTyped;
    NothingTyped(st.types);
    match value
    case PoisonV => BindPoison(st, x);
    case ComptimeV(v) => BindKnown(st, x, v);
    case RuntimeV(_, _) =>
  }

  lemma ToRuntimeTyped(st: State, value: EvalValue)
    requires ValueTyped(st.types, value) && !ToRuntime(st, value).st.diagnosed
    ensures ToRuntime(st, value).st == st && ValueTyped(st.types, ToRuntime(st, value).value)
  {
    if value.ComptimeV? && !ComptimeOnly(TypeOf(value.v)) { KnownMaterial(value.v); }
  }

  lemma BindFreshTyped(st: State, x: nat, value: EvalValue)
    requires Typed(st) && ValueTyped(st.types, value) && !value.ComptimeV?
    ensures StepOk(st, BindFresh(st, x, value))
  {
    hide KnownValue, RuntimeType, ExprTyped, BlockTyped;
    NothingTyped(st.types);
    match value
    case PoisonV => BindPoison(st, x);
    case RuntimeV(e, ty) =>
      ExprGrows(st.types, st.types + [ty], e, ty);
      OneTyped(st.types + [ty], Set(|st.types|, e));
  }

  lemma RejoinTyped(st: State, x: nat, value: EvalValue)
    requires Typed(st) && ValueTyped(st.types, value) && x in st.bindings && !value.ComptimeV?
    requires Rejoin(st, x, value).exit != Panic && !Rejoin(st, x, value).st.diagnosed
    ensures StepOk(st, Rejoin(st, x, value))
  {
    NothingTyped(st.types);
    BindPoison(st, x);
    if st.bindings[x].Runtime? && value.RuntimeV? {
      var m := st.bindings[x].m;
      assert st.types[m] != TNever && value.ty != TNever;
      hide KnownValue, RuntimeType, ExprTyped, BlockTyped;
      assert st.types[m := st.types[m]] == st.types;
      if st.types[m] == value.ty { OneTyped(st.types, Set(m, value.e)); }
    }
  }

  lemma StoreTyped(st: State, x: nat, value: EvalValue)
    requires Typed(st) && ValueTyped(st.types, value)
    ensures var r := StoreSet(st, x, value); !r.st.diagnosed ==> StepOk(st, r)
    ensures var r := StoreMut(st, x, value); !r.st.diagnosed ==> StepOk(st, r)
    ensures var r := StoreBranch(st, x, value); !r.st.diagnosed && r.exit != Panic ==> StepOk(st, r)
  {
    hide StepOk, ValueTyped, Typed, BindComptime, BindFresh, Rejoin, ToRuntime, StepKeeps, Quiet;
    if !BindComptime(st, x, value).diagnosed { BindComptimeTyped(st, x, value); }
    if !value.ComptimeV? { BindFreshTyped(st, x, value); }
    if !ToRuntime(st, value).st.diagnosed {
      ToRuntimeTyped(st, value);
      var v := ToRuntime(st, value).value;
      BindFreshTyped(st, x, v);
      if x in st.bindings && Rejoin(st, x, v).exit != Panic && !Rejoin(st, x, v).st.diagnosed { RejoinTyped(st, x, v); }
    }
    DiagnosedStays(st, x, value);
  }

  /** A diagnostic on the way to the run-time value is still there in the end. */
  lemma DiagnosedStays(st: State, x: nat, value: EvalValue)
    ensures ToRuntime(st, value).st.diagnosed && !st.comptime ==>
              StoreMut(st, x, value).st.diagnosed && StoreBranch(st, x, value).st.diagnosed
  {
    hide ToRuntime, Rejoin, BindFresh;
  }

  lemma AssignTyped(st: State, x: nat, value: EvalValue)
    requires Typed(st) && ValueTyped(st.types, value) && x in st.bindings
    requires AssignChecked(st, x, value).exit != Panic && !AssignChecked(st, x, value).st.diagnosed
    ensures StepOk(st, AssignChecked(st, x, value))
  {
    NothingTyped(st.types);
    BindPoison(st, x);
    var b := st.bindings[x];
    if !b.Poison? && !value.PoisonV? {
      if st.comptime {
        if value.ComptimeV? { BindKnown(st, x, value.v); }
      } else if b.Runtime? {
        AssignedType(st, b, value);
        hide KnownValue, RuntimeType, ExprTyped, BlockTyped, ComptimeOnly;
        if !ToRuntime(st, value).st.diagnosed {
          ToRuntimeTyped(st, value);
          var v := ToRuntime(st, value).value;
          if v.RuntimeV? && v.ty == st.types[b.m] { OneTyped(st.types, Set(b.m, v.e)); }
        }
      }
    }
  }

  /** What may be assigned to a bound local has its type. */
  lemma AssignedType(st: State, b: Binding, value: EvalValue)
    requires Typed(st) && ValueTyped(st.types, value) && b in st.bindings.Values && b.Runtime? && !value.PoisonV?
    ensures Assignable(ValueType(value), BindingType(st, b)) ==> ValueType(value) == BindingType(st, b) == st.types[b.m]
  {
    if value.ComptimeV? { KnownInhabited(value.v); }
  }

  lemma AfterExpr(st: State, es: ExprStep, r: Step)
    requires ExprOk(st, es) && StepOk(es.st, r)
    ensures StepOk(st, Prefix(es.code, r))
  {
    hide Typed, BlockTyped, ValueTyped;
    BlockGrows(es.st.types, r.st.types, es.code);
    BlockConcat(r.st.types, es.code, r.code);
  }

  lemma {:induction false} SimpleTyped(st: State, vis: set<nat>, i: HInstr)
    requires !i.HIf? && !i.HWhile? && !i.HComptime?
    requires Typed(st) && Wf(vis, st.comptime, i) && Accepted(EvalSimple(st, i))
    ensures StepOk(st, EvalSimple(st, i))
  {
    hide EvalExpr, WfExpr, StoreSet, StoreMut, StoreBranch, AssignChecked, CheckAnnotation, BlockTyped, ValueTyped, Typed,
      StepKeeps, Quiet, EvalEffect;
    var es := EvalExpr(st, i.e);
    assert es.st.bindings == st.bindings;
    SimpleMonotone(st, i);
    ExprTypedOk(st, vis, i.e);
    TypedGrows(st, es.st);
    if es.exit == Fallthrough { StoredTyped(st, es, i); } else { CutShort(st, i); }
  }

  lemma CutShort(st: State, i: HInstr)
    requires !i.HIf? && !i.HWhile? && !i.HComptime? && EvalExpr(st, i.e).exit != Fallthrough
    ensures var es := EvalExpr(st, i.e); EvalSimple(st, i) == Step(es.st, es.code, es.exit)
  {
    hide EvalExpr, StoreSet, StoreMut, StoreBranch, AssignChecked;
  }

  /** An instruction is only accepted if its expression was. */
  lemma SimpleMonotone(st: State, i: HInstr)
    requires !i.HIf? && !i.HWhile? && !i.HComptime? && Accepted(EvalSimple(st, i))
    ensures EvalExpr(st, i.e).exit != Panic && !EvalExpr(st, i.e).st.diagnosed
  {
    hide EvalExpr, StoreSet, StoreMut, StoreBranch, AssignChecked;
  }

  lemma StoredTyped(st: State, es: ExprStep, i: HInstr)
    requires !i.HIf? && !i.HWhile? && !i.HComptime? && es == EvalExpr(st, i.e) && es.exit == Fallthrough
    requires ExprOk(st, es) && Typed(es.st) && Accepted(EvalSimple(st, i)) && st.comptime == es.st.comptime
    requires st.conditional == es.st.conditional
    ensures StepOk(st, EvalSimple(st, i))
  {
    hide EvalExpr, StoreSet, StoreMut, StoreBranch, AssignChecked, CheckAnnotation, BlockTyped, ValueTyped, Typed, ExprOk, StepOk,
      StepKeeps, Quiet;
    assert ValueTyped(es.st.types, es.value) by { ExprOkValue(st, es); }
    match i
    case HSet(x, ty, e) =>
      var c := CheckedTyped(es.st, ty, es.value);
      StoreTyped(c.st, x, c.value);
      AfterExpr(st, es, StoreSet(c.st, x, c.value)) by { SameTypes(es.st, c.st, StoreSet(c.st, x, c.value)); }
    case HSetMut(x, ty, e) =>
      var c := CheckedTyped(es.st, ty, es.value);
      StoreTyped(c.st, x, c.value);
      AfterExpr(st, es, StoreMut(c.st, x, c.value)) by { SameTypes(es.st, c.st, StoreMut(c.st, x, c.value)); }
    case HBranchSet(x, e) =>
      StoreTyped(es.st, x, es.value);
      if st.conditional {
        AfterExpr(st, es, StoreBranch(es.st, x, es.value));
      } else {
        var c := CheckedTyped(es.st, None, es.value);
        StoreTyped(c.st, x, c.value);
        AfterExpr(st, es, StoreSet(c.st, x, c.value)) by { SameTypes(es.st, c.st, StoreSet(c.st, x, c.value)); }
      }
    case HAssign(x, e) =>
      AssignTyped(es.st, x, es.value);
      AfterExpr(st, es, AssignChecked(es.st, x, es.value));
    case HEval(e) => EffectTyped(st, es, i);
  }

  lemma ExprOkValue(st: State, es: ExprStep)
    requires ExprOk(st, es)
    ensures ValueTyped(es.st.types, es.value)
  {
  }

  lemma SameTypes(a: State, b: State, r: Step)
    requires StepOk(b, r) && a.types == b.types
    ensures StepOk(a, r)
  {
  }

  lemma CheckedTyped(st: State, ty: Option<nat>, value: EvalValue) returns (c: Checked)
    requires Typed(st) && ValueTyped(st.types, value) && (ty.Some? ==> ty.value in st.bindings)
    ensures c == CheckAnnotation(st, ty, value) && Typed(c.st) && c.st.types == st.types && ValueTyped(c.st.types, c.value)
  {
    c := CheckAnnotation(st, ty, value);
    hide KnownValue, RuntimeType, ExprTyped, CheckAnnotation;
  }

  lemma EffectTyped(st: State, es: ExprStep, i: HInstr)
    requires i.HEval? && es == EvalExpr(st, i.e) && es.exit == Fallthrough && ExprOk(st, es) && Typed(es.st)
    ensures StepOk(st, EvalEffect(st, i.e))
  {
    hide EvalExpr, KnownValue, RuntimeType, ExprTyped, BlockTyped, Typed;
    if es.value.RuntimeV? && !es.st.comptime {
      var types := es.st.types + [es.value.ty];
      TypedGrows(es.st, Push(es.st, es.value.ty));
      ExprGrows(es.st.types, types, es.value.e, es.value.ty);
      OneTyped(types, Set(|es.st.types|, es.value.e));
      BlockGrows(es.st.types, types, es.code);
      BlockConcat(types, es.code, [Set(|es.st.types|, es.value.e)]);
    } else {
      TypedGrows(es.st, Diagnose(es.st));
    }
  }

  // ----- blocks -----

  lemma {:induction false} BlockTypedOk(st: State, vis: set<nat>, b: seq<HInstr>)
    requires st.quota.Valid() && Typed(st) && WfBlock(vis, st.comptime, b) && Accepted(EvalBlock(st, b))
    ensures StepOk(st, EvalBlock(st, b))
    decreases st.quota.Left(), b, 3
  {
    hide EvalInstr, Wf, Typed, BlockTyped;
    if b == [] {
      NothingTyped(st.types);
    } else {
      var first := EvalInstr(st, b[0]);
      InstrTypedOk(st, vis, b[0]);
      if first.exit == Fallthrough {
        BlockTypedOk(first.st, After(vis, b[0]), b[1..]);
        StepsOk(st, first, EvalBlock(first.st, b[1..]));
      }
    }
  }

  lemma StepsOk(st: State, a: Step, b: Step)
    requires StepOk(st, a) && StepOk(a.st, b)
    ensures StepOk(st, Prefix(a.code, b))
  {
    hide Typed, BlockTyped;
    BlockGrows(a.st.types, b.st.types, a.code);
    BlockConcat(b.st.types, a.code, b.code);
  }

  lemma {:induction false} InstrTypedOk(st: State, vis: set<nat>, i: HInstr)
    requires st.quota.Valid() && Typed(st) && Wf(vis, st.comptime, i) && Accepted(EvalInstr(st, i))
    ensures StepOk(st, EvalInstr(st, i))
    decreases st.quota.Left(), i, 2
  {
    hide EvalBlock, EvalIf, EvalSimple, EvalRuntimeWhile, EvalComptimeWhile, WfBlock, BlockTyped, KnownValue, RuntimeType;
    match i
    case HIf(c, t, e) => IfTypedOk(st, vis, i);
    case HWhile(cb, c, body) =>
      if st.comptime { ComptimeWhileTypedOk(st, vis, i); } else { RuntimeWhileTypedOk(st, vis, i); }
    case HComptime(body) => BlockTypedOk(st.(comptime := true), vis, body);
    case _ => SimpleTyped(st, vis, i);
  }

  /** A bound local that may be tested holds a boolean. */
  lemma TestedLocal(st: State, x: nat)
    requires Typed(st) && x in st.bindings && st.bindings[x].Runtime? && Assignable(TypeAt(st.types, st.bindings[x].m), TBool)
    ensures st.bindings[x].m < |st.types| && Scalar(st.types[st.bindings[x].m])
  {
  }

  lemma {:induction false} IfTypedOk(st: State, vis: set<nat>, i: HInstr)
    requires i.HIf? && st.quota.Valid() && Typed(st) && Wf(vis, st.comptime, i) && Accepted(EvalIf(st, i))
    ensures StepOk(st, EvalIf(st, i))
    decreases st.quota.Left(), i, 1
  {
    hide EvalBlock, WfBlock, Joins, BlockTyped, KnownValue, RuntimeType;
    match st.bindings[i.condition]
    case Runtime(m) =>
      TestedLocal(st, i.condition);
      hide Typed;
      var st0 := st.(conditional := true);
      TypedGrows(st, st0);
      BlockTypedOk(st0, vis, i.thenBlock);
      var t := EvalBlock(st0, i.thenBlock);
      BlockTypedOk(t.st, vis, i.elseBlock);
      var e := EvalBlock(t.st, i.elseBlock);
      BlockGrows(t.st.types, e.st.types, t.code);
      OneTyped(e.st.types, If(m, t.code, e.code));
      TypedGrows(e.st, EvalIf(st, i).st);
    case Comptime(v) =>
      hide Typed;
      var st0 := st.(conditional := false);
      TypedGrows(st, st0);
      var chosen := if v.b then i.thenBlock else i.elseBlock;
      BlockTypedOk(st0, vis, chosen);
      TypedGrows(EvalBlock(st0, chosen).st, EvalIf(st, i).st);
  }

  lemma {:induction false} RuntimeWhileTypedOk(st: State, vis: set<nat>, i: HInstr)
    requires i.HWhile? && !st.comptime && st.quota.Valid() && Typed(st) && Wf(vis, false, i) && Accepted(EvalRuntimeWhile(st, i))
    ensures StepOk(st, EvalRuntimeWhile(st, i))
    decreases st.quota.Left(), i, 1
  {
    hide EvalBlock, WfBlock, BlockTyped, Typed, LoopCondition;
    var cb := EvalBlock(st, i.conditionBlock);
    PartsAccepted(st, i);
    BlockTypedOk(st, vis, i.conditionBlock);
    if cb.exit == BlockEnd {
      NothingTyped(cb.st.types);
      TypedGrows(cb.st, cb.st.(lossy := true));
    } else {
      var c := LoopCondition(cb.st, i.condition);
      LoopConditionTyped(cb.st, i.condition);
      var (m, extra) := if c.value.RuntimeV? then (c.value.e.local, []) else (|cb.st.types|, [Set(|cb.st.types|, Const(c.value.v))]);
      BlockTypedOk(c.st, vis, i.body);
      var body := EvalBlock(c.st, i.body);
      BlockGrows(cb.st.types, body.st.types, cb.code);
      BlockGrows(c.st.types, body.st.types, extra);
      BlockConcat(body.st.types, cb.code, extra);
      OneTyped(body.st.types, While(cb.code + extra, m, body.code));
    }
  }

  lemma {:induction false} PartsAccepted(st: State, i: HInstr)
    requires i.HWhile? && !st.comptime && st.quota.Valid() && Accepted(EvalRuntimeWhile(st, i))
    ensures var cb := EvalBlock(st, i.conditionBlock);
            && Accepted(cb)
            && (cb.exit == Fallthrough ==> Accepted(EvalBlock(LoopCondition(cb.st, i.condition).st, i.body)))
  {
    hide EvalBlock;
  }

  lemma LoopConditionTyped(st: State, x: nat)
    requires Typed(st) && !LoopCondition(st, x).value.PoisonV?
    ensures var c := LoopCondition(st, x);
            && Typed(c.st) && st.types <= c.st.types
            && (c.value.RuntimeV? ==> c.value.e.local < |st.types| && Scalar(st.types[c.value.e.local]))
            && (c.value.ComptimeV? ==> |st.types| < |c.st.types| && Scalar(c.st.types[|st.types|])
                                       && BlockTyped(c.st.types, [Set(|st.types|, Const(c.value.v))]))
    ensures BlockTyped(LoopCondition(st, x).st.types, [])
  {
    var c := LoopCondition(st, x);
    NothingTyped(c.st.types);
    match st.bindings[x]
    case Runtime(m) => TestedLocal(st, x);
    case Comptime(v) =>
      KnownInhabited(v);
      KnownMaterial(v);
      TypedGrows(st, c.st);
      OneTyped(c.st.types, Set(|st.types|, Const(v)));
    case Poison =>
  }

  lemma {:induction false} ComptimeWhileTypedOk(st: State, vis: set<nat>, i: HInstr)
    requires i.HWhile? && st.comptime && st.quota.Valid() && Typed(st) && Wf(vis, true, i) && Accepted(EvalComptimeWhile(st, i))
    ensures StepOk(st, EvalComptimeWhile(st, i))
    decreases st.quota.Left(), i, 1
  {
    hide EvalBlock, WfBlock, BlockTyped, Typed;
    BlockTypedOk(st, vis, i.conditionBlock);
    var cb := EvalBlock(st, i.conditionBlock);
    if cb.exit == Fallthrough {
      DecisionTyped(cb.st, i.condition);
      match LoopDecision(cb.st, i.condition)
      case Stop(_, _) =>
      case Go(st') =>
        BlockTypedOk(st', vis, i.body);
        var body := EvalBlock(st', i.body);
        StepsOk(st, Step(st', cb.code, Fallthrough), body);
        if body.exit == Fallthrough {
          ComptimeWhileTypedOk(body.st, vis, i);
          StepsOk(st, Prefix(cb.code, body), EvalComptimeWhile(body.st, i));
        }
    }
  }

  lemma DecisionTyped(st: State, c: nat)
    requires st.quota.Valid() && Typed(st)
    ensures Typed(LoopDecision(st, c).st) && LoopDecision(st, c).st.types == st.types
    ensures LoopDecision(st, c).st.comptime == st.comptime
  {
    TypedGrows(st, LoopDecision(st, c).st);
  }
}
