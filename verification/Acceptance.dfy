/**
 * The evaluator accepts what is well typed: a well-typed, well-scoped block is evaluated without a diagnostic, unless its
 * comptime loops run out of branches.
 */
module Acceptance {
  import opened Values
  import opened World
  import opened Mir
  import opened Hir
  import opened Quotas
  import opened Specialiser
  import opened Scoping
  import opened StaticProof
  import opened TypedResidual
  import opened QuotaTrace
  import opened HirTyping
  import Evm

  /** A binding is what is said of its local. */
  ghost predicate SortHolds(st: State, b: Binding, s: Sort) {
    match s
    case Exactly(v) => b == Comptime(v)
    case KnownOf(ty) => b.Comptime? && TypeOf(b.v) == ty
    case Live(ty) => b.Runtime? && b.m < |st.types| && st.types[b.m] == ty
  }

  ghost predicate Agrees(ctx: Context, st: State) {
    && (forall x | x in ctx.sorts :: x in st.bindings && SortHolds(st, st.bindings[x], ctx.sorts[x]))
    && st.bindings.Keys <= ctx.used
  }

  lemma AgreesAt(ctx: Context, st: State, x: nat)
    requires Agrees(ctx, st) && x in ctx.sorts
    ensures x in st.bindings && !st.bindings[x].Poison? && SortHolds(st, st.bindings[x], ctx.sorts[x])
    ensures BindingType(st, st.bindings[x]) == SortType(ctx.sorts[x])
    ensures st.bindings[x].Comptime? <==> IsKnown(ctx.sorts[x])
  {
  }

  lemma ArgsAgree(ctx: Context, st: State, args: seq<nat>)
    requires Agrees(ctx, st) && AllSorted(ctx, args)
    ensures AllBound(st, args) && forall i | 0 <= i < |args| :: !st.bindings[args[i]].Poison?
    ensures ArgTypes(st, args) == Some(SortTypes(ctx, args))
    ensures AllKnown(ctx, args) <==> forall i | 0 <= i < |args| :: st.bindings[args[i]].Comptime?
  {
    forall i | 0 <= i < |args|
      ensures args[i] in st.bindings && !st.bindings[args[i]].Poison?
      ensures BindingType(st, st.bindings[args[i]]) == SortType(ctx.sorts[args[i]])
      ensures st.bindings[args[i]].Comptime? <==> IsKnown(ctx.sorts[args[i]])
    {
      AgreesAt(ctx, st, args[i]);
    }
    hide Agrees, SortHolds, SortType, BindingType, IsKnown;
    assert ArgTypes(st, args).value == SortTypes(ctx, args);
  }

  // ----- expressions -----

  /** The evaluation of an expression gives what the judgement says. */
  ghost predicate GivesAs(es: ExprStep, j: Judged) {
    match j
    case Ill => true
    case Ends => es.exit == BlockEnd && !es.st.diagnosed
    case Gives(s) =>
      && es.exit == Fallthrough && !es.st.diagnosed
      && match s
         case Exactly(v) => es.value == ComptimeV(v)
         case KnownOf(ty) => es.value.ComptimeV? && TypeOf(es.value.v) == ty
         case Live(ty) => es.value.RuntimeV? && es.value.ty == ty
  }

  /** The signatures of operations on words and booleans. */
  lemma PlainSignature(f: Evm.FoldOp, i: nat, tys: seq<Ty>)
    requires i < |Signatures(Foldable(f))| && Matches(Signatures(Foldable(f))[i], tys)
    requires forall k | 0 <= k < |tys| :: tys[k] != TMemPtr && tys[k] != TNever
    ensures |tys| == Evm.Arity(f) && forall k | 0 <= k < |tys| :: tys[k] == TU256 || tys[k] == TBool
    ensures var r := Signatures(Foldable(f))[i].result;
            r == TU256
            || (r == TBool && (f in {Evm.Lt, Evm.Gt, Evm.SLt, Evm.SGt, Evm.Eq, Evm.IsZero}
                               || (f in {Evm.And, Evm.Or, Evm.Xor} && forall k | 0 <= k < |tys| :: tys[k] == TBool)))
  {
    var params := Signatures(Foldable(f))[i].params;
    assert |params| > 0 && tys[0] == params[0];
    if |params| > 1 { assert tys[1] == params[1]; }
    if |params| > 2 { assert tys[2] == params[2]; }
  }

  lemma KnownWord(v: Value)
    requires KnownValue(v)
    ensures TypeOf(v) != TMemPtr && TypeOf(v) != TNever
    ensures TypeOf(v) == TU256 || TypeOf(v) == TBool ==> AsWord(v).Some?
    ensures TypeOf(v) == TBool ==> AsWord(v).value <= 1
  {
  }

  /** Words of operands of the right types are folded to a value of the result type. */
  lemma WordsFold(f: Evm.FoldOp, vs: seq<Value>, ty: Ty)
    requires |vs| == Evm.Arity(f) && forall i | 0 <= i < |vs| :: AsWord(vs[i]).Some?
    requires ty == TU256
             || (ty == TBool && (f in {Evm.Lt, Evm.Gt, Evm.SLt, Evm.SGt, Evm.Eq, Evm.IsZero}
                                 || (f in {Evm.And, Evm.Or, Evm.Xor} && forall i | 0 <= i < |vs| :: AsWord(vs[i]).value <= 1)))
    ensures FoldValue(f, vs, ty).Some? && TypeOf(FoldValue(f, vs, ty).value) == ty
  {
    hide Evm.Fold, AsWord;
    var words := Words(vs).value;
    forall i | 0 <= i < |vs| ensures AsWord(vs[i]) == Some(words[i]) {}
    if ty == TBool { Evm.FoldIsFlag(f, words); }
  }

  /** Known operands of the right types are always folded, to a value of the result type. */
  lemma FoldTotal(f: Evm.FoldOp, vs: seq<Value>, ty: Ty)
    requires (forall i | 0 <= i < |vs| :: KnownValue(vs[i])) && ResultType(Foldable(f), Types(vs)) == Some(ty)
    ensures FoldValue(f, vs, ty).Some? && TypeOf(FoldValue(f, vs, ty).value) == ty
  {
    forall i | 0 <= i < |vs|
      ensures TypeOf(vs[i]) != TMemPtr && TypeOf(vs[i]) != TNever
      ensures TypeOf(vs[i]) == TU256 || TypeOf(vs[i]) == TBool ==> AsWord(vs[i]).Some?
      ensures TypeOf(vs[i]) == TBool ==> AsWord(vs[i]).value <= 1
    {
      KnownWord(vs[i]);
    }
    hide Signatures, Matches, KnownValue, FoldValue, AsWord, TypeOf;
    var sigs := Signatures(Foldable(f));
    var i :| 0 <= i < |sigs| && Matches(sigs[i], Types(vs)) && sigs[i].result == ty;
    PlainSignature(f, i, Types(vs));
    WordsFold(f, vs, ty);
  }

  lemma KnownArgs(st: State, args: seq<nat>)
    requires Typed(st) && AllBound(st, args) && Known(st, args).Some? && ArgTypes(st, args).Some?
    ensures forall i | 0 <= i < |args| :: KnownValue(Known(st, args).value[i])
    ensures Types(Known(st, args).value) == ArgTypes(st, args).value
  {
    hide KnownValue, RuntimeType;
    var vs := Known(st, args).value;
    forall i | 0 <= i < |args| ensures KnownValue(vs[i]) && TypeOf(vs[i]) == ArgTypes(st, args).value[i] {
      assert st.bindings[args[i]] == Comptime(vs[i]);
    }
    assert Types(vs) == ArgTypes(st, args).value;
  }

  /** Scalar operands can all be put in MIR locals. */
  lemma EmitAccepted(st: State, op: Op, args: seq<nat>, ty: Ty)
    requires Typed(st) && AllBound(st, args) && ArgTypes(st, args).Some? && WfOp(op) && !st.diagnosed
    requires ResultType(op, ArgTypes(st, args).value) == Some(ty)
    ensures GivesAs(EmitBuiltin(st, op, args, ty), if ty == TNever then Ends else Gives(Live(ty)))
  {
    ArgsInhabited(st, args);
    ResultTyped(op, ArgTypes(st, args).value, ty);
    hide Signatures, ResultType, OpArity, MaterialiseAll, Typed, RuntimeType, Keeps;
    forall i | 0 <= i < |args| ensures !HoldsComptimeOnly(st.bindings[args[i]]) {
      assert Scalar(ArgTypes(st, args).value[i]);
    }
  }

  lemma FoldableJudged(ctx: Context, st: State, f: Evm.FoldOp, args: seq<nat>)
    requires Agrees(ctx, st) && Typed(st) && !st.diagnosed && AllSorted(ctx, args)
    ensures AllBound(st, args) && GivesAs(EvalFoldable(st, f, args), FoldableSort(ctx, st.comptime, f, args))
  {
    ArgsAgree(ctx, st, args);
    hide Agrees, Typed, ResultType, FoldValue, EmitBuiltin, EvalFoldable, TypeOf;
    match ResultType(Foldable(f), SortTypes(ctx, args))
    case None =>
    case Some(ty) =>
      FoldableIs(st, f, args, ty);
      if Known(st, args).Some? {
        KnownArgs(st, args);
        FoldTotal(f, Known(st, args).value, ty);
      } else if !st.comptime {
        EmitAccepted(st, Foldable(f), args, ty);
        NotNever(f, ArgTypes(st, args).value);
      }
  }

  lemma FoldableIs(st: State, f: Evm.FoldOp, args: seq<nat>, ty: Ty)
    requires AllBound(st, args) && ArgTypes(st, args).Some? && ResultType(Foldable(f), ArgTypes(st, args).value) == Some(ty)
    ensures Known(st, args).Some? && FoldValue(f, Known(st, args).value, ty).Some? ==>
              EvalFoldable(st, f, args) == Folded(st, FoldValue(f, Known(st, args).value, ty).value)
    ensures Known(st, args).None? && !st.comptime ==> EvalFoldable(st, f, args) == EmitBuiltin(st, Foldable(f), args, ty)
  {
    hide ResultType, FoldValue, EmitBuiltin, Keeps, Quiet;
  }

  lemma NotNever(f: Evm.FoldOp, tys: seq<Ty>)
    ensures ResultType(Foldable(f), tys) != Some(TNever)
  {
    hide Signatures, Matches;
    if ResultType(Foldable(f), tys) == Some(TNever) {
      var sigs := Signatures(Foldable(f));
      var i :| 0 <= i < |sigs| && Matches(sigs[i], tys) && sigs[i].result == TNever;
      SomeResult(f, i);
    }
  }

  lemma SomeResult(f: Evm.FoldOp, i: nat)
    requires i < |Signatures(Foldable(f))|
    ensures Signatures(Foldable(f))[i].result != TNever
  {
  }

  lemma RuntimeOnlyJudged(ctx: Context, st: State, op: Op, args: seq<nat>)
    requires Agrees(ctx, st) && Typed(st) && !st.diagnosed && AllSorted(ctx, args) && WfOp(op)
    ensures AllBound(st, args) && GivesAs(EvalRuntimeOnly(st, op, args), RuntimeOnlySort(ctx, st.comptime, op, args))
  {
    ArgsAgree(ctx, st, args);
    hide Agrees, Typed, ResultType, EmitBuiltin, Keeps, Quiet;
    match ResultType(op, SortTypes(ctx, args))
    case None =>
    case Some(ty) => if !st.comptime { EmitAccepted(st, op, args, ty); }
  }

  lemma EqSignature(ty: Ty)
    requires ty == TU256 || ty == TBool || ty == TMemPtr
    ensures ResultType(Foldable(Evm.Eq), [ty, ty]) == Some(TBool)
  {
    var sigs := Signatures(Foldable(Evm.Eq));
    var tys := [ty, ty];
    assert |sigs| == 3;
    forall i | 0 <= i < 3 ensures Matches(sigs[i], tys) <==> ty == sigs[i].params[0] {
      assert tys[0] == ty && tys[1] == ty && |sigs[i].params| == 2;
    }
    hide Matches;
    assert FirstMatch(sigs[1..][1..], tys) == if ty == TBool then Some(TBool) else FirstMatch(sigs[1..][1..][1..], tys);
    assert FirstMatch(sigs[1..], tys) == if ty == TMemPtr then Some(TBool) else FirstMatch(sigs[1..][1..], tys);
  }

  lemma EqualJudged(ctx: Context, st: State, positive: bool, l: nat, r: nat)
    requires Agrees(ctx, st) && Typed(st) && !st.diagnosed && l in ctx.sorts && r in ctx.sorts
    ensures l in st.bindings && r in st.bindings
    ensures GivesAs(EvalEqual(st, positive, l, r), EqualSort(st.comptime, positive, ctx.sorts[l], ctx.sorts[r]))
  {
    AgreesAt(ctx, st, l);
    AgreesAt(ctx, st, r);
    hide EvalFoldable, EvalNotEqual, Agrees, Typed, ResultType, Keeps, Quiet;
    var ty := SortType(ctx.sorts[l]);
    if ty == SortType(ctx.sorts[r]) && (ty == TU256 || ty == TBool || ty == TMemPtr) {
      EqFolds(ctx, st, l, r, ty);
      NotEqualJudged(st, ty, l, r);
    }
  }

  lemma EqFolds(ctx: Context, st: State, l: nat, r: nat, ty: Ty)
    requires Agrees(ctx, st) && Typed(st) && !st.diagnosed && l in ctx.sorts && r in ctx.sorts
    requires SortType(ctx.sorts[l]) == SortType(ctx.sorts[r]) == ty && (ty == TU256 || ty == TBool || ty == TMemPtr)
    ensures AllBound(st, [l, r])
    ensures GivesAs(EvalFoldable(st, Evm.Eq, [l, r]),
                    if IsKnown(ctx.sorts[l]) && IsKnown(ctx.sorts[r]) then Gives(KnownOf(TBool))
                    else if st.comptime then Ill else Gives(Live(TBool)))
  {
    assert [l, r][0] == l && [l, r][1] == r;
    EqSignature(ty);
    assert SortTypes(ctx, [l, r]) == [ty, ty];
    FoldableJudged(ctx, st, Evm.Eq, [l, r]);
    hide EvalFoldable, Agrees, Typed, ResultType;
    assert AllKnown(ctx, [l, r]) <==> IsKnown(ctx.sorts[l]) && IsKnown(ctx.sorts[r]);
  }

  lemma NotEqualJudged(st: State, ty: Ty, l: nat, r: nat)
    requires l in st.bindings && r in st.bindings && !st.bindings[l].Poison? && !st.bindings[r].Poison? && !st.diagnosed
    ensures var known := st.bindings[l].Comptime? && st.bindings[r].Comptime?;
            known || !st.comptime ==> GivesAs(EvalNotEqual(st, ty, l, r), Gives(if known then KnownOf(TBool) else Live(TBool)))
  {
    hide MaterialiseAll, Keeps, Quiet;
  }

  lemma NotJudged(ctx: Context, st: State, x: nat)
    requires Agrees(ctx, st) && Typed(st) && !st.diagnosed && x in ctx.sorts
    ensures x in st.bindings && GivesAs(EvalNot(st, x), NotSort(ctx.sorts[x]))
  {
    AgreesAt(ctx, st, x);
    hide Agrees, Keeps, Quiet;
    if st.bindings[x].Comptime? { assert KnownValue(st.bindings[x].v); }
  }

  lemma MemberJudged(ctx: Context, st: State, obj: nat, name: nat)
    requires Agrees(ctx, st) && Typed(st) && !st.diagnosed && obj in ctx.sorts
    ensures obj in st.bindings && GivesAs(EvalMember(st, obj, name), MemberSort(ctx.sorts[obj], name))
  {
    AgreesAt(ctx, st, obj);
    hide Agrees, Keeps, Quiet;
    if st.bindings[obj].Comptime? { assert KnownValue(st.bindings[obj].v); }
  }

  lemma QuotaJudged(ctx: Context, st: State, x: nat)
    requires Agrees(ctx, st) && !st.diagnosed && x in ctx.sorts
    ensures x in st.bindings && GivesAs(EvalSetQuota(st, x), QuotaSort(ctx.sorts[x]))
  {
    AgreesAt(ctx, st, x);
    hide Agrees, Keeps, Quiet;
  }

  // ----- literals -----

  predicate Sound(acc: Lit) { acc.valid && !acc.diagnosed }

  lemma {:induction false} ConstsSound(acc: Lit, vs: seq<Value>)
    requires Sound(acc) && forall i | 0 <= i < |vs| :: !ComptimeOnly(TypeOf(vs[i]))
    ensures Sound(LitConsts(acc, vs)) && LitConsts(acc, vs).values == acc.values
    decreases |vs|
  {
    hide ComptimeOnly;
    if vs != [] {
      ConstsSound(LitConst(acc, vs[0]), vs[1..]);
    }
  }

  predicate BoundLits(st: State, lits: seq<LitField>) {
    forall i | 0 <= i < |lits| :: lits[i].value in st.bindings && !st.bindings[lits[i].value].Poison?
  }

  predicate KnownLits(st: State, lits: seq<LitField>)
    requires BoundLits(st, lits)
  {
    forall i | 0 <= i < |lits| :: st.bindings[lits[i].value].Comptime?
  }

  /** Outside comptime, everything known can exist at run time. */
  predicate StorableLits(st: State, acc: Lit, lits: seq<LitField>)
    requires BoundLits(st, lits)
  {
    && !st.comptime
    && (forall i | 0 <= i < |lits| :: !HoldsComptimeOnly(st.bindings[lits[i].value]))
    && (forall i | 0 <= i < |acc.values| :: !ComptimeOnly(TypeOf(acc.values[i])))
  }

  lemma {:induction false} StepSound(st: State, acc: Lit, field: Field, lits: seq<LitField>)
    requires BoundLits(st, lits) && Sound(acc) && FindLit(lits, field.name).Some?
    requires (KnownLits(st, lits) && !acc.mixed) || StorableLits(st, acc, lits)
    ensures var r := LitStep(st, acc, field, lits);
            && Sound(r) && ((KnownLits(st, lits) && !r.mixed) || StorableLits(st, r, lits))
            && (acc.mixed || st.bindings[lits[FindLit(lits, field.name).value].value].Runtime? <==> r.mixed)
  {
    hide ComptimeOnly, FindLit;
    if !acc.mixed && !KnownLits(st, lits) { ConstsSound(acc, acc.values); }
  }

  /** A literal whose fields all fit is built without a diagnostic, at run time exactly if some field is. */
  lemma {:induction false} FieldsSound(st: State, acc: Lit, fields: seq<Field>, lits: seq<LitField>)
    requires BoundLits(st, lits) && Sound(acc) && forall k | 0 <= k < |fields| :: FindLit(lits, fields[k].name).Some?
    requires (KnownLits(st, lits) && !acc.mixed) || StorableLits(st, acc, lits)
    ensures var r := LitFields(st, acc, fields, lits);
            && Sound(r)
            && (r.mixed
                <==> (acc.mixed || exists k | 0 <= k < |fields| ::
                        st.bindings[lits[FindLit(lits, fields[k].name).value].value].Runtime?))
    decreases |fields|
  {
    hide LitStep, FindLit, StorableLits, KnownLits;
    if fields != [] {
      StepSound(st, acc, fields[0], lits);
      var next := LitStep(st, acc, fields[0], lits);
      FieldsSound(st, next, fields[1..], lits);
      assert forall k | 0 <= k < |fields[1..]| :: fields[1..][k] == fields[k + 1];
      assert forall k | 1 <= k < |fields| :: fields[k] == fields[1..][k - 1];
    }
  }

  /** Every field of a literal is found by its name. */
  lemma {:induction false} FoundByName(fields: seq<Field>, lits: seq<LitField>, i: nat)
    requires Covers(fields, lits) && i < |lits|
    ensures FieldIndex(fields, lits[i].name).Some?
    ensures var k := FieldIndex(fields, lits[i].name).value; FindLit(lits, fields[k].name) == Some(i)
  {
    hide FindLit, FieldIndex;
    var k := FieldIndex(fields, lits[i].name).value;
    var j := FindLit(lits, fields[k].name).value;
    assert lits[j].name == lits[i].name;
  }

  /** What is said of the fields of a literal is so. */
  ghost predicate LitsAgree(ctx: Context, st: State, lits: seq<LitField>)
    requires AllSorted(ctx, LitLocals(lits)) && BoundLits(st, lits)
  {
    forall i | 0 <= i < |lits| ::
      && BindingType(st, st.bindings[lits[i].value]) == SortType(ctx.sorts[LitLocals(lits)[i]])
      && (st.bindings[lits[i].value].Comptime? <==> IsKnown(ctx.sorts[LitLocals(lits)[i]]))
  }

  lemma FieldsAgree(ctx: Context, st: State, lits: seq<LitField>)
    requires Agrees(ctx, st) && AllSorted(ctx, LitLocals(lits))
    ensures BoundLits(st, lits) && LitsAgree(ctx, st, lits)
  {
    hide Agrees, SortType, BindingType;
    var locals := LitLocals(lits);
    forall i | 0 <= i < |lits|
      ensures lits[i].value in st.bindings && !st.bindings[lits[i].value].Poison?
      ensures BindingType(st, st.bindings[lits[i].value]) == SortType(ctx.sorts[locals[i]])
      ensures st.bindings[lits[i].value].Comptime? <==> IsKnown(ctx.sorts[locals[i]])
    {
      assert locals[i] == lits[i].value;
      AgreesAt(ctx, st, locals[i]);
    }
  }

  lemma {:induction false} LiteralJudged(ctx: Context, st: State, t: nat, lits: seq<LitField>)
    requires Agrees(ctx, st) && !st.diagnosed && t in ctx.sorts && AllSorted(ctx, LitLocals(lits))
    ensures t in st.bindings && BoundLits(st, lits)
    ensures GivesAs(EvalStructLit(st, t, lits), LiteralSort(ctx, st.comptime, t, lits))
  {
    AgreesAt(ctx, st, t);
    FieldsAgree(ctx, st, lits);
    hide Agrees, LitsAgree, LitFields, LiteralFits, LitChecks, ComptimeOnly, SortType, BindingType, AllKnown, EvalStructLit;
    if LiteralSort(ctx, st.comptime, t, lits).Gives? {
      var ty := ctx.sorts[t].v.ty;
      FitsChecks(ctx, st, ty.fields, lits);
      BuiltSound(ctx, st, ty.fields, lits);
      LiteralIs(st, t, ty, lits);
      KnownType(ty, LitFields(st, Lit(st.types, st.diagnosed, [], [], [], false, true), ty.fields, lits).values);
    }
  }

  lemma KnownType(ty: Ty, vs: seq<Value>)
    ensures TypeOf(Struct(ty, vs)) == ty && SortType(KnownOf(ty)) == SortType(Live(ty)) == ty
  {
  }

  lemma {:induction false} LiteralIs(st: State, t: nat, ty: Ty, lits: seq<LitField>)
    requires t in st.bindings && st.bindings[t] == Comptime(TypeVal(ty)) && ty.TStruct?
    requires BoundLits(st, lits) && LitChecks(st, ty.fields, lits)
    ensures var r := LitFields(st, Lit(st.types, st.diagnosed, [], [], [], false, true), ty.fields, lits);
            var es := EvalStructLit(st, t, lits);
            && es.exit == Fallthrough && es.st.diagnosed == r.diagnosed
            && (r.valid ==> es.value == if r.mixed then RuntimeV(CompoundLit(ty, r.locals), ty)
                                        else ComptimeV(Struct(ty, r.values)))
  {
    hide LitFields, LitChecks, Keeps, Quiet;
  }

  lemma FitsChecks(ctx: Context, st: State, fields: seq<Field>, lits: seq<LitField>)
    requires AllSorted(ctx, LitLocals(lits)) && BoundLits(st, lits) && LiteralFits(ctx, fields, lits)
    requires LitsAgree(ctx, st, lits)
    ensures LitChecks(st, fields, lits)
  {
    hide FindLit, FieldIndex, BindingType, SortType;
  }

  lemma {:induction false} BuiltSound(ctx: Context, st: State, fields: seq<Field>, lits: seq<LitField>)
    requires AllSorted(ctx, LitLocals(lits)) && BoundLits(st, lits) && LitChecks(st, fields, lits) && !st.diagnosed
    requires LitsAgree(ctx, st, lits)
    requires AllKnown(ctx, LitLocals(lits))
             || (!st.comptime && forall i | 0 <= i < |lits| :: !ComptimeOnly(SortType(ctx.sorts[LitLocals(lits)[i]])))
    ensures var r := LitFields(st, Lit(st.types, st.diagnosed, [], [], [], false, true), fields, lits);
            Sound(r) && (r.mixed <==> !AllKnown(ctx, LitLocals(lits)))
  {
    hide LitFields, FindLit, FieldIndex, ComptimeOnly, SortType;
    var acc := Lit(st.types, st.diagnosed, [], [], [], false, true);
    FieldsSound(st, acc, fields, lits);
    if !AllKnown(ctx, LitLocals(lits)) {
      var i :| 0 <= i < |lits| && !IsKnown(ctx.sorts[LitLocals(lits)[i]]);
      FoundByName(fields, lits, i);
      var k := FieldIndex(fields, lits[i].name).value;
      assert st.bindings[lits[FindLit(lits, fields[k].name).value].value].Runtime?;
    } else {
      forall k | 0 <= k < |fields| ensures !st.bindings[lits[FindLit(lits, fields[k].name).value].value].Runtime? {
        var i := FindLit(lits, fields[k].name).value;
        assert IsKnown(ctx.sorts[LitLocals(lits)[i]]);
      }
    }
  }

  // ----- all expressions -----

  /** A well-typed expression evaluates without a diagnostic to a value of its sort, or ends the block if it must. */
  lemma ExprJudged(ctx: Context, st: State, vis: set<nat>, e: HExpr)
    requires Agrees(ctx, st) && Typed(st) && !st.diagnosed && WfExpr(vis, e)
    ensures GivesAs(EvalExpr(st, e), ExprSort(ctx, st.comptime, e))
  {
    hide EvalStructLit, EvalFoldable, EvalRuntimeOnly, EvalEqual, EvalNot, EvalMember, EvalSetQuota, Typed, Keeps, Quiet,
      FoldableSort, RuntimeOnlySort, EqualSort, NotSort, LiteralSort, MemberSort, QuotaSort, WfValue;
    if AllSorted(ctx, Uses(e)) {
      ArgsAgree(ctx, st, Uses(e));
      match e
      case HBuiltin(op, args) =>
        if op.Foldable? { FoldableJudged(ctx, st, op.f, args); } else { RuntimeOnlyJudged(ctx, st, op, args); }
      case HEqual(positive, l, r) =>
        assert Uses(e)[0] == l && Uses(e)[1] == r;
        EqualJudged(ctx, st, positive, l, r);
      case HNot(x) =>
        assert Uses(e)[0] == x;
        NotJudged(ctx, st, x);
      case HStructLit(t, lits) =>
        assert Uses(e)[0] == t;
        assert forall i | 0 <= i < |lits| :: LitLocals(lits)[i] == Uses(e)[i + 1];
        LiteralJudged(ctx, st, t, lits);
      case HMember(obj, name) =>
        assert Uses(e)[0] == obj;
        MemberJudged(ctx, st, obj, name);
      case HSetQuota(x) =>
        assert Uses(e)[0] == x;
        QuotaJudged(ctx, st, x);
      case HLocal(x) =>
        assert Uses(e)[0] == x;
        AgreesAt(ctx, st, x);
      case HValue(_) =>
      case HInComptime =>
    }
  }

  // ----- instructions -----

  /** The evaluation left off as the judgement allows, without a diagnostic, in a state it describes. */
  ghost predicate Judges(f: Flow, r: Step) {
    && !r.st.diagnosed
    && match r.exit
       case Fallthrough => f.goes.Some? && Agrees(f.goes.value, r.st)
       case BlockEnd => f.ends.Some? && Agrees(f.ends.value, r.st)
       case _ => false
  }

  lemma AgreesGrows(ctx: Context, st: State, st': State)
    requires Agrees(ctx, st) && st'.bindings == st.bindings && st.types <= st'.types
    ensures Agrees(ctx, st')
  {
  }

  lemma BindAgrees(ctx: Context, st: State, st': State, x: nat, b: Binding, s: Sort)
    requires Agrees(ctx, st) && st'.bindings == st.bindings[x := b] && st.types <= st'.types && SortHolds(st', b, s)
    ensures Agrees(Bound(ctx, x, s), st')
  {
  }

  /** What a value is said to be, once it was computed. */
  ghost predicate ValueHolds(value: EvalValue, s: Sort) {
    match s
    case Exactly(v) => value == ComptimeV(v)
    case KnownOf(ty) => value.ComptimeV? && TypeOf(value.v) == ty
    case Live(ty) => value.RuntimeV? && value.ty == ty
  }

  lemma AnnotationJudged(ctx: Context, st: State, ty: Option<nat>, value: EvalValue, s: Sort)
    requires Agrees(ctx, st) && Annotates(ctx, ty, s) && ValueHolds(value, s)
    ensures ty.Some? ==> ty.value in st.bindings
    ensures CheckAnnotation(st, ty, value) == Checked(st, value)
  {
    if ty.Some? { AgreesAt(ctx, st, ty.value); }
  }

  lemma SetJudged(ctx: Context, st: State, x: nat, value: EvalValue, s: Sort)
    requires Agrees(ctx, st) && ValueHolds(value, s) && !st.diagnosed && (st.comptime ==> IsKnown(s))
    ensures var r := StoreSet(st, x, value);
            r.exit == Fallthrough && !r.st.diagnosed && Agrees(Bound(ctx, x, s), r.st)
  {
    var r := StoreSet(st, x, value);
    hide StepKeeps, Quiet, Agrees, Bound;
    BindAgrees(ctx, st, r.st, x, r.st.bindings[x], s);
  }

  lemma FreshJudged(ctx: Context, st: State, x: nat, value: EvalValue, s: Sort)
    requires Agrees(ctx, st) && ValueHolds(value, s) && !st.diagnosed && Storable(s)
    ensures var c := ToRuntime(st, value);
            && c.st == st && c.value.RuntimeV? && c.value.ty == SortType(s)
            && var r := BindFresh(st, x, c.value);
               r.exit == Fallthrough && !r.st.diagnosed && Agrees(Bound(ctx, x, Live(SortType(s))), r.st)
  {
    var c := ToRuntime(st, value);
    var r := BindFresh(st, x, c.value);
    hide StepKeeps, Agrees, Bound, ComptimeOnly;
    BindAgrees(ctx, st, r.st, x, r.st.bindings[x], Live(SortType(s)));
  }

  lemma MutJudged(ctx: Context, st: State, x: nat, value: EvalValue, s: Sort)
    requires Agrees(ctx, st) && ValueHolds(value, s) && !st.diagnosed && CheckMut(ctx, st.comptime, x, s).Some?
    ensures Judges(CheckMut(ctx, st.comptime, x, s).value, StoreMut(st, x, value))
  {
    if st.comptime {
      var r := StoreMut(st, x, value);
      hide StepKeeps, Quiet, Agrees, Bound;
      BindAgrees(ctx, st, r.st, x, r.st.bindings[x], KnownOf(SortType(s)));
    } else {
      FreshJudged(ctx, st, x, value, s);
      hide StepKeeps, Quiet, Agrees, Bound, ToRuntime, BindFresh;
    }
  }

  lemma BranchJudged(ctx: Context, st: State, x: nat, value: EvalValue, s: Sort)
    requires Agrees(ctx, st) && Typed(st) && ValueHolds(value, s) && !st.diagnosed && st.conditional
    requires CheckBranch(ctx, st.comptime, true, x, s).Some?
    ensures Judges(CheckBranch(ctx, st.comptime, true, x, s).value, StoreBranch(st, x, value))
  {
    if st.comptime {
      var r := StoreBranch(st, x, value);
      hide StepKeeps, Quiet, Agrees, Bound;
      BindAgrees(ctx, st, r.st, x, r.st.bindings[x], s);
    } else {
      FreshJudged(ctx, st, x, value, s);
      if x in ctx.sorts {
        RejoinJudged(ctx, st, x, ToRuntime(st, value).value, SortType(s));
      } else {
        assert x !in st.bindings;
      }
      hide StepKeeps, Quiet, Agrees, Bound, ToRuntime, BindFresh, Rejoin, Typed;
    }
  }

  /** A second arm gives a value of the type the first one gave. */
  lemma RejoinJudged(ctx: Context, st: State, x: nat, value: EvalValue, ty: Ty)
    requires Agrees(ctx, st) && Typed(st) && !st.diagnosed && value.RuntimeV? && value.ty == ty
    requires x in ctx.sorts && ctx.sorts[x] == Live(ty)
    ensures x in st.bindings
    ensures var r := Rejoin(st, x, value); r.exit == Fallthrough && !r.st.diagnosed && Agrees(ctx, r.st)
  {
    AgreesAt(ctx, st, x);
    var m := st.bindings[x].m;
    assert st.types[m := ty] == st.types;
    assert ty != TNever;
    hide StepKeeps, Agrees;
    AgreesGrows(ctx, st, Rejoin(st, x, value).st);
  }

  lemma AssignJudged(ctx: Context, st: State, x: nat, value: EvalValue, s: Sort)
    requires Agrees(ctx, st) && ValueHolds(value, s) && !st.diagnosed && CheckAssign(ctx, st.comptime, x, s).Some?
    ensures x in st.bindings
    ensures Judges(CheckAssign(ctx, st.comptime, x, s).value, AssignChecked(st, x, value))
  {
    AgreesAt(ctx, st, x);
    var r := AssignChecked(st, x, value);
    hide StepKeeps, Quiet, ComptimeOnly;
    if st.comptime {
      assert Bound(ctx, x, ctx.sorts[x]).sorts == ctx.sorts;
      BindAgrees(ctx, st, r.st, x, r.st.bindings[x], ctx.sorts[x]);
    }
  }

  lemma {:induction false} SimpleJudged(ctx: Context, st: State, vis: set<nat>, i: HInstr)
    requires !i.HIf? && !i.HWhile? && !i.HComptime?
    requires Agrees(ctx, st) && Typed(st) && !st.diagnosed && Wf(vis, st.comptime, i)
    requires CheckSimple(ctx, st.comptime, st.conditional, i).Some?
    ensures Judges(CheckSimple(ctx, st.comptime, st.conditional, i).value, EvalSimple(st, i))
  {
    ExprJudged(ctx, st, vis, i.e);
    hide EvalExpr, ExprSort, StoreSet, StoreMut, StoreBranch, AssignChecked, CheckAnnotation, CheckMut, CheckBranch, CheckAssign,
      Annotates, Agrees, Typed, Quiet, StepKeeps, WfExpr;
    var es := EvalExpr(st, i.e);
    assert Keeps(st, es.st);
    AgreesGrows(ctx, st, es.st);
    TypedGrows(st, es.st);
    match ExprSort(ctx, st.comptime, i.e)
    case Ends =>
    case Gives(s) => StoredJudged(ctx, st, es, s, i);
  }

  lemma {:induction false} StoredJudged(ctx: Context, st: State, es: ExprStep, s: Sort, i: HInstr)
    requires !i.HIf? && !i.HWhile? && !i.HComptime? && es == EvalExpr(st, i.e) && ExprSort(ctx, st.comptime, i.e) == Gives(s)
    requires es.exit == Fallthrough && !es.st.diagnosed && ValueHolds(es.value, s) && Agrees(ctx, es.st) && Typed(es.st)
    requires es.st.comptime == st.comptime && es.st.conditional == st.conditional
    requires CheckSimple(ctx, st.comptime, st.conditional, i).Some?
    ensures Judges(CheckSimple(ctx, st.comptime, st.conditional, i).value, EvalSimple(st, i))
  {
    hide EvalExpr, ExprSort, StoreSet, StoreMut, StoreBranch, AssignChecked, CheckAnnotation, CheckMut, CheckAssign,
      Annotates, Agrees, Typed, Quiet, StepKeeps;
    match i
    case HSet(x, ty, _) =>
      AnnotationJudged(ctx, es.st, ty, es.value, s);
      SetJudged(ctx, es.st, x, es.value, s);
    case HSetMut(x, ty, _) =>
      AnnotationJudged(ctx, es.st, ty, es.value, s);
      MutJudged(ctx, es.st, x, es.value, s);
    case HBranchSet(x, _) =>
      if st.conditional {
        BranchJudged(ctx, es.st, x, es.value, s);
      } else {
        assert Annotates(ctx, None, s) by { NoAnnotation(ctx, s); }
        AnnotationJudged(ctx, es.st, None, es.value, s);
        SetJudged(ctx, es.st, x, es.value, s);
      }
    case HAssign(x, _) => AssignJudged(ctx, es.st, x, es.value, s);
    case HEval(_) =>
      if es.value.RuntimeV? { AgreesGrows(ctx, es.st, Push(es.st, es.value.ty)); }
  }

  lemma NoAnnotation(ctx: Context, s: Sort)
    ensures Annotates(ctx, None, s)
  {
  }

  // ----- blocks -----

  lemma EitherAgrees(a: Option<Context>, b: Option<Context>, st: State)
    requires (a.Some? && Agrees(a.value, st)) || (b.Some? && Agrees(b.value, st))
    ensures Either(a, b).Some? && Agrees(Either(a, b).value, st)
  {
  }

  /** The quota allows all the branches that the events take. */
  ghost predicate Allowed(st: State, events: seq<QuotaEvent>) {
    Replayed(st.quota, events).Some?
  }

  lemma AllowedParts(st: State, mid: State, exit: Exit, first: seq<QuotaEvent>, second: seq<QuotaEvent>)
    requires Follows(st, mid, exit, first) && Allowed(st, first + second)
    ensures Allowed(st, first) && Allowed(mid, second)
  {
    RunsConcat(st.quota, st.maxSeen, first, second);
    ReplayedIsCarried(st.quota, first);
    hide Carried, Replayed, MaxSeen, Branches;
  }

  /**
   * A well-typed block is evaluated without a diagnostic and without a panic, and leaves off as the judgement says, if
   * the quota allows all the branches its comptime loops take.
   */
  lemma {:induction false} BlockJudged(ctx: Context, st: State, vis: set<nat>, b: seq<HInstr>)
    requires st.quota.Valid() && Agrees(ctx, st) && Typed(st) && !st.diagnosed && WfBlock(vis, st.comptime, b)
    requires Check(ctx, st.comptime, st.conditional, b).Some? && Allowed(st, Events(st, b))
    ensures Judges(Check(ctx, st.comptime, st.conditional, b).value, EvalBlock(st, b))
    decreases st.quota.Left(), b, 3
  {
    hide EvalInstr, InstrEvents, CheckInstr, Wf, Agrees, Typed, Allowed, Follows, Either, TypedMir.BlockTyped;
    if b != [] {
      var first := EvalInstr(st, b[0]);
      var f := CheckInstr(ctx, st.comptime, st.conditional, b[0]).value;
      var more := if first.exit == Fallthrough then Events(first.st, b[1..]) else [];
      InstrFollows(st, b[0]);
      AllowedParts(st, first.st, first.exit, InstrEvents(st, b[0]), more);
      InstrJudged(ctx, st, vis, b[0]);
      InstrTypedOk(st, vis, b[0]);
      if first.exit == Fallthrough {
        var rest := EvalBlock(first.st, b[1..]);
        BlockJudged(f.goes.value, first.st, After(vis, b[0]), b[1..]);
        var g := Check(f.goes.value, st.comptime, st.conditional, b[1..]).value;
        if rest.exit == BlockEnd { EitherAgrees(f.ends, g.ends, rest.st); }
      } else if f.goes.Some? {
        EitherAgrees(f.ends, Check(f.goes.value, st.comptime, st.conditional, b[1..]).value.ends, first.st);
      }
    }
  }

  lemma {:induction false} InstrJudged(ctx: Context, st: State, vis: set<nat>, i: HInstr)
    requires st.quota.Valid() && Agrees(ctx, st) && Typed(st) && !st.diagnosed && Wf(vis, st.comptime, i)
    requires CheckInstr(ctx, st.comptime, st.conditional, i).Some? && Allowed(st, InstrEvents(st, i))
    ensures Judges(CheckInstr(ctx, st.comptime, st.conditional, i).value, EvalInstr(st, i))
    decreases st.quota.Left(), i, 2
  {
    hide EvalBlock, EvalIf, EvalSimple, EvalRuntimeWhile, EvalComptimeWhile, Check, CheckSimple, CheckComptimeWhile,
      CheckRuntimeWhile, WfBlock, Agrees, Typed, Allowed, Events, IfEvents, ComptimeWhileEvents, RuntimeWhileEvents, ExprEvents;
    match i
    case HIf(_, _, _) => IfJudged(ctx, st, vis, i);
    case HWhile(cb, _, body) =>
      if st.comptime {
        var start := ctx.(used := ctx.used + Touches(cb) + Touches(body));
        MoreUsed(ctx, start, st);
        assert start.used + Touches(cb) + Touches(body) == start.used;
        SameLoop(ctx, start, st.conditional, i);
        ComptimeWhileJudged(start, st, vis, i);
      } else {
        RuntimeWhileJudged(ctx, st, vis, i);
      }
    case HComptime(body) =>
      var inner := st.(comptime := true);
      SameState(ctx, st, inner);
      BlockJudged(ctx, inner, vis, body);
      var r := EvalBlock(inner, body);
      if r.exit == Fallthrough {
        SameState(Check(ctx, true, st.conditional, body).value.goes.value, r.st, r.st.(comptime := st.comptime));
      }
    case _ => SimpleJudged(ctx, st, vis, i);
  }

  lemma SameState(ctx: Context, st: State, st': State)
    requires st'.bindings == st.bindings && st'.types == st.types && st'.quota == st.quota
    ensures Agrees(ctx, st) ==> Agrees(ctx, st')
    ensures Typed(st) ==> Typed(st')
    ensures forall events :: Allowed(st, events) <==> Allowed(st', events)
  {
    if Typed(st) { TypedGrows(st, st'); }
  }

  lemma MoreUsed(ctx: Context, start: Context, st: State)
    requires Agrees(ctx, st) && start.sorts == ctx.sorts && ctx.used <= start.used
    ensures Agrees(start, st)
  {
  }

  lemma {:induction false} SameLoop(ctx: Context, start: Context, cond: bool, i: HInstr)
    requires i.HWhile? && start == ctx.(used := ctx.used + Touches(i.conditionBlock) + Touches(i.body))
    ensures CheckComptimeWhile(start, cond, i) == CheckComptimeWhile(ctx, cond, i)
  {
    hide Check, Touches;
    assert start.(used := start.used + Touches(i.conditionBlock) + Touches(i.body)) == start;
  }

  // ----- branches -----

  lemma {:induction false} IfJudged(ctx: Context, st: State, vis: set<nat>, i: HInstr)
    requires i.HIf? && st.quota.Valid() && Agrees(ctx, st) && Typed(st) && !st.diagnosed && Wf(vis, st.comptime, i)
    requires CheckInstr(ctx, st.comptime, st.conditional, i).Some? && Allowed(st, IfEvents(st, i))
    ensures Judges(CheckInstr(ctx, st.comptime, st.conditional, i).value, EvalIf(st, i))
    decreases st.quota.Left(), i, 1
  {
    AgreesAt(ctx, st, i.condition);
    hide EvalBlock, WfBlock, Check, Either, Agrees, Allowed, Events, Joins;
    match st.bindings[i.condition]
    case Runtime(m) =>
      assert ctx.sorts[i.condition] == Live(TBool);
      RuntimeIfJudged(ctx, st, vis, i);
    case Comptime(v) =>
      assert v.Boolean? by { assert KnownValue(v); }
      var st0, arm := st.(conditional := false), if v.b then i.thenBlock else i.elseBlock;
      SameState(ctx, st, st0);
      hide Typed;
      BlockJudged(ctx, st0, vis, arm);
      ChosenJudged(ctx, st, i, EvalBlock(st0, arm), v.b);
  }

  lemma {:induction false} ChosenJudged(ctx: Context, st: State, i: HInstr, a: Step, b: bool)
    requires i.HIf? && i.condition in ctx.sorts && CheckInstr(ctx, st.comptime, st.conditional, i).Some?
    requires ctx.sorts[i.condition] == Exactly(Boolean(b)) || ctx.sorts[i.condition] == KnownOf(TBool)
    requires var f := Check(ctx, st.comptime, false, if b then i.thenBlock else i.elseBlock); f.Some? && Judges(f.value, a)
    ensures Judges(CheckInstr(ctx, st.comptime, st.conditional, i).value, Step(a.st.(conditional := st.conditional), a.code, a.exit))
  {
    hide Check, Either, Agrees;
    var later := a.st.(conditional := st.conditional);
    if ctx.sorts[i.condition].KnownOf? {
      var f, g := Check(ctx, st.comptime, false, i.thenBlock).value, Check(ctx, st.comptime, false, i.elseBlock).value;
      if a.exit == Fallthrough { EitherAgrees(f.goes, g.goes, a.st); } else { EitherAgrees(f.ends, g.ends, a.st); }
    }
    var r := CheckInstr(ctx, st.comptime, st.conditional, i).value;
    if a.exit == Fallthrough { SameState(r.goes.value, a.st, later); } else { SameState(r.ends.value, a.st, later); }
  }

  lemma {:induction false} RuntimeIfJudged(ctx: Context, st: State, vis: set<nat>, i: HInstr)
    requires i.HIf? && st.quota.Valid() && Agrees(ctx, st) && Typed(st) && !st.diagnosed && Wf(vis, st.comptime, i)
    requires CheckInstr(ctx, st.comptime, st.conditional, i).Some? && Allowed(st, IfEvents(st, i))
    requires i.condition in ctx.sorts && ctx.sorts[i.condition] == Live(TBool)
    ensures Judges(CheckInstr(ctx, st.comptime, st.conditional, i).value, EvalIf(st, i))
    decreases st.quota.Left(), i, 0
  {
    AgreesAt(ctx, st, i.condition);
    hide EvalBlock, WfBlock, Check, Either, Agrees, Typed, Allowed, Events, Joins, Follows, TypedMir.BlockTyped;
    var st0 := st.(conditional := true);
    var t := EvalBlock(st0, i.thenBlock);
    var f := Check(ctx, false, true, i.thenBlock).value;
    var start := Either(f.goes, f.ends).value;
    var g := Check(start, false, true, i.elseBlock).value;
    SameState(ctx, st, st0);
    QuotaFollowsEvents(st0, i.thenBlock);
    AllowedParts(st0, t.st, t.exit, Events(st0, i.thenBlock), Events(t.st, i.elseBlock));
    BlockJudged(ctx, st0, vis, i.thenBlock);
    BlockTypedOk(st0, vis, i.thenBlock);
    EitherAgrees(f.goes, f.ends, t.st);
    BlockJudged(start, t.st, vis, i.elseBlock);
    JoinJudged(st, EvalIf(st, i), t, EvalBlock(t.st, i.elseBlock), f, g);
  }

  /** The two arms of a run-time branch together. */
  lemma JoinJudged(st: State, r: Step, t: Step, e: Step, f: Flow, g: Flow)
    requires Judges(f, t) && Judges(g, e) && r.exit == JoinExits(t.exit, e.exit)
    requires r.st.bindings == e.st.bindings && r.st.types == e.st.types && r.st.diagnosed == e.st.diagnosed
    ensures Both(f, Some(g)).Some? && Judges(Both(f, Some(g)).value, r)
  {
    hide Agrees, Either;
    if t.exit == Fallthrough {
      EitherAgrees(g.goes, g.ends, e.st);
      AgreesGrows(Either(g.goes, g.ends).value, e.st, r.st);
    } else if e.exit == Fallthrough {
      EitherAgrees(g.goes, g.ends, e.st);
      AgreesGrows(if f.goes.Some? then Either(g.goes, g.ends).value else g.goes.value, e.st, r.st);
    } else {
      AgreesGrows(g.ends.value, e.st, r.st);
    }
  }

  // ----- loops -----

  lemma {:induction false} RuntimeWhileJudged(ctx: Context, st: State, vis: set<nat>, i: HInstr)
    requires i.HWhile? && !st.comptime && st.quota.Valid() && Agrees(ctx, st) && Typed(st) && !st.diagnosed && Wf(vis, false, i)
    requires CheckRuntimeWhile(ctx, st.conditional, i).Some? && Allowed(st, RuntimeWhileEvents(st, i))
    ensures Judges(CheckRuntimeWhile(ctx, st.conditional, i).value, EvalRuntimeWhile(st, i))
    decreases st.quota.Left(), i, 1
  {
    hide EvalBlock, WfBlock, Check, Either, Agrees, Typed, Allowed, Events, Follows, TypedMir.BlockTyped, LoopCondition;
    var cb := EvalBlock(st, i.conditionBlock);
    var f := Check(ctx, false, st.conditional, i.conditionBlock).value;
    var more := if cb.exit != Fallthrough || i.condition !in cb.st.bindings || LoopCondition(cb.st, i.condition).value.PoisonV?
                then [] else Events(LoopCondition(cb.st, i.condition).st, i.body);
    QuotaFollowsEvents(st, i.conditionBlock);
    assert RuntimeWhileEvents(st, i) == Events(st, i.conditionBlock) + more;
    AllowedParts(st, cb.st, cb.exit, Events(st, i.conditionBlock), more);
    BlockJudged(ctx, st, vis, i.conditionBlock);
    BlockTypedOk(st, vis, i.conditionBlock);
    if cb.exit == BlockEnd {
      SameState(f.ends.value, cb.st, cb.st.(lossy := true));
    } else {
      var g := f.goes.value;
      ConditionJudged(g, cb.st, i.condition);
      var c := LoopCondition(cb.st, i.condition);
      ConditionCosts(cb.st, i.condition);
      SameQuota(cb.st, c.st, more);
      LoopConditionTyped(cb.st, i.condition);
      BlockJudged(g, c.st, vis, i.body);
      var body := EvalBlock(c.st, i.body);
      var h := Check(g, false, st.conditional, i.body).value;
      EitherAgrees(h.goes, h.ends, body.st);
    }
  }

  lemma SameQuota(st: State, st': State, events: seq<QuotaEvent>)
    requires st'.quota == st.quota && Allowed(st, events)
    ensures Allowed(st', events)
  {
  }

  lemma ConditionJudged(ctx: Context, st: State, c: nat)
    requires Agrees(ctx, st) && Typed(st) && !st.diagnosed && c in ctx.sorts && SortType(ctx.sorts[c]) == TBool
    ensures c in st.bindings
    ensures var l := LoopCondition(st, c); !l.value.PoisonV? && !l.st.diagnosed && Agrees(ctx, l.st)
  {
    AgreesAt(ctx, st, c);
    var l := LoopCondition(st, c);
    hide Agrees;
    AgreesGrows(ctx, st, l.st);
  }

  /** A loop run by the evaluator, round after round from a state that is as the first one was said to be. */
  lemma {:induction false} ComptimeWhileJudged(start: Context, st: State, vis: set<nat>, i: HInstr)
    requires i.HWhile? && st.comptime && st.quota.Valid() && Agrees(start, st) && Typed(st) && !st.diagnosed && Wf(vis, true, i)
    requires start.used + Touches(i.conditionBlock) + Touches(i.body) == start.used
    requires CheckComptimeWhile(start, st.conditional, i).Some? && Allowed(st, ComptimeWhileEvents(st, i))
    ensures Judges(CheckComptimeWhile(start, st.conditional, i).value, EvalComptimeWhile(st, i))
    decreases st.quota.Left(), i, 1
  {
    hide EvalBlock, WfBlock, Check, Agrees, Typed, Allowed, Events, Follows, TypedMir.BlockTyped, LoopDecision, RoundEvents, Touches;
    assert start.(used := start.used + Touches(i.conditionBlock) + Touches(i.body)) == start;
    var cb := EvalBlock(st, i.conditionBlock);
    var f := Check(start, true, st.conditional, i.conditionBlock).value;
    var round := if cb.exit == Fallthrough && GoesRound(cb.st, i.condition) then [Spend] else [];
    var more := if round == [] || SpentOne(cb.st.quota).None? then [] else RoundEvents(cb.st.(quota := SpentOne(cb.st.quota).value), i);
    QuotaFollowsEvents(st, i.conditionBlock);
    assert ComptimeWhileEvents(st, i) == Events(st, i.conditionBlock) + (round + more);
    AllowedParts(st, cb.st, cb.exit, Events(st, i.conditionBlock), round + more);
    BlockJudged(start, st, vis, i.conditionBlock);
    BlockTypedOk(st, vis, i.conditionBlock);
    DecisionFollows(cb.st, i.condition);
    DecisionJudged(f.goes.value, cb.st, i.condition, round + more);
    match LoopDecision(cb.st, i.condition)
    case Stop(_, _) =>
    case Go(st') =>
      AllowedParts(cb.st, st', Fallthrough, [Spend], more);
      RoundJudged(start, f.goes.value, st', vis, i);
  }

  /** The test of such a loop is known, and there is a branch left for each round. */
  lemma DecisionJudged(ctx: Context, st: State, c: nat, events: seq<QuotaEvent>)
    requires st.quota.Valid() && Agrees(ctx, st) && Typed(st) && !st.diagnosed && Allowed(st, events)
    requires c in ctx.sorts && IsKnown(ctx.sorts[c]) && SortType(ctx.sorts[c]) == TBool
    requires GoesRound(st, c) ==> events != [] && events[0] == Spend
    ensures var d := LoopDecision(st, c);
            && (d.Stop? ==> d.st == st && d.exit == Fallthrough)
            && (d.Go? ==> GoesRound(st, c) && !d.st.diagnosed && Agrees(ctx, d.st) && Typed(d.st))
  {
    AgreesAt(ctx, st, c);
    assert KnownValue(st.bindings[c].v);
    var d := LoopDecision(st, c);
    hide Agrees, Typed;
    if d.Go? {
      AgreesGrows(ctx, st, d.st);
      TypedGrows(st, d.st);
    }
  }

  lemma {:induction false} RoundJudged(start: Context, ctx: Context, st: State, vis: set<nat>, i: HInstr)
    requires i.HWhile? && st.comptime && st.quota.Valid() && Agrees(ctx, st) && Typed(st) && !st.diagnosed && Wf(vis, true, i)
    requires start.used + Touches(i.conditionBlock) + Touches(i.body) == start.used
    requires var f := Check(start, true, st.conditional, i.conditionBlock);
             f.Some? && f.value.goes == Some(ctx) && CheckComptimeWhile(start, st.conditional, i) == Goes(ctx)
    requires Allowed(st, RoundEvents(st, i))
    ensures var body := EvalBlock(st, i.body);
            var r := if body.exit != Fallthrough then body else EvalComptimeWhile(body.st, i);
            Judges(Flow(Some(ctx), None), r)
    decreases st.quota.Left(), i, 2
  {
    hide EvalBlock, WfBlock, Check, Agrees, Typed, Allowed, Events, Follows, TypedMir.BlockTyped, EvalComptimeWhile,
      ComptimeWhileEvents, Touches;
    assert start.(used := start.used + Touches(i.conditionBlock) + Touches(i.body)) == start;
    var body := EvalBlock(st, i.body);
    var more := if body.exit != Fallthrough then [] else ComptimeWhileEvents(body.st, i);
    QuotaFollowsEvents(st, i.body);
    AllowedParts(st, body.st, body.exit, Events(st, i.body), more);
    BlockJudged(ctx, st, vis, i.body);
    BlockTypedOk(st, vis, i.body);
    SaysAgrees(Check(ctx, true, st.conditional, i.body).value.goes.value, start, body.st);
    ComptimeWhileJudged(start, body.st, vis, i);
  }

  lemma SaysAgrees(a: Context, b: Context, st: State)
    requires Says(a, b) && Agrees(a, st)
    ensures Agrees(b, st)
  {
  }

  // ----- what is accepted -----

  /** Of well-typed blocks exactly those are accepted whose comptime loops fit the quota. */
  lemma {:induction false} WellTypedAcceptedIff(ctx: Context, st: State, vis: set<nat>, b: seq<HInstr>)
    requires st.quota.Valid() && Agrees(ctx, st) && Typed(st) && !st.diagnosed && WfBlock(vis, st.comptime, b)
    requires Check(ctx, st.comptime, st.conditional, b).Some?
    ensures Accepted(EvalBlock(st, b)) <==> !RunsOut(st.quota, Events(st, b))
    ensures Accepted(EvalBlock(st, b)) ==> Judges(Check(ctx, st.comptime, st.conditional, b).value, EvalBlock(st, b))
  {
    QuotaFollowsEvents(st, b);
    ReplayedFailsIff(st.quota, Events(st, b));
    hide EvalBlock, Events, Check, WfBlock, Agrees, Typed, RunsOut;
    if !RunsOut(st.quota, Events(st, b)) { BlockJudged(ctx, st, vis, b); }
  }

  /** No loop is run by the evaluator. */
  predicate Loopless(ct: bool, b: seq<HInstr>)
    decreases b, 1
  {
    b == [] || (LooplessInstr(ct, b[0]) && Loopless(ct, b[1..]))
  }

  predicate LooplessInstr(ct: bool, i: HInstr)
    decreases i, 0
  {
    match i
    case HIf(_, t, e) => Loopless(ct, t) && Loopless(ct, e)
    case HWhile(cb, _, body) => !ct && Loopless(ct, cb) && Loopless(ct, body)
    case HComptime(body) => Loopless(true, body)
    case _ => true
  }

  lemma {:induction false} LooplessSpendsNothing(st: State, b: seq<HInstr>)
    requires st.quota.Valid() && Loopless(st.comptime, b)
    ensures Branches(Events(st, b)) == 0
    decreases st.quota.Left(), b, 3
  {
    hide EvalInstr, InstrEvents, LooplessInstr, Branches;
    if b == [] {
      assert Branches([]) == 0 by { NoBranches(); }
    } else {
      var first := EvalInstr(st, b[0]);
      var more := if first.exit == Fallthrough then Events(first.st, b[1..]) else [];
      LooplessInstrSpendsNothing(st, b[0]);
      NoBranches();
      if first.exit == Fallthrough { LooplessSpendsNothing(first.st, b[1..]); }
      RunsConcat(st.quota, 0, InstrEvents(st, b[0]), more);
    }
  }

  lemma NoBranches()
    ensures Branches([]) == 0
  {
  }

  lemma {:induction false} LooplessInstrSpendsNothing(st: State, i: HInstr)
    requires st.quota.Valid() && LooplessInstr(st.comptime, i)
    ensures Branches(InstrEvents(st, i)) == 0
    decreases st.quota.Left(), i, 2
  {
    hide EvalBlock, Events, Loopless, LoopCondition, Branches;
    NoBranches();
    match i
    case HIf(c, t, e) =>
      if c in st.bindings {
        match st.bindings[c]
        case Runtime(_) =>
          var st0 := st.(conditional := true);
          LooplessSpendsNothing(st0, t);
          LooplessSpendsNothing(EvalBlock(st0, t).st, e);
          RunsConcat(st.quota, 0, Events(st0, t), Events(EvalBlock(st0, t).st, e));
        case Comptime(v) => if v.Boolean? { LooplessSpendsNothing(st.(conditional := false), if v.b then t else e); }
        case Poison =>
      }
    case HWhile(cb, c, body) =>
      var cbr := EvalBlock(st, cb);
      var l := LoopCondition(cbr.st, c);
      LooplessSpendsNothing(st, cb);
      ConditionCosts(cbr.st, c);
      LooplessSpendsNothing(l.st, body);
      var more := if cbr.exit != Fallthrough || c !in cbr.st.bindings || l.value.PoisonV? then [] else Events(l.st, body);
      RunsConcat(st.quota, 0, Events(st, cb), more);
    case HComptime(body) => LooplessSpendsNothing(st.(comptime := true), body);
    case _ => AsksOnly(st, i.e);
  }

  lemma AsksOnly(st: State, e: HExpr)
    ensures Branches(ExprEvents(st, e)) == 0
  {
    var events := ExprEvents(st, e);
    NoBranches();
    if events != [] { assert events[1..] == []; }
  }

  lemma {:induction false} NeverRunsOut(q: Quota, events: seq<QuotaEvent>)
    requires q.spent <= q.limit && Branches(events) == 0
    ensures !RunsOut(q, events)
  {
    EnoughRuns(q, events);
    ReplayedFailsIff(q, events);
  }

  /** Where the evaluator runs no loop, the text alone decides: what is well typed is accepted. */
  lemma {:induction false} WellTypedLoopless(ctx: Context, st: State, vis: set<nat>, b: seq<HInstr>)
    requires st.quota.Valid() && Agrees(ctx, st) && Typed(st) && !st.diagnosed && WfBlock(vis, st.comptime, b)
    requires Check(ctx, st.comptime, st.conditional, b).Some? && Loopless(st.comptime, b)
    ensures Accepted(EvalBlock(st, b)) && Judges(Check(ctx, st.comptime, st.conditional, b).value, EvalBlock(st, b))
  {
    WellTypedAcceptedIff(ctx, st, vis, b);
    LooplessSpendsNothing(st, b);
    NeverRunsOut(st.quota, Events(st, b));
    hide EvalBlock, Events, Check, WfBlock, Agrees, Typed, RunsOut, Loopless, Judges;
  }

  /** The other way round for comptime code: an instruction on a value of run time is diagnosed, or follows poison. */
  lemma ComptimeNeedsKnown(st: State, i: HInstr)
    requires st.comptime && !i.HIf? && !i.HWhile? && !i.HComptime?
    requires EvalExpr(st, i.e).value.RuntimeV?
    ensures var r := EvalSimple(st, i);
            r.st.diagnosed || r.exit != Fallthrough || exists x :: x in r.st.bindings && r.st.bindings[x] == Poison
  {
    var es := EvalExpr(st, i.e);
    hide EvalExpr;
    if es.exit == Fallthrough {
      match i
      case HSet(x, ty, _) => if ty.Some? ==> ty.value in es.st.bindings { AnnotationDecides(es.st, x, ty, es.value); }
      case HSetMut(x, ty, _) => if ty.Some? ==> ty.value in es.st.bindings { AnnotationDecides(es.st, x, ty, es.value); }
      case HBranchSet(x, _) => AnnotationDecides(es.st, x, None, es.value);
      case HAssign(x, _) =>
        if x in es.st.bindings { assert AssignChecked(es.st, x, es.value).st.bindings[x] == Poison; }
      case HEval(_) =>
    }
  }

  lemma AnnotationDecides(st: State, x: nat, ty: Option<nat>, value: EvalValue)
    requires value.RuntimeV? && (ty.Some? ==> ty.value in st.bindings)
    ensures var c := CheckAnnotation(st, ty, value);
            BindComptime(c.st, x, c.value).bindings[x] == Poison
  {
  }
}
