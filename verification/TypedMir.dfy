/** Well-typed MIR, and that lowering it never panics. */
module TypedMir {
  import opened Values
  import opened World
  import opened Mir
  import opened Graph
  import opened Lowering
  import Evm

  /** Constants that can be materialised: words, booleans and aggregates of them. */
  predicate Material(v: Value) {
    match v
    case Ptr(_) => false
    case TypeVal(_) => false
    case Struct(ty, fs) =>
      AggregateType(ty, |fs|) && forall i | 0 <= i < |fs| :: Material(fs[i]) && TypeOf(fs[i]) == ty.fields[i].ty
    case _ => true
  }

  predicate InRange(types: seq<Ty>, locals: seq<nat>) {
    forall i | 0 <= i < |locals| :: locals[i] < |types|
  }

  /** The type an operation leaves in its target. */
  predicate OpTyped(op: Op, ty: Ty) {
    match op
    case Foldable(_) => Scalar(ty)
    case RuntimeOnly(_, _, result) => ty == result && (Scalar(ty) || ty == TVoid || ty == TNever)
    case MLoad(bytes) => 1 <= bytes <= 32 && ty == TU256
    case MStore(bytes) => 1 <= bytes <= 32 && ty == TVoid
  }

  predicate ExprTyped(types: seq<Ty>, e: Expr, ty: Ty) {
    match e
    case LocalRef(l) => l < |types| && types[l] == ty
    case Const(v) => Material(v) && TypeOf(v) == ty
    case Builtin(op, args) =>
      && OpTyped(op, ty) && |args| == OpArity(op)
      && InRange(types, args) && forall i | 0 <= i < |args| :: Scalar(types[args[i]])
    case FieldAccess(obj, i) =>
      obj < |types| && types[obj].TStruct? && i < |types[obj].fields| && types[obj].fields[i].ty == ty
    case CompoundLit(sty, fields) => sty == ty && AggregateType(sty, |fields|) && InRange(types, fields)
    case Call(_, args, ret) => InRange(types, args) && ret == ty
  }

  predicate BlockTyped(types: seq<Ty>, b: seq<Instr>)
    decreases b
  {
    b == [] || (InstrTyped(types, b[0]) && BlockTyped(types, b[1..]))
  }

  predicate InstrTyped(types: seq<Ty>, i: Instr)
    decreases i
  {
    match i
    case Set(t, e) => t < |types| && ExprTyped(types, e, types[t])
    case Return(l) => l < |types|
    case If(c, t, e) => c < |types| && Scalar(types[c]) && BlockTyped(types, t) && BlockTyped(types, e)
    case While(cb, c, body) => c < |types| && Scalar(types[c]) && BlockTyped(types, cb) && BlockTyped(types, body)
  }

  // ----- lowering does not panic -----

  /** The code yields a value exactly for types that have a shape, or ends the block. */
  predicate Fits(p: Piece, ty: Ty) {
    match p
    case Panic => false
    case Yields(_, out, _) => out.Some? == ShapeOf(ty).Some?
    case Ends(_, _) => true
  }

  lemma {:induction false} ConstantFits(next: nat, v: Value)
    requires Material(v)
    ensures Fits(Constant(next, v), TypeOf(v))
    decreases v, 0
  {
    match v
    case Struct(ty, fs) => if ShapeOf(ty).Some? { ValuesFit(next, Undef(|fs|), fs, 0); }
    case _ =>
  }

  lemma {:induction false} ValuesFit(next: nat, agg: Operand, fs: seq<Value>, i: nat)
    requires forall j | 0 <= j < |fs| :: Material(fs[j])
    ensures AggregateOfValues(next, agg, fs, i).Yields?
    decreases fs, |fs| - i
  {
    hide Material, ShapeOf;
    if i < |fs| {
      ConstantFits(next, fs[i]);
      match Constant(next, fs[i])
      case Yields(_, None, n) => ValuesFit(n, agg, fs, i + 1);
      case Yields(_, Some(_), n) => ValuesFit(n + 1, Tmp(n), fs, i + 1);
      case _ =>
    }
  }

  lemma {:induction false} LocalsFit(types: seq<Ty>, next: nat, agg: Operand, fields: seq<nat>, i: nat)
    requires InRange(types, fields)
    ensures AggregateOfLocals(types, next, agg, fields, i).Yields?
    decreases |fields| - i
  {
    hide ShapeOf;
    if i < |fields| {
      match ReadLocal(types, next, fields[i])
      case Yields(_, None, n) => LocalsFit(types, n, agg, fields, i + 1);
      case Yields(_, Some(_), n) => LocalsFit(types, n + 1, Tmp(n), fields, i + 1);
      case _ =>
    }
  }

  lemma {:induction false} OpFits(op: Op, os: seq<Operand>, n: nat, ty: Ty)
    requires |os| == OpArity(op) && OpTyped(op, ty)
    ensures Fits(OpPiece(op, os, n, ShapeOf(ty)), ty)
  {
  }

  lemma {:induction false} OperationFits(types: seq<Ty>, next: nat, op: Op, args: seq<nat>, ty: Ty)
    requires ExprTyped(types, Expr.Builtin(op, args), ty)
    ensures Fits(Operation(types, next, op, args, ShapeOf(ty)), ty)
  {
    hide OpPiece;
    OpFits(op, Tmps(next, |args|), next + |args|, ty);
    assert ShapeOf(ty).Some? ==> !ShapeOf(ty).value.Aggregate?;
    assert forall i | 0 <= i < |args| :: HasVar(types, args[i]);
  }

  lemma {:induction false} ValueFits(types: seq<Ty>, next: nat, e: Expr, ty: Ty)
    requires ExprTyped(types, e, ty)
    ensures Fits(ValuePiece(types, next, e, ShapeOf(ty)), ty)
  {
    hide AggregateOfLocals, Constant, Operation;
    match e
    case Const(v) => ConstantFits(next, v);
    case CompoundLit(_, fields) => if ShapeOf(ty).Some? { LocalsFit(types, next, Undef(|fields|), fields, 0); }
    case Builtin(op, args) => OperationFits(types, next, op, args, ty);
    case _ =>
  }

  lemma {:induction false} SetNoPanic(types: seq<Ty>, next: nat, t: nat, e: Expr)
    requires InstrTyped(types, Set(t, e))
    ensures !SetPiece(types, next, t, e).Panic?
  {
    hide ValuePiece, ExprTyped, ShapeOf;
    ValueFits(types, next, e, types[t]);
  }

  lemma ConditionNoPanic(types: seq<Ty>, next: nat, c: nat)
    requires c < |types| && Scalar(types[c])
    ensures ConditionPiece(types, next, c).Yields?
  {
  }

  /** Lowering a well-typed block never panics. */
  lemma {:induction false} TypedBlockLowers(types: seq<Ty>, bld: Builder, b: seq<Instr>)
    requires bld.Valid() && BlockTyped(types, b)
    ensures !LowerBlock(types, bld, b).exit.Panicked?
    decreases b, 1
  {
    hide InstrTyped;
    if b != [] {
      TypedInstrLowers(types, bld, b[0]);
      var r := LowerInstr(types, bld, b[0]);
      if r.exit.Loose? { TypedBlockLowers(types, r.bld, b[1..]); }
    }
  }

  lemma {:induction false} TypedInstrLowers(types: seq<Ty>, bld: Builder, i: Instr)
    requires bld.Valid() && InstrTyped(types, i)
    ensures !LowerInstr(types, bld, i).exit.Panicked?
    decreases i, 0
  {
    hide LowerBlock, SetPiece, ConditionPiece, ShapeOf;
    match i
    case Set(t, e) => SetNoPanic(types, bld.next, t, e);
    case Return(l) =>
    case If(c, t, e) =>
      ConditionNoPanic(types, bld.next, c);
      var else_ := |bld.blocks|;
      var fork := ForkIf(types, bld, c);
      TypedBlockLowers(types, fork.bld.Switch(else_ + 1), t);
      TypedBlockLowers(types, LowerBlock(types, fork.bld.Switch(else_ + 1), t).bld.Switch(else_), e);
    case While(cb, c, body) =>
      TypedBlockLowers(types, EnterLoop(bld), cb);
      var condEnd := LowerBlock(types, EnterLoop(bld), cb);
      if condEnd.exit.Loose? {
        ConditionNoPanic(types, condEnd.bld.next, c);
        TypedBlockLowers(types, ForkWhile(types, condEnd.bld, c).bld.Switch(|condEnd.bld.blocks|), body);
      }
  }

  // ----- typing stays when the table grows -----

  lemma ExprGrows(types: seq<Ty>, later: seq<Ty>, e: Expr, ty: Ty)
    requires types <= later && ExprTyped(types, e, ty)
    ensures ExprTyped(later, e, ty)
  {
    hide Material, OpTyped;
  }

  lemma {:induction false} BlockGrows(types: seq<Ty>, later: seq<Ty>, b: seq<Instr>)
    requires types <= later && BlockTyped(types, b)
    ensures BlockTyped(later, b)
    decreases b, 1
  {
    hide InstrTyped;
    if b != [] {
      InstrGrows(types, later, b[0]);
      BlockGrows(types, later, b[1..]);
    }
  }

  lemma {:induction false} InstrGrows(types: seq<Ty>, later: seq<Ty>, i: Instr)
    requires types <= later && InstrTyped(types, i)
    ensures InstrTyped(later, i)
    decreases i, 0
  {
    hide BlockTyped, ExprTyped;
    match i
    case Set(t, e) => ExprGrows(types, later, e, types[t]);
    case Return(_) =>
    case If(_, t, e) =>
      BlockGrows(types, later, t);
      BlockGrows(types, later, e);
    case While(cb, _, body) =>
      BlockGrows(types, later, cb);
      BlockGrows(types, later, body);
  }

  lemma {:induction false} BlockConcat(types: seq<Ty>, a: seq<Instr>, b: seq<Instr>)
    requires BlockTyped(types, a) && BlockTyped(types, b)
    ensures BlockTyped(types, a + b)
    decreases |a|
  {
    hide InstrTyped;
    if a == [] {
      assert a + b == b;
    } else {
      assert (a + b)[0] == a[0] && (a + b)[1..] == a[1..] + b;
      BlockConcat(types, a[1..], b);
    }
  }

  lemma {:induction false} OneTyped(types: seq<Ty>, i: Instr)
    requires InstrTyped(types, i)
    ensures BlockTyped(types, [i])
  {
    hide InstrTyped;
    assert [i][1..] == [];
    assert BlockTyped(types, []);
  }
}
