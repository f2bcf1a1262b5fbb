/** Block discipline: every block the lowering is done with has exactly one terminator, at its end. */
module Discipline {
  import opened Values
  import opened World
  import opened Mir
  import opened Graph
  import opened Lowering

  /** Of the blocks touched since `a`, a loose exit leaves only the current one open; a terminated exit none. */
  ghost predicate Closed(a: Builder, r: Lowered)
    requires a.Valid() && r.bld.Valid()
  {
    && (r.exit.Loose? ==> Open(r.bld.blocks[r.bld.cur]))
    && (!r.exit.Panicked? ==>
          forall i | Touched(a, r.bld, i) && (r.exit.Terminated? || i != r.bld.cur) :: Finished(r.bld.blocks[i]))
  }

  predicate Touched(a: Builder, b: Builder, i: int) {
    0 <= i < |b.blocks| && (i == a.cur || i >= |a.blocks|)
  }

  // ----- straight-line code -----

  ghost predicate Straight(p: Piece) {
    match p
    case Panic => true
    case Yields(code, _, _) => Open(code)
    case Ends(code, _) => Finished(code)
  }

  lemma OpenConcat(a: Block, b: Block)
    requires Open(a)
    ensures Open(b) ==> Open(a + b)
    ensures Finished(b) ==> Finished(a + b)
  {
    if Finished(b) {
      assert (a + b)[..|a + b| - 1] == a + b[..|b| - 1];
    }
  }

  lemma OneEnds(a: Block, t: Inst)
    requires Open(a) && Terminator(t)
    ensures Finished(a + [t])
  {
    assert (a + [t])[..|a|] == a;
  }

  lemma PrependStraight(code: seq<Inst>, p: Piece)
    requires Open(code) && Straight(p)
    ensures Straight(Prepend(code, p))
  {
    hide Finished, Open;
    match p
    case Yields(c, _, _) => OpenConcat(code, c);
    case Ends(c, _) => OpenConcat(code, c);
    case _ =>
  }

  lemma {:induction false} LocalsStraight(types: seq<Ty>, next: nat, agg: Operand, fields: seq<nat>, i: nat)
    ensures Straight(AggregateOfLocals(types, next, agg, fields, i))
    decreases |fields| - i
  {
    if i < |fields| {
      match ReadLocal(types, next, fields[i])
      case Yields(code, None, n) =>
        LocalsStraight(types, n, agg, fields, i + 1);
        PrependStraight(code, AggregateOfLocals(types, n, agg, fields, i + 1));
      case Yields(code, Some(o), n) =>
        LocalsStraight(types, n + 1, Tmp(n), fields, i + 1);
        PrependStraight(code + [Insert(n, agg, i, o)], AggregateOfLocals(types, n + 1, Tmp(n), fields, i + 1));
      case _ =>
    }
  }

  lemma {:induction false} ConstantStraight(next: nat, v: Value)
    ensures Straight(Constant(next, v))
    decreases v, 0
  {
    match v
    case Struct(_, fs) => ValuesStraight(next, Undef(|fs|), fs, 0);
    case _ =>
  }

  lemma {:induction false} ValuesStraight(next: nat, agg: Operand, fs: seq<Value>, i: nat)
    ensures Straight(AggregateOfValues(next, agg, fs, i))
    decreases fs, |fs| - i
  {
    if i < |fs| {
      ConstantStraight(next, fs[i]);
      match Constant(next, fs[i])
      case Yields(code, None, n) =>
        ValuesStraight(n, agg, fs, i + 1);
        PrependStraight(code, AggregateOfValues(n, agg, fs, i + 1));
      case Yields(code, Some(o), n) =>
        ValuesStraight(n + 1, Tmp(n), fs, i + 1);
        PrependStraight(code + [Insert(n, agg, i, o)], AggregateOfValues(n + 1, Tmp(n), fs, i + 1));
      case _ =>
    }
  }

  lemma OpStraight(op: Op, os: seq<Operand>, n: nat, shape: Option<Shape>)
    requires |os| == OpArity(op)
    ensures Straight(OpPiece(op, os, n, shape))
  {
    match op
    case MLoad(bytes) =>
    case MStore(bytes) =>
    case _ =>
  }

  lemma OperationStraight(types: seq<Ty>, next: nat, op: Op, args: seq<nat>, shape: Option<Shape>)
    ensures Straight(Operation(types, next, op, args, shape))
  {
    hide OpArity, OpPiece, HasVar, Finished;
    if |args| == OpArity(op) {
      OpStraight(op, Tmps(next, |args|), next + |args|, shape);
      PrependStraight(ReadCode(next, args), OpPiece(op, Tmps(next, |args|), next + |args|, shape));
    }
  }

  lemma CallStraight(types: seq<Ty>, next: nat, callee: nat, args: seq<nat>, ret: Ty, shape: Option<Shape>)
    ensures Straight(CallPiece(types, next, callee, args, ret, shape))
  {
    hide Tmps, Shaped, ShapeOf;
    var shaped := Shaped(types, args);
    var call := CallFn(None, callee, Tmps(next, |shaped|), ret);
    OpenConcat(ReadCode(next, shaped), [call]);
    OneEnds(ReadCode(next, shaped) + [call], Invalid);
    assert ReadCode(next, shaped) + [call] + [Invalid] == ReadCode(next, shaped) + [call, Invalid];
  }

  lemma ValueStraight(types: seq<Ty>, next: nat, e: Expr, shape: Option<Shape>)
    ensures Straight(ValuePiece(types, next, e, shape))
  {
    hide AggregateOfLocals, Constant, Operation, CallPiece, ShapeOf, Finished;
    match e
    case Const(v) => ConstantStraight(next, v);
    case CompoundLit(_, fields) => LocalsStraight(types, next, Undef(|fields|), fields, 0);
    case Builtin(op, args) => OperationStraight(types, next, op, args, shape);
    case Call(callee, args, ret) => CallStraight(types, next, callee, args, ret, shape);
    case _ =>
  }

  lemma SetStraight(types: seq<Ty>, next: nat, t: nat, e: Expr)
    ensures Straight(SetPiece(types, next, t, e))
  {
    if t < |types| {
      ValueStraight(types, next, e, ShapeOf(types[t]));
      match ValuePiece(types, next, e, ShapeOf(types[t]))
      case Yields(code, Some(o), _) => OpenConcat(code, [DefVar(t, o)]);
      case _ =>
    }
  }

  lemma PlacedCloses(bld: Builder, p: Piece)
    requires bld.Valid() && Open(bld.blocks[bld.cur]) && Straight(p)
    ensures Closed(bld, Placed(bld, p))
  {
    match p
    case Panic =>
    case Yields(code, _, _) => OpenConcat(bld.blocks[bld.cur], code);
    case Ends(code, _) => OpenConcat(bld.blocks[bld.cur], code);
  }

  // ----- control flow -----

  lemma {:induction false} BlockDiscipline(types: seq<Ty>, bld: Builder, b: seq<Instr>)
    requires bld.Valid() && Open(bld.blocks[bld.cur])
    ensures Closed(bld, LowerBlock(types, bld, b))
    decreases b, 1
  {
    hide Open, Finished;
    if b != [] {
      InstrDiscipline(types, bld, b[0]);
      var r := LowerInstr(types, bld, b[0]);
      if r.exit.Loose? { BlockDiscipline(types, r.bld, b[1..]); }
    }
  }

  lemma {:induction false} InstrDiscipline(types: seq<Ty>, bld: Builder, i: Instr)
    requires bld.Valid() && Open(bld.blocks[bld.cur])
    ensures Closed(bld, LowerInstr(types, bld, i))
    decreases i, 1
  {
    hide Open, Finished, Closed, LowerBlock;
    match i
    case Set(t, e) =>
      SetStraight(types, bld.next, t, e);
      PlacedCloses(bld, SetPiece(types, bld.next, t, e));
    case Return(l) => ReturnCloses(types, bld, l);
    case If(c, t, e) => IfDiscipline(types, bld, i);
    case While(cb, c, body) => WhileDiscipline(types, bld, i);
  }

  lemma ReturnCloses(types: seq<Ty>, bld: Builder, l: nat)
    requires bld.Valid() && Open(bld.blocks[bld.cur])
    ensures Closed(bld, Placed(bld, ReturnPiece(types, bld.next, l)))
  {
    PlacedCloses(bld, ReturnPiece(types, bld.next, l)) by {
      match ReadLocal(types, bld.next, l)
      case Yields(code, out, _) => OneEnds(code, Ret(out));
      case _ =>
    }
  }

  lemma ForkCloses(types: seq<Ty>, bld: Builder, c: nat)
    requires bld.Valid() && Open(bld.blocks[bld.cur])
    ensures !ForkIf(types, bld, c).exit.Panicked? ==> Finished(ForkIf(types, bld, c).bld.blocks[bld.cur])
    ensures !ForkWhile(types, bld, c).exit.Panicked? ==> Finished(ForkWhile(types, bld, c).bld.blocks[bld.cur])
  {
    var b := bld.Append().Append();
    match ConditionPiece(types, b.next, c)
    case Yields(code, Some(o), n) =>
      var block, k := bld.blocks[bld.cur], |bld.blocks|;
      assert Open(block + code);
      OneEnds(block + code, Br(o, k + 1, k));
      OneEnds(block + code, Br(o, k, k + 1));
      assert block + (code + [Br(o, k + 1, k)]) == block + code + [Br(o, k + 1, k)];
      assert block + (code + [Br(o, k, k + 1)]) == block + code + [Br(o, k, k + 1)];
    case _ =>
  }

  lemma {:induction false} IfDiscipline(types: seq<Ty>, bld: Builder, i: Instr)
    requires bld.Valid() && Open(bld.blocks[bld.cur]) && i.If?
    ensures Closed(bld, LowerInstr(types, bld, i))
    decreases i, 0
  {
    hide Open, Finished, LowerBlock, ForkIf;
    var fork := ForkIf(types, bld, i.condition);
    if !fork.exit.Panicked? {
      assert Open([]) by { EmptyOpen(); }
      ForkCloses(types, bld, i.condition);
      var else_ := |bld.blocks|;
      BlockDiscipline(types, fork.bld.Switch(else_ + 1), i.thenBlock);
      var thenEnd := LowerBlock(types, fork.bld.Switch(else_ + 1), i.thenBlock);
      BlockDiscipline(types, thenEnd.bld.Switch(else_), i.elseBlock);
      var elseEnd := LowerBlock(types, thenEnd.bld.Switch(else_), i.elseBlock);
      if !thenEnd.exit.Panicked? && !elseEnd.exit.Panicked? {
        JoinCloses(bld, thenEnd, elseEnd);
      }
    }
  }

  lemma EmptyOpen()
    ensures Open([])
  {
  }

  lemma JumpFinishes(b: Block, k: nat)
    requires Open(b)
    ensures Finished(b + [Jump(k)])
  {
    OneEnds(b, Jump(k));
  }

  lemma JoinCloses(bld: Builder, thenEnd: Lowered, elseEnd: Lowered)
    requires bld.Valid() && thenEnd.bld.Valid() && elseEnd.bld.Valid()
    requires |bld.blocks| <= |thenEnd.bld.blocks| <= |elseEnd.bld.blocks|
    requires |bld.blocks| <= thenEnd.bld.cur && |bld.blocks| <= elseEnd.bld.cur
    requires bld.blocks[bld.cur] <= elseEnd.bld.blocks[bld.cur]
    requires forall i | 0 <= i < |bld.blocks| && i != bld.cur :: elseEnd.bld.blocks[i] == bld.blocks[i]
    requires !thenEnd.exit.Panicked? && !elseEnd.exit.Panicked?
    requires thenEnd.exit.Loose? ==> Open(elseEnd.bld.blocks[thenEnd.bld.cur])
    requires elseEnd.exit.Loose? ==> Open(elseEnd.bld.blocks[elseEnd.bld.cur])
    requires thenEnd.exit.Loose? && elseEnd.exit.Loose? ==> thenEnd.bld.cur != elseEnd.bld.cur
    requires forall i | Touched(bld, elseEnd.bld, i) && !(thenEnd.exit.Loose? && i == thenEnd.bld.cur)
               && !(elseEnd.exit.Loose? && i == elseEnd.bld.cur) :: Finished(elseEnd.bld.blocks[i])
    ensures Closed(bld, Join(bld, thenEnd, elseEnd))
  {
    hide Open, Finished;
    var merge := |elseEnd.bld.blocks|;
    EmptyOpen();
    if thenEnd.exit.Loose? { JumpFinishes(elseEnd.bld.blocks[thenEnd.bld.cur], merge); }
    if elseEnd.exit.Loose? { JumpFinishes(elseEnd.bld.blocks[elseEnd.bld.cur], merge); }
  }

  lemma {:induction false} WhileDiscipline(types: seq<Ty>, bld: Builder, i: Instr)
    requires bld.Valid() && Open(bld.blocks[bld.cur]) && i.While?
    ensures Closed(bld, LowerInstr(types, bld, i))
    decreases i, 0
  {
    hide Open, Finished, LowerBlock, ForkWhile;
    var head := |bld.blocks|;
    EmptyOpen();
    JumpFinishes(bld.blocks[bld.cur], head);
    BlockDiscipline(types, EnterLoop(bld), i.conditionBlock);
    var condEnd := LowerBlock(types, EnterLoop(bld), i.conditionBlock);
    if condEnd.exit.Loose? {
      ForkCloses(types, condEnd.bld, i.condition);
      var fork := ForkWhile(types, condEnd.bld, i.condition);
      if !fork.exit.Panicked? {
        BlockDiscipline(types, fork.bld.Switch(|condEnd.bld.blocks|), i.body);
        var bodyEnd := LowerBlock(types, fork.bld.Switch(|condEnd.bld.blocks|), i.body);
        if bodyEnd.exit.Loose? { JumpFinishes(bodyEnd.bld.blocks[bodyEnd.bld.cur], head); }
      }
    }
  }

  /** Every block of a finished function has exactly one terminator, at its end. */
  lemma FunctionDiscipline(types: seq<Ty>, n: nat, body: seq<Instr>)
    ensures var r := LowerFunction(types, n, body);
            !r.exit.Panicked? ==> r.exit.Terminated? && forall i | 0 <= i < |r.bld.blocks| :: Finished(r.bld.blocks[i])
  {
    var start := Entry(types, n);
    PrologueOpen(types, 0, n, 0);
    BlockDiscipline(types, start, body);
    var r := LowerBlock(types, start, body);
    hide Open, Finished, LowerBlock;
    if r.exit.Loose? { InvalidFinishes(r.bld.blocks[r.bld.cur]); }
  }

  lemma {:induction false} PrologueOpen(types: seq<Ty>, param: nat, n: nat, arg: nat)
    ensures Open(Prologue(types, param, n, arg))
    decreases n - param
  {
    hide HasVar;
    if param < n {
      PrologueOpen(types, param + 1, n, arg);
      PrologueOpen(types, param + 1, n, arg + 1);
    }
  }

  lemma InvalidFinishes(b: Block)
    requires Open(b)
    ensures Finished(b + [Invalid])
  {
    OneEnds(b, Invalid);
  }
}
