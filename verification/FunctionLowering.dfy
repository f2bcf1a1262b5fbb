/** The lowering as the compiler runs it: one pass that drives a builder with a mutable current block. */
module FunctionLowering {
  import opened Values
  import opened World
  import opened Mir
  import opened Graph
  import opened Lowering
  import Evm

  /** What a step hands back: a value or none, the end of the block, or a panic. */
  datatype Output = Broken | Output(value: Option<Operand>) | EndOfBlock

  function OutputOf(p: Piece): Output {
    match p
    case Panic => Broken
    case Yields(_, out, _) => Output(out)
    case Ends(_, _) => EndOfBlock
  }

  ghost predicate Follows(a: Builder, b: Builder, p: Piece)
    requires a.Valid()
  {
    match p
    case Panic => true
    case Yields(code, _, n) => b == a.Emit(code, n)
    case Ends(code, n) => b == a.Emit(code, n)
  }

  lemma EmitTwice(bld: Builder, a: seq<Inst>, n: nat, b: seq<Inst>, m: nat)
    requires bld.Valid()
    ensures bld.Emit(a, n).Valid() && bld.Emit(a, n).Emit(b, m) == bld.Emit(a + b, m)
  {
    var block := bld.blocks[bld.cur];
    assert block + a + b == block + (a + b);
    assert bld.blocks[bld.cur := block + a][bld.cur := block + a + b] == bld.blocks[bld.cur := block + (a + b)];
  }

  lemma EmitNothing(bld: Builder)
    requires bld.Valid()
    ensures bld.Emit([], bld.next) == bld
  {
    assert bld.blocks[bld.cur] + [] == bld.blocks[bld.cur];
  }

  lemma PrependTwice(a: seq<Inst>, b: seq<Inst>, p: Piece)
    ensures Prepend(a, Prepend(b, p)) == Prepend(a + b, p)
  {
    match p
    case Yields(c, _, _) => assert a + (b + c) == a + b + c;
    case Ends(c, _) => assert a + (b + c) == a + b + c;
    case _ =>
  }

  lemma PrependNothing(p: Piece)
    ensures Prepend([], p) == p
  {
    match p
    case Yields(c, _, _) => assert [] + c == c;
    case Ends(c, _) => assert [] + c == c;
    case _ =>
  }

  /** Emitting a piece after other code. */
  lemma FollowsPrepend(a: Builder, code: seq<Inst>, n: nat, c: Builder, p: Piece)
    requires a.Valid() && Follows(a.Emit(code, n), c, p)
    ensures Follows(a, c, Prepend(code, p))
  {
    match p
    case Yields(d, _, m) => EmitTwice(a, code, n, d, m);
    case Ends(d, m) => EmitTwice(a, code, n, d, m);
    case _ =>
  }

  lemma EmitThree(bld: Builder, a: seq<Inst>, n: nat, b: seq<Inst>, m: nat, i: Inst, k: nat)
    requires bld.Valid()
    ensures bld.Emit(a, n).Emit(b, m).Valid()
    ensures bld.Emit(a, n).Emit(b, m).Emit([i], k) == bld.Emit(a + (b + [i]), k)
  {
    EmitTwice(bld, a, n, b, m);
    EmitTwice(bld, a + b, m, [i], k);
    assert a + b + [i] == a + (b + [i]);
  }

  lemma ReadCodeSnoc(next: nat, locals: seq<nat>, l: nat)
    ensures ReadCode(next, locals + [l]) == ReadCode(next, locals) + [UseVar(next + |locals|, l)]
    ensures Tmps(next, |locals| + 1) == Tmps(next, |locals|) + [Tmp(next + |locals|)]
  {
  }

  lemma {:induction false} ShapedSnoc(types: seq<Ty>, locals: seq<nat>, l: nat)
    ensures Shaped(types, locals + [l]) == Shaped(types, locals) + (if HasVar(types, l) then [l] else [])
    decreases |locals|
  {
    hide HasVar, Shaped;
    ShapedCons(types, locals + [l]);
    if locals == [] {
      assert locals + [l] == [l] && [l][1..] == [];
      NoneShaped(types);
    } else {
      assert (locals + [l])[1..] == locals[1..] + [l];
      ShapedSnoc(types, locals[1..], l);
      ShapedCons(types, locals);
      var head, rest := (if HasVar(types, locals[0]) then [locals[0]] else []), Shaped(types, locals[1..]);
      assert head + (rest + [l]) == head + rest + [l] && head + (rest + []) == head + rest + [];
    }
  }

  lemma {:induction false} ShapedCons(types: seq<Ty>, locals: seq<nat>)
    requires locals != []
    ensures Shaped(types, locals) == (if HasVar(types, locals[0]) then [locals[0]] else []) + Shaped(types, locals[1..])
  {
    hide HasVar;
  }

  lemma {:induction false} NoneShaped(types: seq<Ty>)
    ensures Shaped(types, []) == []
  {
  }

  class FunctionLowerer {
    const types: seq<Ty>
    var blocks: seq<Block>
    var cur: nat
    var next: nat

    ghost function Bld(): Builder
      reads this
    {
      Builder(blocks, cur, next)
    }

    constructor (types: seq<Ty>, args: nat)
      ensures this.types == types && Bld() == Builder([[]], 0, args)
    {
      this.types := types;
      blocks := [[]];
      cur := 0;
      next := args;
    }

    // ----- the builder -----

    method AppendBlock() returns (b: nat)
      modifies this
      ensures b == old(|blocks|) && Bld() == old(Bld()).Append()
    {
      b := |blocks|;
      blocks := blocks + [[]];
    }

    method SwitchTo(b: nat)
      modifies this`cur
      ensures Bld() == old(Bld()).Switch(b)
    {
      cur := b;
    }

    method InsertInst(i: Inst)
      requires Bld().Valid()
      modifies this`blocks
      ensures Bld() == old(Bld()).Emit([i], next)
    {
      blocks := blocks[cur := blocks[cur] + [i]];
    }

    method FreshTemp() returns (t: nat)
      modifies this`next
      ensures t == old(next) && next == t + 1
    {
      t := next;
      next := next + 1;
    }

    // ----- locals -----

    method ReadLocal(l: nat) returns (r: Output)
      requires Bld().Valid()
      modifies this
      ensures r == OutputOf(Lowering.ReadLocal(types, old(next), l))
      ensures Follows(old(Bld()), Bld(), Lowering.ReadLocal(types, old(next), l))
    {
      if l >= |types| { return Broken; }
      if ShapeOf(types[l]).None? {
        EmitNothing(Bld());
        return Output(None);
      }
      var t := FreshTemp();
      InsertInst(UseVar(t, l));
      r := Output(Some(Tmp(t)));
    }

    method ReadCondition(c: nat) returns (r: Output)
      requires Bld().Valid()
      modifies this
      ensures r == OutputOf(ConditionPiece(types, old(next), c))
      ensures Follows(old(Bld()), Bld(), ConditionPiece(types, old(next), c))
    {
      ghost var start := Bld();
      r := ReadLocal(c);
      if r.Broken? || r.value.None? { return Broken; }
      if ShapeOf(types[c]) != Some(I1) {
        var t := FreshTemp();
        InsertInst(Ne(t, r.value.value, Word(0)));
        EmitTwice(start, [UseVar(start.next, c)], t, [Ne(t, r.value.value, Word(0))], next);
        assert [UseVar(start.next, c)] + [Ne(t, r.value.value, Word(0))] == ConditionPiece(types, start.next, c).code;
        r := Output(Some(Tmp(t)));
      }
    }

    // ----- aggregates and constants -----

    method BuildFromLocals(count: nat, fields: seq<nat>) returns (r: Output)
      requires Bld().Valid() && count == |fields|
      modifies this
      ensures r == OutputOf(AggregateOfLocals(types, old(next), Undef(count), fields, 0))
      ensures Follows(old(Bld()), Bld(), AggregateOfLocals(types, old(next), Undef(count), fields, 0))
    {
      hide ShapeOf, Lowering.ReadLocal;
      ghost var start, whole := Bld(), AggregateOfLocals(types, next, Undef(count), fields, 0);
      ghost var code := [];
      var agg := Undef(count);
      EmitNothing(start);
      PrependNothing(whole);
      for i := 0 to |fields|
        invariant Bld() == start.Emit(code, next)
        invariant Prepend(code, AggregateOfLocals(types, next, agg, fields, i)) == whole
      {
        ghost var n0, p := next, Lowering.ReadLocal(types, next, fields[i]);
        var elem := ReadLocal(fields[i]);
        if elem.Broken? { return Broken; }
        EmitTwice(start, code, n0, p.code, p.next);
        if elem.value.Some? {
          var t := FreshTemp();
          var ins := Insert(t, agg, i, elem.value.value);
          InsertInst(ins);
          EmitThree(start, code, n0, p.code, p.next, ins, next);
          PrependTwice(code, p.code + [ins], AggregateOfLocals(types, next, Tmp(t), fields, i + 1));
          code := code + (p.code + [ins]);
          agg := Tmp(t);
        } else {
          PrependTwice(code, p.code, AggregateOfLocals(types, next, agg, fields, i + 1));
          code := code + p.code;
        }
      }
      assert code + [] == code;
      r := Output(Some(agg));
    }

    method MaterializeConstant(v: Value) returns (r: Output)
      requires Bld().Valid()
      modifies this
      ensures r == OutputOf(Constant(old(next), v))
      ensures Follows(old(Bld()), Bld(), Constant(old(next), v))
      decreases v, 0
    {
      EmitNothing(Bld());
      match v {
        case Num(n) => r := Output(Some(Imm(WordSlot(n))));
        case Boolean(b) => r := Output(Some(Imm(BoolSlot(b))));
        case VoidVal => r := Output(None);
        case Struct(ty, fs) =>
          if !AggregateType(ty, |fs|) { return Broken; }
          if ShapeOf(ty).None? { return Output(None); }
          r := BuildFromValues(fs);
        case _ => r := Broken;
      }
    }

    method BuildFromValues(fs: seq<Value>) returns (r: Output)
      requires Bld().Valid()
      modifies this
      ensures r == OutputOf(AggregateOfValues(old(next), Undef(|fs|), fs, 0))
      ensures Follows(old(Bld()), Bld(), AggregateOfValues(old(next), Undef(|fs|), fs, 0))
      decreases fs, 1
    {
      hide Constant;
      ghost var start, whole := Bld(), AggregateOfValues(next, Undef(|fs|), fs, 0);
      ghost var code := [];
      var agg := Undef(|fs|);
      EmitNothing(start);
      PrependNothing(whole);
      for i := 0 to |fs|
        invariant Bld() == start.Emit(code, next)
        invariant Prepend(code, AggregateOfValues(next, agg, fs, i)) == whole
      {
        ghost var n0, p := next, Constant(next, fs[i]);
        var elem := MaterializeConstant(fs[i]);
        if elem.Broken? { return Broken; }
        EmitTwice(start, code, n0, p.code, p.next);
        if elem.value.Some? {
          var t := FreshTemp();
          var ins := Insert(t, agg, i, elem.value.value);
          InsertInst(ins);
          EmitThree(start, code, n0, p.code, p.next, ins, next);
          PrependTwice(code, p.code + [ins], AggregateOfValues(next, Tmp(t), fs, i + 1));
          code := code + (p.code + [ins]);
          agg := Tmp(t);
        } else {
          PrependTwice(code, p.code, AggregateOfValues(next, agg, fs, i + 1));
          code := code + p.code;
        }
      }
      assert code + [] == code;
      r := Output(Some(agg));
    }

    method ReadField(obj: nat, i: nat) returns (r: Output)
      requires Bld().Valid()
      modifies this
      ensures r == OutputOf(Lowering.ReadField(types, old(next), obj, i))
      ensures Follows(old(Bld()), Bld(), Lowering.ReadField(types, old(next), obj, i))
    {
      EmitNothing(Bld());
      if obj >= |types| || !types[obj].TStruct? || i >= |types[obj].fields| { return Broken; }
      if ShapeOf(types[obj].fields[i].ty).None? { return Output(None); }
      ghost var start := Bld();
      r := ReadLocal(obj);
      if r.value.None? { return Broken; }
      var t := FreshTemp();
      InsertInst(Extract(t, r.value.value, i));
      EmitTwice(start, [UseVar(start.next, obj)], t, [Extract(t, r.value.value, i)], next);
      assert [UseVar(start.next, obj)] + [Extract(t, r.value.value, i)] == Lowering.ReadField(types, start.next, obj, i).code;
      r := Output(Some(Tmp(t)));
    }

    // ----- operations -----

    method ArgValues(args: seq<nat>) returns (ok: bool, os: seq<Operand>)
      requires Bld().Valid()
      modifies this
      ensures ok <==> forall i | 0 <= i < |args| :: HasVar(types, args[i])
      ensures ok ==> os == Tmps(old(next), |args|)
                     && Bld() == old(Bld()).Emit(ReadCode(old(next), args), old(next) + |args|)
    {
      hide ShapeOf, ReadCode, Tmps;
      ghost var start := Bld();
      os := [];
      NoReads(start);
      for k := 0 to |args|
        invariant Bld() == start.Emit(ReadCode(start.next, args[..k]), start.next + k)
        invariant os == Tmps(start.next, k)
        invariant forall i | 0 <= i < k :: HasVar(types, args[i])
      {
        assert args[..k + 1] == args[..k] + [args[k]];
        ReadCodeSnoc(start.next, args[..k], args[k]);
        var r := ReadLocal(args[k]);
        if r.Broken? || r.value.None? {
          assert !HasVar(types, args[k]);
          return false, os;
        }
        EmitTwice(start, ReadCode(start.next, args[..k]), start.next + k, [UseVar(start.next + k, args[k])], next);
        os := os + [r.value.value];
      }
      assert args[..|args|] == args;
      ok := true;
    }

    static lemma NoReads(start: Builder)
      requires start.Valid()
      ensures start.Emit(ReadCode(start.next, []), start.next) == start && Tmps(start.next, 0) == []
    {
      EmitNothing(start);
      assert ReadCode(start.next, []) == [];
    }

    /** Only the arguments that exist at run time are passed. */
    method CallArgs(args: seq<nat>) returns (ok: bool, os: seq<Operand>)
      requires Bld().Valid()
      modifies this
      ensures ok <==> forall i | 0 <= i < |args| :: args[i] < |types|
      ensures ok ==> var shaped := Shaped(types, args);
                     && os == Tmps(old(next), |shaped|)
                     && Bld() == old(Bld()).Emit(ReadCode(old(next), shaped), old(next) + |shaped|)
    {
      hide ShapeOf, ReadCode, Tmps, Shaped;
      ghost var start := Bld();
      os := [];
      NoReads(start);
      NoneShaped(types);
      for k := 0 to |args|
        invariant Bld() == start.Emit(ReadCode(start.next, Shaped(types, args[..k])), start.next + |Shaped(types, args[..k])|)
        invariant os == Tmps(start.next, |Shaped(types, args[..k])|)
        invariant forall i | 0 <= i < k :: args[i] < |types|
      {
        ghost var shaped := Shaped(types, args[..k]);
        assert args[..k + 1] == args[..k] + [args[k]];
        ShapedSnoc(types, args[..k], args[k]);
        ReadCodeSnoc(start.next, shaped, args[k]);
        var r := ReadLocal(args[k]);
        if r.Broken? { return false, os; }
        EmitNothing(start.Emit(ReadCode(start.next, shaped), start.next + |shaped|));
        if r.value.Some? {
          EmitTwice(start, ReadCode(start.next, shaped), start.next + |shaped|, [UseVar(start.next + |shaped|, args[k])], next);
          os := os + [r.value.value];
        } else {
          assert shaped + [] == shaped;
        }
      }
      assert args[..|args|] == args;
      ok := true;
    }

    method LowerLoad(addr: Operand, bytes: nat) returns (r: Output)
      requires Bld().Valid()
      modifies this
      ensures r == OutputOf(LoadPiece(old(next), addr, bytes))
      ensures Follows(old(Bld()), Bld(), LoadPiece(old(next), addr, bytes))
    {
      if bytes == 0 || bytes > 32 { return Broken; }
      ghost var start := Bld();
      var word := FreshTemp();
      InsertInst(Load(word, addr));
      if bytes == 32 { return Output(Some(Tmp(word))); }
      var shifted := I256Inst(Evm.Shr, Graph.Imm(WordSlot(256 - bytes * 8)), Tmp(word));
      EmitTwice(start, [Load(word, addr)], shifted, [Compute(shifted, Evm.Shr, [Word(256 - 8 * bytes), Tmp(word)], I256)], next);
      assert LoadPiece(start.next, addr, bytes).code
          == [Load(word, addr)] + [Compute(shifted, Evm.Shr, [Word(256 - 8 * bytes), Tmp(word)], I256)];
      r := Output(Some(Tmp(shifted)));
    }

    method I256Inst(f: Evm.FoldOp, a: Operand, b: Operand) returns (t: nat)
      requires Bld().Valid()
      modifies this
      ensures t == old(next) && Bld() == old(Bld()).Emit([Compute(t, f, [a, b], I256)], t + 1)
    {
      t := FreshTemp();
      InsertInst(Compute(t, f, [a, b], I256));
    }

    method LowerStore(addr: Operand, src: Operand, bytes: nat) returns (r: Output)
      requires Bld().Valid()
      modifies this
      ensures r == OutputOf(StorePiece(old(next), addr, src, bytes))
      ensures Follows(old(Bld()), Bld(), StorePiece(old(next), addr, src, bytes))
    {
      if bytes == 0 || bytes > 32 { return Broken; }
      if bytes == 32 {
        InsertInst(Store(addr, src));
        return Output(None);
      }
      if bytes == 1 {
        InsertInst(Store8(addr, src));
        return Output(None);
      }
      ghost var start := Bld();
      var bits, tailBits := Word(bytes * 8), Word(256 - bytes * 8);
      ghost var code := StorePiece(start.next, addr, src, bytes).code;
      var word := FreshTemp();
      InsertInst(Load(word, addr));
      assert code[..1] == [code[0]];
      var shiftedUp := I256Inst(Evm.Shl, bits, Tmp(word));
      EmitTwice(start, code[..1], start.next + 1, [code[1]], next);
      assert code[..1] + [code[1]] == code[..2];
      var cleared := I256Inst(Evm.Shr, bits, Tmp(shiftedUp));
      EmitTwice(start, code[..2], start.next + 2, [code[2]], next);
      assert code[..2] + [code[2]] == code[..3];
      var value := I256Inst(Evm.Shl, tailBits, src);
      EmitTwice(start, code[..3], start.next + 3, [code[3]], next);
      assert code[..3] + [code[3]] == code[..4];
      var updated := I256Inst(Evm.Or, Tmp(cleared), Tmp(value));
      EmitTwice(start, code[..4], start.next + 4, [code[4]], next);
      assert code[..4] + [code[4]] == code[..5];
      InsertInst(Store(addr, Tmp(updated)));
      EmitTwice(start, code[..5], start.next + 5, [code[5]], next);
      assert code[..5] + [code[5]] == code;
      r := Output(None);
    }

    method LowerBuiltin(op: Op, args: seq<nat>, shape: Option<Shape>) returns (r: Output)
      requires Bld().Valid()
      modifies this
      ensures r == OutputOf(Operation(types, old(next), op, args, shape))
      ensures Follows(old(Bld()), Bld(), Operation(types, old(next), op, args, shape))
    {
      hide HasVar, ReadCode, Tmps;
      if (shape.Some? && shape.value.Aggregate?) || |args| != OpArity(op) { return Broken; }
      ghost var start := Bld();
      var ok, os := ArgValues(args);
      if !ok { return Broken; }
      TmpsHaveLength(start.next, |args|);
      r := EmitOp(op, os, shape);
      FollowsPrepend(start, ReadCode(start.next, args), start.next + |args|, Bld(), OpPiece(op, os, start.next + |args|, shape));
    }

    static lemma TmpsHaveLength(next: nat, n: nat)
      ensures |Tmps(next, n)| == n
    {
    }

    method EmitOp(op: Op, os: seq<Operand>, shape: Option<Shape>) returns (r: Output)
      requires Bld().Valid() && |os| == OpArity(op)
      modifies this
      ensures r == OutputOf(OpPiece(op, os, old(next), shape))
      ensures Follows(old(Bld()), Bld(), OpPiece(op, os, old(next), shape))
    {
      hide LoadPiece, StorePiece;
      match op {
        case Foldable(f) =>
          if shape.None? { return Broken; }
          var t := FreshTemp();
          InsertInst(Compute(t, f, os, shape.value));
          r := Output(Some(Tmp(t)));
        case RuntimeOnly(id, _, result) =>
          if result == TNever {
            InsertInst(HaltOp(id, os));
            r := EndOfBlock;
          } else if result == TVoid {
            InsertInst(External(None, id, os));
            r := Output(None);
          } else {
            if shape.None? { return Broken; }
            var t := FreshTemp();
            InsertInst(External(Some((t, shape.value)), id, os));
            r := Output(Some(Tmp(t)));
          }
        case MLoad(bytes) =>
          if shape != Some(I256) { return Broken; }
          r := LowerLoad(os[0], bytes);
        case MStore(bytes) =>
          r := LowerStore(os[0], os[1], bytes);
      }
    }

    method LowerCall(callee: nat, args: seq<nat>, ret: Ty, shape: Option<Shape>) returns (r: Output)
      requires Bld().Valid()
      modifies this
      ensures r == OutputOf(CallPiece(types, old(next), callee, args, ret, shape))
      ensures Follows(old(Bld()), Bld(), CallPiece(types, old(next), callee, args, ret, shape))
    {
      hide ReadCode, Tmps, Shaped, ShapeOf;
      ghost var start, shaped := Bld(), Shaped(types, args);
      var ok, os := CallArgs(args);
      if !ok || shape.Some? != ShapeOf(ret).Some? { return Broken; }
      ghost var code, n := ReadCode(start.next, shaped), start.next + |shaped|;
      if ret == TNever {
        InsertInst(CallFn(None, callee, os, ret));
        InsertInst(Invalid);
        EmitTwice(start.Emit(code, n), [CallFn(None, callee, os, ret)], n, [Invalid], n);
        assert [CallFn(None, callee, os, ret)] + [Invalid] == [CallFn(None, callee, os, ret), Invalid];
        EmitTwice(start, code, n, [CallFn(None, callee, os, ret), Invalid], n);
        r := EndOfBlock;
      } else if shape.None? {
        InsertInst(CallFn(None, callee, os, ret));
        EmitTwice(start, code, n, [CallFn(None, callee, os, ret)], n);
        r := Output(None);
      } else {
        var t := FreshTemp();
        InsertInst(CallFn(Some(t), callee, os, ret));
        EmitTwice(start, code, n, [CallFn(Some(t), callee, os, ret)], next);
        r := Output(Some(Tmp(t)));
      }
    }

    // ----- instructions -----

    method LowerValue(e: Expr, shape: Option<Shape>) returns (r: Output)
      requires Bld().Valid()
      modifies this
      ensures r == OutputOf(ValuePiece(types, old(next), e, shape))
      ensures Follows(old(Bld()), Bld(), ValuePiece(types, old(next), e, shape))
    {
      hide ShapeOf, Operation, CallPiece, AggregateOfLocals, Constant, Lowering.ReadLocal, Lowering.ReadField;
      EmitNothing(Bld());
      match e {
        case Const(v) => r := MaterializeConstant(v);
        case LocalRef(l) => r := ReadLocal(l);
        case Builtin(op, args) => r := LowerBuiltin(op, args, shape);
        case Call(callee, args, ret) => r := LowerCall(callee, args, ret, shape);
        case CompoundLit(ty, fields) =>
          if !AggregateType(ty, |fields|) { return Broken; }
          if ShapeOf(ty).None? { return Output(None); }
          r := BuildFromLocals(|fields|, fields);
        case FieldAccess(obj, i) => r := ReadField(obj, i);
      }
    }

    method LowerSet(t: nat, e: Expr) returns (exit: Exit)
      requires Bld().Valid()
      modifies this
      ensures exit == Placed(old(Bld()), SetPiece(types, old(next), t, e)).exit
      ensures exit != Panicked ==> Bld() == Placed(old(Bld()), SetPiece(types, old(next), t, e)).bld
    {
      hide ShapeOf, ValuePiece;
      if t >= |types| { return Panicked; }
      ghost var start, p := Bld(), ValuePiece(types, next, e, ShapeOf(types[t]));
      var r := LowerValue(e, ShapeOf(types[t]));
      if r.Broken? { return Panicked; }
      if r.EndOfBlock? { return Terminated; }
      if r.value.Some? != ShapeOf(types[t]).Some? { return Panicked; }
      if r.value.Some? {
        InsertInst(DefVar(t, r.value.value));
        EmitTwice(start, p.code, p.next, [DefVar(t, r.value.value)], next);
      }
      exit := Loose;
    }

    method LowerReturn(l: nat) returns (exit: Exit)
      requires Bld().Valid()
      modifies this
      ensures exit == Placed(old(Bld()), ReturnPiece(types, old(next), l)).exit
      ensures exit != Panicked ==> Bld() == Placed(old(Bld()), ReturnPiece(types, old(next), l)).bld
    {
      hide ShapeOf;
      ghost var start, p := Bld(), Lowering.ReadLocal(types, next, l);
      var r := ReadLocal(l);
      if r.Broken? { return Panicked; }
      InsertInst(Ret(r.value));
      EmitTwice(start, p.code, p.next, [Ret(r.value)], next);
      exit := Terminated;
    }

    method LowerBlock(b: seq<Instr>) returns (exit: Exit)
      requires Bld().Valid()
      modifies this
      ensures exit == Lowering.LowerBlock(types, old(Bld()), b).exit
      ensures exit != Panicked ==> Bld() == Lowering.LowerBlock(types, old(Bld()), b).bld
      decreases b, 1
    {
      hide LowerInstr, Extends;
      ghost var whole := Lowering.LowerBlock(types, Bld(), b);
      for k := 0 to |b|
        invariant Bld().Valid()
        invariant Lowering.LowerBlock(types, Bld(), b[k..]) == whole
      {
        assert b[k..] != [] && b[k..][0] == b[k] && b[k..][1..] == b[k + 1..];
        exit := LowerOne(b[k]);
        if !exit.Loose? { return exit; }
      }
      exit := Loose;
    }

    method LowerOne(i: Instr) returns (exit: Exit)
      requires Bld().Valid()
      modifies this
      ensures exit == LowerInstr(types, old(Bld()), i).exit
      ensures exit != Panicked ==> Bld() == LowerInstr(types, old(Bld()), i).bld && Bld().Valid()
      decreases i, 1
    {
      hide Placed, Lowering.LowerBlock, Join, ForkIf, ForkWhile, EnterLoop, CloseLoop;
      match i {
        case Set(t, e) => exit := LowerSet(t, e);
        case Return(l) => exit := LowerReturn(l);
        case If(c, thenBlock, elseBlock) => exit := LowerIf(i);
        case While(conditionBlock, c, body) => exit := LowerWhile(i);
      }
    }

    method LowerIf(i: Instr) returns (exit: Exit)
      requires Bld().Valid() && i.If?
      modifies this
      ensures exit == LowerInstr(types, old(Bld()), i).exit
      ensures exit != Panicked ==> Bld() == LowerInstr(types, old(Bld()), i).bld
      decreases i, 0
    {
      hide Lowering.LowerBlock, ConditionPiece;
      ghost var start := Bld();
      var else_ := AppendBlock();
      var then_ := AppendBlock();
      ghost var before, p := Bld(), ConditionPiece(types, next, i.condition);
      var cond := ReadCondition(i.condition);
      if cond.Broken? { return Panicked; }
      InsertInst(Br(cond.value.value, then_, else_));
      EmitTwice(before, p.code, p.next, [Br(cond.value.value, then_, else_)], next);
      assert Bld() == ForkIf(types, start, i.condition).bld;

      SwitchTo(then_);
      var thenExit := LowerBlock(i.thenBlock);
      if thenExit.Panicked? { return Panicked; }
      ghost var thenEnd := Lowered(Bld(), thenExit);
      var thenCur := cur;

      SwitchTo(else_);
      var elseExit := LowerBlock(i.elseBlock);
      if elseExit.Panicked? { return Panicked; }
      ghost var elseEnd := Lowered(Bld(), elseExit);
      var elseCur := cur;

      exit := JoinArms(start, thenEnd, elseEnd, thenExit, thenCur, elseExit, elseCur);
    }

    method JoinArms(ghost start: Builder, ghost thenEnd: Lowered, ghost elseEnd: Lowered,
                    thenExit: Exit, thenCur: nat, elseExit: Exit, elseCur: nat) returns (exit: Exit)
      requires start.Valid() && thenEnd.bld.Valid() && elseEnd.bld.Valid() && elseEnd == Lowered(Bld(), elseExit)
      requires thenExit == thenEnd.exit && thenCur == thenEnd.bld.cur && elseCur == elseEnd.bld.cur
      requires |start.blocks| <= |thenEnd.bld.blocks| <= |elseEnd.bld.blocks|
      requires |start.blocks| <= thenEnd.bld.cur && |start.blocks| <= elseEnd.bld.cur
      requires start.blocks[start.cur] <= elseEnd.bld.blocks[start.cur]
      requires forall i | 0 <= i < |start.blocks| && i != start.cur :: elseEnd.bld.blocks[i] == start.blocks[i]
      modifies this
      ensures Lowered(Bld(), exit) == Join(start, thenEnd, elseEnd)
    {
      if !thenExit.Loose? && !elseExit.Loose? { return Terminated; }
      var merge := AppendBlock();
      if thenExit.Loose? {
        SwitchTo(thenCur);
        InsertInst(Jump(merge));
      }
      if elseExit.Loose? {
        SwitchTo(elseCur);
        InsertInst(Jump(merge));
      }
      SwitchTo(merge);
      exit := Loose;
    }

    method LowerWhile(i: Instr) returns (exit: Exit)
      requires Bld().Valid() && i.While?
      modifies this
      ensures exit == LowerInstr(types, old(Bld()), i).exit
      ensures exit != Panicked ==> Bld() == LowerInstr(types, old(Bld()), i).bld
      decreases i, 0
    {
      hide Lowering.LowerBlock, ConditionPiece;
      ghost var start := Bld();
      var head := AppendBlock();
      InsertInst(Jump(head));
      SwitchTo(head);
      assert Bld() == EnterLoop(start);
      exit := LowerBlock(i.conditionBlock);
      if !exit.Loose? { return exit; }

      ghost var condEnd := Bld();
      var body := AppendBlock();
      var continue_ := AppendBlock();
      ghost var before, p := Bld(), ConditionPiece(types, next, i.condition);
      var cond := ReadCondition(i.condition);
      if cond.Broken? { return Panicked; }
      InsertInst(Br(cond.value.value, body, continue_));
      EmitTwice(before, p.code, p.next, [Br(cond.value.value, body, continue_)], next);
      assert Bld() == ForkWhile(types, condEnd, i.condition).bld;

      SwitchTo(body);
      var bodyExit := LowerBlock(i.body);
      if bodyExit.Panicked? { return Panicked; }
      if bodyExit.Loose? { InsertInst(Jump(head)); }
      SwitchTo(continue_);
      exit := Loose;
    }

    /** The whole function; `next` starts behind the arguments. */
    method Lower(n: nat, body: seq<Instr>) returns (exit: Exit)
      requires Bld() == Builder([[]], 0, ArgCount(types, 0, n))
      modifies this
      ensures exit == LowerFunction(types, n, body).exit
      ensures exit != Panicked ==> Bld() == LowerFunction(types, n, body).bld
    {
      hide HasVar, Lowering.LowerBlock;
      var arg := 0;
      for param := 0 to n
        invariant |blocks| == 1 && cur == 0 && next == ArgCount(types, 0, n)
        invariant blocks[0] + Prologue(types, param, n, arg) == Prologue(types, 0, n, 0)
      {
        if HasVar(types, param) {
          assert blocks[0] + ([DefVar(param, Tmp(arg))] + Prologue(types, param + 1, n, arg + 1))
              == blocks[0] + [DefVar(param, Tmp(arg))] + Prologue(types, param + 1, n, arg + 1);
          InsertInst(DefVar(param, Tmp(arg)));
          arg := arg + 1;
        }
      }
      assert blocks[0] + [] == blocks[0];
      assert Bld() == Entry(types, n);
      exit := LowerBlock(body);
      if exit.Loose? {
        InsertInst(Invalid);
        exit := Terminated;
      }
    }
  }
}
