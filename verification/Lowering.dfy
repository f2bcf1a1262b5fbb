/** Lowering structured MIR to basic blocks through a builder that has a current block. */
module Lowering {
  import opened Values
  import opened World
  import opened Mir
  import opened Graph
  import Evm

  /** `Panicked` stands for the assertions, `expect`s and `panic!`s of the lowering and its builder. */
  datatype Exit = Loose | Terminated | Panicked

  /** Straight-line code for the current block: it yields a value, yields nothing, or ends the block. */
  datatype Piece =
    | Panic
    | Yields(code: seq<Inst>, out: Option<Operand>, next: nat)
    | Ends(code: seq<Inst>, next: nat)

  /** The blocks so far, the current block, and the next unused temporary. */
  datatype Builder = Builder(blocks: seq<Block>, cur: nat, next: nat) {
    predicate Valid() { cur < |blocks| }

    function Append(): Builder { this.(blocks := blocks + [[]]) }

    function Switch(b: nat): Builder { this.(cur := b) }

    function Emit(code: seq<Inst>, n: nat): Builder
      requires Valid()
    {
      Builder(blocks[cur := blocks[cur] + code], cur, n)
    }
  }

  datatype Lowered = Lowered(bld: Builder, exit: Exit)

  /** Nothing but the current block of `a` and new blocks was touched, and blocks only grew. */
  ghost predicate Extends(a: Builder, b: Builder) {
    && a.Valid() && b.Valid()
    && |a.blocks| <= |b.blocks|
    && (b.cur == a.cur || b.cur >= |a.blocks|)
    && a.blocks[a.cur] <= b.blocks[a.cur]
    && forall i | 0 <= i < |a.blocks| && i != a.cur :: b.blocks[i] == a.blocks[i]
  }

  predicate HasVar(types: seq<Ty>, l: nat) {
    l < |types| && ShapeOf(types[l]).Some?
  }

  // ----- values -----

  function ReadLocal(types: seq<Ty>, next: nat, l: nat): (p: Piece)
    ensures !p.Ends?
  {
    if l >= |types| then Panic
    else if ShapeOf(types[l]).None? then Yields([], None, next)
    else Yields([UseVar(next, l)], Some(Tmp(next)), next + 1)
  }

  function ReadCode(next: nat, locals: seq<nat>): seq<Inst> {
    seq(|locals|, i requires 0 <= i < |locals| => UseVar(next + i, locals[i]))
  }

  function Tmps(next: nat, n: nat): seq<Operand> {
    seq(n, i requires 0 <= i < n => Tmp(next + i))
  }

  /** The locals that have a value at run time. */
  function Shaped(types: seq<Ty>, locals: seq<nat>): seq<nat> {
    if locals == [] then []
    else (if HasVar(types, locals[0]) then [locals[0]] else []) + Shaped(types, locals[1..])
  }

  function Prepend(code: seq<Inst>, p: Piece): Piece {
    match p
    case Panic => Panic
    case Yields(c, o, n) => Yields(code + c, o, n)
    case Ends(c, n) => Ends(code + c, n)
  }

  /** The rest of an aggregate, from field i on, its fields read from locals. */
  function AggregateOfLocals(types: seq<Ty>, next: nat, agg: Operand, fields: seq<nat>, i: nat): (p: Piece)
    ensures !p.Ends? && (p.Yields? ==> p.out.Some?)
    decreases |fields| - i
  {
    if i >= |fields| then Yields([], Some(agg), next)
    else
      match ReadLocal(types, next, fields[i])
      case Yields(code, None, n) => Prepend(code, AggregateOfLocals(types, n, agg, fields, i + 1))
      case Yields(code, Some(o), n) =>
        Prepend(code + [Insert(n, agg, i, o)], AggregateOfLocals(types, n + 1, Tmp(n), fields, i + 1))
      case _ => Panic
  }

  predicate AggregateType(ty: Ty, count: nat) {
    ty.TStruct? && |ty.fields| == count
  }

  function Constant(next: nat, v: Value): (p: Piece)
    ensures !p.Ends?
    decreases v, 0
  {
    match v
    case Num(n) => Yields([], Some(Imm(WordSlot(n))), next)
    case Boolean(b) => Yields([], Some(Imm(BoolSlot(b))), next)
    case VoidVal => Yields([], None, next)
    case Struct(ty, fs) =>
      if !AggregateType(ty, |fs|) then Panic
      else if ShapeOf(ty).None? then Yields([], None, next)
      else AggregateOfValues(next, Undef(|fs|), fs, 0)
    case _ => Panic
  }

  function AggregateOfValues(next: nat, agg: Operand, fs: seq<Value>, i: nat): (p: Piece)
    ensures !p.Ends? && (p.Yields? ==> p.out.Some?)
    decreases fs, |fs| - i
  {
    if i >= |fs| then Yields([], Some(agg), next)
    else
      match Constant(next, fs[i])
      case Yields(code, None, n) => Prepend(code, AggregateOfValues(n, agg, fs, i + 1))
      case Yields(code, Some(o), n) =>
        Prepend(code + [Insert(n, agg, i, o)], AggregateOfValues(n + 1, Tmp(n), fs, i + 1))
      case _ => Panic
  }

  function ReadField(types: seq<Ty>, next: nat, obj: nat, i: nat): Piece {
    if obj >= |types| || !types[obj].TStruct? || i >= |types[obj].fields| then Panic
    else if ShapeOf(types[obj].fields[i].ty).None? then Yields([], None, next)
    else if !HasVar(types, obj) then Panic
    else Yields([UseVar(next, obj), Extract(next + 1, Tmp(next), i)], Some(Tmp(next + 1)), next + 2)
  }

  // ----- operations -----

  function Word(n: nat): Operand { Imm(WordSlot(n)) }

  /** An N-byte load: a whole word, shifted down unless N is 32. */
  function LoadPiece(next: nat, addr: Operand, bytes: nat): Piece {
    if bytes == 0 || bytes > 32 then Panic
    else if bytes == 32 then Yields([Load(next, addr)], Some(Tmp(next)), next + 1)
    else
      Yields([Load(next, addr), Compute(next + 1, Evm.Shr, [Word(256 - 8 * bytes), Tmp(next)], I256)],
             Some(Tmp(next + 1)), next + 2)
  }

  /** An N-byte store: the bytes after it are loaded, joined with the value and stored back as a whole word. */
  function StorePiece(next: nat, addr: Operand, src: Operand, bytes: nat): Piece {
    if bytes == 0 || bytes > 32 then Panic
    else if bytes == 32 then Yields([Store(addr, src)], None, next)
    else if bytes == 1 then Yields([Store8(addr, src)], None, next)
    else
      var bits, tailBits := Word(8 * bytes), Word(256 - 8 * bytes);
      Yields([Load(next, addr),
              Compute(next + 1, Evm.Shl, [bits, Tmp(next)], I256),
              Compute(next + 2, Evm.Shr, [bits, Tmp(next + 1)], I256),
              Compute(next + 3, Evm.Shl, [tailBits, src], I256),
              Compute(next + 4, Evm.Or, [Tmp(next + 2), Tmp(next + 3)], I256),
              Store(addr, Tmp(next + 4))], None, next + 5)
  }

  /** The instructions of an operation whose operands are already in temporaries. */
  function OpPiece(op: Op, os: seq<Operand>, n: nat, shape: Option<Shape>): Piece
    requires |os| == OpArity(op)
  {
    match op
    case Foldable(f) => if shape.None? then Panic else Yields([Compute(n, f, os, shape.value)], Some(Tmp(n)), n + 1)
    case RuntimeOnly(id, _, result) =>
      if result == TNever then Ends([HaltOp(id, os)], n)
      else if result == TVoid then Yields([External(None, id, os)], None, n)
      else if shape.None? then Panic
      else Yields([External(Some((n, shape.value)), id, os)], Some(Tmp(n)), n + 1)
    // the builder takes no value of another type for the target variable
    case MLoad(bytes) => if shape != Some(I256) then Panic else LoadPiece(n, os[0], bytes)
    case MStore(bytes) => StorePiece(n, os[0], os[1], bytes)
  }

  function Operation(types: seq<Ty>, next: nat, op: Op, args: seq<nat>, shape: Option<Shape>): Piece {
    if (shape.Some? && shape.value.Aggregate?) || |args| != OpArity(op) then Panic
    else if !(forall i | 0 <= i < |args| :: HasVar(types, args[i])) then Panic
    else Prepend(ReadCode(next, args), OpPiece(op, Tmps(next, |args|), next + |args|, shape))
  }

  /** A call passes the arguments that exist at run time; code after a callee of type never is cut off. */
  function CallPiece(types: seq<Ty>, next: nat, callee: nat, args: seq<nat>, ret: Ty, shape: Option<Shape>): Piece {
    if (exists i | 0 <= i < |args| :: args[i] >= |types|) || shape.Some? != ShapeOf(ret).Some? then Panic
    else
      var shaped := Shaped(types, args);
      var n := next + |shaped|;
      var code, os := ReadCode(next, shaped), Tmps(next, |shaped|);
      if ret == TNever then Ends(code + [CallFn(None, callee, os, ret), Invalid], n)
      else if shape.None? then Yields(code + [CallFn(None, callee, os, ret)], None, n)
      else Yields(code + [CallFn(Some(n), callee, os, ret)], Some(Tmp(n)), n + 1)
  }

  function ValuePiece(types: seq<Ty>, next: nat, e: Expr, shape: Option<Shape>): Piece {
    match e
    case LocalRef(l) => ReadLocal(types, next, l)
    case Const(v) => Constant(next, v)
    case Builtin(op, args) => Operation(types, next, op, args, shape)
    case FieldAccess(obj, i) => ReadField(types, next, obj, i)
    case CompoundLit(ty, fields) =>
      if !AggregateType(ty, |fields|) then Panic
      else if ShapeOf(ty).None? then Yields([], None, next)
      else AggregateOfLocals(types, next, Undef(|fields|), fields, 0)
    case Call(callee, args, ret) => CallPiece(types, next, callee, args, ret, shape)
  }

  /** Zero-sized locals have no variable, and get no value. */
  function WriteLocal(types: seq<Ty>, t: nat, p: Piece): Piece
    requires t < |types|
  {
    match p
    case Yields(code, out, n) =>
      if out.Some? != ShapeOf(types[t]).Some? then Panic
      else Yields(if out.Some? then code + [DefVar(t, out.value)] else code, None, n)
    case _ => p
  }

  function SetPiece(types: seq<Ty>, next: nat, t: nat, e: Expr): Piece {
    if t >= |types| then Panic
    else WriteLocal(types, t, ValuePiece(types, next, e, ShapeOf(types[t])))
  }

  function ReturnPiece(types: seq<Ty>, next: nat, l: nat): Piece {
    match ReadLocal(types, next, l)
    case Yields(code, out, n) => Ends(code + [Ret(out)], n)
    case _ => Panic
  }

  /** A condition that is not a boolean is compared with zero. */
  function ConditionPiece(types: seq<Ty>, next: nat, c: nat): (p: Piece)
    ensures p.Panic? || (p.Yields? && p.out.Some?)
  {
    if !HasVar(types, c) then Panic
    else if ShapeOf(types[c]) == Some(I1) then Yields([UseVar(next, c)], Some(Tmp(next)), next + 1)
    else Yields([UseVar(next, c), Ne(next + 1, Tmp(next), Word(0))], Some(Tmp(next + 1)), next + 2)
  }

  // ----- control flow -----

  function Placed(bld: Builder, p: Piece): (r: Lowered)
    requires bld.Valid()
    ensures Extends(bld, r.bld)
  {
    match p
    case Panic => Lowered(bld, Panicked)
    case Yields(code, _, n) => Lowered(bld.Emit(code, n), Loose)
    case Ends(code, n) => Lowered(bld.Emit(code, n), Terminated)
  }

  function LowerBlock(types: seq<Ty>, bld: Builder, b: seq<Instr>): (r: Lowered)
    requires bld.Valid()
    ensures Extends(bld, r.bld)
    decreases b, 1
  {
    if b == [] then Lowered(bld, Loose)
    else
      var r := LowerInstr(types, bld, b[0]);
      if r.exit.Loose? then LowerBlock(types, r.bld, b[1..]) else r
  }

  function LowerInstr(types: seq<Ty>, bld: Builder, i: Instr): (r: Lowered)
    requires bld.Valid()
    ensures Extends(bld, r.bld)
    decreases i, 0
  {
    match i
    case Set(t, e) => Placed(bld, SetPiece(types, bld.next, t, e))
    case Return(l) => Placed(bld, ReturnPiece(types, bld.next, l))
    case If(c, thenBlock, elseBlock) =>
      var fork := ForkIf(types, bld, c);
      if fork.exit.Panicked? then Lowered(bld, Panicked)
      else
        var else_ := |bld.blocks|;
        var thenEnd := LowerBlock(types, fork.bld.Switch(else_ + 1), thenBlock);
        var elseEnd := LowerBlock(types, thenEnd.bld.Switch(else_), elseBlock);
        if thenEnd.exit.Panicked? || elseEnd.exit.Panicked? then Lowered(bld, Panicked)
        else Join(bld, thenEnd, elseEnd)
    case While(conditionBlock, c, body) =>
      var head := |bld.blocks|;
      var condEnd := LowerBlock(types, EnterLoop(bld), conditionBlock);
      if !condEnd.exit.Loose? then (if condEnd.exit.Panicked? then Lowered(bld, Panicked) else condEnd)
      else
        var fork := ForkWhile(types, condEnd.bld, c);
        if fork.exit.Panicked? then Lowered(bld, Panicked)
        else
          var bodyEnd := LowerBlock(types, fork.bld.Switch(|condEnd.bld.blocks|), body);
          if bodyEnd.exit.Panicked? then Lowered(bld, Panicked)
          else Lowered(CloseLoop(bodyEnd, head).Switch(|condEnd.bld.blocks| + 1), Loose)
  }

  /** The current block branches to two new blocks, the else block appended first. */
  function ForkIf(types: seq<Ty>, bld: Builder, c: nat): (r: Lowered)
    requires bld.Valid()
    ensures Extends(bld, r.bld) && r.bld.cur == bld.cur
    ensures !r.exit.Panicked? ==> |r.bld.blocks| == |bld.blocks| + 2
                                  && r.bld.blocks[|bld.blocks|] == [] && r.bld.blocks[|bld.blocks| + 1] == []
  {
    var b := bld.Append().Append();
    match ConditionPiece(types, b.next, c)
    case Yields(code, Some(o), n) =>
      Lowered(b.Emit(code + [Br(o, |bld.blocks| + 1, |bld.blocks|)], n), Terminated)
    case _ => Lowered(bld, Panicked)
  }

  /** The end of the condition block branches to two new blocks, the body appended first. */
  function ForkWhile(types: seq<Ty>, bld: Builder, c: nat): (r: Lowered)
    requires bld.Valid()
    ensures Extends(bld, r.bld) && r.bld.cur == bld.cur
    ensures !r.exit.Panicked? ==> |r.bld.blocks| == |bld.blocks| + 2
                                  && r.bld.blocks[|bld.blocks|] == [] && r.bld.blocks[|bld.blocks| + 1] == []
  {
    var b := bld.Append().Append();
    match ConditionPiece(types, b.next, c)
    case Yields(code, Some(o), n) =>
      Lowered(b.Emit(code + [Br(o, |bld.blocks|, |bld.blocks| + 1)], n), Terminated)
    case _ => Lowered(bld, Panicked)
  }

  /** Each arm that is still open jumps to a new block; without such an arm there is none. */
  function Join(bld: Builder, thenEnd: Lowered, elseEnd: Lowered): (r: Lowered)
    requires bld.Valid() && thenEnd.bld.Valid() && elseEnd.bld.Valid()
    requires |bld.blocks| <= |thenEnd.bld.blocks| <= |elseEnd.bld.blocks|
    requires |bld.blocks| <= thenEnd.bld.cur && |bld.blocks| <= elseEnd.bld.cur
    requires bld.blocks[bld.cur] <= elseEnd.bld.blocks[bld.cur]
    requires forall i | 0 <= i < |bld.blocks| && i != bld.cur :: elseEnd.bld.blocks[i] == bld.blocks[i]
    ensures Extends(bld, r.bld)
  {
    if !thenEnd.exit.Loose? && !elseEnd.exit.Loose? then Lowered(elseEnd.bld, Terminated)
    else
      var merge := |elseEnd.bld.blocks|;
      var b0 := elseEnd.bld.Append();
      var b1 := if thenEnd.exit.Loose? then b0.Switch(thenEnd.bld.cur).Emit([Jump(merge)], b0.next) else b0;
      var b2 := if elseEnd.exit.Loose? then b1.Switch(elseEnd.bld.cur).Emit([Jump(merge)], b1.next) else b1;
      Lowered(b2.Switch(merge), Loose)
  }

  /** The current block jumps to a new block, which becomes current. */
  function EnterLoop(bld: Builder): (r: Builder)
    requires bld.Valid()
    ensures Extends(bld, r) && r.cur == |bld.blocks| && |r.blocks| == |bld.blocks| + 1 && r.blocks[r.cur] == []
  {
    bld.Append().Emit([Jump(|bld.blocks|)], bld.next).Switch(|bld.blocks|)
  }

  /** The end of the body, if it is reached, jumps back to the condition. */
  function CloseLoop(bodyEnd: Lowered, head: nat): (r: Builder)
    requires bodyEnd.bld.Valid()
    ensures Extends(bodyEnd.bld, r) && |r.blocks| == |bodyEnd.bld.blocks|
  {
    if bodyEnd.exit.Loose? then bodyEnd.bld.Emit([Jump(head)], bodyEnd.bld.next) else bodyEnd.bld
  }

  // ----- functions -----

  /** The locals from 0 to n are the parameters; those that exist at run time arrive in the first temporaries, in order. */
  function Prologue(types: seq<Ty>, param: nat, n: nat, arg: nat): seq<Inst>
    decreases n - param
  {
    if param >= n then []
    else if HasVar(types, param) then [DefVar(param, Tmp(arg))] + Prologue(types, param + 1, n, arg + 1)
    else Prologue(types, param + 1, n, arg)
  }

  function ArgCount(types: seq<Ty>, param: nat, n: nat): nat
    decreases n - param
  {
    if param >= n then 0 else (if HasVar(types, param) then 1 else 0) + ArgCount(types, param + 1, n)
  }

  function Entry(types: seq<Ty>, n: nat): (r: Builder)
    ensures r.Valid()
  {
    Builder([Prologue(types, 0, n, 0)], 0, ArgCount(types, 0, n))
  }

  /** A body that can fall off its end gets a trap there. */
  function LowerFunction(types: seq<Ty>, n: nat, body: seq<Instr>): (r: Lowered)
    ensures r.bld.Valid()
  {
    var r := LowerBlock(types, Entry(types, n), body);
    if r.exit.Loose? then Lowered(r.bld.Emit([Invalid], r.bld.next), Terminated) else r
  }
}
