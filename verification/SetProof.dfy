/** Operations, calls and assignments: the code for one `Set` runs as the instruction does. */
module SetProof {
  import opened Values
  import opened Memory
  import opened World
  import opened Mir
  import opened Graph
  import opened Lowering
  import opened PieceProof
  import Evm
  import MemoryOps

  // ----- operations -----

  lemma {:induction false} AtShapeIs(ty: Ty, word: nat)
    requires FromWord(ty, word).Some?
    ensures ShapeOf(ty).Some? ==> AtShape(ShapeOf(ty).value, word) == SlotOf(FromWord(ty, word).value)
    ensures ShapeOf(ty).None? ==> SlotOf(FromWord(ty, word).value).None?
  {
  }

  /** The first instruction runs through. */
  lemma {:induction false} Cons(env: Env, code: seq<Inst>, rest: seq<Inst>, temps: Temps, vars: Vars, w: World, t1: Temps, w1: World)
    requires |code| > 0 && code[1..] == rest && Exec(env, code[0], temps, vars, w) == Next(t1, vars, w1)
    ensures RunCode(env, code, temps, vars, w) == RunCode(env, rest, t1, vars, w1)
  {
    hide Exec;
  }

  predicate IsWord(temps: Temps, o: Operand, x: nat) {
    Get(temps, o).Some? && WordOf(Get(temps, o).value) == Some(x)
  }

  lemma ComputeRuns(env: Env, d: nat, f: Evm.FoldOp, a: Operand, b: Operand, x: nat, y: nat,
                    temps: Temps, vars: Vars, w: World)
    requires Evm.Arity(f) == 2 && x < WORD && y < WORD && IsWord(temps, a, x) && IsWord(temps, b, y)
    ensures Evm.Meaning(f, [x, y]) < WORD
    ensures Exec(env, Compute(d, f, [a, b], I256), temps, vars, w)
            == Next(temps[d := WordSlot(Evm.Meaning(f, [x, y]))], vars, w)
  {
    hide Evm.Meaning, Evm.Fold, GetWords;
    Evm.FoldMeansOp(f, [x, y]);
    SmallWord(Evm.Meaning(f, [x, y]));
    GetWordsTwo(temps, a, b, x, y);
  }

  lemma SmallWord(n: nat)
    requires n < WORD
    ensures n % WORD == n
  {
  }

  lemma {:induction false} LoadRuns(env: Env, d: nat, addr: Operand, x: nat, temps: Temps, vars: Vars, w: World)
    requires IsWord(temps, addr, x)
    ensures Exec(env, Load(d, addr), temps, vars, w) == Next(temps[d := WordSlot(ReadBE(w.mem, x, 32))], vars, w)
  {
    hide ReadBE, GetWords;
    GetWordsOne(temps, addr, x);
  }

  lemma StoreRuns(env: Env, addr: Operand, src: Operand, x: nat, y: nat, temps: Temps, vars: Vars, w: World)
    requires IsWord(temps, addr, x) && IsWord(temps, src, y)
    ensures Exec(env, Store(addr, src), temps, vars, w) == Next(temps, vars, w.(mem := WriteBE(w.mem, x, 32, y)))
    ensures Exec(env, Store8(addr, src), temps, vars, w) == Next(temps, vars, w.(mem := WriteBE(w.mem, x, 1, y % 256)))
  {
    hide WriteBE, GetWords;
    GetWordsTwo(temps, addr, src, x, y);
  }

  lemma TwoSlots(temps: Temps, a: Operand, b: Operand, x: Slot, y: Slot)
    requires Get(temps, a) == Some(x) && Get(temps, b) == Some(y)
    ensures GetAll(temps, [a, b]) == Some([x, y])
  {
    assert [a, b][0] == a && [a, b][1] == b;
    assert forall i | 0 <= i < 2 :: Get(temps, [a, b][i]).Some?;
    assert GetAll(temps, [a, b]).value == [x, y];
  }

  lemma TwoWords(a: Slot, b: Slot, x: nat, y: nat)
    requires WordOf(a) == Some(x) && WordOf(b) == Some(y)
    ensures SlotWords([a, b]) == Some([x, y])
  {
    assert forall i | 0 <= i < 2 :: WordOf([a, b][i]).Some?;
    assert SlotWords([a, b]).value == [x, y];
  }

  lemma GetWordsTwo(temps: Temps, a: Operand, b: Operand, x: nat, y: nat)
    requires Get(temps, a).Some? && WordOf(Get(temps, a).value) == Some(x)
    requires Get(temps, b).Some? && WordOf(Get(temps, b).value) == Some(y)
    ensures GetWords(temps, [a, b]) == Some([x, y])
  {
    TwoSlots(temps, a, b, Get(temps, a).value, Get(temps, b).value);
    TwoWords(Get(temps, a).value, Get(temps, b).value, x, y);
  }

  lemma GetWordsOne(temps: Temps, a: Operand, x: nat)
    requires Get(temps, a).Some? && WordOf(Get(temps, a).value) == Some(x)
    ensures GetWords(temps, [a]) == Some([x])
  {
    var slots := [Get(temps, a).value];
    assert [a][0] == a;
    assert GetAll(temps, [a]).value == slots;
    assert SlotWords(slots).value == [x];
  }

  /** The synthesised load reads the bytes. */
  lemma {:induction false} LoadGives(env: Env, n: nat, addr: Operand, x: nat, bytes: nat, temps: Temps, vars: Vars, w: World)
    requires 1 <= bytes <= 32 && IsWord(temps, addr, x)
    ensures ReadBE(w.mem, x, bytes) < WORD
    ensures Gives(env, LoadPiece(n, addr, bytes), n, temps, vars, w, Some(WordSlot(ReadBE(w.mem, x, bytes))), w)
  {
    hide ReadBE, Evm.Meaning, Exec;
    var word := ReadBE(w.mem, x, 32);
    MemoryOps.ReadIsWord(w.mem, x);
    MemoryOps.LoadIsRead(w.mem, x, bytes);
    LoadRuns(env, n, addr, x, temps, vars, w);
    var t1 := temps[n := WordSlot(word)];
    var code := LoadPiece(n, addr, bytes).code;
    RunEmpty(env, t1, vars, w);
    if bytes == 32 {
      Cons(env, code, [], temps, vars, w, t1, w);
    } else {
      Cons(env, code, [code[1]], temps, vars, w, t1, w);
      ComputeRuns(env, n + 1, Evm.Shr, Word(256 - 8 * bytes), Tmp(n), 256 - 8 * bytes, word, t1, vars, w);
      RunOne(env, code[1], t1, vars, w);
    }
  }

  /** The synthesised store writes the bytes, and no others. */
  lemma {:induction false} StoreGives(env: Env, n: nat, addr: Operand, src: Operand, x: nat, y: nat, bytes: nat,
                   temps: Temps, vars: Vars, w: World)
    requires 1 <= bytes <= 32 && y < WORD
    requires IsWord(temps, addr, x) && IsWord(temps, src, y) && Below(addr, n) && Below(src, n)
    ensures Gives(env, StorePiece(n, addr, src, bytes), n, temps, vars, w, None,
                  w.(mem := WriteBE(w.mem, x, bytes, y % Pow256(bytes))))
  {
    hide WriteBE, Pow256, Exec, MemoryOps.StoreCode;
    MemoryOps.StoreIsWrite(w.mem, x, bytes, y);
    if bytes == 32 || bytes == 1 {
      StoreRuns(env, addr, src, x, y, temps, vars, w);
      var w1 := w.(mem := MemoryOps.StoreCode(w.mem, x, bytes, y));
      SmallStore(w.mem, x, bytes, y);
      Cons(env, StorePiece(n, addr, src, bytes).code, [], temps, vars, w, temps, w1);
      RunEmpty(env, temps, vars, w1);
    } else {
      WideStore(env, n, addr, src, x, y, bytes, temps, vars, w);
    }
  }

  lemma SmallStore(m: Mem, x: nat, bytes: nat, y: nat)
    requires bytes == 32 || bytes == 1
    ensures MemoryOps.StoreCode(m, x, bytes, y) == if bytes == 32 then WriteBE(m, x, 32, y) else WriteBE(m, x, 1, y % 256)
  {
    hide WriteBE, Evm.Meaning, ReadBE;
  }

  lemma WideStore(env: Env, n: nat, addr: Operand, src: Operand, x: nat, y: nat, bytes: nat,
                  temps: Temps, vars: Vars, w: World)
    requires 1 < bytes < 32 && y < WORD
    requires IsWord(temps, addr, x) && IsWord(temps, src, y) && Below(addr, n) && Below(src, n)
    ensures Gives(env, StorePiece(n, addr, src, bytes), n, temps, vars, w, None,
                  w.(mem := MemoryOps.StoreCode(w.mem, x, bytes, y)))
  {
    hide ReadBE, WriteBE, Evm.Meaning, Exec, RunCode;
    var code := StorePiece(n, addr, src, bytes).code;
    var t3 := KeepTail(env, n, addr, x, bytes, temps, vars, w);
    assert code[..3] == TailCode(n, addr, bytes);
    assert code == code[..3] + code[3..];
    RunCodeConcat(env, code[..3], code[3..], temps, vars, w);
    JoinValue(env, n, addr, src, x, y, bytes, TailOf(w.mem, x, bytes), t3, vars, w, code[3..]);
  }

  /** The word at the address with its first bytes cleared. */
  ghost function TailOf(m: Mem, x: nat, bytes: nat): nat
    requires 1 < bytes < 32
  {
    Evm.Meaning(Evm.Shr, [8 * bytes, Evm.Meaning(Evm.Shl, [8 * bytes, ReadBE(m, x, 32)])])
  }

  function TailCode(n: nat, addr: Operand, bytes: nat): seq<Inst>
    requires 1 < bytes < 32
  {
    [Load(n, addr),
     Compute(n + 1, Evm.Shl, [Word(8 * bytes), Tmp(n)], I256),
     Compute(n + 2, Evm.Shr, [Word(8 * bytes), Tmp(n + 1)], I256)]
  }

  lemma KeepTail(env: Env, n: nat, addr: Operand, x: nat, bytes: nat, temps: Temps, vars: Vars, w: World) returns (t3: Temps)
    requires 1 < bytes < 32 && IsWord(temps, addr, x)
    ensures RunCode(env, TailCode(n, addr, bytes), temps, vars, w) == Next(t3, vars, w) && Keeps(temps, t3, n)
    ensures TailOf(w.mem, x, bytes) < WORD && IsWord(t3, Tmp(n + 2), TailOf(w.mem, x, bytes))
  {
    hide ReadBE, Evm.Meaning, Exec, RunCode;
    var code, bits := TailCode(n, addr, bytes), 8 * bytes;
    var tail := ReadBE(w.mem, x, 32);
    MemoryOps.ReadIsWord(w.mem, x);
    LoadRuns(env, n, addr, x, temps, vars, w);
    var t1 := temps[n := WordSlot(tail)];
    Cons(env, code, code[1..], temps, vars, w, t1, w);
    ComputeRuns(env, n + 1, Evm.Shl, Word(bits), Tmp(n), bits, tail, t1, vars, w);
    var tail1 := Evm.Meaning(Evm.Shl, [bits, tail]);
    var t2 := t1[n + 1 := WordSlot(tail1)];
    Cons(env, code[1..], code[2..], t1, vars, w, t2, w);
    ComputeRuns(env, n + 2, Evm.Shr, Word(bits), Tmp(n + 1), bits, tail1, t2, vars, w);
    t3 := t2[n + 2 := WordSlot(TailOf(w.mem, x, bytes))];
    Cons(env, code[2..], [], t2, vars, w, t3, w);
    RunEmpty(env, t3, vars, w);
  }

  lemma {:induction false} JoinValue(env: Env, n: nat, addr: Operand, src: Operand, x: nat, y: nat, bytes: nat, tail: nat,
                  t3: Temps, vars: Vars, w: World, code: seq<Inst>)
    requires 1 < bytes < 32 && y < WORD && tail < WORD && tail == TailOf(w.mem, x, bytes)
    requires IsWord(t3, addr, x) && IsWord(t3, src, y) && Below(addr, n) && Below(src, n) && IsWord(t3, Tmp(n + 2), tail)
    requires code == [Compute(n + 3, Evm.Shl, [Word(256 - 8 * bytes), src], I256),
                      Compute(n + 4, Evm.Or, [Tmp(n + 2), Tmp(n + 3)], I256),
                      Store(addr, Tmp(n + 4))]
    ensures var f := RunCode(env, code, t3, vars, w);
            f.Next? && f.vars == vars && Keeps(t3, f.temps, n)
            && f.w == w.(mem := MemoryOps.StoreCode(w.mem, x, bytes, y))
  {
    hide ReadBE, WriteBE, Evm.Meaning, Exec, RunCode;
    var tailBits := 256 - 8 * bytes;
    ComputeRuns(env, n + 3, Evm.Shl, Word(tailBits), src, tailBits, y, t3, vars, w);
    var value := Evm.Meaning(Evm.Shl, [tailBits, y]);
    var t4 := t3[n + 3 := WordSlot(value)];
    Cons(env, code, code[1..], t3, vars, w, t4, w);
    ComputeRuns(env, n + 4, Evm.Or, Tmp(n + 2), Tmp(n + 3), tail, value, t4, vars, w);
    var updated := Evm.Meaning(Evm.Or, [tail, value]);
    var t5 := t4[n + 4 := WordSlot(updated)];
    Cons(env, code[1..], code[2..], t4, vars, w, t5, w);
    StoreRuns(env, addr, Tmp(n + 4), x, updated, t5, vars, w);
    var w1 := w.(mem := WriteBE(w.mem, x, 32, updated));
    Cons(env, code[2..], [], t5, vars, w, t5, w1);
    RunEmpty(env, t5, vars, w1);
  }

  /** One operation, its operands in temporaries. */
  lemma {:induction false} OpGives(env: Env, op: Op, os: seq<Operand>, words: seq<nat>, n: nat, ty: Ty, temps: Temps, vars: Vars, w: World)
    requires |os| == |words| == OpArity(op) && GetWords(temps, os) == Some(words) && !Halting(op)
    requires forall i | 0 <= i < |os| :: words[i] < WORD && Below(os[i], n) && IsWord(temps, os[i], words[i])
    requires var p := OpPiece(op, os, n, ShapeOf(ty)); p.Yields? && p.out.Some? == ShapeOf(ty).Some?
    requires FromWord(ty, Perform(env, w, op, words).word).Some?
    ensures var f := Perform(env, w, op, words);
            Gives(env, OpPiece(op, os, n, ShapeOf(ty)), n, temps, vars, w, SlotOf(FromWord(ty, f.word).value), f.w)
  {
    hide ReadBE, WriteBE, Pow256, Evm.Meaning, GetWords, RunCode, LoadPiece, StorePiece;
    AtShapeIs(ty, Perform(env, w, op, words).word);
    match op
    case MLoad(bytes) => LoadGives(env, n, os[0], words[0], bytes, temps, vars, w) by { LoadWidth(n, os[0], bytes); }
    case MStore(bytes) =>
      StoreGives(env, n, os[0], os[1], words[0], words[1], bytes, temps, vars, w) by { StoreWidth(n, os[0], os[1], bytes); }
    case Foldable(f) => RunOne(env, OpPiece(op, os, n, ShapeOf(ty)).code[0], temps, vars, w);
    case RuntimeOnly(_, _, _) => RunOne(env, OpPiece(op, os, n, ShapeOf(ty)).code[0], temps, vars, w);
  }

  lemma LoadWidth(n: nat, addr: Operand, bytes: nat)
    ensures LoadPiece(n, addr, bytes).Yields? ==> 1 <= bytes <= 32
  {
  }

  lemma StoreWidth(n: nat, addr: Operand, src: Operand, bytes: nat)
    ensures StorePiece(n, addr, src, bytes).Yields? ==> 1 <= bytes <= 32
  {
  }

  /** Reading the operands leaves each of them, as a word, in its temporary. */
  lemma OperandsReady(env: Env, types: seq<Ty>, s: Store, next: nat, args: seq<nat>, vs: seq<Value>, words: seq<nat>,
                      temps: Temps, vars: Vars, w: World) returns (t1: Temps)
    requires Rel(types, s, vars) && Lookup(s, args) == Some(vs) && Words(vs) == Some(words)
    ensures RunCode(env, ReadCode(next, args), temps, vars, w) == Next(t1, vars, w) && Keeps(temps, t1, next)
    ensures GetWords(t1, Tmps(next, |args|)) == Some(words)
    ensures forall i | 0 <= i < |args| :: words[i] < WORD && Below(Tmps(next, |args|)[i], next + |args|)
                                          && IsWord(t1, Tmps(next, |args|)[i], words[i])
  {
    hide RunCode, ReadCode, Rel;
    OperandsRun(env, types, s, next, args, vs, words, temps, vars, w);
    t1 := RunCode(env, ReadCode(next, args), temps, vars, w).temps;
  }

  lemma {:induction false} OperationGives(env: Env, types: seq<Ty>, s: Store, next: nat, op: Op, args: seq<nat>, vs: seq<Value>,
                       words: seq<nat>, ty: Ty, temps: Temps, vars: Vars, w: World)
    requires Rel(types, s, vars) && Lookup(s, args) == Some(vs) && Words(vs) == Some(words) && |words| == OpArity(op)
    requires var p := Operation(types, next, op, args, ShapeOf(ty)); p.Yields? && p.out.Some? == ShapeOf(ty).Some?
    requires !Halting(op) && FromWord(ty, Perform(env, w, op, words).word).Some?
    ensures var f := Perform(env, w, op, words);
            Gives(env, Operation(types, next, op, args, ShapeOf(ty)), next, temps, vars, w,
                  SlotOf(FromWord(ty, f.word).value), f.w)
  {
    hide ReadCode, RunCode, Perform, OpPiece, ShapeOf, FromWord, SlotOf, GetWords, IsWord, HasVar, OpArity, Rel, Lookup, Words, Halting, Tmps;
    var t1 := OperandsReady(env, types, s, next, args, vs, words, temps, vars, w);
    var n, os := next + |args|, Tmps(next, |args|);
    TmpsLength(next, |args|);
    OpGives(env, op, os, words, n, ty, t1, vars, w);
    var f := Perform(env, w, op, words);
    Then(env, Yields(ReadCode(next, args), None, n), OpPiece(op, os, n, ShapeOf(ty)), next, temps, vars, w,
         None, w, SlotOf(FromWord(ty, f.word).value), f.w);
  }

  lemma TmpsLength(next: nat, n: nat)
    ensures |Tmps(next, n)| == n
  {
  }

  lemma {:induction false} OperationHalts(env: Env, types: seq<Ty>, s: Store, next: nat, op: Op, args: seq<nat>, vs: seq<Value>,
                       words: seq<nat>, shape: Option<Shape>, temps: Temps, vars: Vars, w: World)
    requires Rel(types, s, vars) && Lookup(s, args) == Some(vs) && Words(vs) == Some(words) && |words| == OpArity(op)
    requires Halting(op) && !Operation(types, next, op, args, shape).Panic?
    ensures Operation(types, next, op, args, shape).Ends?
    ensures RunCode(env, Operation(types, next, op, args, shape).code, temps, vars, w)
            == Ended(Outcome.Halted(Perform(env, w, op, words).w))
  {
    hide ReadCode, RunCode, GetWords, IsWord, HasVar, Rel, Lookup, Words, Tmps;
    var t1 := OperandsReady(env, types, s, next, args, vs, words, temps, vars, w);
    TmpsLength(next, |args|);
    var halt := HaltOp(op.id, Tmps(next, |args|));
    RunCodeConcat(env, ReadCode(next, args), [halt], temps, vars, w);
    RunOne(env, halt, t1, vars, w);
  }

  // ----- calls -----

  lemma {:induction false} CallGives(env: Env, types: seq<Ty>, s: Store, next: nat, callee: nat, args: seq<nat>, ret: Ty, ty: Ty,
                  vs: seq<Value>, v: Value, w': World, temps: Temps, vars: Vars, w: World)
    requires Rel(types, s, vars) && Lookup(s, args) == Some(vs) && ret != TNever
    requires var (v', mem) := env.call(w, callee, Slots(vs));
             v == v' && w' == World(w.trace + [Called(callee, Slots(vs))], mem)
    requires WfValue(v) && TypeOf(v) == ret == ty
    requires !CallPiece(types, next, callee, args, ret, ShapeOf(ty)).Panic?
    ensures Gives(env, CallPiece(types, next, callee, args, ret, ShapeOf(ty)), next, temps, vars, w, SlotOf(v), w')
  {
    hide ReadCode, RunCode, ShapeOf, SlotOf, Rel, Lookup, Tmps, Shaped, Slots, WfValue, TypeOf, GetAll;
    CallArgsRun(env, types, s, next, args, vs, temps, vars, w);
    ShapeAgrees(v);
    var shaped := Shaped(types, args);
    var n := next + |shaped|;
    var call := CallFn(if ShapeOf(ty).None? then None else Some(n), callee, Tmps(next, |shaped|), ret);
    var t1 := RunCode(env, ReadCode(next, shaped), temps, vars, w).temps;
    RunCodeConcat(env, ReadCode(next, shaped), [call], temps, vars, w);
    RunOne(env, call, t1, vars, w);
  }

  lemma {:induction false} CallHalts(env: Env, types: seq<Ty>, s: Store, next: nat, callee: nat, args: seq<nat>, shape: Option<Shape>,
                  vs: seq<Value>, temps: Temps, vars: Vars, w: World)
    requires Rel(types, s, vars) && Lookup(s, args) == Some(vs)
    requires !CallPiece(types, next, callee, args, TNever, shape).Panic?
    ensures var (_, mem) := env.call(w, callee, Slots(vs));
            && CallPiece(types, next, callee, args, TNever, shape).Ends?
            && RunCode(env, CallPiece(types, next, callee, args, TNever, shape).code, temps, vars, w)
               == Ended(Outcome.Halted(World(w.trace + [Called(callee, Slots(vs))], mem)))
  {
    hide ReadCode, RunCode, Rel, Lookup, Tmps, Shaped, Slots, GetAll;
    CallArgsRun(env, types, s, next, args, vs, temps, vars, w);
    var shaped := Shaped(types, args);
    var call := CallFn(None, callee, Tmps(next, |shaped|), TNever);
    var t1 := RunCode(env, ReadCode(next, shaped), temps, vars, w).temps;
    RunCodeConcat(env, ReadCode(next, shaped), [call, Invalid], temps, vars, w);
    RunHead(env, [call, Invalid], t1, vars, w);
  }

  lemma {:induction false} RunHead(env: Env, code: seq<Inst>, temps: Temps, vars: Vars, w: World)
    requires |code| > 0 && !Exec(env, code[0], temps, vars, w).Next?
    ensures RunCode(env, code, temps, vars, w) == Exec(env, code[0], temps, vars, w)
  {
    hide Exec;
  }

  // ----- assignments -----

  lemma {:induction false} ValueGives(env: Env, types: seq<Ty>, s: Store, next: nat, e: Expr, ty: Ty, temps: Temps, vars: Vars, w: World)
    requires Rel(types, s, vars) && Eval(env, s, w, e, ty).Val? && TypeOf(Eval(env, s, w, e, ty).v) == ty
    requires var p := ValuePiece(types, next, e, ShapeOf(ty)); !p.Panic? && (p.Yields? ==> p.out.Some? == ShapeOf(ty).Some?)
    ensures var o := Eval(env, s, w, e, ty);
            WfValue(o.v) && Gives(env, ValuePiece(types, next, e, ShapeOf(ty)), next, temps, vars, w, SlotOf(o.v), o.w)
  {
    hide Gives, ShapeOf, SlotOf, Perform, Constant, AggregateOfLocals, Operation, CallPiece, ReadField, ReadLocal, Slots;
    match e
    case LocalRef(l) => ReadLocalGives(env, types, s, next, l, temps, vars, w);
    case Const(v) => ConstantGives(env, next, v, temps, vars, w);
    case FieldAccess(obj, i) => FieldYields(env, types, s, next, obj, i, temps, vars, w);
    case Builtin(op, args) => BuiltinGives(env, types, s, next, op, args, ty, temps, vars, w);
    case CompoundLit(sty, fields) => LiteralGives(env, types, s, next, sty, fields, temps, vars, w);
    case Call(callee, args, ret) =>
      var vs := Lookup(s, args).value;
      CallGives(env, types, s, next, callee, args, ret, ty, vs, Eval(env, s, w, e, ty).v, Eval(env, s, w, e, ty).w, temps, vars, w);
  }

  lemma FieldYields(env: Env, types: seq<Ty>, s: Store, next: nat, obj: nat, i: nat, temps: Temps, vars: Vars, w: World)
    requires Rel(types, s, vars) && obj in s && s[obj].Struct? && i < |s[obj].fields|
    requires !ReadField(types, next, obj, i).Panic?
    ensures WfValue(s[obj].fields[i])
    ensures Gives(env, ReadField(types, next, obj, i), next, temps, vars, w, SlotOf(s[obj].fields[i]), w)
  {
    hide Gives;
    FieldGives(env, types, s, next, obj, i, temps, vars, w);
  }

  lemma {:induction false} BuiltinGives(env: Env, types: seq<Ty>, s: Store, next: nat, op: Op, args: seq<nat>, ty: Ty,
                     temps: Temps, vars: Vars, w: World)
    requires Rel(types, s, vars) && Eval(env, s, w, Expr.Builtin(op, args), ty).Val?
    requires var p := Operation(types, next, op, args, ShapeOf(ty)); !p.Panic? && (p.Yields? ==> p.out.Some? == ShapeOf(ty).Some?)
    ensures var o := Eval(env, s, w, Expr.Builtin(op, args), ty);
            WfValue(o.v) && Gives(env, Operation(types, next, op, args, ShapeOf(ty)), next, temps, vars, w, SlotOf(o.v), o.w)
  {
    hide Gives, ShapeOf, SlotOf, Perform, Operation;
    var vs := Lookup(s, args).value;
    var words := Words(vs).value;
    NeverEnds(types, next, op, args, ShapeOf(ty));
    OperationGives(env, types, s, next, op, args, vs, words, ty, temps, vars, w);
    FromWordWf(ty, Perform(env, w, op, words).word);
  }

  lemma FromWordWf(ty: Ty, word: nat)
    ensures FromWord(ty, word).Some? ==> WfValue(FromWord(ty, word).value)
  {
  }

  lemma NeverEnds(types: seq<Ty>, next: nat, op: Op, args: seq<nat>, shape: Option<Shape>)
    requires !Halting(op)
    ensures !Operation(types, next, op, args, shape).Ends?
  {
    hide HasVar, OpArity;
    if |args| == OpArity(op) { TmpsLength(next, |args|); }
  }

  lemma {:induction false} LiteralGives(env: Env, types: seq<Ty>, s: Store, next: nat, sty: Ty, fields: seq<nat>,
                     temps: Temps, vars: Vars, w: World)
    requires Rel(types, s, vars) && Lookup(s, fields).Some? && WfValue(Struct(sty, Lookup(s, fields).value))
    requires AggregateType(sty, |fields|)
    ensures Gives(env, ValuePiece(types, next, CompoundLit(sty, fields), ShapeOf(sty)), next, temps, vars, w,
                  SlotOf(Struct(sty, Lookup(s, fields).value)), w)
  {
    var vs := Lookup(s, fields).value;
    ShapeAgrees(Struct(sty, vs));
    hide Gives, ShapeOf, SlotOf, Partial, AggregateOfLocals, WfValue;
    if ShapeOf(sty).None? {
      EmptyGives(env, next, temps, vars, w);
    } else {
      PartialStart(temps, vs);
      LocalsGive(env, types, s, next, Undef(|fields|), fields, vs, 0, temps, vars, w);
      PartialDone(sty, vs, |vs|);
    }
  }

  lemma EmptyGives(env: Env, next: nat, temps: Temps, vars: Vars, w: World)
    ensures Gives(env, Yields([], None, next), next, temps, vars, w, None, w)
  {
    RunEmpty(env, temps, vars, w);
  }

  lemma {:induction false} ValueHalts(env: Env, types: seq<Ty>, s: Store, next: nat, e: Expr, ty: Ty, temps: Temps, vars: Vars, w: World)
    requires Rel(types, s, vars) && Eval(env, s, w, e, ty).Halt? && !ValuePiece(types, next, e, ShapeOf(ty)).Panic?
    ensures var p := ValuePiece(types, next, e, ShapeOf(ty));
            p.Ends? && RunCode(env, p.code, temps, vars, w) == Ended(Outcome.Halted(Eval(env, s, w, e, ty).w))
  {
    hide ShapeOf, SlotOf, Perform, Operation, CallPiece, RunCode, Slots, Rel, Halting;
    match e
    case Builtin(op, args) =>
      var vs := Lookup(s, args).value;
      OperationHalts(env, types, s, next, op, args, vs, Words(vs).value, ShapeOf(ty), temps, vars, w);
    case Call(callee, args, ret) => CallHalts(env, types, s, next, callee, args, ShapeOf(ty), Lookup(s, args).value, temps, vars, w);
    case _ =>
  }

  /** The code for one assignment does what the assignment does. */
  lemma {:induction false} SetRuns(env: Env, types: seq<Ty>, s: Store, next: nat, t: nat, e: Expr, temps: Temps, vars: Vars, w: World)
    requires Rel(types, s, vars) && !SetPiece(types, next, t, e).Panic?
    ensures var p := SetPiece(types, next, t, e);
            match RunSet(env, types, s, w, t, e)
            case Normal(s', w') =>
              var f := RunCode(env, p.code, temps, vars, w);
              p.Yields? && f.Next? && f.w == w' && Rel(types, s', f.vars)
            case Halted(w') => p.Ends? && RunCode(env, p.code, temps, vars, w) == Ended(Outcome.Halted(w'))
            case r => r.Wrong?
  {
    hide ShapeOf, SlotOf, RunCode, Eval, ValuePiece, WfValue, TypeOf;
    var ty := types[t];
    var p := ValuePiece(types, next, e, ShapeOf(ty));
    match Eval(env, s, w, e, ty)
    case Bad =>
    case Halt(w') => ValueHalts(env, types, s, next, e, ty, temps, vars, w);
    case Val(v, w') =>
      if TypeOf(v) == ty {
        ValueGives(env, types, s, next, e, ty, temps, vars, w);
        if SlotOf(v).Some? { Defines(env, types, s, t, p, next, temps, vars, w, v, w'); }
      }
  }

  lemma {:induction false} Defines(env: Env, types: seq<Ty>, s: Store, t: nat, p: Piece, next: nat, temps: Temps, vars: Vars, w: World,
                v: Value, w': World)
    requires Rel(types, s, vars) && t < |types| && WfValue(v) && TypeOf(v) == types[t] && SlotOf(v).Some?
    requires Gives(env, p, next, temps, vars, w, SlotOf(v), w')
    ensures var f := RunCode(env, p.code + [DefVar(t, p.out.value)], temps, vars, w);
            f.Next? && f.w == w' && Rel(types, s[t := v], f.vars)
  {
    hide SlotOf, RunCode, WfValue, TypeOf;
    var def := DefVar(t, p.out.value);
    RunCodeConcat(env, p.code, [def], temps, vars, w);
    RunOne(env, def, RunCode(env, p.code, temps, vars, w).temps, vars, w');
  }
}
