/** Basic blocks over variables and temporaries, and the machine that runs them. */
module Graph {
  import opened Values
  import opened Memory
  import opened World
  import Evm

  /** The run-time shape of a type; zero-sized types have none. */
  datatype Shape = I1 | I256 | Aggregate(elems: seq<Option<Shape>>)

  function ShapeOf(ty: Ty): Option<Shape> {
    match ty
    case TBool => Some(I1)
    case TU256 => Some(I256)
    case TMemPtr => Some(I256)
    case TStruct(_, fs) =>
      if forall i | 0 <= i < |fs| :: ShapeOf(fs[i].ty) == None then None
      else Some(Aggregate(seq(|fs|, i requires 0 <= i < |fs| => ShapeOf(fs[i].ty))))
    case _ => None
  }

  datatype Operand = Tmp(id: nat) | Imm(slot: Slot) | Undef(elems: nat)

  /** `Call` names the return type its callee was declared with: a callee of type never does not come back. */
  datatype Inst =
    | UseVar(dst: nat, v: nat)
    | DefVar(v: nat, src: Operand)
    | Compute(dst: nat, f: Evm.FoldOp, args: seq<Operand>, shape: Shape)
    | External(result: Option<(nat, Shape)>, id: nat, args: seq<Operand>)
    | Load(dst: nat, addr: Operand)
    | Store(addr: Operand, src: Operand)
    | Store8(addr: Operand, src: Operand)
    | Ne(dst: nat, a: Operand, b: Operand)
    | Insert(dst: nat, agg: Operand, idx: nat, elem: Operand)
    | Extract(dst: nat, agg: Operand, idx: nat)
    | CallFn(out: Option<nat>, callee: nat, args: seq<Operand>, ret: Ty)
    | Jump(target: nat)
    | Br(cond: Operand, onTrue: nat, onFalse: nat)
    | Ret(value: Option<Operand>)
    | HaltOp(id: nat, args: seq<Operand>)
    | Invalid

  type Block = seq<Inst>

  predicate Terminator(i: Inst) {
    i.Jump? || i.Br? || i.Ret? || i.HaltOp? || i.Invalid?
  }

  /** No terminator yet. */
  predicate Open(b: Block) {
    forall i | 0 <= i < |b| :: !Terminator(b[i])
  }

  /** Exactly one terminator, at the end. */
  predicate Finished(b: Block) {
    |b| > 0 && Terminator(b[|b| - 1]) && Open(b[..|b| - 1])
  }

  // ----- running -----

  type Temps = map<nat, Slot>
  type Vars = map<nat, Slot>

  datatype Outcome =
    | Halted(w: World)
    | Trapped(w: World)
    | Returned(value: Option<Slot>, w: World)
    | Stuck

  /** Where one instruction, or a piece of straight-line code, leads. */
  datatype Flow =
    | Next(temps: Temps, vars: Vars, w: World)
    | GoTo(target: nat, temps: Temps, vars: Vars, w: World)
    | Ended(outcome: Outcome)

  datatype Config =
    | At(block: nat, pc: nat, temps: Temps, vars: Vars, w: World)
    | Done(outcome: Outcome)

  function Get(temps: Temps, o: Operand): Option<Slot> {
    match o
    case Tmp(t) => if t in temps then Some(temps[t]) else None
    case Imm(s) => Some(s)
    case Undef(n) => Some(AggSlot(seq(n, _ => None)))
  }

  function GetAll(temps: Temps, os: seq<Operand>): (r: Option<seq<Slot>>)
    ensures r.Some? ==> |r.value| == |os| && forall i | 0 <= i < |os| :: Get(temps, os[i]) == Some(r.value[i])
    ensures r.Some? <==> forall i | 0 <= i < |os| :: Get(temps, os[i]).Some?
  {
    if forall i | 0 <= i < |os| :: Get(temps, os[i]).Some? then
      Some(seq(|os|, i requires 0 <= i < |os| => Get(temps, os[i]).value))
    else None
  }

  function WordOf(s: Slot): Option<nat> {
    match s
    case WordSlot(n) => Some(n)
    case BoolSlot(b) => Some(if b then 1 else 0)
    case AggSlot(_) => None
  }

  function SlotWords(ss: seq<Slot>): (r: Option<seq<nat>>)
    ensures r.Some? ==> |r.value| == |ss| && forall i | 0 <= i < |ss| :: WordOf(ss[i]) == Some(r.value[i])
    ensures r.Some? <==> forall i | 0 <= i < |ss| :: WordOf(ss[i]).Some?
  {
    if forall i | 0 <= i < |ss| :: WordOf(ss[i]).Some? then
      Some(seq(|ss|, i requires 0 <= i < |ss| => WordOf(ss[i]).value))
    else None
  }

  function GetWords(temps: Temps, os: seq<Operand>): Option<seq<nat>> {
    match GetAll(temps, os)
    case None => None
    case Some(ss) => SlotWords(ss)
  }

  /** A machine word kept at a shape. */
  function AtShape(shape: Shape, w: nat): Option<Slot> {
    match shape
    case I1 => Some(BoolSlot(w != 0))
    case I256 => Some(WordSlot(w % WORD))
    case Aggregate(_) => None
  }

  function Assign(dst: nat, s: Option<Slot>, temps: Temps, vars: Vars, w: World): Flow {
    if s.Some? then Next(temps[dst := s.value], vars, w) else Ended(Stuck)
  }

  ghost function Exec(env: Env, i: Inst, temps: Temps, vars: Vars, w: World): Flow {
    match i
    case UseVar(d, v) => Assign(d, if v in vars then Some(vars[v]) else None, temps, vars, w)
    case DefVar(v, o) =>
      (match Get(temps, o)
       case None => Ended(Stuck)
       case Some(s) => Next(temps, vars[v := s], w))
    case Compute(d, f, args, shape) =>
      (match GetWords(temps, args)
       case None => Ended(Stuck)
       case Some(words) =>
         Assign(d, if |words| == Evm.Arity(f) then AtShape(shape, Evm.Meaning(f, words)) else None, temps, vars, w))
    case External(result, id, args) =>
      (match GetWords(temps, args)
       case None => Ended(Stuck)
       case Some(words) =>
         var (word, mem) := env.effect(w, id, words);
         var w' := World(w.trace + [Effect(id, words)], mem);
         if result.None? then Next(temps, vars, w')
         else Assign(result.value.0, AtShape(result.value.1, word), temps, vars, w'))
    case Load(d, addr) =>
      (match GetWords(temps, [addr])
       case None => Ended(Stuck)
       case Some(words) => Next(temps[d := WordSlot(ReadBE(w.mem, words[0], 32))], vars, w))
    case Store(addr, src) =>
      (match GetWords(temps, [addr, src])
       case None => Ended(Stuck)
       case Some(words) => Next(temps, vars, w.(mem := WriteBE(w.mem, words[0], 32, words[1]))))
    case Store8(addr, src) =>
      (match GetWords(temps, [addr, src])
       case None => Ended(Stuck)
       case Some(words) => Next(temps, vars, w.(mem := WriteBE(w.mem, words[0], 1, words[1] % 256))))
    case Ne(d, a, b) =>
      (match GetWords(temps, [a, b])
       case None => Ended(Stuck)
       case Some(words) => Next(temps[d := BoolSlot(words[0] != words[1])], vars, w))
    case Insert(d, agg, idx, elem) => Assign(d, Inserted(Get(temps, agg), idx, Get(temps, elem)), temps, vars, w)
    case Extract(d, agg, idx) => Assign(d, Extracted(Get(temps, agg), idx), temps, vars, w)
    case CallFn(out, callee, args, ret) =>
      (match GetAll(temps, args)
       case None => Ended(Stuck)
       case Some(slots) =>
         var (v, mem) := env.call(w, callee, slots);
         var w' := World(w.trace + [Called(callee, slots)], mem);
         if ret == TNever then Ended(Halted(w'))
         else if out.None? then Next(temps, vars, w')
         else Assign(out.value, SlotOf(v), temps, vars, w'))
    case Jump(k) => GoTo(k, temps, vars, w)
    case Br(c, t, e) =>
      (match Get(temps, c)
       case Some(BoolSlot(b)) => GoTo(if b then t else e, temps, vars, w)
       case _ => Ended(Stuck))
    case Ret(None) => Ended(Returned(None, w))
    case Ret(Some(o)) =>
      var s := Get(temps, o);
      if s.Some? then Ended(Returned(s, w)) else Ended(Stuck)
    case HaltOp(id, args) =>
      (match GetWords(temps, args)
       case None => Ended(Stuck)
       case Some(words) =>
         var (word, mem) := env.effect(w, id, words);
         Ended(Halted(World(w.trace + [Effect(id, words)], mem))))
    case Invalid => Ended(Trapped(w))
  }

  function Inserted(agg: Option<Slot>, idx: nat, elem: Option<Slot>): Option<Slot> {
    if agg.Some? && agg.value.AggSlot? && idx < |agg.value.elems| && elem.Some? then
      Some(AggSlot(agg.value.elems[idx := elem]))
    else None
  }

  function Extracted(agg: Option<Slot>, idx: nat): Option<Slot> {
    if agg.Some? && agg.value.AggSlot? && idx < |agg.value.elems| then agg.value.elems[idx] else None
  }

  ghost function Step(env: Env, g: seq<Block>, c: Config): Config {
    match c
    case Done(_) => c
    case At(b, pc, temps, vars, w) =>
      if b >= |g| || pc >= |g[b]| then Done(Stuck)
      else
        match Exec(env, g[b][pc], temps, vars, w)
        case Next(temps', vars', w') => At(b, pc + 1, temps', vars', w')
        case GoTo(k, temps', vars', w') => At(k, 0, temps', vars', w')
        case Ended(o) => Done(o)
  }

  ghost function Steps(env: Env, g: seq<Block>, n: nat, c: Config): Config {
    if n == 0 then c else Steps(env, g, n - 1, Step(env, g, c))
  }

  lemma {:induction false} StepsAdd(env: Env, g: seq<Block>, a: nat, b: nat, c: Config)
    ensures Steps(env, g, a + b, c) == Steps(env, g, b, Steps(env, g, a, c))
    decreases a
  {
    hide Step;
    if a > 0 { StepsAdd(env, g, a - 1, b, Step(env, g, c)); }
  }

  /** A finished run stays finished, so a run that is still going at step n was going at every step before. */
  lemma {:induction false} StaysDone(env: Env, g: seq<Block>, a: nat, b: nat, c: Config)
    requires a <= b && Steps(env, g, a, c).Done?
    ensures Steps(env, g, b, c) == Steps(env, g, a, c)
  {
    StepsAdd(env, g, a, b - a, c);
    DoneAbsorbs(env, g, b - a, Steps(env, g, a, c));
  }

  lemma {:induction false} DoneAbsorbs(env: Env, g: seq<Block>, n: nat, c: Config)
    requires c.Done?
    ensures Steps(env, g, n, c) == c
  {
    if n > 0 { DoneAbsorbs(env, g, n - 1, c); }
  }

  // ----- straight-line code -----

  ghost function RunCode(env: Env, code: seq<Inst>, temps: Temps, vars: Vars, w: World): Flow
    decreases |code|
  {
    if code == [] then Next(temps, vars, w)
    else
      match Exec(env, code[0], temps, vars, w)
      case Next(temps', vars', w') => RunCode(env, code[1..], temps', vars', w')
      case other => other
  }

  lemma {:induction false} RunCodeConcat(env: Env, a: seq<Inst>, b: seq<Inst>, temps: Temps, vars: Vars, w: World)
    ensures RunCode(env, a + b, temps, vars, w) ==
            match RunCode(env, a, temps, vars, w)
            case Next(temps', vars', w') => RunCode(env, b, temps', vars', w')
            case other => other
    decreases |a|
  {
    hide Exec;
    if a == [] {
      assert a + b == b;
    } else {
      assert (a + b)[0] == a[0] && (a + b)[1..] == a[1..] + b;
      match Exec(env, a[0], temps, vars, w)
      case Next(temps', vars', w') => RunCodeConcat(env, a[1..], b, temps', vars', w');
      case _ =>
    }
  }

  lemma {:induction false} RunOne(env: Env, i: Inst, temps: Temps, vars: Vars, w: World)
    ensures RunCode(env, [i], temps, vars, w) == Exec(env, i, temps, vars, w)
  {
    hide Exec;
    assert [i][1..] == [];
  }

  ghost predicate Leads(f: Flow, b: nat, pc: nat, c: Config) {
    match f
    case Next(temps, vars, w) => c == At(b, pc, temps, vars, w)
    case GoTo(k, temps, vars, w) => c == At(k, 0, temps, vars, w)
    case Ended(o) => c == Done(o)
  }

  predicate CodeAt(g: seq<Block>, b: nat, pc: nat, code: seq<Inst>) {
    b < |g| && pc + |code| <= |g[b]| && g[b][pc..pc + |code|] == code
  }

  /** Code that stands in a block is run by the machine as `RunCode` says; leaving the block takes a step. */
  lemma {:induction false} CodeSteps(env: Env, g: seq<Block>, b: nat, pc: nat, code: seq<Inst>, temps: Temps, vars: Vars, w: World)
      returns (n: nat)
    requires CodeAt(g, b, pc, code)
    ensures Leads(RunCode(env, code, temps, vars, w), b, pc + |code|, Steps(env, g, n, At(b, pc, temps, vars, w)))
    ensures !RunCode(env, code, temps, vars, w).Next? ==> n > 0
    decreases |code|
  {
    hide Exec;
    if code == [] {
      n := 0;
    } else {
      assert g[b][pc] == g[b][pc..pc + |code|][0] == code[0];
      assert g[b][pc + 1..pc + |code|] == code[1..];
      match Exec(env, code[0], temps, vars, w) {
        case Next(temps', vars', w') =>
          var m := CodeSteps(env, g, b, pc + 1, code[1..], temps', vars', w');
          n := m + 1;
        case _ =>
          n := 1;
          assert Steps(env, g, 1, At(b, pc, temps, vars, w)) == Steps(env, g, 0, Step(env, g, At(b, pc, temps, vars, w)));
      }
    }
  }
}
