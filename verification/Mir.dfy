/** MIR: structured code over typed mutable locals, and what running it means. */
module Mir {
  import opened Values
  import opened World

  datatype Expr =
    | LocalRef(local: nat)
    | Const(v: Value)
    | Builtin(op: Op, args: seq<nat>)
    | FieldAccess(object: nat, index: nat)
    | CompoundLit(ty: Ty, fields: seq<nat>)
    | Call(callee: nat, params: seq<nat>, ret: Ty)

  datatype Instr =
    | Set(target: nat, e: Expr)
    | Return(local: nat)
    | If(condition: nat, thenBlock: seq<Instr>, elseBlock: seq<Instr>)
    | While(conditionBlock: seq<Instr>, condition: nat, body: seq<Instr>)

  type Store = map<nat, Value>

  /** How a run of a block ends; `OutOfFuel` is a run that was cut short. */
  datatype Result =
    | OutOfFuel
    | Wrong
    | Normal(s: Store, w: World)
    | Halted(w: World)
    | Returned(v: Value, w: World)

  /** How the evaluation of an expression ends. */
  datatype Out = Val(v: Value, w: World) | Halt(w: World) | Bad

  function Lookup(s: Store, locals: seq<nat>): (r: Option<seq<Value>>)
    ensures r.Some? <==> forall i | 0 <= i < |locals| :: locals[i] in s
    ensures r.Some? ==> |r.value| == |locals| && forall i | 0 <= i < |locals| :: r.value[i] == s[locals[i]]
  {
    if forall i | 0 <= i < |locals| :: locals[i] in s then
      Some(seq(|locals|, i requires 0 <= i < |locals| => s[locals[i]]))
    else None
  }

  function Words(vs: seq<Value>): (r: Option<seq<nat>>)
    ensures r.Some? <==> forall i | 0 <= i < |vs| :: AsWord(vs[i]).Some?
    ensures r.Some? ==> |r.value| == |vs| && forall i | 0 <= i < |vs| :: AsWord(vs[i]) == Some(r.value[i])
  {
    if forall i | 0 <= i < |vs| :: AsWord(vs[i]).Some? then
      Some(seq(|vs|, i requires 0 <= i < |vs| => AsWord(vs[i]).value))
    else None
  }

  function Slots(vs: seq<Value>): seq<Slot> {
    if vs == [] then []
    else (match SlotOf(vs[0]) case Some(x) => [x] case None => []) + Slots(vs[1..])
  }

  /** A call of an operation on values, its result seen at type `ty`. */
  ghost function CallOp(env: Env, w: World, op: Op, vs: seq<Value>, ty: Ty): Out {
    match Words(vs)
    case None => Bad
    case Some(words) =>
      if |words| != OpArity(op) then Bad
      else
        var p := Perform(env, w, op, words);
        if Halting(op) then Halt(p.w)
        else
          match FromWord(ty, p.word)
          case None => Bad
          case Some(v) => Val(v, p.w)
  }

  /** The value of `e`, to be stored in a local of type `ty`. */
  ghost function Eval(env: Env, s: Store, w: World, e: Expr, ty: Ty): Out {
    match e
    case LocalRef(l) => if l in s then Val(s[l], w) else Bad
    case Const(v) => if WfValue(v) && !ComptimeOnly(TypeOf(v)) then Val(v, w) else Bad
    case Builtin(op, args) =>
      (match Lookup(s, args)
       case None => Bad
       case Some(vs) => CallOp(env, w, op, vs, ty))
    case FieldAccess(obj, i) =>
      if obj in s && s[obj].Struct? && i < |s[obj].fields| then Val(s[obj].fields[i], w) else Bad
    case CompoundLit(sty, fields) =>
      (match Lookup(s, fields)
       case None => Bad
       case Some(vs) => if WfValue(Struct(sty, vs)) then Val(Struct(sty, vs), w) else Bad)
    case Call(callee, args, ret) =>
      match Lookup(s, args)
      case None => Bad
      case Some(vs) =>
        var (v, mem) := env.call(w, callee, Slots(vs));
        var w' := World(w.trace + [Called(callee, Slots(vs))], mem);
        if ret == TNever then Halt(w')
        else if WfValue(v) && TypeOf(v) == ret && !ComptimeOnly(ret) then Val(v, w') else Bad
  }

  /** A condition holds if its local is `true` or a non-zero word. */
  function Truth(v: Value): Option<bool> {
    match v
    case Boolean(b) => Some(b)
    case Num(n) => Some(n != 0)
    case Ptr(n) => Some(n != 0)
    case _ => None
  }

  ghost function Condition(s: Store, c: nat): Option<bool> {
    if c in s then Truth(s[c]) else None
  }

  /** Running a block; `types` are the types of the locals, and one unit of fuel is spent per loop iteration. */
  ghost function Run(env: Env, types: seq<Ty>, fuel: nat, s: Store, w: World, b: seq<Instr>): Result
    decreases fuel, b, 1
  {
    if b == [] then Normal(s, w)
    else
      match RunInstr(env, types, fuel, s, w, b[0])
      case Normal(s', w') => Run(env, types, fuel, s', w', b[1..])
      case other => other
  }

  ghost function RunInstr(env: Env, types: seq<Ty>, fuel: nat, s: Store, w: World, i: Instr): Result
    decreases fuel, i, 0
  {
    match i
    case Set(t, e) => RunSet(env, types, s, w, t, e)
    case Return(l) => if l in s then Returned(s[l], w) else Wrong
    case If(c, t, e) =>
      (match Condition(s, c)
       case None => Wrong
       case Some(true) => Run(env, types, fuel, s, w, t)
       case Some(false) => Run(env, types, fuel, s, w, e))
    case While(cb, c, body) =>
      if fuel == 0 then OutOfFuel
      else
        match Run(env, types, fuel, s, w, cb)
        case Normal(s1, w1) =>
          (match Condition(s1, c)
           case None => Wrong
           case Some(false) => Normal(s1, w1)
           case Some(true) =>
             match Run(env, types, fuel, s1, w1, body)
             case Normal(s2, w2) => RunInstr(env, types, fuel - 1, s2, w2, i)
             case other => other)
        case other => other
  }

  ghost function RunSet(env: Env, types: seq<Ty>, s: Store, w: World, t: nat, e: Expr): Result {
    if t >= |types| then Wrong
    else
      match Eval(env, s, w, e, types[t])
      case Bad => Wrong
      case Halt(w') => Halted(w')
      case Val(v, w') => if TypeOf(v) == types[t] then Normal(s[t := v], w') else Wrong
  }

  /** Running two pieces of code in a row. */
  lemma {:induction false} RunConcat(env: Env, types: seq<Ty>, fuel: nat, s: Store, w: World, a: seq<Instr>, b: seq<Instr>)
    ensures Run(env, types, fuel, s, w, a + b) ==
            match Run(env, types, fuel, s, w, a)
            case Normal(s', w') => Run(env, types, fuel, s', w', b)
            case other => other
    decreases |a|
  {
    if a == [] {
      assert a + b == b;
    } else {
      assert (a + b)[0] == a[0] && (a + b)[1..] == a[1..] + b;
      match RunInstr(env, types, fuel, s, w, a[0])
      case Normal(s', w') => RunConcat(env, types, fuel, s', w', a[1..], b);
      case _ =>
    }
  }

  /** Two stores that agree from local `n` on. */
  ghost predicate SameFrom(a: Store, b: Store, n: nat) {
    forall m | n <= m :: (m in a <==> m in b) && (m in a ==> a[m] == b[m])
  }

  /** A run that does not go wrong with some locals runs the same with more of them, and never touches the others. */
  lemma {:induction false} RunWithin(env: Env, types: seq<Ty>, more: seq<Ty>, fuel: nat, s: Store, w: World, b: seq<Instr>)
    requires types <= more && !Run(env, types, fuel, s, w, b).Wrong?
    ensures Run(env, more, fuel, s, w, b) == Run(env, types, fuel, s, w, b)
    ensures Run(env, types, fuel, s, w, b).Normal? ==> SameFrom(s, Run(env, types, fuel, s, w, b).s, |types|)
    decreases fuel, b, 1
  {
    hide RunInstr;
    if b != [] {
      InstrWithin(env, types, more, fuel, s, w, b[0]);
      match RunInstr(env, types, fuel, s, w, b[0])
      case Normal(s', w') => RunWithin(env, types, more, fuel, s', w', b[1..]);
      case _ =>
    }
  }

  lemma {:induction false} InstrWithin(env: Env, types: seq<Ty>, more: seq<Ty>, fuel: nat, s: Store, w: World, i: Instr)
    requires types <= more && !RunInstr(env, types, fuel, s, w, i).Wrong?
    ensures RunInstr(env, more, fuel, s, w, i) == RunInstr(env, types, fuel, s, w, i)
    ensures RunInstr(env, types, fuel, s, w, i).Normal? ==> SameFrom(s, RunInstr(env, types, fuel, s, w, i).s, |types|)
    decreases fuel, i, 0
  {
    hide Run, Eval, Condition;
    match i
    case Set(t, e) =>
    case Return(_) =>
    case If(c, t, e) => if Condition(s, c).Some? { RunWithin(env, types, more, fuel, s, w, if Condition(s, c).value then t else e); }
    case While(cb, c, body) =>
      if fuel > 0 {
        RunWithin(env, types, more, fuel, s, w, cb);
        match Run(env, types, fuel, s, w, cb)
        case Normal(s1, w1) =>
          if Condition(s1, c) == Some(true) {
            RunWithin(env, types, more, fuel, s1, w1, body);
            match Run(env, types, fuel, s1, w1, body)
            case Normal(s2, w2) => InstrWithin(env, types, more, fuel - 1, s2, w2, i);
            case _ =>
          }
        case _ =>
      }
  }
}
