/** HIR: the untyped block language the evaluator consumes, and its plain single-mode meaning. */
module Hir {
  import opened Values
  import opened World
  import opened Mir

  datatype LitField = LitField(name: nat, value: nat)

  datatype HExpr =
    | HValue(v: Option<Value>)
    | HLocal(local: nat)
    | HBuiltin(op: Op, args: seq<nat>)
    | HEqual(positive: bool, lhs: nat, rhs: nat)
    | HNot(input: nat)
    | HStructLit(ty: nat, lits: seq<LitField>)
    | HMember(object: nat, name: nat)
    | HSetQuota(quota: nat)
    | HInComptime

  datatype HInstr =
    | HSet(local: nat, ty: Option<nat>, e: HExpr)
    | HSetMut(local: nat, ty: Option<nat>, e: HExpr)
    | HBranchSet(local: nat, e: HExpr)
    | HAssign(target: nat, e: HExpr)
    | HEval(e: HExpr)
    | HIf(condition: nat, thenBlock: seq<HInstr>, elseBlock: seq<HInstr>)
    | HWhile(conditionBlock: seq<HInstr>, condition: nat, body: seq<HInstr>)
    | HComptime(body: seq<HInstr>)

  function Types(vs: seq<Value>): (r: seq<Ty>)
    ensures |r| == |vs| && forall i | 0 <= i < |vs| :: r[i] == TypeOf(vs[i])
  {
    seq(|vs|, i requires 0 <= i < |vs| => TypeOf(vs[i]))
  }

  /** The index of the first literal field called `name`. */
  function FindLit(lits: seq<LitField>, name: nat): (r: Option<nat>)
    ensures r.Some? ==> r.value < |lits| && lits[r.value].name == name
                        && forall i | 0 <= i < r.value :: lits[i].name != name
    ensures r.None? ==> forall i | 0 <= i < |lits| :: lits[i].name != name
  {
    if lits == [] then None
    else if lits[0].name == name then Some(0)
    else
      match FindLit(lits[1..], name)
      case None => None
      case Some(i) => Some(i + 1)
  }

  predicate NoDuplicates(lits: seq<LitField>) {
    forall i, j | 0 <= i < j < |lits| :: lits[i].name != lits[j].name
  }

  /** A literal gives every field of the definition exactly once, in any order, and no other. */
  predicate Covers(fields: seq<Field>, lits: seq<LitField>) {
    && NoDuplicates(lits)
    && (forall i | 0 <= i < |lits| :: FieldIndex(fields, lits[i].name).Some?)
    && (forall k | 0 <= k < |fields| :: FindLit(lits, fields[k].name).Some?)
  }

  /** The fields of a literal in definition order, each looked up by name. */
  ghost function LitValues(s: Store, fields: seq<Field>, lits: seq<LitField>): Option<seq<Value>>
    requires Covers(fields, lits)
  {
    Lookup(s, seq(|fields|, k requires 0 <= k < |fields| => lits[FindLit(lits, fields[k].name).value].value))
  }

  /** Equality of two values of one type; compounds, functions and the like have none. */
  function Equal(a: Value, b: Value): Option<bool> {
    if TypeOf(a) != TypeOf(b) || TypeOf(a).TStruct? || TypeOf(a).TNever? then None else Some(a == b)
  }

  ghost function Meaning(env: Env, ct: bool, s: Store, w: World, e: HExpr): Out {
    match e
    case HValue(v) => if v.Some? && WfValue(v.value) then Val(v.value, w) else Bad
    case HLocal(x) => if x in s then Val(s[x], w) else Bad
    case HBuiltin(op, args) =>
      (match Lookup(s, args)
       case None => Bad
       case Some(vs) =>
         match ResultType(op, Types(vs))
         case None => Bad
         case Some(ty) => CallOp(env, w, op, vs, ty))
    case HEqual(positive, l, r) =>
      if l in s && r in s && Equal(s[l], s[r]).Some? then
        Val(Boolean(Equal(s[l], s[r]).value == positive), w)
      else Bad
    case HNot(x) => if x in s && s[x].Boolean? then Val(Boolean(!s[x].b), w) else Bad
    case HStructLit(t, lits) =>
      if t in s && s[t].TypeVal? && s[t].ty.TStruct? && Covers(s[t].ty.fields, lits) then
        match LitValues(s, s[t].ty.fields, lits)
        case None => Bad
        case Some(vs) => if WfValue(Struct(s[t].ty, vs)) then Val(Struct(s[t].ty, vs), w) else Bad
      else Bad
    case HMember(obj, name) =>
      if obj in s && s[obj].Struct? && s[obj].sty.TStruct? && FieldIndex(s[obj].sty.fields, name).Some?
         && FieldIndex(s[obj].sty.fields, name).value < |s[obj].fields|
      then Val(s[obj].fields[FieldIndex(s[obj].sty.fields, name).value], w)
      else Bad
    case HSetQuota(q) => if q in s && s[q].Num? then Val(VoidVal, w) else Bad
    case HInComptime => Val(Boolean(ct), w)
  }

  /** A type annotation is a local holding a type the value must have. */
  ghost predicate Annotated(s: Store, ty: Option<nat>, v: Value) {
    ty.Some? ==> ty.value in s && s[ty.value].TypeVal? && TypeOf(v) == s[ty.value].ty
  }

  /** Running a block; `ct` says whether a comptime block encloses it. */
  ghost function HRun(env: Env, fuel: nat, ct: bool, s: Store, w: World, b: seq<HInstr>): Result
    decreases fuel, b, 1
  {
    if b == [] then Normal(s, w)
    else
      match HRunInstr(env, fuel, ct, s, w, b[0])
      case Normal(s', w') => HRun(env, fuel, ct, s', w', b[1..])
      case other => other
  }

  ghost function HRunInstr(env: Env, fuel: nat, ct: bool, s: Store, w: World, i: HInstr): Result
    decreases fuel, i, 0
  {
    match i
    case HSet(x, ty, e) => HBind(env, ct, s, w, x, ty, e)
    case HSetMut(x, ty, e) => HBind(env, ct, s, w, x, ty, e)
    case HBranchSet(x, e) => HBind(env, ct, s, w, x, None, e)
    case HAssign(x, e) =>
      (match Meaning(env, ct, s, w, e)
       case Bad => Wrong
       case Halt(w') => Halted(w')
       case Val(v, w') => if x in s && TypeOf(v) == TypeOf(s[x]) then Normal(s[x := v], w') else Wrong)
    case HEval(e) =>
      (match Meaning(env, ct, s, w, e)
       case Bad => Wrong
       case Halt(w') => Halted(w')
       case Val(_, w') => Normal(s, w'))
    case HIf(c, t, e) =>
      if c in s && s[c].Boolean? then HRun(env, fuel, ct, s, w, if s[c].b then t else e) else Wrong
    case HComptime(body) => HRun(env, fuel, true, s, w, body)
    case HWhile(cb, c, body) =>
      if fuel == 0 then OutOfFuel
      else
        match HRun(env, fuel, ct, s, w, cb)
        case Normal(s1, w1) =>
          if c !in s1 || !s1[c].Boolean? then Wrong
          else if !s1[c].b then Normal(s1, w1)
          else
            (match HRun(env, fuel, ct, s1, w1, body)
             case Normal(s2, w2) => HRunInstr(env, fuel - 1, ct, s2, w2, i)
             case other => other)
        case other => other
  }

  ghost function HBind(env: Env, ct: bool, s: Store, w: World, x: nat, ty: Option<nat>, e: HExpr): Result {
    match Meaning(env, ct, s, w, e)
    case Bad => Wrong
    case Halt(w') => Halted(w')
    case Val(v, w') => if Annotated(s, ty, v) then Normal(s[x := v], w') else Wrong
  }

  lemma {:induction false} HRunConcat(env: Env, fuel: nat, ct: bool, s: Store, w: World, a: seq<HInstr>, b: seq<HInstr>)
    ensures HRun(env, fuel, ct, s, w, a + b) ==
            match HRun(env, fuel, ct, s, w, a)
            case Normal(s', w') => HRun(env, fuel, ct, s', w', b)
            case other => other
    decreases |a|
  {
    if a == [] {
      assert a + b == b;
    } else {
      assert (a + b)[0] == a[0] && (a + b)[1..] == a[1..] + b;
      match HRunInstr(env, fuel, ct, s, w, a[0])
      case Normal(s', w') => HRunConcat(env, fuel, ct, s', w', a[1..], b);
      case _ =>
    }
  }
}
