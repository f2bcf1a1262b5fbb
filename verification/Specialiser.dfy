/**
 * The compile-time evaluator as a function of its state: HIR in, residual MIR out.
 *
 * Every piece returns the code it emitted.  `Panic` is the exit of every `unreachable!`, failed
 * assertion or lookup of an unbound local; `diagnosed` says that some diagnostic was emitted.
 */
module Specialiser {
  import opened Values
  import opened World
  import opened Mir
  import opened Hir
  import opened Quotas
  import Evm

  /** What a HIR local is bound to. */
  datatype Binding = Poison | Comptime(v: Value) | Runtime(m: nat)

  datatype State = State(
    comptime: bool,
    conditional: bool,
    quota: Quota,
    maxSeen: nat,
    bindings: map<nat, Binding>,
    types: seq<Ty>,
    diagnosed: bool,
    lossy: bool)

  datatype Exit = Fallthrough | ControlFlowPoisoned | QuotaExhausted | BlockEnd | Panic

  datatype EvalValue = PoisonV | ComptimeV(v: Value) | RuntimeV(e: Expr, ty: Ty)

  datatype Step = Step(st: State, code: seq<Instr>, exit: Exit)

  datatype ExprStep = ExprStep(st: State, code: seq<Instr>, exit: Exit, value: EvalValue)

  predicate QuotaGrows(before: Quota, after: Quota) {
    before.Valid() ==> after.Valid() && before.spent <= after.spent
  }

  /** What evaluating an expression leaves alone: every binding, the modes, and what was already diagnosed. */
  predicate Keeps(a: State, b: State) {
    && b.bindings == a.bindings && b.comptime == a.comptime && b.conditional == a.conditional && b.lossy == a.lossy
    && (a.diagnosed ==> b.diagnosed)
    && a.types <= b.types
    && QuotaGrows(a.quota, b.quota)
  }

  /** At compile time nothing is emitted and no block ends. */
  predicate Quiet(st: State, code: seq<Instr>, exit: Exit) {
    st.comptime ==> code == [] && exit != BlockEnd
  }

  /** A type once given stays; only the type of a local nothing was stored in can still change. */
  predicate Refines(before: seq<Ty>, after: seq<Ty>) {
    |before| <= |after| && forall m | 0 <= m < |before| :: before[m] == after[m] || before[m] == TNever
  }

  function Diagnose(st: State): State { st.(diagnosed := true) }

  function Bind(st: State, x: nat, b: Binding): State { st.(bindings := st.bindings[x := b]) }

  function Push(st: State, ty: Ty): State { st.(types := st.types + [ty]) }

  function Poisoned(st: State): ExprStep { ExprStep(st, [], Fallthrough, PoisonV) }

  function Rejected(st: State): ExprStep { Poisoned(Diagnose(st)) }

  function Folded(st: State, v: Value): ExprStep { ExprStep(st, [], Fallthrough, ComptimeV(v)) }

  function Panicked(st: State): ExprStep { ExprStep(st, [], Panic, PoisonV) }

  function TypeAt(types: seq<Ty>, m: nat): Ty {
    if m < |types| then types[m] else TNever
  }

  function BindingType(st: State, b: Binding): Ty
    requires !b.Poison?
  {
    match b
    case Comptime(v) => TypeOf(v)
    case Runtime(m) => TypeAt(st.types, m)
  }

  function ValueType(value: EvalValue): Ty
    requires !value.PoisonV?
  {
    match value
    case ComptimeV(v) => TypeOf(v)
    case RuntimeV(_, ty) => ty
  }

  predicate AllBound(st: State, xs: seq<nat>) {
    forall i | 0 <= i < |xs| :: xs[i] in st.bindings
  }

  // ----- operands -----

  function ArgTypes(st: State, args: seq<nat>): (r: Option<seq<Ty>>)
    requires AllBound(st, args)
    ensures r.Some? <==> forall i | 0 <= i < |args| :: !st.bindings[args[i]].Poison?
    ensures r.Some? ==> |r.value| == |args|
                        && forall i | 0 <= i < |args| :: r.value[i] == BindingType(st, st.bindings[args[i]])
  {
    if forall i | 0 <= i < |args| :: !st.bindings[args[i]].Poison? then
      Some(seq(|args|, i requires 0 <= i < |args| => BindingType(st, st.bindings[args[i]])))
    else None
  }

  /** The values of operands that are all known, or none. */
  function Known(st: State, args: seq<nat>): (r: Option<seq<Value>>)
    requires AllBound(st, args)
    ensures r.Some? <==> forall i | 0 <= i < |args| :: st.bindings[args[i]].Comptime?
    ensures r.Some? ==> |r.value| == |args| && forall i | 0 <= i < |args| :: st.bindings[args[i]] == Comptime(r.value[i])
  {
    if forall i | 0 <= i < |args| :: st.bindings[args[i]].Comptime? then
      Some(seq(|args|, i requires 0 <= i < |args| => st.bindings[args[i]].v))
    else None
  }

  datatype Operands = Operands(st: State, code: seq<Instr>, locals: seq<nat>)

  /** A known operand is put in a fresh local first; a run-time one is used where it is. */
  function Materialise(st: State, b: Binding): Operands
    requires !b.Poison?
  {
    match b
    case Runtime(m) => Operands(st, [], [m])
    case Comptime(v) => Operands(Push(st, TypeOf(v)), [Set(|st.types|, Const(v))], [|st.types|])
  }

  function MaterialiseAll(st: State, args: seq<nat>): (r: Operands)
    requires AllBound(st, args)
    requires forall i | 0 <= i < |args| :: !st.bindings[args[i]].Poison?
    ensures r.st == st.(types := r.st.types) && st.types <= r.st.types
    ensures |r.locals| == |args|
    decreases |args|
  {
    if args == [] then Operands(st, [], [])
    else
      var first := Materialise(st, st.bindings[args[0]]);
      var rest := MaterialiseAll(first.st, args[1..]);
      Operands(rest.st, first.code + rest.code, first.locals + rest.locals)
  }

  lemma {:induction false} MaterialiseSteps(st: State, args: seq<nat>)
    requires AllBound(st, args) && forall i | 0 <= i < |args| :: !st.bindings[args[i]].Poison?
    ensures args == [] ==> MaterialiseAll(st, args) == Operands(st, [], [])
    ensures args != [] ==>
              var first := Materialise(st, st.bindings[args[0]]);
              first.st == st.(types := first.st.types) &&
              var rest := MaterialiseAll(first.st, args[1..]);
              MaterialiseAll(st, args) == Operands(rest.st, first.code + rest.code, first.locals + rest.locals)
  {
  }

  predicate HoldsComptimeOnly(b: Binding) {
    b.Comptime? && ComptimeOnly(TypeOf(b.v))
  }

  // ----- builtins and operators -----

  /** The value of a foldable builtin on known operands; nothing where the evaluator would panic. */
  function FoldValue(f: Evm.FoldOp, args: seq<Value>, ty: Ty): Option<Value> {
    match Words(args)
    case None => None
    case Some(words) =>
      if |words| != Evm.Arity(f) then None
      else
        var r := Evm.Fold(f, words);
        match ty
        case TU256 => Some(Num(r))
        case TBool => if r == 0 then Some(Boolean(false)) else if r == 1 then Some(Boolean(true)) else None
        case _ => None
  }

  function EmitBuiltin(st: State, op: Op, args: seq<nat>, ty: Ty): (r: ExprStep)
    requires AllBound(st, args)
    requires forall i | 0 <= i < |args| :: !st.bindings[args[i]].Poison?
    ensures Keeps(st, r.st)
  {
    if exists i | 0 <= i < |args| :: HoldsComptimeOnly(st.bindings[args[i]]) then Panicked(st)
    else
      var ops := MaterialiseAll(st, args);
      if ty == TNever then
        ExprStep(Push(ops.st, TNever), ops.code + [Set(|ops.st.types|, Builtin(op, ops.locals))], BlockEnd, PoisonV)
      else ExprStep(ops.st, ops.code, Fallthrough, RuntimeV(Builtin(op, ops.locals), ty))
  }

  function EvalFoldable(st: State, f: Evm.FoldOp, args: seq<nat>): (r: ExprStep)
    requires AllBound(st, args)
    ensures Keeps(st, r.st) && Quiet(st, r.code, r.exit)
  {
    match ArgTypes(st, args)
    case None => Poisoned(st)
    case Some(tys) =>
      match ResultType(Foldable(f), tys)
      case None => Rejected(st)
      case Some(ty) =>
        match Known(st, args)
        case Some(values) =>
          (match FoldValue(f, values, ty)
           case None => Panicked(st)
           case Some(v) => Folded(st, v))
        case None => if st.comptime then Rejected(st) else EmitBuiltin(st, Foldable(f), args, ty)
  }

  function EvalRuntimeOnly(st: State, op: Op, args: seq<nat>): (r: ExprStep)
    requires AllBound(st, args)
    ensures Keeps(st, r.st) && Quiet(st, r.code, r.exit)
  {
    var tys := ArgTypes(st, args);
    var ty := if tys.None? then None else ResultType(op, tys.value);
    var st' := if tys.Some? && ty.None? then Diagnose(st) else st;
    var never := ty == Some(TNever) || (ty.None? && Halting(op));
    if st.comptime then
      ExprStep(Diagnose(st'), [], if never then ControlFlowPoisoned else Fallthrough, PoisonV)
    else if ty.Some? then EmitBuiltin(st', op, args, ty.value)
    else ExprStep(st', [], if never then BlockEnd else Fallthrough, PoisonV)
  }

  /** `!=` on words is the negation of `eq`, and on booleans it is `xor`. */
  function EvalNotEqual(st: State, ty: Ty, l: nat, r: nat): (res: ExprStep)
    requires l in st.bindings && r in st.bindings && !st.bindings[l].Poison? && !st.bindings[r].Poison?
    ensures Keeps(st, res.st) && Quiet(st, res.code, res.exit)
  {
    var (bl, br) := (st.bindings[l], st.bindings[r]);
    if bl.Comptime? && br.Comptime? then Folded(st, Boolean(bl.v != br.v))
    else if st.comptime then Rejected(st)
    else
      var ops := MaterialiseAll(st, [l, r]);
      if ty == TBool then
        ExprStep(ops.st, ops.code, Fallthrough, RuntimeV(Builtin(Foldable(Evm.Xor), ops.locals), TBool))
      else
        var isEq := |ops.st.types|;
        ExprStep(Push(ops.st, TBool), ops.code + [Set(isEq, Builtin(Foldable(Evm.Eq), ops.locals))],
                 Fallthrough, RuntimeV(Builtin(Foldable(Evm.IsZero), [isEq]), TBool))
  }

  function EvalEqual(st: State, positive: bool, l: nat, r: nat): (res: ExprStep)
    requires l in st.bindings && r in st.bindings
    ensures Keeps(st, res.st) && Quiet(st, res.code, res.exit)
  {
    var (bl, br) := (st.bindings[l], st.bindings[r]);
    if bl.Poison? || br.Poison? then Poisoned(st)
    else if BindingType(st, bl) != BindingType(st, br) then Rejected(st)
    else
      match BindingType(st, bl)
      case TType =>
        if bl.Comptime? && br.Comptime? then Folded(st, Boolean((bl.v == br.v) == positive)) else Panicked(st)
      case TVoid => Folded(st, Boolean(positive))
      case TNever => Rejected(st)
      case TStruct(_, _) => Rejected(st)
      case ty =>
        if positive then EvalFoldable(st, Evm.Eq, [l, r])
        else EvalNotEqual(st, ty, l, r)
  }

  function EvalNot(st: State, x: nat): (r: ExprStep)
    requires x in st.bindings
    ensures Keeps(st, r.st) && Quiet(st, r.code, r.exit)
  {
    var b := st.bindings[x];
    if b.Poison? then Poisoned(st)
    else if !Assignable(BindingType(st, b), TBool) then Rejected(st)
    else
      match b
      case Runtime(m) => ExprStep(st, [], Fallthrough, RuntimeV(Builtin(Foldable(Evm.IsZero), [m]), TBool))
      case Comptime(v) => if v.Boolean? then Folded(st, Boolean(!v.b)) else Panicked(st)
  }

  // ----- compound values -----

  /** The state of the loop that builds a literal: two buffers, of which the second is used once a field is run-time. */
  datatype Lit = Lit(types: seq<Ty>, diagnosed: bool, code: seq<Instr>,
                     values: seq<Value>, locals: seq<nat>, mixed: bool, valid: bool)

  /** One known value put in a fresh local, unless its type exists at compile time only. */
  function LitConst(acc: Lit, v: Value): Lit {
    if ComptimeOnly(TypeOf(v)) then acc.(diagnosed := true, valid := false)
    else
      acc.(types := acc.types + [TypeOf(v)],
           code := acc.code + [Set(|acc.types|, Const(v))],
           locals := acc.locals + [|acc.types|])
  }

  function LitConsts(acc: Lit, vs: seq<Value>): (r: Lit)
    ensures acc.types <= r.types
    ensures acc.diagnosed ==> r.diagnosed
    ensures r.valid ==> acc.valid
    decreases |vs|
  {
    if vs == [] then acc else LitConsts(LitConst(acc, vs[0]), vs[1..])
  }

  function LitStep(st: State, acc: Lit, field: Field, lits: seq<LitField>): (r: Lit)
    requires forall i | 0 <= i < |lits| :: lits[i].value in st.bindings
    ensures acc.types <= r.types
    ensures acc.diagnosed ==> r.diagnosed
    ensures r.valid ==> acc.valid
    ensures st.comptime && !acc.mixed ==> !r.mixed && r.code == acc.code
  {
    match FindLit(lits, field.name)
    case None => acc.(valid := false)
    case Some(i) =>
      match st.bindings[lits[i].value]
      case Poison => acc.(valid := false)
      case Runtime(m) =>
        if st.comptime then acc.(diagnosed := true, valid := false)
        else
          var acc' := if acc.mixed then acc else LitConsts(acc, acc.values).(mixed := true);
          acc'.(locals := acc'.locals + [m])
      case Comptime(v) =>
        if acc.mixed then LitConst(acc, v) else acc.(values := acc.values + [v])
  }

  function LitFields(st: State, acc: Lit, fields: seq<Field>, lits: seq<LitField>): (r: Lit)
    requires forall i | 0 <= i < |lits| :: lits[i].value in st.bindings
    ensures acc.types <= r.types
    ensures acc.diagnosed ==> r.diagnosed
    ensures r.valid ==> acc.valid
    ensures st.comptime && !acc.mixed ==> !r.mixed && r.code == acc.code
    decreases |fields|
  {
    if fields == [] then acc
    else LitFields(st, LitStep(st, acc, fields[0], lits), fields[1..], lits)
  }

  /** The checks made before a literal is built. */
  predicate LitChecks(st: State, fields: seq<Field>, lits: seq<LitField>)
    requires forall i | 0 <= i < |lits| :: lits[i].value in st.bindings
  {
    && Covers(fields, lits)
    && forall i | 0 <= i < |lits| ::
        && !st.bindings[lits[i].value].Poison?
        && Assignable(BindingType(st, st.bindings[lits[i].value]), fields[FieldIndex(fields, lits[i].name).value].ty)
  }

  function EvalStructLit(st: State, t: nat, lits: seq<LitField>): (r: ExprStep)
    requires t in st.bindings && forall i | 0 <= i < |lits| :: lits[i].value in st.bindings
    ensures Keeps(st, r.st) && Quiet(st, r.code, r.exit)
  {
    match st.bindings[t]
    case Poison => Poisoned(if NoDuplicates(lits) then st else Diagnose(st))
    case Runtime(_) => Rejected(st)
    case Comptime(tv) =>
      if !tv.TypeVal? || !tv.ty.TStruct? then Rejected(st)
      else
        var valid := LitChecks(st, tv.ty.fields, lits);
        var st' := if valid then st else Diagnose(st);
        var acc := LitFields(st', Lit(st'.types, st'.diagnosed, [], [], [], false, valid), tv.ty.fields, lits);
        ExprStep(st.(types := acc.types, diagnosed := acc.diagnosed), acc.code, Fallthrough,
                 if !acc.valid then PoisonV
                 else if acc.mixed then RuntimeV(CompoundLit(tv.ty, acc.locals), tv.ty)
                 else ComptimeV(Struct(tv.ty, acc.values)))
  }

  function EvalMember(st: State, obj: nat, name: nat): (r: ExprStep)
    requires obj in st.bindings
    ensures Keeps(st, r.st) && Quiet(st, r.code, r.exit)
  {
    var b := st.bindings[obj];
    if b.Poison? then Poisoned(st)
    else
      var ty := BindingType(st, b);
      if !ty.TStruct? then Rejected(st)
      else
        match FieldIndex(ty.fields, name)
        case None => Rejected(st)
        case Some(i) =>
          match b
          case Runtime(m) => ExprStep(st, [], Fallthrough, RuntimeV(FieldAccess(m, i), ty.fields[i].ty))
          case Comptime(v) =>
            if v.Struct? && i < |v.fields| then Folded(st, v.fields[i]) else Panicked(st)
  }

  function EvalSetQuota(st: State, x: nat): (r: ExprStep)
    requires x in st.bindings
    ensures Keeps(st, r.st) && Quiet(st, r.code, r.exit)
  {
    match st.bindings[x]
    case Poison => Poisoned(st)
    case Runtime(_) => Rejected(st)
    case Comptime(v) =>
      if !v.Num? || v.n > U32_MAX then Rejected(st)
      else Folded(st.(quota := Raised(st.quota, v.n), maxSeen := Max(st.maxSeen, v.n)), VoidVal)
  }

  function LitLocals(lits: seq<LitField>): (r: seq<nat>)
    ensures |r| == |lits| && forall i | 0 <= i < |lits| :: r[i] == lits[i].value
  {
    seq(|lits|, i requires 0 <= i < |lits| => lits[i].value)
  }

  /** The locals an expression reads. */
  function Uses(e: HExpr): seq<nat> {
    match e
    case HValue(_) => []
    case HLocal(x) => [x]
    case HBuiltin(_, args) => args
    case HEqual(_, l, r) => [l, r]
    case HNot(x) => [x]
    case HStructLit(t, lits) => [t] + LitLocals(lits)
    case HMember(obj, _) => [obj]
    case HSetQuota(x) => [x]
    case HInComptime => []
  }

  function EvalExpr(st: State, e: HExpr): (r: ExprStep)
    ensures Keeps(st, r.st) && Quiet(st, r.code, r.exit)
  {
    if !AllBound(st, Uses(e)) then Panicked(st)
    else
      match e
      case HValue(v) => if v.None? then Poisoned(st) else Folded(st, v.value)
      case HLocal(x) =>
        assert Uses(e)[0] == x;
        (match st.bindings[x]
         case Poison => Poisoned(st)
         case Comptime(v) => Folded(st, v)
         case Runtime(m) => ExprStep(st, [], Fallthrough, RuntimeV(LocalRef(m), TypeAt(st.types, m))))
      case HBuiltin(op, args) => if op.Foldable? then EvalFoldable(st, op.f, args) else EvalRuntimeOnly(st, op, args)
      case HEqual(positive, l, r) =>
        assert Uses(e)[0] == l && Uses(e)[1] == r;
        EvalEqual(st, positive, l, r)
      case HNot(x) =>
        assert Uses(e)[0] == x;
        EvalNot(st, x)
      case HStructLit(t, lits) =>
        assert Uses(e)[0] == t;
        assert forall i | 0 <= i < |lits| :: lits[i].value == Uses(e)[i + 1];
        EvalStructLit(st, t, lits)
      case HMember(obj, name) =>
        assert Uses(e)[0] == obj;
        EvalMember(st, obj, name)
      case HSetQuota(x) =>
        assert Uses(e)[0] == x;
        EvalSetQuota(st, x)
      case HInComptime => Folded(st, Boolean(st.comptime))
  }

  // ----- instructions -----

  datatype Checked = Checked(st: State, value: EvalValue)

  /** A type annotation that does not hold poisons the value. */
  function CheckAnnotation(st: State, ty: Option<nat>, value: EvalValue): (c: Checked)
    requires ty.Some? ==> ty.value in st.bindings
    ensures c == Checked(st, value) || (c.value.PoisonV? && (c.st == st || c.st == Diagnose(st)))
  {
    if ty.None? || value.PoisonV? then Checked(st, value)
    else
      match st.bindings[ty.value]
      case Poison => Checked(st, PoisonV)
      case Runtime(_) => Checked(Diagnose(st), PoisonV)
      case Comptime(t) =>
        if t.TypeVal? && Assignable(ValueType(value), t.ty) then Checked(st, value) else Checked(Diagnose(st), PoisonV)
  }

  /** At compile time only known values may be bound. */
  function BindComptime(st: State, x: nat, value: EvalValue): (r: State)
    ensures StepKeeps(st, r)
  {
    match value
    case PoisonV => Bind(st, x, Poison)
    case ComptimeV(v) => Bind(st, x, Comptime(v))
    case RuntimeV(_, _) => Bind(Diagnose(st), x, Poison)
  }

  /** A value that has to exist at run time. */
  function ToRuntime(st: State, value: EvalValue): (c: Checked)
    ensures StepKeeps(st, c.st) && c.st.bindings == st.bindings && c.st.types == st.types && !c.value.ComptimeV?
  {
    match value
    case PoisonV => Checked(st, PoisonV)
    case ComptimeV(v) =>
      if ComptimeOnly(TypeOf(v)) then Checked(Diagnose(st), PoisonV)
      else Checked(st, RuntimeV(Const(v), TypeOf(v)))
    case RuntimeV(_, _) => Checked(st, value)
  }

  /** A value put in a fresh MIR local that `x` is bound to from now on. */
  function BindFresh(st: State, x: nat, value: EvalValue): (r: Step)
    requires !value.ComptimeV?
    ensures StepKeeps(st, r.st)
  {
    match value
    case PoisonV => Step(Bind(st, x, Poison), [], Fallthrough)
    case RuntimeV(e, ty) => Step(Bind(Push(st, ty), x, Runtime(|st.types|)), [Set(|st.types|, e)], Fallthrough)
  }

  function Prefix(code: seq<Instr>, step: Step): Step { step.(code := code + step.code) }

  /** An immutable local: a known value stays known, anything else gets a fresh MIR local. */
  function StoreSet(st: State, x: nat, value: EvalValue): (r: Step)
    ensures StepKeeps(st, r.st) && Quiet(st, r.code, r.exit)
  {
    if st.comptime || value.ComptimeV? then Step(BindComptime(st, x, value), [], Fallthrough)
    else BindFresh(st, x, value)
  }

  /** A mutable local: outside comptime it exists at run time from the start. */
  function StoreMut(st: State, x: nat, value: EvalValue): (r: Step)
    ensures StepKeeps(st, r.st) && Quiet(st, r.code, r.exit)
  {
    if st.comptime then Step(BindComptime(st, x, value), [], Fallthrough)
    else
      var r := ToRuntime(st, value);
      BindFresh(r.st, x, r.value)
  }

  function EvalSet(st: State, x: nat, ty: Option<nat>, e: HExpr): (r: Step)
    ensures StepKeeps(st, r.st) && Quiet(st, r.code, r.exit)
  {
    hide EvalExpr, StoreSet;
    var es := EvalExpr(st, e);
    if es.exit != Fallthrough then Step(es.st, es.code, es.exit)
    else if ty.Some? && ty.value !in es.st.bindings then Step(es.st, es.code, Panic)
    else
      var c := CheckAnnotation(es.st, ty, es.value);
      Prefix(es.code, StoreSet(c.st, x, c.value))
  }

  function EvalSetMut(st: State, x: nat, ty: Option<nat>, e: HExpr): (r: Step)
    ensures StepKeeps(st, r.st) && Quiet(st, r.code, r.exit)
  {
    hide EvalExpr, StoreMut;
    var es := EvalExpr(st, e);
    if es.exit != Fallthrough then Step(es.st, es.code, es.exit)
    else if ty.Some? && ty.value !in es.st.bindings then Step(es.st, es.code, Panic)
    else
      var c := CheckAnnotation(es.st, ty, es.value);
      Prefix(es.code, StoreMut(c.st, x, c.value))
  }

  function Unify(existing: Ty, other: Ty): Option<Ty> {
    if existing == TNever then Some(other)
    else if other == TNever || existing == other then Some(existing)
    else None
  }

  /** The second arm of a run-time branch assigns the local the first arm created. */
  function Rejoin(st: State, x: nat, value: EvalValue): (r: Step)
    requires x in st.bindings && !value.ComptimeV?
    ensures StepKeeps(st, r.st)
  {
    match (st.bindings[x], value)
    case (Poison, _) => Step(Bind(st, x, Poison), [], Fallthrough)
    case (_, PoisonV) => Step(Bind(st, x, Poison), [], Fallthrough)
    case (Comptime(_), RuntimeV(_, _)) => Step(st, [], Panic)
    case (Runtime(m), RuntimeV(e, ty)) =>
      if m >= |st.types| then Step(st, [], Panic)
      else
        match Unify(st.types[m], ty)
        case None => Step(Bind(Diagnose(st), x, Poison), [], Fallthrough)
        case Some(u) => Step(st.(types := st.types[m := u]), [Set(m, e)], Fallthrough)
  }

  /** The result of one arm of a run-time branch. */
  function StoreBranch(st: State, x: nat, value: EvalValue): (r: Step)
    ensures StepKeeps(st, r.st) && Quiet(st, r.code, r.exit)
  {
    hide Rejoin, BindFresh, ToRuntime, BindComptime;
    if st.comptime then Step(BindComptime(st, x, value), [], Fallthrough)
    else
      var r := ToRuntime(st, value);
      if x in r.st.bindings then Rejoin(r.st, x, r.value) else BindFresh(r.st, x, r.value)
  }

  function EvalBranchSet(st: State, x: nat, e: HExpr): (r: Step)
    ensures StepKeeps(st, r.st) && Quiet(st, r.code, r.exit)
  {
    hide EvalExpr, StoreBranch, EvalSet;
    if !st.conditional then EvalSet(st, x, None, e)
    else
      var es := EvalExpr(st, e);
      if es.exit != Fallthrough then Step(es.st, es.code, es.exit)
      else Prefix(es.code, StoreBranch(es.st, x, es.value))
  }

  function AssignChecked(st: State, x: nat, value: EvalValue): (r: Step)
    requires x in st.bindings
    ensures StepKeeps(st, r.st) && Quiet(st, r.code, r.exit)
  {
    var b := st.bindings[x];
    if b.Poison? || value.PoisonV? then Step(Bind(st, x, Poison), [], Fallthrough)
    else
      var st' := if Assignable(ValueType(value), BindingType(st, b)) then st else Diagnose(st);
      if st.comptime then
        if st'.diagnosed == st.diagnosed && b.Comptime? && value.ComptimeV? && Assignable(ValueType(value), BindingType(st, b))
        then Step(Bind(st', x, Comptime(value.v)), [], Fallthrough)
        else Step(Bind(Diagnose(st'), x, Poison), [], Fallthrough)
      else if b.Comptime? then Step(st', [], Panic)
      else
        var r := ToRuntime(st', value);
        if r.value.PoisonV? then Step(Bind(r.st, x, Poison), [], Fallthrough)
        else Step(r.st, [Set(b.m, r.value.e)], Fallthrough)
  }

  function EvalAssign(st: State, x: nat, e: HExpr): (r: Step)
    ensures StepKeeps(st, r.st) && Quiet(st, r.code, r.exit)
  {
    hide EvalExpr;
    var es := EvalExpr(st, e);
    if es.exit != Fallthrough then Step(es.st, es.code, es.exit)
    else if x !in es.st.bindings then Step(es.st, es.code, Panic)
    else Prefix(es.code, AssignChecked(es.st, x, es.value))
  }

  function EvalEffect(st: State, e: HExpr): (r: Step)
    ensures StepKeeps(st, r.st) && Quiet(st, r.code, r.exit)
  {
    hide EvalExpr;
    var es := EvalExpr(st, e);
    if es.exit != Fallthrough then Step(es.st, es.code, es.exit)
    else if !es.value.RuntimeV? then Step(es.st, es.code, Fallthrough)
    else if es.st.comptime then Step(Diagnose(es.st), es.code, Fallthrough)
    else Step(Push(es.st, es.value.ty), es.code + [Set(|es.st.types|, es.value.e)], Fallthrough)
  }

  /** The locals a block gives as a branch result: set directly, or by both arms of an `if` in it. */
  function Joins(b: seq<HInstr>): set<nat> {
    if b == [] then {}
    else
      (match b[0]
       case HBranchSet(x, _) => {x}
       case HIf(_, t, e) => Joins(t) * Joins(e)
       case _ => {}) + Joins(b[1..])
  }

  predicate SameBinding(a: State, b: State, x: nat) {
    x in a.bindings && x in b.bindings && a.bindings[x] == b.bindings[x]
  }

  /** How the exits of two run-time arms combine. */
  function JoinExits(a: Exit, b: Exit): Exit {
    if a == Panic || b == Panic then Panic
    else if a == ControlFlowPoisoned || b == ControlFlowPoisoned then ControlFlowPoisoned
    else if a == QuotaExhausted || b == QuotaExhausted then QuotaExhausted
    else if a == BlockEnd && b == BlockEnd then BlockEnd
    else Fallthrough
  }

  /** What a runtime loop needs of its condition: a MIR local, made on the spot for a known value. */
  function LoopCondition(st: State, c: nat): (r: Checked)
    ensures r.st == st.(types := r.st.types, diagnosed := r.st.diagnosed)
    ensures r.value.RuntimeV? ==> r.value.e.LocalRef?
  {
    if c !in st.bindings then Checked(st, PoisonV)
    else
      match st.bindings[c]
      case Poison => Checked(st, PoisonV)
      case Runtime(m) =>
        if Assignable(TypeAt(st.types, m), TBool) then Checked(st, RuntimeV(LocalRef(m), TBool))
        else Checked(Diagnose(st), PoisonV)
      case Comptime(v) =>
        if Assignable(TypeOf(v), TBool) then Checked(Push(st, TypeOf(v)), ComptimeV(v)) else Checked(Diagnose(st), PoisonV)
  }

  /** What any instruction leaves alone. */
  predicate StepKeeps(a: State, b: State) {
    && b.comptime == a.comptime && b.conditional == a.conditional
    && (a.lossy ==> b.lossy) && (a.diagnosed ==> b.diagnosed)
    && Refines(a.types, b.types)
    && QuotaGrows(a.quota, b.quota)
  }

  function EvalSimple(st: State, i: HInstr): (r: Step)
    requires !i.HIf? && !i.HWhile? && !i.HComptime?
    ensures StepKeeps(st, r.st) && Quiet(st, r.code, r.exit)
  {
    match i
    case HSet(x, ty, e) => EvalSet(st, x, ty, e)
    case HSetMut(x, ty, e) => EvalSetMut(st, x, ty, e)
    case HBranchSet(x, e) => EvalBranchSet(st, x, e)
    case HAssign(x, e) => EvalAssign(st, x, e)
    case HEval(e) => EvalEffect(st, e)
  }

  /** Whether a loop run by the evaluator goes round once more, which costs one branch of the quota. */
  datatype Decision = Stop(st: State, exit: Exit) | Go(st: State)

  function LoopDecision(st: State, c: nat): (d: Decision)
    requires st.quota.Valid()
    ensures StepKeeps(st, d.st)
    ensures d.Stop? ==> d.exit != BlockEnd
    ensures d.Go? ==> d.st.quota.spent == st.quota.spent + 1
  {
    if c !in st.bindings then Stop(st, Panic)
    else
      match st.bindings[c]
      case Poison => Stop(st, ControlFlowPoisoned)
      case Runtime(_) => Stop(Diagnose(st), ControlFlowPoisoned)
      case Comptime(v) =>
        if !v.Boolean? then Stop(Diagnose(st), ControlFlowPoisoned)
        else if !v.b then Stop(st, Fallthrough)
        else
          match SpentOne(st.quota)
          case None => Stop(Diagnose(st), QuotaExhausted)
          case Some(q) => Go(st.(quota := q))
  }

  function EvalBlock(st: State, b: seq<HInstr>): (r: Step)
    requires st.quota.Valid()
    ensures StepKeeps(st, r.st) && Quiet(st, r.code, r.exit)
    decreases st.quota.Left(), b, 3
  {
    if b == [] then Step(st, [], Fallthrough)
    else
      var first := EvalInstr(st, b[0]);
      if first.exit != Fallthrough then first
      else Prefix(first.code, EvalBlock(first.st, b[1..]))
  }

  function EvalInstr(st: State, i: HInstr): (r: Step)
    requires st.quota.Valid()
    ensures StepKeeps(st, r.st) && Quiet(st, r.code, r.exit)
    decreases st.quota.Left(), i, 2
  {
    match i
    case HIf(c, t, e) => EvalIf(st, i)
    case HWhile(cb, c, body) => if st.comptime then EvalComptimeWhile(st, i) else EvalRuntimeWhile(st, i)
    case HComptime(body) =>
      var r := EvalBlock(st.(comptime := true), body);
      Step(r.st.(comptime := st.comptime), r.code, r.exit)
    case _ =>
      EvalSimple(st, i)
  }

  function EvalIf(st: State, i: HInstr): (r: Step)
    requires i.HIf? && st.quota.Valid()
    ensures StepKeeps(st, r.st) && Quiet(st, r.code, r.exit)
    decreases st.quota.Left(), i, 1
  {
    if i.condition !in st.bindings then Step(st, [], Panic)
    else
      match st.bindings[i.condition]
      case Poison => Step(st, [], ControlFlowPoisoned)
      case Runtime(m) =>
        if !Assignable(TypeAt(st.types, m), TBool) || st.comptime then Step(Diagnose(st), [], ControlFlowPoisoned)
        else
          var t := EvalBlock(st.(conditional := true), i.thenBlock);
          var e := EvalBlock(t.st, i.elseBlock);
          var torn := t.exit == Fallthrough
                      && exists x | x in Joins(i.thenBlock) * Joins(i.elseBlock) :: !SameBinding(t.st, e.st, x);
          Step(e.st.(conditional := st.conditional, lossy := e.st.lossy || torn),
               [If(m, t.code, e.code)], JoinExits(t.exit, e.exit))
      case Comptime(v) =>
        if !v.Boolean? then Step(Diagnose(st), [], ControlFlowPoisoned)
        else
          var r := EvalBlock(st.(conditional := false), if v.b then i.thenBlock else i.elseBlock);
          Step(r.st.(conditional := st.conditional), r.code, r.exit)
  }

  function EvalRuntimeWhile(st: State, i: HInstr): (r: Step)
    requires i.HWhile? && st.quota.Valid() && !st.comptime
    ensures StepKeeps(st, r.st)
    decreases st.quota.Left(), i, 1
  {
    var cb := EvalBlock(st, i.conditionBlock);
    if cb.exit == BlockEnd then Step(cb.st.(lossy := true), [], BlockEnd)
    else if cb.exit != Fallthrough then Step(cb.st, [], cb.exit)
    else if i.condition !in cb.st.bindings then Step(cb.st, [], Panic)
    else
      var c := LoopCondition(cb.st, i.condition);
      if c.value.PoisonV? then Step(c.st, [], ControlFlowPoisoned)
      else
        var (m, extra) := if c.value.RuntimeV? then (c.value.e.local, []) else
          (|cb.st.types|, [Set(|cb.st.types|, Const(c.value.v))]);
        var body := EvalBlock(c.st, i.body);
        if body.exit in {ControlFlowPoisoned, QuotaExhausted, Panic} then Step(body.st, [], body.exit)
        else Step(body.st, [While(cb.code + extra, m, body.code)], Fallthrough)
  }

  function EvalComptimeWhile(st: State, i: HInstr): (r: Step)
    requires i.HWhile? && st.quota.Valid() && st.comptime
    ensures StepKeeps(st, r.st) && Quiet(st, r.code, r.exit)
    decreases st.quota.Left(), i, 1
  {
    hide LoopDecision;
    var cb := EvalBlock(st, i.conditionBlock);
    if cb.exit != Fallthrough then cb
    else
      match LoopDecision(cb.st, i.condition)
      case Stop(st', exit) => Step(st', cb.code, exit)
      case Go(st') =>
        var body := EvalBlock(st', i.body);
        if body.exit != Fallthrough then Prefix(cb.code, body)
        else Prefix(cb.code + body.code, EvalComptimeWhile(body.st, i))
  }
}
