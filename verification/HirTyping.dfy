/** A typing judgement for HIR, on the program text and on the types of locals alone. */
module HirTyping {
  import opened Values
  import opened World
  import opened Hir
  import opened Specialiser
  import opened Scoping
  import Evm

  /** What is said of a local: it is this known value, it is some known value of a type, or it exists at run time. */
  datatype Sort = Exactly(v: Value) | KnownOf(ty: Ty) | Live(ty: Ty)

  function SortType(s: Sort): Ty {
    match s
    case Exactly(v) => TypeOf(v)
    case KnownOf(ty) => ty
    case Live(ty) => ty
  }

  predicate IsKnown(s: Sort) { !s.Live? }

  /** Sorts of locals, and all the locals that may have been introduced. */
  datatype Context = Context(sorts: map<nat, Sort>, used: set<nat>)

  const EMPTY: Context := Context(map[], {})

  datatype Judged = Ill | Ends | Gives(s: Sort)

  // ----- expressions -----

  predicate AllSorted(ctx: Context, xs: seq<nat>) {
    forall i | 0 <= i < |xs| :: xs[i] in ctx.sorts
  }

  function SortTypes(ctx: Context, xs: seq<nat>): (r: seq<Ty>)
    requires AllSorted(ctx, xs)
    ensures |r| == |xs| && forall i | 0 <= i < |xs| :: r[i] == SortType(ctx.sorts[xs[i]])
  {
    seq(|xs|, i requires 0 <= i < |xs| => SortType(ctx.sorts[xs[i]]))
  }

  predicate AllKnown(ctx: Context, xs: seq<nat>)
    requires AllSorted(ctx, xs)
  {
    forall i | 0 <= i < |xs| :: IsKnown(ctx.sorts[xs[i]])
  }

  /** An operation that can be folded is, on known operands, and otherwise runs. */
  function FoldableSort(ctx: Context, ct: bool, f: Evm.FoldOp, args: seq<nat>): Judged
    requires AllSorted(ctx, args)
  {
    match ResultType(Foldable(f), SortTypes(ctx, args))
    case None => Ill
    case Some(ty) => if AllKnown(ctx, args) then Gives(KnownOf(ty)) else if ct then Ill else Gives(Live(ty))
  }

  function RuntimeOnlySort(ctx: Context, ct: bool, op: Op, args: seq<nat>): Judged
    requires AllSorted(ctx, args)
  {
    match ResultType(op, SortTypes(ctx, args))
    case None => Ill
    case Some(ty) => if ct then Ill else if ty == TNever then Ends else Gives(Live(ty))
  }

  function EqualSort(ct: bool, positive: bool, l: Sort, r: Sort): Judged {
    if SortType(l) != SortType(r) then Ill
    else
      match SortType(l)
      case TNever => Ill
      case TStruct(_, _) => Ill
      case TVoid => Gives(Exactly(Boolean(positive)))
      case TType =>
        if l.Exactly? && r.Exactly? then Gives(Exactly(Boolean((l.v == r.v) == positive)))
        else if IsKnown(l) && IsKnown(r) then Gives(KnownOf(TBool))
        else Ill
      case _ => if IsKnown(l) && IsKnown(r) then Gives(KnownOf(TBool)) else if ct then Ill else Gives(Live(TBool))
  }

  function NotSort(s: Sort): Judged {
    if SortType(s) != TBool then Ill
    else
      match s
      case Exactly(Boolean(b)) => Gives(Exactly(Boolean(!b)))
      case _ => Gives(s)
  }

  /** A literal of a known struct type; with a run-time field every known one has to exist at run time as well. */
  function LiteralSort(ctx: Context, ct: bool, t: nat, lits: seq<LitField>): Judged
    requires t in ctx.sorts && AllSorted(ctx, LitLocals(lits))
  {
    if !ctx.sorts[t].Exactly? || !ctx.sorts[t].v.TypeVal? || !ctx.sorts[t].v.ty.TStruct? then Ill
    else
      var ty := ctx.sorts[t].v.ty;
      if !LiteralFits(ctx, ty.fields, lits) then Ill
      else if AllKnown(ctx, LitLocals(lits)) then Gives(KnownOf(ty))
      else if ct || exists i | 0 <= i < |lits| :: ComptimeOnly(SortType(ctx.sorts[LitLocals(lits)[i]])) then Ill
      else Gives(Live(ty))
  }

  predicate LiteralFits(ctx: Context, fields: seq<Field>, lits: seq<LitField>)
    requires AllSorted(ctx, LitLocals(lits))
  {
    && Covers(fields, lits)
    && forall i | 0 <= i < |lits| ::
        SortType(ctx.sorts[LitLocals(lits)[i]]) == fields[FieldIndex(fields, lits[i].name).value].ty
  }

  function MemberSort(s: Sort, name: nat): Judged {
    if !SortType(s).TStruct? then Ill
    else
      match FieldIndex(SortType(s).fields, name)
      case None => Ill
      case Some(i) =>
        var ty := SortType(s).fields[i].ty;
        Gives(if IsKnown(s) then KnownOf(ty) else Live(ty))
  }

  function QuotaSort(s: Sort): Judged {
    match s
    case Exactly(Num(n)) => if n <= U32_MAX then Gives(Exactly(VoidVal)) else Ill
    case _ => Ill
  }

  function ExprSort(ctx: Context, ct: bool, e: HExpr): Judged {
    if !AllSorted(ctx, Uses(e)) then Ill
    else
      match e
      case HValue(v) => if v.None? then Ill else Gives(Exactly(v.value))
      case HLocal(x) =>
        assert Uses(e)[0] == x;
        Gives(ctx.sorts[x])
      case HBuiltin(op, args) => if op.Foldable? then FoldableSort(ctx, ct, op.f, args) else RuntimeOnlySort(ctx, ct, op, args)
      case HEqual(positive, l, r) =>
        assert Uses(e)[0] == l && Uses(e)[1] == r;
        EqualSort(ct, positive, ctx.sorts[l], ctx.sorts[r])
      case HNot(x) =>
        assert Uses(e)[0] == x;
        NotSort(ctx.sorts[x])
      case HStructLit(t, lits) =>
        assert Uses(e)[0] == t;
        assert forall i | 0 <= i < |lits| :: LitLocals(lits)[i] == Uses(e)[i + 1];
        LiteralSort(ctx, ct, t, lits)
      case HMember(obj, name) =>
        assert Uses(e)[0] == obj;
        MemberSort(ctx.sorts[obj], name)
      case HSetQuota(x) =>
        assert Uses(e)[0] == x;
        QuotaSort(ctx.sorts[x])
      case HInComptime => Gives(Exactly(Boolean(ct)))
  }

  // ----- instructions -----

  /** How a block may leave off: going on, or at an operation that never returns; each with what is known then. */
  datatype Flow = Flow(goes: Option<Context>, ends: Option<Context>)

  function Goes(ctx: Context): Option<Flow> { Some(Flow(Some(ctx), None)) }

  function Bound(ctx: Context, x: nat, s: Sort): Context { Context(ctx.sorts[x := s], ctx.used + {x}) }

  predicate Annotates(ctx: Context, ty: Option<nat>, s: Sort) {
    ty.Some? ==>
      && ty.value in ctx.sorts && ctx.sorts[ty.value].Exactly?
      && ctx.sorts[ty.value].v == TypeVal(SortType(s))
  }

  /** A value of this sort can be put in a MIR local. */
  predicate Storable(s: Sort) {
    IsKnown(s) ==> !ComptimeOnly(SortType(s))
  }

  function CheckSimple(ctx: Context, ct: bool, cond: bool, i: HInstr): Option<Flow>
    requires !i.HIf? && !i.HWhile? && !i.HComptime?
  {
    match ExprSort(ctx, ct, i.e)
    case Ill => None
    case Ends => Some(Flow(None, Some(ctx)))
    case Gives(s) =>
      match i
      case HSet(x, ty, _) => if Annotates(ctx, ty, s) && (ct ==> IsKnown(s)) then Goes(Bound(ctx, x, s)) else None
      case HSetMut(x, ty, _) => if Annotates(ctx, ty, s) then CheckMut(ctx, ct, x, s) else None
      case HBranchSet(x, _) => CheckBranch(ctx, ct, cond, x, s)
      case HAssign(x, _) => CheckAssign(ctx, ct, x, s)
      case HEval(_) => if ct && s.Live? then None else Goes(ctx)
  }

  /** A mutable local keeps its type and nothing more; outside comptime it exists at run time. */
  function CheckMut(ctx: Context, ct: bool, x: nat, s: Sort): Option<Flow> {
    if ct then (if IsKnown(s) then Goes(Bound(ctx, x, KnownOf(SortType(s)))) else None)
    else if Storable(s) then Goes(Bound(ctx, x, Live(SortType(s))))
    else None
  }

  /** A branch result below a run-time condition exists at run time, and a later arm gives one of the same type. */
  function CheckBranch(ctx: Context, ct: bool, cond: bool, x: nat, s: Sort): Option<Flow> {
    if ct || !cond then (if ct && !IsKnown(s) then None else Goes(Bound(ctx, x, s)))
    else if !Storable(s) then None
    else if x in ctx.sorts then (if ctx.sorts[x] == Live(SortType(s)) then Goes(ctx) else None)
    else if x in ctx.used then None
    else Goes(Bound(ctx, x, Live(SortType(s))))
  }

  function CheckAssign(ctx: Context, ct: bool, x: nat, s: Sort): Option<Flow> {
    if x !in ctx.sorts || SortType(ctx.sorts[x]) != SortType(s) then None
    else if ct then (if ctx.sorts[x].KnownOf? && IsKnown(s) then Goes(ctx) else None)
    else if ctx.sorts[x].Live? && Storable(s) then Goes(ctx)
    else None
  }

  /** What is known either way. */
  function Meet(a: Context, b: Context): Context {
    Context(map x | x in a.sorts && x in b.sorts && a.sorts[x] == b.sorts[x] :: a.sorts[x], a.used + b.used)
  }

  function Either(a: Option<Context>, b: Option<Context>): Option<Context> {
    if a.None? then b else if b.None? then a else Some(Meet(a.value, b.value))
  }

  /** Everything said in `b` is said in `a`. */
  predicate Says(a: Context, b: Context) {
    a.used <= b.used && forall x | x in b.sorts :: x in a.sorts && a.sorts[x] == b.sorts[x]
  }

  /** Checks a block; `ct` inside comptime blocks, `cond` below a run-time condition. */
  function Check(ctx: Context, ct: bool, cond: bool, b: seq<HInstr>): Option<Flow>
    decreases b, 1, 0
  {
    if b == [] then Goes(ctx)
    else
      match CheckInstr(ctx, ct, cond, b[0])
      case None => None
      case Some(f) =>
        if f.goes.None? then Some(f)
        else
          match Check(f.goes.value, ct, cond, b[1..])
          case None => None
          case Some(g) => Some(Flow(g.goes, Either(f.ends, g.ends)))
  }

  function CheckInstr(ctx: Context, ct: bool, cond: bool, i: HInstr): Option<Flow>
    decreases i, 0, 1
  {
    match i
    case HIf(c, t, e) =>
      if c !in ctx.sorts then None
      else
        (match ctx.sorts[c]
         case Exactly(Boolean(b)) => Check(ctx, ct, false, if b then t else e)
         case KnownOf(TBool) => OneOf(Check(ctx, ct, false, t), Check(ctx, ct, false, e))
         case Live(TBool) =>
           if ct then None
           else
             (match Check(ctx, ct, true, t)
              case None => None
              case Some(f) =>
                match Either(f.goes, f.ends)
                case None => None
                case Some(start) => Both(f, Check(start, ct, true, e)))
         case _ => None)
    case HComptime(body) => Check(ctx, true, cond, body)
    case HWhile(cb, c, body) => if ct then CheckComptimeWhile(ctx, cond, i) else CheckRuntimeWhile(ctx, cond, i)
    case _ => CheckSimple(ctx, ct, cond, i)
  }

  /** A loop run by the evaluator: a round leaves everything that was said before it. */
  function CheckComptimeWhile(ctx: Context, cond: bool, i: HInstr): Option<Flow>
    requires i.HWhile?
    decreases i, 0, 0
  {
    var start := ctx.(used := ctx.used + Touches(i.conditionBlock) + Touches(i.body));
    match Check(start, true, cond, i.conditionBlock)
    case None => None
    case Some(f) =>
      if f.goes.None? || i.condition !in f.goes.value.sorts then None
      else if f.goes.value.sorts[i.condition].Live? || SortType(f.goes.value.sorts[i.condition]) != TBool then None
      else
        match Check(f.goes.value, true, cond, i.body)
        case None => None
        case Some(g) => if g.goes.Some? && Says(g.goes.value, start) then Goes(f.goes.value) else None
  }

  /** A run-time loop is gone through once. */
  function CheckRuntimeWhile(ctx: Context, cond: bool, i: HInstr): Option<Flow>
    requires i.HWhile?
    decreases i, 0, 0
  {
    match Check(ctx, false, cond, i.conditionBlock)
    case None => None
    case Some(f) =>
      if f.goes.None? then Some(f)
      else if i.condition !in f.goes.value.sorts || SortType(f.goes.value.sorts[i.condition]) != TBool then None
      else
        match Check(f.goes.value, false, cond, i.body)
        case None => None
        case Some(g) => Some(Flow(Either(g.goes, g.ends), f.ends))
  }

  /** One of two arms was evaluated. */
  function OneOf(f: Option<Flow>, g: Option<Flow>): Option<Flow> {
    if f.None? || g.None? then None
    else Some(Flow(Either(f.value.goes, g.value.goes), Either(f.value.ends, g.value.ends)))
  }

  /** Both arms were evaluated; the branch ends only if both do. */
  function Both(f: Flow, g: Option<Flow>): Option<Flow> {
    match g
    case None => None
    case Some(g) =>
      Some(Flow(if f.goes.Some? then Either(g.goes, g.ends) else g.goes, if f.ends.Some? then g.ends else None))
  }
}
