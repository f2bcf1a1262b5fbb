/** What an evaluation does to the branch quota, read off the program it goes through. */
module QuotaTrace {
  import opened Values
  import opened World
  import opened Hir
  import opened Quotas
  import opened Specialiser
  import Evm

  /** A call of `set_eval_branch_quota` asks for a limit, if its argument is known and fits 32 bits. */
  function ExprEvents(st: State, e: HExpr): seq<QuotaEvent> {
    match e
    case HSetQuota(x) =>
      if x in st.bindings && st.bindings[x].Comptime? && st.bindings[x].v.Num? && st.bindings[x].v.n <= U32_MAX
      then [Raise(st.bindings[x].v.n)] else []
    case _ => []
  }

  predicate GoesRound(st: State, c: nat) {
    c in st.bindings && st.bindings[c] == Comptime(Boolean(true))
  }

  /** The events of a block: one `Raise` for each call that asks, one `Spend` each time a loop run by the evaluator goes round. */
  function Events(st: State, b: seq<HInstr>): seq<QuotaEvent>
    requires st.quota.Valid()
    decreases st.quota.Left(), b, 3
  {
    if b == [] then []
    else
      var first := EvalInstr(st, b[0]);
      InstrEvents(st, b[0]) + if first.exit == Fallthrough then Events(first.st, b[1..]) else []
  }

  function InstrEvents(st: State, i: HInstr): seq<QuotaEvent>
    requires st.quota.Valid()
    decreases st.quota.Left(), i, 2
  {
    match i
    case HIf(_, _, _) => IfEvents(st, i)
    case HWhile(_, _, _) => if st.comptime then ComptimeWhileEvents(st, i) else RuntimeWhileEvents(st, i)
    case HComptime(body) => Events(st.(comptime := true), body)
    case _ => ExprEvents(st, i.e)
  }

  /** Both arms of a run-time branch are evaluated, one arm of a known one. */
  function IfEvents(st: State, i: HInstr): seq<QuotaEvent>
    requires i.HIf? && st.quota.Valid()
    decreases st.quota.Left(), i, 1
  {
    if i.condition !in st.bindings then []
    else
      match st.bindings[i.condition]
      case Poison => []
      case Runtime(m) =>
        if !Assignable(TypeAt(st.types, m), TBool) || st.comptime then []
        else
          var st0 := st.(conditional := true);
          Events(st0, i.thenBlock) + Events(EvalBlock(st0, i.thenBlock).st, i.elseBlock)
      case Comptime(v) =>
        if !v.Boolean? then []
        else Events(st.(conditional := false), if v.b then i.thenBlock else i.elseBlock)
  }

  /** A run-time loop is gone through once and costs nothing. */
  function RuntimeWhileEvents(st: State, i: HInstr): seq<QuotaEvent>
    requires i.HWhile? && st.quota.Valid()
    decreases st.quota.Left(), i, 1
  {
    var cb := EvalBlock(st, i.conditionBlock);
    Events(st, i.conditionBlock)
    + if cb.exit != Fallthrough || i.condition !in cb.st.bindings then []
      else
        var c := LoopCondition(cb.st, i.condition);
        if c.value.PoisonV? then [] else Events(c.st, i.body)
  }

  function ComptimeWhileEvents(st: State, i: HInstr): seq<QuotaEvent>
    requires i.HWhile? && st.quota.Valid()
    decreases st.quota.Left(), i, 1
  {
    var cb := EvalBlock(st, i.conditionBlock);
    Events(st, i.conditionBlock)
    + if cb.exit != Fallthrough || !GoesRound(cb.st, i.condition) then []
      else [Spend] + if SpentOne(cb.st.quota).None? then [] else RoundEvents(cb.st.(quota := SpentOne(cb.st.quota).value), i)
  }

  /** One round of the body, and what follows it. */
  function RoundEvents(st: State, i: HInstr): seq<QuotaEvent>
    requires i.HWhile? && st.quota.Valid()
    decreases st.quota.Left(), i, 2
  {
    var body := EvalBlock(st, i.body);
    Events(st, i.body) + if body.exit != Fallthrough then [] else ComptimeWhileEvents(body.st, i)
  }

  /** The quota and the largest limit seen are those of the events, and only a branch that is not allowed exhausts it. */
  ghost predicate Follows(st: State, r: State, exit: Exit, events: seq<QuotaEvent>) {
    && r.quota == Carried(st.quota, events)
    && r.maxSeen == MaxSeen(st.maxSeen, events)
    && (Replayed(st.quota, events).None? ==> r.diagnosed)
    && (exit == QuotaExhausted ==> Replayed(st.quota, events).None?)
  }

  lemma {:induction false} FollowsThen(a: State, b: State, c: State, early: Exit, late: Exit, exit: Exit,
                                       first: seq<QuotaEvent>, second: seq<QuotaEvent>)
    requires Follows(a, b, early, first) && Follows(b, c, late, second)
    requires b.diagnosed ==> c.diagnosed
    requires exit == QuotaExhausted ==> early == QuotaExhausted || late == QuotaExhausted
    ensures Follows(a, c, exit, first + second)
  {
    RunsConcat(a.quota, a.maxSeen, first, second);
    ReplayedIsCarried(a.quota, first);
    hide Carried, Replayed, MaxSeen, Branches;
  }

  lemma {:induction false} FollowsNothing(st: State, r: State, exit: Exit)
    requires r.quota == st.quota && r.maxSeen == st.maxSeen && exit != QuotaExhausted
    ensures Follows(st, r, exit, [])
  {
  }

  lemma SetQuotaFollows(st: State, x: nat)
    requires x in st.bindings
    ensures var es := EvalSetQuota(st, x); Follows(st, es.st, es.exit, ExprEvents(st, HSetQuota(x)))
  {
    var events := ExprEvents(st, HSetQuota(x));
    if events != [] {
      var q := Raised(st.quota, events[0].limit);
      assert events[1..] == [];
      assert Carried(q, []) == q && Replayed(q, []) == Some(q);
    }
  }

  lemma ExprFollows(st: State, e: HExpr)
    ensures var es := EvalExpr(st, e); Follows(st, es.st, es.exit, ExprEvents(st, e))
  {
    var es := EvalExpr(st, e);
    if e.HSetQuota? {
      if e.quota in st.bindings {
        assert AllBound(st, Uses(e)) && Uses(e)[0] == e.quota;
        SetQuotaFollows(st, e.quota);
      } else {
        assert !AllBound(st, Uses(e)) by { assert Uses(e)[0] == e.quota; }
        FollowsNothing(st, es.st, es.exit);
      }
    } else {
      hide Follows, EvalExpr;
      OthersKeepQuota(st, e);
      FollowsNothing(st, es.st, es.exit);
    }
  }

  predicate Costless(st: State, r: State, exit: Exit) {
    r.quota == st.quota && r.maxSeen == st.maxSeen && exit != QuotaExhausted
  }

  lemma EmitCosts(st: State, op: Op, args: seq<nat>, ty: Ty)
    requires AllBound(st, args) && forall i | 0 <= i < |args| :: !st.bindings[args[i]].Poison?
    ensures var es := EmitBuiltin(st, op, args, ty); Costless(st, es.st, es.exit)
  {
    hide MaterialiseAll, Keeps;
  }

  lemma BuiltinCosts(st: State, op: Op, args: seq<nat>)
    requires AllBound(st, args)
    ensures op.Foldable? ==> var es := EvalFoldable(st, op.f, args); Costless(st, es.st, es.exit)
    ensures var es := EvalRuntimeOnly(st, op, args); Costless(st, es.st, es.exit)
  {
    hide EmitBuiltin, ResultType, FoldValue, Keeps, Quiet, Known;
    if ArgTypes(st, args).Some? && ResultType(op, ArgTypes(st, args).value).Some? {
      EmitCosts(st, op, args, ResultType(op, ArgTypes(st, args).value).value);
    }
  }

  lemma NotEqualCosts(st: State, ty: Ty, l: nat, r: nat)
    requires l in st.bindings && r in st.bindings && !st.bindings[l].Poison? && !st.bindings[r].Poison?
    ensures var es := EvalNotEqual(st, ty, l, r); Costless(st, es.st, es.exit)
  {
    hide MaterialiseAll, Keeps, Quiet;
  }

  lemma EqCosts(st: State, l: nat, r: nat)
    requires l in st.bindings && r in st.bindings
    ensures var es := EvalFoldable(st, Evm.Eq, [l, r]); Costless(st, es.st, es.exit)
  {
    hide EvalFoldable, EvalRuntimeOnly;
    BuiltinCosts(st, Foldable(Evm.Eq), [l, r]);
  }

  lemma EqualCosts(st: State, positive: bool, l: nat, r: nat)
    requires l in st.bindings && r in st.bindings
    ensures var es := EvalEqual(st, positive, l, r); Costless(st, es.st, es.exit)
  {
    hide EvalFoldable, EvalNotEqual, Keeps, Quiet, BindingType;
    EqCosts(st, l, r);
    if !st.bindings[l].Poison? && !st.bindings[r].Poison? { NotEqualCosts(st, BindingType(st, st.bindings[l]), l, r); }
  }

  lemma LiteralCosts(st: State, t: nat, lits: seq<LitField>)
    requires t in st.bindings && forall i | 0 <= i < |lits| :: lits[i].value in st.bindings
    ensures var es := EvalStructLit(st, t, lits); Costless(st, es.st, es.exit)
  {
    hide LitFields, LitChecks, Keeps, Quiet;
  }

  lemma OthersKeepQuota(st: State, e: HExpr)
    requires !e.HSetQuota?
    ensures var es := EvalExpr(st, e); Costless(st, es.st, es.exit)
  {
    hide EvalFoldable, EvalRuntimeOnly, EvalEqual, EvalStructLit, Keeps, Quiet;
    if AllBound(st, Uses(e)) {
      match e
      case HBuiltin(op, args) => BuiltinCosts(st, op, args);
      case HEqual(positive, l, r) =>
        assert Uses(e)[0] == l && Uses(e)[1] == r;
        EqualCosts(st, positive, l, r);
      case HStructLit(t, lits) =>
        assert Uses(e)[0] == t;
        assert forall i | 0 <= i < |lits| :: lits[i].value == Uses(e)[i + 1];
        LiteralCosts(st, t, lits);
      case HLocal(x) => assert Uses(e)[0] == x;
      case HNot(x) => assert Uses(e)[0] == x;
      case HMember(obj, _) => assert Uses(e)[0] == obj;
      case _ =>
    }
  }

  lemma BindingCosts(st: State, x: nat, value: EvalValue)
    ensures Costless(st, BindComptime(st, x, value), Fallthrough)
    ensures !value.ComptimeV? ==> var r := BindFresh(st, x, value); Costless(st, r.st, r.exit)
    ensures !value.ComptimeV? && x in st.bindings ==> var r := Rejoin(st, x, value); Costless(st, r.st, r.exit)
    ensures Costless(st, ToRuntime(st, value).st, Fallthrough)
  {
    hide StepKeeps, ComptimeOnly, Unify;
  }

  /** Storing a value costs nothing. */
  lemma StoresCost(st: State, x: nat, value: EvalValue)
    ensures var r := StoreSet(st, x, value); Costless(st, r.st, r.exit)
    ensures var r := StoreMut(st, x, value); Costless(st, r.st, r.exit)
    ensures var r := StoreBranch(st, x, value); Costless(st, r.st, r.exit)
    ensures x in st.bindings ==> var r := AssignChecked(st, x, value); Costless(st, r.st, r.exit)
  {
    BindingCosts(st, x, value);
    var c := ToRuntime(st, value);
    BindingCosts(c.st, x, c.value);
    if x in st.bindings { AssignCosts(st, x, value); }
    hide StepKeeps, Quiet, BindComptime, BindFresh, Rejoin, ToRuntime, AssignChecked;
  }

  lemma AssignCosts(st: State, x: nat, value: EvalValue)
    requires x in st.bindings
    ensures var r := AssignChecked(st, x, value); Costless(st, r.st, r.exit)
  {
    hide StepKeeps, Quiet, ComptimeOnly, Assignable;
  }

  lemma {:induction false} SimpleFollows(st: State, i: HInstr)
    requires !i.HIf? && !i.HWhile? && !i.HComptime?
    ensures var r := EvalSimple(st, i); Follows(st, r.st, r.exit, ExprEvents(st, i.e))
  {
    ExprFollows(st, i.e);
    hide EvalExpr, StoreSet, StoreMut, StoreBranch, AssignChecked, StepKeeps, Quiet, Follows, ExprEvents, Keeps;
    var es, r := EvalExpr(st, i.e), EvalSimple(st, i);
    assert es.st.diagnosed ==> r.st.diagnosed by { DiagnosedStays(st, i); }
    CostsNothing(st, i);
    assert ExprEvents(st, i.e) + [] == ExprEvents(st, i.e);
    FollowsNothing(es.st, r.st, if r.exit == QuotaExhausted then Fallthrough else r.exit);
    FollowsThen(st, es.st, r.st, es.exit, if r.exit == QuotaExhausted then Fallthrough else r.exit, r.exit, ExprEvents(st, i.e), []);
  }

  lemma {:induction false} DiagnosedStays(st: State, i: HInstr)
    requires !i.HIf? && !i.HWhile? && !i.HComptime?
    ensures EvalExpr(st, i.e).st.diagnosed ==> EvalSimple(st, i).st.diagnosed
  {
    hide EvalExpr, StoreSet, StoreMut, StoreBranch, AssignChecked, Quiet;
  }

  /** After its expression an instruction leaves the quota alone. */
  lemma {:induction false} CostsNothing(st: State, i: HInstr)
    requires !i.HIf? && !i.HWhile? && !i.HComptime?
    ensures var es, r := EvalExpr(st, i.e), EvalSimple(st, i);
            && r.st.quota == es.st.quota && r.st.maxSeen == es.st.maxSeen
            && (r.exit == QuotaExhausted ==> es.exit == QuotaExhausted)
  {
    hide EvalExpr, StoreSet, StoreMut, StoreBranch, AssignChecked, StepKeeps, Quiet;
    var es := EvalExpr(st, i.e);
    match i
    case HSet(x, ty, _) => if ty.Some? ==> ty.value in es.st.bindings { AnnotatedCost(es.st, x, ty, es.value); }
    case HSetMut(x, ty, _) => if ty.Some? ==> ty.value in es.st.bindings { AnnotatedCost(es.st, x, ty, es.value); }
    case HBranchSet(x, _) =>
      AnnotatedCost(es.st, x, None, es.value);
      StoresCost(es.st, x, es.value);
    case HAssign(x, _) => StoresCost(es.st, x, es.value);
    case HEval(_) =>
  }

  lemma AnnotatedCost(st: State, x: nat, ty: Option<nat>, value: EvalValue)
    requires ty.Some? ==> ty.value in st.bindings
    ensures var c := CheckAnnotation(st, ty, value);
            && (var r := StoreSet(c.st, x, c.value); Costless(st, r.st, r.exit))
            && (var r := StoreMut(c.st, x, c.value); Costless(st, r.st, r.exit))
  {
    hide StoreSet, StoreMut, StoreBranch, AssignChecked;
    var c := CheckAnnotation(st, ty, value);
    StoresCost(c.st, x, c.value);
  }

  /**
   * The quota an evaluation leaves and the largest limit it saw are those of its events; it has run out exactly where
   * the events, one after the other, do.
   */
  lemma {:induction false} QuotaFollowsEvents(st: State, b: seq<HInstr>)
    requires st.quota.Valid()
    ensures var r := EvalBlock(st, b); Follows(st, r.st, r.exit, Events(st, b))
    decreases st.quota.Left(), b, 3
  {
    hide EvalInstr, InstrEvents, Follows;
    if b == [] {
      FollowsNothing(st, st, Fallthrough);
    } else {
      var first := EvalInstr(st, b[0]);
      InstrFollows(st, b[0]);
      if first.exit == Fallthrough {
        QuotaFollowsEvents(first.st, b[1..]);
        var rest := EvalBlock(first.st, b[1..]);
        FollowsThen(st, first.st, rest.st, first.exit, rest.exit, rest.exit, InstrEvents(st, b[0]), Events(first.st, b[1..]));
      } else {
        assert InstrEvents(st, b[0]) + [] == InstrEvents(st, b[0]);
      }
    }
  }

  lemma {:induction false} InstrFollows(st: State, i: HInstr)
    requires st.quota.Valid()
    ensures var r := EvalInstr(st, i); Follows(st, r.st, r.exit, InstrEvents(st, i))
    decreases st.quota.Left(), i, 2
  {
    hide EvalBlock, EvalIf, EvalSimple, EvalRuntimeWhile, EvalComptimeWhile, Events, IfEvents, ComptimeWhileEvents,
      RuntimeWhileEvents, ExprEvents;
    match i
    case HIf(_, _, _) => IfFollows(st, i);
    case HWhile(_, _, _) => if st.comptime { ComptimeWhileFollows(st, i); } else { RuntimeWhileFollows(st, i); }
    case HComptime(body) => QuotaFollowsEvents(st.(comptime := true), body);
    case _ => SimpleFollows(st, i);
  }

  lemma FollowsRest(st: State, r: State, r': State, exit: Exit, exit': Exit, events: seq<QuotaEvent>)
    requires Follows(st, r, exit, events) && r'.quota == r.quota && r'.maxSeen == r.maxSeen && (r.diagnosed ==> r'.diagnosed)
    requires exit' == QuotaExhausted ==> exit == QuotaExhausted
    ensures Follows(st, r', exit', events)
  {
  }

  lemma {:induction false} IfFollows(st: State, i: HInstr)
    requires i.HIf? && st.quota.Valid()
    ensures var r := EvalIf(st, i); Follows(st, r.st, r.exit, IfEvents(st, i))
    decreases st.quota.Left(), i, 1
  {
    hide EvalBlock, Events, Follows, Joins;
    var r := EvalIf(st, i);
    if i.condition !in st.bindings || st.bindings[i.condition].Poison? {
      FollowsNothing(st, r.st, r.exit);
    } else {
      match st.bindings[i.condition]
      case Runtime(m) =>
        if !Assignable(TypeAt(st.types, m), TBool) || st.comptime {
          FollowsNothing(st, r.st, r.exit);
        } else {
          var st0 := st.(conditional := true);
          var t := EvalBlock(st0, i.thenBlock);
          var e := EvalBlock(t.st, i.elseBlock);
          QuotaFollowsEvents(st0, i.thenBlock);
          QuotaFollowsEvents(t.st, i.elseBlock);
          FollowsThen(st0, t.st, e.st, t.exit, e.exit, r.exit, Events(st0, i.thenBlock), Events(t.st, i.elseBlock));
          SameStart(st0, st, e.st, r.st, r.exit, Events(st0, i.thenBlock) + Events(t.st, i.elseBlock));
        }
      case Comptime(v) =>
        if !v.Boolean? {
          FollowsNothing(st, r.st, r.exit);
        } else {
          var st0, arm := st.(conditional := false), if v.b then i.thenBlock else i.elseBlock;
          QuotaFollowsEvents(st0, arm);
          SameStart(st0, st, EvalBlock(st0, arm).st, r.st, r.exit, Events(st0, arm));
        }
    }
  }

  lemma SameStart(a: State, b: State, c: State, d: State, exit: Exit, events: seq<QuotaEvent>)
    requires Follows(a, c, exit, events) && a.quota == b.quota && a.maxSeen == b.maxSeen
    requires c.quota == d.quota && c.maxSeen == d.maxSeen && c.diagnosed == d.diagnosed
    ensures Follows(b, d, exit, events)
  {
  }

  lemma {:induction false} RuntimeWhileFollows(st: State, i: HInstr)
    requires i.HWhile? && !st.comptime && st.quota.Valid()
    ensures var r := EvalRuntimeWhile(st, i); Follows(st, r.st, r.exit, RuntimeWhileEvents(st, i))
    decreases st.quota.Left(), i, 1
  {
    hide EvalBlock, Events, Follows;
    var cb, r := EvalBlock(st, i.conditionBlock), EvalRuntimeWhile(st, i);
    var first := Events(st, i.conditionBlock);
    QuotaFollowsEvents(st, i.conditionBlock);
    assert first + [] == first;
    if cb.exit != Fallthrough || i.condition !in cb.st.bindings {
      FollowsRest(st, cb.st, r.st, cb.exit, r.exit, first);
    } else {
      var c := LoopCondition(cb.st, i.condition);
      FollowsRest(st, cb.st, c.st, cb.exit, Fallthrough, first) by { ConditionCosts(cb.st, i.condition); }
      if c.value.PoisonV? {
        FollowsRest(st, c.st, r.st, Fallthrough, r.exit, first);
      } else {
        QuotaFollowsEvents(c.st, i.body);
        hide LoopCondition;
        var body := EvalBlock(c.st, i.body);
        FollowsThen(st, c.st, body.st, Fallthrough, body.exit, r.exit, first, Events(c.st, i.body));
      }
    }
  }

  lemma ConditionCosts(st: State, c: nat)
    ensures var l := LoopCondition(st, c);
            l.st.quota == st.quota && l.st.maxSeen == st.maxSeen && (st.diagnosed ==> l.st.diagnosed)
  {
  }

  lemma {:induction false} ComptimeWhileFollows(st: State, i: HInstr)
    requires i.HWhile? && st.comptime && st.quota.Valid()
    ensures var r := EvalComptimeWhile(st, i); Follows(st, r.st, r.exit, ComptimeWhileEvents(st, i))
    decreases st.quota.Left(), i, 1
  {
    hide EvalBlock, Events, Follows, LoopDecision, RoundEvents;
    var cb, r := EvalBlock(st, i.conditionBlock), EvalComptimeWhile(st, i);
    var first := Events(st, i.conditionBlock);
    QuotaFollowsEvents(st, i.conditionBlock);
    assert first + [] == first;
    if cb.exit == Fallthrough {
      DecisionFollows(cb.st, i.condition);
      var d := LoopDecision(cb.st, i.condition);
      if GoesRound(cb.st, i.condition) {
        assert [Spend] + [] == [Spend];
        if d.Go? {
          RoundFollows(d.st, i);
          var body := EvalBlock(d.st, i.body);
          FollowsThen(cb.st, d.st, r.st, Fallthrough, r.exit, r.exit, [Spend], RoundEvents(d.st, i));
          FollowsThen(st, cb.st, r.st, cb.exit, r.exit, r.exit, first, [Spend] + RoundEvents(d.st, i));
        } else {
          FollowsThen(st, cb.st, r.st, cb.exit, r.exit, r.exit, first, [Spend]);
        }
      } else {
        FollowsThen(st, cb.st, r.st, cb.exit, r.exit, r.exit, first, []);
      }
    }
  }

  /** Going round costs one branch, and only where the condition is known to hold. */
  lemma DecisionFollows(st: State, c: nat)
    requires st.quota.Valid()
    ensures var d := LoopDecision(st, c);
            && (d.Go? <==> GoesRound(st, c) && SpentOne(st.quota).Some?)
            && (d.Go? ==> d.st == st.(quota := SpentOne(st.quota).value))
            && Follows(st, d.st, if d.Stop? then d.exit else Fallthrough, if GoesRound(st, c) then [Spend] else [])
  {
    var none: seq<QuotaEvent> := [Spend][1..];
    assert none == [];
    assert Carried(st.quota, []) == st.quota;
    if SpentOne(st.quota).Some? { assert Carried(SpentOne(st.quota).value, none) == SpentOne(st.quota).value; }
  }

  lemma {:induction false} RoundFollows(st: State, i: HInstr)
    requires i.HWhile? && st.comptime && st.quota.Valid()
    ensures var body := EvalBlock(st, i.body);
            var r := if body.exit != Fallthrough then body else EvalComptimeWhile(body.st, i);
            Follows(st, r.st, r.exit, RoundEvents(st, i))
    decreases st.quota.Left(), i, 2
  {
    hide EvalBlock, Events, Follows, EvalComptimeWhile, ComptimeWhileEvents;
    var body := EvalBlock(st, i.body);
    QuotaFollowsEvents(st, i.body);
    if body.exit == Fallthrough {
      ComptimeWhileFollows(body.st, i);
      var r := EvalComptimeWhile(body.st, i);
      FollowsThen(st, body.st, r.st, body.exit, r.exit, r.exit, Events(st, i.body), ComptimeWhileEvents(body.st, i));
    } else {
      assert Events(st, i.body) + [] == Events(st, i.body);
    }
  }

  /**
   * What a call is cached with, if it did not run out: the branches it took are the ones counted, and the largest limit
   * is the one seen, the default being there from the start.
   */
  lemma {:induction false} SummaryIsOfEvents(st: State, b: seq<HInstr>)
    requires st.quota.Valid() && st.maxSeen == DEFAULT_COMPTIME_BRANCH_QUOTA && !EvalBlock(st, b).st.diagnosed
    ensures var r, events := EvalBlock(st, b).st, Events(st, b);
            && Some(r.quota) == Replayed(st.quota, events)
            && r.quota.spent - st.quota.spent == Branches(events)
            && r.maxSeen == MaxSeen(DEFAULT_COMPTIME_BRANCH_QUOTA, events)
  {
    QuotaFollowsEvents(st, b);
    hide EvalBlock, Events;
    ReplayedIsCarried(st.quota, Events(st, b));
    ReplayedCounts(st.quota, Events(st, b));
  }

  lemma {:induction false} ReplayedCounts(q: Quota, events: seq<QuotaEvent>)
    requires Replayed(q, events).Some?
    ensures Replayed(q, events).value.spent == q.spent + Branches(events)
    decreases |events|
  {
    if events == [] {
    } else if events[0].Raise? {
      ReplayedCounts(Raised(q, events[0].limit), events[1..]);
    } else {
      ReplayedCounts(SpentOne(q).value, events[1..]);
    }
  }
}
