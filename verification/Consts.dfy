/** Memoised evaluation of constants that refer to each other, with detection of cycles. */
module Consts {
  import opened Values

  /** What a use of a constant sees: a value, or poison. */
  type Answer = Option<nat>

  /** How the body of a constant ends. */
  datatype Outcome = Finished(a: Answer) | QuotaExhausted | Diverged

  datatype Action = Ask(id: nat) | End(o: Outcome)

  /**
   * The body of a constant, as the evaluator sees it: what it does next depends on the answers it got so far, and it
   * asks no more than `limit` questions.
   */
  datatype Body = Body(next: seq<Answer> -> Action, limit: nat)

  datatype Entry = Vacant | InProgress | Done(r: ConstResult)

  datatype ConstResult = Value(v: nat) | Poisoned | Exhausted

  function AnswerOf(r: ConstResult): Answer {
    match r
    case Value(v) => Some(v)
    case _ => None
  }

  function ActionAfter(body: Body, answers: seq<Answer>): Action {
    if |answers| < body.limit then body.next(answers)
    else
      match body.next(answers)
      case End(o) => End(o)
      case Ask(_) => End(Diverged)
  }

  ghost predicate WfDefs(defs: seq<Body>) {
    forall i, answers | 0 <= i < |defs| && ActionAfter(defs[i], answers).Ask? ::
      ActionAfter(defs[i], answers).id < |defs|
  }

  function VacantCount(memo: seq<Entry>): nat {
    if memo == [] then 0 else VacantCount(memo[..|memo| - 1]) + if memo[|memo| - 1].Vacant? then 1 else 0
  }

  /** How an evaluation may change the table: finished entries stay, and running ones can only be poisoned. */
  predicate Evolves(a: seq<Entry>, b: seq<Entry>) {
    && |a| == |b|
    && forall i | 0 <= i < |a| ::
        match a[i]
        case Done(_) => b[i] == a[i]
        case InProgress => b[i] == InProgress || b[i] == Done(Poisoned)
        case Vacant => !b[i].InProgress?
  }

  lemma {:induction false} FewerVacant(a: seq<Entry>, b: seq<Entry>)
    requires |a| == |b| && forall i | 0 <= i < |a| :: b[i].Vacant? ==> a[i].Vacant?
    ensures VacantCount(b) <= VacantCount(a)
    ensures (exists i | 0 <= i < |a| :: a[i].Vacant? && !b[i].Vacant?) ==> VacantCount(b) < VacantCount(a)
    decreases |a|
  {
    if a != [] { FewerVacant(a[..|a| - 1], b[..|a| - 1]); }
  }

  function Begin(memo: seq<Entry>, id: nat): (m: seq<Entry>)
    requires id < |memo| && memo[id].Vacant?
    ensures VacantCount(m) < VacantCount(memo)
  {
    FewerVacant(memo, memo[id := InProgress]);
    memo[id := InProgress]
  }

  /** The evaluator: the table after a use of a constant, and what the use sees. */
  function EvalConst(defs: seq<Body>, memo: seq<Entry>, id: nat): (r: (seq<Entry>, Answer))
    requires WfDefs(defs) && |memo| == |defs| && id < |defs|
    ensures Evolves(memo, r.0) && r.0[id].Done? && VacantCount(r.0) <= VacantCount(memo)
    decreases VacantCount(memo), 0
  {
    match memo[id]
    case Done(r) => (memo, AnswerOf(r))
    case InProgress =>
      FewerVacant(memo, memo[id := Done(Poisoned)]);
      (memo[id := Done(Poisoned)], None)
    case Vacant =>
      var body := RunBody(defs, Begin(memo, id), id, []);
      FewerVacant(memo, Close(body.0, id, body.1).0);
      Close(body.0, id, body.1)
  }

  function RunBody(defs: seq<Body>, memo: seq<Entry>, id: nat, answers: seq<Answer>): (r: (seq<Entry>, Outcome))
    requires WfDefs(defs) && |memo| == |defs| && id < |defs|
    ensures Evolves(memo, r.0) && VacantCount(r.0) <= VacantCount(memo)
    decreases VacantCount(memo), 1 + if |answers| < defs[id].limit then defs[id].limit - |answers| else 0
  {
    match ActionAfter(defs[id], answers)
    case End(o) => (memo, o)
    case Ask(c) =>
      var asked := EvalConst(defs, memo, c);
      RunBody(defs, asked.0, id, answers + [asked.1])
  }

  /** The end of an evaluation: a poisoned entry stays, even though the body's own result is handed back. */
  function Close(memo: seq<Entry>, id: nat, o: Outcome): (seq<Entry>, Answer)
    requires id < |memo|
  {
    match o
    case QuotaExhausted => (memo[id := Done(Exhausted)], None)
    case Diverged => (memo[id := Done(Poisoned)], None)
    case Finished(a) =>
      if memo[id] == Done(Poisoned) then (memo, a)
      else (memo[id := Done(if a.Some? then Value(a.value) else Poisoned)], a)
  }

  // ----- cycles -----

  /** While a body runs its entry is in progress or already poisoned, so no other state can be met at its end. */
  lemma {:induction false} EntryWhileRunning(defs: seq<Body>, memo: seq<Entry>, id: nat)
    requires WfDefs(defs) && |memo| == |defs| && id < |defs| && memo[id].Vacant?
    ensures var e := RunBody(defs, Begin(memo, id), id, []).0[id]; e == InProgress || e == Done(Poisoned)
  {
    hide RunBody;
    assert Evolves(Begin(memo, id), RunBody(defs, Begin(memo, id), id, []).0);
  }

  /** The constants asked for while the rest of a body runs, by it and by all the bodies it starts, in order. */
  function AskedBy(defs: seq<Body>, memo: seq<Entry>, id: nat, answers: seq<Answer>): seq<nat>
    requires WfDefs(defs) && |memo| == |defs| && id < |defs|
    decreases VacantCount(memo), 1 + if |answers| < defs[id].limit then defs[id].limit - |answers| else 0
  {
    match ActionAfter(defs[id], answers)
    case End(_) => []
    case Ask(c) =>
      var asked := EvalConst(defs, memo, c);
      var inside := if memo[c].Vacant? then AskedBy(defs, Begin(memo, c), c, []) else [];
      [c] + inside + AskedBy(defs, asked.0, id, answers + [asked.1])
  }

  /** The constants asked for, at any depth, while a constant is evaluated for the first time. */
  function AskedIn(defs: seq<Body>, memo: seq<Entry>, id: nat): seq<nat>
    requires WfDefs(defs) && |memo| == |defs| && id < |defs| && memo[id].Vacant?
  {
    AskedBy(defs, Begin(memo, id), id, [])
  }

  /** A use of another constant leaves the table of a running one as the body of that other constant left it. */
  lemma {:induction false} UseOfOther(defs: seq<Body>, memo: seq<Entry>, c: nat, p: nat)
    requires WfDefs(defs) && |memo| == |defs| && c < |defs| && p < |defs| && p != c
    ensures EvalConst(defs, memo, c).0[p]
            == if memo[c].Vacant? then RunBody(defs, Begin(memo, c), c, []).0[p] else memo[p]
  {
    hide RunBody;
  }

  /** A running constant is poisoned exactly by being asked for. */
  lemma {:induction false} PoisonedIffAsked(defs: seq<Body>, memo: seq<Entry>, id: nat, answers: seq<Answer>, p: nat)
    requires WfDefs(defs) && |memo| == |defs| && id < |defs| && p < |defs| && memo[p].InProgress?
    ensures RunBody(defs, memo, id, answers).0[p] != InProgress <==> p in AskedBy(defs, memo, id, answers)
    decreases VacantCount(memo), 1 + if |answers| < defs[id].limit then defs[id].limit - |answers| else 0
  {
    hide EvalConst, WfDefs;
    match ActionAfter(defs[id], answers)
    case End(_) =>
    case Ask(c) =>
      AskInRange(defs, id, answers);
      var asked := EvalConst(defs, memo, c);
      assert Evolves(asked.0, RunBody(defs, asked.0, id, answers + [asked.1]).0);
      if p != c {
        UseOfOther(defs, memo, c, p);
        if memo[c].Vacant? {
          PoisonedIffAsked(defs, Begin(memo, c), c, [], p);
        }
        if asked.0[p].InProgress? {
          PoisonedIffAsked(defs, asked.0, id, answers + [asked.1], p);
        }
      }
  }

  lemma AskInRange(defs: seq<Body>, id: nat, answers: seq<Answer>)
    requires WfDefs(defs) && id < |defs| && ActionAfter(defs[id], answers).Ask?
    ensures ActionAfter(defs[id], answers).id < |defs| && |answers| < defs[id].limit
  {
  }

  /** A first evaluation records a value exactly if the constant is not asked for in it and it gives a value. */
  lemma {:induction false} ValueRecordedIff(defs: seq<Body>, memo: seq<Entry>, id: nat)
    requires WfDefs(defs) && |memo| == |defs| && id < |defs| && memo[id].Vacant?
    ensures EvalConst(defs, memo, id).0[id].r.Value?
            <==> (id !in AskedIn(defs, memo, id) && EvalConst(defs, memo, id).1.Some?)
    ensures EvalConst(defs, memo, id).0[id].r.Exhausted? <==> RunBody(defs, Begin(memo, id), id, []).1.QuotaExhausted?
  {
    PoisonedIffAsked(defs, Begin(memo, id), id, [], id);
    EntryWhileRunning(defs, memo, id);
    hide RunBody, AskedBy;
  }

  /**
   * The call that evaluates a constant and every later call agree if and only if the constant is not asked for while
   * it is evaluated, or the first call sees no value either.
   */
  lemma {:induction false} FirstCallAgreesIff(defs: seq<Body>, memo: seq<Entry>, id: nat, later: seq<Entry>)
    requires WfDefs(defs) && |memo| == |defs| && id < |defs| && memo[id].Vacant?
    requires Evolves(EvalConst(defs, memo, id).0, later)
    ensures EvalConst(defs, later, id).1 == EvalConst(defs, memo, id).1
            <==> (id !in AskedIn(defs, memo, id) || EvalConst(defs, memo, id).1.None?)
  {
    PoisonedIffAsked(defs, Begin(memo, id), id, [], id);
    EntryWhileRunning(defs, memo, id);
    hide RunBody, AskedBy;
    var body := RunBody(defs, Begin(memo, id), id, []);
    assert EvalConst(defs, memo, id) == Close(body.0, id, body.1);
    assert later[id] == EvalConst(defs, memo, id).0[id];
  }

  // ----- cycles in the dependency graph -----

  /** Answers after which a body is still asking, at every step on the way. */
  ghost predicate Course(body: Body, answers: seq<Answer>) {
    forall j | 0 <= j < |answers| :: ActionAfter(body, answers[..j]).Ask?
  }

  /** One constant refers to another: on some course its body asks for it. */
  ghost predicate RefersTo(defs: seq<Body>, i: nat, c: nat) {
    i < |defs| && exists answers :: Course(defs[i], answers) && ActionAfter(defs[i], answers) == Ask(c)
  }

  /** A path of references whose inner nodes have not been evaluated yet. */
  ghost predicate Path(defs: seq<Body>, memo: seq<Entry>, p: seq<nat>) {
    && |p| >= 2
    && (forall k | 0 <= k < |p| - 1 :: RefersTo(defs, p[k], p[k + 1]))
    && (forall k | 0 < k < |p| - 1 :: p[k] < |memo| && memo[p[k]].Vacant?)
  }

  ghost predicate Leads(defs: seq<Body>, memo: seq<Entry>, a: nat, b: nat) {
    exists p :: Path(defs, memo, p) && p[0] == a && p[|p| - 1] == b
  }

  /** The constant lies on a cycle of references through constants that have not been evaluated yet. */
  ghost predicate OnCycle(defs: seq<Body>, memo: seq<Entry>, id: nat)
    requires id < |memo| && memo[id].Vacant?
  {
    Leads(defs, Begin(memo, id), id, id)
  }

  lemma PathGrows(defs: seq<Body>, memo: seq<Entry>, later: seq<Entry>, a: nat, c: nat, b: nat)
    requires Leads(defs, later, c, b) && |later| == |memo|
    requires forall i | 0 <= i < |memo| :: later[i].Vacant? ==> memo[i].Vacant?
    ensures c < |memo| && memo[c].Vacant? && RefersTo(defs, a, c) ==> Leads(defs, memo, a, b)
    ensures Leads(defs, memo, c, b)
  {
    hide RefersTo;
    var p :| Path(defs, later, p) && p[0] == c && p[|p| - 1] == b;
    assert Path(defs, memo, p);
    if c < |memo| && memo[c].Vacant? && RefersTo(defs, a, c) {
      var q := [a] + p;
      forall k | 0 <= k < |q| - 1 ensures RefersTo(defs, q[k], q[k + 1]) {
        if k > 0 { assert q[k] == p[k - 1] && q[k + 1] == p[k]; }
      }
      forall k | 0 < k < |q| - 1 ensures q[k] < |memo| && memo[q[k]].Vacant? {
        assert q[k] == p[k - 1];
      }
      assert Path(defs, memo, q);
    }
  }

  lemma {:induction false} CourseGoesOn(body: Body, answers: seq<Answer>, a: Answer)
    requires Course(body, answers) && ActionAfter(body, answers).Ask?
    ensures Course(body, answers + [a])
  {
    var longer := answers + [a];
    forall j | 0 <= j < |longer| ensures ActionAfter(body, longer[..j]).Ask? {
      if j < |answers| { assert longer[..j] == answers[..j]; } else { assert longer[..j] == answers; }
    }
  }

  /** Whatever is asked for is reached by a path. */
  lemma {:induction false} AskedIsReached(defs: seq<Body>, memo: seq<Entry>, id: nat, answers: seq<Answer>, b: nat)
    requires WfDefs(defs) && |memo| == |defs| && id < |defs| && Course(defs[id], answers)
    requires b in AskedBy(defs, memo, id, answers)
    ensures Leads(defs, memo, id, b)
    decreases VacantCount(memo), 1 + if |answers| < defs[id].limit then defs[id].limit - |answers| else 0
  {
    hide EvalConst, WfDefs, Course, Leads;
    AskInRange(defs, id, answers);
    var c := ActionAfter(defs[id], answers).id;
    var asked := EvalConst(defs, memo, c);
    assert RefersTo(defs, id, c);
    if b == c {
      OneStep(defs, memo, id, c);
    } else if memo[c].Vacant? && b in AskedBy(defs, Begin(memo, c), c, []) {
      assert Course(defs[c], []) by { NoAnswers(defs[c]); }
      AskedIsReached(defs, Begin(memo, c), c, [], b);
      hide RefersTo;
      PathGrows(defs, memo, Begin(memo, c), id, c, b);
    } else {
      CourseGoesOn(defs[id], answers, asked.1);
      AskedIsReached(defs, asked.0, id, answers + [asked.1], b);
      hide RefersTo;
      PathGrows(defs, memo, asked.0, id, id, b);
    }
  }

  lemma NoAnswers(body: Body)
    ensures Course(body, [])
  {
  }

  lemma OneStep(defs: seq<Body>, memo: seq<Entry>, a: nat, b: nat)
    requires RefersTo(defs, a, b)
    ensures Leads(defs, memo, a, b)
  {
    hide RefersTo;
    var p := [a, b];
    assert p[0] == a && p[1] == b;
    assert Path(defs, memo, p);
  }

  /** What a body asks for depends on how far it got and not on the answers. */
  ghost predicate Straight(defs: seq<Body>) {
    forall i, a, b | 0 <= i < |defs| && |a| == |b| ::
      ActionAfter(defs[i], a).Ask? || ActionAfter(defs[i], b).Ask? ==>
        ActionAfter(defs[i], a) == ActionAfter(defs[i], b)
  }

  lemma Reference(defs: seq<Body>, i: nat, c: nat) returns (answers: seq<Answer>)
    requires RefersTo(defs, i, c)
    ensures i < |defs| && Course(defs[i], answers) && ActionAfter(defs[i], answers) == Ask(c)
  {
    answers :| Course(defs[i], answers) && ActionAfter(defs[i], answers) == Ask(c);
  }

  /** A straight body asks for everything it refers to. */
  lemma {:induction false} ReferredIsAsked(defs: seq<Body>, memo: seq<Entry>, id: nat, answers: seq<Answer>,
                                           w: seq<Answer>, c: nat)
    requires WfDefs(defs) && Straight(defs) && |memo| == |defs| && id < |defs|
    requires |w| >= |answers| && Course(defs[id], w) && ActionAfter(defs[id], w) == Ask(c)
    ensures c in AskedBy(defs, memo, id, answers)
    decreases |w| - |answers|
  {
    hide EvalConst, WfDefs;
    assert ActionAfter(defs[id], w[..|answers|]).Ask? by { assert w[..|w|] == w; }
    assert ActionAfter(defs[id], answers).Ask?;
    AskInRange(defs, id, answers);
    if |w| > |answers| {
      var asked := EvalConst(defs, memo, ActionAfter(defs[id], answers).id);
      ReferredIsAsked(defs, asked.0, id, answers + [asked.1], w, c);
    }
  }

  /** A constant that was begun while a body ran asked for everything it refers to. */
  lemma {:induction false} BegunAsked(defs: seq<Body>, memo: seq<Entry>, id: nat, answers: seq<Answer>, d: nat, c: nat)
    requires WfDefs(defs) && Straight(defs) && |memo| == |defs| && id < |defs| && d < |defs| && RefersTo(defs, d, c)
    requires memo[d].Vacant? && !RunBody(defs, memo, id, answers).0[d].Vacant?
    ensures c in AskedBy(defs, memo, id, answers)
    decreases VacantCount(memo), 1 + if |answers| < defs[id].limit then defs[id].limit - |answers| else 0
  {
    hide EvalConst, WfDefs, Straight, RefersTo;
    AskInRange(defs, id, answers);
    var e := ActionAfter(defs[id], answers).id;
    var asked := EvalConst(defs, memo, e);
    if d == e {
      var w := Reference(defs, d, c);
      ReferredIsAsked(defs, Begin(memo, d), d, [], w, c);
    } else {
      UseOfOther(defs, memo, e, d);
      if asked.0[d].Vacant? {
        BegunAsked(defs, asked.0, id, answers + [asked.1], d, c);
      } else {
        BegunAsked(defs, Begin(memo, e), e, [], d, c);
      }
    }
  }

  /** What was asked for has been begun. */
  lemma {:induction false} AskedIsBegun(defs: seq<Body>, memo: seq<Entry>, id: nat, answers: seq<Answer>, c: nat)
    requires WfDefs(defs) && |memo| == |defs| && id < |defs| && c in AskedBy(defs, memo, id, answers)
    ensures c < |defs| && !RunBody(defs, memo, id, answers).0[c].Vacant?
    decreases VacantCount(memo), 1 + if |answers| < defs[id].limit then defs[id].limit - |answers| else 0
  {
    hide EvalConst, WfDefs;
    AskInRange(defs, id, answers);
    var e := ActionAfter(defs[id], answers).id;
    var asked := EvalConst(defs, memo, e);
    assert Evolves(asked.0, RunBody(defs, asked.0, id, answers + [asked.1]).0);
    if c != e {
      if memo[e].Vacant? && c in AskedBy(defs, Begin(memo, e), e, []) {
        AskedIsBegun(defs, Begin(memo, e), e, [], c);
        UseOfOther(defs, memo, e, c);
      } else {
        AskedIsBegun(defs, asked.0, id, answers + [asked.1], c);
      }
    }
  }

  /** Every node on a path from a constant is asked for while it is evaluated. */
  lemma {:induction false} PathIsAsked(defs: seq<Body>, memo: seq<Entry>, id: nat, p: seq<nat>, k: nat)
    requires WfDefs(defs) && Straight(defs) && |memo| == |defs| && id < |defs|
    requires Path(defs, memo, p) && p[0] == id && 0 < k < |p|
    ensures p[k] in AskedBy(defs, memo, id, [])
    decreases k
  {
    hide WfDefs, Straight, RefersTo, AskedBy, RunBody;
    assert RefersTo(defs, p[k - 1], p[k]);
    if k == 1 {
      var w := Reference(defs, id, p[1]);
      ReferredIsAsked(defs, memo, id, [], w, p[1]);
    } else {
      PathIsAsked(defs, memo, id, p, k - 1);
      AskedIsBegun(defs, memo, id, [], p[k - 1]);
      BegunAsked(defs, memo, id, [], p[k - 1], p[k]);
    }
  }

  /**
   * A constant that is asked for while it is evaluated lies on a cycle of references through unevaluated constants, and
   * if bodies are straight every constant on such a cycle is.
   */
  lemma {:induction false} AskedIffOnCycle(defs: seq<Body>, memo: seq<Entry>, id: nat)
    requires WfDefs(defs) && |memo| == |defs| && id < |defs| && memo[id].Vacant?
    ensures id in AskedIn(defs, memo, id) ==> OnCycle(defs, memo, id)
    ensures Straight(defs) ==> (id in AskedIn(defs, memo, id) <==> OnCycle(defs, memo, id))
  {
    hide WfDefs, Straight, RefersTo, AskedBy;
    var m := Begin(memo, id);
    if id in AskedIn(defs, memo, id) {
      NoAnswers(defs[id]);
      AskedIsReached(defs, m, id, [], id);
    }
    if Straight(defs) && OnCycle(defs, memo, id) {
      var p :| Path(defs, m, p) && p[0] == id && p[|p| - 1] == id;
      PathIsAsked(defs, m, id, p, |p| - 1);
    }
  }

  /**
   * The first call and every later one agree off cycles; on a cycle, for straight bodies, only where there is no
   * value.
   */
  lemma {:induction false} CycleDecides(defs: seq<Body>, memo: seq<Entry>, id: nat, later: seq<Entry>)
    requires WfDefs(defs) && |memo| == |defs| && id < |defs| && memo[id].Vacant?
    requires Evolves(EvalConst(defs, memo, id).0, later)
    ensures !OnCycle(defs, memo, id) ==> EvalConst(defs, later, id).1 == EvalConst(defs, memo, id).1
    ensures Straight(defs) ==>
              (EvalConst(defs, later, id).1 == EvalConst(defs, memo, id).1
               <==> (!OnCycle(defs, memo, id) || EvalConst(defs, memo, id).1.None?))
  {
    hide EvalConst, AskedIn, OnCycle, Straight, WfDefs;
    AskedIffOnCycle(defs, memo, id);
    FirstCallAgreesIff(defs, memo, id, later);
  }

  // ----- what a cycle means -----

  /** A body has a value only if every answer it got is one. */
  ghost predicate Strict(defs: seq<Body>) {
    forall i, answers: seq<Answer> | 0 <= i < |defs| && HasValue(ActionAfter(defs[i], answers)) ::
      forall j | 0 <= j < |answers| :: answers[j].Some?
  }

  predicate HasValue(action: Action) {
    action.End? && action.o.Finished? && action.o.a.Some?
  }

  /** In at most n references the constant leads to one that is running or was recorded without a value. */
  ghost predicate Doomed(defs: seq<Body>, memo: seq<Entry>, x: nat, n: nat)
    decreases n
  {
    x < |memo|
    && match memo[x]
       case InProgress => true
       case Done(r) => !r.Value?
       case Vacant => n > 0 && exists c :: RefersTo(defs, x, c) && Doomed(defs, memo, c, n - 1)
  }

  /** Starting constants and recording them without a value dooms no fewer. */
  lemma {:induction false} DoomedUpdate(defs: seq<Body>, memo: seq<Entry>, later: seq<Entry>, x: nat, n: nat)
    requires |later| == |memo| && Doomed(defs, memo, x, n)
    requires forall i | 0 <= i < |memo| ::
               later[i] == memo[i] || later[i].InProgress? || (later[i].Done? && !later[i].r.Value?)
    ensures Doomed(defs, later, x, n)
    decreases n
  {
    hide RefersTo;
    if memo[x].Vacant? && later[x].Vacant? {
      var c :| RefersTo(defs, x, c) && Doomed(defs, memo, c, n - 1);
      DoomedUpdate(defs, memo, later, c, n - 1);
    }
  }

  /** A use of a doomed constant sees no value, and a use of any constant leaves it doomed. */
  lemma {:induction false} DoomedStays(defs: seq<Body>, memo: seq<Entry>, y: nat, x: nat, n: nat)
    requires WfDefs(defs) && Straight(defs) && Strict(defs) && |memo| == |defs| && y < |defs| && Doomed(defs, memo, x, n)
    ensures Doomed(defs, EvalConst(defs, memo, y).0, x, n)
    ensures x == y ==> EvalConst(defs, memo, y).1.None?
    decreases VacantCount(memo), 0, n
  {
    hide WfDefs, Straight, Strict, RefersTo, RunBody;
    match memo[y]
    case Done(_) =>
    case InProgress => DoomedUpdate(defs, memo, memo[y := Done(Poisoned)], x, n);
    case Vacant =>
      var m := Begin(memo, y);
      DoomedUpdate(defs, memo, m, x, n);
      DoomedBody(defs, m, y, [], x, n);
      EntryWhileRunning(defs, memo, y);
      if memo[x].Vacant? {
        var c :| RefersTo(defs, x, c) && Doomed(defs, memo, c, n - 1);
        if x == y {
          var w := Reference(defs, y, c);
          DoomedUpdate(defs, memo, m, c, n - 1);
          SeesNoValue(defs, m, y, [], c, n - 1, w);
        } else {
          UseOfOther(defs, memo, y, x);
          DoomedStays(defs, memo, y, c, n - 1);
        }
      }
  }

  lemma {:induction false} DoomedBody(defs: seq<Body>, memo: seq<Entry>, id: nat, answers: seq<Answer>, x: nat, n: nat)
    requires WfDefs(defs) && Straight(defs) && Strict(defs) && |memo| == |defs| && id < |defs| && Doomed(defs, memo, x, n)
    ensures Doomed(defs, RunBody(defs, memo, id, answers).0, x, n)
    decreases VacantCount(memo), 1 + (if |answers| < defs[id].limit then defs[id].limit - |answers| else 0), n
  {
    hide WfDefs, Straight, Strict, RefersTo, EvalConst, Doomed;
    match ActionAfter(defs[id], answers)
    case End(_) =>
    case Ask(c) =>
      AskInRange(defs, id, answers);
      var asked := EvalConst(defs, memo, c);
      DoomedStays(defs, memo, c, x, n);
      DoomedBody(defs, asked.0, id, answers + [asked.1], x, n);
  }

  /** A body that refers to a doomed constant has no value. */
  lemma {:induction false} SeesNoValue(defs: seq<Body>, memo: seq<Entry>, id: nat, answers: seq<Answer>, c: nat, n: nat,
                                       w: seq<Answer>)
    requires WfDefs(defs) && Straight(defs) && Strict(defs) && |memo| == |defs| && id < |defs| && Doomed(defs, memo, c, n)
    requires |w| >= |answers| && Course(defs[id], w) && ActionAfter(defs[id], w) == Ask(c)
    ensures !HasValue(End(RunBody(defs, memo, id, answers).1))
    decreases VacantCount(memo), 1 + (if |answers| < defs[id].limit then defs[id].limit - |answers| else 0), n
  {
    assert ActionAfter(defs[id], w[..|answers|]).Ask? by { assert w[..|w|] == w; }
    assert ActionAfter(defs[id], answers).Ask?;
    hide WfDefs, Strict, RefersTo, EvalConst, Doomed;
    AskInRange(defs, id, answers);
    var d := ActionAfter(defs[id], answers).id;
    var asked := EvalConst(defs, memo, d);
    DoomedStays(defs, memo, d, c, n);
    if |w| > |answers| {
      SeesNoValue(defs, asked.0, id, answers + [asked.1], c, n, w);
    } else {
      assert d == c;
      var k := |answers|;
      assert (answers + [asked.1])[k] == None;
      NoValueAfter(defs, asked.0, id, answers + [asked.1], k);
    }
  }

  lemma {:induction false} NoValueAfter(defs: seq<Body>, memo: seq<Entry>, id: nat, answers: seq<Answer>, k: nat)
    requires WfDefs(defs) && Strict(defs) && |memo| == |defs| && id < |defs| && k < |answers| && answers[k].None?
    ensures !HasValue(End(RunBody(defs, memo, id, answers).1))
    decreases VacantCount(memo), 1 + (if |answers| < defs[id].limit then defs[id].limit - |answers| else 0), 0
  {
    hide WfDefs, EvalConst;
    match ActionAfter(defs[id], answers)
    case End(_) =>
    case Ask(c) =>
      AskInRange(defs, id, answers);
      var asked := EvalConst(defs, memo, c);
      NoValueAfter(defs, asked.0, id, answers + [asked.1], k);
  }

  /** Every node of a path to a running constant is doomed. */
  lemma {:induction false} PathIsDoomed(defs: seq<Body>, memo: seq<Entry>, p: seq<nat>, k: nat)
    requires Path(defs, memo, p) && 0 < k < |p| && p[|p| - 1] < |memo| && memo[p[|p| - 1]].InProgress?
    ensures Doomed(defs, memo, p[k], |p| - 1 - k)
    decreases |p| - k
  {
    hide RefersTo;
    if k < |p| - 1 {
      PathIsDoomed(defs, memo, p, k + 1);
      assert RefersTo(defs, p[k], p[k + 1]);
    }
  }

  /**
   * The first evaluation of a constant on a cycle: it sees no value, and neither it nor any other constant on the cycle
   * is recorded with one.
   */
  lemma {:induction false} CycleHasNoValue(defs: seq<Body>, memo: seq<Entry>, id: nat, p: seq<nat>, k: nat)
    requires WfDefs(defs) && Straight(defs) && Strict(defs) && |memo| == |defs| && id < |defs| && memo[id].Vacant?
    requires Path(defs, Begin(memo, id), p) && p[0] == id == p[|p| - 1] && k < |p|
    ensures EvalConst(defs, memo, id).1 == None
    ensures p[k] < |memo| && var e := EvalConst(defs, memo, id).0[p[k]]; e.Done? && !e.r.Value?
  {
    hide WfDefs, Straight, Strict, RefersTo, RunBody, Doomed, AskedBy;
    var m := Begin(memo, id);
    assert RefersTo(defs, p[0], p[1]);
    var w := Reference(defs, id, p[1]);
    PathIsDoomed(defs, m, p, 1);
    SeesNoValue(defs, m, id, [], p[1], |p| - 2, w);
    EntryWhileRunning(defs, memo, id);
    if p[k] != id {
      PathIsDoomed(defs, m, p, k);
      DoomedBody(defs, m, id, [], p[k], |p| - 1 - k);
      PathIsAsked(defs, m, id, p, k);
      AskedIsBegun(defs, m, id, [], p[k]);
      UseOfOther(defs, memo, id, p[k]);
      DoomedDone(defs, RunBody(defs, m, id, []).0, p[k], |p| - 1 - k);
    }
  }

  lemma {:induction false} DoomedDone(defs: seq<Body>, memo: seq<Entry>, x: nat, n: nat)
    requires Doomed(defs, memo, x, n)
    ensures x < |memo| && (memo[x].Done? ==> !memo[x].r.Value?)
  {
  }

  /** No call, first or later, of a constant on a cycle sees a value. */
  lemma {:induction false} CycleIsPoison(defs: seq<Body>, memo: seq<Entry>, id: nat, later: seq<Entry>)
    requires WfDefs(defs) && Straight(defs) && Strict(defs) && |memo| == |defs| && id < |defs| && memo[id].Vacant?
    requires OnCycle(defs, memo, id) && Evolves(EvalConst(defs, memo, id).0, later)
    ensures EvalConst(defs, memo, id).1 == None && EvalConst(defs, later, id).1 == None
  {
    hide WfDefs, Straight, Strict, RefersTo, RunBody;
    var p :| Path(defs, Begin(memo, id), p) && p[0] == id && p[|p| - 1] == id;
    CycleHasNoValue(defs, memo, id, p, 0);
  }

  /** `const A = { A; 5 };` hands 5 to whoever uses it first, and poison to everyone after. */
  lemma CycleCounterexample()
    ensures var defs := [Body(answers => if |answers| == 0 then Ask(0) else End(Finished(Some(5))), 1)];
            && WfDefs(defs)
            && EvalConst(defs, [Vacant], 0).1 == Some(5)
            && EvalConst(defs, EvalConst(defs, [Vacant], 0).0, 0).1 == None
  {
    var body := Body(answers => if |answers| == 0 then Ask(0) else End(Finished(Some(5))), 1);
    var defs := [body];
    assert WfDefs(defs);
    assert ActionAfter(body, []) == Ask(0);
    assert ActionAfter(body, [None]) == End(Finished(Some(5)));
    var m0 := Begin([Vacant], 0);
    assert m0 == [InProgress];
    var asked := EvalConst(defs, m0, 0);
    assert m0[0 := Done(Poisoned)] == [Done(Poisoned)];
    assert asked == ([Done(Poisoned)], None);
    assert [] + [asked.1] == [None];
    assert RunBody(defs, asked.0, 0, [None]) == (asked.0, Finished(Some(5)));
    assert RunBody(defs, m0, 0, []) == RunBody(defs, asked.0, 0, [None]);
  }

  /** `const A = { if B is poison { A } else { 5 } }; const B = 1;` */
  function Guarded(): seq<Body> {
    [Body((answers: seq<Answer>) =>
            if |answers| == 0 then Ask(1)
            else if |answers| == 1 && answers[0] == None then Ask(0)
            else End(Finished(Some(5))), 2),
     Body(_ => End(Finished(Some(1))), 0)]
  }

  /** The first of them lies on a cycle, but never asks for itself. */
  lemma CycleNotFollowed()
    ensures WfDefs(Guarded())
    ensures OnCycle(Guarded(), [Vacant, Vacant], 0) && 0 !in AskedIn(Guarded(), [Vacant, Vacant], 0)
  {
    var defs := Guarded();
    assert WfDefs(defs);
    var m := Begin([Vacant, Vacant], 0);
    assert m == [InProgress, Vacant];
    var w: seq<Answer> := [None];
    assert ActionAfter(defs[0], []) == Ask(1) && ActionAfter(defs[0], w) == Ask(0);
    assert Course(defs[0], w) by { assert w[..0] == []; }
    assert RefersTo(defs, 0, 0);
    OneStep(defs, m, 0, 0);
    var asked := EvalConst(defs, m, 1);
    assert Begin(m, 1) == [InProgress, InProgress];
    assert RunBody(defs, Begin(m, 1), 1, []) == (Begin(m, 1), Finished(Some(1)));
    assert asked.1 == Some(1) && [] + [asked.1] == [Some(1)];
    assert ActionAfter(defs[0], [Some(1)]) == End(Finished(Some(5)));
    assert AskedBy(defs, Begin(m, 1), 1, []) == [];
    assert AskedBy(defs, asked.0, 0, [Some(1)]) == [];
    assert AskedIn(defs, [Vacant, Vacant], 0) == [1];
  }

  // ----- the plain recursive meaning -----

  function OutcomeAnswer(o: Outcome): Answer {
    match o
    case Finished(a) => a
    case _ => None
  }

  /** Evaluation without a table, as far as depth d. */
  function Plain(defs: seq<Body>, id: nat, d: nat): Option<Answer>
    requires WfDefs(defs) && id < |defs|
    decreases d, 0
  {
    if d == 0 then None else PlainBody(defs, id, d - 1, [])
  }

  function PlainBody(defs: seq<Body>, id: nat, d: nat, answers: seq<Answer>): Option<Answer>
    requires WfDefs(defs) && id < |defs|
    decreases d, 1 + if |answers| < defs[id].limit then defs[id].limit - |answers| else 0
  {
    match ActionAfter(defs[id], answers)
    case End(o) => Some(OutcomeAnswer(o))
    case Ask(c) =>
      match Plain(defs, c, d)
      case None => None
      case Some(a) => PlainBody(defs, id, d, answers + [a])
  }

  lemma {:induction false} DeeperSame(defs: seq<Body>, id: nat, d: nat, e: nat)
    requires WfDefs(defs) && id < |defs| && d <= e && Plain(defs, id, d).Some?
    ensures Plain(defs, id, e) == Plain(defs, id, d)
    decreases d, 0
  {
    DeeperSameBody(defs, id, d - 1, e - 1, []);
  }

  lemma {:induction false} DeeperSameBody(defs: seq<Body>, id: nat, d: nat, e: nat, answers: seq<Answer>)
    requires WfDefs(defs) && id < |defs| && d <= e && PlainBody(defs, id, d, answers).Some?
    ensures PlainBody(defs, id, e, answers) == PlainBody(defs, id, d, answers)
    decreases d, 1 + if |answers| < defs[id].limit then defs[id].limit - |answers| else 0
  {
    match ActionAfter(defs[id], answers)
    case End(_) =>
    case Ask(c) =>
      DeeperSame(defs, c, d, e);
      DeeperSameBody(defs, id, d, e, answers + [Plain(defs, c, d).value]);
  }

  /** Plain recursion ends: the constant and all it leads to are free of cycles. */
  ghost predicate HasPlain(defs: seq<Body>, id: nat)
    requires WfDefs(defs) && id < |defs|
  {
    exists d: nat :: Plain(defs, id, d).Some?
  }

  /** The least depth that is enough. */
  ghost function Rank(defs: seq<Body>, id: nat): (d: nat)
    requires WfDefs(defs) && id < |defs| && HasPlain(defs, id)
    ensures Plain(defs, id, d).Some? && forall e: nat | e < d :: Plain(defs, id, e).None?
  {
    var d: nat :| Plain(defs, id, d).Some?;
    Least(defs, id, d)
  }

  ghost function Least(defs: seq<Body>, id: nat, d: nat): (r: nat)
    requires WfDefs(defs) && id < |defs| && Plain(defs, id, d).Some?
    ensures Plain(defs, id, r).Some? && forall e: nat | e < r :: Plain(defs, id, e).None?
  {
    if d > 0 && Plain(defs, id, d - 1).Some? then Least(defs, id, d - 1)
    else
      assert forall e: nat | e < d :: Plain(defs, id, e).None? by {
        forall e: nat | e < d ensures Plain(defs, id, e).None? {
          if Plain(defs, id, e).Some? { DeeperSame(defs, id, e, d - 1); }
        }
      }
      d
  }

  ghost function Meaning(defs: seq<Body>, id: nat): Answer
    requires WfDefs(defs) && id < |defs| && HasPlain(defs, id)
  {
    Plain(defs, id, Rank(defs, id)).value
  }

  /** What is recorded is the plain meaning, where there is one. */
  ghost predicate Consistent(defs: seq<Body>, memo: seq<Entry>)
    requires WfDefs(defs) && |memo| == |defs|
  {
    forall i | 0 <= i < |memo| && memo[i].Done? && HasPlain(defs, i) :: AnswerOf(memo[i].r) == Meaning(defs, i)
  }

  /** Of the running constants, those with a meaning need more depth than what is about to be evaluated. */
  ghost predicate Clear(defs: seq<Body>, memo: seq<Entry>, id: nat, except: set<nat>)
    requires WfDefs(defs) && |memo| == |defs| && id < |defs|
  {
    forall p | 0 <= p < |memo| && p !in except && memo[p].InProgress? && HasPlain(defs, p) ::
      HasPlain(defs, id) && Rank(defs, id) < Rank(defs, p)
  }

  lemma StillClear(defs: seq<Body>, a: seq<Entry>, b: seq<Entry>, id: nat, except: set<nat>)
    requires WfDefs(defs) && |a| == |defs| && id < |defs| && Evolves(a, b) && Clear(defs, a, id, except)
    ensures Clear(defs, b, id, except)
  {
    hide HasPlain, Rank, WfDefs;
  }

  /** A use of a constant that has a plain meaning sees it, whatever is in the table already. */
  lemma {:induction false} MemoMeansPlain(defs: seq<Body>, memo: seq<Entry>, id: nat)
    requires WfDefs(defs) && |memo| == |defs| && id < |defs| && Consistent(defs, memo) && Clear(defs, memo, id, {})
    ensures Consistent(defs, EvalConst(defs, memo, id).0)
    ensures HasPlain(defs, id) ==> EvalConst(defs, memo, id).1 == Meaning(defs, id)
    decreases VacantCount(memo), 0
  {
    hide HasPlain, Rank, Meaning, RunBody, WfDefs;
    if memo[id].Vacant? {
      var m := Begin(memo, id);
      assert Clear(defs, m, id, {id});
      BodyMeansPlain(defs, m, id, []) by {
        if HasPlain(defs, id) { StartsPlain(defs, id); }
      }
      EntryWhileRunning(defs, memo, id);
    }
  }

  lemma {:induction false} StartsPlain(defs: seq<Body>, id: nat)
    requires WfDefs(defs) && id < |defs| && HasPlain(defs, id)
    ensures Rank(defs, id) > 0 && PlainBody(defs, id, Rank(defs, id) - 1, []) == Some(Meaning(defs, id))
  {
    hide HasPlain, PlainBody;
  }

  lemma {:induction false} BodyMeansPlain(defs: seq<Body>, memo: seq<Entry>, id: nat, answers: seq<Answer>)
    requires WfDefs(defs) && |memo| == |defs| && id < |defs| && Consistent(defs, memo) && Clear(defs, memo, id, {id})
    requires HasPlain(defs, id) ==>
               Rank(defs, id) > 0 && PlainBody(defs, id, Rank(defs, id) - 1, answers) == Some(Meaning(defs, id))
    ensures Consistent(defs, RunBody(defs, memo, id, answers).0)
    ensures HasPlain(defs, id) ==> OutcomeAnswer(RunBody(defs, memo, id, answers).1) == Meaning(defs, id)
    decreases VacantCount(memo), 1 + if |answers| < defs[id].limit then defs[id].limit - |answers| else 0
  {
    hide HasPlain, Rank, Meaning, EvalConst, Plain;
    match ActionAfter(defs[id], answers)
    case End(o) =>
    case Ask(c) =>
      if HasPlain(defs, id) { AskedIsLower(defs, id, c, answers); }
      var asked := EvalConst(defs, memo, c);
      assert Clear(defs, memo, c, {}) by { hide WfDefs; }
      MemoMeansPlain(defs, memo, c);
      StillClear(defs, memo, asked.0, id, {id});
      BodyMeansPlain(defs, asked.0, id, answers + [asked.1]);
  }

  lemma {:induction false} AskedIsLower(defs: seq<Body>, id: nat, c: nat, answers: seq<Answer>)
    requires WfDefs(defs) && id < |defs| && HasPlain(defs, id) && ActionAfter(defs[id], answers) == Ask(c)
    requires Rank(defs, id) > 0 && PlainBody(defs, id, Rank(defs, id) - 1, answers) == Some(Meaning(defs, id))
    ensures c < |defs| && HasPlain(defs, c) && Rank(defs, c) < Rank(defs, id)
    ensures PlainBody(defs, id, Rank(defs, id) - 1, answers + [Meaning(defs, c)]) == Some(Meaning(defs, id))
  {
    var d := Rank(defs, id) - 1;
    assert Plain(defs, c, d).Some?;
    assert HasPlain(defs, c);
    DeeperSame(defs, c, Rank(defs, c), d) by {
      assert Rank(defs, c) <= d;
    }
  }

  // ----- runs of calls -----

  ghost predicate Idle(memo: seq<Entry>) {
    forall i | 0 <= i < |memo| :: !memo[i].InProgress?
  }

  function Calls(defs: seq<Body>, memo: seq<Entry>, ids: seq<nat>): (r: seq<Answer>)
    requires WfDefs(defs) && |memo| == |defs| && forall i | 0 <= i < |ids| :: ids[i] < |defs|
    ensures |r| == |ids|
    decreases |ids|
  {
    if ids == [] then []
    else [EvalConst(defs, memo, ids[0]).1] + Calls(defs, EvalConst(defs, memo, ids[0]).0, ids[1..])
  }

  /** Over every run of calls, a constant with a plain meaning gives that meaning at the first and at every later call. */
  lemma {:induction false} CallsMeanPlain(defs: seq<Body>, memo: seq<Entry>, ids: seq<nat>, k: nat)
    requires WfDefs(defs) && |memo| == |defs| && (forall i | 0 <= i < |ids| :: ids[i] < |defs|) && k < |ids|
    requires Idle(memo) && Consistent(defs, memo) && HasPlain(defs, ids[k])
    ensures Calls(defs, memo, ids)[k] == Meaning(defs, ids[k])
    decreases |ids|
  {
    hide EvalConst, HasPlain, Meaning, WfDefs;
    MemoMeansPlain(defs, memo, ids[0]);
    if k > 0 { CallsMeanPlain(defs, EvalConst(defs, memo, ids[0]).0, ids[1..], k - 1); }
  }

  lemma FreshConsistent(defs: seq<Body>)
    requires WfDefs(defs)
    ensures var memo := seq(|defs|, _ => Vacant); Idle(memo) && Consistent(defs, memo)
  {
  }

  // ----- the evaluator -----

  class Evaluator {
    const defs: seq<Body>
    var memo: seq<Entry>
    /** The bodies begun so far, in order. */
    ghost var begun: seq<nat>

    ghost predicate Valid()
      reads this
    {
      && WfDefs(defs) && |memo| == |defs|
      && (forall i, j | 0 <= i < j < |begun| :: begun[i] != begun[j])
      && (forall i | 0 <= i < |begun| :: begun[i] < |memo|)
      && (forall i | 0 <= i < |memo| :: i in begun <==> !memo[i].Vacant?)
    }

    constructor (defs: seq<Body>)
      requires WfDefs(defs)
      ensures this.defs == defs && Valid() && Idle(memo) && Consistent(defs, memo) && begun == []
    {
      this.defs := defs;
      memo := seq(|defs|, _ => Vacant);
      begun := [];
    }

    /** Each body is begun at most once: `begun` only grows and never repeats. */
    method EvaluateConst(id: nat) returns (a: Answer)
      requires Valid() && id < |defs|
      modifies this
      ensures Valid() && old(begun) <= begun
      ensures (memo, a) == EvalConst(defs, old(memo), id)
      decreases VacantCount(memo), 0
    {
      hide WfDefs, RunBody;
      match memo[id] {
        case Done(r) => return AnswerOf(r);
        case InProgress =>
          memo := memo[id := Done(Poisoned)];
          return None;
        case Vacant =>
      }
      EntryWhileRunning(defs, memo, id);
      memo := Begin(memo, id);
      begun := begun + [id];
      var o := EvalBody(id);
      var result := Close(memo, id, o);
      memo, a := result.0, result.1;
    }

    method EvalBody(id: nat) returns (o: Outcome)
      requires Valid() && id < |defs|
      modifies this
      ensures Valid() && old(begun) <= begun
      ensures (memo, o) == RunBody(defs, old(memo), id, [])
      decreases VacantCount(memo), 1
    {
      hide WfDefs, ActionAfter, Evolves, EvalConst;
      ghost var start := memo;
      var answers := [];
      var action := ActionAfter(defs[id], answers);
      while action.Ask?
        invariant Valid() && old(begun) <= begun && VacantCount(memo) <= VacantCount(start)
        invariant action == ActionAfter(defs[id], answers)
        invariant RunBody(defs, memo, id, answers) == RunBody(defs, start, id, [])
        decreases if |answers| < defs[id].limit then defs[id].limit - |answers| else 0
      {
        AskInRange(defs, id, answers);
        var answer := EvaluateConst(action.id);
        answers := answers + [answer];
        action := ActionAfter(defs[id], answers);
      }
      o := action.o;
    }
  }
}
