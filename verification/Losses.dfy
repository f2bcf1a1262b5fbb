/**
 * The two places where the evaluator accepts a program without a diagnostic and still changes its meaning,
 * each with the exact condition.
 */
module Losses {
  import opened Values
  import opened World
  import opened Mir
  import opened Hir
  import opened Quotas
  import opened Specialiser
  import opened Scoping
  import opened StaticProof
  import opened ExprProof
  import opened SimulationProof
  import opened Specialisation
  import Tidy

  /** The evaluator's result `r` for a block means what the block means on these stores, in both directions. */
  ghost predicate PreservedOn(env: Env, st: State, vis: set<nat>, b: seq<HInstr>, hs: Store, ms: Store, w: World)
    requires st.quota.Valid()
  {
    var r := EvalBlock(st, b);
    var T := r.st.types;
    && (forall F: nat :: !HRun(env, F, st.comptime, hs, w, b).OutOfFuel? ==>
          Agree(HRun(env, F, st.comptime, hs, w, b), Run(env, T, F, ms, w, r.code), r, AfterBlock(vis, b)))
    && (forall n: nat :: !Run(env, T, n, ms, w, r.code).OutOfFuel? ==>
          exists F: nat :: Agree(HRun(env, F, st.comptime, hs, w, b), Run(env, T, n, ms, w, r.code), r,
                                 AfterBlock(vis, b)))
  }

  lemma {:induction false} CleanIsPreserved(env: Env, st: State, vis: set<nat>, b: seq<HInstr>, hs: Store, ms: Store,
                                            w: World)
    requires st.quota.Valid() && Inv(st) && Rel(st, vis, hs, ms) && WfBlock(vis, st.comptime, b)
             && Clean(EvalBlock(st, b))
    ensures PreservedOn(env, st, vis, b, hs, ms, w)
  {
    SpecialisationPreservesMeaning(env, EvalBlock(st, b).st.types, st, vis, b, hs, ms, w);
    hide EvalBlock, HRun, Run, Agree, WfBlock, AfterBlock;
  }

  lemma {:induction false} Single(st: State, i: HInstr)
    requires st.quota.Valid()
    ensures EvalBlock(st, [i]) == EvalInstr(st, i)
  {
    hide EvalInstr;
    assert [i][0] == i && [i][1..] == [];
    var first := EvalInstr(st, i);
    if first.exit == Fallthrough {
      assert EvalBlock(first.st, []) == Step(first.st, [], Fallthrough);
      assert first.code + [] == first.code;
    }
  }

  lemma {:induction false} HSingle(env: Env, F: nat, ct: bool, hs: Store, w: World, i: HInstr)
    ensures HRun(env, F, ct, hs, w, [i]) == HRunInstr(env, F, ct, hs, w, i)
  {
    hide HRunInstr;
    assert [i][0] == i && [i][1..] == [];
  }

  // ----- a loop condition that does not end -----

  /**
   * A run-time loop whose parts evaluate cleanly is preserved if and only if its condition block falls through.  If
   * the condition block ends instead, its code is dropped and the residual code goes straight on.
   */
  lemma {:induction false} LoopPreservedIff(env: Env, st: State, vis: set<nat>, i: HInstr, hs: Store, ms: Store,
                                            w: World)
    requires i.HWhile? && st.quota.Valid() && !st.comptime && Inv(st) && Rel(st, vis, hs, ms) && Wf(vis, false, i)
    requires Clean(EvalBlock(st, i.conditionBlock))
    requires EvalBlock(st, i.conditionBlock).exit == Fallthrough ==> Clean(EvalInstr(st, i))
    ensures PreservedOn(env, st, vis, [i], hs, ms, w) <==> EvalBlock(st, i.conditionBlock).exit == Fallthrough
    ensures EvalBlock(st, i.conditionBlock).exit == BlockEnd ==>
              EvalBlock(st, [i]).code == [] && forall F: nat :: !HRun(env, F, false, hs, w, [i]).Normal?
  {
    Single(st, i);
    assert WfBlock(vis, false, [i]) by {
      assert [i][0] == i && [i][1..] == [];
      assert WfBlock(After(vis, i), false, []);
    }
    var cb := EvalBlock(st, i.conditionBlock);
    if cb.exit == Fallthrough {
      CleanIsPreserved(env, st, vis, [i], hs, ms, w);
    } else {
      assert EvalInstr(st, i) == Step(cb.st.(lossy := true), [], BlockEnd) by { hide EvalBlock; }
      hide EvalBlock, EvalInstr, Agree;
      WfLoop(vis, false, i);
      forall F: nat
        ensures HRun(env, F, false, hs, w, [i]).OutOfFuel? || HRun(env, F, false, hs, w, [i]).Halted?
      {
        HSingle(env, F, false, hs, w, i);
        ConditionNeverCompletes(env, F, st, vis, i, hs, ms, w);
      }
      var r := EvalBlock(st, [i]);
      RunNothing(env, r.st.types, 0, ms, w);
      assert Run(env, r.st.types, 0, ms, w, r.code) == Normal(ms, w);
      assert forall F: nat :: !Agree(HRun(env, F, false, hs, w, [i]), Normal(ms, w), r, AfterBlock(vis, [i])) by {
        NormalNeedsNormal(r, AfterBlock(vis, [i]), ms, w);
      }
      assert !PreservedOn(env, st, vis, [i], hs, ms, w);
    }
  }

  lemma NormalNeedsNormal(r: Step, vis: set<nat>, ms: Store, w: World)
    ensures forall h: Result :: Agree(h, Normal(ms, w), r, vis) ==> h.Normal?
  {
  }

  lemma {:induction false} ConditionNeverCompletes(env: Env, F: nat, st: State, vis: set<nat>, i: HInstr, hs: Store,
                                                   ms: Store, w: World)
    requires i.HWhile? && st.quota.Valid() && !st.comptime && Inv(st) && Rel(st, vis, hs, ms)
    requires WfBlock(vis, false, i.conditionBlock)
    requires Clean(EvalBlock(st, i.conditionBlock)) && EvalBlock(st, i.conditionBlock).exit == BlockEnd
    ensures HRunInstr(env, F, false, hs, w, i).OutOfFuel? || HRunInstr(env, F, false, hs, w, i).Halted?
  {
    hide EvalBlock, HRun, Run, WfBlock;
    var cb := EvalBlock(st, i.conditionBlock);
    BlockSim(env, cb.st.types, false, F, F, st, vis, i.conditionBlock, hs, ms, w);
  }

  // ----- a run-time branch whose second arm rebinds what the first one gave -----

  /** The store a block completes in, if it does with this much fuel. */
  ghost function Completed(env: Env, F: nat, hs: Store, w: World, b: seq<HInstr>): Option<Store> {
    match HRun(env, F, false, hs, w, b)
    case Normal(s, _) => Some(s)
    case _ => None
  }

  /** The evaluation of the two arms of a run-time branch, the second from where the first ended. */
  function Arms(st: State, i: HInstr): (Step, Step)
    requires i.HIf? && st.quota.Valid()
  {
    var t := EvalBlock(st.(conditional := true), i.thenBlock);
    (t, EvalBlock(t.st, i.elseBlock))
  }

  /**
   * The binding the second arm leaves says what the first arm gave: it is still the MIR local the first arm made, or it
   * happens to hold the value given.
   */
  ghost predicate Survives(t: State, e: State, x: nat, hs: Store, ms: Store) {
    SameBinding(t, e, x) || (x in e.bindings && x in hs && Holds(e, e.bindings[x], hs[x], ms))
  }

  ghost predicate AllSurvive(st: State, i: HInstr, hs: Store, ms: Store)
    requires i.HIf? && st.quota.Valid()
  {
    var (t, e) := Arms(st, i);
    forall x | x in Joins(i.thenBlock) * Joins(i.elseBlock) :: Survives(t.st, e.st, x, hs, ms)
  }

  /** Every join of the branch survives in the store the first arm ended in, should it complete. */
  ghost predicate FirstArmKept(env: Env, st: State, i: HInstr, hs: Store, ms: Store, w: World)
    requires i.HIf? && st.quota.Valid()
  {
    forall F: nat | Completed(env, F, hs, w, i.thenBlock).Some? ::
      AllSurvive(st, i, Completed(env, F, hs, w, i.thenBlock).value, ms)
  }

  /** The facts both directions need about a run-time branch that was accepted and whose arms lost nothing. */
  ghost predicate AcceptedBranch(st: State, vis: set<nat>, i: HInstr, hs: Store, ms: Store) {
    && i.HIf? && !st.comptime && Inv(st) && Rel(st, vis, hs, ms) && Wf(vis, false, i)
    && i.condition in st.bindings && st.bindings[i.condition].Runtime?
    && Accepted(EvalInstr(st, i)) && !Arms(st, i).1.st.lossy
  }

  lemma {:induction false} BranchParts(st: State, vis: set<nat>, i: HInstr, hs: Store, ms: Store)
    requires AcceptedBranch(st, vis, i, hs, ms)
    ensures var (t, e) := Arms(st, i); var r := EvalInstr(st, i); var st0 := st.(conditional := true);
            && Clean(t) && Clean(e) && Inv(st0) && Rel(st0, vis, hs, ms) && Inv(t.st) && Rel(t.st, vis, hs, ms)
            && t.st.comptime == false && Refines(st.types, t.st.types) && Refines(t.st.types, e.st.types)
            && r.st.types == e.st.types && r.st.bindings == e.st.bindings
            && r.code == [If(st.bindings[i.condition].m, t.code, e.code)]
            && (t.exit == Fallthrough || e.exit == Fallthrough ==> r.exit == Fallthrough)
            && Framed(t.st, e.st, vis) && NewAreFresh(t.st, e.st)
            && WfBlock(vis, false, i.thenBlock) && WfBlock(vis, false, i.elseBlock)
            && i.condition in vis && i.condition in hs && hs[i.condition].Boolean?
            && Condition(ms, st.bindings[i.condition].m) == Some(hs[i.condition].b)
  {
    hide EvalBlock, WfBlock, Joins, NewAreFresh;
    var st0 := st.(conditional := true);
    var (t, e) := Arms(st, i);
    assert EvalInstr(st, i) == EvalIf(st, i);
    assert Clean(t) && Clean(e);
    SameButMode(st, st0, vis, hs, ms);
    BlockStatic(st0, vis, i.thenBlock);
    BlockStatic(t.st, vis, i.elseBlock);
    BlockFresh(t.st, i.elseBlock);
    RelTyped(st, vis, hs, ms);
    hide Inv;
    RelSameBindings(st0, t.st, vis, hs, ms);
    assert Holds(st, st.bindings[i.condition], hs[i.condition], ms);
    NoNeverValue(hs[i.condition]);
  }

  /** With every join surviving, the bindings left by the second arm describe the store the first arm ended in. */
  lemma SurvivingRel(t: State, r: State, vis: set<nat>, joins: set<nat>, hs: Store, ms: Store, ms1: Store)
    requires Rel(t, vis + joins, hs, ms1) && Refines(t.types, r.types) && Framed(t, r, vis) && NewAreFresh(t, r)
    requires SameFrom(ms, ms1, |t.types|)
    ensures Rel(r, vis + joins, hs, ms1) <==> forall x | x in joins :: Survives(t, r, x, hs, ms)
  {
    if Rel(r, vis + joins, hs, ms1) {
      forall x | x in joins ensures Survives(t, r, x, hs, ms) {
        assert Holds(t, t.bindings[x], hs[x], ms1) && Holds(r, r.bindings[x], hs[x], ms1);
      }
    }
    if forall x | x in joins :: Survives(t, r, x, hs, ms) {
      forall x | x in vis + joins
        ensures x in r.bindings && x in hs && WfValue(hs[x]) && Holds(r, r.bindings[x], hs[x], ms1)
      {
        assert Holds(t, t.bindings[x], hs[x], ms1);
        NoNeverValue(hs[x]);
        if x in vis { assert SameBinding(t, r, x); }
      }
    }
  }

  /**
   * The first arm and its residual code, run with the types the second arm ended with: they end alike, and MIR locals
   * made after the first arm are not touched.
   */
  lemma {:induction false} FirstArmRuns(env: Env, back: bool, F: nat, n: nat, st: State, vis: set<nat>, i: HInstr,
                                        hs: Store, ms: Store, w: World)
    requires AcceptedBranch(st, vis, i, hs, ms) && Fuel(back, F, n, st, Arms(st, i).0)
    requires !(if back then Run(env, Arms(st, i).1.st.types, n, ms, w, Arms(st, i).0.code)
               else HRun(env, F, false, hs, w, i.thenBlock)).OutOfFuel?
    ensures var (t, e) := Arms(st, i);
            var h, m := HRun(env, F, false, hs, w, i.thenBlock), Run(env, e.st.types, n, ms, w, t.code);
            && Agree(h, m, t, vis + Joins(i.thenBlock) * Joins(i.elseBlock))
            && (m.Normal? ==> SameFrom(ms, m.s, |t.st.types|))
  {
    BranchParts(st, vis, i, hs, ms);
    hide EvalBlock, EvalInstr, WfBlock, Joins, Run, HRun, Rel, AfterBlock, Inv;
    var st0 := st.(conditional := true);
    var (t, e) := Arms(st, i);
    var own := e.st.types[..|t.st.types|];
    BlockSim(env, own, back, F, n, st0, vis, i.thenBlock, hs, ms, w);
    var h, m := HRun(env, F, false, hs, w, i.thenBlock), Run(env, own, n, ms, w, t.code);
    RunWithin(env, own, e.st.types, n, ms, w, t.code);
    AfterGrows(vis, i.thenBlock);
    AgreeSmaller(h, m, t, AfterBlock(vis, i.thenBlock), vis + Joins(i.thenBlock) * Joins(i.elseBlock));
  }

  lemma {:induction false} SecondArmRuns(env: Env, back: bool, F: nat, n: nat, st: State, vis: set<nat>, i: HInstr,
                                         hs: Store, ms: Store, w: World)
    requires AcceptedBranch(st, vis, i, hs, ms) && Fuel(back, F, n, Arms(st, i).0.st, Arms(st, i).1)
    requires !(if back then Run(env, Arms(st, i).1.st.types, n, ms, w, Arms(st, i).1.code)
               else HRun(env, F, false, hs, w, i.elseBlock)).OutOfFuel?
    ensures Agree(HRun(env, F, false, hs, w, i.elseBlock),
                  Run(env, Arms(st, i).1.st.types, n, ms, w, Arms(st, i).1.code),
                  EvalInstr(st, i), vis + Joins(i.thenBlock) * Joins(i.elseBlock))
  {
    BranchParts(st, vis, i, hs, ms);
    hide EvalBlock, EvalInstr, WfBlock, Joins, Run, HRun, Rel, AfterBlock, Inv;
    var (t, e) := Arms(st, i);
    var joins := Joins(i.thenBlock) * Joins(i.elseBlock);
    BlockSim(env, e.st.types, back, F, n, t.st, vis, i.elseBlock, hs, ms, w);
    var h, m := HRun(env, F, false, hs, w, i.elseBlock), Run(env, e.st.types, n, ms, w, e.code);
    AfterGrows(vis, i.elseBlock);
    AgreeSmaller(h, m, e, AfterBlock(vis, i.elseBlock), vis + joins);
    if h.Normal? { SameStore(e.st, EvalInstr(st, i).st, vis + joins, h.s, m.s); }
  }

  lemma SameStore(st: State, st': State, vis: set<nat>, hs: Store, ms: Store)
    requires st'.bindings == st.bindings && st'.types == st.types
    ensures Rel(st, vis, hs, ms) <==> Rel(st', vis, hs, ms)
  {
    if Rel(st, vis, hs, ms) {
      forall x | x in vis
        ensures x in st'.bindings && x in hs && WfValue(hs[x]) && Holds(st', st'.bindings[x], hs[x], ms)
      {
        assert Holds(st, st.bindings[x], hs[x], ms);
      }
    }
    if Rel(st', vis, hs, ms) {
      forall x | x in vis
        ensures x in st.bindings && x in hs && WfValue(hs[x]) && Holds(st, st.bindings[x], hs[x], ms)
      {
        assert Holds(st', st'.bindings[x], hs[x], ms);
      }
    }
  }

  /** The taken arm in both languages, seen from the branch. */
  lemma {:induction false} BranchRuns(env: Env, F: nat, n: nat, st: State, vis: set<nat>, i: HInstr, hs: Store,
                                      ms: Store, w: World)
    requires AcceptedBranch(st, vis, i, hs, ms)
    ensures var (t, e) := Arms(st, i); var T := EvalBlock(st, [i]).st.types;
            && EvalBlock(st, [i]) == EvalInstr(st, i) && T == e.st.types
            && i.condition in hs && hs[i.condition].Boolean?
            && HRun(env, F, false, hs, w, [i])
              == HRun(env, F, false, hs, w, if hs[i.condition].b then i.thenBlock else i.elseBlock)
            && Run(env, T, n, ms, w, EvalBlock(st, [i]).code)
              == Run(env, T, n, ms, w, if hs[i.condition].b then t.code else e.code)
            && AfterBlock(vis, [i]) == vis + Joins(i.thenBlock) * Joins(i.elseBlock)
  {
    BranchParts(st, vis, i, hs, ms);
    Single(st, i);
    HSingle(env, F, false, hs, w, i);
    hide EvalBlock, EvalInstr, WfBlock, Joins, Rel, Inv, Run, HRun;
    var (t, e) := Arms(st, i);
    RunOne(env, e.st.types, n, ms, w, If(st.bindings[i.condition].m, t.code, e.code));
    assert [i][0] == i && [i][1..] == [];
    assert AfterBlock(After(vis, i), []) == After(vis, i);
  }

  /** Where the first arm is kept, its run agrees with the bindings the whole branch left. */
  lemma {:induction false} KeptAgrees(env: Env, back: bool, F: nat, n: nat, st: State, vis: set<nat>, i: HInstr,
                                      hs: Store, ms: Store, w: World)
    requires AcceptedBranch(st, vis, i, hs, ms) && Fuel(back, F, n, st, Arms(st, i).0)
    requires !(if back then Run(env, Arms(st, i).1.st.types, n, ms, w, Arms(st, i).0.code)
               else HRun(env, F, false, hs, w, i.thenBlock)).OutOfFuel?
    ensures var (t, e) := Arms(st, i);
            var joins := Joins(i.thenBlock) * Joins(i.elseBlock);
            var h, m := HRun(env, F, false, hs, w, i.thenBlock), Run(env, e.st.types, n, ms, w, t.code);
            Agree(h, m, EvalInstr(st, i), vis + joins) <==> (h.Normal? ==> AllSurvive(st, i, h.s, ms))
  {
    BranchParts(st, vis, i, hs, ms);
    FirstArmRuns(env, back, F, n, st, vis, i, hs, ms, w);
    hide EvalBlock, EvalInstr, WfBlock, Joins, Rel, Inv, Run, HRun, Survives, NewAreFresh, SameFrom;
    var (t, e) := Arms(st, i);
    var joins := Joins(i.thenBlock) * Joins(i.elseBlock);
    var h, m := HRun(env, F, false, hs, w, i.thenBlock), Run(env, e.st.types, n, ms, w, t.code);
    if h.Normal? {
      SurvivingRel(t.st, e.st, vis, joins, h.s, ms, m.s);
      SameStore(e.st, EvalInstr(st, i).st, vis + joins, h.s, m.s);
    }
  }

  /** One finished run of a branch whose first arm is kept or not taken. */
  lemma {:induction false} BranchAgrees(env: Env, back: bool, F: nat, n: nat, st: State, vis: set<nat>, i: HInstr,
                                        hs: Store, ms: Store, w: World)
    requires AcceptedBranch(st, vis, i, hs, ms) && Fuel(back, F, n, st, EvalBlock(st, [i]))
    requires hs[i.condition] == Boolean(true) ==> FirstArmKept(env, st, i, hs, ms, w)
    requires var r := EvalBlock(st, [i]);
             !(if back then Run(env, r.st.types, n, ms, w, r.code) else HRun(env, F, false, hs, w, [i])).OutOfFuel?
    ensures var r := EvalBlock(st, [i]);
            Agree(HRun(env, F, false, hs, w, [i]), Run(env, r.st.types, n, ms, w, r.code), r, AfterBlock(vis, [i]))
  {
    BranchRuns(env, F, n, st, vis, i, hs, ms, w);
    hide EvalBlock, EvalInstr, Wf, AfterBlock, Joins, Rel, Inv, Run, HRun, AllSurvive, Agree, Accepted, Refines;
    if hs[i.condition].b {
      var h := HRun(env, F, false, hs, w, i.thenBlock);
      assert h.Normal? ==> Completed(env, F, hs, w, i.thenBlock) == Some(h.s);
      KeptAgrees(env, back, F, n, st, vis, i, hs, ms, w);
    } else {
      SecondArmRuns(env, back, F, n, st, vis, i, hs, ms, w);
    }
  }

  lemma {:induction false} KeptIsPreserved(env: Env, st: State, vis: set<nat>, i: HInstr, hs: Store, ms: Store,
                                           w: World)
    requires AcceptedBranch(st, vis, i, hs, ms)
    requires hs[i.condition] == Boolean(true) ==> FirstArmKept(env, st, i, hs, ms, w)
    ensures PreservedOn(env, st, vis, [i], hs, ms, w)
  {
    Tidy.InvQuota(st);
    hide EvalBlock, EvalInstr, AfterBlock, Rel, Inv, Run, HRun, Agree, FirstArmKept;
    var r := EvalBlock(st, [i]);
    forall F: nat | !HRun(env, F, false, hs, w, [i]).OutOfFuel?
      ensures Agree(HRun(env, F, false, hs, w, [i]), Run(env, r.st.types, F, ms, w, r.code), r, AfterBlock(vis, [i]))
    {
      BranchAgrees(env, false, F, F, st, vis, i, hs, ms, w);
    }
    forall n: nat | !Run(env, r.st.types, n, ms, w, r.code).OutOfFuel?
      ensures exists F: nat ::
                Agree(HRun(env, F, false, hs, w, [i]), Run(env, r.st.types, n, ms, w, r.code), r, AfterBlock(vis, [i]))
    {
      BranchAgrees(env, true, n + r.st.quota.spent - st.quota.spent + 1, n, st, vis, i, hs, ms, w);
    }
  }

  lemma {:induction false} PreservedIsKept(env: Env, st: State, vis: set<nat>, i: HInstr, hs: Store, ms: Store,
                                           w: World)
    requires AcceptedBranch(st, vis, i, hs, ms) && hs[i.condition] == Boolean(true)
    requires PreservedOn(env, st, vis, [i], hs, ms, w)
    ensures FirstArmKept(env, st, i, hs, ms, w)
  {
    BranchParts(st, vis, i, hs, ms);
    hide EvalBlock, EvalInstr, WfBlock, AfterBlock, Joins, Rel, Inv, Run, HRun, AllSurvive, Agree, NewAreFresh,
      AcceptedBranch;
    forall F: nat | Completed(env, F, hs, w, i.thenBlock).Some?
      ensures AllSurvive(st, i, Completed(env, F, hs, w, i.thenBlock).value, ms)
    {
      BranchRuns(env, F, F, st, vis, i, hs, ms, w);
      KeptAgrees(env, false, F, F, st, vis, i, hs, ms, w);
    }
  }

  /**
   * A run-time branch that is accepted and whose arms lose nothing themselves keeps its meaning on a pair of related
   * stores if and only if the first arm is not the one taken, or what it gives is still there when the second arm has
   * been evaluated.
   */
  lemma {:induction false} BranchPreservedIff(env: Env, st: State, vis: set<nat>, i: HInstr, hs: Store, ms: Store,
                                              w: World)
    requires AcceptedBranch(st, vis, i, hs, ms)
    ensures PreservedOn(env, st, vis, [i], hs, ms, w)
            <==> (hs[i.condition] == Boolean(true) ==> FirstArmKept(env, st, i, hs, ms, w))
  {
    BranchParts(st, vis, i, hs, ms);
    hide PreservedOn, FirstArmKept, EvalBlock, EvalInstr, Rel, Inv, Wf;
    if hs[i.condition] == Boolean(true) ==> FirstArmKept(env, st, i, hs, ms, w) {
      KeptIsPreserved(env, st, vis, i, hs, ms, w);
    } else if PreservedOn(env, st, vis, [i], hs, ms, w) {
      PreservedIsKept(env, st, vis, i, hs, ms, w);
    }
  }

  // ----- else-if chains -----

  /** An arm as the front end writes it: statements, and last its result. */
  datatype Arm = Arm(statements: seq<HInstr>, result: HExpr)

  /** The test of an `else if`: what has to be computed first, then the condition, set to a new local. */
  datatype Test = Test(before: seq<HInstr>, c: nat, e: HExpr)

  function ArmBlock(a: Arm, x: nat): seq<HInstr> {
    a.statements + [HBranchSet(x, a.result)]
  }

  function TestBlock(q: Test): seq<HInstr> {
    q.before + [HSet(q.c, None, q.e)]
  }

  /** `if c0 { a1 } else if q { a2 } else { a3 }`, its value in `x`. */
  function Chain(c0: nat, a1: Arm, q: Test, a2: Arm, a3: Arm, x: nat): HInstr {
    HIf(c0, ArmBlock(a1, x), TestBlock(q) + [HIf(q.c, ArmBlock(a2, x), ArmBlock(a3, x))])
  }

  /** `x` is a new local that nothing but the ends of the arms sets, and the only one the two outer arms share. */
  predicate OwnResult(a1: Arm, q: Test, a2: Arm, a3: Arm, x: nat) {
    && x !in Touches(a1.statements) && x !in Touches(a2.statements) && x !in Touches(a3.statements)
    && x !in Touches(TestBlock(q))
    && Joins(ArmBlock(a1, x)) * Joins(TestBlock(q) + [HIf(q.c, ArmBlock(a2, x), ArmBlock(a3, x))]) == {x}
  }

  /**
   * What the evaluator binds `x` to instead of the MIR local of the first arm: if it knows the test, and the arm it
   * chose goes on to its end.
   */
  function Overwritten(st: State, a1: Arm, q: Test, a2: Arm, a3: Arm, x: nat): Option<Binding>
    requires st.quota.Valid()
  {
    var t := EvalBlock(st.(conditional := true), ArmBlock(a1, x));
    OverwrittenElse(t.st, q, a2, a3, x)
  }

  function OverwrittenElse(st: State, q: Test, a2: Arm, a3: Arm, x: nat): Option<Binding>
    requires st.quota.Valid()
  {
    var p := EvalBlock(st, TestBlock(q));
    if p.exit != Fallthrough || q.c !in p.st.bindings || !p.st.bindings[q.c].Comptime?
      || !p.st.bindings[q.c].v.Boolean? then None
    else
      var a := EvalBlock(p.st.(conditional := false), ArmBlock(if p.st.bindings[q.c].v.b then a2 else a3, x));
      if a.exit == Fallthrough && x in a.st.bindings then Some(a.st.bindings[x]) else None
  }

  lemma {:induction false} EvalConcat(st: State, a: seq<HInstr>, b: seq<HInstr>)
    requires st.quota.Valid()
    ensures var first := EvalBlock(st, a);
            EvalBlock(st, a + b) == if first.exit == Fallthrough then Prefix(first.code, EvalBlock(first.st, b))
              else first
    decreases |a|
  {
    hide EvalInstr;
    if a == [] {
      assert a + b == b;
      assert [] + EvalBlock(st, b).code == EvalBlock(st, b).code;
    } else {
      assert (a + b)[0] == a[0] && (a + b)[1..] == a[1..] + b;
      var first := EvalInstr(st, a[0]);
      if first.exit == Fallthrough {
        EvalConcat(first.st, a[1..], b);
        var second := EvalBlock(first.st, a[1..]);
        if second.exit == Fallthrough {
          var third := EvalBlock(second.st, b).code;
          assert first.code + (second.code + third) == (first.code + second.code) + third;
        }
      }
    }
  }

  lemma {:induction false} WfConcat(vis: set<nat>, ct: bool, a: seq<HInstr>, b: seq<HInstr>)
    requires WfBlock(vis, ct, a + b)
    ensures WfBlock(vis, ct, a) && WfBlock(AfterBlock(vis, a), ct, b)
    decreases |a|
  {
    hide Wf, After;
    if a == [] {
      assert a + b == b;
    } else {
      assert (a + b)[0] == a[0] && (a + b)[1..] == a[1..] + b;
      WfConcat(After(vis, a[0]), ct, a[1..], b);
    }
  }

  /** The two parts of a cleanly evaluated block. */
  lemma {:induction false} CleanParts(st: State, vis: set<nat>, a: seq<HInstr>, b: seq<HInstr>)
    requires Inv(st) && WfBlock(vis, st.comptime, a + b) && Clean(EvalBlock(st, a + b))
    ensures st.quota.Valid() && WfBlock(vis, st.comptime, a)
    ensures var first := EvalBlock(st, a);
            && Clean(first) && Inv(first.st) && first.st.comptime == st.comptime
              && first.st.conditional == st.conditional
            && (first.exit == Fallthrough ==>
                  && WfBlock(AfterBlock(vis, a), st.comptime, b) && Clean(EvalBlock(first.st, b))
                  && EvalBlock(st, a + b).st == EvalBlock(first.st, b).st
                    && EvalBlock(st, a + b).exit == EvalBlock(first.st, b).exit)
            && (first.exit != Fallthrough ==> EvalBlock(st, a + b) == first)
  {
    Tidy.InvQuota(st);
    WfConcat(vis, st.comptime, a, b);
    EvalConcat(st, a, b);
    hide EvalBlock, WfBlock, Inv;
    var first := EvalBlock(st, a);
    assert Clean(first);
    BlockStatic(st, vis, a);
    if first.exit == Fallthrough { Tidy.InvQuota(first.st); }
  }

  lemma {:induction false} ArmGives(f: Tidy.Facts, a: seq<HInstr>, x: nat, e: HExpr)
    requires x !in Touches(a)
    ensures Tidy.Gives(f, a + [HBranchSet(x, e)], x)
    decreases |a|
  {
    hide Tidy.FactsAfter;
    var b := a + [HBranchSet(x, e)];
    if a == [] {
      assert b[0] == HBranchSet(x, e) && b[1..] == [];
    } else {
      assert b[0] == a[0] && b[1..] == a[1..] + [HBranchSet(x, e)];
      ArmGives(Tidy.FactsAfter(f, a[0]), a[1..], x, e);
    }
  }

  /** What a branch result is bound to: in a conditional arm a MIR local, otherwise a known value or a new MIR local. */
  lemma ResultBound(st: State, x: nat, e: HExpr)
    requires Inv(st) && !st.comptime && (e.HValue? ==> e.v.Some?) && Clean(EvalBranchSet(st, x, e))
    ensures var r := EvalBranchSet(st, x, e);
            && (r.exit == Fallthrough ==> x in r.st.bindings)
            && (r.exit == Fallthrough && st.conditional ==> r.st.bindings[x].Runtime?)
            && (r.exit == Fallthrough && !st.conditional && r.st.bindings[x].Runtime? ==>
                r.st.bindings[x].m >= |st.types|)
            && (r.exit != Fallthrough ==> r.st.bindings == st.bindings)
  {
    PoisonIsDiagnosed(st, e);
    hide EvalExpr, StepKeeps, Quiet;
  }

  /** The evaluation of a whole arm, and what it makes of `x`. */
  lemma {:induction false} ArmResult(st: State, vis: set<nat>, a: Arm, x: nat)
    requires Inv(st) && !st.comptime && WfBlock(vis, false, ArmBlock(a, x)) && Clean(EvalBlock(st, ArmBlock(a, x)))
    requires x !in Touches(a.statements)
    ensures var r := EvalBlock(st, ArmBlock(a, x));
            && Inv(r.st)
            && (r.exit == Fallthrough ==> x in r.st.bindings)
            && (r.exit == Fallthrough && st.conditional ==> r.st.bindings[x].Runtime?)
            && (r.exit == Fallthrough && !st.conditional && r.st.bindings[x].Runtime? ==>
                r.st.bindings[x].m >= |st.types|)
            && (r.exit != Fallthrough ==> Tidy.SameAt(st, r.st, x))
  {
    var last := HBranchSet(x, a.result);
    CleanParts(st, vis, a.statements, [last]);
    BlockStatic(st, vis, ArmBlock(a, x));
    hide EvalBlock, EvalInstr, EvalBranchSet, WfBlock, Inv;
    Tidy.BlockLeaves(st, a.statements, x);
    var s := EvalBlock(st, a.statements);
    if s.exit == Fallthrough {
      Tidy.InvQuota(s.st);
      Single(s.st, last);
      Tidy.BranchSetInstr(s.st, last);
      OneScoped(AfterBlock(vis, a.statements), false, last);
      ResultBound(s.st, x, a.result);
    }
  }

  lemma {:induction false} OneScoped(vis: set<nat>, ct: bool, i: HInstr)
    ensures WfBlock(vis, ct, [i]) <==> Wf(vis, ct, i)
    ensures AfterBlock(vis, [i]) == After(vis, i)
  {
    hide Wf;
    assert [i][0] == i && [i][1..] == [];
    assert WfBlock(After(vis, i), ct, []);
    assert AfterBlock(After(vis, i), []) == After(vis, i);
  }

  /** The else part of a chain leaves `x` bound as the first arm did, or overwritten with something of its own. */
  lemma {:induction false} ElsePart(st: State, vis: set<nat>, q: Test, a2: Arm, a3: Arm, x: nat)
    requires Inv(st) && !st.comptime && st.conditional && x in st.bindings
    requires x !in Touches(a2.statements) && x !in Touches(a3.statements) && x !in Touches(TestBlock(q))
    requires var b := TestBlock(q) + [HIf(q.c, ArmBlock(a2, x), ArmBlock(a3, x))];
             st.quota.Valid() && WfBlock(vis, false, b) && Clean(EvalBlock(st, b))
    ensures var r := EvalBlock(st, TestBlock(q) + [HIf(q.c, ArmBlock(a2, x), ArmBlock(a3, x))]).st;
            match OverwrittenElse(st, q, a2, a3, x)
            case None => SameBinding(st, r, x)
            case Some(b) => x in r.bindings && r.bindings[x] == b && (b.Runtime? ==> b.m >= |st.types|)
  {
    var inner := HIf(q.c, ArmBlock(a2, x), ArmBlock(a3, x));
    CleanParts(st, vis, TestBlock(q), [inner]);
    hide EvalBlock, EvalInstr, EvalIf, WfBlock, Wf, Inv, ArmBlock, TestBlock;
    Tidy.BlockLeaves(st, TestBlock(q), x);
    var p := EvalBlock(st, TestBlock(q));
    if p.exit == Fallthrough {
      Tidy.InvQuota(p.st);
      Single(p.st, inner);
      OneScoped(AfterBlock(vis, TestBlock(q)), false, inner);
      InnerIf(p.st, AfterBlock(vis, TestBlock(q)), q.c, a2, a3, x);
    }
  }

  lemma {:induction false} InnerIf(st: State, vis: set<nat>, c: nat, a2: Arm, a3: Arm, x: nat)
    requires Inv(st) && !st.comptime && st.conditional && x in st.bindings
    requires x !in Touches(a2.statements) && x !in Touches(a3.statements)
    requires var i := HIf(c, ArmBlock(a2, x), ArmBlock(a3, x)); Wf(vis, false, i) && Clean(EvalInstr(st, i))
    ensures var r := EvalInstr(st, HIf(c, ArmBlock(a2, x), ArmBlock(a3, x))).st;
            && c in st.bindings
            && (!st.bindings[c].Comptime? ==> SameBinding(st, r, x))
            && (st.bindings[c].Comptime? ==>
                  st.bindings[c].v.Boolean? &&
                  var a := EvalBlock(st.(conditional := false), ArmBlock(if st.bindings[c].v.b then a2 else a3, x));
                  && r.bindings == a.st.bindings
                  && (a.exit == Fallthrough ==>
                      x in r.bindings && (r.bindings[x].Runtime? ==> r.bindings[x].m >= |st.types|))
                  && (a.exit != Fallthrough ==> SameBinding(st, r, x)))
  {
    hide EvalBlock, WfBlock, ArmBlock, Joins;
    var i := HIf(c, ArmBlock(a2, x), ArmBlock(a3, x));
    assert EvalInstr(st, i) == EvalIf(st, i);
    match st.bindings[c]
    case Runtime(m) => InnerRuntime(st, vis, i, a2, a3, x);
    case Comptime(v) => ArmResult(st.(conditional := false), vis, if v.b then a2 else a3, x);
    case Poison =>
  }

  lemma {:induction false} InnerRuntime(st: State, vis: set<nat>, i: HInstr, a2: Arm, a3: Arm, x: nat)
    requires Inv(st) && !st.comptime && st.conditional && x in st.bindings
    requires x !in Touches(a2.statements) && x !in Touches(a3.statements)
    requires i.HIf? && i.thenBlock == ArmBlock(a2, x) && i.elseBlock == ArmBlock(a3, x)
    requires i.condition in st.bindings && st.bindings[i.condition].Runtime? && Wf(vis, false, i)
             && Clean(EvalIf(st, i))
    ensures SameBinding(st, EvalIf(st, i).st, x)
  {
    hide EvalBlock, WfBlock, Joins, Tidy.Gives;
    assert st.(conditional := true) == st;
    var t := EvalBlock(st, i.thenBlock);
    BlockStatic(st, vis, i.thenBlock);
    ArmGives(Tidy.NO_FACTS, a2.statements, x, a2.result);
    ArmGives(Tidy.NO_FACTS, a3.statements, x, a3.result);
    hide ArmBlock, Inv;
    Tidy.ArmRebinds(Tidy.NO_FACTS, st, vis, i.thenBlock, x);
    Tidy.ArmRebinds(Tidy.NO_FACTS, t.st, vis, i.elseBlock, x);
  }

  /**
   * Nothing was left for `x` in place of the MIR local of the first arm, or what was left is the value a store has for
   * `x`: that known value, or a MIR local that already holds it.
   */
  ghost predicate LeftAsGiven(st: State, c0: nat, a1: Arm, q: Test, a2: Arm, a3: Arm, x: nat, hs: Store, ms: Store)
    requires st.quota.Valid()
  {
    match Overwritten(st, a1, q, a2, a3, x)
    case None => true
    case Some(b) => x in hs && Holds(EvalInstr(st, Chain(c0, a1, q, a2, a3, x)).st, b, hs[x], ms)
  }

  /**
   * An else-if chain whose first condition is run-time keeps its meaning on a pair of related stores, if and only if
   * the evaluator did not know the test or chose an arm that does not go on to its end; or the first arm is not the one
   * taken, or never completes, or gives just what the chosen arm left for `x`.
   */
  lemma {:induction false} ChainPreservedIff(env: Env, st: State, vis: set<nat>, c0: nat, a1: Arm, q: Test, a2: Arm,
                                             a3: Arm, x: nat,
                                             hs: Store, ms: Store, w: World)
    requires OwnResult(a1, q, a2, a3, x) && AcceptedBranch(st, vis, Chain(c0, a1, q, a2, a3, x), hs, ms)
    ensures PreservedOn(env, st, vis, [Chain(c0, a1, q, a2, a3, x)], hs, ms, w)
            <==> (c0 in hs && hs[c0] == Boolean(true) ==>
                    forall F: nat | Completed(env, F, hs, w, ArmBlock(a1, x)).Some? ::
                      LeftAsGiven(st, c0, a1, q, a2, a3, x, Completed(env, F, hs, w, ArmBlock(a1, x)).value, ms))
  {
    var i := Chain(c0, a1, q, a2, a3, x);
    BranchParts(st, vis, i, hs, ms);
    BranchPreservedIff(env, st, vis, i, hs, ms, w);
    if hs[c0] == Boolean(true) { ChainKeptIff(env, st, vis, c0, a1, q, a2, a3, x, hs, ms, w); }
    hide EvalBlock, EvalInstr, WfBlock, Rel, Run, HRun, PreservedOn, Joins, FirstArmKept, LeftAsGiven, Inv, Wf,
      Framed, NewAreFresh, OwnResult;
  }

  lemma {:induction false} ChainKeptIff(env: Env, st: State, vis: set<nat>, c0: nat, a1: Arm, q: Test, a2: Arm,
                                        a3: Arm, x: nat,
                                        hs: Store, ms: Store, w: World)
    requires OwnResult(a1, q, a2, a3, x) && AcceptedBranch(st, vis, Chain(c0, a1, q, a2, a3, x), hs, ms)
    requires c0 in hs && hs[c0] == Boolean(true)
    ensures FirstArmKept(env, st, Chain(c0, a1, q, a2, a3, x), hs, ms, w)
            <==> forall F: nat | Completed(env, F, hs, w, ArmBlock(a1, x)).Some? ::
                   LeftAsGiven(st, c0, a1, q, a2, a3, x, Completed(env, F, hs, w, ArmBlock(a1, x)).value, ms)
  {
    Tidy.InvQuota(st);
    hide EvalBlock, EvalInstr, Rel, Joins, AllSurvive, LeftAsGiven, Completed, Inv, Wf, Framed, NewAreFresh,
      OwnResult, ArmBlock;
    var i := Chain(c0, a1, q, a2, a3, x);
    forall F: nat | Completed(env, F, hs, w, i.thenBlock).Some?
      ensures AllSurvive(st, i, Completed(env, F, hs, w, i.thenBlock).value, ms)
              <==> LeftAsGiven(st, c0, a1, q, a2, a3, x, Completed(env, F, hs, w, i.thenBlock).value, ms)
    {
      ChainSurvives(env, F, st, vis, c0, a1, q, a2, a3, x, hs, ms, w);
    }
  }

  lemma {:induction false} ChainSurvives(env: Env, F: nat, st: State, vis: set<nat>, c0: nat, a1: Arm, q: Test,
                                         a2: Arm, a3: Arm, x: nat,
                                         hs: Store, ms: Store, w: World)
    requires OwnResult(a1, q, a2, a3, x) && AcceptedBranch(st, vis, Chain(c0, a1, q, a2, a3, x), hs, ms)
    requires c0 in hs && hs[c0] == Boolean(true) && Completed(env, F, hs, w, ArmBlock(a1, x)).Some?
    ensures var i := Chain(c0, a1, q, a2, a3, x);
            var hs1 := Completed(env, F, hs, w, ArmBlock(a1, x)).value;
            AllSurvive(st, i, hs1, ms) <==> LeftAsGiven(st, c0, a1, q, a2, a3, x, hs1, ms)
  {
    ChainParts(env, F, st, vis, c0, a1, q, a2, a3, x, hs, ms, w);
    hide EvalBlock, EvalInstr, Inv, Joins, OverwrittenElse, AcceptedBranch, Completed, ArmBlock, TestBlock;
  }

  /** What the evaluation of a chain does to `x`, where its first arm completes. */
  lemma {:induction false} ChainParts(env: Env, F: nat, st: State, vis: set<nat>, c0: nat, a1: Arm, q: Test, a2: Arm,
                                      a3: Arm, x: nat,
                                      hs: Store, ms: Store, w: World)
    requires OwnResult(a1, q, a2, a3, x) && AcceptedBranch(st, vis, Chain(c0, a1, q, a2, a3, x), hs, ms)
    requires c0 in hs && hs[c0] == Boolean(true) && Completed(env, F, hs, w, ArmBlock(a1, x)).Some?
    ensures var i := Chain(c0, a1, q, a2, a3, x);
            var (t, e) := Arms(st, i);
            && EvalInstr(st, i).st.types == e.st.types
            && x in t.st.bindings && t.st.bindings[x].Runtime? && t.st.bindings[x].m < |t.st.types|
            && match Overwritten(st, a1, q, a2, a3, x)
               case None => SameBinding(t.st, e.st, x)
               case Some(b) => x in e.st.bindings && e.st.bindings[x] == b && (b.Runtime? ==> b.m >= |t.st.types|)
  {
    var i := Chain(c0, a1, q, a2, a3, x);
    var (t, e) := Arms(st, i);
    BranchParts(st, vis, i, hs, ms);
    FirstArmRuns(env, false, F, F, st, vis, i, hs, ms, w);
    hide EvalBlock, EvalInstr, WfBlock, Rel, Run, HRun, Inv, OverwrittenElse, ArmBlock, TestBlock, Wf, SameFrom,
      NewAreFresh, Framed, Joins;
    assert t.exit == Fallthrough;
    ArmResult(st.(conditional := true), vis, a1, x);
    ElsePart(t.st, vis, q, a2, a3, x);
    BoundBelow(t.st, x);
  }

  lemma BoundBelow(st: State, x: nat)
    requires Inv(st) && x in st.bindings && st.bindings[x].Runtime?
    ensures st.bindings[x].m < |st.types|
  {
  }

  function FactsAfterAll(f: Tidy.Facts, b: seq<HInstr>): Tidy.Facts
    decreases |b|
  {
    if b == [] then f else FactsAfterAll(Tidy.FactsAfter(f, b[0]), b[1..])
  }

  /** The else part of a chain gives `x` if its test is computed from run-time values. */
  lemma {:induction false} LiveElseGives(f: Tidy.Facts, before: seq<HInstr>, q: Test, a2: Arm, a3: Arm, x: nat)
    requires x !in Touches(before + [HSet(q.c, None, q.e)])
    requires x !in Touches(a2.statements) && x !in Touches(a3.statements)
    requires var g := FactsAfterAll(f, before); Tidy.LiveExpr(g, q.e) && !Tidy.KnownExpr(g, q.e)
    ensures Tidy.Gives(f, before + [HSet(q.c, None, q.e)] + [HIf(q.c, ArmBlock(a2, x), ArmBlock(a3, x))], x)
    decreases |before|
  {
    var test, inner := HSet(q.c, None, q.e), HIf(q.c, ArmBlock(a2, x), ArmBlock(a3, x));
    var b := before + [test] + [inner];
    if before == [] {
      assert b[0] == test && b[1..] == [inner] && ([] + [test])[0] == test;
      var g := Tidy.FactsAfter(f, test);
      ArmGives(g, a2.statements, x, a2.result);
      ArmGives(g, a3.statements, x, a3.result);
      ArmTouches(a2, x);
      hide Tidy.LiveExpr, Tidy.KnownExpr, ArmBlock;
      assert [inner][0] == inner && [inner][1..] == [];
      assert Tidy.Gives(g, [inner], x);
    } else {
      hide Tidy.LiveExpr, Tidy.KnownExpr, ArmBlock, Tidy.FactsAfter, Tidy.GivesIn, InstrTouches;
      assert b[0] == before[0] && b[1..] == before[1..] + [test] + [inner];
      assert (before + [test])[0] == before[0] && (before + [test])[1..] == before[1..] + [test];
      LiveElseGives(Tidy.FactsAfter(f, before[0]), before[1..], q, a2, a3, x);
    }
  }

  lemma {:induction false} ArmTouches(a: Arm, x: nat)
    ensures x in Touches(ArmBlock(a, x))
  {
    TouchesLast(a.statements, HBranchSet(x, a.result), x);
  }

  lemma {:induction false} TouchesLast(b: seq<HInstr>, i: HInstr, x: nat)
    requires x in InstrTouches(i)
    ensures x in Touches(b + [i])
    decreases |b|
  {
    hide InstrTouches;
    assert b == [] ==> (b + [i])[0] == i;
    if b != [] {
      assert (b + [i])[0] == b[0] && (b + [i])[1..] == b[1..] + [i];
      TouchesLast(b[1..], i, x);
    }
  }

  /** Chains whose test is computed from run-time values meet the textual condition, whatever the first condition is. */
  lemma {:induction false} LiveChainIsTidy(f: Tidy.Facts, c0: nat, a1: Arm, q: Test, a2: Arm, a3: Arm, x: nat)
    requires OwnResult(a1, q, a2, a3, x)
    requires var i := Chain(c0, a1, q, a2, a3, x); Tidy.TidyBlock(f, i.thenBlock) && Tidy.TidyBlock(f, i.elseBlock)
    requires var g := FactsAfterAll(f, q.before); Tidy.LiveExpr(g, q.e) && !Tidy.KnownExpr(g, q.e)
    ensures Tidy.TidyInstr(f, Chain(c0, a1, q, a2, a3, x))
  {
    ArmGives(f, a1.statements, x, a1.result);
    LiveElseGives(f, q.before, q, a2, a3, x);
    hide Tidy.TidyBlock, Tidy.Gives, Joins, Tidy.LiveExpr, Tidy.KnownExpr;
  }

  // ----- concrete programs -----

  /** Local 0 is a run-time boolean, local 1 is known to be true. */
  function Sample(): State {
    State(false, false, DEFAULT, 0, map[0 := Runtime(0), 1 := Comptime(Boolean(true))], [TBool], false, false)
  }

  lemma SampleRelated()
    ensures Inv(Sample())
    ensures Rel(Sample(), {0, 1}, map[0 := Boolean(true), 1 := Boolean(true)], map[0 := Boolean(true)])
  {
  }

  predicate PlainValue(v: Value) {
    WfValue(v) && NoPointer(v) && !ComptimeOnly(TypeOf(v))
  }

  /** Setting a branch result to a constant: what each mode makes of it. */
  lemma {:induction false} SetConstant(st: State, x: nat, v: Value)
    requires st.quota.Valid() && !st.comptime && PlainValue(v)
    ensures var r := EvalBlock(st, [HBranchSet(x, HValue(Some(v)))]);
            && (!st.conditional ==> r == Step(Bind(st, x, Comptime(v)), [], Fallthrough))
            && (st.conditional && x !in st.bindings ==>
                  r == Step(Bind(Push(st, TypeOf(v)), x, Runtime(|st.types|)), [Set(|st.types|, Const(v))],
                            Fallthrough))
            && (st.conditional && x in st.bindings && st.bindings[x].Runtime? && st.bindings[x].m < |st.types|
                && st.types[st.bindings[x].m] == TypeOf(v) && TypeOf(v) != TNever ==>
                  r == Step(st, [Set(st.bindings[x].m, Const(v))], Fallthrough))
  {
    hide EvalBlock, EvalInstr, EvalBranchSet, ComptimeOnly, WfValue;
    var i := HBranchSet(x, HValue(Some(v)));
    Single(st, i);
    Tidy.BranchSetInstr(st, i);
    FoldedConstant(st, v);
    if !st.conditional { ConstantSet(st, x, v); } else { ConstantArm(st, x, v); }
  }

  lemma FoldedConstant(st: State, v: Value)
    ensures EvalExpr(st, HValue(Some(v))) == Folded(st, v)
  {
    assert Uses(HValue(Some(v))) == [];
  }

  lemma ConstantSet(st: State, x: nat, v: Value)
    requires !st.comptime && !st.conditional && EvalExpr(st, HValue(Some(v))) == Folded(st, v)
    ensures EvalBranchSet(st, x, HValue(Some(v))) == Step(Bind(st, x, Comptime(v)), [], Fallthrough)
  {
    hide EvalExpr, StoreBranch, Quiet, StepKeeps;
  }

  lemma ConstantArm(st: State, x: nat, v: Value)
    requires !st.comptime && st.conditional && !ComptimeOnly(TypeOf(v))
             && EvalExpr(st, HValue(Some(v))) == Folded(st, v)
    ensures var r := EvalBranchSet(st, x, HValue(Some(v)));
            && (x !in st.bindings ==>
                  r == Step(Bind(Push(st, TypeOf(v)), x, Runtime(|st.types|)), [Set(|st.types|, Const(v))],
                            Fallthrough))
            && (x in st.bindings && st.bindings[x].Runtime? && st.bindings[x].m < |st.types|
                && st.types[st.bindings[x].m] == TypeOf(v) && TypeOf(v) != TNever ==>
                  r == Step(st, [Set(st.bindings[x].m, Const(v))], Fallthrough))
  {
    hide EvalExpr, EvalSet, Quiet, StepKeeps, ComptimeOnly;
    assert [] + [Set(|st.types|, Const(v))] == [Set(|st.types|, Const(v))];
    if x in st.bindings && st.bindings[x].Runtime? && st.bindings[x].m < |st.types| {
      var m := st.bindings[x].m;
      assert st.types[m] == TypeOf(v) ==> st.types[m := TypeOf(v)] == st.types;
      assert [] + [Set(m, Const(v))] == [Set(m, Const(v))];
    }
  }

  lemma JoinsOfSet(x: nat, e: HExpr)
    ensures Joins([HBranchSet(x, e)]) == {x}
  {
    assert [HBranchSet(x, e)][1..] == [];
  }

  /** `if l0 { v1 } else if l1 { e2 } else { e3 }`, its value in local 2 and its test in local 3. */
  function Program(v1: Value, e2: HExpr, e3: HExpr): HInstr {
    Chain(0, Arm([], HValue(Some(v1))), Test([], 3, HLocal(1)), Arm([], e2), Arm([], e3), 2)
  }

  /** The state in which the evaluator meets the inner branch of the program, from `Sample`. */
  function AtInner(v1: Value): State {
    State(false, true, DEFAULT, 0,
          map[0 := Runtime(0), 1 := Comptime(Boolean(true)), 2 := Runtime(1), 3 := Comptime(Boolean(true))],
          [TBool, TypeOf(v1)], false, false)
  }

  /** The inner arm that is chosen: `e2` evaluated in a mode in which a branch result is an ordinary local. */
  function ChosenArm(v1: Value, e2: HExpr): Step {
    EvalBlock(AtInner(v1).(conditional := false), [HBranchSet(2, e2)])
  }

  lemma {:induction false} TestKnown(v1: Value)
    ensures var st := AtInner(v1).(bindings := map[0 := Runtime(0), 1 := Comptime(Boolean(true)), 2 := Runtime(1)]);
            EvalBlock(st, [HSet(3, None, HLocal(1))]) == Step(AtInner(v1), [], Fallthrough)
  {
    hide ComptimeOnly, TypeOf, EvalBlock;
    var st := AtInner(v1).(bindings := map[0 := Runtime(0), 1 := Comptime(Boolean(true)), 2 := Runtime(1)]);
    var i := HSet(3, None, HLocal(1));
    Single(st, i);
    assert Uses(HLocal(1)) == [1];
    assert EvalExpr(st, HLocal(1)) == Folded(st, Boolean(true));
    assert EvalSet(st, 3, None, HLocal(1)).st.bindings == AtInner(v1).bindings;
  }

  lemma {:induction false} FirstArm(v1: Value)
    requires PlainValue(v1)
    ensures var t := EvalBlock(Sample().(conditional := true), [HBranchSet(2, HValue(Some(v1)))]);
            && t.exit == Fallthrough
            && t.st == AtInner(v1).(bindings := map[0 := Runtime(0), 1 := Comptime(Boolean(true)), 2 := Runtime(1)])
  {
    hide EvalBlock, ComptimeOnly, TypeOf;
    SetConstant(Sample().(conditional := true), 2, v1);
  }

  /** The else block: the test is known, and the arm chosen binds local 2. */
  lemma {:induction false} ElseBlock(v1: Value, e2: HExpr, e3: HExpr)
    requires ChosenArm(v1, e2).exit == Fallthrough && 2 in ChosenArm(v1, e2).st.bindings
    ensures var st := AtInner(v1).(bindings := map[0 := Runtime(0), 1 := Comptime(Boolean(true)), 2 := Runtime(1)]);
            var e := EvalBlock(st, Program(v1, e2, e3).elseBlock);
            && e.exit == Fallthrough && e.st == ChosenArm(v1, e2).st.(conditional := true)
            && OverwrittenElse(st, Test([], 3, HLocal(1)), Arm([], e2), Arm([], e3), 2)
              == Some(ChosenArm(v1, e2).st.bindings[2])
  {
    var st := AtInner(v1).(bindings := map[0 := Runtime(0), 1 := Comptime(Boolean(true)), 2 := Runtime(1)]);
    var inner := HIf(3, ArmBlock(Arm([], e2), 2), ArmBlock(Arm([], e3), 2));
    assert ArmBlock(Arm([], e2), 2) == [HBranchSet(2, e2)];
    assert TestBlock(Test([], 3, HLocal(1))) == [HSet(3, None, HLocal(1))];
    TestKnown(v1);
    EvalConcat(st, [HSet(3, None, HLocal(1))], [inner]);
    Single(AtInner(v1), inner);
    hide EvalBlock, ArmBlock, TestBlock, Joins;
    assert EvalInstr(AtInner(v1), inner) == EvalIf(AtInner(v1), inner);
  }

  lemma {:induction false} BranchEvaluates(st: State, i: HInstr)
    requires i.HIf? && st.quota.Valid() && !st.comptime && i.condition in st.bindings
             && st.bindings[i.condition].Runtime?
    requires TypeAt(st.types, st.bindings[i.condition].m) == TBool
    ensures var (t, e) := Arms(st, i); var r := EvalInstr(st, i);
            r.st.types == e.st.types && r.st.diagnosed == e.st.diagnosed && r.exit == JoinExits(t.exit, e.exit)
  {
    hide EvalBlock, Joins;
    assert EvalInstr(st, i) == EvalIf(st, i);
  }

  lemma {:induction false} ProgramEvaluates(v1: Value, e2: HExpr, e3: HExpr)
    requires PlainValue(v1)
    requires ChosenArm(v1, e2).exit == Fallthrough && 2 in ChosenArm(v1, e2).st.bindings
    requires !ChosenArm(v1, e2).st.diagnosed && !ChosenArm(v1, e2).st.lossy
    ensures var i := Program(v1, e2, e3);
            && Accepted(EvalInstr(Sample(), i)) && !Arms(Sample(), i).1.st.lossy
            && EvalInstr(Sample(), i).st.types == ChosenArm(v1, e2).st.types
            && Overwritten(Sample(), Arm([], HValue(Some(v1))), Test([], 3, HLocal(1)), Arm([], e2), Arm([], e3), 2)
               == Some(ChosenArm(v1, e2).st.bindings[2])
  {
    var i := Program(v1, e2, e3);
    assert i.thenBlock == [HBranchSet(2, HValue(Some(v1)))];
    FirstArm(v1);
    ElseBlock(v1, e2, e3);
    BranchEvaluates(Sample(), i);
    hide EvalBlock, EvalInstr, OverwrittenElse, TypeOf, PlainValue;
  }

  predicate PlainExpr(vis: set<nat>, e: HExpr) {
    WfExpr(vis, e) && (e.HValue? || e.HLocal?)
  }

  lemma {:induction false} ResultScoped(vis: set<nat>, e: HExpr)
    requires PlainExpr({0, 1}, e) && 0 in vis && 1 in vis && 2 !in vis
    ensures WfBlock(vis, false, [HBranchSet(2, e)])
  {
    hide WfValue, NoPointer;
    OneScoped(vis, false, HBranchSet(2, e));
    forall k | 0 <= k < |Uses(e)| ensures Uses(e)[k] in vis {
      assert Uses(e)[k] in {0, 1};
    }
  }

  lemma {:induction false} ElseScoped(e2: HExpr, e3: HExpr)
    requires PlainExpr({0, 1}, e2) && PlainExpr({0, 1}, e3)
    ensures WfBlock({0, 1}, false, [HSet(3, None, HLocal(1)), HIf(3, [HBranchSet(2, e2)], [HBranchSet(2, e3)])])
  {
    var test, inner := HSet(3, None, HLocal(1)), HIf(3, [HBranchSet(2, e2)], [HBranchSet(2, e3)]);
    ResultScoped({0, 1, 3}, e2);
    ResultScoped({0, 1, 3}, e3);
    hide PlainExpr, WfBlock, Joins;
    assert Uses(HLocal(1)) == [1];
    assert {0, 1} + {3} == {0, 1, 3};
    WfCons({0, 1}, false, test, [inner]);
    assert [test] + [inner] == [test, inner];
    OneScoped({0, 1, 3}, false, inner);
  }

  lemma {:induction false} WfCons(vis: set<nat>, ct: bool, i: HInstr, b: seq<HInstr>)
    ensures WfBlock(vis, ct, [i] + b) <==> Wf(vis, ct, i) && WfBlock(After(vis, i), ct, b)
  {
    hide Wf;
    assert ([i] + b)[0] == i && ([i] + b)[1..] == b;
  }

  lemma {:induction false} ProgramScoped(v1: Value, e2: HExpr, e3: HExpr)
    requires PlainValue(v1) && PlainExpr({0, 1}, e2) && PlainExpr({0, 1}, e3)
    ensures Wf({0, 1}, false, Program(v1, e2, e3))
  {
    var e1, test := HValue(Some(v1)), HSet(3, None, HLocal(1));
    assert Uses(e1) == [];
    ResultScoped({0, 1}, e1);
    ElseScoped(e2, e3);
    hide WfBlock, PlainValue, PlainExpr;
    assert ArmBlock(Arm([], e1), 2) == [HBranchSet(2, e1)] && ArmBlock(Arm([], e2), 2) == [HBranchSet(2, e2)];
    assert ArmBlock(Arm([], e3), 2) == [HBranchSet(2, e3)];
    assert TestBlock(Test([], 3, HLocal(1))) == [test];
    var inner := HIf(3, [HBranchSet(2, e2)], [HBranchSet(2, e3)]);
    assert [test] + [inner] == [test, inner];
  }

  lemma {:induction false} ProgramResult(e1: HExpr, e2: HExpr, e3: HExpr)
    ensures OwnResult(Arm([], e1), Test([], 3, HLocal(1)), Arm([], e2), Arm([], e3), 2)
  {
    var test := HSet(3, None, HLocal(1));
    var inner := HIf(3, [HBranchSet(2, e2)], [HBranchSet(2, e3)]);
    assert ArmBlock(Arm([], e1), 2) == [HBranchSet(2, e1)] && ArmBlock(Arm([], e2), 2) == [HBranchSet(2, e2)];
    assert ArmBlock(Arm([], e3), 2) == [HBranchSet(2, e3)];
    assert TestBlock(Test([], 3, HLocal(1))) == [test];
    assert [test] + [inner] == [test, inner] && [test, inner][1..] == [inner];
    JoinsOfSet(2, e1);
    JoinsOfSet(2, e2);
    JoinsOfSet(2, e3);
    assert [inner][1..] == [] && Joins([inner]) == {2} && Joins([test, inner]) == {2};
    assert Touches([test]) == {3} by { assert [test][1..] == []; }
  }

  lemma {:induction false} FirstArmGives(env: Env, w: World, v1: Value)
    requires PlainValue(v1)
    ensures var hs := map[0 := Boolean(true), 1 := Boolean(true)];
            Completed(env, 0, hs, w, ArmBlock(Arm([], HValue(Some(v1))), 2)) == Some(hs[2 := v1])
  {
    assert ArmBlock(Arm([], HValue(Some(v1))), 2) == [HBranchSet(2, HValue(Some(v1)))];
    HSingle(env, 0, false, map[0 := Boolean(true), 1 := Boolean(true)], w, HBranchSet(2, HValue(Some(v1))));
  }

  /** The program is not preserved when what the chosen arm leaves is not what the first arm gives. */
  lemma {:induction false} ProgramLost(env: Env, w: World, v1: Value, e2: HExpr, e3: HExpr)
    requires PlainValue(v1) && PlainExpr({0, 1}, e2) && PlainExpr({0, 1}, e3)
    requires ChosenArm(v1, e2).exit == Fallthrough && 2 in ChosenArm(v1, e2).st.bindings
    requires !ChosenArm(v1, e2).st.diagnosed && !ChosenArm(v1, e2).st.lossy
    requires !Holds(ChosenArm(v1, e2).st, ChosenArm(v1, e2).st.bindings[2], v1, map[0 := Boolean(true)])
    ensures !PreservedOn(env, Sample(), {0, 1}, [Program(v1, e2, e3)],
                         map[0 := Boolean(true), 1 := Boolean(true)], map[0 := Boolean(true)], w)
  {
    var hs: Store, ms: Store := map[0 := Boolean(true), 1 := Boolean(true)], map[0 := Boolean(true)];
    SampleRelated();
    ProgramEvaluates(v1, e2, e3);
    ProgramScoped(v1, e2, e3);
    ProgramResult(HValue(Some(v1)), e2, e3);
    FirstArmGives(env, w, v1);
    hide PreservedOn, Rel, Inv, EvalInstr, EvalBlock, Overwritten, Wf, OwnResult, Arms, Completed, ArmBlock,
      PlainValue, PlainExpr,
      ChosenArm, TypeOf;
    ChainPreservedIff(env, Sample(), {0, 1}, 0, Arm([], HValue(Some(v1))), Test([], 3, HLocal(1)), Arm([], e2),
                      Arm([], e3), 2, hs, ms, w);
    assert Completed(env, 0, hs, w, ArmBlock(Arm([], HValue(Some(v1))), 2)) == Some(hs[2 := v1]);
    assert !LeftAsGiven(Sample(), 0, Arm([], HValue(Some(v1))), Test([], 3, HLocal(1)), Arm([], e2), Arm([], e3), 2,
                        hs[2 := v1], ms);
  }

  /** `if l0 { 10 } else if l1 { 20 } else { 30 }`, with l1 known: when l0 holds, the value must be 10 and is 20. */
  lemma ChainCounterexample(env: Env, w: World)
    ensures !PreservedOn(env, Sample(), {0, 1}, [Program(Num(10), HValue(Some(Num(20))), HValue(Some(Num(30))))],
                         map[0 := Boolean(true), 1 := Boolean(true)], map[0 := Boolean(true)], w)
  {
    hide PreservedOn, EvalBlock;
    SetConstant(AtInner(Num(10)).(conditional := false), 2, Num(20));
    assert Uses(HValue(Some(Num(20)))) == [] && Uses(HValue(Some(Num(30)))) == [];
    ProgramLost(env, w, Num(10), HValue(Some(Num(20))), HValue(Some(Num(30))));
  }

  /** `if l0 { false } else if l1 { l0 } else { false }`: when l0 holds, the value is in a MIR local that is never set. */
  lemma UnsetCounterexample(env: Env, w: World)
    ensures !PreservedOn(env, Sample(), {0, 1}, [Program(Boolean(false), HLocal(0), HValue(Some(Boolean(false))))],
                         map[0 := Boolean(true), 1 := Boolean(true)], map[0 := Boolean(true)], w)
  {
    hide PreservedOn, EvalBlock, EvalBranchSet;
    var st := AtInner(Boolean(false)).(conditional := false);
    Single(st, HBranchSet(2, HLocal(0)));
    assert Uses(HLocal(0)) == [0] && Uses(HValue(Some(Boolean(false)))) == [];
    RuntimeResult(st);
    ProgramLost(env, w, Boolean(false), HLocal(0), HValue(Some(Boolean(false))));
  }

  lemma RuntimeResult(st: State)
    requires !st.comptime && !st.conditional && 0 in st.bindings && st.bindings[0] == Runtime(0) && |st.types| > 0
    ensures EvalBranchSet(st, 2, HLocal(0))
            == Step(Bind(Push(st, st.types[0]), 2, Runtime(|st.types|)), [Set(|st.types|, LocalRef(0))], Fallthrough)
  {
    assert Uses(HLocal(0)) == [0];
    assert EvalExpr(st, HLocal(0)) == ExprStep(st, [], Fallthrough, RuntimeV(LocalRef(0), st.types[0]));
  }

  /** `while stop() {}`: the residual code is empty, so the contract does not stop. */
  lemma LoopCounterexample(env: Env, w: World)
    ensures !PreservedOn(env, Sample(), {0, 1}, [HWhile([HSet(2, None, HBuiltin(STOP, []))], 2, [])],
                         map[0 := Boolean(true), 1 := Boolean(true)], map[0 := Boolean(true)], w)
  {
    SampleRelated();
    var i := HWhile([HSet(2, None, HBuiltin(STOP, []))], 2, []);
    StopEnds();
    LoopScoped();
    hide PreservedOn, Rel, Inv, EvalBlock, WfBlock, Clean;
    LoopPreservedIff(env, Sample(), {0, 1}, i, map[0 := Boolean(true), 1 := Boolean(true)], map[0 := Boolean(true)], w);
  }

  lemma LoopScoped()
    ensures Wf({0, 1}, false, HWhile([HSet(2, None, HBuiltin(STOP, []))], 2, []))
  {
    var s := HSet(2, None, HBuiltin(STOP, []));
    var i := HWhile([s], 2, []);
    assert [s][0] == s && [s][1..] == [];
    assert WfBlock({0, 1, 2}, false, []);
    assert {0, 1} + {2} == {0, 1, 2};
    assert AfterBlock({0, 1, 2}, []) == {0, 1, 2};
    assert WfExpr({0, 1}, s.e) by { assert Uses(s.e) == []; }
    assert Wf({0, 1}, false, s);
    assert WfBlock({0, 1}, false, [s]);
    assert AfterBlock({0, 1}, [s]) == AfterBlock(After({0, 1}, s), []);
  }

  lemma StopEnds()
    ensures var r := EvalBlock(Sample(), [HSet(2, None, HBuiltin(STOP, []))]); Clean(r) && r.exit == BlockEnd
  {
    var st, e := Sample(), HBuiltin(STOP, []);
    Single(st, HSet(2, None, e));
    assert Uses(e) == [];
    assert ArgTypes(st, []) == Some([]) by { assert ArgTypes(st, []).value == []; }
    assert Matches(Sig([], TNever), []);
    assert ResultType(STOP, []) == Some(TNever);
    assert MaterialiseAll(st, []) == Operands(st, [], []);
  }
}
