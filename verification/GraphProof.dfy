/** Lowering preserves meaning: the graph does what the structured code does. */
module GraphProof {
  import opened Values
  import opened World
  import opened Mir
  import opened Graph
  import opened Lowering
  import opened PieceProof
  import opened SetProof

  // ----- a builder's blocks inside a finished graph -----

  /** The graph holds these blocks, possibly grown further. */
  ghost predicate Within(bs: seq<Block>, g: seq<Block>) {
    |bs| <= |g| && forall i | 0 <= i < |bs| :: bs[i] <= g[i]
  }

  lemma WithinBack(a: Builder, b: Builder, g: seq<Block>)
    requires Extends(a, b) && Within(b.blocks, g)
    ensures Within(a.blocks, g)
  {
    forall i | 0 <= i < |a.blocks| ensures a.blocks[i] <= g[i] {
      assert a.blocks[i] <= b.blocks[i] && b.blocks[i] <= g[i];
    }
  }

  lemma EmittedAt(bld: Builder, code: seq<Inst>, n: nat, g: seq<Block>)
    requires bld.Valid() && Within(bld.Emit(code, n).blocks, g)
    ensures CodeAt(g, bld.cur, |bld.blocks[bld.cur]|, code)
  {
    var now, block := bld.blocks[bld.cur], g[bld.cur];
    assert bld.Emit(code, n).blocks[bld.cur] == now + code;
    PrefixAt(now, code, block);
  }

  lemma PrefixAt(a: Block, b: Block, c: Block)
    requires a + b <= c
    ensures c[|a|..|a| + |b|] == b
  {
    assert (a + b)[|a|..] == b;
  }

  // ----- what it means for the graph to follow a run -----

  function Start(bld: Builder, temps: Temps, vars: Vars, w: World): Config
    requires bld.Valid()
  {
    At(bld.cur, |bld.blocks[bld.cur]|, temps, vars, w)
  }

  /**
   * After n steps the graph is where the structured run ended: at the open end of the code built, with the store
   * in its variables, or done with the same outcome. A run that is out of fuel has kept the graph busy for at
   * least that many steps.
   */
  ghost predicate Reaches(env: Env, g: seq<Block>, types: seq<Ty>, c: Config, n: nat, end: Lowered, r: Result, fuel: nat) {
    match r
    case Wrong => true
    case Normal(s, w) =>
      var c' := Steps(env, g, n, c);
      && end.exit.Loose? && end.bld.Valid() && c'.At?
      && c' == Start(end.bld, c'.temps, c'.vars, w)
      && Rel(types, s, c'.vars)
    case Halted(w) => Steps(env, g, n, c) == Done(Outcome.Halted(w))
    case Returned(v, w) => Steps(env, g, n, c) == Done(Outcome.Returned(SlotOf(v), w))
    case OutOfFuel => n >= fuel && Steps(env, g, n, c).At?
  }

  lemma {:induction false} Chain(env: Env, g: seq<Block>, types: seq<Ty>, c: Config, a: nat, mid: Config, b: nat, end: Lowered, r: Result, f: nat, fuel: nat)
    requires Steps(env, g, a, c) == mid && Reaches(env, g, types, mid, b, end, r, f) && fuel <= a + f
    ensures Reaches(env, g, types, c, a + b, end, r, fuel)
  {
    hide Rel, SlotOf, Steps, Step;
    StepsAdd(env, g, a, b, c);
  }

  // ----- straight-line code -----

  /** Running the code just emitted, from where the builder stood. */
  lemma EmittedRuns(env: Env, g: seq<Block>, bld: Builder, code: seq<Inst>, k: nat, temps: Temps, vars: Vars, w: World)
      returns (n: nat)
    requires bld.Valid() && Within(bld.Emit(code, k).blocks, g)
    ensures Leads(RunCode(env, code, temps, vars, w), bld.cur, |bld.blocks[bld.cur]| + |code|,
                  Steps(env, g, n, Start(bld, temps, vars, w)))
    ensures !RunCode(env, code, temps, vars, w).Next? ==> n > 0
  {
    hide RunCode, Steps, CodeAt, Leads;
    EmittedAt(bld, code, k, g);
    n := CodeSteps(env, g, bld.cur, |bld.blocks[bld.cur]|, code, temps, vars, w);
  }

  lemma SetSim(env: Env, g: seq<Block>, types: seq<Ty>, fuel: nat, bld: Builder, t: nat, e: Expr, s: Store, w: World,
               temps: Temps, vars: Vars) returns (n: nat)
    requires bld.Valid() && Rel(types, s, vars)
    requires var r := Placed(bld, SetPiece(types, bld.next, t, e)); !r.exit.Panicked? && Within(r.bld.blocks, g)
    ensures Reaches(env, g, types, Start(bld, temps, vars, w), n, Placed(bld, SetPiece(types, bld.next, t, e)),
                    RunSet(env, types, s, w, t, e), fuel)
  {
    hide SetPiece, RunSet, RunCode, Steps, Rel, Within;
    var p := SetPiece(types, bld.next, t, e);
    SetRuns(env, types, s, bld.next, t, e, temps, vars, w);
    n := EmittedRuns(env, g, bld, p.code, p.next, temps, vars, w);
  }

  lemma ReturnSim(env: Env, g: seq<Block>, types: seq<Ty>, fuel: nat, bld: Builder, l: nat, s: Store, w: World,
                  temps: Temps, vars: Vars) returns (n: nat)
    requires bld.Valid() && Rel(types, s, vars) && l in s
    requires var r := Placed(bld, ReturnPiece(types, bld.next, l)); !r.exit.Panicked? && Within(r.bld.blocks, g)
    ensures Reaches(env, g, types, Start(bld, temps, vars, w), n, Placed(bld, ReturnPiece(types, bld.next, l)),
                    Result.Returned(s[l], w), fuel)
  {
    hide RunCode, Steps, Rel, Within, ReadLocal, SlotOf;
    var p := ReadLocal(types, bld.next, l);
    ReadLocalGives(env, types, s, bld.next, l, temps, vars, w);
    var ret := Ret(p.out);
    RunCodeConcat(env, p.code, [ret], temps, vars, w);
    RunOne(env, ret, RunCode(env, p.code, temps, vars, w).temps, vars, w);
    n := EmittedRuns(env, g, bld, p.code + [ret], p.next, temps, vars, w);
  }

  lemma {:induction false} JumpSim(env: Env, g: seq<Block>, b: nat, pc: nat, k: nat, temps: Temps, vars: Vars, w: World)
    requires CodeAt(g, b, pc, [Jump(k)])
    ensures Steps(env, g, 1, At(b, pc, temps, vars, w)) == At(k, 0, temps, vars, w)
  {
    assert g[b][pc] == g[b][pc..pc + 1][0] == Jump(k);
    var c := At(b, pc, temps, vars, w);
    assert Steps(env, g, 1, c) == Steps(env, g, 0, Step(env, g, c));
  }

  // ----- conditions -----

  lemma ConditionRuns(env: Env, types: seq<Ty>, s: Store, next: nat, c: nat, b: bool, x: nat, y: nat,
                      temps: Temps, vars: Vars, w: World) returns (t1: Temps)
    requires Rel(types, s, vars) && Condition(s, c) == Some(b) && ConditionPiece(types, next, c).Yields?
    ensures var p := ConditionPiece(types, next, c);
            RunCode(env, p.code + [Br(p.out.value, x, y)], temps, vars, w) == GoTo(if b then x else y, t1, vars, w)
  {
    hide RunCode;
    var v, p := s[c], ConditionPiece(types, next, c);
    LocalShape(types, s, c);
    UseVarRuns(env, next, c, temps, vars, w);
    t1 := temps[next := vars[c]];
    if |p.code| == 1 {
      assert p.code == [UseVar(next, c)];
    } else {
      assert p.code == [UseVar(next, c)] + [Ne(next + 1, Tmp(next), Word(0))];
      RunCodeConcat(env, [UseVar(next, c)], [Ne(next + 1, Tmp(next), Word(0))], temps, vars, w);
      NeRuns(env, next, v, b, t1, vars, w);
      t1 := t1[next + 1 := BoolSlot(b)];
    }
    RunCodeConcat(env, p.code, [Br(p.out.value, x, y)], temps, vars, w);
    RunOne(env, Br(p.out.value, x, y), t1, vars, w);
  }

  lemma NeRuns(env: Env, next: nat, v: Value, b: bool, temps: Temps, vars: Vars, w: World)
    requires Truth(v) == Some(b) && Get(temps, Tmp(next)) == SlotOf(v)
    requires !v.Boolean?
    ensures RunCode(env, [Ne(next + 1, Tmp(next), Word(0))], temps, vars, w)
            == Next(temps[next + 1 := BoolSlot(b)], vars, w)
  {
    hide RunCode, GetWords;
    GetWordsTwo(temps, Tmp(next), Word(0), v.n, 0);
    RunOne(env, Ne(next + 1, Tmp(next), Word(0)), temps, vars, w);
  }

  lemma ForkIfSim(env: Env, g: seq<Block>, types: seq<Ty>, bld: Builder, c: nat, b: bool, s: Store, w: World,
                  temps: Temps, vars: Vars) returns (n: nat, t1: Temps)
    requires bld.Valid() && Rel(types, s, vars) && Condition(s, c) == Some(b)
    requires !ForkIf(types, bld, c).exit.Panicked? && Within(ForkIf(types, bld, c).bld.blocks, g)
    ensures n > 0 && Steps(env, g, n, Start(bld, temps, vars, w))
                     == At(if b then |bld.blocks| + 1 else |bld.blocks|, 0, t1, vars, w)
  {
    hide RunCode, Steps, Within, Rel, ConditionPiece, Condition;
    var b0 := bld.Append().Append();
    var p := ConditionPiece(types, b0.next, c);
    var k := |bld.blocks|;
    t1 := ConditionRuns(env, types, s, b0.next, c, b, k + 1, k, temps, vars, w);
    n := EmittedRuns(env, g, b0, p.code + [Br(p.out.value, k + 1, k)], p.next, temps, vars, w);
  }

  lemma ForkWhileSim(env: Env, g: seq<Block>, types: seq<Ty>, bld: Builder, c: nat, b: bool, s: Store, w: World,
                     temps: Temps, vars: Vars) returns (n: nat, t1: Temps)
    requires bld.Valid() && Rel(types, s, vars) && Condition(s, c) == Some(b)
    requires !ForkWhile(types, bld, c).exit.Panicked? && Within(ForkWhile(types, bld, c).bld.blocks, g)
    ensures n > 0 && Steps(env, g, n, Start(bld, temps, vars, w))
                     == At(if b then |bld.blocks| else |bld.blocks| + 1, 0, t1, vars, w)
  {
    hide RunCode, Steps, Within, Rel, ConditionPiece, Condition;
    var b0 := bld.Append().Append();
    var p := ConditionPiece(types, b0.next, c);
    var k := |bld.blocks|;
    t1 := ConditionRuns(env, types, s, b0.next, c, b, k, k + 1, temps, vars, w);
    n := EmittedRuns(env, g, b0, p.code + [Br(p.out.value, k, k + 1)], p.next, temps, vars, w);
  }

  // ----- joining the arms of an `if` -----

  /** What `Join` is given: two arms built one after the other, neither touching the end of the other. */
  ghost predicate Arms(bld: Builder, thenEnd: Lowered, elseEnd: Lowered) {
    && bld.Valid() && thenEnd.bld.Valid() && elseEnd.bld.Valid()
    && |bld.blocks| <= |thenEnd.bld.blocks| <= |elseEnd.bld.blocks|
    && |bld.blocks| <= thenEnd.bld.cur && |bld.blocks| <= elseEnd.bld.cur
    && bld.blocks[bld.cur] <= elseEnd.bld.blocks[bld.cur]
    && (forall i | 0 <= i < |bld.blocks| && i != bld.cur :: elseEnd.bld.blocks[i] == bld.blocks[i])
    && elseEnd.bld.blocks[thenEnd.bld.cur] == thenEnd.bld.blocks[thenEnd.bld.cur]
    && thenEnd.bld.cur != elseEnd.bld.cur
    && !thenEnd.exit.Panicked? && !elseEnd.exit.Panicked?
  }

  /** After the join, each open arm ends in a jump to the new current block, which is empty. */
  lemma JoinFacts(bld: Builder, thenEnd: Lowered, elseEnd: Lowered, g: seq<Block>)
    requires Arms(bld, thenEnd, elseEnd) && Within(Join(bld, thenEnd, elseEnd).bld.blocks, g)
    ensures var r := Join(bld, thenEnd, elseEnd);
            && Within(elseEnd.bld.blocks, g)
            && (thenEnd.exit.Loose? || elseEnd.exit.Loose? ==> r.exit.Loose? && r.bld.blocks[r.bld.cur] == [])
            && (thenEnd.exit.Loose? ==> CodeAt(g, thenEnd.bld.cur, |thenEnd.bld.blocks[thenEnd.bld.cur]|, [Jump(r.bld.cur)]))
            && (elseEnd.exit.Loose? ==> CodeAt(g, elseEnd.bld.cur, |elseEnd.bld.blocks[elseEnd.bld.cur]|, [Jump(r.bld.cur)]))
  {
    var r := Join(bld, thenEnd, elseEnd);
    var merge := |elseEnd.bld.blocks|;
    forall i | 0 <= i < merge ensures elseEnd.bld.blocks[i] <= g[i] {
      assert elseEnd.bld.blocks[i] <= r.bld.blocks[i] && r.bld.blocks[i] <= g[i];
    }
    if thenEnd.exit.Loose? {
      assert r.bld.blocks[thenEnd.bld.cur] == thenEnd.bld.blocks[thenEnd.bld.cur] + [Jump(merge)];
      PrefixAt(thenEnd.bld.blocks[thenEnd.bld.cur], [Jump(merge)], g[thenEnd.bld.cur]);
    }
    if elseEnd.exit.Loose? {
      assert r.bld.blocks[elseEnd.bld.cur] == elseEnd.bld.blocks[elseEnd.bld.cur] + [Jump(merge)];
      PrefixAt(elseEnd.bld.blocks[elseEnd.bld.cur], [Jump(merge)], g[elseEnd.bld.cur]);
    }
  }

  // ----- the simulation -----

  /** Every run of a block, whatever its fuel, is followed by the graph. */
  lemma {:induction false} BlockSim(env: Env, g: seq<Block>, types: seq<Ty>, fuel: nat, bld: Builder, b: seq<Instr>,
                                    s: Store, w: World, temps: Temps, vars: Vars) returns (n: nat)
    requires bld.Valid() && Rel(types, s, vars)
    requires var r := LowerBlock(types, bld, b); !r.exit.Panicked? && Within(r.bld.blocks, g)
    ensures Reaches(env, g, types, Start(bld, temps, vars, w), n, LowerBlock(types, bld, b),
                    Run(env, types, fuel, s, w, b), fuel)
    decreases fuel, b, 1
  {
    hide LowerInstr, Rel, RunInstr, Steps, SlotOf, Within;
    if b == [] {
      n := 0;
      assert Steps(env, g, 0, Start(bld, temps, vars, w)) == Start(bld, temps, vars, w) by { NoSteps(env, g, Start(bld, temps, vars, w)); }
    } else {
      var r := LowerInstr(types, bld, b[0]);
      if r.exit.Loose? { WithinBack(r.bld, LowerBlock(types, r.bld, b[1..]).bld, g); }
      n := InstrSim(env, g, types, fuel, bld, b[0], s, w, temps, vars);
      match RunInstr(env, types, fuel, s, w, b[0]) {
        case Normal(s1, w1) =>
          var mid := Steps(env, g, n, Start(bld, temps, vars, w));
          var m := BlockSim(env, g, types, fuel, r.bld, b[1..], s1, w1, mid.temps, mid.vars);
          Chain(env, g, types, Start(bld, temps, vars, w), n, mid, m, LowerBlock(types, bld, b),
                Run(env, types, fuel, s, w, b), fuel, fuel);
          n := n + m;
        case _ =>
      }
    }
  }

  lemma {:induction false} NoSteps(env: Env, g: seq<Block>, c: Config)
    ensures Steps(env, g, 0, c) == c
  {
  }

  lemma {:induction false} InstrSim(env: Env, g: seq<Block>, types: seq<Ty>, fuel: nat, bld: Builder, i: Instr,
                                    s: Store, w: World, temps: Temps, vars: Vars) returns (n: nat)
    requires bld.Valid() && Rel(types, s, vars)
    requires var r := LowerInstr(types, bld, i); !r.exit.Panicked? && Within(r.bld.blocks, g)
    ensures Reaches(env, g, types, Start(bld, temps, vars, w), n, LowerInstr(types, bld, i),
                    RunInstr(env, types, fuel, s, w, i), fuel)
    decreases fuel, i, 2
  {
    hide Rel, Steps, SlotOf, Within, Reaches, LowerBlock, Placed, RunSet, Condition, Join, Run, ForkIf, ForkWhile, EnterLoop, CloseLoop;
    match i
    case Set(t, e) => n := SetSim(env, g, types, fuel, bld, t, e, s, w, temps, vars);
    case Return(l) =>
      if l in s { n := ReturnSim(env, g, types, fuel, bld, l, s, w, temps, vars); } else { n := NothingToShow(env, g, types, bld, i, temps, vars, w, fuel); }
    case If(c, t, e) =>
      if Condition(s, c).Some? { n := IfSim(env, g, types, fuel, bld, i, Condition(s, c).value, s, w, temps, vars); }
      else { n := NothingToShow(env, g, types, bld, i, temps, vars, w, fuel); }
    case While(cb, c, body) => n := WhileSim(env, g, types, fuel, bld, i, s, w, temps, vars);
  }

  lemma NothingToShow(env: Env, g: seq<Block>, types: seq<Ty>, bld: Builder, i: Instr, temps: Temps, vars: Vars, w: World, fuel: nat)
      returns (n: nat)
    requires bld.Valid()
    ensures Reaches(env, g, types, Start(bld, temps, vars, w), n, LowerInstr(types, bld, i), Wrong, fuel)
  {
    n := 0;
  }

  /** The parts of a lowered `if`. */
  lemma {:induction false} IfParts(types: seq<Ty>, bld: Builder, i: Instr, g: seq<Block>)
    requires bld.Valid() && i.If?
    requires var r := LowerInstr(types, bld, i); !r.exit.Panicked? && Within(r.bld.blocks, g)
    ensures var fork := ForkIf(types, bld, i.condition);
            && !fork.exit.Panicked? && Within(fork.bld.blocks, g)
            && var thenEnd := LowerBlock(types, fork.bld.Switch(|bld.blocks| + 1), i.thenBlock);
            var elseEnd := LowerBlock(types, thenEnd.bld.Switch(|bld.blocks|), i.elseBlock);
            && Arms(bld, thenEnd, elseEnd) && !thenEnd.exit.Panicked? && !elseEnd.exit.Panicked?
            && LowerInstr(types, bld, i) == Join(bld, thenEnd, elseEnd)
            && Within(thenEnd.bld.blocks, g) && Within(elseEnd.bld.blocks, g)
            && thenEnd.bld.blocks[|bld.blocks|] == [] && fork.bld.blocks[|bld.blocks| + 1] == []
  {
    hide LowerBlock, ForkIf, Join, Within;
    var fork := ForkIf(types, bld, i.condition);
    var thenStart := fork.bld.Switch(|bld.blocks| + 1);
    var thenEnd := LowerBlock(types, thenStart, i.thenBlock);
    var elseStart := thenEnd.bld.Switch(|bld.blocks|);
    var elseEnd := LowerBlock(types, elseStart, i.elseBlock);
    JoinFacts(bld, thenEnd, elseEnd, g);
    WithinBack(elseStart, elseEnd.bld, g);
    WithinBack(thenStart, thenEnd.bld, g);
    assert Within(fork.bld.blocks, g) && Within(thenEnd.bld.blocks, g);
  }

  lemma {:induction false} IfSim(env: Env, g: seq<Block>, types: seq<Ty>, fuel: nat, bld: Builder, i: Instr, b: bool,
                                 s: Store, w: World, temps: Temps, vars: Vars) returns (n: nat)
    requires bld.Valid() && Rel(types, s, vars) && i.If? && Condition(s, i.condition) == Some(b)
    requires var r := LowerInstr(types, bld, i); !r.exit.Panicked? && Within(r.bld.blocks, g)
    ensures Reaches(env, g, types, Start(bld, temps, vars, w), n, LowerInstr(types, bld, i),
                    Run(env, types, fuel, s, w, if b then i.thenBlock else i.elseBlock), fuel)
    decreases fuel, i, 0
  {
    hide Rel, Steps, SlotOf, Within, Condition, LowerBlock, LowerInstr, ForkIf, Join, Run, Reaches, Arms;
    IfParts(types, bld, i, g);
    var fork := ForkIf(types, bld, i.condition);
    var thenEnd := LowerBlock(types, fork.bld.Switch(|bld.blocks| + 1), i.thenBlock);
    var elseEnd := LowerBlock(types, thenEnd.bld.Switch(|bld.blocks|), i.elseBlock);
    var m, t1 := ForkIfSim(env, g, types, bld, i.condition, b, s, w, temps, vars);
    var arm, code := (if b then thenEnd else elseEnd), (if b then i.thenBlock else i.elseBlock);
    var from := At(if b then |bld.blocks| + 1 else |bld.blocks|, 0, t1, vars, w);
    var k;
    if b {
      k := BlockSim(env, g, types, fuel, fork.bld.Switch(|bld.blocks| + 1), i.thenBlock, s, w, t1, vars);
    } else {
      k := BlockSim(env, g, types, fuel, thenEnd.bld.Switch(|bld.blocks|), i.elseBlock, s, w, t1, vars);
    }
    var r := Run(env, types, fuel, s, w, code);
    k := ArmEnds(env, g, types, bld, thenEnd, elseEnd, b, from, k, r, fuel);
    Chain(env, g, types, Start(bld, temps, vars, w), m, from, k, LowerInstr(types, bld, i), r, fuel, fuel);
    n := m + k;
  }

  /** From the end of an arm to the block after the join. */
  lemma ArmEnds(env: Env, g: seq<Block>, types: seq<Ty>, bld: Builder, thenEnd: Lowered, elseEnd: Lowered, b: bool,
                c: Config, k: nat, r: Result, fuel: nat) returns (n: nat)
    requires Arms(bld, thenEnd, elseEnd) && Within(Join(bld, thenEnd, elseEnd).bld.blocks, g)
    requires Reaches(env, g, types, c, k, if b then thenEnd else elseEnd, r, fuel)
    ensures Reaches(env, g, types, c, n, Join(bld, thenEnd, elseEnd), r, fuel)
  {
    hide Rel, Steps, SlotOf, Within, Join, CodeAt;
    n := k;
    if r.Normal? {
      JoinFacts(bld, thenEnd, elseEnd, g);
      var arm, join := (if b then thenEnd else elseEnd), Join(bld, thenEnd, elseEnd);
      var mid := Steps(env, g, k, c);
      JumpSim(env, g, arm.bld.cur, |arm.bld.blocks[arm.bld.cur]|, join.bld.cur, mid.temps, mid.vars, r.w);
      Chain(env, g, types, c, k, mid, 1, join, r, fuel, fuel);
      n := k + 1;
    }
  }

  // ----- loops -----

  /** The parts of a lowered `while` whose condition block can be left at its end. */
  lemma {:induction false} WhileParts(types: seq<Ty>, bld: Builder, i: Instr, g: seq<Block>)
    requires bld.Valid() && i.While?
    requires var r := LowerInstr(types, bld, i); !r.exit.Panicked? && Within(r.bld.blocks, g)
    ensures Within(EnterLoop(bld).blocks, g)
    ensures var condEnd := LowerBlock(types, EnterLoop(bld), i.conditionBlock);
            && !condEnd.exit.Panicked? && Within(condEnd.bld.blocks, g)
            && (!condEnd.exit.Loose? ==> LowerInstr(types, bld, i) == condEnd)
            && (condEnd.exit.Loose? ==> Looping(types, bld, i, condEnd, g))
  {
    hide LowerBlock, ForkWhile, EnterLoop, CloseLoop, Within;
    var condEnd := LowerBlock(types, EnterLoop(bld), i.conditionBlock);
    if condEnd.exit.Loose? {
      var fork := ForkWhile(types, condEnd.bld, i.condition);
      var bodyEnd := LowerBlock(types, fork.bld.Switch(|condEnd.bld.blocks|), i.body);
      var closed := CloseLoop(bodyEnd, |bld.blocks|);
      WithinBack(bodyEnd.bld, closed, g);
      WithinBack(fork.bld.Switch(|condEnd.bld.blocks|), bodyEnd.bld, g);
      WithinBack(condEnd.bld, fork.bld, g);
      ClosedLoop(bodyEnd, |bld.blocks|, g);
    }
    WithinBack(EnterLoop(bld), condEnd.bld, g);
  }

  ghost predicate Looping(types: seq<Ty>, bld: Builder, i: Instr, condEnd: Lowered, g: seq<Block>)
    requires bld.Valid() && i.While? && condEnd.bld.Valid()
  {
    var k := |condEnd.bld.blocks|;
    var fork := ForkWhile(types, condEnd.bld, i.condition);
    && !fork.exit.Panicked? && Within(fork.bld.blocks, g)
    && var bodyEnd := LowerBlock(types, fork.bld.Switch(k), i.body);
    && !bodyEnd.exit.Panicked? && Within(bodyEnd.bld.blocks, g)
    && (bodyEnd.exit.Loose? ==> CodeAt(g, bodyEnd.bld.cur, |bodyEnd.bld.blocks[bodyEnd.bld.cur]|, [Jump(|bld.blocks|)]))
    && var r := LowerInstr(types, bld, i);
    && r.exit.Loose? && r.bld.Valid() && r.bld.cur == k + 1 && r.bld.blocks[k + 1] == []
    && fork.bld.blocks[k] == []
  }

  lemma ClosedLoop(bodyEnd: Lowered, head: nat, g: seq<Block>)
    requires bodyEnd.bld.Valid() && Within(CloseLoop(bodyEnd, head).blocks, g)
    ensures bodyEnd.exit.Loose? ==> CodeAt(g, bodyEnd.bld.cur, |bodyEnd.bld.blocks[bodyEnd.bld.cur]|, [Jump(head)])
  {
    hide Within;
    if bodyEnd.exit.Loose? { EmittedAt(bodyEnd.bld, [Jump(head)], bodyEnd.bld.next, g); }
  }

  lemma {:induction false} WhileSim(env: Env, g: seq<Block>, types: seq<Ty>, fuel: nat, bld: Builder, i: Instr,
                                    s: Store, w: World, temps: Temps, vars: Vars) returns (n: nat)
    requires bld.Valid() && Rel(types, s, vars) && i.While?
    requires var r := LowerInstr(types, bld, i); !r.exit.Panicked? && Within(r.bld.blocks, g)
    ensures Reaches(env, g, types, Start(bld, temps, vars, w), n, LowerInstr(types, bld, i),
                    RunInstr(env, types, fuel, s, w, i), fuel)
    decreases fuel, i, 1
  {
    hide Rel, Steps, SlotOf, Within, LowerInstr, LowerBlock, RunInstr, Reaches, CodeAt;
    WhileParts(types, bld, i, g);
    EmittedAt(bld.Append(), [Jump(|bld.blocks|)], bld.next, g);
    JumpSim(env, g, bld.cur, |bld.blocks[bld.cur]|, |bld.blocks|, temps, vars, w);
    var m := LoopSim(env, g, types, fuel, bld, i, s, w, temps, vars);
    Chain(env, g, types, Start(bld, temps, vars, w), 1, At(|bld.blocks|, 0, temps, vars, w), m, LowerInstr(types, bld, i),
          RunInstr(env, types, fuel, s, w, i), fuel, fuel);
    n := 1 + m;
  }

  /** From the head of the loop. */
  lemma {:induction false} LoopSim(env: Env, g: seq<Block>, types: seq<Ty>, fuel: nat, bld: Builder, i: Instr,
                                   s: Store, w: World, temps: Temps, vars: Vars) returns (n: nat)
    requires bld.Valid() && Rel(types, s, vars) && i.While?
    requires var r := LowerInstr(types, bld, i); !r.exit.Panicked? && Within(r.bld.blocks, g)
    ensures Reaches(env, g, types, At(|bld.blocks|, 0, temps, vars, w), n, LowerInstr(types, bld, i),
                    RunInstr(env, types, fuel, s, w, i), fuel)
    decreases fuel, i, 0
  {
    hide Rel, Steps, SlotOf, Within, LowerInstr, LowerBlock, Run, CodeAt, Condition, ForkWhile, EnterLoop;
    var c := At(|bld.blocks|, 0, temps, vars, w);
    if fuel == 0 {
      n := 0;
      NoSteps(env, g, c);
    } else {
      WhileParts(types, bld, i, g);
      var condEnd := LowerBlock(types, EnterLoop(bld), i.conditionBlock);
      n := BlockSim(env, g, types, fuel, EnterLoop(bld), i.conditionBlock, s, w, temps, vars);
      match Run(env, types, fuel, s, w, i.conditionBlock) {
        case Normal(s1, w1) =>
          if Condition(s1, i.condition).Some? {
            var mid := Steps(env, g, n, c);
            var m := IterationSim(env, g, types, fuel, bld, i, Condition(s1, i.condition).value, condEnd, s1, w1, mid.temps, mid.vars);
            Chain(env, g, types, c, n, mid, m, LowerInstr(types, bld, i), RunInstr(env, types, fuel, s, w, i), fuel, fuel);
            n := n + m;
          }
        case _ =>
      }
    }
  }

  /** What is left of a run of a loop once its condition block has ended normally. */
  ghost function AfterCondition(env: Env, types: seq<Ty>, fuel: nat, i: Instr, b: bool, s: Store, w: World): Result
    requires fuel > 0 && i.While?
  {
    if !b then Normal(s, w)
    else
      match Run(env, types, fuel, s, w, i.body)
      case Normal(s2, w2) => RunInstr(env, types, fuel - 1, s2, w2, i)
      case other => other
  }

  lemma {:induction false} IterationSim(env: Env, g: seq<Block>, types: seq<Ty>, fuel: nat, bld: Builder, i: Instr, b: bool,
                                        condEnd: Lowered, s: Store, w: World, temps: Temps, vars: Vars) returns (n: nat)
    requires bld.Valid() && Rel(types, s, vars) && i.While? && fuel > 0 && Condition(s, i.condition) == Some(b)
    requires var r := LowerInstr(types, bld, i); !r.exit.Panicked? && Within(r.bld.blocks, g)
    requires condEnd.bld.Valid() && Looping(types, bld, i, condEnd, g)
    ensures Reaches(env, g, types, Start(condEnd.bld, temps, vars, w), n, LowerInstr(types, bld, i),
                    AfterCondition(env, types, fuel, i, b, s, w), fuel)
    decreases fuel, i.body, 2
  {
    hide Rel, Steps, SlotOf, Within, LowerInstr, LowerBlock, Run, RunInstr, CodeAt, Condition, ForkWhile;
    var k := |condEnd.bld.blocks|;
    var c := Start(condEnd.bld, temps, vars, w);
    var m, t1 := ForkWhileSim(env, g, types, condEnd.bld, i.condition, b, s, w, temps, vars);
    n := m;
    if b {
      var fork := ForkWhile(types, condEnd.bld, i.condition);
      var bodyEnd := LowerBlock(types, fork.bld.Switch(k), i.body);
      var from := At(k, 0, t1, vars, w);
      var p := BlockSim(env, g, types, fuel, fork.bld.Switch(k), i.body, s, w, t1, vars);
      var r := AfterCondition(env, types, fuel, i, b, s, w);
      match Run(env, types, fuel, s, w, i.body) {
        case Normal(s2, w2) =>
          var mid := Steps(env, g, p, from);
          JumpSim(env, g, bodyEnd.bld.cur, |bodyEnd.bld.blocks[bodyEnd.bld.cur]|, |bld.blocks|, mid.temps, mid.vars, w2);
          var again := At(|bld.blocks|, 0, mid.temps, mid.vars, w2);
          var q := LoopSim(env, g, types, fuel - 1, bld, i, s2, w2, mid.temps, mid.vars);
          Chain(env, g, types, mid, 1, again, q, LowerInstr(types, bld, i), r, fuel - 1, fuel - 1);
          Chain(env, g, types, from, p, mid, 1 + q, LowerInstr(types, bld, i), r, fuel - 1, fuel - 1);
          Chain(env, g, types, c, m, from, p + (1 + q), LowerInstr(types, bld, i), r, fuel - 1, fuel);
          n := m + (p + (1 + q));
        case _ =>
          Chain(env, g, types, c, m, from, p, LowerInstr(types, bld, i), r, fuel, fuel);
          n := m + p;
      }
    }
  }

  // ----- functions -----

  function StoreUpTo(args: seq<Value>, p: nat): Store
    requires p <= |args|
  {
    map i: nat | i < p :: args[i]
  }

  predicate WfArgs(types: seq<Ty>, args: seq<Value>) {
    |args| <= |types| && forall i | 0 <= i < |args| :: WfValue(args[i]) && TypeOf(args[i]) == types[i]
  }

  /** A call starts with the arguments, type erased, in the first temporaries. */
  function EntryConfig(args: seq<Value>, w: World): Config {
    At(0, 0, map t: nat | t < |Slots(args)| :: Slots(args)[t], map[], w)
  }

  lemma {:induction false} PrologueRuns(env: Env, types: seq<Ty>, args: seq<Value>, param: nat, arg: nat,
                                        temps: Temps, vars: Vars, w: World) returns (vars': Vars)
    requires WfArgs(types, args) && param <= |args|
    requires Rel(types, StoreUpTo(args, param), vars) && HoldAt(temps, arg, Slots(args[param..]))
    ensures RunCode(env, Prologue(types, param, |args|, arg), temps, vars, w) == Next(temps, vars', w)
    ensures Rel(types, StoreUpTo(args, |args|), vars')
    decreases |args| - param
  {
    hide SlotOf, ShapeOf, WfValue, TypeOf, RunCode, Rel, StoreUpTo, HoldAt;
    if param == |args| {
      vars' := vars;
      RunEmpty(env, temps, vars, w);
    } else {
      var v := args[param];
      ShapeAgrees(v);
      assert args[param..][0] == v && args[param..][1..] == args[param + 1..];
      StoreOneMore(types, args, param, vars);
      if SlotOf(v).Some? {
        var vars1 := vars[param := SlotOf(v).value];
        FirstHeld(temps, arg, SlotOf(v).value, Slots(args[param + 1..]));
        var def := DefVar(param, Tmp(arg));
        RunOne(env, def, temps, vars, w);
        vars' := PrologueRuns(env, types, args, param + 1, arg + 1, temps, vars1, w);
        RunCodeConcat(env, [def], Prologue(types, param + 1, |args|, arg + 1), temps, vars, w);
      } else {
        assert [] + Slots(args[param + 1..]) == Slots(args[param + 1..]);
        vars' := PrologueRuns(env, types, args, param + 1, arg, temps, vars, w);
      }
    }
  }

  /** One more argument in the store, and in the variables if it exists at run time. */
  lemma {:induction false} StoreOneMore(types: seq<Ty>, args: seq<Value>, param: nat, vars: Vars)
    requires WfArgs(types, args) && param < |args| && Rel(types, StoreUpTo(args, param), vars)
    ensures SlotOf(args[param]).Some? ==> Rel(types, StoreUpTo(args, param + 1), vars[param := SlotOf(args[param]).value])
    ensures SlotOf(args[param]).None? ==> Rel(types, StoreUpTo(args, param + 1), vars)
  {
    hide SlotOf, ShapeOf, WfValue, TypeOf;
    ShapeAgrees(args[param]);
  }

  lemma FirstHeld(temps: Temps, next: nat, x: Slot, rest: seq<Slot>)
    requires HoldAt(temps, next, [x] + rest)
    ensures next in temps && temps[next] == x && HoldAt(temps, next + 1, rest)
  {
  }

  /** How a run of a function body ends for its caller; falling off the end is a trap. */
  function FunctionOutcome(r: Result): Option<Outcome> {
    match r
    case Normal(_, w) => Some(Trapped(w))
    case Halted(w) => Some(Outcome.Halted(w))
    case Returned(v, w) => Some(Outcome.Returned(SlotOf(v), w))
    case _ => None
  }

  /** One run of a function, followed by its graph. */
  lemma FunctionSim(env: Env, types: seq<Ty>, body: seq<Instr>, args: seq<Value>, w: World, fuel: nat) returns (n: nat)
    requires WfArgs(types, args) && !LowerFunction(types, |args|, body).exit.Panicked?
    ensures var g := LowerFunction(types, |args|, body).bld.blocks;
            var r := Run(env, types, fuel, StoreUpTo(args, |args|), w, body);
            && (FunctionOutcome(r).Some? ==> Steps(env, g, n, EntryConfig(args, w)) == Done(FunctionOutcome(r).value))
            && (r.OutOfFuel? ==> n >= fuel && Steps(env, g, n, EntryConfig(args, w)).At?)
  {
    hide Steps, Run, LowerBlock, LowerFunction, Slots, EntryConfig, Rel, Entry, SlotOf, StoreUpTo, WfArgs, Start;
    var r := LowerBlock(types, Entry(types, |args|), body);
    var g := LowerFunction(types, |args|, body).bld.blocks;
    GraphOf(types, |args|, body);
    PrefixWithin(r, g);
    n := EntryAndBody(env, types, body, args, w, fuel, g);
    n := FallOff(env, g, types, EntryConfig(args, w), n, r, Run(env, types, fuel, StoreUpTo(args, |args|), w, body), fuel);
  }

  lemma {:induction false} GraphOf(types: seq<Ty>, n: nat, body: seq<Instr>)
    ensures var r := LowerBlock(types, Entry(types, n), body);
            var f := LowerFunction(types, n, body);
            && (r.exit.Panicked? <==> f.exit.Panicked?)
            && f.bld.blocks == if r.exit.Loose? then r.bld.Emit([Invalid], r.bld.next).blocks else r.bld.blocks
  {
    hide LowerBlock, Entry;
  }

  /** A body that ran to its end runs into the trap. */
  lemma FallOff(env: Env, g: seq<Block>, types: seq<Ty>, c: Config, k: nat, r: Lowered, res: Result, fuel: nat) returns (n: nat)
    requires r.bld.Valid() && g == if r.exit.Loose? then r.bld.Emit([Invalid], r.bld.next).blocks else r.bld.blocks
    requires Reaches(env, g, types, c, k, r, res, fuel)
    ensures FunctionOutcome(res).Some? ==> Steps(env, g, n, c) == Done(FunctionOutcome(res).value)
    ensures res.OutOfFuel? ==> n >= fuel && Steps(env, g, n, c).At?
  {
    hide Steps, Rel, SlotOf;
    n := k;
    if res.Normal? {
      var mid := Steps(env, g, k, c);
      TrapSim(env, g, r.bld, mid.temps, mid.vars, res.w);
      StepsAdd(env, g, k, 1, c);
      n := k + 1;
    }
  }

  lemma EntryAndBody(env: Env, types: seq<Ty>, body: seq<Instr>, args: seq<Value>, w: World, fuel: nat, g: seq<Block>)
      returns (n: nat)
    requires WfArgs(types, args)
    requires var r := LowerBlock(types, Entry(types, |args|), body); !r.exit.Panicked? && Within(r.bld.blocks, g)
    ensures Reaches(env, g, types, EntryConfig(args, w), n, LowerBlock(types, Entry(types, |args|), body),
                    Run(env, types, fuel, StoreUpTo(args, |args|), w, body), fuel)
  {
    hide Run, LowerBlock, Steps, Entry, EntryConfig, Rel, StoreUpTo, WfArgs, Within, Reaches;
    var entry := Entry(types, |args|);
    var r := LowerBlock(types, entry, body);
    WithinBack(entry, r.bld, g);
    var c := EntryConfig(args, w);
    var a, temps, vars := EntrySim(env, types, args, w, g);
    var b := BlockSim(env, g, types, fuel, entry, body, StoreUpTo(args, |args|), w, temps, vars);
    Chain(env, g, types, c, a, Start(entry, temps, vars, w), b, r,
          Run(env, types, fuel, StoreUpTo(args, |args|), w, body), fuel, fuel);
    n := a + b;
  }

  /** The prologue moves the arguments into their variables. */
  lemma EntrySim(env: Env, types: seq<Ty>, args: seq<Value>, w: World, g: seq<Block>)
      returns (n: nat, temps: Temps, vars: Vars)
    requires WfArgs(types, args) && Within(Entry(types, |args|).blocks, g)
    ensures Steps(env, g, n, EntryConfig(args, w)) == Start(Entry(types, |args|), temps, vars, w)
    ensures Rel(types, StoreUpTo(args, |args|), vars)
  {
    hide RunCode, Steps, Prologue, CodeAt, Slots, Within, WfArgs;
    var c := EntryConfig(args, w);
    temps := c.temps;
    assert args[0..] == args;
    assert Rel(types, StoreUpTo(args, 0), map[]);
    vars := PrologueRuns(env, types, args, 0, 0, temps, map[], w);
    PrologueAt(types, |args|, g);
    n := CodeSteps(env, g, 0, 0, Prologue(types, 0, |args|, 0), temps, map[], w);
  }

  lemma PrefixWithin(r: Lowered, g: seq<Block>)
    requires r.bld.Valid() && g == if r.exit.Loose? then r.bld.Emit([Invalid], r.bld.next).blocks else r.bld.blocks
    ensures Within(r.bld.blocks, g)
  {
  }

  lemma {:induction false} PrologueAt(types: seq<Ty>, n: nat, g: seq<Block>)
    requires Within(Entry(types, n).blocks, g)
    ensures CodeAt(g, 0, 0, Prologue(types, 0, n, 0))
  {
    hide Prologue;
    var p := Prologue(types, 0, n, 0);
    assert Entry(types, n).blocks[0] == p;
    PrefixAt([], p, g[0]);
    assert [] + p == p;
  }

  lemma {:induction false} TrapSim(env: Env, g: seq<Block>, bld: Builder, temps: Temps, vars: Vars, w: World)
    requires bld.Valid() && g == bld.Emit([Invalid], bld.next).blocks
    ensures Steps(env, g, 1, Start(bld, temps, vars, w)) == Done(Trapped(w))
  {
    var c := Start(bld, temps, vars, w);
    assert g[bld.cur][|bld.blocks[bld.cur]|] == Invalid;
    assert Steps(env, g, 1, c) == Steps(env, g, 0, Step(env, g, c));
  }

  ghost predicate BodyEnds(env: Env, types: seq<Ty>, body: seq<Instr>, args: seq<Value>, w: World, o: Outcome) {
    exists fuel: nat :: FunctionOutcome(Run(env, types, fuel, StoreUpTo(args, |args|), w, body)) == Some(o)
  }

  ghost predicate GraphEnds(env: Env, g: seq<Block>, c: Config, o: Outcome) {
    exists n: nat :: Steps(env, g, n, c) == Done(o)
  }

  /**
   * The graph of a function ends with an outcome exactly if its structured body does: the same return value, the
   * same halt, the same trap, after the same effects. In particular it runs forever exactly if the body does.
   */
  lemma {:induction false} LoweringPreservesMeaning(env: Env, types: seq<Ty>, body: seq<Instr>, args: seq<Value>, w: World, o: Outcome)
    requires WfArgs(types, args) && !LowerFunction(types, |args|, body).exit.Panicked?
    requires forall fuel: nat :: !Run(env, types, fuel, StoreUpTo(args, |args|), w, body).Wrong?
    ensures var g := LowerFunction(types, |args|, body).bld.blocks;
            BodyEnds(env, types, body, args, w, o) <==> GraphEnds(env, g, EntryConfig(args, w), o)
  {
    hide Run, Steps, LowerFunction, EntryConfig, StoreUpTo;
    var g := LowerFunction(types, |args|, body).bld.blocks;
    var c := EntryConfig(args, w);
    if BodyEnds(env, types, body, args, w, o) {
      var fuel: nat :| FunctionOutcome(Run(env, types, fuel, StoreUpTo(args, |args|), w, body)) == Some(o);
      var n := FunctionSim(env, types, body, args, w, fuel);
    }
    if GraphEnds(env, g, c, o) {
      var k: nat :| Steps(env, g, k, c) == Done(o);
      var n := FunctionSim(env, types, body, args, w, k);
      SameEnd(env, g, c, k, n);
      var r := Run(env, types, k, StoreUpTo(args, |args|), w, body);
      assert FunctionOutcome(r) == Some(o);
    }
  }

  lemma {:induction false} SameEnd(env: Env, g: seq<Block>, c: Config, a: nat, b: nat)
    requires Steps(env, g, a, c).Done?
    ensures a <= b || Steps(env, g, b, c).Done? ==> Steps(env, g, b, c) == Steps(env, g, a, c)
  {
    hide Steps;
    if a <= b { StaysDone(env, g, a, b, c); } else if Steps(env, g, b, c).Done? { StaysDone(env, g, b, a, c); }
  }
}
