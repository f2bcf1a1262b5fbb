/** The straight-line code of one MIR instruction does what the instruction does. */
module PieceProof {
  import opened Values
  import opened Memory
  import opened World
  import opened Mir
  import opened Graph
  import opened Lowering
  import Evm
  import MemoryOps

  // ----- stores and variables -----

  predicate WfStore(types: seq<Ty>, s: Store) {
    forall l | l in s :: l < |types| && TypeOf(s[l]) == types[l] && WfValue(s[l])
  }

  /** Every local that exists at run time is held, type erased, by its variable. */
  predicate Rel(types: seq<Ty>, s: Store, vars: Vars) {
    && WfStore(types, s)
    && forall l | l in s && SlotOf(s[l]).Some? :: l in vars && vars[l] == SlotOf(s[l]).value
  }

  /** A value leaves something behind at run time exactly if its type has a shape. */
  lemma {:induction false} ShapeAgrees(v: Value)
    requires WfValue(v)
    ensures SlotOf(v).Some? <==> ShapeOf(TypeOf(v)).Some?
    decreases v
  {
    match v
    case Struct(ty, fs) =>
      forall i | 0 <= i < |fs| ensures SlotOf(fs[i]).Some? <==> ShapeOf(ty.fields[i].ty).Some? {
        ShapeAgrees(fs[i]);
      }
      AllOrSome(ty, fs);
    case _ =>
  }

  lemma {:induction false} AllOrSome(ty: Ty, fs: seq<Value>)
    requires ty.TStruct? && |fs| == |ty.fields|
    requires forall i | 0 <= i < |fs| :: SlotOf(fs[i]).Some? <==> ShapeOf(ty.fields[i].ty).Some?
    ensures SlotOf(Struct(ty, fs)).Some? <==> ShapeOf(ty).Some?
  {
    if i :| 0 <= i < |fs| && SlotOf(fs[i]) != None {
      assert ShapeOf(ty.fields[i].ty) != None;
    } else {
      forall i | 0 <= i < |ty.fields| ensures ShapeOf(ty.fields[i].ty) == None {
        assert SlotOf(fs[i]) == None;
      }
    }
  }

  lemma LocalShape(types: seq<Ty>, s: Store, l: nat)
    requires WfStore(types, s) && l in s
    ensures l < |types| && (SlotOf(s[l]).Some? <==> ShapeOf(types[l]).Some?)
  {
    ShapeAgrees(s[l]);
  }

  // ----- running pieces -----

  /** Temporaries below `n` are as before. */
  ghost predicate Keeps(a: Temps, b: Temps, n: nat) {
    forall t | 0 <= t < n :: (t in b <==> t in a) && (t in a ==> b[t] == a[t])
  }

  /** The code runs through, changes the world to `w'` and no variable, and leaves `slot` in its result. */
  ghost predicate Gives(env: Env, p: Piece, next: nat, temps: Temps, vars: Vars, w: World, slot: Option<Slot>, w': World) {
    && p.Yields? && p.next >= next && p.out.Some? == slot.Some?
    && var f := RunCode(env, p.code, temps, vars, w);
    && f.Next? && f.vars == vars && f.w == w' && Keeps(temps, f.temps, next)
    && (slot.Some? ==> Get(f.temps, p.out.value) == slot && Below(p.out.value, p.next))
  }

  predicate Below(o: Operand, n: nat) {
    o.Tmp? ==> o.id < n
  }

  lemma {:induction false} RunEmpty(env: Env, temps: Temps, vars: Vars, w: World)
    ensures RunCode(env, [], temps, vars, w) == Next(temps, vars, w)
  {
    hide Exec;
  }

  lemma {:induction false} UseVarRuns(env: Env, t: nat, l: nat, temps: Temps, vars: Vars, w: World)
    requires l in vars
    ensures RunCode(env, [UseVar(t, l)], temps, vars, w) == Next(temps[t := vars[l]], vars, w)
  {
    RunOne(env, UseVar(t, l), temps, vars, w);
  }

  lemma ReadLocalGives(env: Env, types: seq<Ty>, s: Store, next: nat, l: nat, temps: Temps, vars: Vars, w: World)
    requires Rel(types, s, vars) && l in s
    ensures Gives(env, ReadLocal(types, next, l), next, temps, vars, w, SlotOf(s[l]), w)
  {
    hide ShapeOf, SlotOf, WfValue, TypeOf;
    LocalShape(types, s, l);
    if SlotOf(s[l]).Some? { UseVarRuns(env, next, l, temps, vars, w); } else { RunEmpty(env, temps, vars, w); }
  }

  /** Two pieces in a row. */
  lemma {:induction false} Then(env: Env, p: Piece, q: Piece, next: nat, temps: Temps, vars: Vars, w: World,
             first: Option<Slot>, w1: World, slot: Option<Slot>, w2: World)
    requires Gives(env, p, next, temps, vars, w, first, w1)
    requires Gives(env, q, p.next, RunCode(env, p.code, temps, vars, w).temps, vars, w1, slot, w2)
    ensures Gives(env, Prepend(p.code, q), next, temps, vars, w, slot, w2)
  {
    hide RunCode, Get;
    RunCodeConcat(env, p.code, q.code, temps, vars, w);
  }

  // ----- aggregates -----

  /** The first i fields are in place. */
  function Partial(vs: seq<Value>, i: nat): Slot {
    AggSlot(seq(|vs|, j requires 0 <= j < |vs| => if j < i then SlotOf(vs[j]) else None))
  }

  lemma PartialStep(vs: seq<Value>, i: nat)
    requires i < |vs|
    ensures SlotOf(vs[i]).None? ==> Partial(vs, i + 1) == Partial(vs, i)
    ensures SlotOf(vs[i]).Some? ==> Inserted(Some(Partial(vs, i)), i, SlotOf(vs[i])) == Some(Partial(vs, i + 1))
  {
    hide SlotOf;
    var a, b := Partial(vs, i).elems, Partial(vs, i + 1).elems;
    if SlotOf(vs[i]).None? { assert a == b; } else { assert a[i := SlotOf(vs[i])] == b; }
  }

  lemma PartialStart(temps: Temps, vs: seq<Value>)
    ensures Get(temps, Undef(|vs|)) == Some(Partial(vs, 0))
  {
    hide SlotOf;
    assert seq(|vs|, _ => None) == Partial(vs, 0).elems;
  }

  lemma {:induction false} PartialDone(ty: Ty, vs: seq<Value>, n: nat)
    requires SlotOf(Struct(ty, vs)).Some? && n >= |vs|
    ensures SlotOf(Struct(ty, vs)) == Some(Partial(vs, n))
  {
    var e := SlotOf(Struct(ty, vs)).value.elems;
    assert e == Partial(vs, n).elems;
  }

  /** An element is put in place, once its own code has run. */
  lemma InsertGives(env: Env, p: Piece, next: nat, agg: Operand, vs: seq<Value>, i: nat, temps: Temps, vars: Vars, w: World)
    requires i < |vs| && SlotOf(vs[i]).Some?
    requires Gives(env, p, next, temps, vars, w, SlotOf(vs[i]), w)
    requires Get(temps, agg) == Some(Partial(vs, i)) && Below(agg, next)
    ensures Gives(env, Yields(p.code + [Insert(p.next, agg, i, p.out.value)], Some(Tmp(p.next)), p.next + 1),
                  next, temps, vars, w, Some(Partial(vs, i + 1)), w)
  {
    hide RunCode, SlotOf, Partial, Inserted;
    var ins := Insert(p.next, agg, i, p.out.value);
    RunCodeConcat(env, p.code, [ins], temps, vars, w);
    var t1 := RunCode(env, p.code, temps, vars, w).temps;
    RunOne(env, ins, t1, vars, w);
    PartialStep(vs, i);
  }

  lemma {:induction false} LocalsGive(env: Env, types: seq<Ty>, s: Store, next: nat, agg: Operand, fields: seq<nat>,
                                      vs: seq<Value>, i: nat, temps: Temps, vars: Vars, w: World)
    requires Rel(types, s, vars) && i <= |fields| && Lookup(s, fields) == Some(vs)
    requires Get(temps, agg) == Some(Partial(vs, i)) && Below(agg, next)
    ensures Gives(env, AggregateOfLocals(types, next, agg, fields, i), next, temps, vars, w, Some(Partial(vs, |vs|)), w)
    decreases |fields| - i
  {
    hide RunCode, SlotOf, Partial, ShapeOf, ReadLocal, Rel;
    if i == |fields| {
      RunEmpty(env, temps, vars, w);
    } else {
      var p := ReadLocal(types, next, fields[i]);
      ReadLocalGives(env, types, s, next, fields[i], temps, vars, w);
      if p.out.None? {
        PartialStep(vs, i);
        var t1 := RunCode(env, p.code, temps, vars, w).temps;
        StillGets(temps, t1, agg, next);
        LocalsGive(env, types, s, p.next, agg, fields, vs, i + 1, t1, vars, w);
        Then(env, p, AggregateOfLocals(types, p.next, agg, fields, i + 1), next, temps, vars, w,
             None, w, Some(Partial(vs, |vs|)), w);
      } else {
        InsertGives(env, p, next, agg, vs, i, temps, vars, w);
        var p1 := Yields(p.code + [Insert(p.next, agg, i, p.out.value)], Some(Tmp(p.next)), p.next + 1);
        var t1 := RunCode(env, p1.code, temps, vars, w).temps;
        LocalsGive(env, types, s, p1.next, Tmp(p.next), fields, vs, i + 1, t1, vars, w);
        Then(env, p1, AggregateOfLocals(types, p1.next, Tmp(p.next), fields, i + 1), next, temps, vars, w,
             Some(Partial(vs, i + 1)), w, Some(Partial(vs, |vs|)), w);
      }
    }
  }

  lemma StillGets(a: Temps, b: Temps, o: Operand, n: nat)
    requires Keeps(a, b, n) && Below(o, n)
    ensures Get(b, o) == Get(a, o)
  {
  }

  lemma {:induction false} ConstantGives(env: Env, next: nat, v: Value, temps: Temps, vars: Vars, w: World)
    requires WfValue(v)
    ensures Constant(next, v).Yields? ==> Gives(env, Constant(next, v), next, temps, vars, w, SlotOf(v), w)
    decreases v, 0
  {
    RunEmpty(env, temps, vars, w);
    hide RunCode, ShapeOf, AggregateOfValues;
    match v
    case Struct(ty, fs) =>
      ShapeAgrees(v);
      hide SlotOf;
      if ShapeOf(ty).Some? {
        PartialStart(temps, fs);
        ValuesGive(env, next, Undef(|fs|), fs, 0, temps, vars, w);
        PartialDone(ty, fs, |fs|);
      }
    case _ =>
  }

  lemma {:induction false} ValuesGive(env: Env, next: nat, agg: Operand, fs: seq<Value>, i: nat, temps: Temps, vars: Vars, w: World)
    requires i <= |fs| && forall j | 0 <= j < |fs| :: WfValue(fs[j])
    requires Get(temps, agg) == Some(Partial(fs, i)) && Below(agg, next)
    ensures AggregateOfValues(next, agg, fs, i).Yields? ==>
              Gives(env, AggregateOfValues(next, agg, fs, i), next, temps, vars, w, Some(Partial(fs, |fs|)), w)
    decreases fs, |fs| - i
  {
    hide RunCode, SlotOf, Partial, Constant, WfValue;
    if i == |fs| {
      RunEmpty(env, temps, vars, w);
    } else {
      var p := Constant(next, fs[i]);
      ConstantGives(env, next, fs[i], temps, vars, w);
      if p.Yields? && p.out.None? {
        PartialStep(fs, i);
        var t1 := RunCode(env, p.code, temps, vars, w).temps;
        StillGets(temps, t1, agg, next);
        ValuesGive(env, p.next, agg, fs, i + 1, t1, vars, w);
        if AggregateOfValues(p.next, agg, fs, i + 1).Yields? {
          Then(env, p, AggregateOfValues(p.next, agg, fs, i + 1), next, temps, vars, w,
               None, w, Some(Partial(fs, |fs|)), w);
        }
      } else if p.Yields? {
        InsertGives(env, p, next, agg, fs, i, temps, vars, w);
        var p1 := Yields(p.code + [Insert(p.next, agg, i, p.out.value)], Some(Tmp(p.next)), p.next + 1);
        var t1 := RunCode(env, p1.code, temps, vars, w).temps;
        ValuesGive(env, p1.next, Tmp(p.next), fs, i + 1, t1, vars, w);
        if AggregateOfValues(p1.next, Tmp(p.next), fs, i + 1).Yields? {
          Then(env, p1, AggregateOfValues(p1.next, Tmp(p.next), fs, i + 1), next, temps, vars, w,
               Some(Partial(fs, i + 1)), w, Some(Partial(fs, |fs|)), w);
        }
      }
    }
  }

  lemma FieldGives(env: Env, types: seq<Ty>, s: Store, next: nat, obj: nat, i: nat, temps: Temps, vars: Vars, w: World)
    requires Rel(types, s, vars) && obj in s && s[obj].Struct? && i < |s[obj].fields|
    requires ReadField(types, next, obj, i).Yields?
    ensures Gives(env, ReadField(types, next, obj, i), next, temps, vars, w, SlotOf(s[obj].fields[i]), w)
  {
    hide RunCode, Partial;
    var v := s[obj];
    FieldOf(types, s, obj, i);
    ShapeAgrees(v.fields[i]);
    hide SlotOf, ShapeOf, WfValue, TypeOf, Extracted;
    if SlotOf(v.fields[i]).None? {
      RunEmpty(env, temps, vars, w);
    } else {
      ExtractRuns(env, next, obj, i, SlotOf(v).value, temps, vars, w);
    }
  }

  lemma FieldOf(types: seq<Ty>, s: Store, obj: nat, i: nat)
    requires WfStore(types, s) && obj in s && s[obj].Struct? && i < |s[obj].fields|
    ensures var v := s[obj];
            && obj < |types| && types[obj].TStruct? && i < |types[obj].fields|
            && WfValue(v.fields[i]) && TypeOf(v.fields[i]) == types[obj].fields[i].ty
            && (SlotOf(v.fields[i]).Some? ==> SlotOf(v).Some? && Extracted(SlotOf(v), i) == SlotOf(v.fields[i]))
  {
    var v := s[obj];
    if SlotOf(v.fields[i]).Some? { PartialDone(v.sty, v.fields, |v.fields|); }
  }

  lemma ExtractRuns(env: Env, next: nat, obj: nat, i: nat, agg: Slot, temps: Temps, vars: Vars, w: World)
    requires obj in vars && vars[obj] == agg && Extracted(Some(agg), i).Some?
    ensures RunCode(env, [UseVar(next, obj), Extract(next + 1, Tmp(next), i)], temps, vars, w)
            == Next(temps[next := agg][next + 1 := Extracted(Some(agg), i).value], vars, w)
  {
    hide RunCode;
    var use, ext := UseVar(next, obj), Extract(next + 1, Tmp(next), i);
    UseVarRuns(env, next, obj, temps, vars, w);
    RunCodeConcat(env, [use], [ext], temps, vars, w);
    assert [use] + [ext] == [use, ext];
    RunOne(env, ext, temps[next := agg], vars, w);
  }

  // ----- reading operands -----

  /** The temporaries from `next` on hold these slots. */
  ghost predicate HoldAt(temps: Temps, next: nat, slots: seq<Slot>) {
    forall t | next <= t < next + |slots| :: t in temps && temps[t] == slots[t - next]
  }

  predicate VarsHold(vars: Vars, locals: seq<nat>, slots: seq<Slot>) {
    |slots| == |locals| && forall i | 0 <= i < |locals| :: locals[i] in vars && vars[locals[i]] == slots[i]
  }

  lemma {:induction false} ReadsRun(env: Env, next: nat, locals: seq<nat>, slots: seq<Slot>, temps: Temps, vars: Vars, w: World)
    requires VarsHold(vars, locals, slots)
    ensures var f := RunCode(env, ReadCode(next, locals), temps, vars, w);
            && f.Next? && f.vars == vars && f.w == w && Keeps(temps, f.temps, next)
            && HoldAt(f.temps, next, slots)
            && GetAll(f.temps, Tmps(next, |locals|)) == Some(slots)
    decreases |locals|
  {
    hide RunCode, Tmps, GetAll, Keeps, HoldAt;
    var code := ReadCode(next, locals);
    if locals == [] {
      RunEmpty(env, temps, vars, w);
      NothingHeld(temps, next);
    } else {
      ReadCodeCons(next, locals);
      UseVarRuns(env, next, locals[0], temps, vars, w);
      var t1 := temps[next := vars[locals[0]]];
      ReadsRun(env, next + 1, locals[1..], slots[1..], t1, vars, w);
      RunCodeConcat(env, [UseVar(next, locals[0])], ReadCode(next + 1, locals[1..]), temps, vars, w);
      HeldToo(temps, RunCode(env, code, temps, vars, w).temps, next, slots);
    }
    TmpsGet(RunCode(env, code, temps, vars, w).temps, next, slots);
  }

  lemma ReadCodeCons(next: nat, locals: seq<nat>)
    requires locals != []
    ensures ReadCode(next, locals) == [UseVar(next, locals[0])] + ReadCode(next + 1, locals[1..])
  {
  }

  lemma NothingHeld(temps: Temps, next: nat)
    ensures Keeps(temps, temps, next) && HoldAt(temps, next, [])
  {
  }

  lemma HeldToo(a: Temps, b: Temps, next: nat, slots: seq<Slot>)
    requires slots != [] && Keeps(a[next := slots[0]], b, next + 1) && HoldAt(b, next + 1, slots[1..])
    ensures Keeps(a, b, next) && HoldAt(b, next, slots)
  {
    assert next in b && b[next] == slots[0];
    forall t | next <= t < next + |slots| ensures t in b && b[t] == slots[t - next] {
      if t > next { assert b[t] == slots[1..][t - (next + 1)]; }
    }
  }

  lemma TmpsGet(temps: Temps, next: nat, slots: seq<Slot>)
    requires HoldAt(temps, next, slots)
    ensures GetAll(temps, Tmps(next, |slots|)) == Some(slots)
  {
    var os := Tmps(next, |slots|);
    forall i | 0 <= i < |slots| ensures Get(temps, os[i]) == Some(slots[i]) {
      var t := next + i;
      assert t in temps && temps[t] == slots[t - next];
    }
    assert GetAll(temps, os).value == slots;
  }

  /** The run-time arguments of a call are the slots of its arguments. */
  lemma {:induction false} ShapedSlots(types: seq<Ty>, s: Store, vars: Vars, locals: seq<nat>, vs: seq<Value>)
    requires Rel(types, s, vars) && Lookup(s, locals) == Some(vs)
    ensures VarsHold(vars, Shaped(types, locals), Slots(vs))
    decreases |locals|
  {
    hide SlotOf, ShapeOf, WfStore;
    if locals != [] {
      assert Lookup(s, locals[1..]).Some? && Lookup(s, locals[1..]).value == vs[1..];
      ShapedSlots(types, s, vars, locals[1..], vs[1..]);
      LocalShape(types, s, locals[0]);
    }
  }

  lemma {:induction false} CallArgsRun(env: Env, types: seq<Ty>, s: Store, next: nat, locals: seq<nat>, vs: seq<Value>,
                    temps: Temps, vars: Vars, w: World)
    requires Rel(types, s, vars) && Lookup(s, locals) == Some(vs)
    ensures var shaped := Shaped(types, locals);
            var f := RunCode(env, ReadCode(next, shaped), temps, vars, w);
            && f.Next? && f.vars == vars && f.w == w && Keeps(temps, f.temps, next)
            && GetAll(f.temps, Tmps(next, |shaped|)) == Some(Slots(vs))
  {
    hide RunCode, Slots, Shaped, Rel, ReadCode, Lookup, Tmps, VarsHold;
    ShapedSlots(types, s, vars, locals, vs);
    ReadsRun(env, next, Shaped(types, locals), Slots(vs), temps, vars, w);
  }

  /** The words of scalar operands. */
  lemma {:induction false} OperandsRun(env: Env, types: seq<Ty>, s: Store, next: nat, args: seq<nat>, vs: seq<Value>, words: seq<nat>,
                    temps: Temps, vars: Vars, w: World)
    requires Rel(types, s, vars) && Lookup(s, args) == Some(vs) && Words(vs) == Some(words)
    ensures var f := RunCode(env, ReadCode(next, args), temps, vars, w);
            && f.Next? && f.vars == vars && f.w == w && Keeps(temps, f.temps, next)
            && GetWords(f.temps, Tmps(next, |args|)) == Some(words)
    ensures forall i | 0 <= i < |words| :: words[i] < WORD
  {
    hide RunCode, ReadCode, Tmps;
    forall i | 0 <= i < |args|
      ensures args[i] in vars && WordOf(vars[args[i]]) == Some(words[i]) && words[i] < WORD
    {
      assert s[args[i]] == vs[i] && AsWord(vs[i]) == Some(words[i]) && WfValue(vs[i]);
    }
    var slots := seq(|args|, i requires 0 <= i < |args| => vars[args[i]]);
    ReadsRun(env, next, args, slots, temps, vars, w);
    assert SlotWords(slots).value == words;
  }
}
