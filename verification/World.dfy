/** What a running contract can do to the outside: the operations of both languages and their effect. */
module World {
  import opened Values
  import opened Memory
  import Evm

  /** The operations a program calls: the ones the compiler can fold, and the run-time-only ones. */
  datatype Op =
    | Foldable(f: Evm.FoldOp)
    | RuntimeOnly(id: nat, params: seq<Ty>, result: Ty)
    | MLoad(bytes: nat)
    | MStore(bytes: nat)

  /** The simplest operation that never returns. */
  const STOP: Op := RuntimeOnly(0, [], TNever)

  datatype Sig = Sig(params: seq<Ty>, result: Ty)

  function Signatures(op: Op): (r: seq<Sig>)
    ensures |r| > 0
    ensures op.Foldable? ==> forall i | 0 <= i < |r| :: |r[i].params| == Evm.Arity(op.f)
  {
    match op
    case RuntimeOnly(_, params, result) => [Sig(params, result)]
    case MLoad(_) => [Sig([TMemPtr], TU256)]
    case MStore(_) => [Sig([TMemPtr, TU256], TVoid)]
    case Foldable(f) =>
      match f
      case Add => [Sig([TU256, TU256], TU256), Sig([TMemPtr, TU256], TMemPtr), Sig([TU256, TMemPtr], TMemPtr)]
      case Sub => [Sig([TU256, TU256], TU256), Sig([TMemPtr, TU256], TMemPtr), Sig([TMemPtr, TMemPtr], TU256)]
      case Lt => [Sig([TU256, TU256], TBool), Sig([TMemPtr, TMemPtr], TBool)]
      case Gt => [Sig([TU256, TU256], TBool), Sig([TMemPtr, TMemPtr], TBool)]
      case SLt => [Sig([TU256, TU256], TBool)]
      case SGt => [Sig([TU256, TU256], TBool)]
      case Eq => [Sig([TU256, TU256], TBool), Sig([TMemPtr, TMemPtr], TBool), Sig([TBool, TBool], TBool)]
      case IsZero => [Sig([TU256], TBool)]
      case Not => [Sig([TU256], TU256)]
      case And => [Sig([TU256, TU256], TU256), Sig([TBool, TBool], TBool)]
      case Or => [Sig([TU256, TU256], TU256), Sig([TBool, TBool], TBool)]
      case Xor => [Sig([TU256, TU256], TU256), Sig([TBool, TBool], TBool)]
      case AddMod => [Sig([TU256, TU256, TU256], TU256)]
      case MulMod => [Sig([TU256, TU256, TU256], TU256)]
      case _ => [Sig([TU256, TU256], TU256)]
  }

  predicate Matches(sig: Sig, tys: seq<Ty>) {
    |sig.params| == |tys| && forall i | 0 <= i < |tys| :: Assignable(tys[i], sig.params[i])
  }

  function FirstMatch(sigs: seq<Sig>, tys: seq<Ty>): (r: Option<Ty>)
    ensures r.Some? ==> exists i | 0 <= i < |sigs| :: Matches(sigs[i], tys) && sigs[i].result == r.value
  {
    if sigs == [] then None
    else if Matches(sigs[0], tys) then Some(sigs[0].result)
    else
      var r := FirstMatch(sigs[1..], tys);
      assert r.Some? ==> exists i | 0 <= i < |sigs[1..]| :: Matches(sigs[1..][i], tys) && sigs[1..][i].result == r.value;
      r
  }

  /** The result type of a call with these argument types: that of the first signature that fits. */
  function ResultType(op: Op, tys: seq<Ty>): Option<Ty> {
    FirstMatch(Signatures(op), tys)
  }

  /** What two scalar operands give: numbers, pointers and booleans each have operations of their own. */
  function BinaryResult(f: Evm.FoldOp, a: Ty, b: Ty): Option<Ty> {
    var pointers := (if a == TMemPtr then 1 else 0) + (if b == TMemPtr then 1 else 0);
    var booleans := (if a == TBool then 1 else 0) + (if b == TBool then 1 else 0);
    match f
    case Add => if booleans > 0 || pointers == 2 then None else Some(if pointers == 1 then TMemPtr else TU256)
    case Sub =>
      if booleans > 0 || (b == TMemPtr && a != TMemPtr) then None else Some(if pointers == 1 then TMemPtr else TU256)
    case Eq => if a == b then Some(TBool) else None
    case Lt => if a == b && booleans == 0 then Some(TBool) else None
    case Gt => if a == b && booleans == 0 then Some(TBool) else None
    case SLt => if pointers == 0 && booleans == 0 then Some(TBool) else None
    case SGt => if pointers == 0 && booleans == 0 then Some(TBool) else None
    case And => if pointers == 0 && a == b then Some(a) else None
    case Or => if pointers == 0 && a == b then Some(a) else None
    case Xor => if pointers == 0 && a == b then Some(a) else None
    case _ => if pointers == 0 && booleans == 0 then Some(TU256) else None
  }

  /** The search through the signatures finds just that. */
  lemma BinarySignatures(f: Evm.FoldOp, a: Ty, b: Ty)
    requires Evm.Arity(f) == 2 && Scalar(a) && Scalar(b)
    ensures ResultType(Foldable(f), [a, b]) == BinaryResult(f, a, b)
  {
    hide Matches, FirstMatch;
    FirstForPair(Signatures(Foldable(f)), a, b);
  }

  lemma {:induction false} FirstForPair(sigs: seq<Sig>, a: Ty, b: Ty)
    requires 1 <= |sigs| <= 3 && a != TNever && b != TNever
    requires forall i | 0 <= i < |sigs| :: |sigs[i].params| == 2
    ensures FirstMatch(sigs, [a, b]) ==
            if a == sigs[0].params[0] && b == sigs[0].params[1] then Some(sigs[0].result)
            else if |sigs| > 1 && a == sigs[1].params[0] && b == sigs[1].params[1] then Some(sigs[1].result)
            else if |sigs| > 2 && a == sigs[2].params[0] && b == sigs[2].params[1] then Some(sigs[2].result)
            else None
  {
    var tys := [a, b];
    assert tys[0] == a && tys[1] == b;
    forall i | 0 <= i < |sigs| ensures Matches(sigs[i], tys) <==> a == sigs[i].params[0] && b == sigs[i].params[1] {}
    FirstOfThree(sigs, tys);
  }

  lemma {:induction false} FirstOfThree(sigs: seq<Sig>, tys: seq<Ty>)
    requires 1 <= |sigs| <= 3
    ensures FirstMatch(sigs, tys) ==
            if Matches(sigs[0], tys) then Some(sigs[0].result)
            else if |sigs| > 1 && Matches(sigs[1], tys) then Some(sigs[1].result)
            else if |sigs| > 2 && Matches(sigs[2], tys) then Some(sigs[2].result)
            else None
  {
    hide Matches;
    if |sigs| > 1 {
      assert FirstMatch(sigs[1..], tys) == if Matches(sigs[1], tys) then Some(sigs[1].result) else FirstMatch(sigs[1..][1..], tys);
    }
    if |sigs| > 2 {
      assert FirstMatch(sigs[1..][1..], tys)
          == if Matches(sigs[2], tys) then Some(sigs[2].result) else FirstMatch(sigs[1..][1..][1..], tys);
    }
  }

  function OpArity(op: Op): nat {
    |Signatures(op)[0].params|
  }

  predicate Halting(op: Op) {
    op.RuntimeOnly? && op.result == TNever
  }

  predicate Scalar(ty: Ty) {
    ty.TU256? || ty.TBool? || ty.TMemPtr?
  }

  /** The run-time-only operations take scalars and give a scalar, nothing, or never return. */
  predicate WfOp(op: Op) {
    match op
    case Foldable(_) => true
    case RuntimeOnly(_, params, result) =>
      (Scalar(result) || result == TVoid || result == TNever) && forall i | 0 <= i < |params| :: Scalar(params[i])
    case MLoad(n) => 1 <= n <= 32
    case MStore(n) => 1 <= n <= 32
  }

  /** What is left of a value once types are erased: zero-sized values have no slot at all. */
  datatype Slot = WordSlot(n: nat) | BoolSlot(b: bool) | AggSlot(elems: seq<Option<Slot>>)

  function SlotOf(v: Value): Option<Slot> {
    match v
    case Num(n) => Some(WordSlot(n))
    case Ptr(n) => Some(WordSlot(n))
    case Boolean(b) => Some(BoolSlot(b))
    case TypeVal(_) => None
    case VoidVal => None
    case Struct(_, fs) =>
      if forall i | 0 <= i < |fs| :: SlotOf(fs[i]) == None then None
      else Some(AggSlot(seq(|fs|, i requires 0 <= i < |fs| => SlotOf(fs[i]))))
  }

  datatype Event =
    | Effect(id: nat, args: seq<nat>)
    | Called(callee: nat, slots: seq<Slot>)

  /** Everything a run has done so far, and the memory it sees. */
  datatype World = World(trace: seq<Event>, mem: Mem)

  /** The surroundings answer every event from the whole history before it, and may change memory. */
  datatype Env = Env(effect: (World, nat, seq<nat>) -> (nat, Mem),
                     call: (World, nat, seq<Slot>) -> (Value, Mem))

  datatype Performed = Performed(word: nat, w: World)

  /** One operation on machine words. */
  ghost function Perform(env: Env, w: World, op: Op, args: seq<nat>): Performed
    requires |args| == OpArity(op)
  {
    match op
    case Foldable(f) => Performed(Evm.Meaning(f, args), w)
    case RuntimeOnly(id, _, _) =>
      var (word, mem) := env.effect(w, id, args);
      Performed(word, World(w.trace + [Effect(id, args)], mem))
    case MLoad(n) => Performed(ReadBE(w.mem, args[0], n), w)
    case MStore(n) => Performed(0, w.(mem := WriteBE(w.mem, args[0], n, args[1] % Pow256(n))))
  }
}
