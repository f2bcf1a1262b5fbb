/** The scoping discipline of HIR: what is visible where, and which programs respect it. */
module Scoping {
  import opened Values
  import opened World
  import opened Hir
  import opened Specialiser

  /** The locals a comptime block leaves visible: the ones it sets immutably, at its top level. */
  function Results(b: seq<HInstr>): set<nat> {
    if b == [] then {} else (if b[0].HSet? then {b[0].local} else {}) + Results(b[1..])
  }

  function After(vis: set<nat>, i: HInstr): set<nat> {
    match i
    case HSet(x, _, _) => vis + {x}
    case HSetMut(x, _, _) => vis + {x}
    case HBranchSet(x, _) => vis + {x}
    case HIf(_, t, e) => vis + Joins(t) * Joins(e)
    case HComptime(body) => vis + Results(body)
    case _ => vis
  }

  function AfterBlock(vis: set<nat>, b: seq<HInstr>): set<nat>
    decreases |b|
  {
    if b == [] then vis else AfterBlock(After(vis, b[0]), b[1..])
  }

  /** The locals assigned anywhere in a block. */
  function Targets(b: seq<HInstr>): set<nat>
    decreases b
  {
    if b == [] then {} else InstrTargets(b[0]) + Targets(b[1..])
  }

  function InstrTargets(i: HInstr): set<nat>
    decreases i
  {
    match i
    case HAssign(x, _) => {x}
    case HIf(_, t, e) => Targets(t) + Targets(e)
    case HWhile(cb, _, body) => Targets(cb) + Targets(body)
    case HComptime(body) => Targets(body)
    case _ => {}
  }

  /** The locals introduced or assigned anywhere in a block. */
  function Touches(b: seq<HInstr>): set<nat>
    decreases b
  {
    if b == [] then {} else InstrTouches(b[0]) + Touches(b[1..])
  }

  function InstrTouches(i: HInstr): set<nat>
    decreases i
  {
    match i
    case HSet(x, _, _) => {x}
    case HSetMut(x, _, _) => {x}
    case HBranchSet(x, _) => {x}
    case HAssign(x, _) => {x}
    case HEval(_) => {}
    case HIf(_, t, e) => Touches(t) + Touches(e)
    case HWhile(cb, _, body) => Touches(cb) + Touches(body)
    case HComptime(body) => Touches(body)
  }

  predicate WfExpr(vis: set<nat>, e: HExpr) {
    && (forall i | 0 <= i < |Uses(e)| :: Uses(e)[i] in vis)
    && (e.HValue? ==> e.v.Some? && WfValue(e.v.value) && NoPointer(e.v.value))
    && (e.HBuiltin? ==> WfOp(e.op))
  }

  /**
   * A block is well scoped if every local it reads is visible, every local it introduces is new, and what
   * is assigned inside a comptime block is declared inside it.
   */
  predicate WfBlock(vis: set<nat>, ct: bool, b: seq<HInstr>)
    decreases b, 1
  {
    b == [] || (Wf(vis, ct, b[0]) && WfBlock(After(vis, b[0]), ct, b[1..]))
  }

  predicate Wf(vis: set<nat>, ct: bool, i: HInstr)
    decreases i, 0
  {
    match i
    case HSet(x, ty, e) => x !in vis && WfExpr(vis, e) && (ty.Some? ==> ty.value in vis)
    case HSetMut(x, ty, e) => x !in vis && WfExpr(vis, e) && (ty.Some? ==> ty.value in vis)
    case HBranchSet(x, e) => x !in vis && WfExpr(vis, e)
    case HAssign(x, e) => x in vis && WfExpr(vis, e)
    case HEval(e) => WfExpr(vis, e)
    case HIf(c, t, e) => c in vis && WfBlock(vis, ct, t) && WfBlock(vis, ct, e)
    case HWhile(cb, c, body) => WfBlock(vis, ct, cb) && c in AfterBlock(vis, cb) && WfBlock(vis, ct, body)
    case HComptime(body) => WfBlock(vis, true, body) && (ct || Targets(body) !! vis)
  }

  lemma {:induction false} AfterGrows(vis: set<nat>, b: seq<HInstr>)
    ensures vis + Joins(b) + Results(b) <= AfterBlock(vis, b)
    decreases |b|
  {
    if b != [] {
      AfterGrows(After(vis, b[0]), b[1..]);
    }
  }
}
