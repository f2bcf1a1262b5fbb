/** The two passes one after the other, as the compiler runs them on an entry point. */
module Compiler {
  import opened Values
  import opened World
  import opened Mir
  import opened Hir
  import opened Quotas
  import opened Specialiser
  import opened Scoping
  import opened Graph
  import opened Lowering
  import opened GraphProof
  import opened Pipeline
  import Scopes
  import FunctionLowering
  import QuotaTrace

  /**
   * The evaluator runs in place, then the lowering does.  There is a graph exactly if the evaluator accepts the entry
   * point, which for a well-typed one that halts is if its comptime loops fit the quota.  The blocks of the graph have
   * one terminator each, and if nothing was lost it cannot be told from the source.
   */
  method CompileEntryPoint(b: seq<HInstr>) returns (graph: Option<seq<Block>>)
    requires WfBlock({}, false, b)
    ensures graph.Some? <==> EntryAccepted(EvalBlock(FRESH, b))
    ensures WellTyped(b) ==> (graph.Some? <==> !RunsOut(DEFAULT, QuotaTrace.Events(FRESH, b)))
    ensures graph.Some? ==> forall k | 0 <= k < |graph.value| :: Finished(graph.value[k])
    ensures graph.Some? && !EvalBlock(FRESH, b).st.lossy ==>
              forall env, w, o :: SourceEnds(env, b, w, o) <==> GraphEnds(env, graph.value, EntryConfig([], w), o)
  {
    if WellTyped(b) { WellTypedEntry(b); }
    hide EvalBlock, WfBlock, WellTyped, RunsOut, QuotaTrace.Events, LowerFunction, Finished, SourceEnds, GraphEnds,
      EntryConfig;
    var scope := new Scopes.Scope(false, DEFAULT);
    assert scope.St() == FRESH;
    var body, exit := scope.EvalEntryPointBody(b);
    if scope.diagnosed || exit != BlockEnd {
      return None;
    }
    AcceptedLowers(b);
    assert scope.St() == EvalBlock(FRESH, b).st;
    var lowerer := new FunctionLowering.FunctionLowerer(scope.mirTypes, 0);
    var end := lowerer.Lower(0, body);
    assert lowerer.Bld() == Compiled(b).bld;
    graph := Some(lowerer.blocks);
    if !EvalBlock(FRESH, b).st.lossy {
      forall env, w, o ensures SourceEnds(env, b, w, o) <==> GraphEnds(env, graph.value, EntryConfig([], w), o) {
        CompiledMeansSource(env, b, w, o);
      }
    }
  }
}
