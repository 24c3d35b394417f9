/** Passes that overwrite operations without renumbering them. */
module InPlace {
  import opened TransitionSystem
  import opened Semantics
  import opened Refinement
  import opened Roots

  ghost predicate SameAt(ops: seq<Operation>, ops': seq<Operation>, id: NodeId)
    requires TypedOperations(ops) && TypedOperations(ops') && |ops| == |ops'|
  {
    InRange(ops, id) && forall env: Env :: Eval(ops', id, env) == Eval(ops, id, env)
  }

  /** Widths and leaves are the same. */
  predicate SameShape(ops: seq<Operation>, ops': seq<Operation>) {
    |ops'| == |ops| &&
    forall i :: 0 <= i < |ops| ==>
      && ops'[i].width == ops[i].width
      && (IsLeaf(ops[i].opcode) || IsLeaf(ops'[i].opcode) ==> ops'[i] == ops[i])
  }

  lemma InPlaceTyped(sys: Sys, ops': seq<Operation>)
    requires WellTyped(sys) && TypedOperations(ops') && SameShape(sys.operations, ops')
    ensures WellTyped(sys.(operations := ops'))
  {
    forall k | 0 <= k < |sys.states|
      ensures TypedState(ops', sys.states[k])
    {
      assert TypedState(sys.operations, sys.states[k]);
    }
    forall k | 0 <= k < |sys.properties|
      ensures TypedProperty(ops', sys.properties[k])
    {
      assert TypedProperty(sys.operations, sys.properties[k]);
    }
  }

  /** A rewrite that keeps the value of every root preserves behaviour. */
  lemma InPlaceRefines(sys: Sys, ops': seq<Operation>)
    requires WellTyped(sys) && TypedOperations(ops') && SameShape(sys.operations, ops')
    requires forall id: NodeId :: Root(sys, id) && id > 0 ==> SameAt(sys.operations, ops', id)
    ensures WellTyped(sys.(operations := ops'))
    ensures Refines(sys, sys.(operations := ops'), Identity(|ops'|))
  {
    var sys' := sys.(operations := ops');
    InPlaceTyped(sys, ops');
    forall env: Env
      ensures AgreeAt(sys, sys', Identity(|ops'|), env)
    {
      InPlaceAgrees(sys, ops', env);
    }
  }

  lemma InPlaceValue(sys: Sys, ops': seq<Operation>, id: NodeId, env: Env)
    requires WellTyped(sys) && TypedOperations(ops') && SameShape(sys.operations, ops')
    requires WellTyped(sys.(operations := ops')) && SameAt(sys.operations, ops', id)
    ensures SameValue(sys, id, env, sys.(operations := ops'), id, Pull(Identity(|ops'|), env))
  {
    EvalAgrees(ops', id, env, Pull(Identity(|ops'|), env));
  }

  lemma InPlaceProperty(sys: Sys, ops': seq<Operation>, k: nat, env: Env)
    requires WellTyped(sys) && TypedOperations(ops') && SameShape(sys.operations, ops')
    requires WellTyped(sys.(operations := ops')) && k < |sys.properties|
    requires forall id: NodeId :: Root(sys, id) && id > 0 ==> SameAt(sys.operations, ops', id)
    ensures SameProperty(sys, sys.properties[k], env,
                         sys.(operations := ops'), sys.properties[k], Pull(Identity(|ops'|), env))
  {
    var p := sys.properties[k];
    assert TypedProperty(sys.operations, p);
    if p.condition != 0 {
      assert Root(sys, p.condition);
      InPlaceValue(sys, ops', p.condition, env);
    }
    forall j | 0 <= j < |p.conditions|
      ensures SameValue(sys, p.conditions[j], env, sys.(operations := ops'), p.conditions[j], Pull(Identity(|ops'|), env))
    {
      assert Root(sys, p.conditions[j]);
      InPlaceValue(sys, ops', p.conditions[j], env);
    }
  }

  lemma InPlaceAgrees(sys: Sys, ops': seq<Operation>, env: Env)
    requires WellTyped(sys) && TypedOperations(ops') && SameShape(sys.operations, ops')
    requires WellTyped(sys.(operations := ops'))
    requires forall id: NodeId :: Root(sys, id) && id > 0 ==> SameAt(sys.operations, ops', id)
    ensures AgreeAt(sys, sys.(operations := ops'), Identity(|ops'|), env)
  {
    var sys' := sys.(operations := ops');
    var env' := Pull(Identity(|ops'|), env);
    forall k | 0 <= k < |sys.outputs|
      ensures SameValue(sys, sys.outputs[k].value, env, sys', sys'.outputs[k].value, env')
    {
      assert Root(sys, sys.outputs[k].value);
      InPlaceValue(sys, ops', sys.outputs[k].value, env);
    }
    forall k | 0 <= k < |sys.properties|
      ensures SameProperty(sys, sys.properties[k], env, sys', sys'.properties[k], env')
    {
      InPlaceProperty(sys, ops', k, env);
    }
    forall i: NodeId | IsStateVar(ops', i)
      ensures SameOptional(sys, InitOf(sys, i), env, sys', InitOf(sys', i), env')
      ensures SameOptional(sys, NextOf(sys, i), env, sys', NextOf(sys', i), env')
    {
      RecordTyped(sys, i);
      if InitOf(sys, i).Some? {
        assert Root(sys, InitOf(sys, i).value);
        InPlaceValue(sys, ops', InitOf(sys, i).value, env);
      }
      if NextOf(sys, i).Some? {
        assert Root(sys, NextOf(sys, i).value);
        InPlaceValue(sys, ops', NextOf(sys, i).value, env);
      }
    }
  }

  lemma InPlaceTransitive(a: Sys, b: Sys, c: Sys)
    requires WellTyped(a) && WellTyped(b) && WellTyped(c)
    requires |a.operations| == |b.operations| == |c.operations|
    requires Refines(a, b, Identity(|a.operations|)) && Refines(b, c, Identity(|a.operations|))
    ensures Refines(a, c, Identity(|a.operations|))
  {
    var back := Identity(|a.operations|);
    RefinesTransitive(a, b, c, back, back);
    ComposeIdentity(|a.operations|);
  }
}
