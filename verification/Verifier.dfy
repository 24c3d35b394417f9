/** The structural verifier, and its relation to typing. */
module Verifier {
  import opened TransitionSystem
  import opened Refinement
  import opened PassPipeline

  predicate VerifiedOperation(ops: seq<Operation>, id: NodeId)
    requires InRange(ops, id)
  {
    ops[id - 1].width > 0 && Dominated(ops, id)
  }

  predicate VerifiedState(ops: seq<Operation>, state: State) {
    TypedState(ops, state) && state.next.Some?
  }

  predicate VerifiedProperty(ops: seq<Operation>, p: Property) {
    if p.kind.Justice? then
      p.conditions != [] && forall k :: 0 <= k < |p.conditions| ==> IsBoolean(ops, p.conditions[k])
    else IsBoolean(ops, p.condition)
  }

  /** The operation at index `i`, whose number is one more, has a width and reads only operations before it. */
  predicate Defined(ops: seq<Operation>, i: nat)
    requires i < |ops|
  {
    ops[i].width > 0 && forall k :: 0 <= k < |ops[i].operands| ==> 1 <= ops[i].operands[k] <= i
  }

  lemma DefinedParts(ops: seq<Operation>)
    ensures (forall i :: 0 <= i < |ops| ==> Defined(ops, i)) <==>
            (forall id: NodeId :: InRange(ops, id) ==> VerifiedOperation(ops, id))
  {
    if forall i :: 0 <= i < |ops| ==> Defined(ops, i) {
      forall id: NodeId | InRange(ops, id)
        ensures VerifiedOperation(ops, id)
      {
        assert Defined(ops, id - 1);
      }
    }
    if forall id: NodeId :: InRange(ops, id) ==> VerifiedOperation(ops, id) {
      forall i | 0 <= i < |ops|
        ensures Defined(ops, i)
      {
        assert VerifiedOperation(ops, i + 1);
      }
    }
  }

  /** What an accepted module has. */
  ghost predicate Verified(sys: Sys) {
    var n := |sys.operations|;
    && (forall i :: 0 <= i < n ==> Defined(sys.operations, i))
    && (forall k :: 0 <= k < |sys.states| ==>
          var s := sys.states[k];
          && 1 <= s.value <= n && sys.operations[s.value - 1].opcode == StateVar && s.next.Some?
          && (s.initial.Some? ==>
                1 <= s.initial.value <= n && sys.operations[s.initial.value - 1].width == sys.operations[s.value - 1].width)
          && 1 <= s.next.value <= n && sys.operations[s.next.value - 1].width == sys.operations[s.value - 1].width)
    && (forall k :: 0 <= k < |sys.outputs| ==> 1 <= sys.outputs[k].value <= n)
    && (forall k :: 0 <= k < |sys.properties| ==>
          var p := sys.properties[k];
          if p.kind == Justice then
            && p.conditions != []
            && forall j :: 0 <= j < |p.conditions| ==> 1 <= p.conditions[j] <= n && sys.operations[p.conditions[j] - 1].width == 1
          else 1 <= p.condition <= n && sys.operations[p.condition - 1].width == 1)
  }

  /** The conditions, one by one, as they are checked. */
  lemma VerifiedParts(sys: Sys)
    ensures Verified(sys) <==>
            && (forall id: NodeId :: InRange(sys.operations, id) ==> VerifiedOperation(sys.operations, id))
            && (forall k :: 0 <= k < |sys.states| ==> VerifiedState(sys.operations, sys.states[k]))
            && (forall k :: 0 <= k < |sys.outputs| ==> InRange(sys.operations, sys.outputs[k].value))
            && (forall k :: 0 <= k < |sys.properties| ==> VerifiedProperty(sys.operations, sys.properties[k]))
  {
    hide Defined, VerifiedOperation;
    DefinedParts(sys.operations);
  }

  method Verify(m: Module) returns (outcome: Outcome)
    ensures outcome.Pass? <==> Verified(m.View())
  {
    hide Verified;
    VerifiedParts(m.View());
    for id := 1 to |m.operations| + 1
      invariant forall i: NodeId :: 1 <= i < id ==> VerifiedOperation(m.operations, i)
    {
      if m.operations[id - 1].width == 0 {
        assert !VerifiedOperation(m.operations, id);
        return Fail("zero-width BTOR2 node");
      }
      var operands := m.operations[id - 1].operands;
      for k := 0 to |operands|
        invariant forall j :: 0 <= j < k ==> 1 <= operands[j] < id
      {
        if operands[k] == 0 || operands[k] >= id {
          assert !VerifiedOperation(m.operations, id);
          return Fail("non-dominating BTOR2 operand");
        }
      }
    }
    for k := 0 to |m.states|
      invariant forall j :: 0 <= j < k ==> VerifiedState(m.operations, m.states[j])
    {
      if !VerifiedState(m.operations, m.states[k]) {
        return Fail("BTOR2 state");
      }
    }
    for k := 0 to |m.outputs|
      invariant forall j :: 0 <= j < k ==> InRange(m.operations, m.outputs[j].value)
    {
      if !InRange(m.operations, m.outputs[k].value) {
        return Fail("BTOR2 operation id");
      }
    }
    for k := 0 to |m.properties|
      invariant forall j :: 0 <= j < k ==> VerifiedProperty(m.operations, m.properties[j])
    {
      if !VerifiedProperty(m.operations, m.properties[k]) {
        return Fail("BTOR2 property");
      }
    }
    return Pass;
  }

  /** Every state variable has a next relation. */
  ghost predicate Driven(sys: Sys) {
    forall id: NodeId :: IsStateVar(sys.operations, id) ==> NextOf(sys, id).Some?
  }

  lemma TypedAndDrivenVerifies(sys: Sys)
    requires WellTyped(sys) && Driven(sys)
    ensures Verified(sys)
  {
    hide Verified;
    VerifiedParts(sys);
    forall id: NodeId | InRange(sys.operations, id)
      ensures VerifiedOperation(sys.operations, id)
    {
      assert TypedAt(sys.operations, id);
    }
    forall k | 0 <= k < |sys.states|
      ensures VerifiedState(sys.operations, sys.states[k])
    {
      assert TypedState(sys.operations, sys.states[k]);
      FindDistinct(sys.states, k);
    }
    forall k | 0 <= k < |sys.properties|
      ensures VerifiedProperty(sys.operations, sys.properties[k])
    {
      assert TypedProperty(sys.operations, sys.properties[k]);
    }
  }

  lemma RefinesDriven(sys: Sys, sys': Sys, back: seq<NodeId>)
    requires WellTyped(sys) && WellTyped(sys') && Refines(sys, sys', back) && Driven(sys)
    ensures Driven(sys')
  {
    assert AgreeAt(sys, sys', back, id => 0);
  }

  /** The optimizer's output passes the verifier. */
  lemma OptimizedVerifies(sys: Sys)
    requires WellTyped(sys) && Driven(sys)
    ensures WellTyped(Optimized(sys)) && Driven(Optimized(sys)) && Verified(Optimized(sys))
  {
    hide Optimized;
    OptimizedBehaves(sys);
    var back :| Refines(sys, Optimized(sys), back);
    RefinesDriven(sys, Optimized(sys), back);
    TypedAndDrivenVerifies(Optimized(sys));
  }
}
