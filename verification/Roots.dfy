/** References to operations from outside the operations. */
module Roots {
  import opened TransitionSystem

  /** Something outside the operations refers to `id`. */
  ghost predicate Root(sys: Sys, id: NodeId) {
    || (exists k :: 0 <= k < |sys.outputs| && sys.outputs[k].value == id)
    || (exists k :: 0 <= k < |sys.states| && (sys.states[k].initial == Some(id) || sys.states[k].next == Some(id)))
    || (exists k :: 0 <= k < |sys.properties| && (sys.properties[k].condition == id || id in sys.properties[k].conditions))
  }

  lemma RootInRange(sys: Sys, id: NodeId)
    requires WellTyped(sys) && Root(sys, id) && id > 0
    ensures InRange(sys.operations, id)
  {
    if k :| 0 <= k < |sys.states| && (sys.states[k].initial == Some(id) || sys.states[k].next == Some(id)) {
      assert TypedState(sys.operations, sys.states[k]);
    } else if k :| 0 <= k < |sys.properties| && (sys.properties[k].condition == id || id in sys.properties[k].conditions) {
      assert TypedProperty(sys.operations, sys.properties[k]);
    }
  }

  function OptionalUse(id: Option<NodeId>): seq<NodeId> {
    match id
    case None => []
    case Some(v) => [v]
  }

  function StateUses(states: seq<State>, n: nat): seq<NodeId>
    requires n <= |states|
  {
    if n == 0 then []
    else StateUses(states, n - 1) + OptionalUse(states[n - 1].initial) + OptionalUse(states[n - 1].next)
  }

  function OutputUses(outputs: seq<Output>, n: nat): seq<NodeId>
    requires n <= |outputs|
  {
    if n == 0 then [] else OutputUses(outputs, n - 1) + [outputs[n - 1].value]
  }

  function PropertyUses(properties: seq<Property>, n: nat): seq<NodeId>
    requires n <= |properties|
  {
    if n == 0 then []
    else
      var p := properties[n - 1];
      PropertyUses(properties, n - 1) + (if p.condition != 0 then [p.condition] else []) + p.conditions
  }

  function RootUses(sys: Sys): seq<NodeId> {
    StateUses(sys.states, |sys.states|) + OutputUses(sys.outputs, |sys.outputs|) +
    PropertyUses(sys.properties, |sys.properties|)
  }

  // ----- the lists hold exactly the references -----

  lemma {:induction false} StateRoot(states: seq<State>, n: nat, k: nat, c: NodeId)
    requires k < n <= |states| && (states[k].initial == Some(c) || states[k].next == Some(c))
    ensures c in StateUses(states, n)
  {
    if k < n - 1 {
      StateRoot(states, n - 1, k, c);
    }
  }

  lemma {:induction false} OutputRoot(outputs: seq<Output>, n: nat, k: nat, c: NodeId)
    requires k < n <= |outputs| && outputs[k].value == c
    ensures c in OutputUses(outputs, n)
  {
    if k < n - 1 {
      OutputRoot(outputs, n - 1, k, c);
    }
  }

  lemma {:induction false} PropertyRoot(properties: seq<Property>, n: nat, k: nat, c: NodeId)
    requires k < n <= |properties| && c != 0 && (properties[k].condition == c || c in properties[k].conditions)
    ensures c in PropertyUses(properties, n)
  {
    if k < n - 1 {
      PropertyRoot(properties, n - 1, k, c);
    }
  }

  lemma RootIsUse(sys: Sys, c: NodeId)
    requires Root(sys, c) && c != 0
    ensures c in RootUses(sys)
  {
    if k :| 0 <= k < |sys.outputs| && sys.outputs[k].value == c {
      OutputRoot(sys.outputs, |sys.outputs|, k, c);
    } else if k :| 0 <= k < |sys.states| && (sys.states[k].initial == Some(c) || sys.states[k].next == Some(c)) {
      StateRoot(sys.states, |sys.states|, k, c);
    } else if k :| 0 <= k < |sys.properties| && (sys.properties[k].condition == c || c in sys.properties[k].conditions) {
      PropertyRoot(sys.properties, |sys.properties|, k, c);
    }
  }

  lemma {:induction false} OutputUseIsOutput(outputs: seq<Output>, n: nat, j: nat)
    requires n <= |outputs| && j < |OutputUses(outputs, n)|
    ensures exists k :: 0 <= k < n && outputs[k].value == OutputUses(outputs, n)[j]
  {
    if j < |OutputUses(outputs, n - 1)| {
      OutputUseIsOutput(outputs, n - 1, j);
    } else {
      assert outputs[n - 1].value == OutputUses(outputs, n)[j];
    }
  }

  lemma {:induction false} PropertyUseIsProperty(properties: seq<Property>, n: nat, j: nat)
    requires n <= |properties| && j < |PropertyUses(properties, n)|
    ensures var id := PropertyUses(properties, n)[j];
            exists k :: 0 <= k < n && (properties[k].condition == id || id in properties[k].conditions)
  {
    var before := PropertyUses(properties, n - 1);
    var id := PropertyUses(properties, n)[j];
    if j < |before| {
      PropertyUseIsProperty(properties, n - 1, j);
    } else {
      var p := properties[n - 1];
      var condition := if p.condition != 0 then [p.condition] else [];
      assert PropertyUses(properties, n) == before + condition + p.conditions;
      assert properties[n - 1].condition == id || id in properties[n - 1].conditions;
    }
  }
}
