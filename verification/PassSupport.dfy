/** Rebuilding a module after some operations were replaced by earlier ones, or found dead. */
module PassSupport {
  import opened TransitionSystem
  import opened Refinement

  // ----- replacement vectors -----

  /** Each entry points to itself or to an earlier operation. */
  predicate Descending(replacements: seq<NodeId>) {
    forall i :: 0 <= i < |replacements| ==> replacements[i] <= i && (i > 0 ==> replacements[i] > 0)
  }

  /** Where the chain of replacements that starts at `id` ends. */
  function Resolved(id: NodeId, replacements: seq<NodeId>): (r: NodeId)
    requires Descending(replacements)
    ensures r <= id && (id > 0 ==> r > 0)
    ensures r < |replacements| ==> replacements[r] == r
    decreases id
  {
    if id == 0 || id >= |replacements| || replacements[id] == id then id
    else Resolved(replacements[id], replacements)
  }

  method Resolve(id: NodeId, replacements: seq<NodeId>) returns (r: NodeId)
    requires Descending(replacements)
    ensures r == Resolved(id, replacements)
  {
    r := id;
    while r != 0 && r < |replacements| && replacements[r] != r
      invariant r <= id && Resolved(r, replacements) == Resolved(id, replacements)
      decreases r
    {
      r := replacements[r];
    }
  }

  function Canonical(n: nat, replacements: Option<seq<NodeId>>): (canon: seq<NodeId>)
    requires replacements.Some? ==> Descending(replacements.value)
    ensures |canon| == n + 1 && Descending(canon)
  {
    match replacements
    case None => Identity(n)
    case Some(vector) => seq(n + 1, i requires 0 <= i <= n => Resolved(i, vector))
  }

  function LiveVector(n: nat, live: Option<seq<bool>>): (v: seq<bool>)
    requires live.Some? ==> |live.value| == n + 1
    ensures |v| == n + 1
  {
    match live
    case None => seq(n + 1, i => true)
    case Some(vector) => vector
  }

  // ----- the rebuilt module -----

  /** Operations that survive: live, and not replaced. */
  function Survivors(live: seq<bool>, canon: seq<NodeId>): (keep: seq<bool>)
    requires |live| == |canon|
    ensures |keep| == |canon|
  {
    seq(|canon|, i requires 0 <= i < |canon| => canon[i] == i && live[i])
  }

  function Count(keep: seq<bool>, n: nat): (c: nat)
    requires n < |keep|
    ensures c <= n
  {
    if n == 0 then 0 else Count(keep, n - 1) + if keep[n] then 1 else 0
  }

  /** New number of a surviving operation, zero for the others. */
  function Slot(keep: seq<bool>, id: NodeId): (slot: NodeId)
    requires id < |keep|
  {
    if keep[id] then Count(keep, id) else 0
  }

  /** New number of every old operation, through its replacement. */
  function NewIds(keep: seq<bool>, canon: seq<NodeId>): (ids: seq<NodeId>)
    requires |keep| == |canon| && Descending(canon)
    ensures |ids| == |canon|
    ensures forall i :: 0 <= i < |ids| ==> ids[i] == Slot(keep, canon[i])
  {
    seq(|canon|, i requires 0 <= i < |canon| => Slot(keep, canon[i]))
  }

  function Lookup(ids: seq<NodeId>, id: NodeId): NodeId {
    if id < |ids| then ids[id] else 0
  }

  function Renumber(ids: seq<NodeId>, list: seq<NodeId>): (r: seq<NodeId>)
    ensures |r| == |list|
  {
    seq(|list|, k requires 0 <= k < |list| => Lookup(ids, list[k]))
  }

  function KeptOperations(ops: seq<Operation>, keep: seq<bool>, ids: seq<NodeId>, n: nat): (r: seq<Operation>)
    requires n <= |ops| && |keep| == |ops| + 1
    ensures |r| == Count(keep, n)
  {
    if n == 0 then []
    else
      var before := KeptOperations(ops, keep, ids, n - 1);
      if keep[n] then before + [ops[n - 1].(operands := Renumber(ids, ops[n - 1].operands))] else before
  }

  function RenumberOptional(ids: seq<NodeId>, id: Option<NodeId>): Option<NodeId> {
    match id
    case None => None
    case Some(v) => Some(Lookup(ids, v))
  }

  function RenumberState(ids: seq<NodeId>, state: State): State {
    State(Lookup(ids, state.value), RenumberOptional(ids, state.initial), RenumberOptional(ids, state.next))
  }

  function KeptStates(states: seq<State>, live: seq<bool>, ids: seq<NodeId>): (r: seq<State>) {
    if states == [] then []
    else
      var last := states[|states| - 1];
      KeptStates(states[..|states| - 1], live, ids) +
      if last.value < |live| && live[last.value] then [RenumberState(ids, last)] else []
  }

  function RenumberOutputs(ids: seq<NodeId>, outputs: seq<Output>): seq<Output> {
    seq(|outputs|, k requires 0 <= k < |outputs| => outputs[k].(value := Lookup(ids, outputs[k].value)))
  }

  function RenumberProperty(ids: seq<NodeId>, p: Property): Property {
    p.(condition := if p.condition != 0 then Lookup(ids, p.condition) else 0,
       conditions := Renumber(ids, p.conditions))
  }

  function RenumberProperties(ids: seq<NodeId>, properties: seq<Property>): seq<Property> {
    seq(|properties|, k requires 0 <= k < |properties| => RenumberProperty(ids, properties[k]))
  }

  function Rebuilt(sys: Sys, live: seq<bool>, canon: seq<NodeId>): Sys
    requires |live| == |canon| == |sys.operations| + 1 && Descending(canon)
  {
    var keep := Survivors(live, canon);
    var ids := NewIds(keep, canon);
    Sys(KeptOperations(sys.operations, keep, ids, |sys.operations|),
        KeptStates(sys.states, live, ids),
        RenumberOutputs(ids, sys.outputs),
        RenumberProperties(ids, sys.properties))
  }

  /** No surviving operation needs an operation that did not survive. */
  ghost predicate NoForwardReference(sys: Sys, live: seq<bool>, canon: seq<NodeId>)
    requires |live| == |canon| == |sys.operations| + 1 && Descending(canon)
    requires Ordered(sys.operations)
  {
    var keep := Survivors(live, canon);
    forall id: NodeId :: InRange(sys.operations, id) && keep[id] ==> OperandsSurvive(sys.operations, keep, canon, id)
  }

  ghost predicate OperandsSurvive(ops: seq<Operation>, keep: seq<bool>, canon: seq<NodeId>, id: NodeId)
    requires Ordered(ops) && InRange(ops, id) && |keep| == |canon| == |ops| + 1 && Descending(canon)
  {
    assert Dominated(ops, id);
    var operands := ops[id - 1].operands;
    forall k :: 0 <= k < |operands| ==> Slot(keep, canon[operands[k]]) != 0
  }

  /** The operand list of a surviving operation, or nothing if an operand did not survive. */
  method MapOperands(ops: seq<Operation>, id: NodeId, mapping: seq<NodeId>, replacements: Option<seq<NodeId>>,
                     ghost keep: seq<bool>) returns (r: Option<seq<NodeId>>)
    requires Ordered(ops) && InRange(ops, id) && |keep| == |mapping| == |ops| + 1
    requires replacements.Some? ==> |replacements.value| == |mapping| && Descending(replacements.value)
    requires forall i :: 0 <= i < |mapping| ==> mapping[i] == if 0 < i < id then Slot(keep, i) else 0
    ensures var canon := Canonical(|ops|, replacements);
            if OperandsSurvive(ops, keep, canon, id)
            then r == Some(Renumber(NewIds(keep, canon), ops[id - 1].operands)) else r == None
  {
    ghost var canon := Canonical(|ops|, replacements);
    var operands := ops[id - 1].operands;
    assert Dominated(ops, id);
    var mapped: seq<NodeId> := [];
    for k := 0 to |operands|
      invariant |mapped| == k
      invariant forall j :: 0 <= j < k ==> mapped[j] == Slot(keep, canon[operands[j]]) != 0
    {
      var operand := operands[k];
      if replacements.Some? {
        operand := Resolve(operand, replacements.value);
      }
      assert operand == canon[operands[k]] && operand < id;
      if operand == 0 || mapping[operand] == 0 {
        return None;
      }
      mapped := mapped + [mapping[operand]];
    }
    assert mapped == Renumber(NewIds(keep, canon), operands);
    return Some(mapped);
  }

  lemma SurvivorStep(ops: seq<Operation>, live: Option<seq<bool>>, replacements: Option<seq<NodeId>>, id: NodeId)
    requires InRange(ops, id)
    requires live.Some? ==> |live.value| == |ops| + 1
    requires replacements.Some? ==> |replacements.value| == |ops| + 1 && Descending(replacements.value)
    ensures var canon := Canonical(|ops|, replacements);
            var keep := Survivors(LiveVector(|ops|, live), canon);
            var ids := NewIds(keep, canon);
            var before := KeptOperations(ops, keep, ids, id - 1);
            && (keep[id] <==> canon[id] == id && (live.None? || live.value[id]))
            && KeptOperations(ops, keep, ids, id) ==
                 (if keep[id] then before + [ops[id - 1].(operands := Renumber(ids, ops[id - 1].operands))] else before)
            && Slot(keep, id) == if keep[id] then |before| + 1 else 0
  {
  }

  method RebuildOperations(ops: seq<Operation>, live: Option<seq<bool>>, replacements: Option<seq<NodeId>>)
    returns (outcome: Outcome, operations: seq<Operation>, mapping: seq<NodeId>)
    requires Ordered(ops)
    requires live.Some? ==> |live.value| == |ops| + 1
    requires replacements.Some? ==> |replacements.value| == |ops| + 1 && Descending(replacements.value)
    ensures var canon := Canonical(|ops|, replacements);
            var keep := Survivors(LiveVector(|ops|, live), canon);
            if outcome.Pass? then
              && (forall id: NodeId :: InRange(ops, id) && keep[id] ==> OperandsSurvive(ops, keep, canon, id))
              && operations == KeptOperations(ops, keep, NewIds(keep, canon), |ops|)
              && |mapping| == |ops| + 1
              && forall i :: 0 <= i <= |ops| ==> mapping[i] == Slot(keep, i)
            else exists id: NodeId :: InRange(ops, id) && keep[id] && !OperandsSurvive(ops, keep, canon, id)
  {
    hide OperandsSurvive, Renumber, NewIds, Resolved, KeptOperations, Count, Survivors, LiveVector;
    var n := |ops|;
    ghost var canon := Canonical(n, replacements);
    ghost var keep := Survivors(LiveVector(n, live), canon);
    ghost var ids := NewIds(keep, canon);
    mapping := seq(n + 1, i => 0);
    operations := [];
    for id := 1 to n + 1
      invariant |mapping| == n + 1
      invariant forall i :: 0 <= i <= n ==> mapping[i] == if 0 < i < id then Slot(keep, i) else 0
      invariant operations == KeptOperations(ops, keep, ids, id - 1)
      invariant forall i: NodeId :: 1 <= i < id && keep[i] ==> OperandsSurvive(ops, keep, canon, i)
    {
      assert Dominated(ops, id);
      var canonical := id;
      if replacements.Some? {
        canonical := Resolve(id, replacements.value);
      }
      SurvivorStep(ops, live, replacements, id);
      assert canonical == canon[id];
      if canonical == id && (live.None? || live.value[id]) {
        var operation := ops[id - 1];
        var operands := MapOperands(ops, id, mapping, replacements, keep);
        if operands.None? {
          return Fail("BTOR2 pass produced a forward reference"), [], [];
        }
        assert keep[id] && operands.value == Renumber(ids, operation.operands);
        operations := operations + [operation.(operands := operands.value)];
        mapping := mapping[id := |operations|];
      }
    }
    outcome := Pass;
  }

  /** Replaced operations take the new number of what replaces them. */
  method CompleteMapping(slots: seq<NodeId>, replacements: Option<seq<NodeId>>) returns (mapping: seq<NodeId>)
    requires |slots| > 0 && slots[0] == 0
    requires replacements.Some? ==> |replacements.value| == |slots| && Descending(replacements.value)
    ensures |mapping| == |slots|
    ensures var canon := Canonical(|slots| - 1, replacements);
            forall i :: 0 <= i < |slots| ==> mapping[i] == if slots[i] != 0 then slots[i] else slots[canon[i]]
  {
    mapping := slots;
    if replacements.Some? {
      ghost var canon := Canonical(|slots| - 1, replacements);
      for id := 1 to |slots|
        invariant |mapping| == |slots|
        invariant forall i :: id <= i < |slots| ==> mapping[i] == slots[i]
        invariant forall i :: 0 <= i < id ==> mapping[i] == if slots[i] != 0 then slots[i] else slots[canon[i]]
      {
        if mapping[id] == 0 {
          var canonical := Resolve(id, replacements.value);
          assert canonical == canon[id] && canon[canonical] == canonical;
          mapping := mapping[id := mapping[canonical]];
        }
      }
    }
  }

  method RebuildStates(states: seq<State>, live: Option<seq<bool>>, ids: seq<NodeId>) returns (r: seq<State>)
    requires |ids| > 0
    requires live.Some? ==> |live.value| == |ids|
    requires forall k :: 0 <= k < |states| ==> states[k].value < |ids|
    ensures r == KeptStates(states, LiveVector(|ids| - 1, live), ids)
  {
    r := [];
    for k := 0 to |states|
      invariant r == KeptStates(states[..k], LiveVector(|ids| - 1, live), ids)
    {
      assert states[..k + 1][..k] == states[..k];
      if live.None? || live.value[states[k].value] {
        r := r + [RenumberState(ids, states[k])];
      }
    }
    assert states[..|states|] == states;
  }

  method Rebuild(m: Module, live: Option<seq<bool>>, replacements: Option<seq<NodeId>>) returns (outcome: Outcome)
    requires WellTyped(m.View())
    requires live.Some? ==> |live.value| == |m.operations| + 1
    requires replacements.Some? ==> |replacements.value| == |m.operations| + 1 && Descending(replacements.value)
    modifies m
    ensures Ordered(old(m.operations))
    ensures var before := old(m.View());
            var n := |before.operations|;
            var l, c := LiveVector(n, live), Canonical(n, replacements);
            if outcome.Pass? then NoForwardReference(before, l, c) && m.View() == Rebuilt(before, l, c)
            else !NoForwardReference(before, l, c) && m.View() == before
  {
    var ops := m.operations;
    TypedIsOrdered(ops);
    ghost var canon := Canonical(|ops|, replacements);
    ghost var keep := Survivors(LiveVector(|ops|, live), canon);
    var operations, slots;
    outcome, operations, slots := RebuildOperations(ops, live, replacements);
    if outcome.Fail? {
      return;
    }
    var mapping := CompleteMapping(slots, replacements);
    assert mapping == NewIds(keep, canon);
    forall k | 0 <= k < |m.states|
      ensures m.states[k].value < |mapping|
    {
      assert TypedState(ops, m.states[k]);
    }
    var states := RebuildStates(m.states, live, mapping);
    m.outputs := RenumberOutputs(mapping, m.outputs);
    m.properties := RenumberProperties(mapping, m.properties);
    m.operations := operations;
    m.states := states;
  }
}
