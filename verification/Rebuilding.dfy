/** A rebuilt module behaves as the original when replacements have the same value and nothing live is dropped. */
module Rebuilding {
  import opened TransitionSystem
  import opened Semantics
  import opened Refinement
  import opened PassSupport

  // ----- when a rebuild is sound -----

  ghost predicate SameMeaning(ops: seq<Operation>, i: NodeId, j: NodeId)
    requires TypedOperations(ops) && InRange(ops, i) && InRange(ops, j)
  {
    ops[i - 1].width == ops[j - 1].width && forall env: Env :: Eval(ops, i, env) == Eval(ops, j, env)
  }

  /** `r` may stand for operation `i`. */
  ghost predicate Replaces(ops: seq<Operation>, i: NodeId, r: NodeId)
    requires TypedOperations(ops) && InRange(ops, i)
  {
    1 <= r <= i && SameMeaning(ops, i, r) && (IsLeaf(ops[i - 1].opcode) ==> r == i)
  }

  /** A vector, possibly still growing, whose every entry may stand for its operation. */
  ghost predicate Sound(ops: seq<Operation>, vector: seq<NodeId>)
    requires TypedOperations(ops)
  {
    && 1 <= |vector| <= |ops| + 1 && vector[0] == 0
    && forall i: NodeId {:trigger Replaces(ops, i, vector[i])} :: 1 <= i < |vector| ==> Replaces(ops, i, vector[i])
  }

  lemma {:induction false} ResolvedReplaces(ops: seq<Operation>, vector: seq<NodeId>, id: NodeId)
    requires TypedOperations(ops) && Sound(ops, vector) && Descending(vector) && 1 <= id < |vector|
    ensures Replaces(ops, id, Resolved(id, vector))
  {
    assert Replaces(ops, id, vector[id]);
    if vector[id] != id {
      ResolvedReplaces(ops, vector, vector[id]);
    }
  }

  /** Following chains to their ends keeps a vector sound. */
  lemma CanonicalSound(ops: seq<Operation>, vector: seq<NodeId>)
    requires TypedOperations(ops) && Sound(ops, vector) && Descending(vector) && |vector| == |ops| + 1
    ensures Sound(ops, Canonical(|ops|, Some(vector)))
    ensures Settled(Canonical(|ops|, Some(vector)))
  {
    var canon := Canonical(|ops|, Some(vector));
    forall i: NodeId | InRange(ops, i)
      ensures Replaces(ops, i, canon[i])
    {
      ResolvedReplaces(ops, vector, i);
    }
  }

  predicate Settled(canon: seq<NodeId>)
    requires Descending(canon)
  {
    forall i :: 0 <= i < |canon| ==> canon[canon[i]] == canon[i]
  }

  ghost predicate OptionalLive(live: seq<bool>, canon: seq<NodeId>, id: Option<NodeId>) {
    id.Some? ==> id.value < |canon| && canon[id.value] < |live| && live[canon[id.value]]
  }

  ghost predicate AllLive(live: seq<bool>, canon: seq<NodeId>, list: seq<NodeId>) {
    forall k :: 0 <= k < |list| ==> OptionalLive(live, canon, Some(list[k]))
  }

  /** Everything that a live operation, a live state or a root refers to is live. */
  ghost predicate Covers(sys: Sys, live: seq<bool>, canon: seq<NodeId>)
    requires WellTyped(sys) && |live| == |canon| == |sys.operations| + 1 && Descending(canon)
  {
    && (forall id: NodeId :: InRange(sys.operations, id) && live[id] ==>
          AllLive(live, canon, sys.operations[id - 1].operands))
    && (forall k :: 0 <= k < |sys.states| && sys.states[k].value < |live| && live[sys.states[k].value] ==>
          OptionalLive(live, canon, sys.states[k].initial) && OptionalLive(live, canon, sys.states[k].next))
    && (forall k :: 0 <= k < |sys.outputs| ==> OptionalLive(live, canon, Some(sys.outputs[k].value)))
    && (forall k :: 0 <= k < |sys.properties| ==>
          && (sys.properties[k].condition != 0 ==> OptionalLive(live, canon, Some(sys.properties[k].condition)))
          && AllLive(live, canon, sys.properties[k].conditions))
  }

  // ----- numbering -----

  /** Old numbers of the surviving operations, in order, after a leading zero. */
  function KeptIds(keep: seq<bool>, n: nat): (back: seq<NodeId>)
    requires n < |keep|
    ensures |back| == Count(keep, n) + 1
  {
    if n == 0 then [0] else KeptIds(keep, n - 1) + if keep[n] then [n] else []
  }

  lemma {:induction false} CountMonotonic(keep: seq<bool>, i: nat, j: nat)
    requires i <= j < |keep|
    ensures Count(keep, i) <= Count(keep, j)
    ensures i < j && keep[j] ==> Count(keep, i) < Count(keep, j)
    decreases j
  {
    if i < j {
      CountMonotonic(keep, i, j - 1);
    }
  }

  lemma {:induction false} KeptOperationAt(ops: seq<Operation>, keep: seq<bool>, ids: seq<NodeId>, n: nat, i: nat)
    requires n <= |ops| && |keep| == |ops| + 1 && 1 <= i <= n && keep[i]
    ensures 1 <= Slot(keep, i) <= Count(keep, n)
    ensures KeptOperations(ops, keep, ids, n)[Slot(keep, i) - 1] == ops[i - 1].(operands := Renumber(ids, ops[i - 1].operands))
    ensures KeptIds(keep, n)[Slot(keep, i)] == i
  {
    if i < n {
      KeptOperationAt(ops, keep, ids, n - 1, i);
    }
  }

  lemma {:induction false} KeptIdAt(keep: seq<bool>, n: nat, slot: nat)
    requires n < |keep| && 1 <= slot <= Count(keep, n)
    ensures var i := KeptIds(keep, n)[slot]; 1 <= i <= n && keep[i] && Slot(keep, i) == slot
  {
    if slot <= Count(keep, n - 1) {
      KeptIdAt(keep, n - 1, slot);
    }
  }

  // ----- the rebuilt system -----

  /** What the proofs below know about a rebuild. */
  ghost predicate Fits(sys: Sys, live: seq<bool>, canon: seq<NodeId>) {
    && WellTyped(sys) && |live| == |canon| == |sys.operations| + 1 && Descending(canon)
    && Settled(canon) && Sound(sys.operations, canon) && Covers(sys, live, canon)
  }

  function BackOf(live: seq<bool>, canon: seq<NodeId>): seq<NodeId>
    requires 0 < |live| == |canon|
  {
    KeptIds(Survivors(live, canon), |live| - 1)
  }

  /** A new operation is an old one with renumbered operands. */
  lemma NewOperation(sys: Sys, live: seq<bool>, canon: seq<NodeId>, i: NodeId)
    requires Fits(sys, live, canon) && InRange(Rebuilt(sys, live, canon).operations, i)
    ensures var keep := Survivors(live, canon);
            var ids := NewIds(keep, canon);
            var id := BackOf(live, canon)[i];
            && InRange(sys.operations, id) && keep[id] && ids[id] == i
            && Rebuilt(sys, live, canon).operations[i - 1] ==
                 sys.operations[id - 1].(operands := Renumber(ids, sys.operations[id - 1].operands))
  {
    var keep := Survivors(live, canon);
    var n := |sys.operations|;
    KeptIdAt(keep, n, i);
    KeptOperationAt(sys.operations, keep, NewIds(keep, canon), n, BackOf(live, canon)[i]);
  }

  /** Any old number whose replacement is live has a new number, of the same width. */
  lemma NewNumber(sys: Sys, live: seq<bool>, canon: seq<NodeId>, id: NodeId)
    requires Fits(sys, live, canon) && InRange(sys.operations, id) && live[canon[id]]
    ensures var keep := Survivors(live, canon);
            var ids := NewIds(keep, canon);
            var ops' := Rebuilt(sys, live, canon).operations;
            && keep[canon[id]] && InRange(ops', ids[id]) && BackOf(live, canon)[ids[id]] == canon[id]
            && ops'[ids[id] - 1] ==
                 sys.operations[canon[id] - 1].(operands := Renumber(ids, sys.operations[canon[id] - 1].operands))
            && ops'[ids[id] - 1].width == sys.operations[id - 1].width
  {
    var keep := Survivors(live, canon);
    assert Replaces(sys.operations, id, canon[id]);
    KeptOperationAt(sys.operations, keep, NewIds(keep, canon), |sys.operations|, canon[id]);
  }

  lemma NewOperand(sys: Sys, live: seq<bool>, canon: seq<NodeId>, id: NodeId, k: nat)
    requires Fits(sys, live, canon) && InRange(sys.operations, id) && live[id] && canon[id] == id
    requires k < |sys.operations[id - 1].operands|
    ensures var operand := sys.operations[id - 1].operands[k];
            var ids := NewIds(Survivors(live, canon), canon);
            var ops' := Rebuilt(sys, live, canon).operations;
            && 1 <= operand < id && 1 <= ids[operand] < ids[id] <= |ops'|
            && ops'[ids[operand] - 1].width == sys.operations[operand - 1].width
  {
    hide Typed, Sound, Settled, Rebuilt, BackOf;
    var operand := sys.operations[id - 1].operands[k];
    assert TypedAt(sys.operations, id);
    assert OptionalLive(live, canon, Some(operand));
    NewNumber(sys, live, canon, operand);
    NewNumber(sys, live, canon, id);
    CountMonotonic(Survivors(live, canon), canon[operand], id);
  }

  lemma NewOperandsTyped(sys: Sys, live: seq<bool>, canon: seq<NodeId>, i: NodeId)
    requires Fits(sys, live, canon) && InRange(Rebuilt(sys, live, canon).operations, i)
    ensures var ops' := Rebuilt(sys, live, canon).operations;
            var id := BackOf(live, canon)[i];
            && Dominated(ops', i) && InRange(sys.operations, id) && Dominated(sys.operations, id)
            && OperandWidths(ops', i) == OperandWidths(sys.operations, id)
  {
    hide Typed, Sound, Settled, Covers;
    var ops' := Rebuilt(sys, live, canon).operations;
    NewOperation(sys, live, canon, i);
    var id := BackOf(live, canon)[i];
    var operands := sys.operations[id - 1].operands;
    assert TypedAt(sys.operations, id);
    forall k | 0 <= k < |operands|
      ensures 1 <= ops'[i - 1].operands[k] < i
      ensures ops'[ops'[i - 1].operands[k] - 1].width == sys.operations[operands[k] - 1].width
    {
      NewOperand(sys, live, canon, id, k);
    }
  }

  lemma RebuiltOperationsTyped(sys: Sys, live: seq<bool>, canon: seq<NodeId>)
    requires Fits(sys, live, canon)
    ensures TypedOperations(Rebuilt(sys, live, canon).operations)
  {
    var ops' := Rebuilt(sys, live, canon).operations;
    forall i: NodeId | InRange(ops', i)
      ensures TypedAt(ops', i)
    {
      NewOperation(sys, live, canon, i);
      NewOperandsTyped(sys, live, canon, i);
      assert TypedAt(sys.operations, BackOf(live, canon)[i]);
    }
  }

  /** Every live operation keeps its value under its new number. */
  lemma {:induction false} RebuiltEval(sys: Sys, live: seq<bool>, canon: seq<NodeId>, id: NodeId, env: Env)
    requires Fits(sys, live, canon) && InRange(sys.operations, id) && live[canon[id]]
    requires TypedOperations(Rebuilt(sys, live, canon).operations)
    ensures var i := NewIds(Survivors(live, canon), canon)[id];
            && InRange(Rebuilt(sys, live, canon).operations, i)
            && Eval(Rebuilt(sys, live, canon).operations, i, Pull(BackOf(live, canon), env)) == Eval(sys.operations, id, env)
    decreases id
  {
    hide Rebuilt, Apply, Typed, Survivors, BackOf, Pull, Sound, Covers, Settled;
    var ops' := Rebuilt(sys, live, canon).operations;
    var ids := NewIds(Survivors(live, canon), canon);
    RebuildFacts(sys, live, canon, id);
    if canon[id] != id {
      RebuiltEval(sys, live, canon, canon[id], env);
      assert ids[canon[id]] == ids[id];
    } else if IsLeaf(sys.operations[id - 1].opcode) {
      RebuiltLeaf(sys, live, canon, id, env);
    } else {
      var operands := sys.operations[id - 1].operands;
      OperandsCovered(sys, live, canon, id);
      forall k | 0 <= k < |operands|
        ensures Eval(ops', ids[operands[k]], Pull(BackOf(live, canon), env)) == Eval(sys.operations, operands[k], env)
      {
        RebuiltEval(sys, live, canon, operands[k], env);
      }
      RebuiltOperator(sys, live, canon, id, env);
    }
  }

  lemma RebuildFacts(sys: Sys, live: seq<bool>, canon: seq<NodeId>, id: NodeId)
    requires Fits(sys, live, canon) && InRange(sys.operations, id) && live[canon[id]]
    ensures Replaces(sys.operations, id, canon[id]) && canon[canon[id]] == canon[id]
    ensures InRange(Rebuilt(sys, live, canon).operations, NewIds(Survivors(live, canon), canon)[id])
  {
    assert Replaces(sys.operations, id, canon[id]);
    NewNumber(sys, live, canon, id);
  }

  lemma OperandsCovered(sys: Sys, live: seq<bool>, canon: seq<NodeId>, id: NodeId)
    requires Fits(sys, live, canon) && InRange(sys.operations, id) && live[id]
    ensures var operands := sys.operations[id - 1].operands;
            forall k :: 0 <= k < |operands| ==>
              && 1 <= operands[k] < id && operands[k] < |canon| && canon[operands[k]] < |live| && live[canon[operands[k]]]
              && InRange(Rebuilt(sys, live, canon).operations, NewIds(Survivors(live, canon), canon)[operands[k]])
  {
    var operands := sys.operations[id - 1].operands;
    assert TypedAt(sys.operations, id);
    forall k | 0 <= k < |operands|
      ensures live[canon[operands[k]]]
      ensures InRange(Rebuilt(sys, live, canon).operations, NewIds(Survivors(live, canon), canon)[operands[k]])
    {
      assert OptionalLive(live, canon, Some(operands[k]));
      NewNumber(sys, live, canon, operands[k]);
    }
  }

  lemma RebuiltLeaf(sys: Sys, live: seq<bool>, canon: seq<NodeId>, id: NodeId, env: Env)
    requires Fits(sys, live, canon) && InRange(sys.operations, id) && live[id] && canon[id] == id
    requires TypedOperations(Rebuilt(sys, live, canon).operations) && IsLeaf(sys.operations[id - 1].opcode)
    ensures var i := NewIds(Survivors(live, canon), canon)[id];
            && InRange(Rebuilt(sys, live, canon).operations, i)
            && Eval(Rebuilt(sys, live, canon).operations, i, Pull(BackOf(live, canon), env)) == Eval(sys.operations, id, env)
  {
    hide Apply, Typed, Sound, Covers, Settled, Survivors;
    var back := BackOf(live, canon);
    var ops' := Rebuilt(sys, live, canon).operations;
    var i := NewIds(Survivors(live, canon), canon)[id];
    NewNumber(sys, live, canon, id);
    assert Pull(back, env)(i) == env(id);
    assert ops'[i - 1].width == sys.operations[id - 1].width && ops'[i - 1].opcode == sys.operations[id - 1].opcode;
  }

  lemma RebuiltOperator(sys: Sys, live: seq<bool>, canon: seq<NodeId>, id: NodeId, env: Env)
    requires Fits(sys, live, canon) && InRange(sys.operations, id) && live[id] && canon[id] == id
    requires TypedOperations(Rebuilt(sys, live, canon).operations) && !IsLeaf(sys.operations[id - 1].opcode)
    requires var ids := NewIds(Survivors(live, canon), canon);
             var operands := sys.operations[id - 1].operands;
             forall k :: 0 <= k < |operands| ==>
               && InRange(sys.operations, operands[k]) && InRange(Rebuilt(sys, live, canon).operations, ids[operands[k]])
               && Eval(Rebuilt(sys, live, canon).operations, ids[operands[k]], Pull(BackOf(live, canon), env)) ==
                    Eval(sys.operations, operands[k], env)
    ensures var i := NewIds(Survivors(live, canon), canon)[id];
            && InRange(Rebuilt(sys, live, canon).operations, i)
            && Eval(Rebuilt(sys, live, canon).operations, i, Pull(BackOf(live, canon), env)) == Eval(sys.operations, id, env)
  {
    hide Apply, Typed, Pull, Sound, Covers, Settled, Rebuilt, Survivors;
    var ops' := Rebuilt(sys, live, canon).operations;
    var i := NewIds(Survivors(live, canon), canon)[id];
    var env' := Pull(BackOf(live, canon), env);
    NewNumber(sys, live, canon, id);
    NewOperandsTyped(sys, live, canon, i);
    assert TypedAt(sys.operations, id) && TypedAt(ops', i);
    assert OperandValues(ops', i, env') == OperandValues(sys.operations, id, env);
    OperandsDetermine(sys.operations, id, env, ops', i, env');
  }

  /** Operations that differ only in their operand numbers, with equal operand values, have equal values. */
  lemma OperandsDetermine(ops: seq<Operation>, id: NodeId, env: Env, ops': seq<Operation>, i: NodeId, env': Env)
    requires TypedOperations(ops) && TypedOperations(ops') && InRange(ops, id) && InRange(ops', i)
    requires !IsLeaf(ops[id - 1].opcode) && ops'[i - 1] == ops[id - 1].(operands := ops'[i - 1].operands)
    requires Dominated(ops, id) && Dominated(ops', i) && OperandWidths(ops, id) == OperandWidths(ops', i)
    requires OperandValues(ops, id, env) == OperandValues(ops', i, env')
    ensures Eval(ops, id, env) == Eval(ops', i, env')
  {
    assert TypedAt(ops, id) && TypedAt(ops', i);
  }

  // ----- state records -----

  lemma {:induction false} KeptStateOrigin(states: seq<State>, live: seq<bool>, ids: seq<NodeId>, k: nat) returns (j: nat)
    requires k < |KeptStates(states, live, ids)|
    ensures j < |states| && states[j].value < |live| && live[states[j].value]
    ensures KeptStates(states, live, ids)[k] == RenumberState(ids, states[j])
  {
    var front := states[..|states| - 1];
    if k < |KeptStates(front, live, ids)| {
      j := KeptStateOrigin(front, live, ids, k);
    } else {
      j := |states| - 1;
    }
  }

  lemma {:induction false} KeptStateImage(states: seq<State>, live: seq<bool>, ids: seq<NodeId>, j: nat) returns (k: nat)
    requires j < |states| && states[j].value < |live| && live[states[j].value]
    ensures k < |KeptStates(states, live, ids)|
    ensures KeptStates(states, live, ids)[k] == RenumberState(ids, states[j])
  {
    var front := states[..|states| - 1];
    if j < |front| {
      k := KeptStateImage(front, live, ids, j);
    } else {
      k := |KeptStates(front, live, ids)|;
    }
  }

  /** New numbers of live state variables are distinct. */
  lemma StateNumber(sys: Sys, live: seq<bool>, canon: seq<NodeId>, j: nat)
    requires Fits(sys, live, canon) && j < |sys.states| && live[sys.states[j].value]
    ensures var id := sys.states[j].value;
            var i := NewIds(Survivors(live, canon), canon)[id];
            InRange(sys.operations, id) && canon[id] == id && i < |BackOf(live, canon)| && BackOf(live, canon)[i] == id
  {
    assert TypedState(sys.operations, sys.states[j]);
    var id := sys.states[j].value;
    assert Replaces(sys.operations, id, canon[id]);
    NewNumber(sys, live, canon, id);
  }

  lemma {:induction false} KeptStatesDistinct(sys: Sys, live: seq<bool>, canon: seq<NodeId>, n: nat)
    requires Fits(sys, live, canon) && n <= |sys.states|
    ensures DistinctStates(KeptStates(sys.states[..n], live, NewIds(Survivors(live, canon), canon)))
  {
    if n != 0 {
      var ids := NewIds(Survivors(live, canon), canon);
      var before := KeptStates(sys.states[..n - 1], live, ids);
      KeptStatesDistinct(sys, live, canon, n - 1);
      assert sys.states[..n][..n - 1] == sys.states[..n - 1];
      var last := sys.states[n - 1];
      if last.value < |live| && live[last.value] {
        forall k | 0 <= k < |before|
          ensures before[k].value != ids[last.value]
        {
          var j := KeptStateOrigin(sys.states[..n - 1], live, ids, k);
          StateNumber(sys, live, canon, j);
          StateNumber(sys, live, canon, n - 1);
        }
      }
    }
  }

  lemma RebuiltStateTyped(sys: Sys, live: seq<bool>, canon: seq<NodeId>, k: nat)
    requires Fits(sys, live, canon) && k < |Rebuilt(sys, live, canon).states|
    ensures TypedState(Rebuilt(sys, live, canon).operations, Rebuilt(sys, live, canon).states[k])
  {
    hide Typed, Sound, Settled, Survivors;
    var ids := NewIds(Survivors(live, canon), canon);
    var j := KeptStateOrigin(sys.states, live, ids, k);
    var state := sys.states[j];
    StateNumber(sys, live, canon, j);
    NewNumber(sys, live, canon, state.value);
    assert TypedState(sys.operations, state);
    if state.initial.Some? {
      NewNumber(sys, live, canon, state.initial.value);
    }
    if state.next.Some? {
      NewNumber(sys, live, canon, state.next.value);
    }
  }

  lemma RebuiltPropertyTyped(sys: Sys, live: seq<bool>, canon: seq<NodeId>, k: nat)
    requires Fits(sys, live, canon) && k < |sys.properties|
    ensures TypedProperty(Rebuilt(sys, live, canon).operations, Rebuilt(sys, live, canon).properties[k])
  {
    var p := sys.properties[k];
    assert TypedProperty(sys.operations, p);
    if p.condition != 0 {
      assert OptionalLive(live, canon, Some(p.condition));
      NewNumber(sys, live, canon, p.condition);
    }
    forall j | 0 <= j < |p.conditions|
      ensures InRange(Rebuilt(sys, live, canon).operations, Rebuilt(sys, live, canon).properties[k].conditions[j])
      ensures Rebuilt(sys, live, canon).operations[Rebuilt(sys, live, canon).properties[k].conditions[j] - 1].width ==
              sys.operations[p.conditions[j] - 1].width
    {
      assert OptionalLive(live, canon, Some(p.conditions[j]));
      NewNumber(sys, live, canon, p.conditions[j]);
    }
  }

  lemma RebuiltWellTyped(sys: Sys, live: seq<bool>, canon: seq<NodeId>)
    requires Fits(sys, live, canon)
    ensures WellTyped(Rebuilt(sys, live, canon))
  {
    var sys' := Rebuilt(sys, live, canon);
    RebuiltOperationsTyped(sys, live, canon);
    forall k | 0 <= k < |sys'.states|
      ensures TypedState(sys'.operations, sys'.states[k])
    {
      RebuiltStateTyped(sys, live, canon, k);
    }
    assert sys.states[..|sys.states|] == sys.states;
    KeptStatesDistinct(sys, live, canon, |sys.states|);
    forall k | 0 <= k < |sys'.outputs|
      ensures InRange(sys'.operations, sys'.outputs[k].value)
    {
      assert OptionalLive(live, canon, Some(sys.outputs[k].value));
      NewNumber(sys, live, canon, sys.outputs[k].value);
    }
    forall k | 0 <= k < |sys'.properties|
      ensures TypedProperty(sys'.operations, sys'.properties[k])
    {
      RebuiltPropertyTyped(sys, live, canon, k);
    }
  }

  /** A surviving state has a record exactly when it had one, renumbered. */
  lemma RebuiltRecord(sys: Sys, live: seq<bool>, canon: seq<NodeId>, i: NodeId)
    requires Fits(sys, live, canon) && WellTyped(Rebuilt(sys, live, canon))
    requires IsStateVar(Rebuilt(sys, live, canon).operations, i)
    ensures var sys' := Rebuilt(sys, live, canon);
            var ids := NewIds(Survivors(live, canon), canon);
            var id := BackOf(live, canon)[i];
            && InitOf(sys', i) == RenumberOptional(ids, InitOf(sys, id))
            && NextOf(sys', i) == RenumberOptional(ids, NextOf(sys, id))
            && OptionalLive(live, canon, InitOf(sys, id)) && OptionalLive(live, canon, NextOf(sys, id))
  {
    var sys' := Rebuilt(sys, live, canon);
    var ids := NewIds(Survivors(live, canon), canon);
    NewOperation(sys, live, canon, i);
    var id := BackOf(live, canon)[i];
    var j, k := FindState(sys.states, id), FindState(sys'.states, i);
    if j < |sys.states| {
      var k' := KeptStateImage(sys.states, live, ids, j);
      FindDistinct(sys'.states, k');
    } else if k < |sys'.states| {
      var j' := KeptStateOrigin(sys.states, live, ids, k);
      StateNumber(sys, live, canon, j');
      assert false;
    }
  }

  lemma RebuiltRenames(sys: Sys, live: seq<bool>, canon: seq<NodeId>)
    requires Fits(sys, live, canon)
    ensures Renaming(sys.operations, Rebuilt(sys, live, canon).operations, BackOf(live, canon))
  {
    var ops' := Rebuilt(sys, live, canon).operations;
    var back := BackOf(live, canon);
    forall i: NodeId | InRange(ops', i)
      ensures InRange(sys.operations, back[i]) && SameLeaf(sys.operations[back[i] - 1], ops'[i - 1])
      ensures NewIds(Survivors(live, canon), canon)[back[i]] == i
    {
      NewOperation(sys, live, canon, i);
    }
  }

  lemma RebuiltValue(sys: Sys, live: seq<bool>, canon: seq<NodeId>, id: NodeId, env: Env)
    requires Fits(sys, live, canon) && InRange(sys.operations, id) && OptionalLive(live, canon, Some(id))
    requires WellTyped(Rebuilt(sys, live, canon))
    ensures SameValue(sys, id, env, Rebuilt(sys, live, canon),
                      Lookup(NewIds(Survivors(live, canon), canon), id), Pull(BackOf(live, canon), env))
  {
    RebuiltEval(sys, live, canon, id, env);
  }

  lemma RebuiltProperty(sys: Sys, live: seq<bool>, canon: seq<NodeId>, k: nat, env: Env)
    requires Fits(sys, live, canon) && WellTyped(Rebuilt(sys, live, canon)) && k < |sys.properties|
    ensures SameProperty(sys, sys.properties[k], env,
                         Rebuilt(sys, live, canon), Rebuilt(sys, live, canon).properties[k], Pull(BackOf(live, canon), env))
  {
    var p := sys.properties[k];
    assert TypedProperty(sys.operations, p);
    if p.condition != 0 {
      RebuiltValue(sys, live, canon, p.condition, env);
    }
    forall j | 0 <= j < |p.conditions|
      ensures SameValue(sys, p.conditions[j], env, Rebuilt(sys, live, canon),
                        Rebuilt(sys, live, canon).properties[k].conditions[j], Pull(BackOf(live, canon), env))
    {
      assert OptionalLive(live, canon, Some(p.conditions[j]));
      RebuiltValue(sys, live, canon, p.conditions[j], env);
    }
  }

  lemma RebuiltAgrees(sys: Sys, live: seq<bool>, canon: seq<NodeId>, env: Env)
    requires Fits(sys, live, canon) && WellTyped(Rebuilt(sys, live, canon))
    requires Renaming(sys.operations, Rebuilt(sys, live, canon).operations, BackOf(live, canon))
    ensures AgreeAt(sys, Rebuilt(sys, live, canon), BackOf(live, canon), env)
  {
    var sys' := Rebuilt(sys, live, canon);
    var back := BackOf(live, canon);
    var env' := Pull(back, env);
    forall k | 0 <= k < |sys.outputs|
      ensures SameValue(sys, sys.outputs[k].value, env, sys', sys'.outputs[k].value, env')
    {
      assert OptionalLive(live, canon, Some(sys.outputs[k].value));
      RebuiltValue(sys, live, canon, sys.outputs[k].value, env);
    }
    forall k | 0 <= k < |sys.properties|
      ensures SameProperty(sys, sys.properties[k], env, sys', sys'.properties[k], env')
    {
      RebuiltProperty(sys, live, canon, k, env);
    }
    forall i: NodeId | IsStateVar(sys'.operations, i)
      ensures SameOptional(sys, InitOf(sys, back[i]), env, sys', InitOf(sys', i), env')
      ensures SameOptional(sys, NextOf(sys, back[i]), env, sys', NextOf(sys', i), env')
    {
      RebuiltRecord(sys, live, canon, i);
      RecordTyped(sys, back[i]);
      if InitOf(sys, back[i]).Some? {
        RebuiltValue(sys, live, canon, InitOf(sys, back[i]).value, env);
      }
      if NextOf(sys, back[i]).Some? {
        RebuiltValue(sys, live, canon, NextOf(sys, back[i]).value, env);
      }
    }
  }

  /** Main result about rebuilding: it never fails, and the new module behaves as the old one. */
  lemma RebuildRefines(sys: Sys, live: seq<bool>, canon: seq<NodeId>)
    requires Fits(sys, live, canon)
    ensures Ordered(sys.operations) && NoForwardReference(sys, live, canon)
    ensures WellTyped(Rebuilt(sys, live, canon))
    ensures Refines(sys, Rebuilt(sys, live, canon), BackOf(live, canon))
  {
    TypedIsOrdered(sys.operations);
    var keep := Survivors(live, canon);
    forall id: NodeId | InRange(sys.operations, id) && keep[id]
      ensures OperandsSurvive(sys.operations, keep, canon, id)
    {
      var operands := sys.operations[id - 1].operands;
      assert Dominated(sys.operations, id);
      forall k | 0 <= k < |operands|
        ensures Slot(keep, canon[operands[k]]) != 0
      {
        assert OptionalLive(live, canon, Some(operands[k]));
        NewNumber(sys, live, canon, operands[k]);
      }
    }
    RebuiltWellTyped(sys, live, canon);
    RebuiltRenames(sys, live, canon);
    forall env: Env
      ensures AgreeAt(sys, Rebuilt(sys, live, canon), BackOf(live, canon), env)
    {
      RebuiltAgrees(sys, live, canon, env);
    }
  }
}
