/** Applying a vector of replacements to a module. */
module Replacement {
  import opened TransitionSystem
  import opened Semantics
  import opened Refinement
  import opened PassSupport
  import opened Rebuilding

  predicate ReplacesNothing(vector: seq<NodeId>) {
    forall i :: 0 <= i < |vector| ==> vector[i] == i
  }

  function Replaced(sys: Sys, vector: seq<NodeId>): Sys
    requires |vector| == |sys.operations| + 1 && Descending(vector)
  {
    var n := |sys.operations|;
    if ReplacesNothing(vector) then sys
    else Rebuilt(sys, LiveVector(n, None), Canonical(n, Some(vector)))
  }

  method ApplyReplacements(m: Module, vector: seq<NodeId>) returns (changed: bool, outcome: Outcome)
    requires WellTyped(m.View()) && |vector| == |m.operations| + 1 && Descending(vector)
    modifies m
    ensures changed == !ReplacesNothing(vector)
    ensures outcome.Pass? ==> m.View() == Replaced(old(m.View()), vector)
    ensures outcome.Fail? ==> m.View() == old(m.View())
    ensures Sound(old(m.operations), vector) ==> outcome.Pass?
  {
    changed := false;
    for id := 1 to |vector|
      invariant changed == exists i :: 1 <= i < id && vector[i] != i
    {
      changed := changed || vector[id] != id;
    }
    outcome := Pass;
    if changed {
      ghost var before := m.View();
      outcome := Rebuild(m, None, Some(vector));
      if Sound(before.operations, vector) {
        ReplacedFits(before, vector);
        RebuildRefines(before, LiveVector(|before.operations|, None), Canonical(|before.operations|, Some(vector)));
      }
    }
  }

  lemma ReplacedFits(sys: Sys, vector: seq<NodeId>)
    requires WellTyped(sys) && |vector| == |sys.operations| + 1 && Descending(vector) && Sound(sys.operations, vector)
    ensures Fits(sys, LiveVector(|sys.operations|, None), Canonical(|sys.operations|, Some(vector)))
  {
    var n := |sys.operations|;
    var live, canon := LiveVector(n, None), Canonical(n, Some(vector));
    CanonicalSound(sys.operations, vector);
    forall id: NodeId | InRange(sys.operations, id)
      ensures AllLive(live, canon, sys.operations[id - 1].operands)
    {
      assert TypedAt(sys.operations, id);
    }
    forall k | 0 <= k < |sys.states|
      ensures OptionalLive(live, canon, sys.states[k].initial) && OptionalLive(live, canon, sys.states[k].next)
    {
      assert TypedState(sys.operations, sys.states[k]);
    }
    forall k | 0 <= k < |sys.properties|
      ensures sys.properties[k].condition != 0 ==> OptionalLive(live, canon, Some(sys.properties[k].condition))
      ensures AllLive(live, canon, sys.properties[k].conditions)
    {
      assert TypedProperty(sys.operations, sys.properties[k]);
    }
  }

  function ReplacedBack(sys: Sys, vector: seq<NodeId>): seq<NodeId>
    requires |vector| == |sys.operations| + 1 && Descending(vector)
  {
    var n := |sys.operations|;
    if ReplacesNothing(vector) then Identity(n)
    else BackOf(LiveVector(n, None), Canonical(n, Some(vector)))
  }

  /** A sound vector never meets a forward reference, and applying it preserves behaviour. */
  lemma ReplacedRefines(sys: Sys, vector: seq<NodeId>)
    requires WellTyped(sys) && |vector| == |sys.operations| + 1 && Descending(vector) && Sound(sys.operations, vector)
    ensures WellTyped(Replaced(sys, vector))
    ensures Refines(sys, Replaced(sys, vector), ReplacedBack(sys, vector))
  {
    if ReplacesNothing(vector) {
      RefinesSelf(sys);
    } else {
      ReplacedFits(sys, vector);
      RebuildRefines(sys, LiveVector(|sys.operations|, None), Canonical(|sys.operations|, Some(vector)));
    }
  }

  lemma {:induction false} CountAll(keep: seq<bool>, n: nat, gap: nat)
    requires 1 <= gap <= n < |keep| && !keep[gap]
    ensures Count(keep, n) < n
  {
    if gap < n {
      CountAll(keep, n - 1, gap);
    }
  }

  /** A replacement that is not the identity removes at least one operation. */
  lemma ReplacedShrinks(sys: Sys, vector: seq<NodeId>)
    requires |vector| == |sys.operations| + 1 && Descending(vector) && !ReplacesNothing(vector)
    ensures |Replaced(sys, vector).operations| < |sys.operations|
  {
    var n := |sys.operations|;
    var gap :| 0 <= gap < |vector| && vector[gap] != gap;
    CountAll(Survivors(LiveVector(n, None), Canonical(n, Some(vector))), n, gap);
  }

  // ----- shared by the passes -----

  /** The operands of an operation have the values of what replaces them. */
  lemma ResolvedOperand(ops: seq<Operation>, vector: seq<NodeId>, id: NodeId, k: nat)
    requires TypedOperations(ops) && Sound(ops, vector) && Descending(vector) && |vector| == id && InRange(ops, id)
    requires k < |ops[id - 1].operands|
    ensures var operand := ops[id - 1].operands[k];
            var r := Resolved(operand, vector);
            && 1 <= r <= operand < id && Dominated(ops, id)
            && ops[r - 1].width == OperandWidths(ops, id)[k] == ops[operand - 1].width
            && forall env: Env :: OperandValues(ops, id, env)[k] == Eval(ops, r, env)
  {
    assert TypedAt(ops, id);
    ResolvedReplaces(ops, vector, ops[id - 1].operands[k]);
  }

  lemma SoundExtends(ops: seq<Operation>, vector: seq<NodeId>, r: NodeId)
    requires TypedOperations(ops) && Sound(ops, vector) && |vector| <= |ops|
    requires Replaces(ops, |vector|, r)
    ensures Sound(ops, vector + [r])
  {
    var longer := vector + [r];
    forall i: NodeId | 1 <= i < |longer|
      ensures Replaces(ops, i, longer[i])
    {
      assert i < |vector| ==> Replaces(ops, i, vector[i]);
    }
  }
}
