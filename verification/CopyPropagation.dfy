/** Operations that only pass an operand on. */
module CopyPropagation {
  import opened Bits
  import opened TransitionSystem
  import opened Semantics
  import opened Refinement
  import opened PassSupport
  import opened Rebuilding
  import opened Replacement

  function Target(ops: seq<Operation>, vector: seq<NodeId>, id: NodeId): (r: NodeId)
    requires TypedOperations(ops) && Ordered(ops) && InRange(ops, id) && |vector| == id && Descending(vector)
    ensures 1 <= r <= id
  {
    assert TypedAt(ops, id);
    var o := ops[id - 1];
    if o.opcode.Ite? && o.operands[1] == o.operands[2] then Resolved(o.operands[1], vector)
    else if o.opcode.Slice? && |o.immediates| == 2 && o.immediates[1] == 0 &&
            o.immediates[0] + 1 == ops[o.operands[0] - 1].width then Resolved(o.operands[0], vector)
    else if (o.opcode.Uext? || o.opcode.Sext?) && o.immediates != [] && o.immediates[0] == 0 then
      Resolved(o.operands[0], vector)
    else id
  }

  function Vector(ops: seq<Operation>, n: nat): (vector: seq<NodeId>)
    requires TypedOperations(ops) && Ordered(ops) && n <= |ops|
    ensures |vector| == n + 1 && Descending(vector)
  {
    if n == 0 then [0]
    else
      var before := Vector(ops, n - 1);
      before + [Target(ops, before, n)]
  }

  function Propagated(sys: Sys): Sys
    requires TypedOperations(sys.operations) && Ordered(sys.operations)
  {
    Replaced(sys, Vector(sys.operations, |sys.operations|))
  }

  lemma OperandCounts(ops: seq<Operation>, id: NodeId)
    requires TypedOperations(ops) && InRange(ops, id)
    ensures var o := ops[id - 1];
            && Dominated(ops, id)
            && (o.opcode.Ite? ==> |o.operands| == 3)
            && (o.opcode.Slice? || o.opcode.Uext? || o.opcode.Sext? ==> |o.operands| == 1)
  {
    assert TypedAt(ops, id);
  }

  method PropagateCopies(m: Module) returns (changed: bool)
    requires WellTyped(m.View())
    modifies m
    ensures Ordered(old(m.operations)) && m.View() == Propagated(old(m.View()))
    ensures changed == !ReplacesNothing(Vector(old(m.operations), |old(m.operations)|))
  {
    hide Replaced, Sound, TypedState, TypedProperty, DistinctStates, TypedOperations, Resolved, ReplacesNothing;
    var ops := m.operations;
    TypedIsOrdered(ops);
    var replacement: seq<NodeId> := [0];
    for id := 1 to |ops| + 1
      invariant m.View() == old(m.View())
      invariant replacement == Vector(ops, id - 1)
    {
      OperandCounts(ops, id);
      var operation := ops[id - 1];
      var target := id;
      if operation.opcode.Ite? && operation.operands[1] == operation.operands[2] {
        target := Resolve(operation.operands[1], replacement);
      } else if operation.opcode.Slice? && |operation.immediates| == 2 && operation.immediates[1] == 0 &&
                operation.immediates[0] + 1 == ops[operation.operands[0] - 1].width {
        target := Resolve(operation.operands[0], replacement);
      } else if (operation.opcode.Uext? || operation.opcode.Sext?) && operation.immediates != [] &&
                operation.immediates[0] == 0 {
        target := Resolve(operation.operands[0], replacement);
      }
      replacement := replacement + [target];
    }
    VectorSound(ops, |ops|);
    var outcome;
    changed, outcome := ApplyReplacements(m, replacement);
  }

  lemma TargetReplaces(ops: seq<Operation>, vector: seq<NodeId>, id: NodeId)
    requires TypedOperations(ops) && Ordered(ops) && InRange(ops, id) && |vector| == id && Descending(vector)
    requires Sound(ops, vector)
    ensures Replaces(ops, id, Target(ops, vector, id))
  {
    var o := ops[id - 1];
    assert TypedAt(ops, id);
    if Target(ops, vector, id) != id {
      ResolvedOperand(ops, vector, id, if o.opcode.Ite? then 1 else 0);
      if o.opcode.Slice? {
        forall env: Env
          ensures Eval(ops, id, env) == OperandValues(ops, id, env)[0]
        {
          SmallModulo(OperandValues(ops, id, env)[0], Pow2(o.width));
          DivByOne(OperandValues(ops, id, env)[0]);
        }
      }
    }
  }

  lemma DivByOne(a: nat)
    ensures Pow2(0) == 1 && a / Pow2(0) == a
  {
  }

  lemma {:induction false} VectorSound(ops: seq<Operation>, n: nat)
    requires TypedOperations(ops) && Ordered(ops) && n <= |ops|
    ensures Sound(ops, Vector(ops, n))
  {
    if n != 0 {
      VectorSound(ops, n - 1);
      TargetReplaces(ops, Vector(ops, n - 1), n);
      SoundExtends(ops, Vector(ops, n - 1), Target(ops, Vector(ops, n - 1), n));
    }
  }

  lemma PropagatedRefines(sys: Sys)
    requires WellTyped(sys)
    ensures Ordered(sys.operations) && WellTyped(Propagated(sys))
    ensures exists back :: Refines(sys, Propagated(sys), back)
  {
    TypedIsOrdered(sys.operations);
    VectorSound(sys.operations, |sys.operations|);
    ReplacedRefines(sys, Vector(sys.operations, |sys.operations|));
  }
}
