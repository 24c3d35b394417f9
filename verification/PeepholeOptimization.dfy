/** Double negation. */
module PeepholeOptimization {
  import opened Bits
  import opened TransitionSystem
  import opened Semantics
  import opened Refinement
  import opened PassSupport
  import opened Rebuilding
  import opened Replacement

  function Target(ops: seq<Operation>, vector: seq<NodeId>, id: NodeId): (r: NodeId)
    requires TypedOperations(ops) && Ordered(ops) && InRange(ops, id) && |vector| == id && Descending(vector)
    ensures 1 <= r <= id
  {
    assert TypedAt(ops, id);
    var o := ops[id - 1];
    if !o.opcode.Not? || |o.operands| != 1 then id
    else
      var inner := Resolved(o.operands[0], vector);
      if ops[inner - 1].opcode.Not? then
        assert TypedAt(ops, inner);
        Resolved(ops[inner - 1].operands[0], vector)
      else id
  }

  function Vector(ops: seq<Operation>, n: nat): (vector: seq<NodeId>)
    requires TypedOperations(ops) && Ordered(ops) && n <= |ops|
    ensures |vector| == n + 1 && Descending(vector)
  {
    if n == 0 then [0]
    else
      var before := Vector(ops, n - 1);
      before + [Target(ops, before, n)]
  }

  function Peepholed(sys: Sys): Sys
    requires TypedOperations(sys.operations) && Ordered(sys.operations)
  {
    Replaced(sys, Vector(sys.operations, |sys.operations|))
  }

  lemma NotOperand(ops: seq<Operation>, id: NodeId)
    requires TypedOperations(ops) && InRange(ops, id) && ops[id - 1].opcode.Not?
    ensures |ops[id - 1].operands| == 1 && 1 <= ops[id - 1].operands[0] < id
  {
    assert TypedAt(ops, id);
  }

  method OptimizePeepholes(m: Module) returns (changed: bool)
    requires WellTyped(m.View())
    modifies m
    ensures Ordered(old(m.operations)) && m.View() == Peepholed(old(m.View()))
    ensures changed == !ReplacesNothing(Vector(old(m.operations), |old(m.operations)|))
  {
    hide Replaced, Sound, Typed, TypedState, TypedProperty;
    var ops := m.operations;
    TypedIsOrdered(ops);
    var replacement: seq<NodeId> := [0];
    for id := 1 to |ops| + 1
      invariant m.View() == old(m.View())
      invariant replacement == Vector(ops, id - 1)
    {
      var operation := ops[id - 1];
      var target := id;
      if operation.opcode.Not? && |operation.operands| == 1 {
        NotOperand(ops, id);
        var inner := Resolve(operation.operands[0], replacement);
        if ops[inner - 1].opcode.Not? {
          NotOperand(ops, inner);
          target := Resolve(ops[inner - 1].operands[0], replacement);
        }
      }
      replacement := replacement + [target];
    }
    VectorSound(ops, |ops|);
    var outcome;
    changed, outcome := ApplyReplacements(m, replacement);
  }

  lemma TargetReplaces(ops: seq<Operation>, vector: seq<NodeId>, id: NodeId)
    requires TypedOperations(ops) && Ordered(ops) && InRange(ops, id) && |vector| == id && Descending(vector)
    requires Sound(ops, vector)
    ensures Replaces(ops, id, Target(ops, vector, id))
  {
    hide Sound, Typed, Eval, Resolved;
    var o := ops[id - 1];
    if o.opcode.Not? {
      NotOperand(ops, id);
      ResolvedOperand(ops, vector, id, 0);
      var inner := Resolved(o.operands[0], vector);
      if ops[inner - 1].opcode.Not? {
        NotOperand(ops, inner);
        var value := ops[inner - 1].operands[0];
        ResolvedReplaces(ops, vector, value);
        NotWidth(ops, id);
        NotWidth(ops, inner);
        forall env: Env
          ensures Eval(ops, id, env) == Eval(ops, Resolved(value, vector), env)
        {
          NotValue(ops, id, env);
          NotValue(ops, inner, env);
        }
      }
    }
  }

  lemma NotWidth(ops: seq<Operation>, id: NodeId)
    requires TypedOperations(ops) && InRange(ops, id) && ops[id - 1].opcode.Not?
    ensures |ops[id - 1].operands| == 1 && InRange(ops, ops[id - 1].operands[0])
    ensures ops[ops[id - 1].operands[0] - 1].width == ops[id - 1].width
  {
    NotOperand(ops, id);
    assert TypedAt(ops, id);
  }

  lemma NotValue(ops: seq<Operation>, id: NodeId, env: Env)
    requires TypedOperations(ops) && InRange(ops, id) && ops[id - 1].opcode.Not?
    requires |ops[id - 1].operands| == 1 && InRange(ops, ops[id - 1].operands[0])
    ensures Eval(ops, id, env) == Pow2(ops[id - 1].width) - 1 - Eval(ops, ops[id - 1].operands[0], env)
  {
    assert TypedAt(ops, id);
  }

  lemma {:induction false} VectorSound(ops: seq<Operation>, n: nat)
    requires TypedOperations(ops) && Ordered(ops) && n <= |ops|
    ensures Sound(ops, Vector(ops, n))
  {
    if n != 0 {
      VectorSound(ops, n - 1);
      TargetReplaces(ops, Vector(ops, n - 1), n);
      SoundExtends(ops, Vector(ops, n - 1), Target(ops, Vector(ops, n - 1), n));
    }
  }

  lemma PeepholedRefines(sys: Sys)
    requires WellTyped(sys)
    ensures Ordered(sys.operations) && WellTyped(Peepholed(sys))
    ensures exists back :: Refines(sys, Peepholed(sys), back)
  {
    TypedIsOrdered(sys.operations);
    VectorSound(sys.operations, |sys.operations|);
    ReplacedRefines(sys, Vector(sys.operations, |sys.operations|));
  }
}
