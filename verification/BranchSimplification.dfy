/** Conditionals with equal branches or a constant condition. */
module BranchSimplification {
  import opened Bits
  import opened TransitionSystem
  import opened Semantics
  import opened Refinement
  import opened PassSupport
  import opened Rebuilding
  import opened Replacement

  predicate EndsInOne(bits: string) {
    bits != "" && bits[|bits| - 1] == '1'
  }

  function Target(ops: seq<Operation>, vector: seq<NodeId>, id: NodeId): (r: NodeId)
    requires TypedOperations(ops) && Ordered(ops) && InRange(ops, id) && |vector| == id && Descending(vector)
    ensures 1 <= r <= id
  {
    assert TypedAt(ops, id);
    var o := ops[id - 1];
    if !o.opcode.Ite? || |o.operands| != 3 then id
    else
      var condition := Resolved(o.operands[0], vector);
      var yes, no := Resolved(o.operands[1], vector), Resolved(o.operands[2], vector);
      if yes == no then yes
      else if ops[condition - 1].opcode.Const? then
        if EndsInOne(ops[condition - 1].bits) then yes else no
      else id
  }

  function Vector(ops: seq<Operation>, n: nat): (vector: seq<NodeId>)
    requires TypedOperations(ops) && Ordered(ops) && n <= |ops|
    ensures |vector| == n + 1 && Descending(vector)
  {
    if n == 0 then [0]
    else
      var before := Vector(ops, n - 1);
      before + [Target(ops, before, n)]
  }

  function Branched(sys: Sys): Sys
    requires TypedOperations(sys.operations) && Ordered(sys.operations)
  {
    Replaced(sys, Vector(sys.operations, |sys.operations|))
  }

  method SimplifyBranches(m: Module) returns (changed: bool)
    requires WellTyped(m.View())
    modifies m
    ensures Ordered(old(m.operations)) && m.View() == Branched(old(m.View()))
    ensures changed == !ReplacesNothing(Vector(old(m.operations), |old(m.operations)|))
  {
    hide Replaced, Sound, Typed, TypedState, TypedProperty;
    var ops := m.operations;
    TypedIsOrdered(ops);
    var replacement: seq<NodeId> := [0];
    for id := 1 to |ops| + 1
      invariant m.View() == old(m.View())
      invariant replacement == Vector(ops, id - 1)
    {
      assert TypedAt(ops, id);
      var operation := ops[id - 1];
      var target := id;
      if operation.opcode.Ite? && |operation.operands| == 3 {
        var condition := Resolve(operation.operands[0], replacement);
        var yes := Resolve(operation.operands[1], replacement);
        var no := Resolve(operation.operands[2], replacement);
        if yes == no {
          target := yes;
        } else if ops[condition - 1].opcode.Const? {
          target := if EndsInOne(ops[condition - 1].bits) then yes else no;
        }
      }
      replacement := replacement + [target];
    }
    VectorSound(ops, |ops|);
    var outcome;
    changed, outcome := ApplyReplacements(m, replacement);
  }

  lemma TargetReplaces(ops: seq<Operation>, vector: seq<NodeId>, id: NodeId)
    requires TypedOperations(ops) && Ordered(ops) && InRange(ops, id) && |vector| == id && Descending(vector)
    requires Sound(ops, vector)
    ensures Replaces(ops, id, Target(ops, vector, id))
  {
    hide Sound, Typed, Eval, Resolved, OperandValues, OperandWidths, EndsInOne;
    var o := ops[id - 1];
    if o.opcode.Ite? {
      IteTyped(ops, id);
      ResolvedOperand(ops, vector, id, 0);
      ResolvedOperand(ops, vector, id, 1);
      ResolvedOperand(ops, vector, id, 2);
      forall env: Env
        ensures Eval(ops, id, env) == Eval(ops, Target(ops, vector, id), env)
      {
        IteValue(ops, id, env);
        var condition := Resolved(o.operands[0], vector);
        if ops[condition - 1].opcode.Const? {
          BooleanDigit(ops, condition, env);
        }
      }
    }
  }

  lemma IteTyped(ops: seq<Operation>, id: NodeId)
    requires TypedOperations(ops) && InRange(ops, id) && ops[id - 1].opcode.Ite?
    ensures |ops[id - 1].operands| == 3 && Dominated(ops, id)
    ensures OperandWidths(ops, id) == [1, ops[id - 1].width, ops[id - 1].width]
  {
    assert TypedAt(ops, id);
  }

  lemma IteValue(ops: seq<Operation>, id: NodeId, env: Env)
    requires TypedOperations(ops) && InRange(ops, id) && ops[id - 1].opcode.Ite? && |ops[id - 1].operands| == 3
    ensures var v := OperandValues(ops, id, env);
            |v| == 3 && Eval(ops, id, env) == if v[0] != 0 then v[1] else v[2]
  {
    assert TypedAt(ops, id);
  }

  /** A constant condition is nonzero when its only digit is a one. */
  lemma BooleanDigit(ops: seq<Operation>, id: NodeId, env: Env)
    requires TypedOperations(ops) && IsBoolean(ops, id) && ops[id - 1].opcode.Const?
    ensures Eval(ops, id, env) != 0 <==> EndsInOne(ops[id - 1].bits)
  {
    assert TypedAt(ops, id);
    assert ValueOf(ops[id - 1].bits[..0]) == 0;
  }

  lemma {:induction false} VectorSound(ops: seq<Operation>, n: nat)
    requires TypedOperations(ops) && Ordered(ops) && n <= |ops|
    ensures Sound(ops, Vector(ops, n))
  {
    if n != 0 {
      VectorSound(ops, n - 1);
      TargetReplaces(ops, Vector(ops, n - 1), n);
      SoundExtends(ops, Vector(ops, n - 1), Target(ops, Vector(ops, n - 1), n));
    }
  }

  lemma BranchedRefines(sys: Sys)
    requires WellTyped(sys)
    ensures Ordered(sys.operations) && WellTyped(Branched(sys))
    ensures exists back :: Refines(sys, Branched(sys), back)
  {
    TypedIsOrdered(sys.operations);
    VectorSound(sys.operations, |sys.operations|);
    ReplacedRefines(sys, Vector(sys.operations, |sys.operations|));
  }
}
