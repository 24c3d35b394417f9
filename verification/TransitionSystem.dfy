/** The BTOR2 transition system: ordered operations, state records, outputs and properties. */
module TransitionSystem {
  import opened Bits

  datatype Option<+T> = None | Some(value: T)

  datatype Outcome = Pass | Fail(error: string)

  // Operations are numbered from one, in order; zero is no operation.
  type NodeId = nat

  datatype Reduction = RedAnd | RedOr | RedXor

  // Two operands as wide as the result.
  datatype Arithmetic = And | Or | Xor | Add | Sub | Mul | Udiv | Urem | Sll | Srl | Sra

  // Two operands of equal width and a Boolean result.
  datatype Comparison = Eq | Neq | Ult | Ulte | Ugt | Ugte | Slt | Slte | Sgt | Sgte

  datatype Opcode =
    | Input | StateVar | Const
    | Not | Reduce(reduction: Reduction) | Arith(arithmetic: Arithmetic) | Compare(comparison: Comparison)
    | Concat | Ite | Slice | Uext | Sext

  datatype Operation = Operation(
    opcode: Opcode,
    width: nat,
    operands: seq<NodeId>,
    immediates: seq<nat>,
    symbol: string,
    bits: string)

  datatype State = State(value: NodeId, initial: Option<NodeId>, next: Option<NodeId>)

  datatype PropertyKind = Constraint | Bad | Cover | Fair | Justice

  datatype Output = Output(value: NodeId, name: string)

  datatype Property = Property(kind: PropertyKind, condition: NodeId, name: string, conditions: seq<NodeId>)

  /** The value of a transition system, as one mathematical object. */
  datatype Sys = Sys(
    operations: seq<Operation>,
    states: seq<State>,
    outputs: seq<Output>,
    properties: seq<Property>)

  // ----- typing: the verification rules of the BTOR2 specification -----

  predicate InRange(ops: seq<Operation>, id: NodeId) {
    1 <= id <= |ops|
  }

  predicate IsLeaf(opcode: Opcode) {
    opcode.Input? || opcode.StateVar?
  }

  /** The operand widths `w` suit the operation. */
  predicate Typed(o: Operation, w: seq<nat>) {
    && o.width > 0
    && (forall k :: 0 <= k < |w| ==> w[k] > 0)
    && match o.opcode
       case Input => |w| == 0
       case StateVar => |w| == 0
       case Const => |w| == 0 && ValidBits(o.bits, o.width)
       case Not => |w| == 1 && w[0] == o.width
       case Reduce(_) => |w| == 1 && o.width == 1
       case Arith(_) => |w| == 2 && w[0] == w[1] == o.width
       case Compare(_) => |w| == 2 && w[0] == w[1] && o.width == 1
       case Concat => |w| == 2 && o.width == w[0] + w[1]
       case Ite => |w| == 3 && w[0] == 1 && w[1] == w[2] == o.width
       case Slice =>
         && |w| == 1 && |o.immediates| == 2
         && o.immediates[1] <= o.immediates[0] < w[0]
         && o.width == o.immediates[0] - o.immediates[1] + 1
       case Uext => |w| == 1 && |o.immediates| == 1 && o.width == w[0] + o.immediates[0]
       case Sext => |w| == 1 && |o.immediates| == 1 && o.width == w[0] + o.immediates[0]
  }

  predicate Dominated(ops: seq<Operation>, id: NodeId)
    requires InRange(ops, id)
  {
    var operands := ops[id - 1].operands;
    forall k :: 0 <= k < |operands| ==> 1 <= operands[k] < id
  }

  function OperandWidths(ops: seq<Operation>, id: NodeId): (w: seq<nat>)
    requires InRange(ops, id) && Dominated(ops, id)
    ensures |w| == |ops[id - 1].operands|
    ensures forall k :: 0 <= k < |w| ==> w[k] == ops[ops[id - 1].operands[k] - 1].width
  {
    var operands := ops[id - 1].operands;
    seq(|operands|, k requires 0 <= k < |operands| => ops[operands[k] - 1].width)
  }

  predicate TypedAt(ops: seq<Operation>, id: NodeId)
    requires InRange(ops, id)
  {
    Dominated(ops, id) && Typed(ops[id - 1], OperandWidths(ops, id))
  }

  ghost predicate TypedOperations(ops: seq<Operation>) {
    forall id {:trigger TypedAt(ops, id)} :: InRange(ops, id) ==> TypedAt(ops, id)
  }

  /** Operands come before the operations that use them. */
  ghost predicate Ordered(ops: seq<Operation>) {
    forall id {:trigger Dominated(ops, id)} :: InRange(ops, id) ==> Dominated(ops, id)
  }

  lemma TypedIsOrdered(ops: seq<Operation>)
    requires TypedOperations(ops)
    ensures Ordered(ops)
  {
    forall id | InRange(ops, id)
      ensures Dominated(ops, id)
    {
      assert TypedAt(ops, id);
    }
  }

  predicate IsStateVar(ops: seq<Operation>, id: NodeId) {
    InRange(ops, id) && ops[id - 1].opcode.StateVar?
  }

  predicate OptionalOfWidth(ops: seq<Operation>, id: Option<NodeId>, width: nat) {
    id.Some? ==> InRange(ops, id.value) && ops[id.value - 1].width == width
  }

  predicate TypedState(ops: seq<Operation>, state: State) {
    && IsStateVar(ops, state.value)
    && OptionalOfWidth(ops, state.initial, ops[state.value - 1].width)
    && OptionalOfWidth(ops, state.next, ops[state.value - 1].width)
  }

  predicate IsBoolean(ops: seq<Operation>, id: NodeId) {
    InRange(ops, id) && ops[id - 1].width == 1
  }

  predicate TypedProperty(ops: seq<Operation>, property: Property) {
    && (property.condition == 0 || InRange(ops, property.condition))
    && (forall k :: 0 <= k < |property.conditions| ==> InRange(ops, property.conditions[k]))
    && if property.kind.Justice? then
         |property.conditions| > 0 &&
         forall k :: 0 <= k < |property.conditions| ==> IsBoolean(ops, property.conditions[k])
       else IsBoolean(ops, property.condition)
  }

  /** A state has at most one record, hence at most one init and one next relation. */
  predicate DistinctStates(states: seq<State>) {
    forall i, j :: 0 <= i < j < |states| ==> states[i].value != states[j].value
  }

  ghost predicate WellTyped(sys: Sys) {
    && TypedOperations(sys.operations)
    && (forall k :: 0 <= k < |sys.states| ==> TypedState(sys.operations, sys.states[k]))
    && DistinctStates(sys.states)
    && (forall k :: 0 <= k < |sys.outputs| ==> InRange(sys.operations, sys.outputs[k].value))
    && (forall k :: 0 <= k < |sys.properties| ==> TypedProperty(sys.operations, sys.properties[k]))
  }

  // ----- the mutable module -----

  datatype Value = Value(node: NodeId, width: nat)

  /** Position of the first record of a state variable, or the number of records. */
  function FindState(states: seq<State>, id: NodeId): (k: nat)
    ensures k <= |states|
    ensures k < |states| ==> states[k].value == id
    ensures forall j :: 0 <= j < k ==> states[j].value != id
  {
    if states == [] then 0
    else if states[0].value == id then 0
    else
      var k := FindState(states[1..], id);
      assert forall j :: 1 <= j < k + 1 ==> states[j] == states[1..][j - 1];
      k + 1
  }

  lemma FindDistinct(states: seq<State>, k: nat)
    requires DistinctStates(states) && k < |states|
    ensures FindState(states, states[k].value) == k
  {
    var j := FindState(states, states[k].value);
    if j > k {
      assert false;
    } else if j < k {
      assert false;
    }
  }

  class Module {
    var operations: seq<Operation>
    var states: seq<State>
    var outputs: seq<Output>
    var properties: seq<Property>

    constructor ()
      ensures View() == Sys([], [], [], [])
    {
      operations, states, outputs, properties := [], [], [], [];
    }

    constructor Copy(sys: Sys)
      ensures View() == sys
    {
      operations, states, outputs, properties := sys.operations, sys.states, sys.outputs, sys.properties;
    }

    function View(): Sys
      reads this
    {
      Sys(operations, states, outputs, properties)
    }

    method AddOperation(operation: Operation) returns (id: Option<NodeId>)
      modifies this`operations
      ensures id.None? <==> operation.width == 0
      ensures id.None? ==> operations == old(operations)
      ensures id.Some? ==> operations == old(operations) + [operation] && id.value == |operations|
    {
      if operation.width == 0 {
        return None;
      }
      operations := operations + [operation];
      return Some(|operations|);
    }

    method AddState(state: Value) returns (outcome: Outcome)
      modifies this`states
      ensures outcome.Pass? <==> IsStateVar(operations, state.node)
      ensures states == if outcome.Pass? then old(states) + [State(state.node, None, None)] else old(states)
    {
      if state.node == 0 || state.node > |operations| {
        return Fail("BTOR2 operation id");
      }
      if operations[state.node - 1].opcode != StateVar {
        return Fail("BTOR2 state record requires a state operation");
      }
      states := states + [State(state.node, None, None)];
      return Pass;
    }

    method Init(state: Value, value: Value) returns (outcome: Outcome)
      modifies this`states
      ensures outcome.Pass? <==> state.width == value.width && FindState(old(states), state.node) < |old(states)|
      ensures outcome.Fail? ==> states == old(states)
      ensures outcome.Pass? ==>
                var k := FindState(old(states), state.node);
                states == old(states)[k := old(states)[k].(initial := Some(value.node))]
    {
      if state.width != value.width {
        return Fail("BTOR2 initial-state width mismatch");
      }
      var k := FindState(states, state.node);
      if k == |states| {
        return Fail("BTOR2 transition does not target a state");
      }
      states := states[k := states[k].(initial := Some(value.node))];
      return Pass;
    }

    method Next(state: Value, value: Value) returns (outcome: Outcome)
      modifies this`states
      ensures outcome.Pass? <==> state.width == value.width && FindState(old(states), state.node) < |old(states)|
      ensures outcome.Fail? ==> states == old(states)
      ensures outcome.Pass? ==>
                var k := FindState(old(states), state.node);
                states == old(states)[k := old(states)[k].(next := Some(value.node))]
    {
      if state.width != value.width {
        return Fail("BTOR2 next-state width mismatch");
      }
      var k := FindState(states, state.node);
      if k == |states| {
        return Fail("BTOR2 transition does not target a state");
      }
      states := states[k := states[k].(next := Some(value.node))];
      return Pass;
    }

    method AddConstraint(condition: Value, name: string) returns (outcome: Outcome)
      modifies this`properties
      ensures outcome.Pass? <==> condition.width == 1
      ensures properties == old(properties) + if outcome.Pass? then [Property(Constraint, condition.node, name, [])] else []
    {
      if condition.width != 1 {
        return Fail("BTOR2 constraint is not Boolean");
      }
      properties := properties + [Property(Constraint, condition.node, name, [])];
      return Pass;
    }

    method AddJustice(conditions: seq<Value>, name: string) returns (outcome: Outcome)
      modifies this`properties
      ensures outcome.Pass? <==> conditions != [] && forall k :: 0 <= k < |conditions| ==> conditions[k].width == 1
      ensures outcome.Fail? ==> properties == old(properties)
      ensures outcome.Pass? ==>
                var nodes := seq(|conditions|, k requires 0 <= k < |conditions| => conditions[k].node);
                properties == old(properties) + [Property(Justice, 0, name, nodes)]
    {
      if conditions == [] {
        return Fail("BTOR2 justice property has no conditions");
      }
      var values: seq<NodeId> := [];
      for k := 0 to |conditions|
        invariant |values| == k && properties == old(properties)
        invariant forall j :: 0 <= j < k ==> conditions[j].width == 1 && values[j] == conditions[j].node
      {
        if conditions[k].width != 1 {
          return Fail("BTOR2 justice condition is not Boolean");
        }
        values := values + [conditions[k].node];
      }
      assert values == seq(|conditions|, k requires 0 <= k < |conditions| => conditions[k].node);
      properties := properties + [Property(Justice, 0, name, values)];
      return Pass;
    }
  }
}
