/** Neutral and absorbing constants of two-operand operators. */
module AlgebraicSimplification {
  import opened Bits
  import opened TransitionSystem
  import opened Semantics
  import opened Refinement
  import opened PassSupport
  import opened Rebuilding
  import opened Replacement

  /** A constant whose digits are all `bit`. */
  predicate IsBits(o: Operation, bit: char) {
    o.opcode.Const? && forall i :: 0 <= i < |o.bits| ==> o.bits[i] == bit
  }

  predicate IsOne(o: Operation) {
    o.opcode.Const? && o.bits != "" && o.bits[|o.bits| - 1] == '1' &&
    forall i :: 0 <= i < |o.bits| - 1 ==> o.bits[i] == '0'
  }

  datatype Side = Neither | Left | Right

  /** Which operand an arithmetic operation reduces to. */
  function Rule(operator: Arithmetic, left: Operation, right: Operation): Side {
    if operator.And? && IsBits(right, '1') then Left
    else if operator.And? && IsBits(left, '1') then Right
    else if (operator.Or? || operator.Xor? || operator.Add?) && IsBits(right, '0') then Left
    else if (operator.Or? || operator.Xor? || operator.Add?) && IsBits(left, '0') then Right
    else if operator.Sub? && IsBits(right, '0') then Left
    else if operator.Mul? && IsOne(right) then Left
    else if operator.Mul? && IsOne(left) then Right
    else if (operator.And? || operator.Mul?) && IsBits(right, '0') then Right
    else if (operator.And? || operator.Mul?) && IsBits(left, '0') then Left
    else Neither
  }

  predicate IsBooleanConstant(o: Operation, bits: string) {
    o.opcode.Const? && o.width == 1 && o.bits == bits
  }

  function ComparisonBits(operator: Comparison): string {
    if operator.Eq? then "1" else "0"
  }

  /** The first such constant among operations `prior` to `id - 1`, or `id`. */
  function FirstBoolean(ops: seq<Operation>, prior: NodeId, id: NodeId, bits: string): (r: NodeId)
    requires 1 <= prior <= id && InRange(ops, id)
    ensures prior <= r <= id
    ensures r < id ==> IsBooleanConstant(ops[r - 1], bits)
    ensures forall j :: prior - 1 <= j < r - 1 ==> !IsBooleanConstant(ops[j], bits)
    decreases id - prior
  {
    if prior == id || IsBooleanConstant(ops[prior - 1], bits) then prior
    else FirstBoolean(ops, prior + 1, id, bits)
  }

  function Target(ops: seq<Operation>, vector: seq<NodeId>, id: NodeId): (r: NodeId)
    requires InRange(ops, id) && Dominated(ops, id) && |vector| == id && Descending(vector)
    ensures 1 <= r <= id
  {
    var o := ops[id - 1];
    if |o.operands| != 2 then id
    else
      var left, right := Resolved(o.operands[0], vector), Resolved(o.operands[1], vector);
      if o.opcode.Arith? then
        match Rule(o.opcode.arithmetic, ops[left - 1], ops[right - 1])
        case Neither => id
        case Left => left
        case Right => right
      else if o.opcode.Compare? && (o.opcode.comparison.Eq? || o.opcode.comparison.Neq?) && left == right then
        FirstBoolean(ops, 1, id, ComparisonBits(o.opcode.comparison))
      else id
  }

  function Vector(ops: seq<Operation>, n: nat): (vector: seq<NodeId>)
    requires Ordered(ops) && n <= |ops|
    ensures |vector| == n + 1 && Descending(vector)
  {
    if n == 0 then [0]
    else
      var before := Vector(ops, n - 1);
      assert Dominated(ops, n);
      before + [Target(ops, before, n)]
  }

  function Simplified(sys: Sys): Sys
    requires Ordered(sys.operations)
  {
    Replaced(sys, Vector(sys.operations, |sys.operations|))
  }

  /** Looks for the first such constant before `id`. */
  method FindBoolean(ops: seq<Operation>, id: NodeId, bits: string) returns (prior: NodeId)
    requires InRange(ops, id)
    ensures prior == FirstBoolean(ops, 1, id, bits)
  {
    prior := 1;
    while prior < id && !IsBooleanConstant(ops[prior - 1], bits)
      invariant 1 <= prior <= id
      invariant FirstBoolean(ops, 1, id, bits) == FirstBoolean(ops, prior, id, bits)
    {
      prior := prior + 1;
    }
  }

  method SimplifyAlgebra(m: Module) returns (changed: bool)
    requires WellTyped(m.View())
    modifies m
    ensures Ordered(old(m.operations)) && m.View() == Simplified(old(m.View()))
    ensures changed == !ReplacesNothing(Vector(old(m.operations), |old(m.operations)|))
  {
    hide Replaced, Sound, Typed, TypedState, TypedProperty, Rule, FirstBoolean, IsBooleanConstant, ReplacesNothing;
    var ops := m.operations;
    TypedIsOrdered(ops);
    var replacement: seq<NodeId> := [0];
    for id := 1 to |ops| + 1
      invariant m.View() == old(m.View())
      invariant replacement == Vector(ops, id - 1)
    {
      assert Dominated(ops, id);
      var operation := ops[id - 1];
      var target := id;
      if |operation.operands| == 2 {
        var left := Resolve(operation.operands[0], replacement);
        var right := Resolve(operation.operands[1], replacement);
        if operation.opcode.Arith? {
          match Rule(operation.opcode.arithmetic, ops[left - 1], ops[right - 1])
          case Neither =>
          case Left => target := left;
          case Right => target := right;
        } else if operation.opcode.Compare? && (operation.opcode.comparison.Eq? || operation.opcode.comparison.Neq?) && left == right {
          var bits := ComparisonBits(operation.opcode.comparison);
          target := FindBoolean(ops, id, bits);
        }
      }
      replacement := replacement + [target];
    }
    VectorSound(ops, |ops|);
    var outcome;
    changed, outcome := ApplyReplacements(m, replacement);
  }

  // ----- digits and values -----

  lemma {:induction false} OnesValue(bits: string)
    requires forall i :: 0 <= i < |bits| ==> bits[i] == '1'
    ensures ValueOf(bits) == Pow2(|bits|) - 1
  {
    if bits != "" {
      OnesValue(bits[..|bits| - 1]);
    }
  }

  lemma {:induction false} ZerosValue(bits: string)
    requires forall i :: 0 <= i < |bits| ==> bits[i] == '0'
    ensures ValueOf(bits) == 0
  {
    if bits != "" {
      ZerosValue(bits[..|bits| - 1]);
    }
  }

  lemma {:induction false} ValueZero(bits: string)
    requires ValidBits(bits, |bits|) && ValueOf(bits) == 0
    ensures forall i :: 0 <= i < |bits| ==> bits[i] == '0'
  {
    if bits != "" {
      ValueZero(bits[..|bits| - 1]);
    }
  }

  lemma {:induction false} ValueOnes(bits: string)
    requires ValidBits(bits, |bits|) && ValueOf(bits) == Pow2(|bits|) - 1
    ensures forall i :: 0 <= i < |bits| ==> bits[i] == '1'
  {
    if bits != "" {
      ValueOfBound(bits[..|bits| - 1]);
      ValueOnes(bits[..|bits| - 1]);
    }
  }

  /** The digit tests recognise exactly the constants with values 0, 1 and all ones. */
  lemma DigitTests(o: Operation)
    requires o.opcode.Const? && o.width > 0 && ValidBits(o.bits, o.width)
    ensures IsBits(o, '0') <==> ValueOf(o.bits) == 0
    ensures IsBits(o, '1') <==> ValueOf(o.bits) == Pow2(o.width) - 1
    ensures IsOne(o) <==> ValueOf(o.bits) == 1
  {
    var front := o.bits[..|o.bits| - 1];
    if IsBits(o, '0') {
      ZerosValue(o.bits);
    }
    if IsBits(o, '1') {
      OnesValue(o.bits);
    }
    if IsOne(o) {
      ZerosValue(front);
    }
    if ValueOf(o.bits) == 0 {
      ValueZero(o.bits);
    }
    if ValueOf(o.bits) == Pow2(o.width) - 1 {
      ValueOnes(o.bits);
    }
    if ValueOf(o.bits) == 1 {
      ValueZero(front);
    }
  }

  /** `value` leaves the other operand unchanged; subtraction only from the right. */
  predicate Neutral(operator: Arithmetic, width: nat, value: nat, onTheRight: bool) {
    match operator
    case And => value == Pow2(width) - 1
    case Or => value == 0
    case Xor => value == 0
    case Add => value == 0
    case Sub => onTheRight && value == 0
    case Mul => value == 1
    case _ => false
  }

  predicate Absorbing(operator: Arithmetic, value: nat) {
    (operator.And? || operator.Mul?) && value == 0
  }

  predicate Collapses(operator: Arithmetic, o: Operation, onTheRight: bool) {
    o.opcode.Const? &&
    (Neutral(operator, o.width, ValueOf(o.bits), onTheRight) || Absorbing(operator, ValueOf(o.bits)))
  }

  /** A rule fires exactly when an operand is a neutral or absorbing constant of the operator. */
  lemma RuleFires(operator: Arithmetic, left: Operation, right: Operation)
    requires left.opcode.Const? ==> left.width > 0 && ValidBits(left.bits, left.width)
    requires right.opcode.Const? ==> right.width > 0 && ValidBits(right.bits, right.width)
    ensures Rule(operator, left, right) != Neither <==>
            Collapses(operator, left, false) || Collapses(operator, right, true)
  {
    if left.opcode.Const? {
      DigitTests(left);
    }
    if right.opcode.Const? {
      DigitTests(right);
    }
  }

  lemma OperatorUnits(operator: Arithmetic, width: nat, a: nat, b: nat)
    requires width > 0 && a < Pow2(width) && b < Pow2(width)
    ensures Neutral(operator, width, b, true) ==> ArithmeticResult(operator, width, a, b) == a
    ensures Neutral(operator, width, a, false) ==> ArithmeticResult(operator, width, a, b) == b
    ensures Absorbing(operator, b) ==> ArithmeticResult(operator, width, a, b) == b
    ensures Absorbing(operator, a) ==> ArithmeticResult(operator, width, a, b) == a
  {
    match operator
    case And => BitwiseUnits(a, width); BitwiseUnits(b, width); BitwiseCommutes(a, b);
    case Or => BitwiseUnits(a, width); BitwiseUnits(b, width); BitwiseCommutes(a, b);
    case Xor => BitwiseUnits(a, width); BitwiseUnits(b, width); BitwiseCommutes(a, b);
    case Mul =>
      SmallModulo(a, Pow2(width));
      SmallModulo(b, Pow2(width));
      ProductUnits(a, b);
    case Add => SmallModulo(a, Pow2(width)); SmallModulo(b, Pow2(width));
    case Sub => SmallModulo(a, Pow2(width));
    case _ =>
  }

  lemma ProductUnits(a: nat, b: nat)
    ensures b == 1 ==> a * b == a
    ensures a == 1 ==> a * b == b
    ensures a == 0 || b == 0 ==> a * b == 0
  {
  }

  /** The operand a rule selects has the value of the operation. */
  lemma RuleSound(operator: Arithmetic, width: nat, left: Operation, right: Operation, a: nat, b: nat)
    requires left.width == right.width == width > 0 && a < Pow2(width) && b < Pow2(width)
    requires left.opcode.Const? ==> ValidBits(left.bits, width) && a == ValueOf(left.bits)
    requires right.opcode.Const? ==> ValidBits(right.bits, width) && b == ValueOf(right.bits)
    ensures Rule(operator, left, right) == Left ==> ArithmeticResult(operator, width, a, b) == a
    ensures Rule(operator, left, right) == Right ==> ArithmeticResult(operator, width, a, b) == b
  {
    if left.opcode.Const? {
      DigitTests(left);
    }
    if right.opcode.Const? {
      DigitTests(right);
    }
    OperatorUnits(operator, width, a, b);
  }

  // ----- soundness of the pass -----

  /** A comparison of an operation with itself has the value of the constant that stands for it. */
  lemma ComparisonTarget(ops: seq<Operation>, vector: seq<NodeId>, id: NodeId, env: Env)
    requires TypedOperations(ops) && Sound(ops, vector) && Descending(vector) && |vector| == id && InRange(ops, id)
    requires Dominated(ops, id) && ops[id - 1].opcode.Compare? && Target(ops, vector, id) != id
    ensures var r := Target(ops, vector, id); ops[r - 1].width == ops[id - 1].width && Eval(ops, id, env) == Eval(ops, r, env)
  {
    hide Sound, Replaces, Rule, ArithmeticResult, ReductionResult, SignedLess;
    var r := Target(ops, vector, id);
    assert TypedAt(ops, id) && TypedAt(ops, r);
    ResolvedOperand(ops, vector, id, 0);
    ResolvedOperand(ops, vector, id, 1);
    assert ValueOf("") == 0;
  }

  lemma ArithmeticReplaces(ops: seq<Operation>, vector: seq<NodeId>, id: NodeId)
    requires TypedOperations(ops) && Sound(ops, vector) && Descending(vector) && |vector| == id && InRange(ops, id)
    requires Dominated(ops, id) && ops[id - 1].opcode.Arith? && Target(ops, vector, id) != id
    ensures Replaces(ops, id, Target(ops, vector, id))
  {
    hide Sound, Eval, Rule;
    var r := Target(ops, vector, id);
    assert TypedAt(ops, id);
    ResolvedOperand(ops, vector, id, 0);
    ResolvedOperand(ops, vector, id, 1);
    forall env: Env
      ensures Eval(ops, id, env) == Eval(ops, r, env)
    {
      ArithmeticTarget(ops, vector, id, env);
    }
  }

  lemma ComparisonReplaces(ops: seq<Operation>, vector: seq<NodeId>, id: NodeId)
    requires TypedOperations(ops) && Sound(ops, vector) && Descending(vector) && |vector| == id && InRange(ops, id)
    requires Dominated(ops, id) && ops[id - 1].opcode.Compare? && Target(ops, vector, id) != id
    ensures Replaces(ops, id, Target(ops, vector, id))
  {
    hide Sound, Eval, Target, Typed;
    var r := Target(ops, vector, id);
    forall env: Env
      ensures ops[r - 1].width == ops[id - 1].width && Eval(ops, id, env) == Eval(ops, r, env)
    {
      ComparisonTarget(ops, vector, id, env);
    }
    ComparisonTarget(ops, vector, id, _ => 0);
  }

  lemma TargetReplaces(ops: seq<Operation>, vector: seq<NodeId>, id: NodeId)
    requires TypedOperations(ops) && Sound(ops, vector) && Descending(vector) && |vector| == id && InRange(ops, id)
    requires Dominated(ops, id)
    ensures Replaces(ops, id, Target(ops, vector, id))
  {
    hide Sound, Eval, Rule, Resolved, FirstBoolean, TypedOperations;
    if Target(ops, vector, id) != id {
      if ops[id - 1].opcode.Arith? {
        ArithmeticReplaces(ops, vector, id);
      } else {
        ComparisonReplaces(ops, vector, id);
      }
    }
  }

  lemma ArithmeticValue(ops: seq<Operation>, id: NodeId, env: Env)
    requires TypedOperations(ops) && InRange(ops, id) && ops[id - 1].opcode.Arith?
    ensures var o, v := ops[id - 1], OperandValues(ops, id, env);
            && |o.operands| == |v| == 2 && o.width > 0 && v[0] < Pow2(o.width) && v[1] < Pow2(o.width)
            && Dominated(ops, id) && OperandWidths(ops, id) == [o.width, o.width]
            && Eval(ops, id, env) == ArithmeticResult(o.opcode.arithmetic, o.width, v[0], v[1])
  {
    assert TypedAt(ops, id);
  }

  lemma ConstantValue(ops: seq<Operation>, id: NodeId, env: Env)
    requires TypedOperations(ops) && InRange(ops, id)
    ensures ops[id - 1].opcode.Const? ==>
              ValidBits(ops[id - 1].bits, ops[id - 1].width) && Eval(ops, id, env) == ValueOf(ops[id - 1].bits)
  {
    assert TypedAt(ops, id);
  }

  lemma ArithmeticTarget(ops: seq<Operation>, vector: seq<NodeId>, id: NodeId, env: Env)
    requires TypedOperations(ops) && Sound(ops, vector) && Descending(vector) && |vector| == id && InRange(ops, id)
    requires TypedAt(ops, id) && ops[id - 1].opcode.Arith?
    ensures var r := Target(ops, vector, id);
            1 <= r && Eval(ops, id, env) == Eval(ops, r, env)
  {
    hide ArithmeticResult, Rule, Sound, Replaces, Resolved, Typed, Eval, OperandValues, OperandWidths;
    var o := ops[id - 1];
    ArithmeticValue(ops, id, env);
    ResolvedOperand(ops, vector, id, 0);
    ResolvedOperand(ops, vector, id, 1);
    var left, right := Resolved(o.operands[0], vector), Resolved(o.operands[1], vector);
    ConstantValue(ops, left, env);
    ConstantValue(ops, right, env);
    RuleSound(o.opcode.arithmetic, o.width, ops[left - 1], ops[right - 1], Eval(ops, left, env), Eval(ops, right, env));
  }

  lemma {:induction false} VectorSound(ops: seq<Operation>, n: nat)
    requires TypedOperations(ops) && Ordered(ops) && n <= |ops|
    ensures Sound(ops, Vector(ops, n))
  {
    if n != 0 {
      VectorSound(ops, n - 1);
      assert Dominated(ops, n);
      TargetReplaces(ops, Vector(ops, n - 1), n);
      SoundExtends(ops, Vector(ops, n - 1), Target(ops, Vector(ops, n - 1), n));
    }
  }

  lemma SimplifiedRefines(sys: Sys)
    requires WellTyped(sys)
    ensures Ordered(sys.operations) && WellTyped(Simplified(sys))
    ensures exists back :: Refines(sys, Simplified(sys), back)
  {
    TypedIsOrdered(sys.operations);
    VectorSound(sys.operations, |sys.operations|);
    ReplacedRefines(sys, Vector(sys.operations, |sys.operations|));
  }
}
