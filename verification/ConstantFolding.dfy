/** Operations on constants become constants. */
module ConstantFolding {
  import opened Bits
  import opened TransitionSystem
  import opened Semantics
  import opened IntegerArithmetic
  import opened Refinement
  import opened InPlace
  import opened Roots

  // ----- constants to integers and back -----

  lemma OrDigit(value: nat, digit: nat)
    requires digit < 2
    ensures BitOr(2 * value, digit) == 2 * value + digit
  {
    OrIsSum(value, digit, 1);
    Doubling(value, Pow2(0));
    assert Pow2(0) == 1;
  }

  method Value(bits: string) returns (result: nat)
    ensures result == ValueOf(bits)
  {
    result := 0;
    for k := 0 to |bits|
      invariant result == ValueOf(bits[..k])
    {
      OrDigit(result, Digit(bits[k]));
      assert bits[..k + 1][..k] == bits[..k];
      result := BitOr(2 * result, Digit(bits[k]));
    }
    assert bits[..|bits|] == bits;
  }

  /** Exclusive-or of all bits, clearing one set bit at a time. */
  method ParityOf(value: nat) returns (parity: bool)
    ensures Flag(parity) == Parity(value)
  {
    var number := value;
    parity := false;
    while number != 0
      invariant (Flag(parity) + Parity(number)) % 2 == Parity(value)
      decreases number
    {
      ClearLowestBit(number);
      parity := !parity;
      number := BitAnd(number, number - 1);
    }
  }

  // ----- one operation -----

  predicate DividesByZero(o: Operation, v: seq<nat>) {
    o.opcode.Arith? && (o.opcode.arithmetic.Udiv? || o.opcode.arithmetic.Urem?) && |v| == 2 && v[1] == 0
  }

  method ComputeArithmetic(operator: Arithmetic, width: nat, left: nat, right: nat) returns (result: Option<int>)
    requires width > 0 && left < Pow2(width) && right < Pow2(width)
    ensures result.None? <==> (operator.Udiv? || operator.Urem?) && right == 0
    ensures result.Some? ==> result.value % Pow2(width) == ArithmeticResult(operator, width, left, right)
  {
    SmallModulo(ArithmeticResult(operator, width, left, right), Pow2(width));
    match operator
    case And => return Some(BitAnd(left, right));
    case Or => return Some(BitOr(left, right));
    case Xor => return Some(BitXor(left, right));
    case Add => return Some(left + right);
    case Sub => return Some(left - right);
    case Mul => return Some(left * right);
    case Udiv => if right == 0 { return None; } else { return Some(left / right); }
    case Urem => if right == 0 { return None; } else { return Some(left % right); }
    case Sll =>
      SaturatedShifts(left, right, width);
      return Some(left * Pow2(Saturated(right, width)));
    case Srl =>
      SaturatedShifts(left, right, width);
      return Some(left / Pow2(Saturated(right, width)));
    case Sra =>
      ArithmeticShift(left, right, width);
      return Some(SignedValue(left, width) / Pow2(Saturated(right, width)));
  }

  method ComputeComparison(operator: Comparison, width: nat, left: nat, right: nat) returns (result: bool)
    requires width > 0 && left < Pow2(width) && right < Pow2(width)
    ensures result == ComparisonResult(operator, width, left, right)
  {
    SignedComparison(left, right, width);
    SignedComparison(right, left, width);
    match operator
    case Eq => return left == right;
    case Neq => return left != right;
    case Ult => return left < right;
    case Ulte => return left <= right;
    case Ugt => return left > right;
    case Ugte => return left >= right;
    case Slt => return SignedValue(left, width) < SignedValue(right, width);
    case Slte => return SignedValue(left, width) <= SignedValue(right, width);
    case Sgt => return SignedValue(left, width) > SignedValue(right, width);
    case Sgte => return SignedValue(left, width) >= SignedValue(right, width);
  }

  method ComputeReduction(operator: Reduction, width: nat, value: nat) returns (result: nat)
    ensures result == ReductionResult(operator, width, value)
  {
    match operator
    case RedAnd => return Flag(value == Mask(width));
    case RedOr => return Flag(value != 0);
    case RedXor =>
      var parity := ParityOf(value);
      return Flag(parity);
  }

  predicate Resizes(opcode: Opcode) {
    opcode.Concat? || opcode.Slice? || opcode.Uext? || opcode.Sext?
  }

  method ComputeResized(o: Operation, w: seq<nat>, v: seq<nat>) returns (result: int)
    requires Typed(o, w) && InBounds(w, v) && Resizes(o.opcode)
    ensures result % Pow2(o.width) == Apply(o, w, v)
  {
    hide BitOr, SignedValue, ArithmeticResult, ComparisonResult, ReductionResult, ValueOf, ValidBits;
    match o.opcode
    case Concat =>
      OrIsSum(v[0], v[1], w[1]);
      SmallModulo(Apply(o, w, v), Pow2(o.width));
      return BitOr(v[0] * Pow2(w[1]), v[1]);
    case Slice =>
      return v[0] / Pow2(o.immediates[1]);
    case Uext =>
      SmallModulo(Apply(o, w, v), Pow2(o.width));
      return v[0];
    case Sext =>
      SignExtension(v[0], w[0], o.width);
      return SignedValue(v[0], w[0]);
  }

  /** The integer that folding computes; modulo the width it is the operator's result. */
  method Compute(o: Operation, w: seq<nat>, v: seq<nat>) returns (result: Option<int>)
    requires Typed(o, w) && InBounds(w, v) && !IsLeaf(o.opcode) && !o.opcode.Const?
    ensures result.None? <==> DividesByZero(o, v)
    ensures result.Some? ==> result.value % Pow2(o.width) == Apply(o, w, v)
  {
    if Resizes(o.opcode) {
      var resized := ComputeResized(o, w, v);
      return Some(resized);
    }
    SmallModulo(Apply(o, w, v), Pow2(o.width));
    match o.opcode
    case Not =>
      Complement(v[0], Pow2(o.width));
      var inverted: int := -1 - (v[0] as int);
      return Some(inverted);
    case Reduce(reduction) =>
      var reduced := ComputeReduction(reduction, w[0], v[0]);
      return Some(reduced);
    case Arith(arithmetic) =>
      result := ComputeArithmetic(arithmetic, o.width, v[0], v[1]);
    case Compare(comparison) =>
      var holds := ComputeComparison(comparison, w[0], v[0], v[1]);
      return Some(Flag(holds));
    case Ite => return Some(v[if v[0] != 0 then 1 else 2]);
  }

  // ----- the pass -----

  function Constant(width: nat, bits: string): Operation {
    Operation(Const, width, [], [], "", bits)
  }

  predicate ConstantOperands(ops: seq<Operation>, id: NodeId)
    requires InRange(ops, id) && Dominated(ops, id)
  {
    var operands := ops[id - 1].operands;
    forall k :: 0 <= k < |operands| ==> ops[operands[k] - 1].opcode.Const?
  }

  function ConstantValues(ops: seq<Operation>, id: NodeId): (v: seq<nat>)
    requires InRange(ops, id) && Dominated(ops, id)
    ensures |v| == |ops[id - 1].operands|
  {
    var operands := ops[id - 1].operands;
    seq(|operands|, k requires 0 <= k < |operands| => ValueOf(ops[operands[k] - 1].bits))
  }

  predicate Foldable(ops: seq<Operation>, id: NodeId)
    requires InRange(ops, id) && Dominated(ops, id)
  {
    !IsLeaf(ops[id - 1].opcode) && !ops[id - 1].opcode.Const? && ConstantOperands(ops, id) &&
    !DividesByZero(ops[id - 1], ConstantValues(ops, id))
  }

  lemma ConstantValuesBound(ops: seq<Operation>, id: NodeId)
    requires TypedOperations(ops) && InRange(ops, id) && Dominated(ops, id) && ConstantOperands(ops, id)
    ensures TypedAt(ops, id) && InBounds(OperandWidths(ops, id), ConstantValues(ops, id))
  {
    assert TypedAt(ops, id);
    var operands := ops[id - 1].operands;
    forall k | 0 <= k < |operands|
      ensures ConstantValues(ops, id)[k] < Pow2(OperandWidths(ops, id)[k])
    {
      assert TypedAt(ops, operands[k]);
      ValueOfBound(ops[operands[k] - 1].bits);
    }
  }

  /** What operation `id` becomes: the constant with its value, if all operands are constants. */
  function Folded(ops: seq<Operation>, id: NodeId): Operation
    requires TypedOperations(ops) && InRange(ops, id) && Dominated(ops, id)
  {
    var o := ops[id - 1];
    if Foldable(ops, id) then
      ConstantValuesBound(ops, id);
      Constant(o.width, BitsOf(Apply(o, OperandWidths(ops, id), ConstantValues(ops, id)), o.width))
    else o
  }

  method FoldOperation(ops: seq<Operation>, id: NodeId) returns (folded: bool, operation: Operation)
    requires TypedOperations(ops) && InRange(ops, id) && Dominated(ops, id)
    ensures folded == Foldable(ops, id) && operation == Folded(ops, id)
  {
    operation := ops[id - 1];
    if IsLeaf(operation.opcode) || operation.opcode.Const? {
      return false, operation;
    }
    var constant := true;
    var values: seq<nat>, widths: seq<nat> := [], [];
    for k := 0 to |operation.operands|
      invariant constant == forall j :: 0 <= j < k ==> ops[operation.operands[j] - 1].opcode.Const?
      invariant values == ConstantValues(ops, id)[..k] && widths == OperandWidths(ops, id)[..k]
    {
      var source := ops[operation.operands[k] - 1];
      constant := constant && source.opcode.Const?;
      var value := Value(source.bits);
      values := values + [value];
      widths := widths + [source.width];
    }
    assert values == ConstantValues(ops, id) && widths == OperandWidths(ops, id);
    if !constant {
      return false, operation;
    }
    ConstantValuesBound(ops, id);
    var result := Compute(operation, widths, values);
    if result.None? {
      return false, operation;
    }
    var bits := BitString(result.value, operation.width);
    return true, Constant(operation.width, bits);
  }

  /** The operations after folding the first `n`, in order. */
  function FoldedUpTo(ops: seq<Operation>, n: nat): (r: seq<Operation>)
    requires TypedOperations(ops) && n <= |ops|
    ensures TypedOperations(r) && SameShape(ops, r)
    ensures forall k :: n <= k < |ops| ==> r[k] == ops[k]
  {
    if n == 0 then ops
    else
      var before := FoldedUpTo(ops, n - 1);
      TypedIsOrdered(before);
      FoldTyped(before, n);
      before[n - 1 := Folded(before, n)]
  }

  lemma FoldTyped(ops: seq<Operation>, id: NodeId)
    requires TypedOperations(ops) && Ordered(ops) && InRange(ops, id)
    ensures Dominated(ops, id)
    ensures var r := ops[id - 1 := Folded(ops, id)];
            TypedOperations(r) && SameShape(ops, r)
  {
    hide Apply, ConstantValues, DividesByZero, ConstantOperands;
    assert Dominated(ops, id);
    var r := ops[id - 1 := Folded(ops, id)];
    forall i: NodeId | InRange(r, i)
      ensures TypedAt(r, i)
    {
      assert TypedAt(ops, i);
      if i != id {
        assert OperandWidths(r, i) == OperandWidths(ops, i);
      } else if Foldable(ops, id) {
        ConstantValuesBound(ops, id);
      } else {
        assert OperandWidths(r, i) == OperandWidths(ops, i);
      }
    }
  }

  /** The folded operation has the value of the original. */
  lemma FoldedValue(ops: seq<Operation>, id: NodeId, env: Env)
    requires TypedOperations(ops) && InRange(ops, id) && Dominated(ops, id) && Foldable(ops, id)
    ensures ValueOf(Folded(ops, id).bits) == Eval(ops, id, env)
  {
    hide Apply, Typed, ValueOf, BitsOf, OperandValues;
    var o := ops[id - 1];
    ConstantValuesBound(ops, id);
    ConstantOperandsRead(ops, id, env);
    ValueOfBitsOf(Eval(ops, id, env), o.width);
  }

  lemma ConstantOperandsRead(ops: seq<Operation>, id: NodeId, env: Env)
    requires TypedOperations(ops) && InRange(ops, id) && Dominated(ops, id) && Foldable(ops, id)
    ensures OperandValues(ops, id, env) == ConstantValues(ops, id)
  {
    hide Apply, Typed, ValueOf;
    var operands := ops[id - 1].operands;
    assert TypedAt(ops, id);
    forall k | 0 <= k < |operands|
      ensures OperandValues(ops, id, env)[k] == ConstantValues(ops, id)[k]
    {
      ConstantEval(ops, operands[k], env);
    }
  }

  lemma ConstantEval(ops: seq<Operation>, id: NodeId, env: Env)
    requires TypedOperations(ops) && InRange(ops, id) && ops[id - 1].opcode.Const?
    ensures Eval(ops, id, env) == ValueOf(ops[id - 1].bits)
  {
    assert TypedAt(ops, id);
  }

  /** Folding one operation leaves the value of every operation unchanged. */
  lemma {:induction false} FoldStep(ops: seq<Operation>, id: NodeId, i: NodeId, env: Env)
    requires TypedOperations(ops) && Ordered(ops) && InRange(ops, id) && InRange(ops, i)
    ensures Dominated(ops, id)
    ensures var r := ops[id - 1 := Folded(ops, id)];
            TypedOperations(r) && Eval(r, i, env) == Eval(ops, i, env)
    decreases i
  {
    hide Apply, Typed, ConstantValues, DividesByZero;
    FoldTyped(ops, id);
    var r := ops[id - 1 := Folded(ops, id)];
    if i == id && Foldable(ops, id) {
      FoldedValue(ops, id, env);
      ConstantEval(r, id, env);
    } else if !IsLeaf(ops[i - 1].opcode) {
      assert TypedAt(ops, i) && TypedAt(r, i);
      var operands := ops[i - 1].operands;
      forall k | 0 <= k < |operands|
        ensures Eval(r, operands[k], env) == Eval(ops, operands[k], env)
      {
        FoldStep(ops, id, operands[k], env);
      }
      assert OperandWidths(r, i) == OperandWidths(ops, i);
      assert OperandValues(r, i, env) == OperandValues(ops, i, env);
    }
  }

  lemma {:induction false} FoldedSame(ops: seq<Operation>, n: nat, i: NodeId)
    requires TypedOperations(ops) && n <= |ops| && InRange(ops, i)
    ensures SameAt(ops, FoldedUpTo(ops, n), i)
  {
    hide Folded, Eval, TypedAt;
    if n != 0 {
      var before := FoldedUpTo(ops, n - 1);
      FoldedSame(ops, n - 1, i);
      TypedIsOrdered(before);
      forall env: Env
        ensures Eval(FoldedUpTo(ops, n), i, env) == Eval(ops, i, env)
      {
        FoldStep(before, n, i, env);
      }
    }
  }

  function FoldedSys(sys: Sys): Sys
    requires WellTyped(sys)
  {
    sys.(operations := FoldedUpTo(sys.operations, |sys.operations|))
  }

  method FoldConstants(m: Module) returns (changed: bool)
    requires WellTyped(m.View())
    modifies m
    ensures m.View() == FoldedSys(old(m.View()))
    ensures changed == (m.View() != old(m.View()))
  {
    hide TypedAt, TypedState, TypedProperty, ConstantOperands, ConstantValues, DividesByZero, Apply, Typed, OperandWidths, BitsOf;
    ghost var before := m.View();
    ghost var ops := m.operations;
    changed := false;
    for id := 1 to |m.operations| + 1
      invariant |m.operations| == |ops|
      invariant m.View() == before.(operations := FoldedUpTo(ops, id - 1))
      invariant changed == (m.operations != ops)
    {
      TypedIsOrdered(m.operations);
      assert Dominated(m.operations, id);
      var folded, operation := FoldOperation(m.operations, id);
      if folded {
        assert operation != ops[id - 1];
        m.operations := m.operations[id - 1 := operation];
        changed := true;
      }
      assert m.operations == FoldedUpTo(ops, id);
    }
  }

  lemma FoldedSysRefines(sys: Sys)
    requires WellTyped(sys)
    ensures WellTyped(FoldedSys(sys))
    ensures exists back :: Refines(sys, FoldedSys(sys), back)
  {
    var ops' := FoldedUpTo(sys.operations, |sys.operations|);
    forall id: NodeId | Root(sys, id) && id > 0
      ensures SameAt(sys.operations, ops', id)
    {
      RootInRange(sys, id);
      FoldedSame(sys.operations, |sys.operations|, id);
    }
    InPlaceRefines(sys, ops');
  }
}
