/** The meaning of a transition system: values of operations, and runs. */
module Semantics {
  import opened Bits
  import opened TransitionSystem

  // ----- operators, after the BTOR2 format (Niemetz et al., CAV 2018) and SMT-LIB QF_BV -----

  function Flag(b: bool): nat {
    if b then 1 else 0
  }

  /** Signed comparison by sign bits, as SMT-LIB defines `bvslt`. */
  predicate SignedLess(a: nat, b: nat, width: nat)
    requires width > 0
  {
    var sa, sb := Msb(a, width), Msb(b, width);
    sa > sb || (sa == sb && a < b)
  }

  predicate InBounds(w: seq<nat>, v: seq<nat>) {
    |v| == |w| && forall k :: 0 <= k < |w| ==> v[k] < Pow2(w[k])
  }

  lemma ConcatBound(high: nat, low: nat, a: nat, b: nat)
    requires high < Pow2(a) && low < Pow2(b)
    ensures high * Pow2(b) + low < Pow2(a + b)
  {
    Pow2Add(a, b);
    MulBound(Pow2(b), high, Pow2(a));
    assert Pow2(b) * high == high * Pow2(b) && Pow2(b) * Pow2(a) == Pow2(a) * Pow2(b);
  }

  /** Shift right by any amount, filling with zeros. */
  function ShiftRight(a: nat, amount: nat): (r: nat)
    ensures r <= a
  {
    QuotientShrinks(a, Pow2(amount));
    a / Pow2(amount)
  }

  function ArithmeticResult(operator: Arithmetic, width: nat, a: nat, b: nat): (r: nat)
    requires width > 0 && a < Pow2(width) && b < Pow2(width)
    ensures r < Pow2(width)
  {
    var p := Pow2(width);
    match operator
    case And => BitwiseBounds(a, b, width); BitAnd(a, b)
    case Or => BitwiseBounds(a, b, width); BitOr(a, b)
    case Xor => BitwiseBounds(a, b, width); BitXor(a, b)
    case Add => (a + b) % p
    case Sub => (a - b) % p
    case Mul => (a * b) % p
    case Udiv => if b == 0 then p - 1 else QuotientShrinks(a, b); a / b
    case Urem => if b == 0 then a else a % b
    case Sll => (a * Pow2(b)) % p
    case Srl => ShiftRight(a, b)
    case Sra => if Msb(a, width) == 0 then ShiftRight(a, b) else p - 1 - ShiftRight(p - 1 - a, b)
  }

  predicate ComparisonResult(operator: Comparison, width: nat, a: nat, b: nat)
    requires width > 0
  {
    match operator
    case Eq => a == b
    case Neq => a != b
    case Ult => a < b
    case Ulte => a <= b
    case Ugt => a > b
    case Ugte => a >= b
    case Slt => SignedLess(a, b, width)
    case Slte => !SignedLess(b, a, width)
    case Sgt => SignedLess(b, a, width)
    case Sgte => !SignedLess(a, b, width)
  }

  function ReductionResult(operator: Reduction, width: nat, a: nat): (r: nat)
    ensures r < 2
  {
    match operator
    case RedAnd => Flag(a == Pow2(width) - 1)
    case RedOr => Flag(a != 0)
    case RedXor => Parity(a)
  }

  /** Result of an operator on operand values `v` of widths `w`; it fits the operation's width. */
  function Apply(o: Operation, w: seq<nat>, v: seq<nat>): (r: nat)
    requires Typed(o, w) && InBounds(w, v) && !IsLeaf(o.opcode)
    ensures r < Pow2(o.width)
  {
    var p := Pow2(o.width);
    assert o.width == 1 ==> p == 2 by {
      assert Pow2(0) == 1;
    }
    match o.opcode
    case Const => ValueOfBound(o.bits); ValueOf(o.bits)
    case Not => p - 1 - v[0]
    case Reduce(reduction) => ReductionResult(reduction, w[0], v[0])
    case Arith(arithmetic) => ArithmeticResult(arithmetic, o.width, v[0], v[1])
    case Compare(comparison) => Flag(ComparisonResult(comparison, w[0], v[0], v[1]))
    case Concat => ConcatBound(v[0], v[1], w[0], w[1]); v[0] * Pow2(w[1]) + v[1]
    case Ite => if v[0] != 0 then v[1] else v[2]
    case Slice => v[0] / Pow2(o.immediates[1]) % p
    case Uext => Pow2Monotonic(w[0], o.width); v[0]
    case Sext => Pow2Monotonic(w[0], o.width); if Msb(v[0], w[0]) == 0 then v[0] else v[0] + (p - Pow2(w[0]))
  }

  // ----- evaluation -----

  /** Values of the inputs and states at one step. */
  type Env = NodeId -> nat

  /** Value of operation `id`; an input or state is read modulo its width. */
  ghost function Eval(ops: seq<Operation>, id: NodeId, env: Env): (r: nat)
    requires TypedOperations(ops) && InRange(ops, id)
    ensures r < Pow2(ops[id - 1].width)
    decreases id, 1
  {
    var o := ops[id - 1];
    assert TypedAt(ops, id);
    if IsLeaf(o.opcode) then env(id) % Pow2(o.width)
    else
      Apply(o, OperandWidths(ops, id), OperandValues(ops, id, env))
  }

  ghost function OperandValues(ops: seq<Operation>, id: NodeId, env: Env): (v: seq<nat>)
    requires TypedOperations(ops) && InRange(ops, id)
    ensures TypedAt(ops, id) && InBounds(OperandWidths(ops, id), v)
    decreases id, 0
  {
    assert TypedAt(ops, id);
    var operands := ops[id - 1].operands;
    seq(|operands|, k requires 0 <= k < |operands| => Eval(ops, operands[k], env))
  }

  /** Evaluation looks only at the operations up to its own. */
  lemma {:induction false} EvalPrefix(ops: seq<Operation>, more: seq<Operation>, id: NodeId, env: Env)
    requires TypedOperations(ops) && TypedOperations(ops + more) && InRange(ops, id)
    ensures Eval(ops + more, id, env) == Eval(ops, id, env)
  {
    var o := ops[id - 1];
    if !IsLeaf(o.opcode) {
      assert TypedAt(ops, id) && TypedAt(ops + more, id);
      forall k | 0 <= k < |o.operands|
        ensures Eval(ops + more, o.operands[k], env) == Eval(ops, o.operands[k], env)
      {
        EvalPrefix(ops, more, o.operands[k], env);
      }
      assert OperandWidths(ops, id) == OperandWidths(ops + more, id);
      assert OperandValues(ops, id, env) == OperandValues(ops + more, id, env);
    }
  }
}
