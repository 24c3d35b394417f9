/** Modules that no pass changes, on the text of their operations. */
module NormalForm {
  import opened Bits
  import opened TransitionSystem
  import opened Semantics
  import opened Refinement
  import opened PassSupport
  import opened Rebuilding
  import opened Replacement
  import opened Roots
  import Algebra = AlgebraicSimplification
  import Branch = BranchSimplification
  import Peephole = PeepholeOptimization
  import Copies = CopyPropagation
  import Cse = CommonSubexpressionElimination
  import Dead = DeadCodeElimination
  import Folding = ConstantFolding
  import Strength = StrengthReduction

  // ----- what each pass looks for -----

  /** The operation that operand `k` of operation `id` names. */
  function Argument(ops: seq<Operation>, id: NodeId, k: nat): Operation
    requires InRange(ops, id) && Dominated(ops, id) && k < |ops[id - 1].operands|
  {
    ops[ops[id - 1].operands[k] - 1]
  }

  predicate IsValue(o: Operation, value: nat) {
    o.opcode == Const && ValueOf(o.bits) == value
  }

  /** No operand is neutral or absorbing, and nothing that has a constant is compared with itself. */
  predicate AlgebraDone(ops: seq<Operation>, id: NodeId)
    requires InRange(ops, id) && TypedAt(ops, id)
  {
    var o := ops[id - 1];
    && (o.opcode == Arith(And) ==>
          forall k :: 0 <= k < 2 ==> !IsValue(Argument(ops, id, k), 0) && !IsValue(Argument(ops, id, k), Pow2(o.width) - 1))
    && (o.opcode == Arith(Or) || o.opcode == Arith(Xor) || o.opcode == Arith(Add) ==>
          forall k :: 0 <= k < 2 ==> !IsValue(Argument(ops, id, k), 0))
    && (o.opcode == Arith(Sub) ==> !IsValue(Argument(ops, id, 1), 0))
    && (o.opcode == Arith(Mul) ==>
          forall k :: 0 <= k < 2 ==> !IsValue(Argument(ops, id, k), 0) && !IsValue(Argument(ops, id, k), 1))
    && (o.opcode == Compare(Eq) && o.operands[0] == o.operands[1] ==>
          forall j :: 0 <= j < id - 1 ==> !(ops[j].opcode == Const && ops[j].width == 1 && ops[j].bits == "1"))
    && (o.opcode == Compare(Neq) && o.operands[0] == o.operands[1] ==>
          forall j :: 0 <= j < id - 1 ==> !(ops[j].opcode == Const && ops[j].width == 1 && ops[j].bits == "0"))
  }

  /** No conditional has a constant condition or equal branches. */
  predicate BranchDone(ops: seq<Operation>, id: NodeId)
    requires InRange(ops, id) && TypedAt(ops, id)
  {
    var o := ops[id - 1];
    o.opcode == Ite ==> o.operands[1] != o.operands[2] && Argument(ops, id, 0).opcode != Const
  }

  /** No negation of a negation. */
  predicate PeepholeDone(ops: seq<Operation>, id: NodeId)
    requires InRange(ops, id) && TypedAt(ops, id)
  {
    ops[id - 1].opcode == Not ==> Argument(ops, id, 0).opcode != Not
  }

  /** No conditional with equal branches, slice of all bits, or extension by nothing. */
  predicate CopiesDone(ops: seq<Operation>, id: NodeId)
    requires InRange(ops, id) && TypedAt(ops, id)
  {
    var o := ops[id - 1];
    && (o.opcode == Ite ==> o.operands[1] != o.operands[2])
    && (o.opcode == Slice ==> !(o.immediates[1] == 0 && o.immediates[0] + 1 == Argument(ops, id, 0).width))
    && (o.opcode == Uext || o.opcode == Sext ==> o.immediates[0] != 0)
  }

  /** No operation on constants alone, other than a division by zero. */
  predicate FoldingDone(ops: seq<Operation>, id: NodeId)
    requires InRange(ops, id) && TypedAt(ops, id)
  {
    var o := ops[id - 1];
    o.opcode != Input && o.opcode != StateVar && o.opcode != Const
    && (forall k :: 0 <= k < |o.operands| ==> Argument(ops, id, k).opcode == Const) ==>
      (o.opcode == Arith(Udiv) || o.opcode == Arith(Urem)) && ValueOf(Argument(ops, id, 1).bits) == 0
  }

  /** The digit at `k` is a one, and no other is. */
  predicate OneAt(bits: string, k: nat) {
    k < |bits| && bits[k] == '1' && forall j :: 0 <= j < |bits| && bits[j] == '1' ==> j == k
  }

  predicate SingleOne(bits: string) {
    exists k: nat :: k < |bits| && OneAt(bits, k)
  }

  /** Operand `k` of operation `id` is the only reference to its operation. */
  ghost predicate OnlyReference(sys: Sys, id: NodeId, k: nat)
    requires InRange(sys.operations, id) && k < |sys.operations[id - 1].operands|
  {
    var c := sys.operations[id - 1].operands[k];
    && (forall i, j :: 0 <= i < |sys.operations| && 0 <= j < |sys.operations[i].operands| && (i != id - 1 || j != k) ==>
          sys.operations[i].operands[j] != c)
    && (forall i :: 0 <= i < |sys.states| ==> sys.states[i].initial != Some(c) && sys.states[i].next != Some(c))
    && (forall i :: 0 <= i < |sys.outputs| ==> sys.outputs[i].value != c)
    && (forall i :: 0 <= i < |sys.properties| ==> sys.properties[i].condition != c && c !in sys.properties[i].conditions)
  }

  /** No multiplication or division by a constant with a single one that nothing else refers to. */
  ghost predicate StrengthDone(sys: Sys, id: NodeId)
    requires InRange(sys.operations, id) && TypedAt(sys.operations, id)
  {
    var ops, o := sys.operations, sys.operations[id - 1];
    && (o.opcode == Arith(Mul) && Argument(ops, id, 0).opcode == Const ==>
          !(SingleOne(Argument(ops, id, 0).bits) && OnlyReference(sys, id, 0)))
    && (o.opcode == Arith(Udiv) || (o.opcode == Arith(Mul) && Argument(ops, id, 0).opcode != Const) ==>
          !(Argument(ops, id, 1).opcode == Const && SingleOne(Argument(ops, id, 1).bits) && OnlyReference(sys, id, 1)))
  }

  /** The two operations always have the same value for the same reason: the same operator on the same operands, in some order. */
  predicate Twins(a: Operation, b: Operation) {
    && a.opcode != Input && a.opcode != StateVar
    && a.opcode == b.opcode && a.width == b.width && a.immediates == b.immediates && a.bits == b.bits
    && (a.operands == b.operands
        || ((a.opcode == Arith(And) || a.opcode == Arith(Or) || a.opcode == Arith(Xor) || a.opcode == Arith(Add)
             || a.opcode == Arith(Mul) || a.opcode == Compare(Eq) || a.opcode == Compare(Neq))
            && |a.operands| == |b.operands| == 2 && a.operands[0] == b.operands[1] && a.operands[1] == b.operands[0]))
  }

  predicate NoTwins(ops: seq<Operation>) {
    forall i, j :: 0 <= i < j < |ops| ==> !Twins(ops[i], ops[j])
  }

  /** What is left for no pass to do. */
  ghost predicate IsNormal(sys: Sys)
    requires WellTyped(sys)
  {
    && NoTwins(sys.operations)
    && forall id: NodeId :: InRange(sys.operations, id) ==> TypedAt(sys.operations, id) && NormalAt(sys, id)
  }

  ghost predicate NormalAt(sys: Sys, id: NodeId)
    requires InRange(sys.operations, id) && TypedAt(sys.operations, id)
  {
    && AlgebraDone(sys.operations, id) && BranchDone(sys.operations, id) && PeepholeDone(sys.operations, id)
    && CopiesDone(sys.operations, id) && FoldingDone(sys.operations, id) && StrengthDone(sys, id)
  }

  // ----- vectors that replace nothing -----

  lemma {:induction false} ResolvedSelf(id: NodeId, vector: seq<NodeId>)
    requires Descending(vector) && ReplacesNothing(vector) && id < |vector|
    ensures Resolved(id, vector) == id
  {
  }

  lemma AppendsNothing(vector: seq<NodeId>, r: NodeId)
    ensures ReplacesNothing(vector + [r]) <==> ReplacesNothing(vector) && r == |vector|
  {
    var longer := vector + [r];
    assert forall i :: 0 <= i < |vector| ==> longer[i] == vector[i];
    assert longer[|vector|] == r;
  }

  lemma ReplacedFixes(sys: Sys, vector: seq<NodeId>)
    requires |vector| == |sys.operations| + 1 && Descending(vector)
    ensures Replaced(sys, vector) == sys <==> ReplacesNothing(vector)
  {
    if !ReplacesNothing(vector) {
      ReplacedShrinks(sys, vector);
    }
  }

  // ----- each pass leaves alone exactly what it has done -----

  lemma PeepholeStays(ops: seq<Operation>, vector: seq<NodeId>, id: NodeId)
    requires TypedOperations(ops) && Ordered(ops) && InRange(ops, id) && |vector| == id && Descending(vector) && ReplacesNothing(vector)
    ensures TypedAt(ops, id) && (Peephole.Target(ops, vector, id) == id <==> PeepholeDone(ops, id))
  {
    assert TypedAt(ops, id);
    if ops[id - 1].opcode.Not? {
      var inner := ops[id - 1].operands[0];
      ResolvedSelf(inner, vector);
      if ops[inner - 1].opcode.Not? {
        assert TypedAt(ops, inner);
        ResolvedSelf(ops[inner - 1].operands[0], vector);
      }
    }
  }

  lemma {:induction false} PeepholeVector(ops: seq<Operation>, n: nat)
    requires TypedOperations(ops) && Ordered(ops) && n <= |ops|
    ensures ReplacesNothing(Peephole.Vector(ops, n)) <==> forall id: NodeId :: 1 <= id <= n ==> TypedAt(ops, id) && PeepholeDone(ops, id)
  {
    hide PeepholeDone, TypedAt;
    if n != 0 {
      PeepholeVector(ops, n - 1);
      var before := Peephole.Vector(ops, n - 1);
      AppendsNothing(before, Peephole.Target(ops, before, n));
      if ReplacesNothing(before) {
        PeepholeStays(ops, before, n);
      }
    }
  }

  lemma BranchStays(ops: seq<Operation>, vector: seq<NodeId>, id: NodeId)
    requires TypedOperations(ops) && Ordered(ops) && InRange(ops, id) && |vector| == id && Descending(vector) && ReplacesNothing(vector)
    ensures TypedAt(ops, id) && (Branch.Target(ops, vector, id) == id <==> BranchDone(ops, id))
  {
    assert TypedAt(ops, id);
    if ops[id - 1].opcode.Ite? {
      ResolvedSelf(ops[id - 1].operands[0], vector);
      ResolvedSelf(ops[id - 1].operands[1], vector);
      ResolvedSelf(ops[id - 1].operands[2], vector);
    }
  }

  lemma {:induction false} BranchVector(ops: seq<Operation>, n: nat)
    requires TypedOperations(ops) && Ordered(ops) && n <= |ops|
    ensures ReplacesNothing(Branch.Vector(ops, n)) <==> forall id: NodeId :: 1 <= id <= n ==> TypedAt(ops, id) && BranchDone(ops, id)
  {
    hide BranchDone, TypedAt;
    if n != 0 {
      BranchVector(ops, n - 1);
      var before := Branch.Vector(ops, n - 1);
      AppendsNothing(before, Branch.Target(ops, before, n));
      if ReplacesNothing(before) {
        BranchStays(ops, before, n);
      }
    }
  }

  lemma CopiesStays(ops: seq<Operation>, vector: seq<NodeId>, id: NodeId)
    requires TypedOperations(ops) && Ordered(ops) && InRange(ops, id) && |vector| == id && Descending(vector) && ReplacesNothing(vector)
    ensures TypedAt(ops, id) && (Copies.Target(ops, vector, id) == id <==> CopiesDone(ops, id))
  {
    assert TypedAt(ops, id);
    if ops[id - 1].opcode.Ite? {
      ResolvedSelf(ops[id - 1].operands[1], vector);
    } else if |ops[id - 1].operands| == 1 {
      ResolvedSelf(ops[id - 1].operands[0], vector);
    }
  }

  lemma {:induction false} CopiesVector(ops: seq<Operation>, n: nat)
    requires TypedOperations(ops) && Ordered(ops) && n <= |ops|
    ensures ReplacesNothing(Copies.Vector(ops, n)) <==> forall id: NodeId :: 1 <= id <= n ==> TypedAt(ops, id) && CopiesDone(ops, id)
  {
    hide CopiesDone, TypedAt;
    if n != 0 {
      CopiesVector(ops, n - 1);
      var before := Copies.Vector(ops, n - 1);
      AppendsNothing(before, Copies.Target(ops, before, n));
      if ReplacesNothing(before) {
        CopiesStays(ops, before, n);
      }
    }
  }

  /** The constants that the rules look for, by value. */
  lemma RuleRests(o: Operation, left: Operation, right: Operation)
    requires left.width == right.width == o.width > 0 && o.opcode.Arith?
    requires left.opcode.Const? ==> ValidBits(left.bits, left.width)
    requires right.opcode.Const? ==> ValidBits(right.bits, right.width)
    ensures Algebra.Rule(o.opcode.arithmetic, left, right) == Algebra.Neither <==>
            && (o.opcode == Arith(And) ==> !IsValue(left, 0) && !IsValue(right, 0)
                                           && !IsValue(left, Pow2(o.width) - 1) && !IsValue(right, Pow2(o.width) - 1))
            && (o.opcode == Arith(Or) || o.opcode == Arith(Xor) || o.opcode == Arith(Add) ==> !IsValue(left, 0) && !IsValue(right, 0))
            && (o.opcode == Arith(Sub) ==> !IsValue(right, 0))
            && (o.opcode == Arith(Mul) ==> !IsValue(left, 0) && !IsValue(right, 0) && !IsValue(left, 1) && !IsValue(right, 1))
  {
    hide ValueOf, Algebra.IsBits, Algebra.IsOne, Pow2;
    ConstantTests(left);
    ConstantTests(right);
  }

  lemma ConstantTests(o: Operation)
    requires o.opcode.Const? ==> o.width > 0 && ValidBits(o.bits, o.width)
    ensures Algebra.IsBits(o, '0') <==> IsValue(o, 0)
    ensures Algebra.IsBits(o, '1') <==> IsValue(o, Pow2(o.width) - 1)
    ensures Algebra.IsOne(o) <==> IsValue(o, 1)
  {
    if o.opcode.Const? {
      Algebra.DigitTests(o);
    }
  }

  lemma AlgebraStays(ops: seq<Operation>, vector: seq<NodeId>, id: NodeId)
    requires TypedOperations(ops) && InRange(ops, id) && |vector| == id && Descending(vector) && ReplacesNothing(vector)
    ensures TypedAt(ops, id) && (Algebra.Target(ops, vector, id) == id <==> AlgebraDone(ops, id))
  {
    hide Algebra.Rule, Algebra.IsBits, Algebra.IsOne, IsValue;
    assert TypedAt(ops, id);
    var o := ops[id - 1];
    if |o.operands| == 2 {
      ResolvedSelf(o.operands[0], vector);
      ResolvedSelf(o.operands[1], vector);
      if o.opcode.Arith? {
        ArithmeticStays(ops, id);
      } else if o.opcode.Compare? {
        ComparisonStays(ops, id);
      }
    }
  }

  lemma ArithmeticStays(ops: seq<Operation>, id: NodeId)
    requires TypedOperations(ops) && InRange(ops, id) && TypedAt(ops, id) && ops[id - 1].opcode.Arith?
    ensures Algebra.Rule(ops[id - 1].opcode.arithmetic, Argument(ops, id, 0), Argument(ops, id, 1)) == Algebra.Neither <==> AlgebraDone(ops, id)
  {
    hide Algebra.Rule, IsValue, Pow2;
    var o := ops[id - 1];
    assert OperandWidths(ops, id) == [o.width, o.width];
    assert TypedAt(ops, o.operands[0]) && TypedAt(ops, o.operands[1]);
    RuleRests(o, Argument(ops, id, 0), Argument(ops, id, 1));
    assert forall k {:trigger Argument(ops, id, k)} :: 0 <= k < 2 ==> k == 0 || k == 1;
  }

  lemma ComparisonStays(ops: seq<Operation>, id: NodeId)
    requires InRange(ops, id) && TypedAt(ops, id) && ops[id - 1].opcode.Compare?
    ensures AlgebraDone(ops, id) <==>
            var comparison, operands := ops[id - 1].opcode.comparison, ops[id - 1].operands;
            (comparison.Eq? || comparison.Neq?) && operands[0] == operands[1] ==>
              Algebra.FirstBoolean(ops, 1, id, Algebra.ComparisonBits(comparison)) == id
  {
    var bits := Algebra.ComparisonBits(ops[id - 1].opcode.comparison);
    var r := Algebra.FirstBoolean(ops, 1, id, bits);
    if r < id {
      assert Algebra.IsBooleanConstant(ops[r - 1], bits);
    } else {
      assert forall j :: 0 <= j < id - 1 ==> !Algebra.IsBooleanConstant(ops[j], bits);
    }
  }

  lemma {:induction false} AlgebraVector(ops: seq<Operation>, n: nat)
    requires TypedOperations(ops) && Ordered(ops) && n <= |ops|
    ensures ReplacesNothing(Algebra.Vector(ops, n)) <==> forall id: NodeId :: 1 <= id <= n ==> TypedAt(ops, id) && AlgebraDone(ops, id)
  {
    hide AlgebraDone, TypedAt;
    if n != 0 {
      AlgebraVector(ops, n - 1);
      var before := Algebra.Vector(ops, n - 1);
      assert Dominated(ops, n);
      AppendsNothing(before, Algebra.Target(ops, before, n));
      if ReplacesNothing(before) {
        AlgebraStays(ops, before, n);
      }
    }
  }

  // ----- constant folding -----

  lemma DivisorValue(ops: seq<Operation>, id: NodeId)
    requires InRange(ops, id) && TypedAt(ops, id)
    ensures Folding.DividesByZero(ops[id - 1], Folding.ConstantValues(ops, id)) <==>
            (ops[id - 1].opcode == Arith(Udiv) || ops[id - 1].opcode == Arith(Urem)) && ValueOf(Argument(ops, id, 1).bits) == 0
  {
  }

  lemma FoldingStays(ops: seq<Operation>, id: NodeId)
    requires TypedOperations(ops) && InRange(ops, id)
    ensures TypedAt(ops, id) && Dominated(ops, id) && (Folding.Folded(ops, id) == ops[id - 1] <==> FoldingDone(ops, id))
  {
    hide Folding.ConstantValues, Apply, BitsOf, ValueOf, Folding.DividesByZero;
    assert TypedAt(ops, id);
    var operands := ops[id - 1].operands;
    assert Folding.ConstantOperands(ops, id) <==> forall k :: 0 <= k < |operands| ==> Argument(ops, id, k).opcode == Const by {
      forall k | 0 <= k < |operands|
        ensures Argument(ops, id, k) == ops[operands[k] - 1]
      {
      }
      if !Folding.ConstantOperands(ops, id) {
        var k :| 0 <= k < |operands| && !ops[operands[k] - 1].opcode.Const?;
        assert Argument(ops, id, k).opcode != Const;
      }
    }
    DivisorValue(ops, id);
  }

  lemma {:induction false} FoldingUpTo(ops: seq<Operation>, n: nat)
    requires TypedOperations(ops) && n <= |ops|
    ensures Folding.FoldedUpTo(ops, n) == ops <==> forall id: NodeId :: 1 <= id <= n ==> TypedAt(ops, id) && FoldingDone(ops, id)
  {
    hide FoldingDone, TypedAt, Folding.Folded;
    if n != 0 {
      FoldingUpTo(ops, n - 1);
      var before, after := Folding.FoldedUpTo(ops, n - 1), Folding.FoldedUpTo(ops, n);
      if after == ops {
        forall k | 0 <= k < |ops|
          ensures before[k] == ops[k]
        {
          assert k != n - 1 ==> before[k] == after[k];
        }
        assert before == ops;
      }
      if before == ops {
        FoldingStays(ops, n);
        assert after[n - 1] == Folding.Folded(ops, n);
      }
    }
  }

  // ----- strength reduction -----

  lemma {:induction false} NoneOccurs(list: seq<NodeId>, c: NodeId)
    ensures Strength.Occurrences(list, c) == 0 <==> c !in list
  {
    if list != [] {
      var front := list[..|list| - 1];
      NoneOccurs(front, c);
      assert list == front + [list[|list| - 1]];
    }
  }

  /** Occurring once: at one place, and at no other. */
  lemma {:induction false} OccursOnce(list: seq<NodeId>, c: NodeId, k: nat)
    requires k < |list| && list[k] == c
    ensures Strength.Occurrences(list, c) == 1 <==> forall j :: 0 <= j < |list| && list[j] == c ==> j == k
  {
    var last := |list| - 1;
    var front := list[..last];
    if k == last {
      NoneOccurs(front, c);
      assert forall j :: 0 <= j < last ==> front[j] == list[j];
    } else {
      OccursOnce(front, c, k);
      assert forall j :: 0 <= j < last ==> front[j] == list[j];
      if list[last] == c {
        Strength.OccursIn(front, c);
      }
    }
  }

  lemma {:induction false} NoOnes(bits: string)
    ensures Strength.Ones(bits) == 0 <==> forall j :: 0 <= j < |bits| ==> bits[j] != '1'
  {
    if bits != "" {
      var last := |bits| - 1;
      NoOnes(bits[..last]);
      assert forall j :: 0 <= j < last ==> bits[..last][j] == bits[j];
    }
  }

  lemma OneAtFront(bits: string, k: nat)
    requires bits != ""
    ensures var last := |bits| - 1;
            OneAt(bits, k) <==> if k == last then bits[last] == '1' && (forall j :: 0 <= j < last ==> bits[j] != '1')
                                else bits[last] != '1' && OneAt(bits[..last], k)
  {
    var last := |bits| - 1;
    assert forall j :: 0 <= j < last ==> bits[..last][j] == bits[j];
  }

  lemma {:induction false} OnesOnce(bits: string)
    ensures Strength.Ones(bits) == 1 <==> SingleOne(bits)
  {
    hide OneAt;
    if bits != "" {
      var last := |bits| - 1;
      var front := bits[..last];
      OnesOnce(front);
      NoOnes(front);
      assert forall j :: 0 <= j < last ==> front[j] == bits[j];
      forall k: nat
        ensures OneAt(bits, k) <==> if k == last then bits[last] == '1' && Strength.Ones(front) == 0
                                    else bits[last] != '1' && OneAt(front, k)
      {
        OneAtFront(bits, k);
      }
      if SingleOne(front) && bits[last] != '1' {
        var k: nat :| k < |front| && OneAt(front, k);
        assert OneAt(bits, k);
      }
      if bits[last] == '1' && Strength.Ones(front) == 0 {
        assert OneAt(bits, last);
      }
      if SingleOne(bits) {
        var k: nat :| k < |bits| && OneAt(bits, k);
        assert k != last ==> OneAt(front, k);
      }
    }
  }

  lemma {:induction false} StatesWithout(states: seq<State>, n: nat, c: NodeId)
    requires n <= |states| && forall i :: 0 <= i < n ==> states[i].initial != Some(c) && states[i].next != Some(c)
    ensures c !in StateUses(states, n)
  {
    if n != 0 {
      StatesWithout(states, n - 1, c);
    }
  }

  lemma {:induction false} OutputsWithout(outputs: seq<Output>, n: nat, c: NodeId)
    requires n <= |outputs| && forall i :: 0 <= i < n ==> outputs[i].value != c
    ensures c !in OutputUses(outputs, n)
  {
    if n != 0 {
      OutputsWithout(outputs, n - 1, c);
    }
  }

  lemma {:induction false} PropertiesWithout(properties: seq<Property>, n: nat, c: NodeId)
    requires n <= |properties| && forall i :: 0 <= i < n ==> properties[i].condition != c && c !in properties[i].conditions
    ensures c !in PropertyUses(properties, n)
  {
    if n != 0 {
      PropertiesWithout(properties, n - 1, c);
    }
  }

  lemma {:induction false} OperandsWithout(ops: seq<Operation>, n: nat, owner: nat, c: NodeId)
    requires n <= |ops| && owner < |ops| && forall i :: 0 <= i < |ops| && i != owner ==> c !in ops[i].operands
    ensures Strength.Occurrences(Strength.OperandUses(ops, n), c) ==
            if owner < n then Strength.Occurrences(ops[owner].operands, c) else 0
  {
    hide Strength.Occurrences;
    if n == 0 {
      NoneOccurs([], c);
    } else {
      OperandsWithout(ops, n - 1, owner, c);
      Strength.OccurrencesAppend(Strength.OperandUses(ops, n - 1), ops[n - 1].operands, c);
      NoneOccurs(ops[n - 1].operands, c);
    }
  }

  /** One reference in all is one place in the text of the module. */
  lemma ReferencedOnce(sys: Sys, id: NodeId, k: nat)
    requires InRange(sys.operations, id) && k < |sys.operations[id - 1].operands| && sys.operations[id - 1].operands[k] != 0
    ensures Strength.Occurrences(Strength.References(sys), sys.operations[id - 1].operands[k]) == 1 <==> OnlyReference(sys, id, k)
  {
    hide Strength.Occurrences, Strength.OperandUses, StateUses, OutputUses, PropertyUses;
    var ops, c := sys.operations, sys.operations[id - 1].operands[k];
    OccursOnce(ops[id - 1].operands, c, k);
    if Strength.Occurrences(Strength.References(sys), c) == 1 {
      Strength.SoleOwner(sys, id, c);
      forall i, j | 0 <= i < |ops| && 0 <= j < |ops[i].operands| && (i != id - 1 || j != k)
        ensures ops[i].operands[j] != c
      {
        assert i != id - 1 ==> InRange(ops, i + 1) && c !in ops[(i + 1) - 1].operands;
      }
    }
    if OnlyReference(sys, id, k) {
      OperandsWithout(ops, |ops|, id - 1, c);
      StatesWithout(sys.states, |sys.states|, c);
      OutputsWithout(sys.outputs, |sys.outputs|, c);
      PropertiesWithout(sys.properties, |sys.properties|, c);
      NoneOccurs(RootUses(sys), c);
      Strength.OccurrencesAppend(Strength.OperandUses(ops, |ops|), RootUses(sys), c);
    }
  }

  lemma StrengthStays(sys: Sys, id: NodeId)
    requires TypedOperations(sys.operations) && InRange(sys.operations, id)
    ensures TypedAt(sys.operations, id)
    ensures Strength.Reducible(sys.operations, Strength.UseCounts(sys), id) <==> !StrengthDone(sys, id)
  {
    hide Strength.Occurrences, Strength.References, OnlyReference, Strength.Ones, SingleOne;
    var ops := sys.operations;
    assert TypedAt(ops, id);
    if Strength.IsScaling(ops[id - 1]) {
      ReferencedOnce(sys, id, 0);
      ReferencedOnce(sys, id, 1);
      OnesOnce(Argument(ops, id, 0).bits);
      OnesOnce(Argument(ops, id, 1).bits);
    }
  }

  lemma {:induction false} StrengthUpTo(ops: seq<Operation>, uses: seq<nat>, n: nat)
    requires TypedOperations(ops) && n <= |ops| && |uses| == |ops| + 1
    ensures var r := Strength.ReducedUpTo(ops, uses, n);
            || (r == ops && forall id: NodeId :: 1 <= id <= n ==> !Strength.Reducible(ops, uses, id))
            || (Strength.Scalings(r, |r|) < Strength.Scalings(ops, |ops|)
                && exists id: NodeId :: 1 <= id <= n && Strength.Reducible(ops, uses, id))
  {
    hide Strength.Reducible, Strength.Reduced, Strength.Scalings;
    if n != 0 {
      StrengthUpTo(ops, uses, n - 1);
      Strength.ReducedProgress(Strength.ReducedUpTo(ops, uses, n - 1), uses, n);
    }
  }

  // ----- value numbering -----

  lemma NormalSame(opcode: Opcode, a: seq<NodeId>, b: seq<NodeId>)
    ensures Cse.Normal(opcode, a) == Cse.Normal(opcode, b) <==>
            a == b || (Cse.Commutes(opcode) && |a| == |b| == 2 && a[0] == b[1] && a[1] == b[0])
  {
  }

  lemma KeysOfTwins(a: Operation, b: Operation, vector: seq<NodeId>)
    requires Descending(vector) && !IsLeaf(a.opcode) && !IsLeaf(b.opcode)
    ensures Cse.KeyOf(a, vector) == Cse.KeyOf(b, vector) <==>
            Twins(a.(operands := Cse.ResolveAll(a.operands, vector)), b.(operands := Cse.ResolveAll(b.operands, vector)))
  {
    hide Cse.Normal, Cse.ResolveAll;
    NormalSame(a.opcode, Cse.ResolveAll(a.operands, vector), Cse.ResolveAll(b.operands, vector));
  }

  lemma ResolveAllSelf(list: seq<NodeId>, vector: seq<NodeId>)
    requires Descending(vector) && ReplacesNothing(vector) && forall k :: 0 <= k < |list| ==> list[k] < |vector|
    ensures Cse.ResolveAll(list, vector) == list
  {
    forall k | 0 <= k < |list|
      ensures Cse.ResolveAll(list, vector)[k] == list[k]
    {
      ResolvedSelf(list[k], vector);
    }
  }

  lemma CseStays(ops: seq<Operation>, vector: seq<NodeId>, id: NodeId)
    requires TypedOperations(ops) && InRange(ops, id) && |vector| == id && Descending(vector) && ReplacesNothing(vector)
    ensures Cse.Target(ops, vector, id) == id <==> forall j :: 0 <= j < id - 1 ==> !Twins(ops[j], ops[id - 1])
  {
    hide Cse.KeyOf, Cse.ResolveAll, Twins;
    var o := ops[id - 1];
    assert TypedAt(ops, id);
    ResolveAllSelf(o.operands, vector);
    forall j: NodeId | 1 <= j < id
      ensures !IsLeaf(o.opcode) ==> (Cse.HasKey(ops, vector, j, Cse.KeyAt(ops, vector, id)) <==> Twins(ops[j - 1], o))
    {
      assert TypedAt(ops, j);
      ResolveAllSelf(ops[j - 1].operands, vector);
      TwinsAreNoLeaves(ops[j - 1], o);
      if !IsLeaf(o.opcode) && !IsLeaf(ops[j - 1].opcode) {
        KeysOfTwins(ops[j - 1], o, vector);
      }
    }
    forall j | 0 <= j < id - 1
      ensures IsLeaf(o.opcode) ==> !Twins(ops[j], o)
    {
      TwinsAreNoLeaves(ops[j], o);
    }
    if !IsLeaf(o.opcode) {
      FirstOfKey(ops, vector, id);
      var key := Cse.KeyAt(ops, vector, id);
      if Cse.Target(ops, vector, id) == id {
        forall j | 0 <= j < id - 1
          ensures !Twins(ops[j], o)
        {
          var prior: NodeId := j + 1;
          assert !Cse.HasKey(ops, vector, prior, key);
        }
      } else {
        var prior := Cse.Target(ops, vector, id);
        assert Cse.HasKey(ops, vector, prior, key);
        var j := prior - 1;
        assert Twins(ops[j], o);
      }
    }
  }

  lemma TwinsAreNoLeaves(a: Operation, b: Operation)
    ensures Twins(a, b) ==> !IsLeaf(a.opcode) && !IsLeaf(b.opcode)
  {
  }

  lemma FirstOfKey(ops: seq<Operation>, vector: seq<NodeId>, id: NodeId)
    requires InRange(ops, id) && |vector| == id && Descending(vector) && !IsLeaf(ops[id - 1].opcode)
    ensures var key, r := Cse.KeyAt(ops, vector, id), Cse.Target(ops, vector, id);
            && (r < id ==> Cse.HasKey(ops, vector, r, key))
            && forall j: NodeId :: 1 <= j < r ==> !Cse.HasKey(ops, vector, j, key)
  {
  }

  lemma {:induction false} CseVector(ops: seq<Operation>, n: nat)
    requires TypedOperations(ops) && n <= |ops|
    ensures ReplacesNothing(Cse.Vector(ops, n)) <==> forall i, j :: 0 <= i < j < n ==> !Twins(ops[i], ops[j])
  {
    hide Twins, Cse.Target;
    if n != 0 {
      CseVector(ops, n - 1);
      var before := Cse.Vector(ops, n - 1);
      AppendsNothing(before, Cse.Target(ops, before, n));
      if ReplacesNothing(before) {
        CseStays(ops, before, n);
      }
    }
  }

  // ----- what value numbering leaves -----

  predicate Within(list: seq<NodeId>, n: nat) {
    forall k :: 0 <= k < |list| ==> list[k] < n
  }

  function Replacing(list: seq<NodeId>, canon: seq<NodeId>): (r: seq<NodeId>)
    requires Within(list, |canon|)
    ensures |r| == |list|
  {
    seq(|list|, k requires 0 <= k < |list| => canon[list[k]])
  }

  lemma SlotInjective(keep: seq<bool>, x: NodeId, y: NodeId)
    requires 0 < x < |keep| && 0 < y < |keep| && keep[x] && keep[y] && Slot(keep, x) == Slot(keep, y)
    ensures x == y
  {
    if x < y {
      CountMonotonic(keep, x, y);
    } else if y < x {
      CountMonotonic(keep, y, x);
    }
  }

  /** Operands with equal new numbers have the same replacement. */
  lemma NumberDetermines(sys: Sys, live: seq<bool>, canon: seq<NodeId>, x: NodeId, y: NodeId)
    requires Fits(sys, live, canon) && 0 < x < |canon| && 0 < y < |canon| && live[canon[x]] && live[canon[y]]
    requires var ids := NewIds(Survivors(live, canon), canon); ids[x] == ids[y]
    ensures canon[x] == canon[y]
  {
    SlotInjective(Survivors(live, canon), canon[x], canon[y]);
  }

  lemma OperandReplaced(sys: Sys, live: seq<bool>, canon: seq<NodeId>, id: NodeId, k: nat)
    requires Fits(sys, live, canon) && InRange(sys.operations, id) && live[id] && k < |sys.operations[id - 1].operands|
    ensures var x := sys.operations[id - 1].operands[k]; 0 < x < |canon| && live[canon[x]]
  {
    assert TypedAt(sys.operations, id);
    assert AllLive(live, canon, sys.operations[id - 1].operands);
    assert OptionalLive(live, canon, Some(sys.operations[id - 1].operands[k]));
  }

  lemma OperandsReplaced(sys: Sys, live: seq<bool>, canon: seq<NodeId>, a: NodeId, k: nat, b: NodeId, j: nat)
    requires Fits(sys, live, canon) && InRange(sys.operations, a) && live[a] && k < |sys.operations[a - 1].operands|
    requires InRange(sys.operations, b) && live[b] && j < |sys.operations[b - 1].operands|
    requires var ids := NewIds(Survivors(live, canon), canon);
             Renumber(ids, sys.operations[a - 1].operands)[k] == Renumber(ids, sys.operations[b - 1].operands)[j]
    ensures var x, y := sys.operations[a - 1].operands[k], sys.operations[b - 1].operands[j];
            x < |canon| && y < |canon| && canon[x] == canon[y]
  {
    hide Fits;
    OperandReplaced(sys, live, canon, a, k);
    OperandReplaced(sys, live, canon, b, j);
    RebuildSizes(sys, live, canon);
    NumberDetermines(sys, live, canon, sys.operations[a - 1].operands[k], sys.operations[b - 1].operands[j]);
  }

  lemma RebuildSizes(sys: Sys, live: seq<bool>, canon: seq<NodeId>)
    requires Fits(sys, live, canon)
    ensures |live| == |canon| == |sys.operations| + 1 && Descending(canon)
    ensures |BackOf(live, canon)| == |Rebuilt(sys, live, canon).operations| + 1
  {
  }

  lemma OperandsInside(sys: Sys, live: seq<bool>, canon: seq<NodeId>, id: NodeId)
    requires Fits(sys, live, canon) && InRange(sys.operations, id)
    ensures |canon| == |sys.operations| + 1
    ensures Within(sys.operations[id - 1].operands, |canon|)
  {
    assert TypedAt(sys.operations, id);
  }

  /** Twins in a rebuilt module were twins, up to replacement, before. */
  lemma RebuiltTwins(sys: Sys, live: seq<bool>, canon: seq<NodeId>, i: NodeId, j: NodeId) returns (a: NodeId, b: NodeId)
    requires Fits(sys, live, canon) && 1 <= i < j && InRange(Rebuilt(sys, live, canon).operations, j)
    requires Twins(Rebuilt(sys, live, canon).operations[i - 1], Rebuilt(sys, live, canon).operations[j - 1])
    ensures 1 <= a < b <= |sys.operations| < |canon| && canon[a] == a && canon[b] == b
    ensures Within(sys.operations[a - 1].operands, |canon|)
    ensures Within(sys.operations[b - 1].operands, |canon|)
    ensures Twins(sys.operations[a - 1].(operands := Replacing(sys.operations[a - 1].operands, canon)),
                  sys.operations[b - 1].(operands := Replacing(sys.operations[b - 1].operands, canon)))
  {
    hide Fits, Rebuilt;
    RebuildSizes(sys, live, canon);
    NewOperation(sys, live, canon, i);
    NewOperation(sys, live, canon, j);
    a, b := BackOf(live, canon)[i], BackOf(live, canon)[j];
    var keep := Survivors(live, canon);
    var ids := NewIds(keep, canon);
    if b <= a {
      CountMonotonic(keep, b, a);
      assert false;
    }
    OperandsInside(sys, live, canon, a);
    OperandsInside(sys, live, canon, b);
    TwinOperands(sys, live, canon, a, b);
  }

  lemma TwinOperands(sys: Sys, live: seq<bool>, canon: seq<NodeId>, a: NodeId, b: NodeId)
    requires Fits(sys, live, canon) && InRange(sys.operations, a) && InRange(sys.operations, b) && live[a] && live[b]
    requires var ids := NewIds(Survivors(live, canon), canon);
             Twins(sys.operations[a - 1].(operands := Renumber(ids, sys.operations[a - 1].operands)),
                   sys.operations[b - 1].(operands := Renumber(ids, sys.operations[b - 1].operands)))
    requires Within(sys.operations[a - 1].operands, |canon|)
    requires Within(sys.operations[b - 1].operands, |canon|)
    ensures Twins(sys.operations[a - 1].(operands := Replacing(sys.operations[a - 1].operands, canon)),
                  sys.operations[b - 1].(operands := Replacing(sys.operations[b - 1].operands, canon)))
  {
    hide Fits, NewIds, Survivors;
    RebuildSizes(sys, live, canon);
    var ids := NewIds(Survivors(live, canon), canon);
    var la, lb := sys.operations[a - 1].operands, sys.operations[b - 1].operands;
    if Renumber(ids, la) == Renumber(ids, lb) {
      forall k | 0 <= k < |la|
        ensures Replacing(la, canon)[k] == Replacing(lb, canon)[k]
      {
        OperandsReplaced(sys, live, canon, a, k, b, k);
      }
      assert Replacing(la, canon) == Replacing(lb, canon);
    } else {
      OperandsReplaced(sys, live, canon, a, 0, b, 1);
      OperandsReplaced(sys, live, canon, a, 1, b, 0);
    }
  }

  lemma {:induction false} VectorAt(ops: seq<Operation>, n: nat, b: NodeId)
    requires 1 <= b <= n <= |ops|
    ensures Cse.Vector(ops, n)[b] == Cse.Target(ops, Cse.Vector(ops, b - 1), b)
    decreases n
  {
    hide Cse.Target, Descending;
    if b < n {
      VectorAt(ops, n - 1, b);
    }
  }

  lemma {:induction false} KeyKept(ops: seq<Operation>, b: nat, n: nat, j: NodeId)
    requires Ordered(ops) && InRange(ops, j) && j <= b + 1 && b <= n <= |ops|
    ensures Cse.KeyAt(ops, Cse.Vector(ops, n), j) == Cse.KeyAt(ops, Cse.Vector(ops, b), j)
    decreases n
  {
    hide Cse.KeyAt, Cse.Target;
    if b < n {
      KeyKept(ops, b, n - 1, j);
      var before := Cse.Vector(ops, n - 1);
      Cse.KeyStable(ops, before, Cse.Target(ops, before, n), j);
    }
  }

  /** Of two operations with the same key, the later one is replaced. */
  lemma LaterReplaced(ops: seq<Operation>, a: NodeId, b: NodeId)
    requires Ordered(ops) && 1 <= a < b <= |ops| && !IsLeaf(ops[a - 1].opcode) && !IsLeaf(ops[b - 1].opcode)
    requires Cse.KeyAt(ops, Cse.Vector(ops, |ops|), a) == Cse.KeyAt(ops, Cse.Vector(ops, |ops|), b)
    ensures Cse.Vector(ops, |ops|)[b] < b
  {
    hide Cse.KeyAt, Cse.Target, Cse.First, Cse.Vector, Dominated;
    var before := Cse.Vector(ops, b - 1);
    KeyKept(ops, b - 1, |ops|, a);
    KeyKept(ops, b - 1, |ops|, b);
    VectorAt(ops, |ops|, b);
    EarlierFound(ops, before, a, b);
  }

  lemma EarlierFound(ops: seq<Operation>, before: seq<NodeId>, a: NodeId, b: NodeId)
    requires 1 <= a < b <= |ops| && |before| == b && Descending(before)
    requires !IsLeaf(ops[a - 1].opcode) && !IsLeaf(ops[b - 1].opcode) && Cse.KeyAt(ops, before, a) == Cse.KeyAt(ops, before, b)
    ensures Cse.Target(ops, before, b) < b
  {
    hide Cse.KeyAt, Cse.First, Cse.Target;
    FirstOfKey(ops, before, b);
    assert Cse.HasKey(ops, before, a, Cse.KeyAt(ops, before, b));
  }

  /** Main result: value numbering leaves no twins. */
  lemma NumberedHasNoTwins(sys: Sys)
    requires WellTyped(sys)
    ensures NoTwins(Cse.Numbered(sys).operations)
  {
    hide Twins, Fits, Rebuilt, Cse.Vector;
    var ops, n := sys.operations, |sys.operations|;
    var vector := Cse.Vector(ops, n);
    TypedIsOrdered(ops);
    if ReplacesNothing(vector) {
      CseVector(ops, n);
    } else {
      Cse.VectorSound(ops, n);
      ReplacedFits(sys, vector);
      var live, canon := LiveVector(n, None), Canonical(n, Some(vector));
      var ops' := Rebuilt(sys, live, canon).operations;
      forall i, j | 0 <= i < j < |ops'|
        ensures !Twins(ops'[i], ops'[j])
      {
        TwinsReplaced(sys, vector, i + 1, j + 1);
      }
    }
  }

  lemma TwinsReplaced(sys: Sys, vector: seq<NodeId>, i: NodeId, j: NodeId)
    requires WellTyped(sys) && Ordered(sys.operations) && vector == Cse.Vector(sys.operations, |sys.operations|)
    requires Fits(sys, LiveVector(|sys.operations|, None), Canonical(|sys.operations|, Some(vector)))
    requires 1 <= i < j <= |Rebuilt(sys, LiveVector(|sys.operations|, None), Canonical(|sys.operations|, Some(vector))).operations|
    ensures var ops' := Rebuilt(sys, LiveVector(|sys.operations|, None), Canonical(|sys.operations|, Some(vector))).operations;
            !Twins(ops'[i - 1], ops'[j - 1])
  {
    hide Twins, Fits, Rebuilt, Cse.Vector;
    var ops, n := sys.operations, |sys.operations|;
    var canon := Canonical(n, Some(vector));
    var ops' := Rebuilt(sys, LiveVector(n, None), canon).operations;
    if Twins(ops'[i - 1], ops'[j - 1]) {
      var a, b := RebuiltTwins(sys, LiveVector(n, None), canon, i, j);
      var la, lb := ops[a - 1].operands, ops[b - 1].operands;
      assert Replacing(la, canon) == Cse.ResolveAll(la, vector) && Replacing(lb, canon) == Cse.ResolveAll(lb, vector);
      TwinsAreNoLeaves(ops[a - 1].(operands := Replacing(la, canon)), ops[b - 1].(operands := Replacing(lb, canon)));
      KeysOfTwins(ops[a - 1], ops[b - 1], vector);
      LaterReplaced(ops, a, b);
    }
  }

  lemma RetainedTwins(sys: Sys, i: nat, j: nat)
    requires WellTyped(sys) && i < j < |Dead.Retained(sys).operations|
    requires Twins(Dead.Retained(sys).operations[i], Dead.Retained(sys).operations[j])
    ensures exists a, b :: 0 <= a < b < |sys.operations| && Twins(sys.operations[a], sys.operations[b])
  {
    hide Twins, Fits, Rebuilt;
    var n := |sys.operations|;
    Dead.RetainedFits(sys);
    var a, b := RebuiltTwins(sys, Dead.LiveOperations(sys), Identity(n), i + 1, j + 1);
    assert Replacing(sys.operations[a - 1].operands, Identity(n)) == sys.operations[a - 1].operands;
    assert Replacing(sys.operations[b - 1].operands, Identity(n)) == sys.operations[b - 1].operands;
    var x, y := a - 1, b - 1;
    assert Twins(sys.operations[x], sys.operations[y]);
  }

  /** Dead-code elimination brings no twins about. */
  lemma RetainedHasNoTwins(sys: Sys)
    requires WellTyped(sys) && NoTwins(sys.operations)
    ensures NoTwins(Dead.Retained(sys).operations)
  {
    hide Twins, Fits, Rebuilt;
    var n := |sys.operations|;
    Dead.RetainedFits(sys);
    var ops' := Dead.Retained(sys).operations;
    forall i, j | 0 <= i < j < |ops'|
      ensures !Twins(ops'[i], ops'[j])
    {
      if Twins(ops'[i], ops'[j]) {
        RetainedTwins(sys, i, j);
      }
    }
  }

  // ----- all passes -----

  lemma ReplacingPasses(sys: Sys)
    requires WellTyped(sys)
    ensures Ordered(sys.operations)
    ensures Algebra.Simplified(sys) == sys <==> forall id: NodeId :: InRange(sys.operations, id) ==> TypedAt(sys.operations, id) && AlgebraDone(sys.operations, id)
    ensures Branch.Branched(sys) == sys <==> forall id: NodeId :: InRange(sys.operations, id) ==> TypedAt(sys.operations, id) && BranchDone(sys.operations, id)
    ensures Peephole.Peepholed(sys) == sys <==> forall id: NodeId :: InRange(sys.operations, id) ==> TypedAt(sys.operations, id) && PeepholeDone(sys.operations, id)
    ensures Copies.Propagated(sys) == sys <==> forall id: NodeId :: InRange(sys.operations, id) ==> TypedAt(sys.operations, id) && CopiesDone(sys.operations, id)
    ensures Cse.Numbered(sys) == sys <==> NoTwins(sys.operations)
  {
    hide AlgebraDone, BranchDone, PeepholeDone, CopiesDone, TypedAt, Twins, Replaced, ReplacesNothing;
    var ops, n := sys.operations, |sys.operations|;
    TypedIsOrdered(ops);
    AlgebraVector(ops, n);
    BranchVector(ops, n);
    PeepholeVector(ops, n);
    CopiesVector(ops, n);
    CseVector(ops, n);
    ReplacedFixes(sys, Algebra.Vector(ops, n));
    ReplacedFixes(sys, Branch.Vector(ops, n));
    ReplacedFixes(sys, Peephole.Vector(ops, n));
    ReplacedFixes(sys, Copies.Vector(ops, n));
    ReplacedFixes(sys, Cse.Vector(ops, n));
  }

  lemma OverwritingPasses(sys: Sys)
    requires WellTyped(sys)
    ensures Folding.FoldedSys(sys) == sys <==> forall id: NodeId :: InRange(sys.operations, id) ==> TypedAt(sys.operations, id) && FoldingDone(sys.operations, id)
    ensures Strength.Strengthened(sys) == sys <==> forall id: NodeId :: InRange(sys.operations, id) ==> TypedAt(sys.operations, id) && StrengthDone(sys, id)
  {
    hide FoldingDone, TypedAt, StrengthDone, Strength.Reducible, Strength.UseCounts, Strength.Scalings;
    var ops, n, uses := sys.operations, |sys.operations|, Strength.UseCounts(sys);
    FoldingUpTo(ops, n);
    StrengthUpTo(ops, uses, n);
    forall id: NodeId | InRange(ops, id)
      ensures TypedAt(ops, id) && (Strength.Reducible(ops, uses, id) <==> !StrengthDone(sys, id))
    {
      StrengthStays(sys, id);
    }
  }
}
