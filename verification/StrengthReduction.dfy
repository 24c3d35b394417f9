/** Multiplication and division by a power of two become shifts, by overwriting the constant. */
module StrengthReduction {
  import opened Bits
  import opened TransitionSystem
  import opened Semantics
  import opened Refinement
  import opened InPlace
  import opened Roots

  // ----- counting uses -----

  function OperandUses(ops: seq<Operation>, n: nat): seq<NodeId>
    requires n <= |ops|
  {
    if n == 0 then [] else OperandUses(ops, n - 1) + ops[n - 1].operands
  }

  /** Every reference to an operation in the module. */
  function References(sys: Sys): seq<NodeId> {
    OperandUses(sys.operations, |sys.operations|) + RootUses(sys)
  }

  function Occurrences(list: seq<NodeId>, id: NodeId): nat {
    if list == [] then 0
    else Occurrences(list[..|list| - 1], id) + if list[|list| - 1] == id then 1 else 0
  }

  lemma {:induction false} OccurrencesAppend(a: seq<NodeId>, b: seq<NodeId>, id: NodeId)
    ensures Occurrences(a + b, id) == Occurrences(a, id) + Occurrences(b, id)
  {
    if b == [] {
      assert a + b == a;
    } else {
      var front := b[..|b| - 1];
      assert (a + b)[..|a + b| - 1] == a + front;
      OccurrencesAppend(a, front, id);
    }
  }

  lemma {:induction false} Occurs(list: seq<NodeId>, k: nat)
    requires k < |list|
    ensures Occurrences(list, list[k]) >= 1
  {
    if k < |list| - 1 {
      Occurs(list[..|list| - 1], k);
    }
  }

  ghost predicate Counts(uses: seq<nat>, references: seq<NodeId>) {
    forall id: NodeId :: id < |uses| ==> uses[id] == Occurrences(references, id)
  }

  method CountAll(uses: seq<nat>, ghost seen: seq<NodeId>, list: seq<NodeId>) returns (r: seq<nat>)
    requires Counts(uses, seen) && forall k :: 0 <= k < |list| ==> list[k] < |uses|
    ensures |r| == |uses| && Counts(r, seen + list)
  {
    r := uses;
    assert seen + list[..0] == seen;
    for k := 0 to |list|
      invariant |r| == |uses| && Counts(r, seen + list[..k])
    {
      assert (seen + list[..k + 1])[..|seen| + k] == seen + list[..k];
      r := r[list[k] := r[list[k]] + 1];
    }
    assert list[..|list|] == list;
  }

  method CountOperands(ops: seq<Operation>, uses: seq<nat>) returns (r: seq<nat>)
    requires Ordered(ops) && |uses| == |ops| + 1 && Counts(uses, [])
    ensures |r| == |uses| && Counts(r, OperandUses(ops, |ops|))
  {
    r := uses;
    for k := 0 to |ops|
      invariant |r| == |uses| && Counts(r, OperandUses(ops, k))
    {
      assert Dominated(ops, k + 1);
      r := CountAll(r, OperandUses(ops, k), ops[k].operands);
    }
  }

  lemma StateOptions(sys: Sys, k: nat)
    requires WellTyped(sys) && k < |sys.states|
    ensures sys.states[k].initial.Some? ==> sys.states[k].initial.value <= |sys.operations|
    ensures sys.states[k].next.Some? ==> sys.states[k].next.value <= |sys.operations|
  {
    assert TypedState(sys.operations, sys.states[k]);
  }

  method CountStates(sys: Sys, uses: seq<nat>, ghost seen: seq<NodeId>) returns (r: seq<nat>)
    requires WellTyped(sys) && |uses| == |sys.operations| + 1 && Counts(uses, seen)
    ensures |r| == |uses| && Counts(r, seen + StateUses(sys.states, |sys.states|))
  {
    hide Counts, TypedOperations, TypedState, TypedProperty, DistinctStates;
    r := uses;
    assert seen + [] == seen;
    for k := 0 to |sys.states|
      invariant |r| == |uses| && Counts(r, seen + StateUses(sys.states, k))
    {
      var state := sys.states[k];
      StateOptions(sys, k);
      ghost var before := seen + StateUses(sys.states, k);
      r := CountAll(r, before, OptionalUse(state.initial));
      r := CountAll(r, before + OptionalUse(state.initial), OptionalUse(state.next));
      assert before + OptionalUse(state.initial) + OptionalUse(state.next) == seen + StateUses(sys.states, k + 1);
    }
  }

  method CountOutputs(sys: Sys, uses: seq<nat>, ghost seen: seq<NodeId>) returns (r: seq<nat>)
    requires WellTyped(sys) && |uses| == |sys.operations| + 1 && Counts(uses, seen)
    ensures |r| == |uses| && Counts(r, seen + OutputUses(sys.outputs, |sys.outputs|))
  {
    r := uses;
    assert seen + [] == seen;
    for k := 0 to |sys.outputs|
      invariant |r| == |uses| && Counts(r, seen + OutputUses(sys.outputs, k))
    {
      r := CountAll(r, seen + OutputUses(sys.outputs, k), [sys.outputs[k].value]);
      assert seen + OutputUses(sys.outputs, k) + [sys.outputs[k].value] == seen + OutputUses(sys.outputs, k + 1);
    }
  }

  method CountProperties(sys: Sys, uses: seq<nat>, ghost seen: seq<NodeId>) returns (r: seq<nat>)
    requires WellTyped(sys) && |uses| == |sys.operations| + 1 && Counts(uses, seen)
    ensures |r| == |uses| && Counts(r, seen + PropertyUses(sys.properties, |sys.properties|))
  {
    r := uses;
    assert seen + [] == seen;
    for k := 0 to |sys.properties|
      invariant |r| == |uses| && Counts(r, seen + PropertyUses(sys.properties, k))
    {
      var p := sys.properties[k];
      assert TypedProperty(sys.operations, p);
      ghost var before := seen + PropertyUses(sys.properties, k);
      var condition := if p.condition != 0 then [p.condition] else [];
      r := CountAll(r, before, condition);
      r := CountAll(r, before + condition, p.conditions);
      assert before + condition + p.conditions == seen + PropertyUses(sys.properties, k + 1);
    }
  }

  method CountUses(m: Module) returns (uses: seq<nat>)
    requires WellTyped(m.View())
    ensures |uses| == |m.operations| + 1 && Counts(uses, References(m.View()))
  {
    var sys := m.View();
    TypedIsOrdered(sys.operations);
    uses := seq(|m.operations| + 1, k => 0);
    uses := CountOperands(sys.operations, uses);
    ghost var seen := OperandUses(sys.operations, |sys.operations|);
    uses := CountStates(sys, uses, seen);
    seen := seen + StateUses(sys.states, |sys.states|);
    uses := CountOutputs(sys, uses, seen);
    seen := seen + OutputUses(sys.outputs, |sys.outputs|);
    uses := CountProperties(sys, uses, seen);
    assert seen + PropertyUses(sys.properties, |sys.properties|) == References(sys);
  }

  // ----- powers of two in binary -----

  function Ones(bits: string): nat {
    if bits == "" then 0 else Ones(bits[..|bits| - 1]) + Digit(bits[|bits| - 1])
  }

  /** Number of digits after the last '1'. */
  function AfterLastOne(bits: string): (shift: nat)
    ensures shift <= |bits|
  {
    if bits == "" || bits[|bits| - 1] == '1' then 0 else 1 + AfterLastOne(bits[..|bits| - 1])
  }

  lemma {:induction false} NoOnes(bits: string)
    requires Ones(bits) == 0
    ensures ValueOf(bits) == 0
  {
    if bits != "" {
      NoOnes(bits[..|bits| - 1]);
    }
  }

  lemma {:induction false} SingleOne(bits: string)
    requires Ones(bits) == 1
    ensures AfterLastOne(bits) < |bits| && ValueOf(bits) == Pow2(AfterLastOne(bits))
  {
    var front := bits[..|bits| - 1];
    if bits[|bits| - 1] == '1' {
      NoOnes(front);
    } else {
      SingleOne(front);
    }
  }

  /** Writing a number in binary, from the least significant digit. */
  method WriteBinary(value: nat, width: nat) returns (bits: string)
    requires value < Pow2(width)
    ensures bits == BitsOf(value, width)
  {
    bits := seq(width, k => '0');
    var rest: nat, bit: nat := value, 0;
    while rest != 0
      invariant bit <= width && |bits| == width && rest < Pow2(width - bit)
      invariant forall j :: 0 <= j < width - bit ==> bits[j] == '0'
      invariant BitsOf(value, width) == BitsOf(rest, width - bit) + bits[width - bit..]
      decreases rest
    {
      assert bit < width by {
        assert Pow2(0) == 1;
      }
      ghost var before := bits;
      if rest % 2 == 1 {
        bits := bits[width - bit - 1 := '1'];
      }
      assert bits[width - bit - 1..] == [if rest % 2 == 1 then '1' else '0'] + before[width - bit..];
      rest := rest / 2;
      bit := bit + 1;
    }
    ZeroBits(width - bit);
    assert bits == bits[..width - bit] + bits[width - bit..];
    assert bits[..width - bit] == BitsOf(0, width - bit);
  }

  lemma {:induction false} ZeroBits(width: nat)
    ensures forall j :: 0 <= j < width ==> BitsOf(0, width)[j] == '0'
  {
    if width != 0 {
      ZeroBits(width - 1);
    }
  }

  // ----- one operation -----

  predicate IsScaling(o: Operation) {
    o.opcode == Arith(Mul) || o.opcode == Arith(Udiv)
  }

  /** Which operand is taken to be the constant. */
  function ConstantSide(ops: seq<Operation>, id: NodeId): (side: nat)
    requires TypedOperations(ops) && InRange(ops, id) && IsScaling(ops[id - 1])
    ensures side < 2
  {
    assert TypedAt(ops, id);
    if ops[id - 1].opcode == Arith(Mul) && ops[ops[id - 1].operands[0] - 1].opcode.Const? then 0 else 1
  }

  predicate Reducible(ops: seq<Operation>, uses: seq<nat>, id: NodeId)
    requires TypedOperations(ops) && InRange(ops, id) && |uses| == |ops| + 1
  {
    IsScaling(ops[id - 1]) &&
    (assert TypedAt(ops, id);
     var constant := ops[id - 1].operands[ConstantSide(ops, id)];
     ops[constant - 1].opcode.Const? && Ones(ops[constant - 1].bits) == 1 && uses[constant] == 1)
  }

  /** The operation turned into a shift, and its constant into the shift amount. */
  function Reduced(ops: seq<Operation>, uses: seq<nat>, id: NodeId): (r: seq<Operation>)
    requires TypedOperations(ops) && InRange(ops, id) && |uses| == |ops| + 1
    ensures |r| == |ops|
  {
    if Reducible(ops, uses, id) then
      assert TypedAt(ops, id);
      var o := ops[id - 1];
      var side := ConstantSide(ops, id);
      var constant, value := o.operands[side], o.operands[1 - side];
      var c := ops[constant - 1];
      ops[id - 1 := o.(opcode := Arith(if o.opcode == Arith(Mul) then Sll else Srl), operands := [value, constant])]
         [constant - 1 := c.(bits := BitsOf(AfterLastOne(c.bits), c.width))]
    else ops
  }

  // ----- sole ownership -----

  lemma {:induction false} UsesAccumulate(ops: seq<Operation>, n: nat, i: nat, c: NodeId)
    requires i < n <= |ops|
    ensures Occurrences(OperandUses(ops, n), c) >= Occurrences(ops[i].operands, c)
  {
    OccurrencesAppend(OperandUses(ops, n - 1), ops[n - 1].operands, c);
    if i < n - 1 {
      UsesAccumulate(ops, n - 1, i, c);
    }
  }

  lemma {:induction false} UsesSeparate(ops: seq<Operation>, n: nat, i: nat, j: nat, c: NodeId)
    requires i < j < n <= |ops|
    ensures Occurrences(OperandUses(ops, n), c) >= Occurrences(ops[i].operands, c) + Occurrences(ops[j].operands, c)
  {
    OccurrencesAppend(OperandUses(ops, n - 1), ops[n - 1].operands, c);
    if j < n - 1 {
      UsesSeparate(ops, n - 1, i, j, c);
    } else {
      UsesAccumulate(ops, n - 1, i, c);
    }
  }

  /** A single reference means a single owner: nothing else in the module observes the constant. */
  lemma SoleOwner(sys: Sys, id: NodeId, c: NodeId)
    requires InRange(sys.operations, id) && c in sys.operations[id - 1].operands && c != 0
    requires Occurrences(References(sys), c) == 1
    ensures Owned(sys, id, c)
  {
    hide Occurrences, OperandUses, RootUses, Root;
    var n := |sys.operations|;
    OccurrencesAppend(OperandUses(sys.operations, n), RootUses(sys), c);
    UsesAccumulate(sys.operations, n, id - 1, c);
    OccursIn(sys.operations[id - 1].operands, c);
    forall j: NodeId | InRange(sys.operations, j) && j != id
      ensures c !in sys.operations[j - 1].operands
    {
      if c in sys.operations[j - 1].operands {
        OccursIn(sys.operations[j - 1].operands, c);
        if j < id {
          UsesSeparate(sys.operations, n, j - 1, id - 1, c);
        } else {
          UsesSeparate(sys.operations, n, id - 1, j - 1, c);
        }
      }
    }
    if Root(sys, c) {
      RootIsUse(sys, c);
      OccursIn(RootUses(sys), c);
    }
  }

  lemma OccursIn(list: seq<NodeId>, c: NodeId)
    requires c in list
    ensures Occurrences(list, c) >= 1
  {
    var k :| 0 <= k < |list| && list[k] == c;
    Occurs(list, k);
  }

  // ----- soundness of one step -----

  function Shift(ops: seq<Operation>, c: NodeId): (shift: nat)
    requires InRange(ops, c)
  {
    AfterLastOne(ops[c - 1].bits)
  }

  /** `r` is `ops` with operation `id` turned into a shift of `value`, and constant `c` into the amount. */
  ghost predicate Rewritten(ops: seq<Operation>, r: seq<Operation>, id: NodeId, value: NodeId, c: NodeId) {
    && |r| == |ops| && InRange(ops, id) && 1 <= c < id && 1 <= value < id
    && IsScaling(ops[id - 1])
    && (ops[id - 1].operands == [value, c] || (ops[id - 1].opcode == Arith(Mul) && ops[id - 1].operands == [c, value]))
    && ops[c - 1].opcode.Const? && Ones(ops[c - 1].bits) == 1
    && r[id - 1] == ops[id - 1].(opcode := Arith(if ops[id - 1].opcode == Arith(Mul) then Sll else Srl), operands := [value, c])
    && r[c - 1] == ops[c - 1].(bits := BitsOf(Shift(ops, c), ops[c - 1].width))
    && forall k :: 0 <= k < |ops| && k != id - 1 && k != c - 1 ==> r[k] == ops[k]
  }

  lemma ReducedIsRewritten(ops: seq<Operation>, uses: seq<nat>, id: NodeId) returns (value: NodeId, c: NodeId)
    requires TypedOperations(ops) && InRange(ops, id) && |uses| == |ops| + 1 && Reducible(ops, uses, id)
    ensures Rewritten(ops, Reduced(ops, uses, id), id, value, c) && uses[c] == 1
  {
    assert TypedAt(ops, id);
    var side := ConstantSide(ops, id);
    value, c := ops[id - 1].operands[1 - side], ops[id - 1].operands[side];
    assert TypedAt(ops, c);
  }

  lemma RewrittenConstant(ops: seq<Operation>, r: seq<Operation>, id: NodeId, value: NodeId, c: NodeId)
    requires TypedOperations(ops) && Rewritten(ops, r, id, value, c)
    ensures ops[c - 1].width == ops[value - 1].width == ops[id - 1].width > 0
    ensures ValueOf(ops[c - 1].bits) == Pow2(Shift(ops, c))
    ensures Shift(ops, c) < Pow2(ops[c - 1].width)
  {
    assert TypedAt(ops, id) && TypedAt(ops, c);
    SingleOne(ops[c - 1].bits);
    Pow2Exceeds(ops[c - 1].width);
  }

  lemma RewrittenTyped(ops: seq<Operation>, r: seq<Operation>, id: NodeId, value: NodeId, c: NodeId)
    requires TypedOperations(ops) && Rewritten(ops, r, id, value, c)
    ensures TypedOperations(r) && SameShape(ops, r)
  {
    forall j: NodeId | InRange(r, j)
      ensures TypedAt(r, j)
    {
      RewrittenTypedAt(ops, r, id, value, c, j);
    }
  }

  lemma ShiftTypedAt(ops: seq<Operation>, r: seq<Operation>, id: NodeId, value: NodeId, c: NodeId)
    requires TypedOperations(ops) && Rewritten(ops, r, id, value, c)
    ensures TypedAt(r, id) && TypedAt(r, c)
  {
    hide ValidBits, ValueOf, Shift, Ones;
    RewrittenConstant(ops, r, id, value, c);
    assert TypedAt(ops, id) && TypedAt(ops, c);
    assert r[id - 1].width == r[c - 1].width == r[value - 1].width;
    assert OperandWidths(r, id) == [ops[id - 1].width, ops[id - 1].width];
    assert OperandWidths(r, c) == [];
  }

  lemma RewrittenTypedAt(ops: seq<Operation>, r: seq<Operation>, id: NodeId, value: NodeId, c: NodeId, j: NodeId)
    requires TypedOperations(ops) && Rewritten(ops, r, id, value, c) && InRange(r, j)
    ensures TypedAt(r, j)
  {
    hide Typed;
    if j == id || j == c {
      ShiftTypedAt(ops, r, id, value, c);
    } else {
      assert TypedAt(ops, j);
      assert r[j - 1] == ops[j - 1];
      RewrittenConstant(ops, r, id, value, c);
      SameWidths(ops, r, id, value, c, j);
    }
  }

  lemma SameWidths(ops: seq<Operation>, r: seq<Operation>, id: NodeId, value: NodeId, c: NodeId, j: NodeId)
    requires Rewritten(ops, r, id, value, c) && InRange(r, j) && r[j - 1] == ops[j - 1] && Dominated(ops, j)
    ensures Dominated(r, j) && OperandWidths(r, j) == OperandWidths(ops, j)
  {
    var operands := ops[j - 1].operands;
    forall k | 0 <= k < |operands|
      ensures r[operands[k] - 1].width == ops[operands[k] - 1].width
    {
      assert InRange(ops, operands[k]);
    }
  }

  /** Shifting by k is multiplying or dividing by the k-th power of two. */
  lemma ScalingIsShift(width: nat, a: nat, b: nat, shift: nat)
    requires width > 0 && a < Pow2(width) && b < Pow2(width) && shift < Pow2(width) && b == Pow2(shift)
    ensures ArithmeticResult(Mul, width, a, b) == ArithmeticResult(Mul, width, b, a) == ArithmeticResult(Sll, width, a, shift)
    ensures ArithmeticResult(Udiv, width, a, b) == ArithmeticResult(Srl, width, a, shift)
  {
    assert a * b == b * a;
  }

  lemma RewrittenReads(ops: seq<Operation>, r: seq<Operation>, id: NodeId, value: NodeId, c: NodeId, env: Env)
    requires TypedOperations(ops) && TypedOperations(r) && Rewritten(ops, r, id, value, c)
    ensures InRange(ops, c) && Eval(ops, c, env) == Pow2(Shift(ops, c)) && Eval(r, c, env) == Shift(ops, c)
  {
    hide ArithmeticResult, BitsOf, AfterLastOne, Pow2;
    RewrittenConstant(ops, r, id, value, c);
    assert TypedAt(ops, c) && TypedAt(r, c);
    ValueOfBitsOf(Shift(ops, c), ops[id - 1].width);
  }

  lemma RewrittenValue(ops: seq<Operation>, r: seq<Operation>, id: NodeId, value: NodeId, c: NodeId, env: Env)
    requires TypedOperations(ops) && TypedOperations(r) && Rewritten(ops, r, id, value, c)
    requires Eval(r, value, env) == Eval(ops, value, env)
    ensures Eval(r, id, env) == Eval(ops, id, env)
  {
    hide ArithmeticResult, ValueOf, BitsOf, AfterLastOne, Pow2, Shift;
    var o := ops[id - 1];
    RewrittenConstant(ops, r, id, value, c);
    assert TypedAt(r, id) && TypedAt(ops, id);
    RewrittenReads(ops, r, id, value, c, env);
    var a, b := Eval(ops, value, env), Eval(ops, c, env);
    ScalingIsShift(o.width, a, b, Shift(ops, c));
    assert Eval(r, id, env) == ArithmeticResult(r[id - 1].opcode.arithmetic, o.width, a, Shift(ops, c));
    assert Eval(ops, id, env) == if o.operands == [value, c] then ArithmeticResult(o.opcode.arithmetic, o.width, a, b)
                                 else ArithmeticResult(o.opcode.arithmetic, o.width, b, a);
  }

  /** An operation other than the shift does not read the overwritten constant. */
  lemma OtherOperation(ops: seq<Operation>, r: seq<Operation>, j: NodeId, env: Env)
    requires TypedOperations(ops) && TypedOperations(r) && SameShape(ops, r) && InRange(ops, j)
    requires r[j - 1] == ops[j - 1] && TypedAt(ops, j)
    requires var operands := ops[j - 1].operands;
             forall k :: 0 <= k < |operands| ==> Eval(r, operands[k], env) == Eval(ops, operands[k], env)
    ensures Eval(r, j, env) == Eval(ops, j, env)
  {
    assert TypedAt(r, j);
    assert OperandWidths(r, j) == OperandWidths(ops, j);
    assert OperandValues(r, j, env) == OperandValues(ops, j, env);
  }

  /** Only operation `id`, once, refers to `c`. */
  ghost predicate Owned(sys: Sys, id: NodeId, c: NodeId) {
    && InRange(sys.operations, id) && Occurrences(sys.operations[id - 1].operands, c) == 1
    && (forall j: NodeId :: InRange(sys.operations, j) && j != id ==> c !in sys.operations[j - 1].operands)
    && !Root(sys, c)
  }

  /** Every operation except the overwritten constant keeps its value. */
  lemma {:induction false} RewrittenEval(sys: Sys, r: seq<Operation>, id: NodeId, value: NodeId, c: NodeId, j: NodeId, env: Env)
    requires WellTyped(sys) && TypedOperations(r) && SameShape(sys.operations, r)
    requires Rewritten(sys.operations, r, id, value, c) && Owned(sys, id, c)
    requires InRange(sys.operations, j) && j != c
    ensures Eval(r, j, env) == Eval(sys.operations, j, env)
    decreases j
  {
    var ops := sys.operations;
    assert TypedAt(ops, j);
    if j == id {
      TwiceOccurs(ops[id - 1].operands, c);
      RewrittenEval(sys, r, id, value, c, value, env);
      RewrittenValue(ops, r, id, value, c, env);
    } else {
      var operands := ops[j - 1].operands;
      forall k | 0 <= k < |operands|
        ensures Eval(r, operands[k], env) == Eval(ops, operands[k], env)
      {
        RewrittenEval(sys, r, id, value, c, operands[k], env);
      }
      OtherOperation(ops, r, j, env);
    }
  }

  lemma TwiceOccurs(list: seq<NodeId>, c: NodeId)
    requires |list| == 2 && Occurrences(list, c) == 1
    ensures !(list[0] == c && list[1] == c)
  {
    assert list[..1] == [list[0]];
    assert list[..1][..0] == [];
  }

  // ----- the references do not change -----

  lemma SwappedOccurrences(a: NodeId, b: NodeId, x: NodeId)
    ensures Occurrences([a, b], x) == Occurrences([b, a], x)
  {
    assert [a, b][..1] == [a] && [b, a][..1] == [b];
    assert [a][..0] == [] && [b][..0] == [];
  }

  lemma {:induction false} OperandUsesSame(ops: seq<Operation>, ops': seq<Operation>, n: nat, x: NodeId)
    requires n <= |ops| == |ops'|
    requires forall k :: 0 <= k < |ops| ==> Occurrences(ops[k].operands, x) == Occurrences(ops'[k].operands, x)
    ensures Occurrences(OperandUses(ops, n), x) == Occurrences(OperandUses(ops', n), x)
  {
    if n != 0 {
      OperandUsesSame(ops, ops', n - 1, x);
      OccurrencesAppend(OperandUses(ops, n - 1), ops[n - 1].operands, x);
      OccurrencesAppend(OperandUses(ops', n - 1), ops'[n - 1].operands, x);
    }
  }

  lemma RewrittenCounts(sys: Sys, r: seq<Operation>, uses: seq<nat>, id: NodeId, value: NodeId, c: NodeId)
    requires Rewritten(sys.operations, r, id, value, c) && Counts(uses, References(sys))
    ensures Counts(uses, References(sys.(operations := r)))
  {
    var ops := sys.operations;
    forall x: NodeId | x < |uses|
      ensures uses[x] == Occurrences(References(sys.(operations := r)), x)
    {
      SwappedOccurrences(value, c, x);
      OperandUsesSame(ops, r, |ops|, x);
      OccurrencesAppend(OperandUses(ops, |ops|), RootUses(sys), x);
      OccurrencesAppend(OperandUses(r, |ops|), RootUses(sys), x);
      assert RootUses(sys.(operations := r)) == RootUses(sys);
    }
  }

  // ----- the pass -----

  ghost predicate Counted(sys: Sys, uses: seq<nat>) {
    WellTyped(sys) && |uses| == |sys.operations| + 1 && Counts(uses, References(sys))
  }

  /** One step keeps the module well typed, and the use counts exact. */
  lemma ReducedCounted(sys: Sys, uses: seq<nat>, id: NodeId)
    requires Counted(sys, uses) && InRange(sys.operations, id)
    ensures var sys' := sys.(operations := Reduced(sys.operations, uses, id));
            && Counted(sys', uses) && SameShape(sys.operations, sys'.operations)
  {
    var r := Reduced(sys.operations, uses, id);
    if Reducible(sys.operations, uses, id) {
      var value, c := ReducedIsRewritten(sys.operations, uses, id);
      RewrittenTyped(sys.operations, r, id, value, c);
      RewrittenCounts(sys, r, uses, id, value, c);
      InPlaceTyped(sys, r);
    } else {
      assert sys == sys.(operations := r);
    }
  }

  lemma RewrittenRefines(sys: Sys, r: seq<Operation>, id: NodeId, value: NodeId, c: NodeId)
    requires WellTyped(sys) && WellTyped(sys.(operations := r)) && SameShape(sys.operations, r)
    requires Rewritten(sys.operations, r, id, value, c) && Owned(sys, id, c)
    ensures Refines(sys, sys.(operations := r), Identity(|sys.operations|))
  {
    forall j: NodeId | Root(sys, j) && j > 0
      ensures SameAt(sys.operations, r, j)
    {
      RootInRange(sys, j);
      forall env: Env
        ensures Eval(r, j, env) == Eval(sys.operations, j, env)
      {
        RewrittenEval(sys, r, id, value, c, j, env);
      }
    }
    InPlaceRefines(sys, r);
  }

  /** One step preserves behaviour. */
  lemma ReducedRefines(sys: Sys, uses: seq<nat>, id: NodeId)
    requires Counted(sys, uses) && InRange(sys.operations, id)
    requires Counted(sys.(operations := Reduced(sys.operations, uses, id)), uses)
    ensures Refines(sys, sys.(operations := Reduced(sys.operations, uses, id)), Identity(|sys.operations|))
  {
    var r := Reduced(sys.operations, uses, id);
    if Reducible(sys.operations, uses, id) {
      var value, c := ReducedIsRewritten(sys.operations, uses, id);
      RewrittenTyped(sys.operations, r, id, value, c);
      SoleOwner(sys, id, c);
      RewrittenRefines(sys, r, id, value, c);
    } else {
      assert sys == sys.(operations := r);
      RefinesSelf(sys);
    }
  }

  lemma ReducedTyped(ops: seq<Operation>, uses: seq<nat>, id: NodeId)
    requires TypedOperations(ops) && InRange(ops, id) && |uses| == |ops| + 1
    ensures TypedOperations(Reduced(ops, uses, id)) && SameShape(ops, Reduced(ops, uses, id))
  {
    if Reducible(ops, uses, id) {
      var value, c := ReducedIsRewritten(ops, uses, id);
      RewrittenTyped(ops, Reduced(ops, uses, id), id, value, c);
    }
  }

  /** The operations after considering the first `n`, in order. */
  function ReducedUpTo(ops: seq<Operation>, uses: seq<nat>, n: nat): (r: seq<Operation>)
    requires TypedOperations(ops) && n <= |ops| && |uses| == |ops| + 1
    ensures TypedOperations(r) && SameShape(ops, r)
  {
    if n == 0 then ops
    else
      var before := ReducedUpTo(ops, uses, n - 1);
      ReducedTyped(before, uses, n);
      Reduced(before, uses, n)
  }

  lemma {:induction false} ReducedUpToRefines(sys: Sys, uses: seq<nat>, n: nat)
    requires Counted(sys, uses) && n <= |sys.operations|
    ensures Counted(sys.(operations := ReducedUpTo(sys.operations, uses, n)), uses)
    ensures Refines(sys, sys.(operations := ReducedUpTo(sys.operations, uses, n)), Identity(|sys.operations|))
  {
    hide Refines, Reduced, Counts, TypedOperations, TypedState, TypedProperty;
    if n == 0 {
      assert sys == sys.(operations := ReducedUpTo(sys.operations, uses, 0));
      RefinesSelf(sys);
    } else {
      ReducedUpToRefines(sys, uses, n - 1);
      var before := sys.(operations := ReducedUpTo(sys.operations, uses, n - 1));
      var after := sys.(operations := ReducedUpTo(sys.operations, uses, n));
      assert after == before.(operations := Reduced(before.operations, uses, n));
      ReducedCounted(before, uses, n);
      ReducedRefines(before, uses, n);
      InPlaceTransitive(sys, before, after);
    }
  }

  /** The exact use counts of a system. */
  function UseCounts(sys: Sys): (uses: seq<nat>)
    ensures |uses| == |sys.operations| + 1 && Counts(uses, References(sys))
  {
    seq(|sys.operations| + 1, id requires 0 <= id => Occurrences(References(sys), id))
  }

  function Strengthened(sys: Sys): Sys
    requires TypedOperations(sys.operations)
  {
    sys.(operations := ReducedUpTo(sys.operations, UseCounts(sys), |sys.operations|))
  }

  lemma StrengthenedRefines(sys: Sys)
    requires WellTyped(sys)
    ensures WellTyped(Strengthened(sys))
    ensures Refines(sys, Strengthened(sys), Identity(|sys.operations|))
  {
    assert Counted(sys, UseCounts(sys));
    ReducedUpToRefines(sys, UseCounts(sys), |sys.operations|);
  }

  // ----- progress -----

  /** Multiplications and divisions among the first `n` operations. */
  function Scalings(ops: seq<Operation>, n: nat): nat
    requires n <= |ops|
  {
    if n == 0 then 0 else Scalings(ops, n - 1) + if IsScaling(ops[n - 1]) then 1 else 0
  }

  lemma {:induction false} ScalingRemoved(ops: seq<Operation>, ops': seq<Operation>, n: nat, k: nat)
    requires n <= |ops| == |ops'| && k < |ops| && IsScaling(ops[k]) && !IsScaling(ops'[k])
    requires forall j :: 0 <= j < |ops| && j != k ==> ops'[j].opcode == ops[j].opcode
    ensures Scalings(ops', n) == if k < n then Scalings(ops, n) - 1 else Scalings(ops, n)
  {
    if n != 0 {
      ScalingRemoved(ops, ops', n - 1, k);
    }
  }

  /** A step either does nothing or leaves one multiplication or division less. */
  lemma ReducedProgress(ops: seq<Operation>, uses: seq<nat>, id: NodeId)
    requires TypedOperations(ops) && InRange(ops, id) && |uses| == |ops| + 1
    ensures var r := Reduced(ops, uses, id);
            if Reducible(ops, uses, id) then Scalings(r, |r|) == Scalings(ops, |ops|) - 1 else r == ops
  {
    if Reducible(ops, uses, id) {
      var value, c := ReducedIsRewritten(ops, uses, id);
      ScalingRemoved(ops, Reduced(ops, uses, id), |ops|, id - 1);
    }
  }

  method ReduceOperation(ops: seq<Operation>, uses: seq<nat>, id: NodeId) returns (changed: bool, r: seq<Operation>)
    requires TypedOperations(ops) && InRange(ops, id) && |uses| == |ops| + 1
    ensures changed == Reducible(ops, uses, id) && r == Reduced(ops, uses, id)
  {
    var operation := ops[id - 1];
    if !IsScaling(operation) {
      return false, ops;
    }
    assert TypedAt(ops, id);
    var side := ConstantSide(ops, id);
    var c, value := operation.operands[side], operation.operands[1 - side];
    var constant := ops[c - 1];
    if !constant.opcode.Const? || Ones(constant.bits) != 1 || uses[c] != 1 {
      return false, ops;
    }
    assert TypedAt(ops, c);
    SingleOne(constant.bits);
    Pow2Exceeds(constant.width);
    var bits := WriteBinary(AfterLastOne(constant.bits), constant.width);
    var opcode := Arith(if operation.opcode == Arith(Mul) then Sll else Srl);
    r := ops[id - 1 := operation.(opcode := opcode, operands := [value, c])][c - 1 := constant.(bits := bits)];
    return true, r;
  }

  /** `changed` tells whether the measure went down. */
  predicate Progress(ops: seq<Operation>, ops': seq<Operation>, changed: bool) {
    if changed then Scalings(ops', |ops'|) < Scalings(ops, |ops|) else ops' == ops
  }

  method ReduceStrength(m: Module) returns (changed: bool)
    requires WellTyped(m.View())
    modifies m
    ensures m.View() == Strengthened(old(m.View()))
    ensures Progress(old(m.operations), m.operations, changed)
  {
    var uses := CountUses(m);
    assert uses == UseCounts(m.View());
    changed := ReduceAll(m, uses);
  }

  method ReduceAll(m: Module, uses: seq<nat>) returns (changed: bool)
    requires TypedOperations(m.operations) && |uses| == |m.operations| + 1
    modifies m`operations
    ensures m.operations == ReducedUpTo(old(m.operations), uses, |old(m.operations)|)
    ensures Progress(old(m.operations), m.operations, changed)
  {
    hide Reduced, Reducible;
    ghost var ops := m.operations;
    changed := false;
    for id := 1 to |m.operations| + 1
      invariant m.operations == ReducedUpTo(ops, uses, id - 1)
      invariant Progress(ops, m.operations, changed)
    {
      ReducedProgress(m.operations, uses, id);
      var local, operations := ReduceOperation(m.operations, uses, id);
      m.operations := operations;
      changed := changed || local;
    }
  }
}
