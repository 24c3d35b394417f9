/** Value numbering: an operation is replaced by the first one with the same key. */
module CommonSubexpressionElimination {
  import opened Bits
  import opened TransitionSystem
  import opened Semantics
  import opened Refinement
  import opened PassSupport
  import opened Rebuilding
  import opened Replacement

  datatype Key = Key(opcode: Opcode, width: nat, operands: seq<NodeId>, immediates: seq<nat>, bits: string)

  predicate Commutes(opcode: Opcode) {
    match opcode
    case Arith(a) => a.And? || a.Or? || a.Xor? || a.Add? || a.Mul?
    case Compare(c) => c.Eq? || c.Neq?
    case _ => false
  }

  function ResolveAll(list: seq<NodeId>, vector: seq<NodeId>): (r: seq<NodeId>)
    requires Descending(vector)
    ensures |r| == |list|
  {
    seq(|list|, k requires 0 <= k < |list| => Resolved(list[k], vector))
  }

  /** Operands of commutative operators in ascending order. */
  function Normal(opcode: Opcode, operands: seq<NodeId>): seq<NodeId> {
    if Commutes(opcode) && |operands| == 2 && operands[1] < operands[0] then [operands[1], operands[0]] else operands
  }

  function KeyOf(o: Operation, vector: seq<NodeId>): Key
    requires Descending(vector)
  {
    Key(o.opcode, o.width, Normal(o.opcode, ResolveAll(o.operands, vector)), o.immediates, o.bits)
  }

  function KeyAt(ops: seq<Operation>, vector: seq<NodeId>, id: NodeId): Key
    requires InRange(ops, id) && Descending(vector)
  {
    KeyOf(ops[id - 1], vector)
  }

  predicate HasKey(ops: seq<Operation>, vector: seq<NodeId>, id: NodeId, key: Key)
    requires InRange(ops, id) && Descending(vector)
  {
    !IsLeaf(ops[id - 1].opcode) && KeyAt(ops, vector, id) == key
  }

  /** The first operation from `prior` on that has the key, or `id`. */
  function First(ops: seq<Operation>, vector: seq<NodeId>, prior: NodeId, id: NodeId, key: Key): (r: NodeId)
    requires 1 <= prior <= id && InRange(ops, id) && Descending(vector)
    ensures prior <= r <= id
    ensures r < id ==> HasKey(ops, vector, r, key)
    ensures forall j: NodeId :: prior <= j < r ==> !HasKey(ops, vector, j, key)
    decreases id - prior
  {
    if prior == id || HasKey(ops, vector, prior, key) then prior else First(ops, vector, prior + 1, id, key)
  }

  function Target(ops: seq<Operation>, vector: seq<NodeId>, id: NodeId): (r: NodeId)
    requires InRange(ops, id) && |vector| == id && Descending(vector)
    ensures 1 <= r <= id
  {
    if IsLeaf(ops[id - 1].opcode) then id else First(ops, vector, 1, id, KeyAt(ops, vector, id))
  }

  function Vector(ops: seq<Operation>, n: nat): (vector: seq<NodeId>)
    requires n <= |ops|
    ensures |vector| == n + 1 && Descending(vector)
  {
    if n == 0 then [0]
    else
      var before := Vector(ops, n - 1);
      before + [Target(ops, before, n)]
  }

  function Numbered(sys: Sys): Sys {
    Replaced(sys, Vector(sys.operations, |sys.operations|))
  }

  lemma {:induction false} ResolvedPrefix(id: NodeId, vector: seq<NodeId>, r: NodeId)
    requires Descending(vector) && 0 < r <= |vector| && id < |vector|
    ensures Descending(vector + [r]) && Resolved(id, vector + [r]) == Resolved(id, vector)
  {
    if vector[id] != id {
      ResolvedPrefix(vector[id], vector, r);
    }
  }

  /** The key of an earlier operation does not change while the vector grows. */
  lemma KeyStable(ops: seq<Operation>, vector: seq<NodeId>, r: NodeId, j: NodeId)
    requires Ordered(ops) && InRange(ops, j) && Descending(vector) && j <= |vector| && 0 < r <= |vector|
    ensures Descending(vector + [r]) && KeyAt(ops, vector + [r], j) == KeyAt(ops, vector, j)
  {
    assert Dominated(ops, j);
    var operands := ops[j - 1].operands;
    forall k | 0 <= k < |operands|
      ensures Resolved(operands[k], vector + [r]) == Resolved(operands[k], vector)
    {
      ResolvedPrefix(operands[k], vector, r);
    }
    assert ResolveAll(operands, vector + [r]) == ResolveAll(operands, vector);
  }

  /** The table holds, under each key, the first operation that has it. */
  ghost predicate Tabulates(ops: seq<Operation>, vector: seq<NodeId>, values: map<Key, NodeId>, id: NodeId)
    requires id <= |ops| + 1 && Descending(vector)
  {
    && (forall key :: key in values ==> 1 <= values[key] < id && HasKey(ops, vector, values[key], key))
    && (forall j: NodeId :: 1 <= j < id && !IsLeaf(ops[j - 1].opcode) ==>
          KeyAt(ops, vector, j) in values && values[KeyAt(ops, vector, j)] <= j)
  }

  lemma TabulatesLonger(ops: seq<Operation>, vector: seq<NodeId>, values: map<Key, NodeId>, id: NodeId, r: NodeId)
    requires Ordered(ops) && InRange(ops, id) && |vector| == id && 0 < r <= id && Descending(vector)
    requires Tabulates(ops, vector, values, id + 1)
    ensures Descending(vector + [r]) && Tabulates(ops, vector + [r], values, id + 1)
  {
    forall j: NodeId | 1 <= j <= id
      ensures KeyAt(ops, vector + [r], j) == KeyAt(ops, vector, j)
    {
      KeyStable(ops, vector, r, j);
    }
  }

  method ComputeKey(operation: Operation, replacement: seq<NodeId>) returns (key: Key)
    requires Descending(replacement)
    ensures key == KeyOf(operation, replacement)
  {
    var operands: seq<NodeId> := [];
    for k := 0 to |operation.operands|
      invariant operands == ResolveAll(operation.operands, replacement)[..k]
    {
      var operand := Resolve(operation.operands[k], replacement);
      operands := operands + [operand];
    }
    assert operands == ResolveAll(operation.operands, replacement);
    if Commutes(operation.opcode) && |operands| == 2 && operands[1] < operands[0] {
      operands := [operands[1], operands[0]];
    }
    return Key(operation.opcode, operation.width, operands, operation.immediates, operation.bits);
  }

  /** Looking the key up in the table finds the first operation that has it. */
  lemma TableFindsFirst(ops: seq<Operation>, vector: seq<NodeId>, values: map<Key, NodeId>, id: NodeId)
    requires InRange(ops, id) && |vector| == id && Descending(vector) && Tabulates(ops, vector, values, id)
    requires !IsLeaf(ops[id - 1].opcode)
    ensures var key := KeyAt(ops, vector, id);
            && Target(ops, vector, id) == (if key in values then values[key] else id)
            && Tabulates(ops, vector, if key in values then values else values[key := id], id + 1)
  {
    hide KeyAt;
    var key := KeyAt(ops, vector, id);
    var r := Target(ops, vector, id);
    if key in values {
      assert HasKey(ops, vector, values[key], key);
      assert r <= values[key];
    }
    if r < id {
      assert HasKey(ops, vector, r, key);
    }
  }

  lemma TableStarts(ops: seq<Operation>)
    ensures Tabulates(ops, [0], map[], 1)
  {
  }

  lemma TableSkipsLeaf(ops: seq<Operation>, vector: seq<NodeId>, values: map<Key, NodeId>, id: NodeId)
    requires InRange(ops, id) && Descending(vector) && Tabulates(ops, vector, values, id) && IsLeaf(ops[id - 1].opcode)
    ensures Tabulates(ops, vector, values, id + 1)
  {
  }

  method EliminateCommonSubexpressions(m: Module) returns (changed: bool)
    requires WellTyped(m.View())
    modifies m
    ensures m.View() == Numbered(old(m.View()))
    ensures changed == !ReplacesNothing(Vector(old(m.operations), |old(m.operations)|))
  {
    hide Tabulates, First, Replaced, Sound, TypedOperations, TypedState, TypedProperty, DistinctStates, Ordered, KeyOf;
    var ops := m.operations;
    TypedIsOrdered(ops);
    var values: map<Key, NodeId> := map[];
    var replacement: seq<NodeId> := [0];
    TableStarts(ops);
    for id := 1 to |ops| + 1
      invariant m.View() == old(m.View())
      invariant replacement == Vector(ops, id - 1)
      invariant Tabulates(ops, replacement, values, id)
    {
      var target := id;
      if !IsLeaf(ops[id - 1].opcode) {
        TableFindsFirst(ops, replacement, values, id);
        var key := ComputeKey(ops[id - 1], replacement);
        if key in values {
          target := values[key];
        } else {
          values := values[key := id];
        }
      } else {
        TableSkipsLeaf(ops, replacement, values, id);
      }
      TabulatesLonger(ops, replacement, values, id, target);
      replacement := replacement + [target];
    }
    VectorSound(ops, |ops|);
    var outcome;
    changed, outcome := ApplyReplacements(m, replacement);
  }

  // ----- soundness -----

  lemma CommutedResult(o: Operation, w: seq<nat>, v: seq<nat>)
    requires Commutes(o.opcode) && Typed(o, w) && InBounds(w, v)
    ensures Apply(o, [w[1], w[0]], [v[1], v[0]]) == Apply(o, w, v)
  {
    match o.opcode
    case Arith(a) =>
      BitwiseCommutes(v[0], v[1]);
      assert v[0] * v[1] == v[1] * v[0];
    case Compare(c) =>
  }

  lemma NormalCases(opcode: Opcode, a: seq<NodeId>, b: seq<NodeId>)
    requires Normal(opcode, a) == Normal(opcode, b)
    ensures a == b || (Commutes(opcode) && |a| == |b| == 2 && a[0] == b[1] && a[1] == b[0])
  {
  }

  /** Reading the operands through their replacements, in either order, gives the same result. */
  lemma KeyDetermines(ops: seq<Operation>, vector: seq<NodeId>, i: NodeId, j: NodeId, env: Env)
    requires TypedOperations(ops) && Sound(ops, vector) && Descending(vector) && 1 <= i <= |vector| && 1 <= j <= |vector|
    requires InRange(ops, i) && InRange(ops, j) && !IsLeaf(ops[i - 1].opcode) && !IsLeaf(ops[j - 1].opcode)
    requires KeyAt(ops, vector, i) == KeyAt(ops, vector, j)
    ensures Eval(ops, i, env) == Eval(ops, j, env)
  {
    hide Apply, Sound, Replaces, Normal, KeyOf, Commutes, Typed, Descending, Eval, OperandValues;
    var o, p := ops[i - 1], ops[j - 1];
    var ri, rj := ResolveAll(o.operands, vector), ResolveAll(p.operands, vector);
    KeyOperands(ops, vector, i, env);
    KeyOperands(ops, vector, j, env);
    KeyCases(o, p, vector);
    SameApplication(o, p, ReadWidths(ops, ri), ReadValues(ops, ri, env));
    if ri != rj {
      ReadSwapped(ops, ri, rj, env);
      CommutedResult(p, ReadWidths(ops, rj), ReadValues(ops, rj, env));
    }
  }

  predicate AllInRange(ops: seq<Operation>, ids: seq<NodeId>) {
    forall k :: 0 <= k < |ids| ==> InRange(ops, ids[k])
  }

  function ReadWidths(ops: seq<Operation>, ids: seq<NodeId>): (w: seq<nat>)
    requires AllInRange(ops, ids)
    ensures |w| == |ids| && forall k :: 0 <= k < |ids| ==> w[k] == ops[ids[k] - 1].width
  {
    seq(|ids|, k requires 0 <= k < |ids| => ops[ids[k] - 1].width)
  }

  ghost function ReadValues(ops: seq<Operation>, ids: seq<NodeId>, env: Env): (v: seq<nat>)
    requires TypedOperations(ops) && AllInRange(ops, ids)
    ensures |v| == |ids| && forall k :: 0 <= k < |ids| ==> v[k] == Eval(ops, ids[k], env)
  {
    seq(|ids|, k requires 0 <= k < |ids| => Eval(ops, ids[k], env))
  }

  lemma ReadSwapped(ops: seq<Operation>, a: seq<NodeId>, b: seq<NodeId>, env: Env)
    requires TypedOperations(ops) && AllInRange(ops, a) && AllInRange(ops, b)
    requires |a| == |b| == 2 && a[0] == b[1] && a[1] == b[0]
    ensures |ReadWidths(ops, b)| == |ReadValues(ops, b, env)| == 2
    ensures ReadWidths(ops, a) == [ReadWidths(ops, b)[1], ReadWidths(ops, b)[0]]
    ensures ReadValues(ops, a, env) == [ReadValues(ops, b, env)[1], ReadValues(ops, b, env)[0]]
  {
    hide ReadWidths, ReadValues, Eval;
  }

  lemma KeyCases(o: Operation, p: Operation, vector: seq<NodeId>)
    requires Descending(vector) && KeyOf(o, vector) == KeyOf(p, vector)
    ensures o.opcode == p.opcode && o.width == p.width && o.immediates == p.immediates && o.bits == p.bits
    ensures var a, b := ResolveAll(o.operands, vector), ResolveAll(p.operands, vector);
            a == b || (Commutes(o.opcode) && |a| == |b| == 2 && a[0] == b[1] && a[1] == b[0])
  {
    NormalCases(o.opcode, ResolveAll(o.operands, vector), ResolveAll(p.operands, vector));
  }

  /** Symbols do not take part in the result. */
  lemma SameApplication(o: Operation, p: Operation, w: seq<nat>, v: seq<nat>)
    requires Typed(o, w) && InBounds(w, v) && !IsLeaf(o.opcode)
    requires o.opcode == p.opcode && o.width == p.width && o.immediates == p.immediates && o.bits == p.bits
    ensures Typed(p, w) && Apply(o, w, v) == Apply(p, w, v)
  {
  }

  lemma ReadOperands(ops: seq<Operation>, i: NodeId, r: seq<NodeId>, env: Env)
    requires TypedOperations(ops) && InRange(ops, i) && !IsLeaf(ops[i - 1].opcode)
    requires |r| == |ops[i - 1].operands|
    requires forall k :: 0 <= k < |r| ==> InRange(ops, ops[i - 1].operands[k]) && Replaces(ops, ops[i - 1].operands[k], r[k])
    ensures TypedAt(ops, i) && AllInRange(ops, r)
    ensures ReadWidths(ops, r) == OperandWidths(ops, i) && ReadValues(ops, r, env) == OperandValues(ops, i, env)
    ensures Eval(ops, i, env) == Apply(ops[i - 1], OperandWidths(ops, i), OperandValues(ops, i, env))
  {
    hide Apply, Typed;
    assert TypedAt(ops, i);
  }

  lemma KeyOperands(ops: seq<Operation>, vector: seq<NodeId>, i: NodeId, env: Env)
    requires TypedOperations(ops) && Sound(ops, vector) && Descending(vector) && 1 <= i <= |vector| && InRange(ops, i)
    requires !IsLeaf(ops[i - 1].opcode)
    ensures var r := ResolveAll(ops[i - 1].operands, vector);
            && AllInRange(ops, r) && Typed(ops[i - 1], ReadWidths(ops, r))
            && InBounds(ReadWidths(ops, r), ReadValues(ops, r, env))
            && Eval(ops, i, env) == Apply(ops[i - 1], ReadWidths(ops, r), ReadValues(ops, r, env))
  {
    hide Apply, Typed, Sound, Resolved;
    assert TypedAt(ops, i);
    var operands := ops[i - 1].operands;
    var r := ResolveAll(operands, vector);
    forall k | 0 <= k < |operands|
      ensures Replaces(ops, operands[k], r[k])
    {
      ResolvedReplaces(ops, vector, operands[k]);
    }
    ReadOperands(ops, i, r, env);
  }

  lemma TargetReplaces(ops: seq<Operation>, vector: seq<NodeId>, id: NodeId)
    requires TypedOperations(ops) && InRange(ops, id) && |vector| == id && Descending(vector) && Sound(ops, vector)
    ensures Replaces(ops, id, Target(ops, vector, id))
  {
    var r := Target(ops, vector, id);
    if r != id {
      forall env: Env
        ensures Eval(ops, id, env) == Eval(ops, r, env)
      {
        KeyDetermines(ops, vector, id, r, env);
      }
    }
  }

  lemma {:induction false} VectorSound(ops: seq<Operation>, n: nat)
    requires TypedOperations(ops) && n <= |ops|
    ensures Sound(ops, Vector(ops, n))
  {
    hide Target, Replaces;
    if n != 0 {
      VectorSound(ops, n - 1);
      TargetReplaces(ops, Vector(ops, n - 1), n);
      SoundExtends(ops, Vector(ops, n - 1), Target(ops, Vector(ops, n - 1), n));
    }
  }

  lemma NumberedRefines(sys: Sys)
    requires WellTyped(sys)
    ensures WellTyped(Numbered(sys))
    ensures exists back :: Refines(sys, Numbered(sys), back)
  {
    VectorSound(sys.operations, |sys.operations|);
    ReplacedRefines(sys, Vector(sys.operations, |sys.operations|));
  }
}
