/** Boolean circuits: what each one-bit operation of a growing system means. */
module Gates {
  import opened Bits
  import opened TransitionSystem
  import opened Semantics
  import opened Refinement
  import opened Builder

  /** A Boolean function of the inputs and states. */
  type Meaning = Env -> bool

  function Constantly(b: bool): Meaning {
    (env: Env) => b
  }

  function NotOf(f: Meaning): Meaning {
    (env: Env) => !f(env)
  }

  function AndOf(f: Meaning, g: Meaning): Meaning {
    (env: Env) => f(env) && g(env)
  }

  function OrOf(f: Meaning, g: Meaning): Meaning {
    (env: Env) => f(env) || g(env)
  }

  function IteOf(c: Meaning, f: Meaning, g: Meaning): Meaning {
    (env: Env) => if c(env) then f(env) else g(env)
  }

  /** The meaning of a one-bit input or state. */
  function Leaf(id: NodeId): Meaning {
    (env: Env) => env(id) % 2 == 1
  }

  ghost predicate Means(ops: seq<Operation>, id: NodeId, f: Meaning) {
    TypedOperations(ops) && IsBoolean(ops, id) && forall env: Env :: Bit(ops, id, env) == f(env)
  }

  lemma MeansBoolean(ops: seq<Operation>, id: NodeId, f: Meaning)
    requires Means(ops, id, f)
    ensures TypedOperations(ops) && IsBoolean(ops, id)
  {
  }

  predicate IsStateBit(ops: seq<Operation>, id: NodeId) {
    IsStateVar(ops, id) && IsBoolean(ops, id)
  }

  /** Every circuit and every one-bit state of `ops` is still there, unchanged, in `ops'`. */
  ghost predicate Carries(ops: seq<Operation>, ops': seq<Operation>) {
    && (forall id: NodeId, f: Meaning {:trigger Means(ops', id, f)} :: Means(ops, id, f) ==> Means(ops', id, f))
    && (forall id: NodeId {:trigger IsStateBit(ops', id)} :: IsStateBit(ops, id) ==> IsStateBit(ops', id))
  }

  lemma MeansKept(ops: seq<Operation>, ops': seq<Operation>, id: NodeId, f: Meaning)
    requires Carries(ops, ops') && Means(ops, id, f)
    ensures Means(ops', id, f)
  {
  }

  lemma CarriesSelf(ops: seq<Operation>)
    ensures Carries(ops, ops)
  {
  }

  lemma CarriesTransitive(a: seq<Operation>, b: seq<Operation>, c: seq<Operation>)
    requires Carries(a, b) && Carries(b, c)
    ensures Carries(a, c)
  {
    hide Means, IsStateBit;
  }

  lemma GrowsCarries(a: Sys, b: Sys)
    requires Grows(a, b)
    ensures Carries(a.operations, b.operations)
  {
    forall id: NodeId | InRange(a.operations, id)
      ensures InRange(b.operations, id) && b.operations[id - 1] == a.operations[id - 1]
    {
      GrowsEval(a, b, id, _ => 0);
    }
    forall id: NodeId, f: Meaning | Means(a.operations, id, f)
      ensures Means(b.operations, id, f)
    {
      forall env: Env
        ensures IsBoolean(b.operations, id) && Bit(b.operations, id, env) == f(env)
      {
        GrowsBit(a, b, id, env);
      }
    }
  }

  lemma LeafMeans(ops: seq<Operation>, id: NodeId)
    requires TypedOperations(ops) && IsBoolean(ops, id) && IsLeaf(ops[id - 1].opcode)
    ensures Means(ops, id, Leaf(id))
  {
    assert Pow2(1) == 2 * Pow2(0) && Pow2(0) == 1;
  }

  lemma BitOperators(a: nat, b: nat)
    requires a < 2 && b < 2
    ensures BitAnd(a, b) == Flag(a == 1 && b == 1)
    ensures BitOr(a, b) == Flag(a == 1 || b == 1)
  {
    assert BitAnd(0, 0) == 0 && BitOr(0, 0) == 0;
  }

  /** Conjunction, disjunction and equality of two Boolean operands. */
  lemma PairMeans(ops: seq<Operation>, o: Operation, f: Meaning, g: Meaning)
    requires TypedOperations(ops) && TypedOperations(ops + [o]) && CanAppend(ops, o)
    requires o.opcode in {Arith(And), Arith(Or)} && o.width == 1
    requires |o.operands| == 2 && Means(ops, o.operands[0], f) && Means(ops, o.operands[1], g)
    ensures Means(ops + [o], |ops| + 1, if o.opcode == Arith(And) then AndOf(f, g) else OrOf(f, g))
  {
    hide BitAnd, BitOr, BitXor, Eval;
    forall env: Env
      ensures Bit(ops + [o], |ops| + 1, env) == if o.opcode == Arith(And) then f(env) && g(env) else f(env) || g(env)
    {
      AppendedValue(ops, o, env);
      BitCases(ops, o.operands[0], env);
      BitCases(ops, o.operands[1], env);
      BitOperators(Eval(ops, o.operands[0], env), Eval(ops, o.operands[1], env));
    }
  }

  lemma NotMeans(ops: seq<Operation>, o: Operation, f: Meaning)
    requires TypedOperations(ops) && TypedOperations(ops + [o]) && CanAppend(ops, o)
    requires o.opcode.Not? && o.width == 1 && |o.operands| == 1 && Means(ops, o.operands[0], f)
    ensures Means(ops + [o], |ops| + 1, NotOf(f))
  {
    hide Eval;
    forall env: Env
      ensures Bit(ops + [o], |ops| + 1, env) == !f(env)
    {
      AppendedValue(ops, o, env);
      BitCases(ops, o.operands[0], env);
      assert Pow2(1) == 2 * Pow2(0) && Pow2(0) == 1;
    }
  }

  lemma IteMeans(ops: seq<Operation>, o: Operation, c: Meaning, f: Meaning, g: Meaning)
    requires TypedOperations(ops) && TypedOperations(ops + [o]) && CanAppend(ops, o)
    requires o.opcode.Ite? && o.width == 1 && |o.operands| == 3
    requires Means(ops, o.operands[0], c) && Means(ops, o.operands[1], f) && Means(ops, o.operands[2], g)
    ensures Means(ops + [o], |ops| + 1, IteOf(c, f, g))
  {
    hide Eval;
    forall env: Env
      ensures Bit(ops + [o], |ops| + 1, env) == if c(env) then f(env) else g(env)
    {
      SelectedValue(ops, o, env);
    }
  }

  // ----- gates -----

  /** Appends an operation to a system that grew from `base`. */
  method EmitOn(m: Module, ghost base: Sys, o: Operation) returns (v: Value)
    requires Grows(base, m.View()) && CanAppend(m.operations, o)
    modifies m`operations
    ensures Grows(base, m.View()) && m.operations == old(m.operations) + [o]
    ensures v == Value(|m.operations|, o.width) && Carries(old(m.operations), m.operations)
    ensures TypedOperations(old(m.operations)) && TypedOperations(m.operations)
  {
    ghost var before := m.View();
    v := Emit(m, o);
    GrowsTransitive(base, before, m.View());
    GrowsCarries(before, m.View());
  }

  method Constant(m: Module, ghost base: Sys, value: bool) returns (v: Value)
    requires Grows(base, m.View())
    modifies m`operations
    ensures Grows(base, m.View()) && v.width == 1 && Means(m.operations, v.node, Constantly(value))
    ensures Carries(old(m.operations), m.operations)
  {
    hide Grows, Carries;
    v := EmitOn(m, base, Operation(Const, 1, [], [], "", if value then "1" else "0"));
    assert TypedAt(m.operations, v.node);
    assert ValueOf("") == 0 && "1"[..0] == "" && "0"[..0] == "";
    assert ValueOf("1") == 1 && ValueOf("0") == 0;
  }

  method LogicalNot(m: Module, ghost base: Sys, a: Value, ghost f: Meaning) returns (v: Value)
    requires Grows(base, m.View()) && Means(m.operations, a.node, f)
    modifies m`operations
    ensures Grows(base, m.View()) && v.width == 1 && Means(m.operations, v.node, NotOf(f))
    ensures Carries(old(m.operations), m.operations)
  {
    hide Grows, Carries;
    var o := Operation(Not, 1, [a.node], [], "", "");
    v := EmitOn(m, base, o);
    NotMeans(old(m.operations), o, f);
  }

  method LogicalAnd(m: Module, ghost base: Sys, a: Value, b: Value, ghost f: Meaning, ghost g: Meaning) returns (v: Value)
    requires Grows(base, m.View()) && Means(m.operations, a.node, f) && Means(m.operations, b.node, g)
    modifies m`operations
    ensures Grows(base, m.View()) && v.width == 1 && Means(m.operations, v.node, AndOf(f, g))
    ensures Carries(old(m.operations), m.operations)
  {
    hide Grows, Carries;
    var o := Operation(Arith(And), 1, [a.node, b.node], [], "", "");
    v := EmitOn(m, base, o);
    PairMeans(old(m.operations), o, f, g);
  }

  method LogicalOr(m: Module, ghost base: Sys, a: Value, b: Value, ghost f: Meaning, ghost g: Meaning) returns (v: Value)
    requires Grows(base, m.View()) && Means(m.operations, a.node, f) && Means(m.operations, b.node, g)
    modifies m`operations
    ensures Grows(base, m.View()) && v.width == 1 && Means(m.operations, v.node, OrOf(f, g))
    ensures Carries(old(m.operations), m.operations)
  {
    hide Grows, Carries;
    var o := Operation(Arith(Or), 1, [a.node, b.node], [], "", "");
    v := EmitOn(m, base, o);
    PairMeans(old(m.operations), o, f, g);
  }

  method Conditional(m: Module, ghost base: Sys, c: Value, a: Value, b: Value,
                     ghost h: Meaning, ghost f: Meaning, ghost g: Meaning) returns (v: Value)
    requires Grows(base, m.View())
    requires Means(m.operations, c.node, h) && Means(m.operations, a.node, f) && Means(m.operations, b.node, g)
    modifies m`operations
    ensures Grows(base, m.View()) && v.width == 1 && Means(m.operations, v.node, IteOf(h, f, g))
    ensures Carries(old(m.operations), m.operations)
  {
    hide Grows, Carries;
    var o := Operation(Ite, 1, [c.node, a.node, b.node], [], "", "");
    v := EmitOn(m, base, o);
    IteMeans(old(m.operations), o, h, f, g);
  }

  // ----- registers -----

  /** Records of one-bit registers after those of `base`: all have an init relation, the first ones a next relation. */
  ghost predicate Registers(base: Sys, sys: Sys, inits: seq<NodeId>, ids: seq<NodeId>, nexts: seq<NodeId>) {
    && Grows(base, sys) && |nexts| <= |ids| == |inits|
    && |sys.states| == |base.states| + |ids|
    && forall k :: 0 <= k < |ids| ==>
         && IsStateBit(sys.operations, ids[k]) && ids[k] > |base.operations|
         && sys.states[|base.states| + k] == State(ids[k], Some(inits[k]), if k < |nexts| then Some(nexts[k]) else None)
  }

  lemma NoRegisters(base: Sys, sys: Sys)
    requires Grows(base, sys) && sys.states == base.states
    ensures Registers(base, sys, [], [], [])
  {
  }

  lemma RegistersGrow(base: Sys, sys: Sys, inits: seq<NodeId>, ids: seq<NodeId>, nexts: seq<NodeId>)
    requires Registers(base, sys, inits, ids, nexts)
    ensures Grows(base, sys) && WellTyped(sys)
  {
  }

  /** Operations and properties that were appended do not disturb the records. */
  lemma RegistersKept(base: Sys, sys: Sys, sys': Sys, inits: seq<NodeId>, ids: seq<NodeId>, nexts: seq<NodeId>)
    requires Registers(base, sys, inits, ids, nexts) && Grows(base, sys') && sys'.states == sys.states
    requires Carries(sys.operations, sys'.operations)
    ensures Registers(base, sys', inits, ids, nexts)
  {
    hide Grows, Means, IsStateBit;
  }

  /** Declares a register with a one-bit initial value. */
  method Declare(m: Module, ghost base: Sys, initial: Value, name: string, ghost inits: seq<NodeId>, ghost ids: seq<NodeId>)
    returns (v: Value)
    requires Registers(base, m.View(), inits, ids, []) && IsBoolean(m.operations, initial.node) && initial.width == 1
    modifies m`operations, m`states
    ensures Registers(base, m.View(), inits + [initial.node], ids + [v.node], [])
    ensures v.width == 1 && Means(m.operations, v.node, Leaf(v.node)) && Carries(old(m.operations), m.operations)
  {
    hide Means, TypedOperations, TypedState, TypedProperty;
    ghost var before := m.View();
    v := NewRegister(m, initial, name);
    GrowsTransitive(base, before, m.View());
    GrowsCarries(before, m.View());
    LeafMeans(m.operations, v.node);
  }

  /** Completes the record of the next register in line. */
  method Drive(m: Module, ghost base: Sys, state: Value, next: Value,
               ghost inits: seq<NodeId>, ghost ids: seq<NodeId>, ghost nexts: seq<NodeId>)
    requires Registers(base, m.View(), inits, ids, nexts) && |nexts| < |ids|
    requires state == Value(ids[|nexts|], 1) && IsBoolean(m.operations, next.node) && next.width == 1
    modifies m`states
    ensures Registers(base, m.View(), inits, ids, nexts + [next.node])
  {
    hide TypedOperations, TypedState, TypedProperty;
    ghost var k := |base.states| + |nexts|;
    DriveNext(m, base, k, state, next);
  }

  /** A register that starts at `start` and then follows `g`. */
  ghost predicate BitRegister(sys: Sys, id: NodeId, start: bool, g: Meaning) {
    && WellTyped(sys) && IsStateBit(sys.operations, id)
    && InitOf(sys, id).Some? && Means(sys.operations, InitOf(sys, id).value, Constantly(start))
    && NextOf(sys, id).Some? && Means(sys.operations, NextOf(sys, id).value, g)
  }

  lemma RegisterDone(base: Sys, sys: Sys, inits: seq<NodeId>, ids: seq<NodeId>, nexts: seq<NodeId>, k: nat, start: bool, g: Meaning)
    requires Registers(base, sys, inits, ids, nexts) && k < |nexts|
    requires Means(sys.operations, inits[k], Constantly(start)) && Means(sys.operations, nexts[k], g)
    ensures BitRegister(sys, ids[k], start, g)
  {
    FindDistinct(sys.states, |base.states| + k);
  }

  /** What a register does in a run. */
  lemma BitRegisterRuns(sys: Sys, id: NodeId, start: bool, g: Meaning, run: Run, t: nat)
    requires BitRegister(sys, id, start, g) && IsRun(sys, run)
    ensures Leaf(id)(run(0)) == start
    ensures Leaf(id)(run(t + 1)) == g(run(t))
  {
    assert Starts(sys, run(0), id) && Steps(sys, run(t), run(t + 1), id);
    LeafMeans(sys.operations, id);
    assert Bit(sys.operations, id, run(0)) == Leaf(id)(run(0));
    assert Bit(sys.operations, InitOf(sys, id).value, run(0)) == Constantly(start)(run(0));
    assert Bit(sys.operations, id, run(t + 1)) == Leaf(id)(run(t + 1));
    assert Bit(sys.operations, NextOf(sys, id).value, run(t)) == g(run(t));
  }

  // ----- properties -----

  lemma PropertyGrows(base: Sys, sys: Sys, property: Property)
    requires Grows(base, sys) && TypedProperty(sys.operations, property)
    ensures Grows(base, sys.(properties := sys.properties + [property]))
  {
    hide TypedOperations;
    var properties := sys.properties + [property];
    forall k | 0 <= k < |properties|
      ensures TypedProperty(sys.operations, properties[k])
    {
      assert k < |sys.properties| ==> TypedProperty(sys.operations, sys.properties[k]);
    }
    assert properties[..|base.properties|] == sys.properties[..|base.properties|];
  }

  method Constrain(m: Module, ghost base: Sys, condition: Value, name: string)
    requires Grows(base, m.View()) && IsBoolean(m.operations, condition.node) && condition.width == 1
    modifies m`properties
    ensures Grows(base, m.View())
    ensures m.properties == old(m.properties) + [Property(Constraint, condition.node, name, [])]
  {
    PropertyGrows(base, m.View(), Property(Constraint, condition.node, name, []));
    var outcome := m.AddConstraint(condition, name);
  }

  method Require(m: Module, ghost base: Sys, condition: Value, name: string)
    requires Grows(base, m.View()) && IsBoolean(m.operations, condition.node) && condition.width == 1
    modifies m`properties
    ensures Grows(base, m.View())
    ensures m.properties == old(m.properties) + [Property(Justice, 0, name, [condition.node])]
  {
    PropertyGrows(base, m.View(), Property(Justice, 0, name, [condition.node]));
    var outcome := m.AddJustice([condition], name);
    assert m.properties[|m.properties| - 1].conditions == [condition.node];
  }

  // ----- adding registers restricts nothing -----

  lemma RegistersAdd(base: Sys, sys: Sys, inits: seq<NodeId>, ids: seq<NodeId>, nexts: seq<NodeId>)
    requires Registers(base, sys, inits, ids, nexts)
    ensures Adds(base, sys, ids)
  {
  }

  ghost predicate SameBelow(n: nat, env: Env, env': Env) {
    forall id: NodeId :: 1 <= id <= n ==> env(id) == env'(id)
  }

  ghost predicate Obeys(id: NodeId, start: bool, g: Meaning, run: Run) {
    Leaf(id)(run(0)) == start && forall t: nat :: Leaf(id)(run(t + 1)) == g(run(t))
  }

  /** A run of the base in which the new registers also obey their definitions is a run of the grown system. */
  lemma RegistersRun(base: Sys, sys: Sys, ids: seq<NodeId>, starts: seq<bool>, gs: seq<Meaning>, run: Run, run': Run)
    requires Adds(base, sys, ids) && |starts| == |gs| == |ids|
    requires forall k :: 0 <= k < |ids| ==> BitRegister(sys, ids[k], starts[k], gs[k]) && Obeys(ids[k], starts[k], gs[k], run')
    requires IsRun(base, run) && forall t: nat :: SameBelow(|base.operations|, run(t), run'(t))
    ensures WellTyped(sys) && IsRun(sys, run')
  {
    hide BitRegister, Grows, Obeys, SameBelow;
    GrowsWellTyped(base, sys);
    forall id: NodeId | IsStateVar(sys.operations, id)
      ensures Starts(sys, run'(0), id)
    {
      StateRuns(base, sys, ids, starts, gs, run, run', id, 0);
    }
    forall t: nat, id: NodeId | IsStateVar(sys.operations, id)
      ensures Steps(sys, run'(t), run'(t + 1), id)
    {
      StateRuns(base, sys, ids, starts, gs, run, run', id, t);
    }
  }

  lemma StateRuns(base: Sys, sys: Sys, ids: seq<NodeId>, starts: seq<bool>, gs: seq<Meaning>, run: Run, run': Run, id: NodeId, t: nat)
    requires Adds(base, sys, ids) && |starts| == |gs| == |ids| && IsStateVar(sys.operations, id)
    requires forall k :: 0 <= k < |ids| ==> BitRegister(sys, ids[k], starts[k], gs[k]) && Obeys(ids[k], starts[k], gs[k], run')
    requires IsRun(base, run) && forall t: nat :: SameBelow(|base.operations|, run(t), run'(t))
    ensures WellTyped(sys) && Starts(sys, run'(0), id) && Steps(sys, run'(t), run'(t + 1), id)
  {
    hide BitRegister, Grows, Obeys, SameBelow, IsRun;
    GrowsWellTyped(base, sys);
    var k := FindState(sys.states, id);
    if k < |base.states| {
      OldStateRuns(base, sys, k, run, run', t);
    } else if k < |sys.states| {
      var j := k - |base.states|;
      NewStateRuns(sys, id, starts[j], gs[j], run', t);
    }
  }

  lemma OldStateRuns(base: Sys, sys: Sys, k: nat, run: Run, run': Run, t: nat)
    requires Grows(base, sys) && k < |base.states| && IsRun(base, run)
    requires forall t: nat :: SameBelow(|base.operations|, run(t), run'(t))
    ensures var id := base.states[k].value;
            && k < |sys.states| && sys.states[k].value == id && IsStateVar(base.operations, id) && IsStateVar(sys.operations, id)
            && Starts(sys, run'(0), id) && Steps(sys, run'(t), run'(t + 1), id)
  {
    hide TypedOperations, TypedProperty;
    var id := base.states[k].value;
    assert sys.states[k] == sys.states[..|base.states|][k];
    assert TypedState(base.operations, base.states[k]);
    FindDistinct(base.states, k);
    RecordTyped(base, id);
    GrowsRecord(base, sys, k);
    assert Starts(base, run(0), id) && Steps(base, run(t), run(t + 1), id);
    SameDefines(base, InitOf(base, id), run(0), run'(0), id, run(0), run'(0));
    SameDefines(base, NextOf(base, id), run(t), run'(t), id, run(t + 1), run'(t + 1));
    GrowsDefines(base, sys, InitOf(base, id), run'(0), id, run'(0));
    GrowsDefines(base, sys, NextOf(base, id), run'(t), id, run'(t + 1));
    GrowsEval(base, sys, id, run(0));
  }

  lemma SameDefines(sys: Sys, def: Option<NodeId>, env: Env, env': Env, id: NodeId, later: Env, later': Env)
    requires WellTyped(sys) && InRange(sys.operations, id) && (def.Some? ==> InRange(sys.operations, def.value))
    requires SameBelow(|sys.operations|, env, env') && SameBelow(|sys.operations|, later, later')
    ensures Defines(sys, def, env, id, later) <==> Defines(sys, def, env', id, later')
  {
    EvalAgrees(sys.operations, id, later, later');
    if def.Some? {
      EvalAgrees(sys.operations, def.value, env, env');
    }
  }

  lemma NewStateRuns(sys: Sys, id: NodeId, start: bool, g: Meaning, run: Run, t: nat)
    requires BitRegister(sys, id, start, g) && Obeys(id, start, g, run)
    ensures IsStateVar(sys.operations, id) && WellTyped(sys)
    ensures Starts(sys, run(0), id) && Steps(sys, run(t), run(t + 1), id)
  {
    var init, next := InitOf(sys, id).value, NextOf(sys, id).value;
    LeafMeans(sys.operations, id);
    BitCases(sys.operations, id, run(0));
    BitCases(sys.operations, init, run(0));
    BitCases(sys.operations, id, run(t + 1));
    BitCases(sys.operations, next, run(t));
    assert Bit(sys.operations, id, run(0)) == Leaf(id)(run(0));
    assert Bit(sys.operations, init, run(0)) == Constantly(start)(run(0));
    assert Bit(sys.operations, id, run(t + 1)) == Leaf(id)(run(t + 1));
    assert Bit(sys.operations, next, run(t)) == g(run(t));
  }

  ghost function IndexOf(ids: seq<NodeId>, id: NodeId): (k: nat)
    requires id in ids
    ensures k < |ids| && ids[k] == id
  {
    var k: nat :| k < |ids| && ids[k] == id;
    k
  }

  lemma NewIdsDistinct(base: Sys, sys: Sys, ids: seq<NodeId>, i: nat, j: nat)
    requires Adds(base, sys, ids) && i < |ids| && j < |ids| && ids[i] == ids[j]
    ensures i == j
  {
    assert DistinctStates(sys.states);
    var a, b := |base.states| + i, |base.states| + j;
    assert sys.states[a].value == sys.states[b].value;
  }

  /** Circuits of the base read only what the base has. */
  lemma MeansBelow(ops: seq<Operation>, id: NodeId, f: Meaning, env: Env, env': Env)
    requires Means(ops, id, f) && SameBelow(|ops|, env, env')
    ensures f(env) == f(env')
  {
    EvalAgrees(ops, id, env, env');
    assert Bit(ops, id, env) == f(env) && Bit(ops, id, env') == f(env');
  }
}
