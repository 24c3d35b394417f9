/** Growing a transition system by Boolean logic and registers. */
module Builder {
  import opened Bits
  import opened TransitionSystem
  import opened Semantics
  import opened Refinement

  // ----- growth -----

  /** `b` is `a` with more operations and state records after those of `a`. */
  ghost predicate Grows(a: Sys, b: Sys) {
    && WellTyped(a) && WellTyped(b)
    && |a.operations| <= |b.operations| && b.operations[..|a.operations|] == a.operations
    && |a.states| <= |b.states| && b.states[..|a.states|] == a.states
    && a.outputs == b.outputs && |a.properties| <= |b.properties| && b.properties[..|a.properties|] == a.properties
  }

  /** `sys` has exactly the records of `base` and one for each of the new states `ids`. */
  ghost predicate Adds(base: Sys, sys: Sys, ids: seq<NodeId>) {
    && Grows(base, sys) && |sys.states| == |base.states| + |ids|
    && forall k :: 0 <= k < |ids| ==> sys.states[|base.states| + k].value == ids[k] > |base.operations|
  }

  lemma GrowsWellTyped(a: Sys, b: Sys)
    requires Grows(a, b)
    ensures WellTyped(a) && WellTyped(b)
  {
  }

  lemma GrowsSelf(a: Sys)
    requires WellTyped(a)
    ensures Grows(a, a)
  {
    assert a.operations[..|a.operations|] == a.operations && a.states[..|a.states|] == a.states;
    assert a.properties[..|a.properties|] == a.properties;
  }

  lemma GrowsTransitive(a: Sys, b: Sys, c: Sys)
    requires Grows(a, b) && Grows(b, c)
    ensures Grows(a, c)
  {
    assert c.operations[..|a.operations|] == c.operations[..|b.operations|][..|a.operations|];
    assert c.states[..|a.states|] == c.states[..|b.states|][..|a.states|];
    assert c.properties[..|a.properties|] == c.properties[..|b.properties|][..|a.properties|];
  }

  /** Values already computed do not change. */
  lemma GrowsEval(a: Sys, b: Sys, id: NodeId, env: Env)
    requires Grows(a, b) && InRange(a.operations, id)
    ensures b.operations[id - 1] == a.operations[id - 1]
    ensures Eval(b.operations, id, env) == Eval(a.operations, id, env)
  {
    var more := b.operations[|a.operations|..];
    assert b.operations == a.operations + more;
    EvalPrefix(a.operations, more, id, env);
  }

  lemma GrowsRecord(a: Sys, b: Sys, k: nat)
    requires Grows(a, b) && k < |a.states|
    ensures InitOf(b, a.states[k].value) == a.states[k].initial && NextOf(b, a.states[k].value) == a.states[k].next
  {
    assert b.states[k] == b.states[..|a.states|][k];
    FindDistinct(b.states, k);
  }

  /** A run of the grown system is a run of the original. */
  lemma GrowsRun(a: Sys, b: Sys, run: Run)
    requires Grows(a, b) && IsRun(b, run)
    ensures IsRun(a, run)
  {
    forall id: NodeId | IsStateVar(a.operations, id)
      ensures Starts(a, run(0), id) && forall t: nat :: Steps(a, run(t), run(t + 1), id)
    {
      RecordTyped(a, id);
      var k := FindState(a.states, id);
      assert IsStateVar(b.operations, id) by {
        GrowsEval(a, b, id, run(0));
      }
      if k < |a.states| {
        GrowsRecord(a, b, k);
        RecordTyped(b, id);
        GrowsDefines(a, b, InitOf(a, id), run(0), id, run(0));
        assert Starts(b, run(0), id);
        forall t: nat
          ensures Steps(a, run(t), run(t + 1), id)
        {
          GrowsDefines(a, b, NextOf(a, id), run(t), id, run(t + 1));
          assert Steps(b, run(t), run(t + 1), id);
        }
      }
    }
  }

  lemma GrowsDefines(a: Sys, b: Sys, def: Option<NodeId>, env: Env, id: NodeId, env': Env)
    requires Grows(a, b) && InRange(a.operations, id) && (def.Some? ==> InRange(a.operations, def.value))
    ensures InRange(b.operations, id) && (def.Some? ==> InRange(b.operations, def.value))
    ensures Defines(a, def, env, id, env') <==> Defines(b, def, env, id, env')
  {
    GrowsEval(a, b, id, env');
    if def.Some? {
      GrowsEval(a, b, def.value, env);
    }
  }

  // ----- emitting operations -----

  function Width(ops: seq<Operation>, id: NodeId): nat
    requires InRange(ops, id)
  {
    ops[id - 1].width
  }

  function WidthsOf(ops: seq<Operation>, operands: seq<NodeId>): (w: seq<nat>)
    requires forall k :: 0 <= k < |operands| ==> InRange(ops, operands[k])
    ensures |w| == |operands|
  {
    seq(|operands|, k requires 0 <= k < |operands| => Width(ops, operands[k]))
  }

  predicate CanAppend(ops: seq<Operation>, o: Operation) {
    (forall k :: 0 <= k < |o.operands| ==> InRange(ops, o.operands[k])) && Typed(o, WidthsOf(ops, o.operands))
  }

  lemma AppendTyped(ops: seq<Operation>, o: Operation)
    requires TypedOperations(ops) && CanAppend(ops, o)
    ensures TypedOperations(ops + [o])
    ensures OperandWidths(ops + [o], |ops| + 1) == WidthsOf(ops, o.operands)
  {
    var longer := ops + [o];
    assert OperandWidths(longer, |ops| + 1) == WidthsOf(ops, o.operands);
    forall id: NodeId | InRange(longer, id)
      ensures TypedAt(longer, id)
    {
      if id <= |ops| {
        assert TypedAt(ops, id);
        assert OperandWidths(longer, id) == OperandWidths(ops, id);
      }
    }
  }

  lemma AppendGrows(sys: Sys, o: Operation)
    requires WellTyped(sys) && CanAppend(sys.operations, o)
    ensures Grows(sys, sys.(operations := sys.operations + [o]))
  {
    AppendTyped(sys.operations, o);
    var ops' := sys.operations + [o];
    forall k | 0 <= k < |sys.states|
      ensures TypedState(ops', sys.states[k])
    {
      assert TypedState(sys.operations, sys.states[k]);
    }
    forall k | 0 <= k < |sys.properties|
      ensures TypedProperty(ops', sys.properties[k])
    {
      assert TypedProperty(sys.operations, sys.properties[k]);
    }
  }

  method Emit(m: Module, o: Operation) returns (v: Value)
    requires WellTyped(m.View()) && CanAppend(m.operations, o)
    modifies m`operations
    ensures Grows(old(m.View()), m.View()) && m.operations == old(m.operations) + [o]
    ensures v == Value(|m.operations|, o.width)
  {
    AppendGrows(m.View(), o);
    var id := m.AddOperation(o);
    v := Value(id.value, o.width);
  }

  // ----- Boolean logic -----

  ghost predicate Bit(ops: seq<Operation>, id: NodeId, env: Env)
    requires TypedOperations(ops) && IsBoolean(ops, id)
  {
    Eval(ops, id, env) == 1
  }

  lemma BitCases(ops: seq<Operation>, id: NodeId, env: Env)
    requires TypedOperations(ops) && IsBoolean(ops, id)
    ensures Eval(ops, id, env) == Flag(Bit(ops, id, env))
  {
    assert Pow2(1) == 2 * Pow2(0) && Pow2(0) == 1;
  }

  lemma GrowsBit(a: Sys, b: Sys, id: NodeId, env: Env)
    requires Grows(a, b) && IsBoolean(a.operations, id)
    ensures IsBoolean(b.operations, id) && Bit(b.operations, id, env) == Bit(a.operations, id, env)
  {
    GrowsEval(a, b, id, env);
  }

  /** Boolean values computed so far keep their meaning. */
  ghost predicate BitsKept(ops: seq<Operation>, ops': seq<Operation>)
    requires TypedOperations(ops) && TypedOperations(ops')
  {
    forall id: NodeId :: IsBoolean(ops, id) ==>
      IsBoolean(ops', id) && forall env: Env :: Bit(ops', id, env) == Bit(ops, id, env)
  }

  lemma GrowsBits(a: Sys, b: Sys)
    requires Grows(a, b)
    ensures BitsKept(a.operations, b.operations)
  {
    forall id: NodeId | IsBoolean(a.operations, id)
      ensures IsBoolean(b.operations, id) && forall env: Env :: Bit(b.operations, id, env) == Bit(a.operations, id, env)
    {
      GrowsEval(a, b, id, _ => 0);
      forall env: Env
        ensures Bit(b.operations, id, env) == Bit(a.operations, id, env)
      {
        GrowsBit(a, b, id, env);
      }
    }
  }

  /** What a freshly appended operation evaluates to. */
  lemma AppendedValue(ops: seq<Operation>, o: Operation, env: Env)
    requires TypedOperations(ops) && TypedOperations(ops + [o]) && CanAppend(ops, o) && !IsLeaf(o.opcode)
    ensures var v := seq(|o.operands|, k requires 0 <= k < |o.operands| => Eval(ops, o.operands[k], env));
            InBounds(WidthsOf(ops, o.operands), v) && Eval(ops + [o], |ops| + 1, env) == Apply(o, WidthsOf(ops, o.operands), v)
  {
    var v := seq(|o.operands|, k requires 0 <= k < |o.operands| => Eval(ops, o.operands[k], env));
    AppendTyped(ops, o);
    assert TypedAt(ops + [o], |ops| + 1);
    forall k | 0 <= k < |o.operands|
      ensures OperandValues(ops + [o], |ops| + 1, env)[k] == v[k]
    {
      EvalPrefix(ops, [o], o.operands[k], env);
    }
    assert OperandValues(ops + [o], |ops| + 1, env) == v;
  }

  lemma SelectedValue(ops: seq<Operation>, o: Operation, env: Env)
    requires TypedOperations(ops) && TypedOperations(ops + [o]) && CanAppend(ops, o) && o.opcode.Ite?
    requires |o.operands| == 3 && IsBoolean(ops, o.operands[0])
    ensures Eval(ops + [o], |ops| + 1, env) ==
            Eval(ops, if Bit(ops, o.operands[0], env) then o.operands[1] else o.operands[2], env)
  {
    hide Eval;
    AppendedValue(ops, o, env);
    BitCases(ops, o.operands[0], env);
  }

  /** A conditional over values of any one width. */
  method Select(m: Module, c: Value, yes: Value, no: Value) returns (v: Value)
    requires WellTyped(m.View()) && IsBoolean(m.operations, c.node)
    requires InRange(m.operations, yes.node) && InRange(m.operations, no.node)
    requires m.operations[yes.node - 1].width == m.operations[no.node - 1].width == yes.width
    modifies m`operations
    ensures Grows(old(m.View()), m.View()) && InRange(m.operations, v.node)
    ensures m.operations[v.node - 1].width == v.width == yes.width
    ensures v.node == |m.operations| == |old(m.operations)| + 1
    ensures forall env: Env :: Eval(m.operations, v.node, env) ==
              if Bit(old(m.operations), c.node, env) then Eval(old(m.operations), yes.node, env)
              else Eval(old(m.operations), no.node, env)
    ensures BitsKept(old(m.operations), m.operations)
  {
    ghost var before := m.View();
    assert TypedAt(m.operations, yes.node);
    var o := Operation(Ite, yes.width, [c.node, yes.node, no.node], [], "", "");
    hide Eval;
    v := Emit(m, o);
    GrowsBits(before, m.View());
    forall env: Env
      ensures Eval(m.operations, v.node, env) ==
              if Bit(before.operations, c.node, env) then Eval(before.operations, yes.node, env)
              else Eval(before.operations, no.node, env)
    {
      SelectedValue(before.operations, o, env);
    }
  }

  // ----- registers -----

  lemma AddRecordTyped(sys: Sys, id: NodeId)
    requires WellTyped(sys) && IsStateVar(sys.operations, id)
    requires forall k :: 0 <= k < |sys.states| ==> sys.states[k].value != id
    ensures Grows(sys, sys.(states := sys.states + [State(id, None, None)]))
  {
    var states := sys.states + [State(id, None, None)];
    forall k | 0 <= k < |states|
      ensures TypedState(sys.operations, states[k])
    {
      assert k < |sys.states| ==> TypedState(sys.operations, sys.states[k]);
    }
  }

  /** Declares a state variable, with a record that has no init and no next relation yet. */
  method NewState(m: Module, width: nat, name: string) returns (v: Value)
    requires WellTyped(m.View()) && width > 0
    modifies m`operations, m`states
    ensures Grows(old(m.View()), m.View()) && v == Value(|m.operations|, width)
    ensures m.operations == old(m.operations) + [Operation(StateVar, width, [], [], name, "")]
    ensures m.states == old(m.states) + [State(v.node, None, None)]
    ensures BitsKept(old(m.operations), m.operations)
  {
    ghost var before := m.View();
    v := Emit(m, Operation(StateVar, width, [], [], name, ""));
    ghost var middle := m.View();
    GrowsBits(before, middle);
    forall k | 0 <= k < |m.states|
      ensures m.states[k].value != v.node
    {
      assert TypedState(before.operations, before.states[k]);
    }
    AddRecordTyped(middle, v.node);
    var outcome := m.AddState(v);
    GrowsTransitive(before, middle, m.View());
  }

  lemma UpdateTyped(sys: Sys, k: nat, record: State)
    requires WellTyped(sys) && k < |sys.states| && record.value == sys.states[k].value && TypedState(sys.operations, record)
    ensures WellTyped(sys.(states := sys.states[k := record]))
  {
    var states := sys.states[k := record];
    forall j | 0 <= j < |states|
      ensures TypedState(sys.operations, states[j])
    {
      assert TypedState(sys.operations, sys.states[j]);
    }
  }

  lemma UpdateGrows(start: Sys, sys: Sys, k: nat, record: State)
    requires Grows(start, sys) && |start.states| <= k < |sys.states| && WellTyped(sys.(states := sys.states[k := record]))
    ensures Grows(start, sys.(states := sys.states[k := record]))
  {
    var states := sys.states[k := record];
    assert states[..|start.states|] == sys.states[..|start.states|];
  }

  /** Sets the init relation of the `k`-th record. */
  method SetInit(m: Module, ghost k: nat, state: Value, value: Value)
    requires WellTyped(m.View()) && k < |m.states| && m.states[k].value == state.node
    requires InRange(m.operations, value.node) && IsStateVar(m.operations, state.node)
    requires m.operations[state.node - 1].width == state.width == value.width == m.operations[value.node - 1].width
    modifies m`states
    ensures WellTyped(m.View()) && m.states == old(m.states)[k := old(m.states)[k].(initial := Some(value.node))]
  {
    FindDistinct(m.states, k);
    assert TypedState(m.operations, m.states[k]);
    UpdateTyped(m.View(), k, m.states[k].(initial := Some(value.node)));
    var outcome := m.Init(state, value);
  }

  /** Sets the next relation of the `k`-th record. */
  method SetNext(m: Module, ghost k: nat, state: Value, value: Value)
    requires WellTyped(m.View()) && k < |m.states| && m.states[k].value == state.node
    requires InRange(m.operations, value.node) && IsStateVar(m.operations, state.node)
    requires m.operations[state.node - 1].width == state.width == value.width == m.operations[value.node - 1].width
    modifies m`states
    ensures WellTyped(m.View()) && m.states == old(m.states)[k := old(m.states)[k].(next := Some(value.node))]
  {
    FindDistinct(m.states, k);
    assert TypedState(m.operations, m.states[k]);
    UpdateTyped(m.View(), k, m.states[k].(next := Some(value.node)));
    var outcome := m.Next(state, value);
  }

  /** A state variable with an init relation. */
  method NewRegister(m: Module, initial: Value, name: string) returns (v: Value)
    requires WellTyped(m.View()) && InRange(m.operations, initial.node) && initial.width > 0
    requires m.operations[initial.node - 1].width == initial.width
    modifies m`operations, m`states
    ensures Grows(old(m.View()), m.View()) && v == Value(|m.operations|, initial.width)
    ensures m.operations == old(m.operations) + [Operation(StateVar, initial.width, [], [], name, "")]
    ensures m.states == old(m.states) + [State(v.node, Some(initial.node), None)]
    ensures BitsKept(old(m.operations), m.operations)
  {
    ghost var before := m.View();
    v := NewState(m, initial.width, name);
    ghost var k := |before.states|;
    ghost var middle := m.View();
    SetInit(m, k, v, initial);
    UpdateGrows(before, middle, k, m.states[k]);
    assert m.states == before.states + [State(v.node, Some(initial.node), None)];
  }

  /** Completes the `k`-th record, which is newer than `start`. */
  method DriveNext(m: Module, ghost start: Sys, ghost k: nat, state: Value, next: Value)
    requires Grows(start, m.View()) && |start.states| <= k < |m.states| && m.states[k].value == state.node
    requires InRange(m.operations, next.node) && IsStateVar(m.operations, state.node)
    requires m.operations[state.node - 1].width == state.width == next.width == m.operations[next.node - 1].width
    modifies m`states
    ensures Grows(start, m.View()) && m.states == old(m.states)[k := old(m.states)[k].(next := Some(next.node))]
  {
    ghost var before := m.View();
    SetNext(m, k, state, next);
    UpdateGrows(start, before, k, m.states[k]);
  }
}
