/** An automaton compiled to one register for each state, a constraint and a justice property. */
module BuchiMonitor {
  import opened Bits
  import opened TransitionSystem
  import opened Semantics
  import opened Refinement
  import opened Builder
  import opened Gates
  import opened SampledTime
  import opened Automata

  /** The operations that the clock tick, the disable condition and the atoms were lowered to. */
  datatype Lowered = Lowered(sample: Value, disable: Value, atoms: seq<Value>)

  /** What those operations mean. */
  datatype Signals = Signals(sample: Meaning, disable: Meaning, atoms: seq<Meaning>)

  ghost predicate AtomsMean(ops: seq<Operation>, atoms: seq<Value>, fs: seq<Meaning>) {
    |atoms| == |fs| && forall k :: 0 <= k < |atoms| ==> Means(ops, atoms[k].node, fs[k])
  }

  ghost predicate Carry(ops: seq<Operation>, v: Lowered, w: Signals) {
    Means(ops, v.sample.node, w.sample) && Means(ops, v.disable.node, w.disable) && AtomsMean(ops, v.atoms, w.atoms)
  }

  // ----- guards -----

  function LetterAt(atoms: seq<Meaning>, env: Env): Letter {
    (k: nat) => k < |atoms| && atoms[k](env)
  }

  ghost function GuardOf(guard: Guard, atoms: seq<Meaning>): Meaning
    requires UsesBelow(guard, |atoms|)
  {
    match guard
    case Truth(value) => Constantly(value)
    case Atom(index) => atoms[index]
    case Negation(operand) => NotOf(GuardOf(operand, atoms))
    case Conjunction(left, right) => AndOf(GuardOf(left, atoms), GuardOf(right, atoms))
    case Disjunction(left, right) => OrOf(GuardOf(left, atoms), GuardOf(right, atoms))
  }

  lemma {:induction false} GuardHolds(guard: Guard, atoms: seq<Meaning>, env: Env)
    requires UsesBelow(guard, |atoms|)
    ensures GuardOf(guard, atoms)(env) <==> Holds(guard, LetterAt(atoms, env))
  {
    match guard
    case Truth(value) =>
    case Atom(index) =>
    case Negation(operand) => GuardHolds(operand, atoms, env);
    case Conjunction(left, right) => GuardHolds(left, atoms, env); GuardHolds(right, atoms, env);
    case Disjunction(left, right) => GuardHolds(left, atoms, env); GuardHolds(right, atoms, env);
  }

  lemma AtomsKept(ops: seq<Operation>, ops': seq<Operation>, atoms: seq<Value>, fs: seq<Meaning>)
    requires AtomsMean(ops, atoms, fs) && Carries(ops, ops')
    ensures AtomsMean(ops', atoms, fs)
  {
    hide Means, IsStateBit;
  }

  method LowerGuard(m: Module, ghost base: Sys, guard: Guard, atoms: seq<Value>, ghost fs: seq<Meaning>) returns (v: Value)
    requires Grows(base, m.View()) && AtomsMean(m.operations, atoms, fs) && UsesBelow(guard, |atoms|)
    modifies m`operations
    ensures Grows(base, m.View()) && Carries(old(m.operations), m.operations)
    ensures Means(m.operations, v.node, GuardOf(guard, fs))
    decreases guard
  {
    hide Means, IsStateBit, Grows, Carries;
    ghost var start := m.operations;
    CarriesSelf(start);
    match guard
    case Truth(value) => v := Constant(m, base, value);
    case Atom(index) => v := atoms[index];
    case Negation(operand) =>
      var inner := LowerGuard(m, base, operand, atoms, fs);
      ghost var middle := m.operations;
      v := LogicalNot(m, base, inner, GuardOf(operand, fs));
      CarriesTransitive(start, middle, m.operations);
    case Conjunction(left, right) =>
      var l, r := LowerPair(m, base, guard, left, right, atoms, fs);
      ghost var middle := m.operations;
      v := LogicalAnd(m, base, l, r, GuardOf(left, fs), GuardOf(right, fs));
      CarriesTransitive(start, middle, m.operations);
    case Disjunction(left, right) =>
      var l, r := LowerPair(m, base, guard, left, right, atoms, fs);
      ghost var middle := m.operations;
      v := LogicalOr(m, base, l, r, GuardOf(left, fs), GuardOf(right, fs));
      CarriesTransitive(start, middle, m.operations);
  }

  method LowerPair(m: Module, ghost base: Sys, ghost whole: Guard, left: Guard, right: Guard, atoms: seq<Value>,
                   ghost fs: seq<Meaning>) returns (l: Value, r: Value)
    requires Grows(base, m.View()) && AtomsMean(m.operations, atoms, fs)
    requires UsesBelow(left, |atoms|) && UsesBelow(right, |atoms|) && left < whole && right < whole
    modifies m`operations
    ensures Grows(base, m.View()) && Carries(old(m.operations), m.operations)
    ensures Means(m.operations, l.node, GuardOf(left, fs)) && Means(m.operations, r.node, GuardOf(right, fs))
    decreases whole, 0
  {
    hide Means, IsStateBit, Grows;
    ghost var start := m.operations;
    l := LowerGuard(m, base, left, atoms, fs);
    ghost var middle := m.operations;
    AtomsKept(start, middle, atoms, fs);
    r := LowerGuard(m, base, right, atoms, fs);
    CarriesTransitive(start, middle, m.operations);
  }

  // ----- the choice of a transition -----

  function BitLength(n: nat): nat {
    if n == 0 then 0 else 1 + BitLength(n / 2)
  }

  lemma {:induction false} BitLengthFits(n: nat)
    ensures n < Pow2(BitLength(n))
    ensures n > 0 ==> BitLength(n) > 0 && Pow2(BitLength(n) - 1) <= n
  {
    if n != 0 {
      BitLengthFits(n / 2);
    }
  }

  /** Wide enough to number the transitions. */
  function ChoiceWidth(n: nat): nat {
    if n <= 1 then 1 else BitLength(n - 1)
  }

  lemma ChoiceFits(n: nat, i: nat)
    requires i < n
    ensures ChoiceWidth(n) > 0 && i < Pow2(ChoiceWidth(n))
    ensures ChoiceWidth(n) == 1 || Pow2(ChoiceWidth(n) - 1) < n
  {
    assert Pow2(1) == 2 * Pow2(0);
    if n > 1 {
      BitLengthFits(n - 1);
    }
  }

  /** The choice input selects transition `i`. */
  function ChoiceIs(choice: NodeId, width: nat, i: nat): Meaning {
    (env: Env) => env(choice) % Pow2(width) == i
  }

  predicate IsChoice(ops: seq<Operation>, choice: NodeId, width: nat) {
    InRange(ops, choice) && ops[choice - 1].opcode.Input? && ops[choice - 1].width == width
  }

  method Chooses(m: Module, ghost base: Sys, choice: Value, i: nat) returns (v: Value)
    requires Grows(base, m.View()) && IsChoice(base.operations, choice.node, choice.width)
    requires choice.width > 0 && i < Pow2(choice.width)
    modifies m`operations
    ensures Grows(base, m.View()) && Carries(old(m.operations), m.operations)
    ensures v.width == 1 && Means(m.operations, v.node, ChoiceIs(choice.node, choice.width, i))
  {
    hide Carries, Means, Grows, TypedOperations, TypedState, TypedProperty, DistinctStates, BitsOf;
    ghost var start := m.operations;
    GrowsEval(base, m.View(), choice.node, _ => 0);
    var bits := BitString(i, choice.width);
    SmallModulo(i, Pow2(choice.width));
    var constant := EmitOn(m, base, Operation(Const, choice.width, [], [], "", bits));
    ghost var middle := m.operations;
    GrowsEval(base, m.View(), choice.node, _ => 0);
    v := EmitOn(m, base, Operation(Compare(Eq), 1, [choice.node, constant.node], [], "", ""));
    CarriesTransitive(start, middle, m.operations);
    ChoiceMeans(middle, m.operations[|middle|], i);
  }

  lemma ChoiceMeans(ops: seq<Operation>, o: Operation, i: nat)
    requires TypedOperations(ops) && TypedOperations(ops + [o]) && CanAppend(ops, o)
    requires o.opcode == Compare(Eq) && |o.operands| == 2 && InRange(ops, o.operands[0]) && InRange(ops, o.operands[1])
    requires ops[o.operands[0] - 1].opcode.Input? && ops[o.operands[1] - 1].opcode.Const?
    requires i < Pow2(ops[o.operands[0] - 1].width) && ops[o.operands[1] - 1].bits == BitsOf(i, ops[o.operands[0] - 1].width)
    ensures Means(ops + [o], |ops| + 1, ChoiceIs(o.operands[0], ops[o.operands[0] - 1].width, i))
  {
    var ops', id := ops + [o], |ops| + 1;
    ValueOfBitsOf(i, ops[o.operands[0] - 1].width);
    forall env: Env
      ensures Bit(ops', id, env) == ChoiceIs(o.operands[0], ops[o.operands[0] - 1].width, i)(env)
    {
      AppendedValue(ops, o, env);
      assert TypedAt(ops, o.operands[1]);
    }
  }

  // ----- the circuit -----

  ghost function Enabled(w: Signals): Meaning {
    AndOf(w.sample, NotOf(w.disable))
  }

  /** An automaton, what drives it, the choice input and the state registers. */
  datatype Design = Design(a: Automaton, w: Signals, choice: NodeId, ids: seq<NodeId>)

  predicate Fitting(d: Design) {
    WellFormed(d.a, |d.w.atoms|) && |d.ids| == d.a.states
  }

  ghost function Chosen(d: Design, i: nat): Meaning {
    if d.a.deterministic then Constantly(true) else ChoiceIs(d.choice, ChoiceWidth(|d.a.transitions|), i)
  }

  ghost function Selected(d: Design, i: nat): Meaning
    requires Fitting(d) && i < |d.a.transitions|
  {
    var edge := d.a.transitions[i];
    AndOf(Leaf(d.ids[edge.source]), AndOf(Chosen(d, i), GuardOf(edge.guard, d.w.atoms)))
  }

  ghost function Taken(d: Design, n: nat): Meaning
    requires Fitting(d) && n <= |d.a.transitions|
  {
    if n == 0 then Constantly(false) else OrOf(Taken(d, n - 1), Selected(d, n - 1))
  }

  ghost function Into(d: Design, q: nat, n: nat): Meaning
    requires Fitting(d) && n <= |d.a.transitions|
  {
    if n == 0 then Constantly(false)
    else if d.a.transitions[n - 1].destination == q then OrOf(Into(d, q, n - 1), Selected(d, n - 1))
    else Into(d, q, n - 1)
  }

  ghost function Accepting(d: Design, n: nat): Meaning
    requires Fitting(d) && n <= d.a.states
  {
    if n == 0 then Constantly(false)
    else if d.a.accepting[n - 1] then OrOf(Accepting(d, n - 1), Leaf(d.ids[n - 1]))
    else Accepting(d, n - 1)
  }

  ghost function NextBit(d: Design, q: nat): Meaning
    requires Fitting(d) && q < d.a.states
  {
    IteOf(d.w.disable, Constantly(q == d.a.initial), IteOf(Enabled(d.w), Into(d, q, |d.a.transitions|), Leaf(d.ids[q])))
  }

  // ----- building the circuit -----

  /** The values that the steps below read. */
  datatype Parts = Parts(v: Lowered, choice: Value, active: seq<Value>, zero: Value, one: Value, enabled: Value)

  ghost predicate PartsMean(ops: seq<Operation>, d: Design, p: Parts) {
    && Fitting(d) && Carry(ops, p.v, d.w)
    && p.zero.width == p.one.width == 1 && Means(ops, p.zero.node, Constantly(false)) && Means(ops, p.one.node, Constantly(true))
    && Means(ops, p.enabled.node, Enabled(d.w)) && |p.active| == |d.ids|
    && (forall k :: 0 <= k < |p.active| ==> p.active[k] == Value(d.ids[k], 1) && Means(ops, d.ids[k], Leaf(d.ids[k])))
    && (!d.a.deterministic ==> p.choice == Value(d.choice, ChoiceWidth(|d.a.transitions|)))
  }

  lemma PartsKept(ops: seq<Operation>, ops': seq<Operation>, d: Design, p: Parts)
    requires PartsMean(ops, d, p) && Carries(ops, ops')
    ensures PartsMean(ops', d, p)
  {
    hide Means, IsStateBit, Enabled, WellFormed, AtomsMean;
    AtomsKept(ops, ops', p.v.atoms, d.w.atoms);
  }

  ghost predicate SelectedMean(ops: seq<Operation>, d: Design, selected: seq<Value>)
    requires Fitting(d)
  {
    |selected| <= |d.a.transitions| && forall i :: 0 <= i < |selected| ==> Means(ops, selected[i].node, Selected(d, i))
  }

  lemma SelectedKept(ops: seq<Operation>, ops': seq<Operation>, d: Design, selected: seq<Value>)
    requires Fitting(d) && SelectedMean(ops, d, selected) && Carries(ops, ops')
    ensures SelectedMean(ops', d, selected)
  {
    hide Means, IsStateBit, Selected, WellFormed;
  }

  method SelectTransition(m: Module, ghost base: Sys, ghost d: Design, a: Automaton, p: Parts, index: nat)
    returns (selected: Value)
    requires Grows(base, m.View()) && d.a == a && PartsMean(m.operations, d, p) && index < |a.transitions|
    requires !a.deterministic ==> IsChoice(base.operations, d.choice, ChoiceWidth(|a.transitions|))
    modifies m`operations
    ensures Grows(base, m.View()) && Carries(old(m.operations), m.operations)
    ensures Means(m.operations, selected.node, Selected(d, index))
  {
    hide Means, IsStateBit, Grows, Enabled, ChoiceIs, IsChoice, ChoiceWidth;
    ghost var start := m.operations;
    var edge := a.transitions[index];
    var chosen := p.one;
    CarriesSelf(start);
    if !a.deterministic {
      ChoiceFits(|a.transitions|, index);
      chosen := Chooses(m, base, p.choice, index);
    }
    ghost var s1 := m.operations;
    PartsKept(start, s1, d, p);
    var holds := LowerGuard(m, base, edge.guard, p.v.atoms, d.w.atoms);
    ghost var f := GuardOf(edge.guard, d.w.atoms);
    var both := LogicalAnd(m, base, chosen, holds, Chosen(d, index), f);
    selected := LogicalAnd(m, base, p.active[edge.source], both, Leaf(d.ids[edge.source]), AndOf(Chosen(d, index), f));
  }

  method SelectTransitions(m: Module, ghost base: Sys, ghost d: Design, a: Automaton, p: Parts) returns (selected: seq<Value>)
    requires Grows(base, m.View()) && d.a == a && PartsMean(m.operations, d, p)
    requires !a.deterministic ==> IsChoice(base.operations, d.choice, ChoiceWidth(|a.transitions|))
    modifies m`operations
    ensures Grows(base, m.View()) && Carries(old(m.operations), m.operations) && PartsMean(m.operations, d, p)
    ensures |selected| == |a.transitions| && SelectedMean(m.operations, d, selected)
  {
    hide Means, IsStateBit, Grows, Carries, Carry, Enabled, Selected, IsChoice, ChoiceWidth;
    ghost var start := m.operations;
    CarriesSelf(start);
    selected := [];
    for index := 0 to |a.transitions|
      invariant Grows(base, m.View()) && Carries(start, m.operations) && PartsMean(m.operations, d, p)
      invariant |selected| == index && SelectedMean(m.operations, d, selected)
    {
      ghost var before := m.operations;
      var one := SelectTransition(m, base, d, a, p, index);
      PartsKept(before, m.operations, d, p);
      SelectedKept(before, m.operations, d, selected);
      CarriesTransitive(start, before, m.operations);
      selected := selected + [one];
    }
  }

  method TransitionTaken(m: Module, ghost base: Sys, ghost d: Design, zero: Value, selected: seq<Value>) returns (taken: Value)
    requires Grows(base, m.View()) && Fitting(d) && Means(m.operations, zero.node, Constantly(false))
    requires |selected| == |d.a.transitions| && SelectedMean(m.operations, d, selected)
    modifies m`operations
    ensures Grows(base, m.View()) && Carries(old(m.operations), m.operations)
    ensures Means(m.operations, taken.node, Taken(d, |selected|))
  {
    hide Means, IsStateBit, Grows, Carries, Selected, WellFormed;
    ghost var start := m.operations;
    CarriesSelf(start);
    taken := zero;
    for index := 0 to |selected|
      invariant Grows(base, m.View()) && Carries(start, m.operations)
      invariant SelectedMean(m.operations, d, selected) && Means(m.operations, taken.node, Taken(d, index))
    {
      ghost var before := m.operations;
      taken := LogicalOr(m, base, taken, selected[index], Taken(d, index), Selected(d, index));
      SelectedKept(before, m.operations, d, selected);
      CarriesTransitive(start, before, m.operations);
    }
  }

  method NextActive(m: Module, ghost base: Sys, ghost d: Design, a: Automaton, zero: Value, selected: seq<Value>, destination: nat)
    returns (next: Value)
    requires Grows(base, m.View()) && Fitting(d) && d.a == a && Means(m.operations, zero.node, Constantly(false))
    requires |selected| == |a.transitions| && SelectedMean(m.operations, d, selected)
    modifies m`operations
    ensures Grows(base, m.View()) && Carries(old(m.operations), m.operations)
    ensures Means(m.operations, next.node, Into(d, destination, |selected|))
  {
    hide Means, IsStateBit, Grows, Carries, Selected, WellFormed;
    ghost var start := m.operations;
    CarriesSelf(start);
    next := zero;
    for index := 0 to |selected|
      invariant Grows(base, m.View()) && Carries(start, m.operations)
      invariant SelectedMean(m.operations, d, selected) && Means(m.operations, next.node, Into(d, destination, index))
    {
      if a.transitions[index].destination == destination {
        ghost var before := m.operations;
        next := LogicalOr(m, base, next, selected[index], Into(d, destination, index), Selected(d, index));
        SelectedKept(before, m.operations, d, selected);
        CarriesTransitive(start, before, m.operations);
      }
    }
  }

  method AcceptingState(m: Module, ghost base: Sys, ghost d: Design, a: Automaton, p: Parts) returns (accepting: Value)
    requires Grows(base, m.View()) && d.a == a && PartsMean(m.operations, d, p)
    modifies m`operations
    ensures Grows(base, m.View()) && Carries(old(m.operations), m.operations)
    ensures Means(m.operations, accepting.node, Accepting(d, a.states))
  {
    hide Means, IsStateBit, Grows, Carries, Carry, Enabled;
    ghost var start := m.operations;
    CarriesSelf(start);
    accepting := p.zero;
    for state := 0 to a.states
      invariant Grows(base, m.View()) && Carries(start, m.operations) && PartsMean(m.operations, d, p)
      invariant Means(m.operations, accepting.node, Accepting(d, state))
    {
      if a.accepting[state] {
        ghost var before := m.operations;
        accepting := LogicalOr(m, base, accepting, p.active[state], Accepting(d, state), Leaf(d.ids[state]));
        PartsKept(before, m.operations, d, p);
        CarriesTransitive(start, before, m.operations);
      }
    }
  }

  // ----- the state registers -----

  ghost predicate NextsMean(ops: seq<Operation>, d: Design, nexts: seq<NodeId>)
    requires Fitting(d)
  {
    |nexts| <= d.a.states && forall q :: 0 <= q < |nexts| ==> Means(ops, nexts[q], NextBit(d, q))
  }

  lemma NextsKept(ops: seq<Operation>, ops': seq<Operation>, d: Design, nexts: seq<NodeId>)
    requires Fitting(d) && NextsMean(ops, d, nexts) && Carries(ops, ops')
    ensures NextsMean(ops', d, nexts)
  {
    hide Means, IsStateBit, NextBit, WellFormed;
  }

  ghost predicate InitsMean(ops: seq<Operation>, a: Automaton, inits: seq<NodeId>) {
    forall q :: 0 <= q < |inits| ==> Means(ops, inits[q], Constantly(q == a.initial))
  }

  lemma InitsKept(ops: seq<Operation>, ops': seq<Operation>, a: Automaton, inits: seq<NodeId>)
    requires InitsMean(ops, a, inits) && Carries(ops, ops')
    ensures InitsMean(ops', a, inits)
  {
    hide Means, IsStateBit;
  }

  /** The value a state register takes: its reset value, what selected transitions say, or its own. */
  method NextState(m: Module, ghost base: Sys, ghost d: Design, a: Automaton, p: Parts, selected: seq<Value>, destination: nat)
    returns (next: Value)
    requires Grows(base, m.View()) && d.a == a && PartsMean(m.operations, d, p) && destination < a.states
    requires |selected| == |a.transitions| && SelectedMean(m.operations, d, selected)
    modifies m`operations
    ensures Grows(base, m.View()) && Carries(old(m.operations), m.operations)
    ensures next.width == 1 && Means(m.operations, next.node, NextBit(d, destination))
  {
    hide Means, IsStateBit, Grows, Enabled, WellFormed, AtomsMean, Into, Selected;
    ghost var start := m.operations;
    var into := NextActive(m, base, d, a, p.zero, selected, destination);
    ghost var f := Into(d, destination, |selected|);
    ghost var stay := Leaf(d.ids[destination]);
    var advanced := Conditional(m, base, p.enabled, into, p.active[destination], Enabled(d.w), f, stay);
    var reset := if destination == a.initial then p.one else p.zero;
    next := Conditional(m, base, p.v.disable, reset, advanced, d.w.disable,
                        Constantly(destination == a.initial), IteOf(Enabled(d.w), f, stay));
  }

  method DriveStates(m: Module, ghost base: Sys, ghost d: Design, a: Automaton, p: Parts, selected: seq<Value>, ghost inits: seq<NodeId>)
    returns (ghost nexts: seq<NodeId>)
    requires Registers(base, m.View(), inits, d.ids, []) && d.a == a && PartsMean(m.operations, d, p)
    requires |selected| == |a.transitions| && SelectedMean(m.operations, d, selected)
    modifies m`operations, m`states
    ensures Registers(base, m.View(), inits, d.ids, nexts) && Carries(old(m.operations), m.operations)
    ensures |nexts| == a.states && NextsMean(m.operations, d, nexts)
  {
    hide Means, IsStateBit, Grows, Carries, Carry, Enabled, Selected, WellFormed, NextBit, Registers, SelectedMean;
    ghost var start := m.operations;
    CarriesSelf(start);
    nexts := [];
    for destination := 0 to a.states
      invariant Registers(base, m.View(), inits, d.ids, nexts) && Carries(start, m.operations) && PartsMean(m.operations, d, p)
      invariant SelectedMean(m.operations, d, selected) && |nexts| == destination && NextsMean(m.operations, d, nexts)
    {
      ghost var before := m.View();
      RegistersGrow(base, before, inits, d.ids, nexts);
      var next := NextState(m, base, d, a, p, selected, destination);
      ghost var after := m.View();
      RegistersKept(base, before, after, inits, d.ids, nexts);
      PartsKept(before.operations, after.operations, d, p);
      SelectedKept(before.operations, after.operations, d, selected);
      NextsKept(before.operations, after.operations, d, nexts);
      CarriesTransitive(start, before.operations, after.operations);
      MeansBoolean(after.operations, next.node, NextBit(d, destination));
      Drive(m, base, p.active[destination], next, inits, d.ids, nexts);
      nexts := nexts + [next.node];
    }
  }

  method DeclareStates(m: Module, ghost base: Sys, a: Automaton, name: string, zero: Value, one: Value)
    returns (active: seq<Value>, ghost inits: seq<NodeId>, ghost ids: seq<NodeId>)
    requires Grows(base, m.View()) && m.states == base.states && zero.width == one.width == 1
    requires Means(m.operations, zero.node, Constantly(false)) && Means(m.operations, one.node, Constantly(true))
    modifies m`operations, m`states
    ensures Registers(base, m.View(), inits, ids, []) && Carries(old(m.operations), m.operations)
    ensures |active| == |ids| == |inits| == a.states && InitsMean(m.operations, a, inits)
    ensures forall k :: 0 <= k < |ids| ==> active[k] == Value(ids[k], 1) && Means(m.operations, ids[k], Leaf(ids[k]))
  {
    hide Means, IsStateBit, Grows, Registers;
    ghost var start := m.operations;
    NoRegisters(base, m.View());
    active, inits, ids := [], [], [];
    for state := 0 to a.states
      invariant Registers(base, m.View(), inits, ids, []) && Carries(start, m.operations)
      invariant |active| == |ids| == |inits| == state && InitsMean(m.operations, a, inits)
      invariant forall k :: 0 <= k < |ids| ==> active[k] == Value(ids[k], 1) && Means(m.operations, ids[k], Leaf(ids[k]))
    {
      var initial := if state == a.initial then one else zero;
      MeansBoolean(m.operations, initial.node, Constantly(state == a.initial));
      var bit := Declare(m, base, initial, name, inits, ids);
      active, inits, ids := active + [bit], inits + [initial.node], ids + [bit.node];
    }
  }

  // ----- the whole monitor -----

  ghost function MustMove(d: Design): Meaning
    requires Fitting(d)
  {
    OrOf(NotOf(Enabled(d.w)), Taken(d, |d.a.transitions|))
  }

  ghost function Accepts(d: Design): Meaning
    requires Fitting(d)
  {
    AndOf(Enabled(d.w), Accepting(d, d.a.states))
  }

  ghost predicate StatesWired(sys: Sys, d: Design)
    requires Fitting(d)
  {
    forall q :: 0 <= q < d.a.states ==> BitRegister(sys, d.ids[q], q == d.a.initial, NextBit(d, q))
  }

  ghost predicate PropertiesWired(base: Sys, sys: Sys, d: Design)
    requires Fitting(d)
  {
    var n := |base.properties|;
    && |sys.properties| == n + 2
    && sys.properties[n].kind == Constraint && Means(sys.operations, sys.properties[n].condition, MustMove(d))
    && sys.properties[n + 1].kind == Justice && |sys.properties[n + 1].conditions| == 1
    && Means(sys.operations, sys.properties[n + 1].conditions[0], Accepts(d))
  }

  /** Results are reported under the name of the directive. */
  predicate PropertiesNamed(base: Sys, sys: Sys, name: string) {
    && |sys.properties| == |base.properties| + 2
    && sys.properties[|base.properties|].name == name + ".transition" && sys.properties[|base.properties| + 1].name == name
  }

  predicate ChoiceFresh(base: Sys, sys: Sys, d: Design) {
    d.a.deterministic ||
    (IsChoice(sys.operations, d.choice, ChoiceWidth(|d.a.transitions|)) && d.choice > |base.operations| && d.choice !in d.ids)
  }

  /** `sys` is `base` with the monitor `d` added. */
  ghost predicate Implements(base: Sys, sys: Sys, d: Design) {
    Fitting(d) && Adds(base, sys, d.ids) && ChoiceFresh(base, sys, d) && StatesWired(sys, d) && PropertiesWired(base, sys, d)
  }

  lemma StatesDone(base: Sys, sys: Sys, d: Design, inits: seq<NodeId>, nexts: seq<NodeId>)
    requires Fitting(d) && Registers(base, sys, inits, d.ids, nexts) && |nexts| == d.a.states
    requires NextsMean(sys.operations, d, nexts) && InitsMean(sys.operations, d.a, inits)
    ensures StatesWired(sys, d) && Adds(base, sys, d.ids)
  {
    hide Means, IsStateBit, Grows, WellFormed, NextBit, BitRegister;
    RegistersAdd(base, sys, inits, d.ids, nexts);
    forall q | 0 <= q < d.a.states
      ensures BitRegister(sys, d.ids[q], q == d.a.initial, NextBit(d, q))
    {
      RegisterDone(base, sys, inits, d.ids, nexts, q, q == d.a.initial, NextBit(d, q));
    }
  }

  lemma StatesStay(base: Sys, sys: Sys, sys': Sys, d: Design)
    requires Fitting(d) && StatesWired(sys, d) && Adds(base, sys, d.ids)
    requires Grows(base, sys') && sys'.states == sys.states && Carries(sys.operations, sys'.operations)
    ensures StatesWired(sys', d) && Adds(base, sys', d.ids)
  {
    hide Means, IsStateBit, WellFormed, NextBit;
    GrowsWellTyped(base, sys');
    forall q | 0 <= q < d.a.states
      ensures BitRegister(sys', d.ids[q], q == d.a.initial, NextBit(d, q))
    {
      assert BitRegister(sys, d.ids[q], q == d.a.initial, NextBit(d, q));
    }
  }

  /** State registers and selected transitions. */
  method LowerStates(m: Module, ghost base: Sys, a: Automaton, v: Lowered, ghost w: Signals, choice: Value, enabled: Value, name: string)
    returns (ghost d: Design, p: Parts, selected: seq<Value>, ghost inits: seq<NodeId>)
    requires Grows(base, m.View()) && m.states == base.states && Carry(m.operations, v, w) && WellFormed(a, |w.atoms|)
    requires Means(m.operations, enabled.node, Enabled(w))
    requires !a.deterministic ==>
               choice.width == ChoiceWidth(|a.transitions|) && IsChoice(base.operations, choice.node, choice.width)
    modifies m`operations, m`states
    ensures Registers(base, m.View(), inits, d.ids, []) && d == Design(a, w, choice.node, d.ids)
    ensures PartsMean(m.operations, d, p) && |selected| == |a.transitions| && SelectedMean(m.operations, d, selected)
    ensures |inits| == |d.ids| && InitsMean(m.operations, a, inits)
  {
    hide Means, IsStateBit, Grows, Registers, Enabled, WellFormed, IsChoice, ChoiceWidth;
    ghost var s0 := m.operations;
    var zero := Constant(m, base, false);
    var one := Constant(m, base, true);
    ghost var s1 := m.operations;
    CarriesKept(s0, s1, v, w);
    var active;
    ghost var ids;
    active, inits, ids := DeclareStates(m, base, a, name, zero, one);
    ghost var s2 := m.View();
    CarriesKept(s1, s2.operations, v, w);
    d, p := Design(a, w, choice.node, ids), Parts(v, choice, active, zero, one, enabled);
    RegistersGrow(base, s2, inits, ids, []);
    selected := SelectTransitions(m, base, d, a, p);
    RegistersKept(base, s2, m.View(), inits, ids, []);
    InitsKept(s2.operations, m.operations, a, inits);
  }

  lemma CarriesKept(ops: seq<Operation>, ops': seq<Operation>, v: Lowered, w: Signals)
    requires Carry(ops, v, w) && Carries(ops, ops')
    ensures Carry(ops', v, w)
  {
    hide Means, IsStateBit;
  }

  /** At every enabled step a transition must be taken. */
  method LowerConstraint(m: Module, ghost base: Sys, ghost d: Design, p: Parts, selected: seq<Value>, name: string)
    returns (constraint: Value)
    requires Grows(base, m.View()) && PartsMean(m.operations, d, p)
    requires |selected| == |d.a.transitions| && SelectedMean(m.operations, d, selected)
    modifies m`operations, m`properties
    ensures Grows(base, m.View()) && Carries(old(m.operations), m.operations)
    ensures Means(m.operations, constraint.node, MustMove(d))
    ensures m.properties == old(m.properties) + [Property(Constraint, constraint.node, name, [])]
  {
    hide Means, IsStateBit, Grows, Enabled, WellFormed, Taken, AtomsMean;
    ghost var s0 := m.operations;
    var taken := TransitionTaken(m, base, d, p.zero, selected);
    PartsKept(s0, m.operations, d, p);
    var idle := LogicalNot(m, base, p.enabled, Enabled(d.w));
    constraint := LogicalOr(m, base, idle, taken, NotOf(Enabled(d.w)), Taken(d, |selected|));
    MeansBoolean(m.operations, constraint.node, MustMove(d));
    Constrain(m, base, constraint, name);
  }

  method LowerJustice(m: Module, ghost base: Sys, ghost d: Design, a: Automaton, p: Parts, name: string) returns (condition: Value)
    requires Grows(base, m.View()) && d.a == a && PartsMean(m.operations, d, p)
    modifies m`operations, m`properties
    ensures Grows(base, m.View()) && Carries(old(m.operations), m.operations)
    ensures Means(m.operations, condition.node, Accepts(d))
    ensures m.properties == old(m.properties) + [Property(Justice, 0, name, [condition.node])]
  {
    hide Means, IsStateBit, Grows, Enabled, WellFormed, Accepting, AtomsMean;
    var accepting := AcceptingState(m, base, d, a, p);
    condition := LogicalAnd(m, base, p.enabled, accepting, Enabled(d.w), Accepting(d, a.states));
    MeansBoolean(m.operations, condition.node, Accepts(d));
    Require(m, base, condition, name);
  }

  /** The parts that do not depend on the choice input. */
  method LowerOn(m: Module, ghost base: Sys, a: Automaton, v: Lowered, ghost w: Signals, choice: Value, enabled: Value, name: string)
    returns (ghost d: Design)
    requires Grows(base, m.View()) && m.states == base.states && m.properties == base.properties
    requires Carry(m.operations, v, w) && WellFormed(a, |w.atoms|) && Means(m.operations, enabled.node, Enabled(w))
    requires !a.deterministic ==>
               choice.width == ChoiceWidth(|a.transitions|) && IsChoice(base.operations, choice.node, choice.width)
    modifies m`operations, m`states, m`properties
    ensures d == Design(a, w, choice.node, d.ids) && Fitting(d) && Adds(base, m.View(), d.ids)
    ensures StatesWired(m.View(), d) && PropertiesWired(base, m.View(), d)
    ensures PropertiesNamed(base, m.View(), name)
  {
    hide Means, IsStateBit, Grows, Registers, Carries, Enabled, WellFormed, AtomsMean, IsChoice, ChoiceWidth,
         SelectedMean, NextsMean, InitsMean, PartsMean, Carry, StatesWired, Adds, MustMove, Accepts;
    var p, selected;
    ghost var inits;
    d, p, selected, inits := LowerStates(m, base, a, v, w, choice, enabled, name);
    ghost var s1 := m.View();
    RegistersGrow(base, s1, inits, d.ids, []);
    PartsFit(s1.operations, d, p);
    var constraint := LowerConstraint(m, base, d, p, selected, name + ".transition");
    ghost var s2 := m.View();
    RegistersKept(base, s1, s2, inits, d.ids, []);
    PartsKept(s1.operations, s2.operations, d, p);
    SelectedKept(s1.operations, s2.operations, d, selected);
    InitsKept(s1.operations, s2.operations, a, inits);
    ghost var nexts := DriveStates(m, base, d, a, p, selected, inits);
    ghost var s3 := m.View();
    RegistersGrow(base, s3, inits, d.ids, nexts);
    PartsKept(s2.operations, s3.operations, d, p);
    InitsKept(s2.operations, s3.operations, a, inits);
    StatesDone(base, s3, d, inits, nexts);
    var condition := LowerJustice(m, base, d, a, p, name);
    ghost var s4 := m.View();
    StatesStay(base, s3, s4, d);
    MeansKept(s2.operations, s3.operations, constraint.node, MustMove(d));
    MeansKept(s3.operations, s4.operations, constraint.node, MustMove(d));
  }

  lemma PartsFit(ops: seq<Operation>, d: Design, p: Parts)
    requires PartsMean(ops, d, p)
    ensures Fitting(d)
  {
  }

  lemma Rebased(base: Sys, start: Sys, sys: Sys, d: Design)
    requires Grows(base, start) && start.states == base.states && start.properties == base.properties
    requires Fitting(d) && Adds(start, sys, d.ids) && StatesWired(sys, d) && PropertiesWired(start, sys, d)
    requires !d.a.deterministic ==>
               |base.operations| < d.choice && IsChoice(start.operations, d.choice, ChoiceWidth(|d.a.transitions|))
    ensures Implements(base, sys, d)
  {
    hide StatesWired, WellFormed, Means, WellTyped;
    GrowsTransitive(base, start, sys);
    if !d.a.deterministic {
      GrowsEval(start, sys, d.choice, _ => 0);
    }
  }

  /** A justice property that no run satisfies. */
  ghost predicate NeverAccepts(base: Sys, sys: Sys) {
    var n := |base.properties|;
    && Grows(base, sys) && sys.states == base.states && |sys.properties| == n + 1
    && sys.properties[n].kind == Justice && |sys.properties[n].conditions| == 1
    && Means(sys.operations, sys.properties[n].conditions[0], Constantly(false))
  }

  method Lower(m: Module, v: Lowered, ghost w: Signals, a: Automaton, name: string) returns (ghost d: Design)
    requires WellTyped(m.View()) && Carry(m.operations, v, w)
    requires a.states > 0 && a.transitions != [] ==> WellFormed(a, |w.atoms|)
    modifies m`operations, m`states, m`properties
    ensures |m.properties| > |old(m.properties)|
    ensures if a.states == 0 || a.transitions == [] then NeverAccepts(old(m.View()), m.View())
            else d.a == a && d.w == w && Implements(old(m.View()), m.View(), d) && PropertiesNamed(old(m.View()), m.View(), name)
    ensures m.properties[|m.properties| - 1].name == name && m.properties[..|old(m.properties)|] == old(m.properties)
  {
    hide Means, IsStateBit, Grows, Carries, WellFormed, AtomsMean, IsChoice, ChoiceWidth, Carry, StatesWired,
         Adds, Implements, PropertiesWired, WellTyped, Enabled;
    ghost var base := m.View();
    GrowsSelf(base);
    d := Design(a, w, 0, []);
    if a.states == 0 || a.transitions == [] {
      var never := Constant(m, base, false);
      MeansBoolean(m.operations, never.node, Constantly(false));
      Require(m, base, never, name);
      return;
    }
    var enabled := EnabledStep(m, base, v, w);
    ghost var middle := m.View();
    var choice := Value(0, 0);
    if !a.deterministic {
      choice := ChoiceInput(m, base, ChoiceWidth(|a.transitions|), |a.transitions|, name);
      CarriesKept(middle.operations, m.operations, v, w);
      MeansKept(middle.operations, m.operations, enabled.node, Enabled(w));
    }
    ghost var start := m.View();
    GrowsWellTyped(base, start);
    GrowsSelf(start);
    d := LowerOn(m, start, a, v, w, choice, enabled, name);
    Rebased(base, start, m.View(), d);
    PropertiesGrow(base, m.View(), d);
  }

  lemma PropertiesGrow(base: Sys, sys: Sys, d: Design)
    requires Implements(base, sys, d)
    ensures |sys.properties| == |base.properties| + 2 && sys.properties[..|base.properties|] == base.properties
  {
    hide StatesWired, WellFormed, Means, WellTyped;
  }

  method EnabledStep(m: Module, ghost base: Sys, v: Lowered, ghost w: Signals) returns (enabled: Value)
    requires Grows(base, m.View()) && Carry(m.operations, v, w)
    modifies m`operations
    ensures Grows(base, m.View()) && Carry(m.operations, v, w) && Means(m.operations, enabled.node, Enabled(w))
  {
    hide Means, IsStateBit, Grows, AtomsMean;
    ghost var s0 := m.operations;
    var running := LogicalNot(m, base, v.disable, w.disable);
    ghost var s1 := m.operations;
    CarriesKept(s0, s1, v, w);
    enabled := LogicalAnd(m, base, v.sample, running, w.sample, NotOf(w.disable));
    CarriesKept(s1, m.operations, v, w);
  }

  method ChoiceInput(m: Module, ghost base: Sys, width: nat, n: nat, name: string) returns (choice: Value)
    requires Grows(base, m.View()) && n > 0 && width == ChoiceWidth(n)
    modifies m`operations
    ensures Grows(base, m.View()) && Carries(old(m.operations), m.operations)
    ensures choice.width == width && IsChoice(m.operations, choice.node, width) && |base.operations| < choice.node
  {
    hide Means, IsStateBit, Carries, ChoiceWidth;
    ChoiceFits(n, 0);
    choice := EmitOn(m, base, Operation(Input, width, [], [], name + ".edge", ""));
  }

  // ----- what the monitor does in a run -----

  function StimulusOf(w: Signals, run: Run): Stimulus {
    Stimulus((t: nat) => w.sample(run(t)), (t: nat) => w.disable(run(t)), (t: nat) => LetterAt(w.atoms, run(t)))
  }

  /** Exactly the register of state `q` is set. */
  ghost predicate OneHot(d: Design, env: Env, q: nat)
    requires Fitting(d)
  {
    q < d.a.states && forall k :: 0 <= k < d.a.states ==> (Leaf(d.ids[k])(env) <==> k == q)
  }

  /** Deterministic automata come with exclusive guards. */
  ghost predicate Decided(a: Automaton) {
    a.deterministic ==> Exclusive(a)
  }

  lemma SelectedAt(d: Design, env: Env, q: nat, i: nat)
    requires Fitting(d) && OneHot(d, env, q) && i < |d.a.transitions|
    ensures Selected(d, i)(env) <==> Chosen(d, i)(env) && Enables(d.a, i, q, LetterAt(d.w.atoms, env))
  {
    GuardHolds(d.a.transitions[i].guard, d.w.atoms, env);
  }

  lemma SelectedUnique(d: Design, env: Env, q: nat, i: nat, j: nat)
    requires Fitting(d) && OneHot(d, env, q) && Decided(d.a) && i < |d.a.transitions| && j < |d.a.transitions|
    requires Selected(d, i)(env) && Selected(d, j)(env)
    ensures i == j
  {
    hide Selected, Holds;
    SelectedAt(d, env, q, i);
    SelectedAt(d, env, q, j);
    if d.a.deterministic {
      assert Enables(d.a, i, q, LetterAt(d.w.atoms, env)) && Enables(d.a, j, q, LetterAt(d.w.atoms, env));
    }
  }

  lemma {:induction false} TakenAt(d: Design, env: Env, n: nat)
    requires Fitting(d) && n <= |d.a.transitions|
    ensures Taken(d, n)(env) <==> exists i: nat :: i < n && Selected(d, i)(env)
  {
    hide Selected;
    if n != 0 {
      TakenAt(d, env, n - 1);
    }
  }

  lemma {:induction false} IntoAt(d: Design, env: Env, q: nat, n: nat)
    requires Fitting(d) && n <= |d.a.transitions|
    ensures Into(d, q, n)(env) <==> exists i: nat :: i < n && d.a.transitions[i].destination == q && Selected(d, i)(env)
  {
    hide Selected;
    if n != 0 {
      IntoAt(d, env, q, n - 1);
    }
  }

  lemma {:induction false} AcceptingAt(d: Design, env: Env, q: nat, n: nat)
    requires Fitting(d) && OneHot(d, env, q) && n <= d.a.states
    ensures Accepting(d, n)(env) <==> q < n && d.a.accepting[q]
  {
    if n != 0 {
      AcceptingAt(d, env, q, n - 1);
    }
  }

  /** Where the circuit goes, when exactly transition `i` is selected. */
  lemma NextBits(d: Design, env: Env, q: nat, i: nat, k: nat)
    requires Fitting(d) && OneHot(d, env, q) && Decided(d.a) && k < d.a.states
    requires Enabled(d.w)(env) ==> i < |d.a.transitions| && Selected(d, i)(env)
    ensures NextBit(d, k)(env) <==>
              if d.w.disable(env) then k == d.a.initial
              else if d.w.sample(env) then k == d.a.transitions[i].destination
              else k == q
  {
    hide Selected, Into, WellFormed;
    IntoAt(d, env, k, |d.a.transitions|);
    if Enabled(d.w)(env) {
      forall j: nat | j < |d.a.transitions| && Selected(d, j)(env)
        ensures j == i
      {
        SelectedUnique(d, env, q, i, j);
      }
    }
  }

  // ----- every constrained run follows the automaton -----

  /** The state whose register is set. */
  ghost function StateAt(d: Design, env: Env): nat
    requires Fitting(d)
  {
    if exists q: nat :: OneHot(d, env, q) then
      var q: nat :| OneHot(d, env, q);
      q
    else 0
  }

  /** The transition that is selected. */
  ghost function EdgeAt(d: Design, env: Env): nat
    requires Fitting(d)
  {
    if exists i: nat :: i < |d.a.transitions| && Selected(d, i)(env) then
      var i: nat :| i < |d.a.transitions| && Selected(d, i)(env);
      i
    else 0
  }

  lemma StateIs(d: Design, env: Env, q: nat)
    requires Fitting(d) && OneHot(d, env, q)
    ensures StateAt(d, env) == q
  {
    assert Leaf(d.ids[q])(env);
  }

  ghost predicate Constrained(d: Design, run: Run)
    requires Fitting(d)
  {
    forall t: nat :: MustMove(d)(run(t))
  }

  lemma EdgeSelected(d: Design, env: Env)
    requires Fitting(d) && MustMove(d)(env) && Enabled(d.w)(env)
    ensures EdgeAt(d, env) < |d.a.transitions| && Selected(d, EdgeAt(d, env))(env)
  {
    hide Selected;
    TakenAt(d, env, |d.a.transitions|);
  }

  lemma InitialState(sys: Sys, d: Design, run: Run)
    requires Fitting(d) && WellTyped(sys) && StatesWired(sys, d) && IsRun(sys, run)
    ensures OneHot(d, run(0), d.a.initial) && StateAt(d, run(0)) == d.a.initial
  {
    hide IsRun, BitRegister, NextBit, Leaf, UsesBelow;
    forall k | 0 <= k < d.a.states
      ensures Leaf(d.ids[k])(run(0)) <==> k == d.a.initial
    {
      BitRegisterRuns(sys, d.ids[k], k == d.a.initial, NextBit(d, k), run, 0);
    }
    StateIs(d, run(0), d.a.initial);
  }

  lemma StateSteps(sys: Sys, d: Design, run: Run, t: nat)
    requires Fitting(d) && WellTyped(sys) && StatesWired(sys, d) && IsRun(sys, run) && Constrained(d, run) && Decided(d.a)
    requires OneHot(d, run(t), StateAt(d, run(t)))
    ensures OneHot(d, run(t + 1), StateAt(d, run(t + 1)))
    ensures StepsTo(d.a, StimulusOf(d.w, run), t, StateAt(d, run(t)), EdgeAt(d, run(t)), StateAt(d, run(t + 1)))
  {
    hide IsRun, BitRegister, NextBit, Leaf, Exclusive, Selected, StateAt, EdgeAt, Taken;
    var env, q, i := run(t), StateAt(d, run(t)), EdgeAt(d, run(t));
    if Enabled(d.w)(env) {
      EdgeSelected(d, env);
      SelectedAt(d, env, q, i);
    }
    var to := if d.w.disable(env) then d.a.initial else if d.w.sample(env) then d.a.transitions[i].destination else q;
    forall k | 0 <= k < d.a.states
      ensures Leaf(d.ids[k])(run(t + 1)) <==> k == to
    {
      BitRegisterRuns(sys, d.ids[k], k == d.a.initial, NextBit(d, k), run, t);
      NextBits(d, env, q, i, k);
    }
    StateIs(d, run(t + 1), to);
  }

  lemma {:induction false} OneHotAlways(sys: Sys, d: Design, run: Run, t: nat)
    requires Fitting(d) && WellTyped(sys) && StatesWired(sys, d) && IsRun(sys, run) && Constrained(d, run) && Decided(d.a)
    ensures OneHot(d, run(t), StateAt(d, run(t)))
  {
    hide IsRun, StatesWired, OneHot, StateAt, Constrained, WellTyped, Fitting, Decided;
    if t == 0 {
      InitialState(sys, d, run);
    } else {
      OneHotAlways(sys, d, run, t - 1);
      StateSteps(sys, d, run, t - 1);
    }
  }

  /** Main result: in every constrained run, the states follow the automaton on the sampled letters. */
  lemma RunFollows(sys: Sys, d: Design, run: Run)
    requires Fitting(d) && WellTyped(sys) && StatesWired(sys, d) && IsRun(sys, run) && Constrained(d, run) && Decided(d.a)
    ensures forall t: nat :: OneHot(d, run(t), StateAt(d, run(t)))
    ensures Follows(d.a, StimulusOf(d.w, run), (t: nat) => StateAt(d, run(t)), (t: nat) => EdgeAt(d, run(t)))
  {
    hide IsRun, StatesWired, OneHot, StateAt, EdgeAt, Constrained, WellTyped, Fitting, Decided, StepsTo;
    var s, q, edge := StimulusOf(d.w, run), (t: nat) => StateAt(d, run(t)), (t: nat) => EdgeAt(d, run(t));
    InitialState(sys, d, run);
    forall t: nat
      ensures OneHot(d, run(t), q(t)) && StepsTo(d.a, s, t, q(t), edge(t), q(t + 1))
    {
      OneHotAlways(sys, d, run, t);
      StateSteps(sys, d, run, t);
    }
  }

  predicate InAccepting(a: Automaton, q: nat) {
    q < |a.accepting| && a.accepting[q]
  }

  /** The justice condition holds exactly at the enabled steps in accepting states. */
  lemma JusticeIsAcceptance(d: Design, env: Env, q: nat)
    requires Fitting(d) && OneHot(d, env, q)
    ensures Accepts(d)(env) <==> d.w.sample(env) && !d.w.disable(env) && InAccepting(d.a, q)
  {
    hide Accepting;
    AcceptingAt(d, env, q, d.a.states);
  }

  // ----- every path of the automaton is realised -----

  /** The run that takes path `q` by choosing transitions `edge`. */
  ghost function Realising(d: Design, q: nat -> nat, edge: nat -> nat, run: Run): Run {
    (t: nat) => (id: NodeId) =>
      if id in d.ids then Flag(IndexOf(d.ids, id) == q(t))
      else if !d.a.deterministic && id == d.choice then edge(t)
      else run(t)(id)
  }

  lemma RealisedBelow(base: Sys, sys: Sys, d: Design, q: nat -> nat, edge: nat -> nat, run: Run, t: nat)
    requires Fitting(d) && Adds(base, sys, d.ids) && ChoiceFresh(base, sys, d)
    ensures SameBelow(|base.operations|, run(t), Realising(d, q, edge, run)(t))
  {
    hide Grows, WellFormed, IsChoice;
  }

  lemma RealisedOneHot(base: Sys, sys: Sys, d: Design, q: nat -> nat, edge: nat -> nat, run: Run, t: nat)
    requires Fitting(d) && Adds(base, sys, d.ids) && q(t) < d.a.states
    ensures OneHot(d, Realising(d, q, edge, run)(t), q(t))
  {
    hide Grows, WellFormed;
    forall k | 0 <= k < d.a.states
      ensures Leaf(d.ids[k])(Realising(d, q, edge, run)(t)) <==> k == q(t)
    {
      NewIdsDistinct(base, sys, d.ids, k, IndexOf(d.ids, d.ids[k]));
    }
  }

  lemma RealisedChoice(base: Sys, sys: Sys, d: Design, q: nat -> nat, edge: nat -> nat, run: Run, t: nat)
    requires ChoiceFresh(base, sys, d) && edge(t) < |d.a.transitions|
    ensures Chosen(d, edge(t))(Realising(d, q, edge, run)(t))
  {
    ChoiceFits(|d.a.transitions|, edge(t));
    SmallModulo(edge(t), Pow2(ChoiceWidth(|d.a.transitions|)));
  }

  /** The drive of the automaton reads only what the base system has. */
  lemma {:induction false} LettersBelow(ops: seq<Operation>, v: Lowered, w: Signals, guard: Guard, env: Env, env': Env)
    requires Carry(ops, v, w) && SameBelow(|ops|, env, env') && UsesBelow(guard, |w.atoms|)
    ensures Holds(guard, LetterAt(w.atoms, env)) <==> Holds(guard, LetterAt(w.atoms, env'))
  {
    hide Means;
    match guard
    case Truth(value) =>
    case Atom(index) => MeansBelow(ops, v.atoms[index].node, w.atoms[index], env, env');
    case Negation(operand) => LettersBelow(ops, v, w, operand, env, env');
    case Conjunction(left, right) => LettersBelow(ops, v, w, left, env, env'); LettersBelow(ops, v, w, right, env, env');
    case Disjunction(left, right) => LettersBelow(ops, v, w, left, env, env'); LettersBelow(ops, v, w, right, env, env');
  }

  lemma {:induction false} PathStays(d: Design, s: Stimulus, q: nat -> nat, edge: nat -> nat, t: nat)
    requires Fitting(d) && Follows(d.a, s, q, edge)
    ensures q(t) < d.a.states
  {
    if t > 0 {
      PathStays(d, s, q, edge, t - 1);
      assert StepsTo(d.a, s, t - 1, q(t - 1), edge(t - 1), q(t - 1 + 1));
    }
  }

  /** In the realising run, the chosen transition is selected at every enabled step. */
  lemma RealisedSelects(base: Sys, sys: Sys, v: Lowered, d: Design, q: nat -> nat, edge: nat -> nat, run: Run, t: nat)
    requires Fitting(d) && Adds(base, sys, d.ids) && ChoiceFresh(base, sys, d) && Carry(base.operations, v, d.w)
    requires Follows(d.a, StimulusOf(d.w, run), q, edge)
    ensures var env := Realising(d, q, edge, run)(t);
            && d.w.sample(env) == d.w.sample(run(t)) && d.w.disable(env) == d.w.disable(run(t))
            && (Enabled(d.w)(env) ==> edge(t) < |d.a.transitions| && Selected(d, edge(t))(env))
  {
    hide Means, Grows, OneHot, Realising, Chosen, Selected, Adds, IsChoice, ChoiceFresh, SameBelow, Holds;
    var s, env := StimulusOf(d.w, run), Realising(d, q, edge, run)(t);
    RealisedBelow(base, sys, d, q, edge, run, t);
    PathStays(d, s, q, edge, t);
    RealisedOneHot(base, sys, d, q, edge, run, t);
    MeansBelow(base.operations, v.sample.node, d.w.sample, run(t), env);
    MeansBelow(base.operations, v.disable.node, d.w.disable, run(t), env);
    assert StepsTo(d.a, s, t, q(t), edge(t), q(t + 1));
    if Enabled(d.w)(env) {
      var guard := d.a.transitions[edge(t)].guard;
      LettersBelow(base.operations, v, d.w, guard, run(t), env);
      RealisedChoice(base, sys, d, q, edge, run, t);
      SelectedAt(d, env, q(t), edge(t));
    }
  }

  lemma RealisedObeys(base: Sys, sys: Sys, v: Lowered, d: Design, q: nat -> nat, edge: nat -> nat, run: Run, k: nat)
    requires Fitting(d) && Adds(base, sys, d.ids) && ChoiceFresh(base, sys, d) && Carry(base.operations, v, d.w) && Decided(d.a)
    requires Follows(d.a, StimulusOf(d.w, run), q, edge) && k < d.a.states
    ensures Obeys(d.ids[k], k == d.a.initial, NextBit(d, k), Realising(d, q, edge, run))
  {
    hide Carry, Realising, Selected, Adds, ChoiceFresh, NextBit, Leaf, Exclusive, Enables;
    var s, run' := StimulusOf(d.w, run), Realising(d, q, edge, run);
    PathStays(d, s, q, edge, 0);
    RealisedOneHot(base, sys, d, q, edge, run, 0);
    forall t: nat
      ensures Leaf(d.ids[k])(run'(t + 1)) == NextBit(d, k)(run'(t))
    {
      PathStays(d, s, q, edge, t);
      PathStays(d, s, q, edge, t + 1);
      RealisedOneHot(base, sys, d, q, edge, run, t);
      RealisedOneHot(base, sys, d, q, edge, run, t + 1);
      RealisedSelects(base, sys, v, d, q, edge, run, t);
      assert StepsTo(d.a, s, t, q(t), edge(t), q(t + 1));
      NextBits(d, run'(t), q(t), edge(t), k);
    }
  }

  lemma RealisedMoves(base: Sys, sys: Sys, v: Lowered, d: Design, q: nat -> nat, edge: nat -> nat, run: Run, t: nat)
    requires Fitting(d) && Adds(base, sys, d.ids) && ChoiceFresh(base, sys, d) && Carry(base.operations, v, d.w)
    requires Follows(d.a, StimulusOf(d.w, run), q, edge)
    ensures MustMove(d)(Realising(d, q, edge, run)(t))
  {
    hide Carry, Realising, Selected, Adds, ChoiceFresh, Follows;
    RealisedSelects(base, sys, v, d, q, edge, run, t);
    TakenAt(d, Realising(d, q, edge, run)(t), |d.a.transitions|);
  }

  /** Main result: every path of the automaton on a run of the design is taken by some constrained run of the monitor. */
  lemma PathRealised(base: Sys, sys: Sys, v: Lowered, d: Design, q: nat -> nat, edge: nat -> nat, run: Run) returns (run': Run)
    requires Implements(base, sys, d) && Carry(base.operations, v, d.w) && Decided(d.a)
    requires WellTyped(base) && WellTyped(sys) && IsRun(base, run) && Follows(d.a, StimulusOf(d.w, run), q, edge)
    ensures IsRun(sys, run') && Constrained(d, run')
    ensures forall t: nat :: SameBelow(|base.operations|, run(t), run'(t))
    ensures forall t: nat :: OneHot(d, run'(t), q(t))
  {
    hide Carry, Realising, Adds, ChoiceFresh, Follows, IsRun, Obeys, BitRegister, NextBit, OneHot, SameBelow, MustMove,
         WellTyped, PropertiesWired, WellFormed;
    run' := Realising(d, q, edge, run);
    var gs := seq<Meaning>(d.a.states, k requires 0 <= k < d.a.states => NextBit(d, k));
    var starts := seq(d.a.states, k => k == d.a.initial);
    forall k | 0 <= k < d.a.states
      ensures Obeys(d.ids[k], starts[k], gs[k], run')
    {
      RealisedObeys(base, sys, v, d, q, edge, run, k);
    }
    forall t: nat
      ensures SameBelow(|base.operations|, run(t), run'(t)) && MustMove(d)(run'(t)) && OneHot(d, run'(t), q(t))
    {
      RealisedBelow(base, sys, d, q, edge, run, t);
      RealisedMoves(base, sys, v, d, q, edge, run, t);
      PathStays(d, StimulusOf(d.w, run), q, edge, t);
      RealisedOneHot(base, sys, d, q, edge, run, t);
    }
    RegistersRun(base, sys, d.ids, starts, gs, run, run');
  }

  // ----- in terms of the properties of the emitted system -----

  ghost predicate ConstraintHolds(sys: Sys, k: nat, env: Env)
    requires WellTyped(sys) && k < |sys.properties|
  {
    var p := sys.properties[k];
    p.kind == Constraint ==> InRange(sys.operations, p.condition) && Eval(sys.operations, p.condition, env) == 1
  }

  /** Every constraint holds at every step. */
  ghost predicate Admitted(sys: Sys, run: Run)
    requires WellTyped(sys)
  {
    forall t: nat, k: nat :: k < |sys.properties| ==> ConstraintHolds(sys, k, run(t))
  }

  lemma OldConstraint(base: Sys, sys: Sys, k: nat, env: Env, env': Env)
    requires Grows(base, sys) && k < |base.properties| && SameBelow(|base.operations|, env, env')
    ensures k < |sys.properties| && (ConstraintHolds(base, k, env) ==> ConstraintHolds(sys, k, env'))
  {
    assert sys.properties[k] == sys.properties[..|base.properties|][k];
    var p := base.properties[k];
    if p.kind == Constraint && InRange(base.operations, p.condition) {
      EvalAgrees(base.operations, p.condition, env, env');
      GrowsEval(base, sys, p.condition, env');
    }
  }

  lemma NewConstraint(base: Sys, sys: Sys, d: Design, env: Env)
    requires Implements(base, sys, d) && WellTyped(sys)
    ensures |base.properties| < |sys.properties|
    ensures ConstraintHolds(sys, |base.properties|, env) <==> MustMove(d)(env)
  {
    hide MustMove, Accepts, StatesWired, WellFormed, ChoiceFresh;
    var id := sys.properties[|base.properties|].condition;
    assert Means(sys.operations, id, MustMove(d));
    assert Bit(sys.operations, id, env) == MustMove(d)(env);
  }

  /** Main result: in every run that meets the constraints, one register is set and the states follow the automaton. */
  lemma AdmittedFollows(base: Sys, sys: Sys, d: Design, run: Run)
    requires Implements(base, sys, d) && WellTyped(sys) && IsRun(sys, run) && Admitted(sys, run) && Decided(d.a)
    ensures forall t: nat :: OneHot(d, run(t), StateAt(d, run(t)))
    ensures Follows(d.a, StimulusOf(d.w, run), (t: nat) => StateAt(d, run(t)), (t: nat) => EdgeAt(d, run(t)))
  {
    hide IsRun, StatesWired, OneHot, StateAt, EdgeAt, WellTyped, WellFormed, Decided, Follows, MustMove, PropertiesWired, ConstraintHolds;
    forall t: nat
      ensures MustMove(d)(run(t))
    {
      NewConstraint(base, sys, d, run(t));
      assert ConstraintHolds(sys, |base.properties|, run(t));
    }
    RunFollows(sys, d, run);
  }

  /** Main result: every path of the automaton over an admitted run of the design is taken by an admitted run of the monitor. */
  lemma PathAdmitted(base: Sys, sys: Sys, v: Lowered, d: Design, q: nat -> nat, edge: nat -> nat, run: Run) returns (run': Run)
    requires Implements(base, sys, d) && Carry(base.operations, v, d.w) && Decided(d.a) && WellTyped(base) && WellTyped(sys)
    requires IsRun(base, run) && Admitted(base, run) && Follows(d.a, StimulusOf(d.w, run), q, edge)
    ensures IsRun(sys, run') && Admitted(sys, run')
    ensures forall t: nat :: SameBelow(|base.operations|, run(t), run'(t)) && OneHot(d, run'(t), q(t))
  {
    hide IsRun, OneHot, WellTyped, Decided, Follows, MustMove, ConstraintHolds, SameBelow, Carry, Implements, Grows;
    TwoProperties(base, sys, d);
    run' := PathRealised(base, sys, v, d, q, edge, run);
    forall t: nat, k: nat | k < |sys.properties|
      ensures ConstraintHolds(sys, k, run'(t))
    {
      var n := |base.properties|;
      if k < n {
        assert ConstraintHolds(base, k, run(t));
        OldConstraint(base, sys, k, run(t), run'(t));
      } else if k == n {
        NewConstraint(base, sys, d, run'(t));
      } else {
        JusticeUnconstrained(sys, k, run'(t));
      }
    }
  }

  lemma TwoProperties(base: Sys, sys: Sys, d: Design)
    requires Implements(base, sys, d)
    ensures Fitting(d) && Grows(base, sys) && |sys.properties| == |base.properties| + 2
    ensures sys.properties[|base.properties| + 1].kind == Justice
  {
    hide Grows, StatesWired, WellFormed;
  }

  lemma JusticeUnconstrained(sys: Sys, k: nat, env: Env)
    requires WellTyped(sys) && k < |sys.properties| && sys.properties[k].kind == Justice
    ensures ConstraintHolds(sys, k, env)
  {
  }

  /** The emitted justice condition is the acceptance condition. */
  lemma JusticeHolds(base: Sys, sys: Sys, d: Design, env: Env)
    requires Implements(base, sys, d) && OneHot(d, env, StateAt(d, env))
    ensures |sys.properties| == |base.properties| + 2
    ensures var p := sys.properties[|base.properties| + 1];
            && p.kind == Justice && |p.conditions| == 1 && TypedOperations(sys.operations) && IsBoolean(sys.operations, p.conditions[0])
            && (Bit(sys.operations, p.conditions[0], env) <==>
                  d.w.sample(env) && !d.w.disable(env) && InAccepting(d.a, StateAt(d, env)))
  {
    hide MustMove, Accepts, StatesWired, WellFormed, ChoiceFresh, OneHot, StateAt, InAccepting;
    var id := sys.properties[|base.properties| + 1].conditions[0];
    assert Means(sys.operations, id, Accepts(d));
    assert Bit(sys.operations, id, env) == Accepts(d)(env);
    JusticeIsAcceptance(d, env, StateAt(d, env));
  }

  /** A justice property: each of its conditions holds again and again. */
  ghost predicate Fair(sys: Sys, k: nat, run: Run)
    requires WellTyped(sys) && k < |sys.properties|
  {
    forall c: nat :: c < |sys.properties[k].conditions| ==> OftenTrue(sys, sys.properties[k].conditions[c], run)
  }

  ghost predicate OftenTrue(sys: Sys, id: NodeId, run: Run)
    requires WellTyped(sys)
  {
    IsBoolean(sys.operations, id) && InfinitelyOften((t: nat) => Bit(sys.operations, id, run(t)))
  }

  lemma OftenSame(p: Signal, r: Signal)
    requires forall t: nat :: p(t) == r(t)
    ensures InfinitelyOften(p) <==> InfinitelyOften(r)
  {
    forall t: nat
      ensures HoldsFrom(p, t) == HoldsFrom(r, t)
    {
    }
  }

  ghost function Passes(d: Design, q: nat -> nat, run: Run): Signal
    requires Fitting(d)
  {
    (t: nat) => d.w.sample(run(t)) && !d.w.disable(run(t)) && InAccepting(d.a, q(t))
  }

  lemma JusticeAt(base: Sys, sys: Sys, d: Design, q: nat, env: Env)
    requires Implements(base, sys, d) && WellTyped(sys) && OneHot(d, env, q) && |sys.properties| == |base.properties| + 2
    ensures var conditions := sys.properties[|base.properties| + 1].conditions;
            && |conditions| == 1 && TypedOperations(sys.operations) && IsBoolean(sys.operations, conditions[0])
            && (Bit(sys.operations, conditions[0], env) <==> d.w.sample(env) && !d.w.disable(env) && InAccepting(d.a, q))
  {
    hide WellTyped, Implements, OneHot, StateAt, InAccepting, Bit;
    FittingOf(base, sys, d);
    StateIs(d, env, q);
    JusticeHolds(base, sys, d, env);
  }

  lemma JusticeOften(base: Sys, sys: Sys, d: Design, q: nat -> nat, run: Run)
    requires Implements(base, sys, d) && WellTyped(sys) && forall t: nat :: OneHot(d, run(t), q(t))
    ensures |sys.properties| == |base.properties| + 2
    ensures Fair(sys, |base.properties| + 1, run) <==> InfinitelyOften(Passes(d, q, run))
  {
    hide Implements, OneHot, InAccepting, InfinitelyOften, Bit, WellTyped, Grows, Fair, OftenTrue, TypedOperations, WellFormed;
    FittingOf(base, sys, d);
    TwoProperties(base, sys, d);
    JusticeAt(base, sys, d, q(0), run(0));
    var id := sys.properties[|base.properties| + 1].conditions[0];
    var p := Passes(d, q, run);
    forall t: nat
      ensures p(t) == Bit(sys.operations, id, run(t))
    {
      JusticeAt(base, sys, d, q(t), run(t));
    }
    FairOne(sys, |base.properties| + 1, run);
    OftenMeans(sys, id, run, p);
  }

  lemma FairOne(sys: Sys, k: nat, run: Run)
    requires WellTyped(sys) && k < |sys.properties| && |sys.properties[k].conditions| == 1
    ensures Fair(sys, k, run) <==> OftenTrue(sys, sys.properties[k].conditions[0], run)
  {
    hide OftenTrue, WellTyped;
  }

  lemma OftenMeans(sys: Sys, id: NodeId, run: Run, p: Signal)
    requires WellTyped(sys) && IsBoolean(sys.operations, id) && forall t: nat :: p(t) == Bit(sys.operations, id, run(t))
    ensures OftenTrue(sys, id, run) <==> InfinitelyOften(p)
  {
    hide Bit, InfinitelyOften;
    OftenSame(p, (t: nat) => Bit(sys.operations, id, run(t)));
  }

  /** Main result: an admitted run is fair to the emitted justice property exactly when it passes accepting states again and again. */
  lemma FairIsAccepting(base: Sys, sys: Sys, d: Design, run: Run)
    requires Implements(base, sys, d) && WellTyped(sys) && IsRun(sys, run) && Admitted(sys, run) && Decided(d.a)
    ensures |sys.properties| == |base.properties| + 2
    ensures Fair(sys, |base.properties| + 1, run) <==> InfinitelyOften(Passes(d, (t: nat) => StateAt(d, run(t)), run))
  {
    hide WellTyped, Implements, OneHot, StateAt, InAccepting, InfinitelyOften, IsRun, Admitted, Fair, Follows, EdgeAt, Passes;
    FittingOf(base, sys, d);
    AdmittedFollows(base, sys, d, run);
    JusticeOften(base, sys, d, (t: nat) => StateAt(d, run(t)), run);
  }

  // ----- the monitor finds exactly the runs that the automaton accepts -----

  /** Some path of the automaton over the run passes accepting states again and again. */
  ghost predicate Accepted(d: Design, run: Run)
    requires Fitting(d)
  {
    exists q: nat -> nat, edge: nat -> nat :: Follows(d.a, StimulusOf(d.w, run), q, edge) && InfinitelyOften(Passes(d, q, run))
  }

  ghost predicate Witnesses(base: Sys, sys: Sys, run: Run, run': Run)
    requires WellTyped(sys) && |sys.properties| == |base.properties| + 2
  {
    && IsRun(sys, run') && Admitted(sys, run') && Fair(sys, |base.properties| + 1, run')
    && forall t: nat :: SameBelow(|base.operations|, run(t), run'(t))
  }

  lemma DriveBelow(base: Sys, v: Lowered, d: Design, env: Env, env': Env)
    requires Fitting(d) && Carry(base.operations, v, d.w) && SameBelow(|base.operations|, env, env')
    ensures d.w.sample(env) == d.w.sample(env') && d.w.disable(env) == d.w.disable(env')
    ensures forall i: nat, q: nat :: Enables(d.a, i, q, LetterAt(d.w.atoms, env)) <==> Enables(d.a, i, q, LetterAt(d.w.atoms, env'))
  {
    hide Means, SameBelow, Holds;
    MeansBelow(base.operations, v.sample.node, d.w.sample, env, env');
    MeansBelow(base.operations, v.disable.node, d.w.disable, env, env');
    forall i: nat, q: nat | i < |d.a.transitions|
      ensures Enables(d.a, i, q, LetterAt(d.w.atoms, env)) <==> Enables(d.a, i, q, LetterAt(d.w.atoms, env'))
    {
      LettersBelow(base.operations, v, d.w, d.a.transitions[i].guard, env, env');
    }
  }

  lemma FollowsBelow(base: Sys, v: Lowered, d: Design, run: Run, run': Run, q: nat -> nat, edge: nat -> nat)
    requires Fitting(d) && Carry(base.operations, v, d.w) && forall t: nat :: SameBelow(|base.operations|, run(t), run'(t))
    requires Follows(d.a, StimulusOf(d.w, run'), q, edge)
    ensures Follows(d.a, StimulusOf(d.w, run), q, edge)
    ensures InfinitelyOften(Passes(d, q, run)) <==> InfinitelyOften(Passes(d, q, run'))
  {
    hide Carry, SameBelow, Enables, InfinitelyOften, InAccepting, WellFormed;
    forall t: nat
      ensures StepsTo(d.a, StimulusOf(d.w, run), t, q(t), edge(t), q(t + 1)) && Passes(d, q, run)(t) == Passes(d, q, run')(t)
    {
      assert StepsTo(d.a, StimulusOf(d.w, run'), t, q(t), edge(t), q(t + 1));
      DriveBelow(base, v, d, run(t), run'(t));
    }
    OftenSame(Passes(d, q, run), Passes(d, q, run'));
  }

  lemma WitnessAccepts(base: Sys, sys: Sys, v: Lowered, d: Design, run: Run, run': Run)
    requires Implements(base, sys, d) && Carry(base.operations, v, d.w) && Decided(d.a) && WellTyped(sys)
    requires |sys.properties| == |base.properties| + 2 && Witnesses(base, sys, run, run')
    ensures Accepted(d, run)
  {
    hide Implements, Carry, WellTyped, IsRun, Admitted, Fair, SameBelow, Follows, InfinitelyOften, Passes, OneHot, StateAt, EdgeAt, Decided;
    FittingOf(base, sys, d);
    AdmittedFollows(base, sys, d, run');
    FairIsAccepting(base, sys, d, run');
    var q: nat -> nat := (t: nat) => StateAt(d, run'(t));
    var edge: nat -> nat := (t: nat) => EdgeAt(d, run'(t));
    FollowsBelow(base, v, d, run, run', q, edge);
  }

  lemma FittingOf(base: Sys, sys: Sys, d: Design)
    requires Implements(base, sys, d)
    ensures Fitting(d)
  {
  }

  /** Main result: the automaton accepts a run of the design exactly when some admitted and fair run of the monitor shows it. */
  lemma FairIffAccepted(base: Sys, sys: Sys, v: Lowered, d: Design, run: Run)
    requires Implements(base, sys, d) && Carry(base.operations, v, d.w) && Decided(d.a) && WellTyped(base) && WellTyped(sys)
    requires IsRun(base, run) && Admitted(base, run)
    ensures |sys.properties| == |base.properties| + 2
    ensures Accepted(d, run) <==> exists run': Run :: Witnesses(base, sys, run, run')
  {
    hide Implements, Carry, WellTyped, IsRun, Admitted, Fair, SameBelow, Follows, InfinitelyOften, Passes, OneHot, Decided;
    FittingOf(base, sys, d);
    TwoProperties(base, sys, d);
    if Accepted(d, run) {
      var q: nat -> nat, edge: nat -> nat :|
        Follows(d.a, StimulusOf(d.w, run), q, edge) && InfinitelyOften(Passes(d, q, run));
      var run' := PathAdmitted(base, sys, v, d, q, edge, run);
      JusticeOften(base, sys, d, q, run');
      SamePasses(base, v, d, q, run, run');
      assert Witnesses(base, sys, run, run');
    }
    if run': Run :| Witnesses(base, sys, run, run') {
      WitnessAccepts(base, sys, v, d, run, run');
    }
  }

  lemma SamePasses(base: Sys, v: Lowered, d: Design, q: nat -> nat, run: Run, run': Run)
    requires Fitting(d) && Carry(base.operations, v, d.w) && forall t: nat :: SameBelow(|base.operations|, run(t), run'(t))
    ensures InfinitelyOften(Passes(d, q, run)) <==> InfinitelyOften(Passes(d, q, run'))
  {
    hide Carry, SameBelow, InfinitelyOften, InAccepting, WellFormed;
    forall t: nat
      ensures Passes(d, q, run)(t) == Passes(d, q, run')(t)
    {
      DriveBelow(base, v, d, run(t), run'(t));
    }
    OftenSame(Passes(d, q, run), Passes(d, q, run'));
  }
}
