/** The register monitor for `a |-> ##[m:n] b` and `a |=> ##[m:n] b`, and what it reports in every run. */
module ImplicationMonitor {
  import opened TransitionSystem
  import opened Semantics
  import opened Refinement
  import opened Builder
  import opened Gates
  import opened ImplicationSemantics

  /** The operations that a directive was lowered to. */
  datatype Lowered = Lowered(sample: Value, trigger: Value, condition: Value, disable: Value)

  /** What those operations mean. */
  datatype Signals = Signals(sample: Meaning, trigger: Meaning, condition: Meaning, disable: Meaning)

  ghost predicate Carry(ops: seq<Operation>, v: Lowered, w: Signals) {
    && Means(ops, v.sample.node, w.sample) && Means(ops, v.trigger.node, w.trigger)
    && Means(ops, v.condition.node, w.condition) && Means(ops, v.disable.node, w.disable)
  }

  // ----- the circuit -----

  /** An attempt of the given age: made now, or held by a register. */
  ghost function Held(w: Signals, ids: seq<NodeId>, age: nat): Meaning
    requires age <= |ids|
  {
    if age == 0 then w.trigger else Leaf(ids[age - 1])
  }

  /** An attempt that moves on to the next age at a tick. */
  ghost function Advanced(w: Signals, minimum: nat, ids: seq<NodeId>, age: nat): Meaning
    requires age <= |ids|
  {
    if age >= minimum then AndOf(Held(w, ids, age), NotOf(w.condition)) else Held(w, ids, age)
  }

  ghost function NextState(sample: Meaning, reset: Meaning, advanced: Meaning, state: NodeId): Meaning {
    IteOf(reset, Constantly(false), IteOf(sample, advanced, Leaf(state)))
  }

  /** An attempt younger than `n` sees its consequent. */
  ghost function Matched(w: Signals, minimum: nat, ids: seq<NodeId>, n: nat): Meaning
    requires 1 <= n <= |ids| + 1
  {
    if n == 1 then
      if minimum == 0 then AndOf(w.trigger, w.condition) else Constantly(false)
    else
      var younger := Matched(w, minimum, ids, n - 1);
      if n - 1 >= minimum then OrOf(younger, AndOf(Leaf(ids[n - 2]), w.condition)) else younger
  }

  ghost function Enabled(w: Signals): Meaning {
    AndOf(w.sample, NotOf(w.disable))
  }

  ghost function Violation(w: Signals, ids: seq<NodeId>): Meaning {
    AndOf(Enabled(w), AndOf(Held(w, ids, |ids|), NotOf(w.condition)))
  }

  ghost function Matching(w: Signals, minimum: nat, ids: seq<NodeId>): Meaning {
    AndOf(Enabled(w),
          if ids == [] then AndOf(w.trigger, w.condition)
          else OrOf(Matched(w, minimum, ids, |ids|), AndOf(Leaf(ids[|ids| - 1]), w.condition)))
  }

  /** The registers `ids`, one for each age, and the two results are wired up. */
  ghost predicate Monitors(sys: Sys, w: Signals, minimum: nat, ids: seq<NodeId>, violation: NodeId, match_: NodeId) {
    && (forall age: nat :: age < |ids| ==>
          BitRegister(sys, ids[age], false, NextState(w.sample, w.disable, Advanced(w, minimum, ids, age), ids[age])))
    && Means(sys.operations, violation, Violation(w, ids))
    && Means(sys.operations, match_, Matching(w, minimum, ids))
  }

  method NextMonitorState(m: Module, ghost base: Sys, state: Value, advanced: Value, sample: Value, reset: Value,
                          ghost g: Meaning, ghost s: Meaning, ghost r: Meaning,
                          ghost inits: seq<NodeId>, ghost ids: seq<NodeId>, ghost nexts: seq<NodeId>)
    returns (ghost next: NodeId)
    requires Registers(base, m.View(), inits, ids, nexts) && |nexts| < |ids| && state == Value(ids[|nexts|], 1)
    requires Means(m.operations, state.node, Leaf(state.node)) && Means(m.operations, advanced.node, g)
    requires Means(m.operations, sample.node, s) && Means(m.operations, reset.node, r)
    modifies m`operations, m`states
    ensures Registers(base, m.View(), inits, ids, nexts + [next])
    ensures Means(m.operations, next, NextState(s, r, g, state.node)) && Carries(old(m.operations), m.operations)
  {
    hide Grows, IsStateBit, WellTyped;
    ghost var before := m.View();
    var zero := Constant(m, base, false);
    var sampled := Conditional(m, base, sample, advanced, state, s, g, Leaf(state.node));
    var chosen := Conditional(m, base, reset, zero, sampled, r, Constantly(false), IteOf(s, g, Leaf(state.node)));
    next := chosen.node;
    RegistersKept(base, before, m.View(), inits, ids, nexts);
    Drive(m, base, state, chosen, inits, ids, nexts);
  }

  /** The registers for ages up to `|ids|` are declared, and read as their own state. */
  ghost predicate Declared(ops: seq<Operation>, zero: Value, active: seq<Value>, inits: seq<NodeId>, ids: seq<NodeId>) {
    && |active| == |ids| + 1 && |inits| == |ids| && zero.width == 1 && Means(ops, zero.node, Constantly(false))
    && forall k :: 0 <= k < |ids| ==>
         inits[k] == zero.node && active[k + 1] == Value(ids[k], 1) && Means(ops, ids[k], Leaf(ids[k]))
  }

  lemma DeclaredKept(ops: seq<Operation>, ops': seq<Operation>, zero: Value, active: seq<Value>, inits: seq<NodeId>, ids: seq<NodeId>)
    requires Declared(ops, zero, active, inits, ids) && Carries(ops, ops')
    ensures Declared(ops', zero, active, inits, ids)
  {
    hide Means, IsStateBit;
  }

  method DeclareAges(m: Module, ghost base: Sys, name: string, maximum: nat)
    returns (zero: Value, active: seq<Value>, ghost inits: seq<NodeId>, ghost ids: seq<NodeId>)
    requires Grows(base, m.View()) && m.states == base.states
    modifies m`operations, m`states
    ensures Registers(base, m.View(), inits, ids, []) && |ids| == maximum
    ensures Declared(m.operations, zero, active, inits, ids) && Carries(old(m.operations), m.operations)
  {
    hide Grows, Means, IsStateBit, Registers, Carries;
    zero := Constant(m, base, false);
    NoRegisters(base, m.View());
    active, inits, ids := [Value(0, 0)], [], [];
    for age := 1 to maximum + 1
      invariant Registers(base, m.View(), inits, ids, []) && |ids| == age - 1
      invariant Declared(m.operations, zero, active, inits, ids) && Carries(old(m.operations), m.operations)
    {
      ghost var before := m.operations;
      MeansBoolean(before, zero.node, Constantly(false));
      var state := Declare(m, base, zero, name, inits, ids);
      DeclaredKept(before, m.operations, zero, active, inits, ids);
      CarriesTransitive(old(m.operations), before, m.operations);
      active, inits, ids := active + [state], inits + [zero.node], ids + [state.node];
    }
  }

  /** The first next relations are in place. */
  ghost predicate Driven(ops: seq<Operation>, w: Signals, minimum: nat, ids: seq<NodeId>, nexts: seq<NodeId>) {
    |nexts| <= |ids| && forall age: nat :: age < |nexts| ==>
      Means(ops, nexts[age], NextState(w.sample, w.disable, Advanced(w, minimum, ids, age), ids[age]))
  }

  lemma DrivenKept(ops: seq<Operation>, ops': seq<Operation>, w: Signals, minimum: nat, ids: seq<NodeId>, nexts: seq<NodeId>)
    requires Driven(ops, w, minimum, ids, nexts) && Carries(ops, ops')
    ensures Driven(ops', w, minimum, ids, nexts)
  {
    hide Means, IsStateBit, NextState, Advanced;
  }

  /** One step of the chain: the registers of ages up to `age` are driven, `younger` matches the ages before it. */
  ghost predicate ChainAt(base: Sys, sys: Sys, v: Lowered, w: Signals, minimum: nat, zero: Value, active: seq<Value>,
                          inits: seq<NodeId>, ids: seq<NodeId>, nexts: seq<NodeId>, unsatisfied: Value)
  {
    && Registers(base, sys, inits, ids, nexts) && Declared(sys.operations, zero, active, inits, ids)
    && Driven(sys.operations, w, minimum, ids, nexts) && Carry(sys.operations, v, w)
    && Means(sys.operations, unsatisfied.node, NotOf(w.condition))
  }

  lemma ChainKept(base: Sys, sys: Sys, sys': Sys, v: Lowered, w: Signals, minimum: nat, zero: Value, active: seq<Value>,
                  inits: seq<NodeId>, ids: seq<NodeId>, nexts: seq<NodeId>, unsatisfied: Value)
    requires ChainAt(base, sys, v, w, minimum, zero, active, inits, ids, nexts, unsatisfied)
    requires Grows(base, sys') && sys'.states == sys.states && Carries(sys.operations, sys'.operations)
    ensures ChainAt(base, sys', v, w, minimum, zero, active, inits, ids, nexts, unsatisfied)
  {
    hide Means, IsStateBit, Registers, Declared, Driven, Grows;
    RegistersKept(base, sys, sys', inits, ids, nexts);
    DeclaredKept(sys.operations, sys'.operations, zero, active, inits, ids);
    DrivenKept(sys.operations, sys'.operations, w, minimum, ids, nexts);
  }

  /** What an attempt of age `age` contributes: the matches so far, and what moves on. */
  method AdvanceAge(m: Module, ghost base: Sys, v: Lowered, ghost w: Signals, minimum: nat, age: nat,
                    state: Value, younger: Value, unsatisfied: Value, ghost ids: seq<NodeId>)
    returns (match_: Value, advanced: Value)
    requires Grows(base, m.View()) && 1 <= age < |ids| && state == Value(ids[age - 1], 1)
    requires Means(m.operations, state.node, Leaf(state.node)) && Means(m.operations, v.condition.node, w.condition)
    requires Means(m.operations, unsatisfied.node, NotOf(w.condition))
    requires Means(m.operations, younger.node, Matched(w, minimum, ids, age))
    modifies m`operations
    ensures Grows(base, m.View()) && Carries(old(m.operations), m.operations)
    ensures Means(m.operations, match_.node, Matched(w, minimum, ids, age + 1))
    ensures Means(m.operations, advanced.node, Advanced(w, minimum, ids, age))
  {
    hide Means, IsStateBit, Grows;
    match_, advanced := younger, state;
    if age >= minimum {
      var seen := LogicalAnd(m, base, state, v.condition, Leaf(state.node), w.condition);
      match_ := LogicalOr(m, base, match_, seen, Matched(w, minimum, ids, age), AndOf(Leaf(state.node), w.condition));
      advanced := LogicalAnd(m, base, advanced, unsatisfied, Leaf(state.node), NotOf(w.condition));
    }
  }

  /** Drives the register of the next age, and matches the attempts of the age before it. */
  method DriveAge(m: Module, ghost base: Sys, v: Lowered, ghost w: Signals, minimum: nat, age: nat, zero: Value,
                  active: seq<Value>, younger: Value, unsatisfied: Value,
                  ghost inits: seq<NodeId>, ghost ids: seq<NodeId>, ghost nexts: seq<NodeId>)
    returns (match_: Value, ghost next: NodeId)
    requires ChainAt(base, m.View(), v, w, minimum, zero, active, inits, ids, nexts, unsatisfied)
    requires 1 <= age == |nexts| < |ids| && Means(m.operations, younger.node, Matched(w, minimum, ids, age))
    modifies m`operations, m`states
    ensures ChainAt(base, m.View(), v, w, minimum, zero, active, inits, ids, nexts + [next], unsatisfied)
    ensures Means(m.operations, match_.node, Matched(w, minimum, ids, age + 1))
    ensures Carries(old(m.operations), m.operations)
  {
    hide Means, IsStateBit, Grows, NextState, Advanced, Matched, Registers, Carries, Driven, Declared, Carry;
    ghost var before := m.View();
    ChainReads(base, before, v, w, minimum, zero, active, inits, ids, nexts, unsatisfied, age);
    var advanced;
    match_, advanced := AdvanceAge(m, base, v, w, minimum, age, active[age], younger, unsatisfied, ids);
    ghost var middle := m.View();
    ChainKept(base, before, middle, v, w, minimum, zero, active, inits, ids, nexts, unsatisfied);
    ChainReads(base, middle, v, w, minimum, zero, active, inits, ids, nexts, unsatisfied, age + 1);
    next := NextMonitorState(m, base, active[age + 1], advanced, v.sample, v.disable,
                             Advanced(w, minimum, ids, age), w.sample, w.disable, inits, ids, nexts);
    CarriesTransitive(before.operations, middle.operations, m.operations);
    MeansKept(middle.operations, m.operations, match_.node, Matched(w, minimum, ids, age + 1));
    ChainDriven(base, middle, m.View(), v, w, minimum, zero, active, inits, ids, nexts, unsatisfied, next);
  }

  lemma ChainReads(base: Sys, sys: Sys, v: Lowered, w: Signals, minimum: nat, zero: Value, active: seq<Value>,
                   inits: seq<NodeId>, ids: seq<NodeId>, nexts: seq<NodeId>, unsatisfied: Value, age: nat)
    requires ChainAt(base, sys, v, w, minimum, zero, active, inits, ids, nexts, unsatisfied) && 1 <= age <= |ids|
    ensures Grows(base, sys) && Registers(base, sys, inits, ids, nexts)
    ensures |active| == |ids| + 1 && active[age] == Value(ids[age - 1], 1) && Means(sys.operations, ids[age - 1], Leaf(ids[age - 1]))
    ensures Means(sys.operations, v.condition.node, w.condition) && Means(sys.operations, v.sample.node, w.sample)
    ensures Means(sys.operations, v.disable.node, w.disable) && Means(sys.operations, unsatisfied.node, NotOf(w.condition))
  {
    hide Means, IsStateBit, Grows, Driven;
  }

  lemma ChainDriven(base: Sys, sys: Sys, sys': Sys, v: Lowered, w: Signals, minimum: nat, zero: Value, active: seq<Value>,
                    inits: seq<NodeId>, ids: seq<NodeId>, nexts: seq<NodeId>, unsatisfied: Value, next: NodeId)
    requires ChainAt(base, sys, v, w, minimum, zero, active, inits, ids, nexts, unsatisfied)
    requires Carries(sys.operations, sys'.operations) && Registers(base, sys', inits, ids, nexts + [next])
    requires var age := |nexts|;
             age < |ids| && Means(sys'.operations, next, NextState(w.sample, w.disable, Advanced(w, minimum, ids, age), ids[age]))
    ensures ChainAt(base, sys', v, w, minimum, zero, active, inits, ids, nexts + [next], unsatisfied)
  {
    hide Means, IsStateBit, Registers, Declared, NextState, Advanced;
    DeclaredKept(sys.operations, sys'.operations, zero, active, inits, ids);
    DrivenKept(sys.operations, sys'.operations, w, minimum, ids, nexts);
  }

  /** The attempt made now: it may match at once, and otherwise moves on to age one. */
  method FirstAttempt(m: Module, ghost base: Sys, v: Lowered, ghost w: Signals, minimum: nat, zero: Value,
                      unsatisfied: Value, ghost ids: seq<NodeId>)
    returns (match_: Value, advanced: Value)
    requires Grows(base, m.View()) && Carry(m.operations, v, w) && ids != []
    requires Means(m.operations, zero.node, Constantly(false)) && Means(m.operations, unsatisfied.node, NotOf(w.condition))
    modifies m`operations
    ensures Grows(base, m.View()) && Carries(old(m.operations), m.operations)
    ensures Means(m.operations, match_.node, Matched(w, minimum, ids, 1))
    ensures Means(m.operations, advanced.node, Advanced(w, minimum, ids, 0))
  {
    hide Means, IsStateBit, Grows;
    match_, advanced := zero, v.trigger;
    if minimum == 0 {
      match_ := LogicalAnd(m, base, v.trigger, v.condition, w.trigger, w.condition);
      advanced := LogicalAnd(m, base, v.trigger, unsatisfied, w.trigger, NotOf(w.condition));
    }
  }

  /** The two results, from the oldest attempt and what the younger ones matched. */
  method Report(m: Module, ghost base: Sys, v: Lowered, ghost w: Signals, minimum: nat, enabled: Value, unsatisfied: Value,
                oldest: Value, younger: Option<Value>, ghost ids: seq<NodeId>)
    returns (violation: Value, match_: Value)
    requires Grows(base, m.View()) && Carry(m.operations, v, w)
    requires Means(m.operations, enabled.node, Enabled(w)) && Means(m.operations, unsatisfied.node, NotOf(w.condition))
    requires Means(m.operations, oldest.node, Held(w, ids, |ids|)) && (younger.None? <==> ids == [])
    requires younger.Some? ==> Means(m.operations, younger.value.node, Matched(w, minimum, ids, |ids|))
    modifies m`operations
    ensures Grows(base, m.View()) && Carries(old(m.operations), m.operations)
    ensures Means(m.operations, violation.node, Violation(w, ids))
    ensures Means(m.operations, match_.node, Matching(w, minimum, ids))
  {
    hide Means, IsStateBit, Grows;
    var seen := LogicalAnd(m, base, oldest, v.condition, Held(w, ids, |ids|), w.condition);
    ghost var all := AndOf(Held(w, ids, |ids|), w.condition);
    if younger.Some? {
      seen := LogicalOr(m, base, younger.value, seen, Matched(w, minimum, ids, |ids|), all);
      all := OrOf(Matched(w, minimum, ids, |ids|), all);
    }
    var missed := LogicalAnd(m, base, oldest, unsatisfied, Held(w, ids, |ids|), NotOf(w.condition));
    violation := LogicalAnd(m, base, enabled, missed, Enabled(w), AndOf(Held(w, ids, |ids|), NotOf(w.condition)));
    match_ := LogicalAnd(m, base, enabled, seen, Enabled(w), all);
  }

  method MonitorAges(m: Module, ghost base: Sys, v: Lowered, ghost w: Signals, name: string, minimum: nat, maximum: nat,
                     unsatisfied: Value)
    returns (oldest: Value, younger: Value, ghost ids: seq<NodeId>)
    requires Grows(base, m.View()) && m.states == base.states && Carry(m.operations, v, w) && maximum > 0
    requires Means(m.operations, unsatisfied.node, NotOf(w.condition))
    modifies m`operations, m`states
    ensures Adds(base, m.View(), ids) && Grows(base, m.View()) && Carries(old(m.operations), m.operations) && |ids| == maximum
    ensures forall age: nat :: age < maximum ==>
              BitRegister(m.View(), ids[age], false, NextState(w.sample, w.disable, Advanced(w, minimum, ids, age), ids[age]))
    ensures Means(m.operations, oldest.node, Held(w, ids, maximum)) && Means(m.operations, younger.node, Matched(w, minimum, ids, maximum))
  {
    hide Means, IsStateBit, Grows, NextState, Advanced, Matched, Registers, Carries, Driven, Declared, Carry, ChainAt, BitRegister;
    ghost var start := m.operations;
    var zero, active;
    ghost var inits;
    zero, active, inits, ids := DeclareAges(m, base, name, maximum);
    ghost var s1 := m.View();
    ChainStarts(base, start, s1, v, w, minimum, zero, active, inits, ids, unsatisfied);
    var advanced;
    younger, advanced := FirstAttempt(m, base, v, w, minimum, zero, unsatisfied, ids);
    ghost var s2 := m.View();
    ChainKept(base, s1, s2, v, w, minimum, zero, active, inits, ids, [], unsatisfied);
    ChainReads(base, s2, v, w, minimum, zero, active, inits, ids, [], unsatisfied, 1);
    ghost var next := NextMonitorState(m, base, active[1], advanced, v.sample, v.disable,
                                       Advanced(w, minimum, ids, 0), w.sample, w.disable, inits, ids, []);
    ghost var s3 := m.View();
    MeansKept(s2.operations, s3.operations, younger.node, Matched(w, minimum, ids, 1));
    ChainDriven(base, s2, s3, v, w, minimum, zero, active, inits, ids, [], unsatisfied, next);
    CarriesTransitive(start, s1.operations, s2.operations);
    CarriesTransitive(start, s2.operations, s3.operations);
    ghost var nexts: seq<NodeId> := [] + [next];
    for age := 1 to maximum
      invariant ChainAt(base, m.View(), v, w, minimum, zero, active, inits, ids, nexts, unsatisfied) && |nexts| == age
      invariant Means(m.operations, younger.node, Matched(w, minimum, ids, age)) && Carries(start, m.operations)
    {
      ghost var before := m.operations;
      younger, next := DriveAge(m, base, v, w, minimum, age, zero, active, younger, unsatisfied, inits, ids, nexts);
      CarriesTransitive(start, before, m.operations);
      nexts := nexts + [next];
    }
    oldest := active[maximum];
    ChainEnds(base, m.View(), v, w, minimum, zero, active, inits, ids, nexts, unsatisfied);
  }

  lemma ChainStarts(base: Sys, start: seq<Operation>, sys: Sys, v: Lowered, w: Signals, minimum: nat, zero: Value,
                    active: seq<Value>, inits: seq<NodeId>, ids: seq<NodeId>, unsatisfied: Value)
    requires Carries(start, sys.operations) && Carry(start, v, w) && Means(start, unsatisfied.node, NotOf(w.condition))
    requires Registers(base, sys, inits, ids, []) && Declared(sys.operations, zero, active, inits, ids)
    ensures ChainAt(base, sys, v, w, minimum, zero, active, inits, ids, [], unsatisfied)
    ensures Grows(base, sys) && Carry(sys.operations, v, w) && Means(sys.operations, zero.node, Constantly(false))
    ensures Means(sys.operations, unsatisfied.node, NotOf(w.condition))
  {
    hide Means, IsStateBit, Grows;
  }

  lemma ChainEnds(base: Sys, sys: Sys, v: Lowered, w: Signals, minimum: nat, zero: Value, active: seq<Value>,
                  inits: seq<NodeId>, ids: seq<NodeId>, nexts: seq<NodeId>, unsatisfied: Value)
    requires ChainAt(base, sys, v, w, minimum, zero, active, inits, ids, nexts, unsatisfied) && |nexts| == |ids| > 0
    ensures Adds(base, sys, ids) && Grows(base, sys) && |active| == |ids| + 1 && Means(sys.operations, active[|ids|].node, Held(w, ids, |ids|))
    ensures forall age: nat :: age < |ids| ==>
              BitRegister(sys, ids[age], false, NextState(w.sample, w.disable, Advanced(w, minimum, ids, age), ids[age]))
  {
    hide Means, IsStateBit, Grows, NextState, Advanced, BitRegister;
    RegistersAdd(base, sys, inits, ids, nexts);
    forall age: nat | age < |ids|
      ensures BitRegister(sys, ids[age], false, NextState(w.sample, w.disable, Advanced(w, minimum, ids, age), ids[age]))
    {
      RegisterDone(base, sys, inits, ids, nexts, age, false,
                   NextState(w.sample, w.disable, Advanced(w, minimum, ids, age), ids[age]));
    }
  }

  /** Builds the monitor for a window of `minimum` to `maximum` ticks, one tick later when not overlapped. */
  method Build(m: Module, v: Lowered, ghost w: Signals, name: string, consequentMinimum: nat, consequentMaximum: nat, overlapped: bool)
    returns (violation: Value, match_: Value, ghost ids: seq<NodeId>)
    requires WellTyped(m.View()) && Carry(m.operations, v, w)
    modifies m`operations, m`states
    ensures Adds(old(m.View()), m.View(), ids)
    ensures |ids| == consequentMaximum + if overlapped then 0 else 1
    ensures Monitors(m.View(), w, consequentMinimum + if overlapped then 0 else 1, ids, violation.node, match_.node)
  {
    hide Means, IsStateBit, Grows, NextState, Advanced, Matched, Carries, BitRegister, WellTyped, Violation, Matching;
    ghost var base := m.View();
    GrowsSelf(base);
    var minimum := consequentMinimum + if overlapped then 0 else 1;
    var maximum := consequentMaximum + if overlapped then 0 else 1;
    var enabled, unsatisfied := Guards(m, base, v, w);
    ghost var s1 := m.View();
    ids := [];
    if maximum == 0 {
      violation, match_ := Report(m, base, v, w, minimum, enabled, unsatisfied, v.trigger, None, ids);
    } else {
      var oldest, younger;
      oldest, younger, ids := MonitorAges(m, base, v, w, name, minimum, maximum, unsatisfied);
      ghost var s2 := m.View();
      GuardsKept(s1.operations, s2.operations, v, w, enabled, unsatisfied);
      violation, match_ := Report(m, base, v, w, minimum, enabled, unsatisfied, oldest, Some(younger), ids);
      RegistersStay(base, s2, m.View(), w, minimum, ids);
    }
  }

  method Guards(m: Module, ghost base: Sys, v: Lowered, ghost w: Signals) returns (enabled: Value, unsatisfied: Value)
    requires Grows(base, m.View()) && Carry(m.operations, v, w)
    modifies m`operations
    ensures Grows(base, m.View()) && Carry(m.operations, v, w)
    ensures Means(m.operations, enabled.node, Enabled(w)) && Means(m.operations, unsatisfied.node, NotOf(w.condition))
  {
    hide Means, IsStateBit, Grows;
    var running := LogicalNot(m, base, v.disable, w.disable);
    enabled := LogicalAnd(m, base, v.sample, running, w.sample, NotOf(w.disable));
    unsatisfied := LogicalNot(m, base, v.condition, w.condition);
  }

  lemma GuardsKept(ops: seq<Operation>, ops': seq<Operation>, v: Lowered, w: Signals, enabled: Value, unsatisfied: Value)
    requires Carries(ops, ops') && Carry(ops, v, w)
    requires Means(ops, enabled.node, Enabled(w)) && Means(ops, unsatisfied.node, NotOf(w.condition))
    ensures Carry(ops', v, w) && Means(ops', enabled.node, Enabled(w)) && Means(ops', unsatisfied.node, NotOf(w.condition))
  {
    hide Means, IsStateBit;
  }

  lemma RegistersStay(base: Sys, sys: Sys, sys': Sys, w: Signals, minimum: nat, ids: seq<NodeId>)
    requires Grows(base, sys') && sys'.states == sys.states && Carries(sys.operations, sys'.operations)
    requires forall age: nat :: age < |ids| ==>
               BitRegister(sys, ids[age], false, NextState(w.sample, w.disable, Advanced(w, minimum, ids, age), ids[age]))
    requires Adds(base, sys, ids)
    ensures Adds(base, sys', ids)
    ensures forall age: nat :: age < |ids| ==>
              BitRegister(sys', ids[age], false, NextState(w.sample, w.disable, Advanced(w, minimum, ids, age), ids[age]))
  {
    hide Means, IsStateBit, NextState, Advanced;
    GrowsWellTyped(base, sys');
    forall age: nat | age < |ids|
      ensures BitRegister(sys', ids[age], false, NextState(w.sample, w.disable, Advanced(w, minimum, ids, age), ids[age]))
    {
      assert BitRegister(sys, ids[age], false, NextState(w.sample, w.disable, Advanced(w, minimum, ids, age), ids[age]));
    }
  }

  // ----- what the monitor reports -----

  ghost function Observe(w: Signals, run: Run): Observed {
    Observed((t: nat) => w.sample(run(t)), (t: nat) => w.trigger(run(t)),
             (t: nat) => w.condition(run(t)), (t: nat) => w.disable(run(t)))
  }

  /** The window opens at the latest when it closes. */
  function Opening(minimum: nat, maximum: nat): nat {
    if minimum <= maximum then minimum else maximum
  }

  /** The circuit of one register computes the step of its pending attempts. */
  lemma NextStateIsAgeStep(w: Signals, minimum: nat, ids: seq<NodeId>, age: nat, run: Run, t: nat)
    requires 1 <= age <= |ids|
    ensures NextState(w.sample, w.disable, Advanced(w, minimum, ids, age - 1), ids[age - 1])(run(t)) <==>
              AgeStep(Observe(w, run), Opening(minimum, |ids|), age, t,
                      age >= 2 && Leaf(ids[age - 2])(run(t)), Leaf(ids[age - 1])(run(t)))
  {
    hide Leaf;
  }

  /** In every run and step, the register of an age is set exactly when an attempt of that age is pending. */
  lemma {:induction false} RegisterIsPending(sys: Sys, w: Signals, minimum: nat, ids: seq<NodeId>,
                                             violation: NodeId, match_: NodeId, run: Run, age: nat, t: nat)
    requires Monitors(sys, w, minimum, ids, violation, match_) && WellTyped(sys) && IsRun(sys, run) && 1 <= age <= |ids|
    ensures Leaf(ids[age - 1])(run(t)) <==> Pending(Observe(w, run), Opening(minimum, |ids|), age, t)
    decreases t
  {
    hide IsRun, Pending, BitRegister, Means, NextState, Advanced, AgeStep, Observe, Opening, Leaf, WellTyped;
    var o, lo := Observe(w, run), Opening(minimum, |ids|);
    var g := NextState(w.sample, w.disable, Advanced(w, minimum, ids, age - 1), ids[age - 1]);
    assert BitRegister(sys, ids[age - 1], false, g);
    if t == 0 {
      BitRegisterRuns(sys, ids[age - 1], false, g, run, 0);
      NothingPendingAtFirst(o, lo, age);
    } else {
      BitRegisterRuns(sys, ids[age - 1], false, g, run, t - 1);
      NextStateIsAgeStep(w, minimum, ids, age, run, t - 1);
      PendingStep(o, lo, age, t - 1);
      RegisterIsPending(sys, w, minimum, ids, violation, match_, run, age, t - 1);
      if age >= 2 {
        RegisterIsPending(sys, w, minimum, ids, violation, match_, run, age - 1, t - 1);
      }
    }
  }

  lemma {:induction false} MatchedYoung(w: Signals, minimum: nat, ids: seq<NodeId>, n: nat, env: Env)
    requires 1 <= n <= |ids| + 1
    ensures Matched(w, minimum, ids, n)(env) <==>
              w.condition(env) && exists age: nat :: minimum <= age < n && age <= |ids| && Held(w, ids, age)(env)
  {
    if n > 1 {
      MatchedYoung(w, minimum, ids, n - 1, env);
      assert Held(w, ids, n - 1)(env) == Leaf(ids[n - 2])(env);
    } else {
      assert Held(w, ids, 0)(env) == w.trigger(env);
    }
  }

  /** An attempt in the circuit is a waiting attempt. */
  lemma HeldIsWaiting(sys: Sys, w: Signals, minimum: nat, ids: seq<NodeId>, violation: NodeId, match_: NodeId,
                      run: Run, age: nat, t: nat)
    requires Monitors(sys, w, minimum, ids, violation, match_) && WellTyped(sys) && IsRun(sys, run) && age <= |ids|
    requires w.sample(run(t))
    ensures Held(w, ids, age)(run(t)) <==> Attempted(Observe(w, run), Opening(minimum, |ids|), age, t)
  {
    hide IsRun, Monitors, Waiting, Pending;
    WaitingSplit(Observe(w, run), Opening(minimum, |ids|), age, t);
    if age > 0 {
      RegisterIsPending(sys, w, minimum, ids, violation, match_, run, age, t);
    }
  }

  /** Main result: a violation is reported exactly when an attempt fails. */
  lemma ViolationIsFailure(sys: Sys, w: Signals, minimum: nat, ids: seq<NodeId>, violation: NodeId, match_: NodeId, run: Run, t: nat)
    requires Monitors(sys, w, minimum, ids, violation, match_) && WellTyped(sys) && IsRun(sys, run)
    requires IsBoolean(sys.operations, violation)
    ensures Bit(sys.operations, violation, run(t)) <==> Fails(Observe(w, run), Opening(minimum, |ids|), |ids|, t)
  {
    hide IsRun, Waiting, BitRegister;
    assert Bit(sys.operations, violation, run(t)) == Violation(w, ids)(run(t));
    if w.sample(run(t)) {
      HeldIsWaiting(sys, w, minimum, ids, violation, match_, run, |ids|, t);
    }
  }

  lemma MatchingByAge(w: Signals, minimum: nat, ids: seq<NodeId>, env: Env)
    ensures Matching(w, minimum, ids)(env) <==>
              && w.sample(env) && !w.disable(env) && w.condition(env)
              && exists age: nat :: Opening(minimum, |ids|) <= age <= |ids| && Held(w, ids, age)(env)
  {
    hide Matched;
    var n := |ids|;
    assert Held(w, ids, n)(env) == if n == 0 then w.trigger(env) else Leaf(ids[n - 1])(env);
    if n > 0 {
      MatchedYoung(w, minimum, ids, n, env);
    }
  }

  /** Main result: a match is reported exactly when an attempt succeeds. */
  lemma MatchIsSuccess(sys: Sys, w: Signals, minimum: nat, ids: seq<NodeId>, violation: NodeId, match_: NodeId, run: Run, t: nat)
    requires Monitors(sys, w, minimum, ids, violation, match_) && WellTyped(sys) && IsRun(sys, run)
    requires IsBoolean(sys.operations, match_)
    ensures Bit(sys.operations, match_, run(t)) <==> Succeeds(Observe(w, run), Opening(minimum, |ids|), |ids|, t)
  {
    hide IsRun, Waiting, BitRegister, Matching, Held;
    var o, lo := Observe(w, run), Opening(minimum, |ids|);
    assert Bit(sys.operations, match_, run(t)) == Matching(w, minimum, ids)(run(t));
    MatchingByAge(w, minimum, ids, run(t));
    if w.sample(run(t)) {
      SucceedsByAge(o, lo, |ids|, t);
      forall age: nat | age <= |ids|
        ensures Held(w, ids, age)(run(t)) <==> Attempted(o, lo, age, t)
      {
        HeldIsWaiting(sys, w, minimum, ids, violation, match_, run, age, t);
      }
    }
  }

  // ----- the monitor restricts nothing -----

  /** The run in which every register holds the pending attempts of its age. */
  ghost function WithRegisters(w: Signals, minimum: nat, ids: seq<NodeId>, run: Run): Run {
    (t: nat) => (id: NodeId) =>
      if id in ids then Flag(Pending(Observe(w, run), Opening(minimum, |ids|), IndexOf(ids, id) + 1, t)) else run(t)(id)
  }

  lemma StoredIsPending(base: Sys, sys: Sys, w: Signals, minimum: nat, ids: seq<NodeId>, run: Run, age: nat, t: nat)
    requires Adds(base, sys, ids) && 1 <= age <= |ids|
    ensures Leaf(ids[age - 1])(WithRegisters(w, minimum, ids, run)(t)) <==>
              Pending(Observe(w, run), Opening(minimum, |ids|), age, t)
  {
    hide Pending, Grows, Observe;
    NewIdsDistinct(base, sys, ids, age - 1, IndexOf(ids, ids[age - 1]));
  }

  lemma BelowUnchanged(base: Sys, sys: Sys, w: Signals, minimum: nat, ids: seq<NodeId>, run: Run, t: nat)
    requires Adds(base, sys, ids)
    ensures SameBelow(|base.operations|, run(t), WithRegisters(w, minimum, ids, run)(t))
  {
    hide Pending, Grows, Observe;
  }

  lemma SignalsUnchanged(base: Sys, v: Lowered, w: Signals, run: Run, run': Run, t: nat)
    requires Carry(base.operations, v, w) && SameBelow(|base.operations|, run(t), run'(t))
    ensures Observe(w, run').sample(t) == Observe(w, run).sample(t)
    ensures Observe(w, run').trigger(t) == Observe(w, run).trigger(t)
    ensures Observe(w, run').condition(t) == Observe(w, run).condition(t)
    ensures Observe(w, run').disable(t) == Observe(w, run).disable(t)
  {
    hide Means;
    MeansBelow(base.operations, v.sample.node, w.sample, run(t), run'(t));
    MeansBelow(base.operations, v.trigger.node, w.trigger, run(t), run'(t));
    MeansBelow(base.operations, v.condition.node, w.condition, run(t), run'(t));
    MeansBelow(base.operations, v.disable.node, w.disable, run(t), run'(t));
  }

  lemma RegisterObeys(base: Sys, sys: Sys, v: Lowered, w: Signals, minimum: nat, ids: seq<NodeId>, run: Run, k: nat)
    requires Adds(base, sys, ids) && Carry(base.operations, v, w) && k < |ids|
    ensures Obeys(ids[k], false, NextState(w.sample, w.disable, Advanced(w, minimum, ids, k), ids[k]),
                  WithRegisters(w, minimum, ids, run))
  {
    hide Pending, NextState, Advanced, Carry, Adds, WithRegisters, Observe, Opening, Leaf;
    var run' := WithRegisters(w, minimum, ids, run);
    var o, lo := Observe(w, run), Opening(minimum, |ids|);
    StoredIsPending(base, sys, w, minimum, ids, run, k + 1, 0);
    NothingPendingAtFirst(o, lo, k + 1);
    forall t: nat
      ensures Leaf(ids[k])(run'(t + 1)) ==
              NextState(w.sample, w.disable, Advanced(w, minimum, ids, k), ids[k])(run'(t))
    {
      BelowUnchanged(base, sys, w, minimum, ids, run, t);
      SignalsUnchanged(base, v, w, run, run', t);
      NextStateIsAgeStep(w, minimum, ids, k + 1, run', t);
      PendingStep(o, lo, k + 1, t);
      StoredIsPending(base, sys, w, minimum, ids, run, k + 1, t + 1);
      StoredIsPending(base, sys, w, minimum, ids, run, k + 1, t);
      if k > 0 {
        StoredIsPending(base, sys, w, minimum, ids, run, k, t);
      }
    }
  }

  /** Main result: every run of the design is, with the registers added, a run of the monitored design. */
  lemma MonitorIsPassive(base: Sys, sys: Sys, v: Lowered, w: Signals, minimum: nat, ids: seq<NodeId>,
                         violation: NodeId, match_: NodeId, run: Run) returns (run': Run)
    requires Adds(base, sys, ids) && Carry(base.operations, v, w) && Monitors(sys, w, minimum, ids, violation, match_)
    requires WellTyped(base) && WellTyped(sys) && IsRun(base, run)
    ensures IsRun(sys, run') && forall t: nat :: SameBelow(|base.operations|, run(t), run'(t))
  {
    hide Pending, Means, Grows, IsRun, Obeys, BitRegister, NextState, Advanced, WithRegisters, SameBelow;
    run' := WithRegisters(w, minimum, ids, run);
    var gs := seq<Meaning>(|ids|, k requires 0 <= k < |ids| =>
      NextState(w.sample, w.disable, Advanced(w, minimum, ids, k), ids[k]));
    var starts := seq(|ids|, k => false);
    forall k | 0 <= k < |ids|
      ensures BitRegister(sys, ids[k], starts[k], gs[k]) && Obeys(ids[k], starts[k], gs[k], run')
    {
      RegisterObeys(base, sys, v, w, minimum, ids, run, k);
    }
    forall t: nat
      ensures SameBelow(|base.operations|, run(t), run'(t))
    {
      BelowUnchanged(base, sys, w, minimum, ids, run, t);
    }
    RegistersRun(base, sys, ids, starts, gs, run, run');
  }
}
