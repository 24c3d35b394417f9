/** Sampled value functions, clause 16.9.3 of IEEE Std 1800-2023: registers that remember earlier ticks. */
module History {
  import opened Bits
  import opened TransitionSystem
  import opened Semantics
  import opened Refinement
  import opened Extension
  import opened Builder
  import opened SampledTime

  // ----- what a past value is -----

  /** `r` is the value at the `depth`-th most recent tick before `t`, or zero if there were fewer ticks. */
  ghost predicate ReadsPast(value: nat -> nat, sample: Signal, depth: nat, t: nat, r: nat) {
    if Ticks(sample, 0, t) < depth then r == 0
    else exists u: nat :: u < t && sample(u) && Ticks(sample, u, t) == depth && r == value(u)
  }

  /** There is exactly one such value. */
  lemma PastUnique(value: nat -> nat, sample: Signal, depth: nat, t: nat) returns (r: nat)
    requires depth > 0
    ensures forall r': nat :: ReadsPast(value, sample, depth, t, r') <==> r' == r
  {
    r := 0;
    if Ticks(sample, 0, t) >= depth {
      var u := TickExists(sample, depth, t);
      r := value(u);
      forall v: nat | v < t && sample(v) && Ticks(sample, v, t) == depth
        ensures v == u
      {
        SameTick(sample, u, v, t);
      }
    }
  }

  /** At a tick, a past value moves one deeper. */
  lemma PastShifts(value: nat -> nat, sample: Signal, depth: nat, t: nat, r: nat)
    requires sample(t) && (if depth == 0 then r == value(t) else ReadsPast(value, sample, depth, t, r))
    ensures ReadsPast(value, sample, depth + 1, t + 1, r)
  {
    assert Ticks(sample, 0, t + 1) == Ticks(sample, 0, t) + 1;
    if depth == 0 {
      assert Ticks(sample, t, t + 1) == 1 + Ticks(sample, t, t);
    } else if Ticks(sample, 0, t) >= depth {
      var u: nat :| u < t && sample(u) && Ticks(sample, u, t) == depth && r == value(u);
      assert Ticks(sample, u, t + 1) == depth + 1;
    }
  }

  /** Between ticks, past values stay. */
  lemma PastHolds(value: nat -> nat, sample: Signal, depth: nat, t: nat, r: nat)
    requires !sample(t) && ReadsPast(value, sample, depth, t, r)
    ensures ReadsPast(value, sample, depth, t + 1, r)
  {
    if Ticks(sample, 0, t) >= depth {
      var u: nat :| u < t && sample(u) && Ticks(sample, u, t) == depth && r == value(u);
      assert Ticks(sample, u, t + 1) == depth;
    }
  }

  // ----- the register chain -----

  ghost predicate SampledBit(ops: seq<Operation>, sample: Option<Value>, env: Env)
    requires TypedOperations(ops) && (sample.Some? ==> IsBoolean(ops, sample.value.node))
  {
    sample.None? || Bit(ops, sample.value.node, env)
  }

  /** State `id` starts at zero and takes the value of `source` at every tick. */
  ghost predicate Remembers(sys: Sys, id: NodeId, source: NodeId, sample: Option<Value>) {
    && WellTyped(sys) && (sample.Some? ==> IsBoolean(sys.operations, sample.value.node))
    && IsStateVar(sys.operations, id) && InRange(sys.operations, source)
    && FindState(sys.states, id) < |sys.states|
    && InitOf(sys, id).Some? && NextOf(sys, id).Some?
    && InRange(sys.operations, InitOf(sys, id).value) && InRange(sys.operations, NextOf(sys, id).value)
    && (forall env: Env :: Eval(sys.operations, InitOf(sys, id).value, env) == 0)
    && (forall env: Env :: Eval(sys.operations, NextOf(sys, id).value, env) ==
          if SampledBit(sys.operations, sample, env) then Eval(sys.operations, source, env)
          else Eval(sys.operations, id, env))
  }

  lemma RemembersKept(a: Sys, b: Sys, id: NodeId, source: NodeId, sample: Option<Value>)
    requires Grows(a, b) && Remembers(a, id, source, sample)
    ensures Remembers(b, id, source, sample)
  {
    GrowsRecord(a, b, FindState(a.states, id));
    GrowsEval(a, b, id, _ => 0);
    GrowsBits(a, b);
    var k := FindState(a.states, id);
    assert b.states[k] == b.states[..|a.states|][k];
    forall env: Env
      ensures Eval(b.operations, InitOf(b, id).value, env) == 0
      ensures Eval(b.operations, NextOf(b, id).value, env) ==
              if SampledBit(b.operations, sample, env) then Eval(b.operations, source, env) else Eval(b.operations, id, env)
    {
      GrowsEval(a, b, InitOf(a, id).value, env);
      GrowsEval(a, b, NextOf(a, id).value, env);
      GrowsEval(a, b, source, env);
      GrowsEval(a, b, id, env);
    }
  }

  lemma {:induction false} ZeroDigits(width: nat)
    ensures ValueOf(seq(width, _ => '0')) == 0
  {
    var bits := seq(width, _ => '0');
    if width != 0 {
      ZeroDigits(width - 1);
      assert bits[..width - 1] == seq(width - 1, _ => '0');
    }
  }

  method Zero(m: Module, width: nat) returns (zero: Value)
    requires WellTyped(m.View()) && width > 0
    modifies m`operations
    ensures Grows(old(m.View()), m.View()) && zero == Value(|m.operations|, width)
    ensures InRange(m.operations, zero.node) && m.operations[zero.node - 1].width == width
    ensures forall env: Env :: Eval(m.operations, zero.node, env) == 0
  {
    zero := Emit(m, Operation(Const, width, [], [], "", seq(width, _ => '0')));
    ZeroDigits(width);
    assert TypedAt(m.operations, zero.node);
  }

  method NextValue(m: Module, current: Value, state: Value, sample: Option<Value>) returns (next: Value)
    requires WellTyped(m.View()) && InRange(m.operations, current.node) && InRange(m.operations, state.node)
    requires m.operations[current.node - 1].width == m.operations[state.node - 1].width == current.width
    requires sample.Some? ==> IsBoolean(m.operations, sample.value.node)
    modifies m`operations
    ensures Grows(old(m.View()), m.View()) && InRange(m.operations, next.node)
    ensures m.operations[next.node - 1].width == next.width == current.width
    ensures forall env: Env :: Eval(m.operations, next.node, env) ==
              if SampledBit(old(m.operations), sample, env) then Eval(old(m.operations), current.node, env)
              else Eval(old(m.operations), state.node, env)
  {
    if sample.Some? {
      next := Select(m, sample.value, current, state);
    } else {
      assert m.operations[..|m.operations|] == m.operations;
      next := current;
    }
  }

  method Remember(m: Module, current: Value, sample: Option<Value>, name: string) returns (state: Value)
    requires WellTyped(m.View()) && InRange(m.operations, current.node)
    requires m.operations[current.node - 1].width == current.width
    requires sample.Some? ==> IsBoolean(m.operations, sample.value.node)
    modifies m`operations, m`states
    ensures Grows(old(m.View()), m.View()) && InRange(m.operations, state.node)
    ensures m.operations[state.node - 1].width == state.width == current.width
    ensures Remembers(m.View(), state.node, current.node, sample)
    ensures Adds(old(m.View()), m.View(), [state.node])
  {
    hide Remembers, Grows, TypedOperations, TypedState, TypedProperty, SampledBit, Adds;
    ghost var s0 := m.View();
    WidthPositive(s0, current.node);
    var zero := Zero(m, current.width);
    ghost var s1 := m.View();
    state := NewRegister(m, zero, name);
    ghost var s2 := m.View();
    GrowsTransitive(s0, s1, s2);
    CarriesOver(s0, s2, current, sample);
    var next := NextValue(m, current, state, sample);
    ghost var s3 := m.View();
    GrowsTransitive(s0, s2, s3);
    ghost var k := |s1.states|;
    assert m.states[k] == m.states[..k + 1][k];
    DriveNext(m, s0, k, state, next);
    FindDistinct(m.states, k);
    RememberWired(s1, s2, s3, m.View(), state, current, zero, next, sample);
    OneMore(s0, m.View(), state.node);
  }

  lemma WidthPositive(sys: Sys, id: NodeId)
    requires WellTyped(sys) && InRange(sys.operations, id)
    ensures sys.operations[id - 1].width > 0
  {
    assert TypedAt(sys.operations, id);
  }

  lemma OneMore(a: Sys, b: Sys, id: NodeId)
    requires Grows(a, b) && |b.states| == |a.states| + 1 && b.states[|a.states|].value == id > |a.operations|
    ensures Adds(a, b, [id])
  {
  }

  lemma CarriesOver(a: Sys, b: Sys, current: Value, sample: Option<Value>)
    requires Grows(a, b) && InRange(a.operations, current.node) && (sample.Some? ==> IsBoolean(a.operations, sample.value.node))
    ensures InRange(b.operations, current.node) && b.operations[current.node - 1] == a.operations[current.node - 1]
    ensures sample.Some? ==> IsBoolean(b.operations, sample.value.node)
    ensures forall env: Env :: Eval(b.operations, current.node, env) == Eval(a.operations, current.node, env)
    ensures forall env: Env :: SampledBit(b.operations, sample, env) == SampledBit(a.operations, sample, env)
  {
    GrowsEval(a, b, current.node, _ => 0);
    GrowsBits(a, b);
    forall env: Env
      ensures Eval(b.operations, current.node, env) == Eval(a.operations, current.node, env)
    {
      GrowsEval(a, b, current.node, env);
    }
  }

  lemma RememberWired(s1: Sys, s2: Sys, s3: Sys, s4: Sys, state: Value, current: Value, zero: Value, next: Value, sample: Option<Value>)
    requires Grows(s1, s2) && Grows(s2, s3) && WellTyped(s4) && s4.operations == s3.operations
    requires IsStateVar(s2.operations, state.node) && InRange(s2.operations, current.node) && InRange(s1.operations, zero.node)
    requires sample.Some? ==> IsBoolean(s2.operations, sample.value.node)
    requires FindState(s4.states, state.node) < |s4.states|
    requires InitOf(s4, state.node) == Some(zero.node) && NextOf(s4, state.node) == Some(next.node)
    requires InRange(s3.operations, next.node)
    requires forall env: Env :: Eval(s1.operations, zero.node, env) == 0
    requires forall env: Env :: Eval(s3.operations, next.node, env) ==
              if SampledBit(s2.operations, sample, env) then Eval(s2.operations, current.node, env)
              else Eval(s2.operations, state.node, env)
    ensures Remembers(s4, state.node, current.node, sample)
  {
    GrowsTransitive(s1, s2, s3);
    CarriesOver(s2, s3, current, sample);
    CarriesOver(s2, s3, state, None);
    CarriesOver(s1, s3, zero, None);
  }

  // ----- the chain -----

  function Source(value: NodeId, chain: seq<NodeId>, k: nat): NodeId
    requires k < |chain|
  {
    if k == 0 then value else chain[k - 1]
  }

  /** Each register of the chain remembers the one before it, and the first one the value. */
  ghost predicate Chain(sys: Sys, value: NodeId, chain: seq<NodeId>, sample: Option<Value>) {
    forall k :: 0 <= k < |chain| ==> Remembers(sys, chain[k], Source(value, chain, k), sample)
  }

  lemma ChainKept(a: Sys, b: Sys, value: NodeId, chain: seq<NodeId>, sample: Option<Value>)
    requires Grows(a, b) && Chain(a, value, chain, sample)
    ensures Chain(b, value, chain, sample)
  {
    forall k | 0 <= k < |chain|
      ensures Remembers(b, chain[k], Source(value, chain, k), sample)
    {
      RemembersKept(a, b, chain[k], Source(value, chain, k), sample);
    }
  }

  lemma ChainExtends(sys: Sys, value: NodeId, chain: seq<NodeId>, sample: Option<Value>, id: NodeId)
    requires Chain(sys, value, chain, sample)
    requires Remembers(sys, id, if chain == [] then value else chain[|chain| - 1], sample)
    ensures Chain(sys, value, chain + [id], sample)
  {
    hide Remembers;
    var longer := chain + [id];
    forall k | 0 <= k < |longer|
      ensures Remembers(sys, longer[k], Source(value, longer, k), sample)
    {
      if k < |chain| {
        assert Source(value, longer, k) == Source(value, chain, k);
        assert Remembers(sys, chain[k], Source(value, chain, k), sample);
      }
    }
  }

  /** The chain built so far, on top of `start`, ends in `current`. */
  ghost predicate Reaches(start: Sys, sys: Sys, value: NodeId, chain: seq<NodeId>, current: Value, sample: Option<Value>) {
    && Adds(start, sys, chain) && Chain(sys, value, chain, sample)
    && InRange(sys.operations, current.node) && sys.operations[current.node - 1].width == current.width
    && current.node == (if chain == [] then value else chain[|chain| - 1])
    && (sample.Some? ==> IsBoolean(sys.operations, sample.value.node))
  }

  lemma ReachesNothing(sys: Sys, value: Value, sample: Option<Value>)
    requires WellTyped(sys) && InRange(sys.operations, value.node) && sys.operations[value.node - 1].width == value.width
    requires sample.Some? ==> IsBoolean(sys.operations, sample.value.node)
    ensures Reaches(sys, sys, value.node, [], value, sample)
  {
    GrowsSelf(sys);
  }

  lemma ReachesReads(start: Sys, sys: Sys, value: NodeId, chain: seq<NodeId>, current: Value, sample: Option<Value>)
    requires Reaches(start, sys, value, chain, current, sample)
    ensures Adds(start, sys, chain) && Chain(sys, value, chain, sample) && WellTyped(sys)
    ensures InRange(sys.operations, current.node) && sys.operations[current.node - 1].width == current.width
    ensures sample.Some? ==> IsBoolean(sys.operations, sample.value.node)
    ensures chain != [] ==> current.node == chain[|chain| - 1]
  {
    hide Chain;
    GrowsWellTyped(start, sys);
  }

  lemma AddsMore(start: Sys, before: Sys, sys: Sys, chain: seq<NodeId>, id: NodeId)
    requires Adds(start, before, chain) && Adds(before, sys, [id])
    ensures Adds(start, sys, chain + [id])
  {
    GrowsTransitive(start, before, sys);
    forall k | 0 <= k < |chain|
      ensures sys.states[|start.states| + k].value == chain[k]
    {
      assert sys.states[|start.states| + k] == sys.states[..|before.states|][|start.states| + k];
    }
  }

  lemma ReachesFurther(start: Sys, before: Sys, sys: Sys, value: NodeId, chain: seq<NodeId>, current: Value,
                       sample: Option<Value>, state: Value)
    requires Reaches(start, before, value, chain, current, sample) && Adds(before, sys, [state.node])
    requires InRange(sys.operations, state.node) && sys.operations[state.node - 1].width == state.width
    requires Remembers(sys, state.node, current.node, sample)
    ensures Reaches(start, sys, value, chain + [state.node], state, sample)
  {
    hide Chain, Remembers, Grows;
    ChainKept(before, sys, value, chain, sample);
    AddsMore(start, before, sys, chain, state.node);
    CarriesOver(before, sys, current, sample);
    ChainExtends(sys, value, chain, sample, state.node);
  }

  method Previous(m: Module, value: Value, ticks: nat, sample: Option<Value>)
    returns (outcome: Outcome, current: Value, ghost chain: seq<NodeId>)
    requires WellTyped(m.View()) && InRange(m.operations, value.node)
    requires m.operations[value.node - 1].width == value.width
    requires sample.Some? ==> IsBoolean(m.operations, sample.value.node)
    modifies m`operations, m`states
    ensures outcome.Fail? <==> ticks == 0
    ensures outcome.Fail? ==> m.View() == old(m.View())
    ensures outcome.Pass? ==>
              && Adds(old(m.View()), m.View(), chain) && Chain(m.View(), value.node, chain, sample)
              && |chain| == ticks && current.node == chain[ticks - 1]
  {
    hide Reaches, Chain, Remembers, Grows, WellTyped, ReadsPast;
    current, chain := value, [];
    if ticks == 0 {
      return Fail("sampled-history depth must be positive"), current, chain;
    }
    ghost var start := m.View();
    ReachesNothing(start, value, sample);
    for tick := 0 to ticks
      invariant Reaches(start, m.View(), value.node, chain, current, sample) && |chain| == tick
    {
      ghost var before := m.View();
      ReachesReads(start, before, value.node, chain, current, sample);
      var state := Remember(m, current, sample, "sva_history");
      ReachesFurther(start, before, m.View(), value.node, chain, current, sample, state);
      chain := chain + [state.node];
      current := state;
    }
    ReachesReads(start, m.View(), value.node, chain, current, sample);
    outcome := Pass;
  }

  // ----- what the chain reads in a run -----

  ghost function ValueSignal(sys: Sys, id: NodeId, run: Run): nat -> nat
    requires TypedOperations(sys.operations) && InRange(sys.operations, id)
  {
    (t: nat) => Eval(sys.operations, id, run(t))
  }

  ghost function SampleSignal(sys: Sys, sample: Option<Value>, run: Run): Signal
    requires TypedOperations(sys.operations) && (sample.Some? ==> IsBoolean(sys.operations, sample.value.node))
  {
    (t: nat) => SampledBit(sys.operations, sample, run(t))
  }

  lemma RegisterRuns(sys: Sys, id: NodeId, source: NodeId, sample: Option<Value>, run: Run, t: nat)
    requires Remembers(sys, id, source, sample) && IsRun(sys, run)
    ensures IsStateVar(sys.operations, id) && InRange(sys.operations, source)
    ensures Eval(sys.operations, id, run(0)) == 0
    ensures Eval(sys.operations, id, run(t + 1)) ==
            if SampledBit(sys.operations, sample, run(t)) then Eval(sys.operations, source, run(t))
            else Eval(sys.operations, id, run(t))
  {
    assert Starts(sys, run(0), id) && Steps(sys, run(t), run(t + 1), id);
  }

  ghost predicate Wired(sys: Sys, value: NodeId, chain: seq<NodeId>, sample: Option<Value>) {
    && WellTyped(sys) && Chain(sys, value, chain, sample) && InRange(sys.operations, value)
    && (sample.Some? ==> IsBoolean(sys.operations, sample.value.node))
    && forall k :: 0 <= k < |chain| ==> InRange(sys.operations, chain[k])
  }

  /** In step `t`, register `k` holds the value at the (k+1)-th most recent tick. */
  ghost predicate RegisterReads(sys: Sys, value: NodeId, chain: seq<NodeId>, sample: Option<Value>, run: Run, k: nat, t: nat)
    requires Wired(sys, value, chain, sample) && k < |chain|
  {
    ReadsPast(ValueSignal(sys, value, run), SampleSignal(sys, sample, run), k + 1, t, Eval(sys.operations, chain[k], run(t)))
  }

  lemma RegisterFirst(sys: Sys, value: NodeId, chain: seq<NodeId>, sample: Option<Value>, run: Run, k: nat)
    requires Wired(sys, value, chain, sample) && k < |chain| && IsRun(sys, run)
    ensures RegisterReads(sys, value, chain, sample, run, k, 0)
  {
    hide Remembers, IsRun;
    assert Remembers(sys, chain[k], Source(value, chain, k), sample);
    RegisterRuns(sys, chain[k], Source(value, chain, k), sample, run, 0);
    assert Ticks(SampleSignal(sys, sample, run), 0, 0) == 0;
  }

  lemma RegisterStep(sys: Sys, value: NodeId, chain: seq<NodeId>, sample: Option<Value>, run: Run, k: nat, t: nat)
    requires Wired(sys, value, chain, sample) && k < |chain| && IsRun(sys, run)
    requires RegisterReads(sys, value, chain, sample, run, k, t)
    requires k > 0 ==> RegisterReads(sys, value, chain, sample, run, k - 1, t)
    ensures RegisterReads(sys, value, chain, sample, run, k, t + 1)
  {
    hide Remembers, IsRun;
    var id, source := chain[k], Source(value, chain, k);
    assert Remembers(sys, id, source, sample);
    RegisterRuns(sys, id, source, sample, run, t);
    var v, s := ValueSignal(sys, value, run), SampleSignal(sys, sample, run);
    if s(t) {
      PastShifts(v, s, k, t, Eval(sys.operations, source, run(t)));
    } else {
      PastHolds(v, s, k + 1, t, Eval(sys.operations, id, run(t)));
    }
  }

  /** At every step of every run, every register of the chain reads its past value. */
  lemma {:induction false} ChainReadsPast(sys: Sys, value: NodeId, chain: seq<NodeId>, sample: Option<Value>, run: Run, k: nat, t: nat)
    requires Wired(sys, value, chain, sample) && k < |chain| && IsRun(sys, run)
    ensures RegisterReads(sys, value, chain, sample, run, k, t)
    decreases t
  {
    hide Wired, RegisterReads, IsRun;
    if t == 0 {
      RegisterFirst(sys, value, chain, sample, run, k);
    } else {
      ChainReadsPast(sys, value, chain, sample, run, k, t - 1);
      if k > 0 {
        ChainReadsPast(sys, value, chain, sample, run, k - 1, t - 1);
      }
      RegisterStep(sys, value, chain, sample, run, k, t - 1);
    }
  }

  // ----- the chain restricts nothing -----

  /** A system that grew by registers refines to the one it grew from. */
  lemma AddsRefines(base: Sys, sys: Sys, ids: seq<NodeId>)
    requires Adds(base, sys, ids) && base.properties == sys.properties && WellTyped(base) && WellTyped(sys)
    ensures Refines(sys, base, Identity(|base.operations|))
  {
    hide WellTyped, SameObservation, SameOptional;
    var back := Identity(|base.operations|);
    forall i: NodeId | InRange(base.operations, i)
      ensures InRange(sys.operations, i) && sys.operations[i - 1] == base.operations[i - 1]
    {
      GrowsEval(base, sys, i, _ => 0);
    }
    forall env: Env
      ensures AgreeAt(sys, base, back, env)
    {
      AddsAgrees(base, sys, ids, env);
    }
  }

  lemma AddsAgrees(base: Sys, sys: Sys, ids: seq<NodeId>, env: Env)
    requires Adds(base, sys, ids) && base.properties == sys.properties && WellTyped(base) && WellTyped(sys)
    requires Renaming(sys.operations, base.operations, Identity(|base.operations|))
    ensures AgreeAt(sys, base, Identity(|base.operations|), env)
  {
    var env' := Pull(Identity(|base.operations|), env);
    forall i: NodeId | InRange(base.operations, i)
      ensures Eval(sys.operations, i, env) == Eval(base.operations, i, env')
    {
      GrowsEval(base, sys, i, env);
      EvalAgrees(base.operations, i, env, env');
    }
    forall k | 0 <= k < |sys.properties|
      ensures SameProperty(sys, sys.properties[k], env, base, base.properties[k], env')
    {
      assert TypedProperty(base.operations, base.properties[k]);
    }
    forall i: NodeId | IsStateVar(base.operations, i)
      ensures SameOptional(sys, InitOf(sys, i), env, base, InitOf(base, i), env')
      ensures SameOptional(sys, NextOf(sys, i), env, base, NextOf(base, i), env')
    {
      RecordTyped(base, i);
      AddsRecords(base, sys, ids, i);
    }
  }

  /** A record of the grown system belongs to a state of the design or to a new one. */
  lemma AddsOrigin(base: Sys, sys: Sys, ids: seq<NodeId>, n: nat)
    requires Adds(base, sys, ids) && n < |sys.states|
    ensures if n < |base.states| then sys.states[n] == base.states[n] && IsStateVar(base.operations, sys.states[n].value)
            else sys.states[n].value == ids[n - |base.states|] > |base.operations|
  {
    if n < |base.states| {
      assert sys.states[n] == sys.states[..|base.states|][n];
      assert TypedState(base.operations, base.states[n]);
    } else {
      var k := n - |base.states|;
      assert sys.states[|base.states| + k].value == ids[k];
    }
  }

  lemma AddsRecords(base: Sys, sys: Sys, ids: seq<NodeId>, i: NodeId)
    requires Adds(base, sys, ids) && IsStateVar(base.operations, i)
    ensures InitOf(sys, i) == InitOf(base, i) && NextOf(sys, i) == NextOf(base, i)
  {
    hide WellTyped;
    var k, n := FindState(base.states, i), FindState(sys.states, i);
    if k < |base.states| {
      GrowsRecord(base, sys, k);
    } else if n < |sys.states| {
      AddsOrigin(base, sys, ids, n);
      assert false;
    }
  }

  lemma ChainInit(base: Sys, sys: Sys, value: NodeId, chain: seq<NodeId>, sample: Option<Value>, id: NodeId, env: Env)
    requires Adds(base, sys, chain) && Chain(sys, value, chain, sample) && WellTyped(sys) && IsStateVar(sys.operations, id)
    requires !(InRange(base.operations, id) && IsLeaf(base.operations[id - 1].opcode))
    ensures InitOf(sys, id).Some? ==>
              InRange(sys.operations, InitOf(sys, id).value) && Eval(sys.operations, InitOf(sys, id).value, env) == 0
  {
    hide WellTyped, Grows;
    var k := FindState(sys.states, id);
    if k < |sys.states| {
      AddsOrigin(base, sys, chain, k);
      if k >= |base.states| {
        assert Remembers(sys, chain[k - |base.states|], Source(value, chain, k - |base.states|), sample);
      }
    }
  }

  lemma ChainStarts(base: Sys, sys: Sys, value: NodeId, chain: seq<NodeId>, sample: Option<Value>, env': Env, id: NodeId)
    requires Adds(base, sys, chain) && Chain(sys, value, chain, sample) && WellTyped(sys) && IsStateVar(sys.operations, id)
    requires !Kept(base.operations, Identity(|base.operations|), id)
    ensures Starts(sys, Fill(base.operations, Identity(|base.operations|), env', _ => 0), id)
  {
    hide Kept, Adds, Chain;
    var filled := Fill(base.operations, Identity(|base.operations|), env', _ => 0);
    RecordTyped(sys, id);
    if InRange(base.operations, id) && IsLeaf(base.operations[id - 1].opcode) {
      OwnImage(base.operations, id);
      assert false;
    }
    ChainInit(base, sys, value, chain, sample, id, filled);
    assert filled(id) == 0;
    SmallModulo(0, Pow2(sys.operations[id - 1].width));
  }

  lemma OwnImage(ops: seq<Operation>, id: NodeId)
    requires InRange(ops, id) && IsLeaf(ops[id - 1].opcode)
    ensures Kept(ops, Identity(|ops|), id)
  {
    assert IsImage(ops, Identity(|ops|), id, id);
  }

  /** Every run of the grown system is a run of the design, and every run of the design is shown by one of the grown system. */
  lemma HistoryIsPassive(base: Sys, sys: Sys, value: NodeId, chain: seq<NodeId>, sample: Option<Value>)
    requires Adds(base, sys, chain) && base.properties == sys.properties && Chain(sys, value, chain, sample)
    ensures WellTyped(base) && WellTyped(sys) && Refines(sys, base, Identity(|base.operations|))
    ensures forall run: Run :: IsRun(sys, run) ==> IsRun(base, run)
    ensures AllRunsExtend(sys, base, Identity(|base.operations|))
  {
    hide WellTyped, Chain, Refines, IsRun, AllRunsExtend, Fill, Kept;
    GrowsWellTyped(base, sys);
    AddsRefines(base, sys, chain);
    forall run: Run | IsRun(sys, run)
      ensures IsRun(base, run)
    {
      GrowsRun(base, sys, run);
    }
    var back := Identity(|base.operations|);
    forall env': Env | StartsAll(base, env')
      ensures exists rest: Env :: StartsDropped(sys, base.operations, back, env', rest)
    {
      var rest: Env := _ => 0;
      forall id: NodeId | IsStateVar(sys.operations, id) && !Kept(base.operations, back, id)
        ensures Starts(sys, Fill(base.operations, back, env', rest), id)
      {
        ChainStarts(base, sys, value, chain, sample, env', id);
      }
      assert StartsDropped(sys, base.operations, back, env', rest);
    }
    RunsExtend(sys, base, back);
  }
}
