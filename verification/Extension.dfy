/** Runs of a refined system extend to runs of the original, by filling in the states that were dropped. */
module Extension {
  import opened Bits
  import opened TransitionSystem
  import opened Semantics
  import opened Refinement

  // ----- the extension -----

  ghost predicate IsImage(ops': seq<Operation>, back: seq<NodeId>, id: NodeId, i: NodeId) {
    InRange(ops', i) && IsLeaf(ops'[i - 1].opcode) && i < |back| && back[i] == id
  }

  ghost predicate Kept(ops': seq<Operation>, back: seq<NodeId>, id: NodeId) {
    exists i: NodeId :: IsImage(ops', back, id, i)
  }

  ghost function Image(ops': seq<Operation>, back: seq<NodeId>, id: NodeId): (i: NodeId)
    requires Kept(ops', back, id)
    ensures IsImage(ops', back, id, i)
  {
    var i: NodeId :| IsImage(ops', back, id, i);
    i
  }

  /** Kept inputs and states read `env'`; the others read `rest`. */
  ghost function Fill(ops': seq<Operation>, back: seq<NodeId>, env': Env, rest: Env): Env {
    (id: NodeId) => if Kept(ops', back, id) then env'(Image(ops', back, id)) else rest(id)
  }

  /** Value that the init relation gives to a state. */
  ghost function InitialValue(sys: Sys, env: Env, id: NodeId): nat
    requires WellTyped(sys)
  {
    if IsStateVar(sys.operations, id) && InitOf(sys, id).Some? then
      RecordTyped(sys, id);
      Eval(sys.operations, InitOf(sys, id).value, env)
    else 0
  }

  /** Value that the next relation gives to a state. */
  ghost function NextValue(sys: Sys, env: Env, id: NodeId): nat
    requires WellTyped(sys)
  {
    if IsStateVar(sys.operations, id) && NextOf(sys, id).Some? then
      RecordTyped(sys, id);
      Eval(sys.operations, NextOf(sys, id).value, env)
    else 0
  }

  ghost function NextRest(sys: Sys, env: Env): Env
    requires WellTyped(sys)
  {
    (id: NodeId) => NextValue(sys, env, id)
  }

  /** The run that starts with `rest` on dropped states, and steps as their next relations say. */
  ghost function ExtendAt(sys: Sys, ops': seq<Operation>, back: seq<NodeId>, run': Run, rest: Env, t: nat): Env
    requires WellTyped(sys)
    decreases t, 1
  {
    Fill(ops', back, run'(t), RestAt(sys, ops', back, run', rest, t))
  }

  ghost function RestAt(sys: Sys, ops': seq<Operation>, back: seq<NodeId>, run': Run, rest: Env, t: nat): Env
    requires WellTyped(sys)
    decreases t, 0
  {
    if t == 0 then rest else NextRest(sys, ExtendAt(sys, ops', back, run', rest, t - 1))
  }

  ghost function Extend(sys: Sys, ops': seq<Operation>, back: seq<NodeId>, run': Run, rest: Env): Run
    requires WellTyped(sys)
  {
    (t: nat) => ExtendAt(sys, ops', back, run', rest, t)
  }

  lemma FillPulls(ops: seq<Operation>, ops': seq<Operation>, back: seq<NodeId>, env': Env, rest: Env)
    requires Renaming(ops, ops', back)
    ensures forall i: NodeId :: InRange(ops', i) && IsLeaf(ops'[i - 1].opcode) ==>
              Pull(back, Fill(ops', back, env', rest))(i) == env'(i)
  {
    forall i: NodeId | InRange(ops', i) && IsLeaf(ops'[i - 1].opcode)
      ensures Pull(back, Fill(ops', back, env', rest))(i) == env'(i)
    {
      assert IsImage(ops', back, back[i], i);
      assert Image(ops', back, back[i]) == i;
    }
  }

  lemma DroppedStateSteps(sys: Sys, ops': seq<Operation>, back: seq<NodeId>, env: Env, next': Env, id: NodeId)
    requires WellTyped(sys) && IsStateVar(sys.operations, id) && !Kept(ops', back, id)
    ensures Steps(sys, env, Fill(ops', back, next', NextRest(sys, env)), id)
  {
    RecordTyped(sys, id);
    if NextOf(sys, id).Some? {
      SmallModulo(NextRest(sys, env)(id), Pow2(sys.operations[id - 1].width));
    }
  }

  lemma PullReads(sys: Sys, sys': Sys, back: seq<NodeId>, env': Env, rest: Env)
    requires WellTyped(sys) && WellTyped(sys') && Refines(sys, sys', back)
    ensures var env := Fill(sys'.operations, back, env', rest);
            && (forall id: NodeId :: InRange(sys'.operations, id) ==>
                  Eval(sys'.operations, id, Pull(back, env)) == Eval(sys'.operations, id, env'))
            && (forall i: NodeId :: InRange(sys'.operations, i) && IsLeaf(sys'.operations[i - 1].opcode) ==>
                  Eval(sys.operations, back[i], env) == Eval(sys'.operations, i, env'))
            && SameObservation(sys, env, sys', env')
  {
    var env := Fill(sys'.operations, back, env', rest);
    FillPulls(sys.operations, sys'.operations, back, env', rest);
    forall id: NodeId | InRange(sys'.operations, id)
      ensures Eval(sys'.operations, id, Pull(back, env)) == Eval(sys'.operations, id, env')
    {
      EvalAgrees(sys'.operations, id, Pull(back, env), env');
    }
    assert AgreeAt(sys, sys', back, env);
    ObserveSelf(sys', Pull(back, env), env');
    ObserveTransitive(sys, env, sys', Pull(back, env), sys', Pull(back, env), env');
  }

  lemma KeptStateStarts(sys: Sys, sys': Sys, back: seq<NodeId>, env': Env, rest: Env, i: NodeId)
    requires WellTyped(sys) && WellTyped(sys') && Refines(sys, sys', back)
    requires IsStateVar(sys'.operations, i) && Starts(sys', env', i)
    ensures Starts(sys, Fill(sys'.operations, back, env', rest), back[i])
  {
    var env := Fill(sys'.operations, back, env', rest);
    PullReads(sys, sys', back, env', rest);
    RecordTyped(sys, back[i]);
    RecordTyped(sys', i);
    assert AgreeAt(sys, sys', back, env);
  }

  lemma KeptStateSteps(sys: Sys, sys': Sys, back: seq<NodeId>, env': Env, rest: Env, next': Env, nextRest: Env, i: NodeId)
    requires WellTyped(sys) && WellTyped(sys') && Refines(sys, sys', back)
    requires IsStateVar(sys'.operations, i) && Steps(sys', env', next', i)
    ensures Steps(sys, Fill(sys'.operations, back, env', rest), Fill(sys'.operations, back, next', nextRest), back[i])
  {
    var env := Fill(sys'.operations, back, env', rest);
    PullReads(sys, sys', back, env', rest);
    PullReads(sys, sys', back, next', nextRest);
    RecordTyped(sys, back[i]);
    RecordTyped(sys', i);
    assert AgreeAt(sys, sys', back, env);
  }

  // ----- exactly when runs extend -----

  /** The inputs and states that `sys'` keeps have the same values in both environments. */
  ghost predicate SameLeaves(sys: Sys, env: Env, sys': Sys, back: seq<NodeId>, env': Env)
    requires WellTyped(sys) && WellTyped(sys') && Renaming(sys.operations, sys'.operations, back)
  {
    forall i: NodeId :: InRange(sys'.operations, i) && IsLeaf(sys'.operations[i - 1].opcode) ==>
      Eval(sys.operations, back[i], env) == Eval(sys'.operations, i, env')
  }

  /** `run` is a run of `sys` that shows the kept inputs and states of `run'`. */
  ghost predicate Extends(sys: Sys, run: Run, sys': Sys, back: seq<NodeId>, run': Run)
    requires WellTyped(sys) && WellTyped(sys') && Renaming(sys.operations, sys'.operations, back)
  {
    IsRun(sys, run) && forall t: nat :: SameLeaves(sys, run(t), sys', back, run'(t))
  }

  ghost predicate AllRunsExtend(sys: Sys, sys': Sys, back: seq<NodeId>)
    requires WellTyped(sys) && WellTyped(sys') && Renaming(sys.operations, sys'.operations, back)
  {
    forall run': Run :: IsRun(sys', run') ==> exists run: Run :: Extends(sys, run, sys', back, run')
  }

  ghost predicate StartsAll(sys: Sys, env: Env)
    requires WellTyped(sys)
  {
    forall id: NodeId :: IsStateVar(sys.operations, id) ==> Starts(sys, env, id)
  }

  /** With `rest` on the states that were dropped, their init relations hold. */
  ghost predicate StartsDropped(sys: Sys, ops': seq<Operation>, back: seq<NodeId>, env': Env, rest: Env)
    requires WellTyped(sys)
  {
    forall id: NodeId :: IsStateVar(sys.operations, id) && !Kept(ops', back, id) ==> Starts(sys, Fill(ops', back, env', rest), id)
  }

  /** Every start of `sys'` leaves room for the init relations of the dropped states: one step, no runs. */
  ghost predicate StartsCompletable(sys: Sys, sys': Sys, back: seq<NodeId>)
    requires WellTyped(sys) && WellTyped(sys')
  {
    forall env': Env :: StartsAll(sys', env') ==> exists rest: Env :: StartsDropped(sys, sys'.operations, back, env', rest)
  }

  /** Equal inputs and states give equal values. */
  lemma {:induction false} EvalLeaves(ops: seq<Operation>, id: NodeId, env: Env, env': Env)
    requires TypedOperations(ops) && InRange(ops, id)
    requires forall i: NodeId :: InRange(ops, i) && IsLeaf(ops[i - 1].opcode) ==> Eval(ops, i, env) == Eval(ops, i, env')
    ensures Eval(ops, id, env) == Eval(ops, id, env')
  {
    if !IsLeaf(ops[id - 1].opcode) {
      assert TypedAt(ops, id);
      var operands := ops[id - 1].operands;
      forall k | 0 <= k < |operands|
        ensures Eval(ops, operands[k], env) == Eval(ops, operands[k], env')
      {
        EvalLeaves(ops, operands[k], env, env');
      }
      assert OperandValues(ops, id, env) == OperandValues(ops, id, env');
    }
  }

  /** What keeps the inputs and states keeps all observations. */
  lemma LeavesObserve(sys: Sys, sys': Sys, back: seq<NodeId>, env: Env, env': Env)
    requires WellTyped(sys) && WellTyped(sys') && Refines(sys, sys', back) && SameLeaves(sys, env, sys', back, env')
    ensures SameObservation(sys, env, sys', env')
  {
    hide SameObservation;
    var pulled := Pull(back, env);
    forall id: NodeId | InRange(sys'.operations, id)
      ensures Eval(sys'.operations, id, pulled) == Eval(sys'.operations, id, env')
    {
      EvalLeaves(sys'.operations, id, pulled, env');
    }
    assert AgreeAt(sys, sys', back, env);
    ObserveSelf(sys', pulled, env');
    ObserveTransitive(sys, env, sys', pulled, sys', env', env');
  }

  lemma FilledRuns(sys: Sys, sys': Sys, back: seq<NodeId>, run': Run, rest: Env)
    requires WellTyped(sys) && WellTyped(sys') && Refines(sys, sys', back) && IsRun(sys', run')
    requires StartsDropped(sys, sys'.operations, back, run'(0), rest)
    ensures Extends(sys, Extend(sys, sys'.operations, back, run', rest), sys', back, run')
  {
    hide Starts, Steps, AgreeAt, SameObservation, TypedState, TypedProperty;
    var ops' := sys'.operations;
    var run := Extend(sys, ops', back, run', rest);
    assert run(0) == Fill(ops', back, run'(0), rest);
    forall id: NodeId | IsStateVar(sys.operations, id)
      ensures Starts(sys, run(0), id)
    {
      if Kept(ops', back, id) {
        KeptStateStarts(sys, sys', back, run'(0), rest, Image(ops', back, id));
      }
    }
    forall t: nat, id: NodeId | IsStateVar(sys.operations, id)
      ensures Steps(sys, run(t), run(t + 1), id)
    {
      assert run(t) == Fill(ops', back, run'(t), RestAt(sys, ops', back, run', rest, t));
      assert run(t + 1) == Fill(ops', back, run'(t + 1), RestAt(sys, ops', back, run', rest, t + 1));
      assert RestAt(sys, ops', back, run', rest, t + 1) == NextRest(sys, run(t));
      if Kept(ops', back, id) {
        var i := Image(ops', back, id);
        assert IsStateVar(ops', i);
        assert Steps(sys', run'(t), run'(t + 1), i);
        KeptStateSteps(sys, sys', back, run'(t), RestAt(sys, ops', back, run', rest, t),
                       run'(t + 1), RestAt(sys, ops', back, run', rest, t + 1), i);
      } else {
        DroppedStateSteps(sys, ops', back, run(t), run'(t + 1), id);
      }
    }
    forall t: nat
      ensures SameLeaves(sys, run(t), sys', back, run'(t))
    {
      PullReads(sys, sys', back, run'(t), RestAt(sys, ops', back, run', rest, t));
    }
  }

  /** The run from a start in which every next relation is followed. */
  ghost function Following(sys: Sys, env: Env, t: nat): Env
    requires WellTyped(sys)
  {
    if t == 0 then env else NextRest(sys, Following(sys, env, t - 1))
  }

  lemma FollowingRuns(sys: Sys, env: Env)
    requires WellTyped(sys) && StartsAll(sys, env)
    ensures IsRun(sys, (t: nat) => Following(sys, env, t))
  {
    hide WellTyped, Starts;
    var run: Run := (t: nat) => Following(sys, env, t);
    forall t: nat, id: NodeId | IsStateVar(sys.operations, id)
      ensures Steps(sys, run(t), run(t + 1), id)
    {
      NextRestSteps(sys, run(t), id);
    }
  }

  lemma NextRestSteps(sys: Sys, env: Env, id: NodeId)
    requires WellTyped(sys) && IsStateVar(sys.operations, id)
    ensures Steps(sys, env, NextRest(sys, env), id)
  {
    RecordTyped(sys, id);
    if NextOf(sys, id).Some? {
      SmallModulo(NextRest(sys, env)(id), Pow2(sys.operations[id - 1].width));
    }
  }

  lemma StartsSame(sys: Sys, env: Env, env': Env, id: NodeId)
    requires WellTyped(sys) && IsStateVar(sys.operations, id) && Starts(sys, env, id)
    requires forall i: NodeId :: InRange(sys.operations, i) && IsLeaf(sys.operations[i - 1].opcode) ==>
               Eval(sys.operations, i, env) == Eval(sys.operations, i, env')
    ensures Starts(sys, env', id)
  {
    RecordTyped(sys, id);
    if InitOf(sys, id).Some? {
      EvalLeaves(sys.operations, InitOf(sys, id).value, env, env');
    }
  }

  /** The dropped states of an extension show how its start is completed. */
  lemma ExtensionCompletes(sys: Sys, sys': Sys, back: seq<NodeId>, env: Env, env': Env)
    requires WellTyped(sys) && WellTyped(sys') && Refines(sys, sys', back)
    requires StartsAll(sys, env) && SameLeaves(sys, env, sys', back, env')
    ensures StartsDropped(sys, sys'.operations, back, env', env)
  {
    hide Starts, AgreeAt, SameObservation, TypedState, TypedProperty;
    var ops' := sys'.operations;
    var filled := Fill(ops', back, env', env);
    PullReads(sys, sys', back, env', env);
    forall i: NodeId | InRange(sys.operations, i) && IsLeaf(sys.operations[i - 1].opcode)
      ensures Eval(sys.operations, i, env) == Eval(sys.operations, i, filled)
    {
      if Kept(ops', back, i) {
        var j := Image(ops', back, i);
        assert Eval(sys.operations, back[j], env) == Eval(ops', j, env');
      }
    }
    forall id: NodeId | IsStateVar(sys.operations, id)
      ensures Starts(sys, filled, id)
    {
      StartsSame(sys, env, filled, id);
    }
  }

  /** Every run of the refined system extends exactly when every start of it can be completed. */
  lemma RunsExtend(sys: Sys, sys': Sys, back: seq<NodeId>)
    requires WellTyped(sys) && WellTyped(sys') && Refines(sys, sys', back)
    ensures AllRunsExtend(sys, sys', back) <==> StartsCompletable(sys, sys', back)
  {
    hide Starts, Steps, AgreeAt, TypedState, TypedProperty, SameLeaves;
    if StartsCompletable(sys, sys', back) {
      forall run': Run | IsRun(sys', run')
        ensures exists run: Run :: Extends(sys, run, sys', back, run')
      {
        assert StartsAll(sys', run'(0));
        var rest: Env :| StartsDropped(sys, sys'.operations, back, run'(0), rest);
        FilledRuns(sys, sys', back, run', rest);
      }
    }
    if AllRunsExtend(sys, sys', back) {
      forall env': Env | StartsAll(sys', env')
        ensures exists rest: Env :: StartsDropped(sys, sys'.operations, back, env', rest)
      {
        FollowingRuns(sys', env');
        var run': Run := (t: nat) => Following(sys', env', t);
        var run: Run :| Extends(sys, run, sys', back, run');
        assert SameLeaves(sys, run(0), sys', back, run'(0));
        ExtensionCompletes(sys, sys', back, run(0), env');
      }
    }
  }

  /** Extensions have the same observations at every step. */
  lemma ExtensionObserves(sys: Sys, run: Run, sys': Sys, back: seq<NodeId>, run': Run, t: nat)
    requires WellTyped(sys) && WellTyped(sys') && Refines(sys, sys', back) && Extends(sys, run, sys', back, run')
    ensures SameObservation(sys, run(t), sys', run'(t))
  {
    hide AgreeAt, SameObservation, SameLeaves, IsRun;
    assert SameLeaves(sys, run(t), sys', back, run'(t));
    LeavesObserve(sys, sys', back, run(t), run'(t));
  }

  // ----- initial values that can be computed one after the other -----

  type Rank = NodeId -> nat

  /** Of the states that operation `id` depends on, those that were dropped have a rank below `bound`. */
  ghost predicate RankedBelow(ops: seq<Operation>, ops': seq<Operation>, back: seq<NodeId>, id: NodeId, rank: Rank, bound: nat)
    requires TypedOperations(ops) && InRange(ops, id)
    decreases id
  {
    assert TypedAt(ops, id);
    var operands := ops[id - 1].operands;
    if ops[id - 1].opcode.StateVar? then Kept(ops', back, id) || rank(id) < bound
    else forall k :: 0 <= k < |operands| ==> RankedBelow(ops, ops', back, operands[k], rank, bound)
  }

  /** Initial values of dropped states do not depend on each other cyclically. */
  ghost predicate InitsRanked(sys: Sys, ops': seq<Operation>, back: seq<NodeId>, rank: Rank)
    requires WellTyped(sys)
  {
    forall id: NodeId :: IsStateVar(sys.operations, id) && !Kept(ops', back, id) && InitOf(sys, id).Some? ==>
      InRange(sys.operations, InitOf(sys, id).value)
      && RankedBelow(sys.operations, ops', back, InitOf(sys, id).value, rank, rank(id))
  }

  /** Initial values of the dropped states, computed `n` times from each other. */
  ghost function Settling(sys: Sys, ops': seq<Operation>, back: seq<NodeId>, env': Env, n: nat): Env
    requires WellTyped(sys)
  {
    if n == 0 then (id: NodeId) => 0
    else
      var env := Fill(ops', back, env', Settling(sys, ops', back, env', n - 1));
      (id: NodeId) => InitialValue(sys, env, id)
  }

  lemma {:induction false} EvalRanked(ops: seq<Operation>, ops': seq<Operation>, back: seq<NodeId>, id: NodeId, rank: Rank, bound: nat,
                                      env: Env, env': Env)
    requires TypedOperations(ops) && InRange(ops, id) && RankedBelow(ops, ops', back, id, rank, bound)
    requires forall i: NodeId :: InRange(ops, i) && (ops[i - 1].opcode.Input? || Kept(ops', back, i) || rank(i) < bound) ==> env(i) == env'(i)
    ensures Eval(ops, id, env) == Eval(ops, id, env')
  {
    if !IsLeaf(ops[id - 1].opcode) {
      assert TypedAt(ops, id);
      var operands := ops[id - 1].operands;
      forall k | 0 <= k < |operands|
        ensures Eval(ops, operands[k], env) == Eval(ops, operands[k], env')
      {
        EvalRanked(ops, ops', back, operands[k], rank, bound, env, env');
      }
      assert OperandValues(ops, id, env) == OperandValues(ops, id, env');
    }
  }

  lemma SettlingLeaf(sys: Sys, ops': seq<Operation>, back: seq<NodeId>, env': Env, n: nat, i: NodeId)
    requires WellTyped(sys) && (IsStateVar(sys.operations, i) ==> Kept(ops', back, i))
    ensures Fill(ops', back, env', Settling(sys, ops', back, env', n + 1))(i) == Fill(ops', back, env', Settling(sys, ops', back, env', n))(i)
  {
    hide WellTyped;
  }

  lemma TypedSys(sys: Sys)
    requires WellTyped(sys)
    ensures TypedOperations(sys.operations)
  {
  }

  lemma FillRest(ops': seq<Operation>, back: seq<NodeId>, env': Env, rest: Env, rest': Env, id: NodeId)
    requires rest(id) == rest'(id)
    ensures Fill(ops', back, env', rest)(id) == Fill(ops', back, env', rest')(id)
    ensures !Kept(ops', back, id) ==> Fill(ops', back, env', rest)(id) == rest(id)
  {
    hide Kept;
  }

  lemma InitialSame(sys: Sys, ops': seq<Operation>, back: seq<NodeId>, rank: Rank, env: Env, env': Env, id: NodeId)
    requires WellTyped(sys) && InitsRanked(sys, ops', back, rank) && IsStateVar(sys.operations, id) && !Kept(ops', back, id)
    requires forall i: NodeId ::
               InRange(sys.operations, i) && (sys.operations[i - 1].opcode.Input? || Kept(ops', back, i) || rank(i) < rank(id)) ==>
               env(i) == env'(i)
    ensures InitialValue(sys, env, id) == InitialValue(sys, env', id)
  {
    hide Kept, WellTyped;
    TypedSys(sys);
    if InitOf(sys, id).Some? {
      EvalRanked(sys.operations, ops', back, InitOf(sys, id).value, rank, rank(id), env, env');
    }
  }

  /** A state settles once there were more rounds than its rank. */
  lemma {:induction false} Settles(sys: Sys, ops': seq<Operation>, back: seq<NodeId>, env': Env, rank: Rank, n: nat, id: NodeId)
    requires WellTyped(sys) && InitsRanked(sys, ops', back, rank)
    requires IsStateVar(sys.operations, id) && !Kept(ops', back, id) && rank(id) < n
    ensures Settling(sys, ops', back, env', n + 1)(id) == Settling(sys, ops', back, env', n)(id)
  {
    hide Kept, Fill, WellTyped, InitsRanked, InitialValue;
    var before := Fill(ops', back, env', Settling(sys, ops', back, env', n - 1));
    var after := Fill(ops', back, env', Settling(sys, ops', back, env', n));
    forall i: NodeId | InRange(sys.operations, i) && (sys.operations[i - 1].opcode.Input? || Kept(ops', back, i) || rank(i) < rank(id))
      ensures before(i) == after(i)
    {
      if IsStateVar(sys.operations, i) && !Kept(ops', back, i) {
        Settles(sys, ops', back, env', rank, n - 1, i);
        FillRest(ops', back, env', Settling(sys, ops', back, env', n - 1), Settling(sys, ops', back, env', n), i);
      } else {
        SettlingLeaf(sys, ops', back, env', n - 1, i);
      }
    }
    InitialSame(sys, ops', back, rank, before, after, id);
  }

  function Highest(rank: Rank, n: nat): (r: nat)
    ensures forall id: NodeId :: id <= n ==> rank(id) <= r
  {
    if n == 0 then rank(0) else if rank(n) > Highest(rank, n - 1) then rank(n) else Highest(rank, n - 1)
  }

  lemma SettledStarts(sys: Sys, ops': seq<Operation>, back: seq<NodeId>, env': Env, rank: Rank, n: nat, id: NodeId)
    requires WellTyped(sys) && InitsRanked(sys, ops', back, rank)
    requires IsStateVar(sys.operations, id) && !Kept(ops', back, id) && rank(id) < n
    ensures Starts(sys, Fill(ops', back, env', Settling(sys, ops', back, env', n)), id)
  {
    hide Kept, Fill;
    var rest := Settling(sys, ops', back, env', n);
    var full := Fill(ops', back, env', rest);
    RecordTyped(sys, id);
    if InitOf(sys, id).Some? {
      Settles(sys, ops', back, env', rank, n, id);
      FillRest(ops', back, env', rest, rest, id);
      assert full(id) == Eval(sys.operations, InitOf(sys, id).value, full);
      SmallModulo(full(id), Pow2(sys.operations[id - 1].width));
    }
  }

  /** Without a cycle among the initial values of dropped states, every run extends. */
  lemma RankedRunsExtend(sys: Sys, sys': Sys, back: seq<NodeId>, rank: Rank)
    requires WellTyped(sys) && WellTyped(sys') && Refines(sys, sys', back) && InitsRanked(sys, sys'.operations, back, rank)
    ensures AllRunsExtend(sys, sys', back)
  {
    hide Kept, Fill, WellTyped, Starts, Refines;
    var ops', n := sys'.operations, Highest(rank, |sys.operations|) + 1;
    forall env': Env | StartsAll(sys', env')
      ensures exists rest: Env :: StartsDropped(sys, ops', back, env', rest)
    {
      var rest := Settling(sys, ops', back, env', n);
      forall id: NodeId | IsStateVar(sys.operations, id) && !Kept(ops', back, id)
        ensures Starts(sys, Fill(ops', back, env', rest), id)
      {
        SettledStarts(sys, ops', back, env', rank, n, id);
      }
      assert StartsDropped(sys, ops', back, env', rest);
    }
    RunsExtend(sys, sys', back);
  }

  lemma {:induction false} RankedFewer(ops: seq<Operation>, ops': seq<Operation>, back: seq<NodeId>, id: NodeId, rank: Rank, bound: nat)
    requires TypedOperations(ops) && InRange(ops, id) && RankedBelow(ops, [], [], id, rank, bound)
    ensures RankedBelow(ops, ops', back, id, rank, bound)
  {
    if !IsLeaf(ops[id - 1].opcode) {
      assert TypedAt(ops, id);
      var operands := ops[id - 1].operands;
      forall k | 0 <= k < |operands|
        ensures RankedBelow(ops, ops', back, operands[k], rank, bound)
      {
        RankedFewer(ops, ops', back, operands[k], rank, bound);
      }
    }
  }

  /** A rank for all states, before anything is dropped, is one for the states that will be dropped. */
  lemma InitsRankedFewer(sys: Sys, ops': seq<Operation>, back: seq<NodeId>, rank: Rank)
    requires WellTyped(sys) && InitsRanked(sys, [], [], rank)
    ensures InitsRanked(sys, ops', back, rank)
  {
    hide WellTyped;
    TypedSys(sys);
    forall id: NodeId | IsStateVar(sys.operations, id) && !Kept(ops', back, id) && InitOf(sys, id).Some?
      ensures InRange(sys.operations, InitOf(sys, id).value)
              && RankedBelow(sys.operations, ops', back, InitOf(sys, id).value, rank, rank(id))
    {
      assert !Kept([], [], id);
      RankedFewer(sys.operations, ops', back, InitOf(sys, id).value, rank, rank(id));
    }
  }

  /** Every initial value that is given is a constant. */
  predicate InitsConstant(sys: Sys) {
    forall k :: 0 <= k < |sys.states| && sys.states[k].initial.Some? ==>
      InRange(sys.operations, sys.states[k].initial.value) && sys.operations[sys.states[k].initial.value - 1].opcode.Const?
  }

  /** Constant initial values never depend on each other. */
  lemma ConstantInitsRanked(sys: Sys)
    requires WellTyped(sys) && InitsConstant(sys)
    ensures InitsRanked(sys, [], [], (id: NodeId) => 0)
  {
    forall id: NodeId | IsStateVar(sys.operations, id) && InitOf(sys, id).Some?
      ensures InRange(sys.operations, InitOf(sys, id).value)
              && RankedBelow(sys.operations, [], [], InitOf(sys, id).value, (id: NodeId) => 0, 0)
    {
      var k := FindState(sys.states, id);
      assert TypedAt(sys.operations, sys.states[k].initial.value);
    }
  }

  lemma ConstantRunsExtend(sys: Sys, sys': Sys, back: seq<NodeId>)
    requires WellTyped(sys) && WellTyped(sys') && Refines(sys, sys', back) && InitsConstant(sys)
    ensures AllRunsExtend(sys, sys', back)
  {
    hide WellTyped, Refines, AllRunsExtend, InitsConstant, InitsRanked;
    ConstantInitsRanked(sys);
    InitsRankedFewer(sys, sys'.operations, back, (id: NodeId) => 0);
    RankedRunsExtend(sys, sys', back, (id: NodeId) => 0);
  }
}
