/** Runs of a transition system, and when one system behaves as another. */
module Refinement {
  import opened TransitionSystem
  import opened Semantics

  // ----- runs -----

  function InitOf(sys: Sys, id: NodeId): Option<NodeId> {
    var k := FindState(sys.states, id);
    if k < |sys.states| then sys.states[k].initial else None
  }

  function NextOf(sys: Sys, id: NodeId): Option<NodeId> {
    var k := FindState(sys.states, id);
    if k < |sys.states| then sys.states[k].next else None
  }

  lemma RecordTyped(sys: Sys, id: NodeId)
    requires WellTyped(sys) && IsStateVar(sys.operations, id)
    ensures OptionalOfWidth(sys.operations, InitOf(sys, id), sys.operations[id - 1].width)
    ensures OptionalOfWidth(sys.operations, NextOf(sys, id), sys.operations[id - 1].width)
  {
    var k := FindState(sys.states, id);
    assert k < |sys.states| ==> TypedState(sys.operations, sys.states[k]);
  }

  /** `id` reads the value that the optional definition `def` has in `env`, if there is one. */
  ghost predicate Defines(sys: Sys, def: Option<NodeId>, env: Env, id: NodeId, env': Env)
    requires WellTyped(sys) && InRange(sys.operations, id)
    requires def.Some? ==> InRange(sys.operations, def.value)
  {
    def.Some? ==> Eval(sys.operations, id, env') == Eval(sys.operations, def.value, env)
  }

  ghost predicate Starts(sys: Sys, env: Env, id: NodeId)
    requires WellTyped(sys) && IsStateVar(sys.operations, id)
  {
    RecordTyped(sys, id);
    Defines(sys, InitOf(sys, id), env, id, env)
  }

  ghost predicate Steps(sys: Sys, env: Env, env': Env, id: NodeId)
    requires WellTyped(sys) && IsStateVar(sys.operations, id)
  {
    RecordTyped(sys, id);
    Defines(sys, NextOf(sys, id), env, id, env')
  }

  type Run = nat -> Env

  /** States without an init or next relation are unconstrained, as inputs are. */
  ghost predicate IsRun(sys: Sys, run: Run)
    requires WellTyped(sys)
  {
    && (forall id: NodeId :: IsStateVar(sys.operations, id) ==> Starts(sys, run(0), id))
    && (forall t: nat, id: NodeId :: IsStateVar(sys.operations, id) ==> Steps(sys, run(t), run(t + 1), id))
  }

  // ----- observation -----

  ghost predicate SameValue(sys: Sys, id: NodeId, env: Env, sys': Sys, id': NodeId, env': Env)
    requires WellTyped(sys) && WellTyped(sys')
  {
    if InRange(sys.operations, id) then
      InRange(sys'.operations, id') && Eval(sys.operations, id, env) == Eval(sys'.operations, id', env')
    else
      id == id' == 0
  }

  ghost predicate SameProperty(sys: Sys, p: Property, env: Env, sys': Sys, p': Property, env': Env)
    requires WellTyped(sys) && WellTyped(sys')
  {
    && p.kind == p'.kind && p.name == p'.name
    && SameValue(sys, p.condition, env, sys', p'.condition, env')
    && |p.conditions| == |p'.conditions|
    && forall j :: 0 <= j < |p.conditions| ==> SameValue(sys, p.conditions[j], env, sys', p'.conditions[j], env')
  }

  /** Every output and every property condition has the same value. */
  ghost predicate SameObservation(sys: Sys, env: Env, sys': Sys, env': Env)
    requires WellTyped(sys) && WellTyped(sys')
  {
    && |sys.outputs| == |sys'.outputs|
    && (forall k :: 0 <= k < |sys.outputs| ==>
          && sys.outputs[k].name == sys'.outputs[k].name
          && SameValue(sys, sys.outputs[k].value, env, sys', sys'.outputs[k].value, env'))
    && |sys.properties| == |sys'.properties|
    && (forall k :: 0 <= k < |sys.properties| ==>
          SameProperty(sys, sys.properties[k], env, sys', sys'.properties[k], env'))
  }

  // ----- refinement -----

  /** `back` names, for every operation of `ops'`, an operation of `ops`; inputs and states keep their identity. */
  ghost predicate Renaming(ops: seq<Operation>, ops': seq<Operation>, back: seq<NodeId>) {
    && |back| == |ops'| + 1
    && (forall i: NodeId :: InRange(ops', i) ==> InRange(ops, back[i]))
    && (forall i: NodeId :: InRange(ops', i) && IsLeaf(ops'[i - 1].opcode) ==> SameLeaf(ops[back[i] - 1], ops'[i - 1]))
    && (forall i, j :: 1 <= i < j <= |ops'| && IsLeaf(ops'[i - 1].opcode) && IsLeaf(ops'[j - 1].opcode) ==>
          back[i] != back[j])
  }

  predicate SameLeaf(o: Operation, o': Operation) {
    o.opcode == o'.opcode && o.width == o'.width && o.symbol == o'.symbol
  }

  /** The step of the renamed system that shows the same inputs and states. */
  function Pull(back: seq<NodeId>, env: Env): Env {
    (id: NodeId) => if id < |back| then env(back[id]) else 0
  }

  ghost predicate SameOptional(sys: Sys, id: Option<NodeId>, env: Env, sys': Sys, id': Option<NodeId>, env': Env)
    requires WellTyped(sys) && WellTyped(sys')
  {
    match id
    case None => id'.None?
    case Some(v) => v > 0 && id'.Some? && SameValue(sys, v, env, sys', id'.value, env')
  }

  ghost predicate AgreeAt(sys: Sys, sys': Sys, back: seq<NodeId>, env: Env)
    requires WellTyped(sys) && WellTyped(sys') && Renaming(sys.operations, sys'.operations, back)
  {
    var env' := Pull(back, env);
    && SameObservation(sys, env, sys', env')
    && forall i: NodeId :: IsStateVar(sys'.operations, i) ==>
         && SameOptional(sys, InitOf(sys, back[i]), env, sys', InitOf(sys', i), env')
         && SameOptional(sys, NextOf(sys, back[i]), env, sys', NextOf(sys', i), env')
  }

  /** Every observation of `sys`, and the init and next relation of every state kept by `sys'`, is unchanged. */
  ghost predicate Refines(sys: Sys, sys': Sys, back: seq<NodeId>)
    requires WellTyped(sys) && WellTyped(sys')
  {
    Renaming(sys.operations, sys'.operations, back) && forall env: Env :: AgreeAt(sys, sys', back, env)
  }

  lemma {:induction false} EvalAgrees(ops: seq<Operation>, id: NodeId, env: Env, env': Env)
    requires TypedOperations(ops) && InRange(ops, id)
    requires forall i :: 1 <= i <= id && IsLeaf(ops[i - 1].opcode) ==> env(i) == env'(i)
    ensures Eval(ops, id, env) == Eval(ops, id, env')
  {
    if !IsLeaf(ops[id - 1].opcode) {
      assert TypedAt(ops, id);
      var operands := ops[id - 1].operands;
      forall k | 0 <= k < |operands|
        ensures Eval(ops, operands[k], env) == Eval(ops, operands[k], env')
      {
        EvalAgrees(ops, operands[k], env, env');
      }
      assert OperandValues(ops, id, env) == OperandValues(ops, id, env');
    }
  }

  function Identity(n: nat): (back: seq<NodeId>)
    ensures |back| == n + 1 && forall i :: 0 <= i <= n ==> back[i] == i
  {
    seq(n + 1, i => i)
  }

  lemma RefinesSelf(sys: Sys)
    requires WellTyped(sys)
    ensures Refines(sys, sys, Identity(|sys.operations|))
  {
    hide SameObservation, SameOptional, Eval, TypedState, TypedProperty, DistinctStates, TypedOperations;
    var back := Identity(|sys.operations|);
    forall env: Env
      ensures AgreeAt(sys, sys, back, env)
    {
      var env' := Pull(back, env);
      forall id: NodeId | InRange(sys.operations, id)
        ensures Eval(sys.operations, id, env) == Eval(sys.operations, id, env')
      {
        EvalAgrees(sys.operations, id, env, env');
      }
      ObserveSelf(sys, env, env');
    }
  }

  lemma ObserveSelf(sys: Sys, env: Env, env': Env)
    requires WellTyped(sys)
    requires forall id: NodeId :: InRange(sys.operations, id) ==> Eval(sys.operations, id, env) == Eval(sys.operations, id, env')
    ensures SameObservation(sys, env, sys, env')
    ensures forall i: NodeId :: IsStateVar(sys.operations, i) ==>
              && SameOptional(sys, InitOf(sys, i), env, sys, InitOf(sys, i), env')
              && SameOptional(sys, NextOf(sys, i), env, sys, NextOf(sys, i), env')
  {
    forall k | 0 <= k < |sys.properties|
      ensures SameProperty(sys, sys.properties[k], env, sys, sys.properties[k], env')
    {
      assert TypedProperty(sys.operations, sys.properties[k]);
    }
    forall i: NodeId | IsStateVar(sys.operations, i)
      ensures SameOptional(sys, InitOf(sys, i), env, sys, InitOf(sys, i), env')
      ensures SameOptional(sys, NextOf(sys, i), env, sys, NextOf(sys, i), env')
    {
      RecordTyped(sys, i);
    }
  }

  function Compose(f: seq<NodeId>, g: seq<NodeId>): seq<NodeId> {
    seq(|g|, i requires 0 <= i < |g| => if g[i] < |f| then f[g[i]] else 0)
  }

  lemma ComposeIdentity(n: nat)
    ensures Compose(Identity(n), Identity(n)) == Identity(n)
  {
  }

  lemma ObserveTransitive(a: Sys, ea: Env, b: Sys, eb: Env, c: Sys, ec: Env, ec': Env)
    requires WellTyped(a) && WellTyped(b) && WellTyped(c)
    requires SameObservation(a, ea, b, eb) && SameObservation(b, eb, c, ec)
    requires forall id: NodeId :: InRange(c.operations, id) ==> Eval(c.operations, id, ec) == Eval(c.operations, id, ec')
    ensures SameObservation(a, ea, c, ec')
  {
    forall k | 0 <= k < |a.outputs|
      ensures SameValue(a, a.outputs[k].value, ea, c, c.outputs[k].value, ec')
    {
      assert SameValue(a, a.outputs[k].value, ea, b, b.outputs[k].value, eb);
    }
    forall k | 0 <= k < |a.properties|
      ensures SameProperty(a, a.properties[k], ea, c, c.properties[k], ec')
    {
      var p, q, r := a.properties[k], b.properties[k], c.properties[k];
      assert SameProperty(a, p, ea, b, q, eb);
      assert SameProperty(b, q, eb, c, r, ec);
      forall j | 0 <= j < |p.conditions|
        ensures SameValue(a, p.conditions[j], ea, c, r.conditions[j], ec')
      {
        assert SameValue(a, p.conditions[j], ea, b, q.conditions[j], eb);
      }
    }
  }

  lemma OptionalTransitive(a: Sys, ia: Option<NodeId>, ea: Env, b: Sys, ib: Option<NodeId>, eb: Env,
                           c: Sys, ic: Option<NodeId>, ec: Env, ec': Env)
    requires WellTyped(a) && WellTyped(b) && WellTyped(c)
    requires SameOptional(a, ia, ea, b, ib, eb) && SameOptional(b, ib, eb, c, ic, ec)
    requires ia.Some? ==> InRange(a.operations, ia.value)
    requires forall id: NodeId :: InRange(c.operations, id) ==> Eval(c.operations, id, ec) == Eval(c.operations, id, ec')
    ensures SameOptional(a, ia, ea, c, ic, ec')
  {
  }

  lemma RenamingTransitive(a: seq<Operation>, b: seq<Operation>, c: seq<Operation>, f: seq<NodeId>, g: seq<NodeId>)
    requires Renaming(a, b, f) && Renaming(b, c, g)
    ensures Renaming(a, c, Compose(f, g))
    ensures forall i: NodeId :: InRange(c, i) ==> Compose(f, g)[i] == f[g[i]]
  {
  }

  lemma RefinesTransitive(a: Sys, b: Sys, c: Sys, f: seq<NodeId>, g: seq<NodeId>)
    requires WellTyped(a) && WellTyped(b) && WellTyped(c)
    requires Refines(a, b, f) && Refines(b, c, g)
    ensures Refines(a, c, Compose(f, g))
  {
    RenamingTransitive(a.operations, b.operations, c.operations, f, g);
    forall env: Env
      ensures AgreeAt(a, c, Compose(f, g), env)
    {
      AgreeTransitive(a, b, c, f, g, env);
    }
  }

  lemma AgreeTransitive(a: Sys, b: Sys, c: Sys, f: seq<NodeId>, g: seq<NodeId>, env: Env)
    requires WellTyped(a) && WellTyped(b) && WellTyped(c)
    requires Renaming(a.operations, b.operations, f) && Renaming(b.operations, c.operations, g)
    requires Renaming(a.operations, c.operations, Compose(f, g))
    requires AgreeAt(a, b, f, env) && AgreeAt(b, c, g, Pull(f, env))
    ensures AgreeAt(a, c, Compose(f, g), env)
  {
    hide TypedOperations, TypedState, TypedProperty, DistinctStates, SameObservation, SameOptional;
    var back := Compose(f, g);
    var mid := Pull(f, env);
    var far, env' := Pull(g, mid), Pull(back, env);
    forall id: NodeId | InRange(c.operations, id)
      ensures Eval(c.operations, id, far) == Eval(c.operations, id, env')
    {
      EvalAgrees(c.operations, id, far, env');
    }
    ObserveTransitive(a, env, b, mid, c, far, env');
    forall i: NodeId | IsStateVar(c.operations, i)
      ensures SameOptional(a, InitOf(a, back[i]), env, c, InitOf(c, i), env')
      ensures SameOptional(a, NextOf(a, back[i]), env, c, NextOf(c, i), env')
    {
      assert IsStateVar(b.operations, g[i]);
      RecordTyped(a, back[i]);
      OptionalTransitive(a, InitOf(a, back[i]), env, b, InitOf(b, g[i]), mid, c, InitOf(c, i), far, env');
      OptionalTransitive(a, NextOf(a, back[i]), env, b, NextOf(b, g[i]), mid, c, NextOf(c, i), far, env');
    }
  }

  // ----- trace equivalence -----

  function Project(back: seq<NodeId>, run: Run): Run {
    (t: nat) => Pull(back, run(t))
  }

  /** Every run of a system is, seen through the renaming, a run of the refined system with the same observations. */
  lemma RunsProject(sys: Sys, sys': Sys, back: seq<NodeId>, run: Run)
    requires WellTyped(sys) && WellTyped(sys') && Refines(sys, sys', back) && IsRun(sys, run)
    ensures IsRun(sys', Project(back, run))
    ensures forall t: nat :: SameObservation(sys, run(t), sys', Project(back, run)(t))
  {
    hide TypedOperations, TypedState, TypedProperty, DistinctStates, SameObservation;
    var run' := Project(back, run);
    forall id: NodeId | IsStateVar(sys'.operations, id)
      ensures Starts(sys', run'(0), id)
    {
      assert AgreeAt(sys, sys', back, run(0));
      assert Starts(sys, run(0), back[id]);
      RecordTyped(sys, back[id]);
      RecordTyped(sys', id);
    }
    forall t: nat, id: NodeId | IsStateVar(sys'.operations, id)
      ensures Steps(sys', run'(t), run'(t + 1), id)
    {
      assert AgreeAt(sys, sys', back, run(t));
      assert Steps(sys, run(t), run(t + 1), back[id]);
      RecordTyped(sys, back[id]);
      RecordTyped(sys', id);
    }
    forall t: nat
      ensures SameObservation(sys, run(t), sys', run'(t))
    {
      assert AgreeAt(sys, sys', back, run(t));
    }
  }
}
