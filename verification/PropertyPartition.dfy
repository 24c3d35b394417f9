/** Splitting a module into its safety and its liveness obligations. */
module PropertyPartition {
  import opened TransitionSystem
  import opened Semantics
  import opened Refinement
  import opened Extension
  import opened DeadCodeElimination

  datatype Partition = Safety | Liveness

  predicate Selected(kind: PropertyKind, partition: Partition) {
    if kind.Constraint? then true
    else if partition.Safety? then kind.Bad? || kind.Cover?
    else kind.Fair? || kind.Justice?
  }

  /** The kinds of each partition: constraints belong to both. */
  ghost predicate Wanted(kind: PropertyKind, partition: Partition) {
    match partition
    case Safety => kind == Constraint || kind == Bad || kind == Cover
    case Liveness => kind == Constraint || kind == Fair || kind == Justice
  }

  predicate Increasing(positions: seq<nat>, n: nat) {
    (forall k :: 0 <= k < |positions| ==> positions[k] < n) && forall i, j :: 0 <= i < j < |positions| ==> positions[i] < positions[j]
  }

  /** `q` is `p` with the numbers that `back` maps to those of `p`; zero stands for no condition. */
  predicate Renumbers(p: Property, back: seq<NodeId>, q: Property) {
    && q.kind == p.kind && q.name == p.name && |q.conditions| == |p.conditions|
    && (if p.condition == 0 then q.condition == 0 else 0 < q.condition < |back| && back[q.condition] == p.condition)
    && forall j :: 0 <= j < |p.conditions| ==> 0 < q.conditions[j] < |back| && back[q.conditions[j]] == p.conditions[j]
  }

  /** The properties at the positions, in order and renumbered. */
  predicate SelectedAs(from: seq<Property>, positions: seq<nat>, back: seq<NodeId>, to: seq<Property>) {
    && |to| == |positions|
    && forall k :: 0 <= k < |positions| ==> positions[k] < |from| && Renumbers(from[positions[k]], back, to[k])
  }

  lemma {:induction false} FilterPositions(properties: seq<Property>, partition: Partition, n: nat) returns (positions: seq<nat>)
    requires n <= |properties|
    ensures Increasing(positions, n)
    ensures forall j: nat :: j in positions <==> j < n && Wanted(properties[j].kind, partition)
    ensures var list := Filter(properties, partition, n);
            |list| == |positions| && forall k :: 0 <= k < |positions| ==> list[k] == properties[positions[k]]
  {
    if n == 0 {
      positions := [];
    } else {
      positions := FilterPositions(properties, partition, n - 1);
      if Selected(properties[n - 1].kind, partition) {
        positions := positions + [n - 1];
      }
    }
  }

  /** Properties of a reduced module are those of the module, renumbered. */
  lemma RetainedProperties(sys: Sys, k: nat)
    requires WellTyped(sys) && k < |sys.properties|
    ensures |Retained(sys).properties| == |sys.properties|
    ensures Renumbers(sys.properties[k], RetainedBack(sys), Retained(sys).properties[k])
  {
    var p := sys.properties[k];
    assert TypedProperty(sys.operations, p);
    assert Observed(sys, p.condition);
    if p.condition != 0 {
      RetainedNumber(sys, p.condition);
    }
    forall j | 0 <= j < |p.conditions|
      ensures var id := Retained(sys).properties[k].conditions[j];
              0 < id < |RetainedBack(sys)| && RetainedBack(sys)[id] == p.conditions[j]
    {
      assert Observed(sys, p.conditions[j]);
      RetainedNumber(sys, p.conditions[j]);
    }
  }

  method HasProperties(m: Module, partition: Partition) returns (found: bool)
    ensures partition == Safety ==>
              (found <==> exists k :: 0 <= k < |m.properties| && (m.properties[k].kind == Bad || m.properties[k].kind == Cover))
    ensures partition == Liveness ==>
              (found <==> exists k :: 0 <= k < |m.properties| && (m.properties[k].kind == Fair || m.properties[k].kind == Justice))
  {
    for k := 0 to |m.properties|
      invariant forall j :: 0 <= j < k ==> m.properties[j].kind.Constraint? || !Selected(m.properties[j].kind, partition)
    {
      if !m.properties[k].kind.Constraint? && Selected(m.properties[k].kind, partition) {
        return true;
      }
    }
    return false;
  }

  /** The selected properties, in order. */
  function Filter(properties: seq<Property>, partition: Partition, n: nat): seq<Property>
    requires n <= |properties|
  {
    if n == 0 then []
    else Filter(properties, partition, n - 1) +
         if Selected(properties[n - 1].kind, partition) then [properties[n - 1]] else []
  }

  function Filtered(sys: Sys, partition: Partition): Sys {
    sys.(properties := Filter(sys.properties, partition, |sys.properties|))
  }

  method SelectProperties(m: Module, partition: Partition) returns (result: Module)
    requires WellTyped(m.View())
    ensures fresh(result) && m.View() == old(m.View())
    ensures exists positions: seq<nat>, back: seq<NodeId> ::
              && Increasing(positions, |m.properties|) && Renaming(m.operations, result.operations, back)
              && (forall j: nat :: j in positions <==> j < |m.properties| && Wanted(m.properties[j].kind, partition))
              && SelectedAs(m.properties, positions, back, result.properties)
    ensures WellTyped(Filtered(m.View(), partition)) && result.View() == Retained(Filtered(m.View(), partition))
  {
    hide WellTyped, Retained, Renaming, SelectedAs, Increasing, Wanted;
    result := new Module.Copy(m.View());
    var kept: seq<Property> := [];
    for k := 0 to |result.properties|
      invariant result.View() == m.View() == old(m.View())
      invariant kept == Filter(m.properties, partition, k)
    {
      if Selected(result.properties[k].kind, partition) {
        kept := kept + [result.properties[k]];
      }
    }
    result.properties := kept;
    FilteredTyped(m.View(), partition);
    var changed := EliminateDeadCode(result);
    SelectedText(m.View(), partition);
  }

  /** What is selected, on the text of the module. */
  lemma SelectedText(sys: Sys, partition: Partition)
    requires WellTyped(sys) && WellTyped(Filtered(sys, partition))
    ensures exists positions: seq<nat>, back: seq<NodeId> ::
              && Increasing(positions, |sys.properties|) && Renaming(sys.operations, Retained(Filtered(sys, partition)).operations, back)
              && (forall j: nat :: j in positions <==> j < |sys.properties| && Wanted(sys.properties[j].kind, partition))
              && SelectedAs(sys.properties, positions, back, Retained(Filtered(sys, partition)).properties)
  {
    hide Retained, Renumbers, Filter, WellTyped, AgreeAt;
    var filtered := Filtered(sys, partition);
    var positions := FilterPositions(sys.properties, partition, |sys.properties|);
    RetainedRefines(filtered);
    var back := RetainedBack(filtered);
    RetainedSizes(filtered);
    forall k | 0 <= k < |positions|
      ensures Renumbers(sys.properties[positions[k]], back, Retained(filtered).properties[k])
    {
      RetainedProperties(filtered, k);
    }
    assert SelectedAs(sys.properties, positions, back, Retained(filtered).properties);
  }

  lemma RetainedSizes(sys: Sys)
    ensures |Retained(sys).properties| == |sys.properties|
  {
  }

  lemma {:induction false} FilterOrigin(properties: seq<Property>, partition: Partition, n: nat, k: nat) returns (j: nat)
    requires n <= |properties| && k < |Filter(properties, partition, n)|
    ensures j < n && Filter(properties, partition, n)[k] == properties[j] && Selected(properties[j].kind, partition)
  {
    if k < |Filter(properties, partition, n - 1)| {
      j := FilterOrigin(properties, partition, n - 1, k);
    } else {
      j := n - 1;
    }
  }

  /** Position of a selected property after filtering. */
  function Position(properties: seq<Property>, partition: Partition, j: nat): nat
    requires j <= |properties|
  {
    |Filter(properties, partition, j)|
  }

  lemma {:induction false} FilterImage(properties: seq<Property>, partition: Partition, n: nat, j: nat)
    requires j < n <= |properties| && Selected(properties[j].kind, partition)
    ensures Position(properties, partition, j) < |Filter(properties, partition, n)|
    ensures Filter(properties, partition, n)[Position(properties, partition, j)] == properties[j]
  {
    if j < n - 1 {
      FilterImage(properties, partition, n - 1, j);
    }
  }

  lemma FilteredTyped(sys: Sys, partition: Partition)
    requires WellTyped(sys)
    ensures WellTyped(Filtered(sys, partition))
  {
    var filtered := Filtered(sys, partition);
    forall k | 0 <= k < |filtered.properties|
      ensures TypedProperty(sys.operations, filtered.properties[k])
    {
      var j := FilterOrigin(sys.properties, partition, |sys.properties|, k);
      assert TypedProperty(sys.operations, sys.properties[j]);
    }
  }

  lemma FilteredRuns(sys: Sys, partition: Partition, run: Run)
    requires WellTyped(sys) && WellTyped(Filtered(sys, partition))
    ensures IsRun(sys, run) <==> IsRun(Filtered(sys, partition), run)
  {
    var filtered := Filtered(sys, partition);
    if IsRun(sys, run) {
      SameRuns(sys, filtered, run);
    }
    if IsRun(filtered, run) {
      SameRuns(filtered, sys, run);
    }
  }

  lemma SameRuns(a: Sys, b: Sys, run: Run)
    requires WellTyped(a) && WellTyped(b) && a.operations == b.operations && a.states == b.states
    requires IsRun(a, run)
    ensures IsRun(b, run)
  {
    forall id: NodeId | IsStateVar(b.operations, id)
      ensures Starts(b, run(0), id)
    {
      assert Starts(a, run(0), id);
    }
    forall t: nat, id: NodeId | IsStateVar(b.operations, id)
      ensures Steps(b, run(t), run(t + 1), id)
    {
      assert Steps(a, run(t), run(t + 1), id);
    }
  }

  /** Each property but a constraint belongs to exactly one partition; constraints belong to both. */
  lemma PartitionsCover(kind: PropertyKind)
    ensures Selected(kind, Safety) <==> kind == Constraint || kind == Bad || kind == Cover
    ensures Selected(kind, Liveness) <==> kind == Constraint || kind == Fair || kind == Justice
    ensures Selected(kind, Safety) || Selected(kind, Liveness)
    ensures Selected(kind, Safety) && Selected(kind, Liveness) <==> kind.Constraint?
  {
  }

  /** The selected part of a module, as `SelectProperties` returns it. */
  ghost function Part(sys: Sys, partition: Partition): Sys {
    Retained(Filtered(sys, partition))
  }

  ghost predicate SelectedAgree(sys: Sys, partition: Partition, env: Env, env': Env)
    requires WellTyped(sys) && WellTyped(Part(sys, partition))
  {
    var part := Part(sys, partition);
    forall j :: 0 <= j < |sys.properties| && Selected(sys.properties[j].kind, partition) ==>
      var k := Position(sys.properties, partition, j);
      k < |part.properties| && SameProperty(sys, sys.properties[j], env, part, part.properties[k], env')
  }

  lemma SelectedAgreeAt(sys: Sys, partition: Partition, env: Env, env': Env)
    requires WellTyped(sys) && WellTyped(Filtered(sys, partition)) && WellTyped(Part(sys, partition))
    requires SameObservation(Filtered(sys, partition), env, Part(sys, partition), env')
    ensures SelectedAgree(sys, partition, env, env')
  {
    var filtered, part := Filtered(sys, partition), Part(sys, partition);
    forall j | 0 <= j < |sys.properties| && Selected(sys.properties[j].kind, partition)
      ensures var k := Position(sys.properties, partition, j);
              k < |part.properties| && SameProperty(sys, sys.properties[j], env, part, part.properties[k], env')
    {
      FilterImage(sys.properties, partition, |sys.properties|, j);
      var k := Position(sys.properties, partition, j);
      assert SameProperty(filtered, filtered.properties[k], env, part, part.properties[k], env');
    }
  }

  ghost function PartBack(sys: Sys, partition: Partition): seq<NodeId> {
    RetainedBack(Filtered(sys, partition))
  }

  lemma SameExtends(a: Sys, b: Sys, run: Run, sys': Sys, back: seq<NodeId>, run': Run)
    requires WellTyped(a) && WellTyped(b) && WellTyped(sys') && a.operations == b.operations && a.states == b.states
    requires Renaming(a.operations, sys'.operations, back) && Extends(a, run, sys', back, run')
    ensures Extends(b, run, sys', back, run')
  {
    hide IsRun, WellTyped;
    SameRuns(a, b, run);
    forall t: nat
      ensures SameLeaves(b, run(t), sys', back, run'(t))
    {
      assert SameLeaves(a, run(t), sys', back, run'(t));
    }
  }

  lemma SameAllExtend(a: Sys, b: Sys, sys': Sys, back: seq<NodeId>)
    requires WellTyped(a) && WellTyped(b) && WellTyped(sys') && a.operations == b.operations && a.states == b.states
    requires Renaming(a.operations, sys'.operations, back) && AllRunsExtend(a, sys', back)
    ensures AllRunsExtend(b, sys', back)
  {
    hide IsRun, WellTyped, Extends, Renaming;
    forall run': Run | IsRun(sys', run')
      ensures exists run: Run :: Extends(b, run, sys', back, run')
    {
      var run: Run :| Extends(a, run, sys', back, run');
      SameExtends(a, b, run, sys', back, run');
    }
  }

  lemma SameDropped(a: Sys, b: Sys, ops': seq<Operation>, back: seq<NodeId>, env': Env, rest: Env)
    requires WellTyped(a) && WellTyped(b) && a.operations == b.operations && a.states == b.states
    requires StartsDropped(a, ops', back, env', rest)
    ensures StartsDropped(b, ops', back, env', rest)
  {
    hide WellTyped, Fill, Kept;
    forall id: NodeId | IsStateVar(b.operations, id) && !Kept(ops', back, id)
      ensures Starts(b, Fill(ops', back, env', rest), id)
    {
      assert Starts(a, Fill(ops', back, env', rest), id);
    }
  }

  lemma SameCompletable(a: Sys, b: Sys, sys': Sys, back: seq<NodeId>)
    requires WellTyped(a) && WellTyped(b) && WellTyped(sys') && a.operations == b.operations && a.states == b.states
    requires StartsCompletable(a, sys', back)
    ensures StartsCompletable(b, sys', back)
  {
    hide WellTyped, StartsDropped, StartsAll;
    forall env': Env | StartsAll(sys', env')
      ensures exists rest: Env :: StartsDropped(b, sys'.operations, back, env', rest)
    {
      var rest: Env :| StartsDropped(a, sys'.operations, back, env', rest);
      SameDropped(a, b, sys'.operations, back, env', rest);
    }
  }

  /**
   * A part has the runs of the whole, and its properties have the values they have in the whole; it has no other runs
   * exactly when each of its starts can be completed to one of the whole.
   */
  lemma PartTraces(sys: Sys, partition: Partition)
    requires WellTyped(sys)
    ensures WellTyped(Part(sys, partition)) && Renaming(sys.operations, Part(sys, partition).operations, PartBack(sys, partition))
    ensures forall run: Run :: IsRun(sys, run) ==>
              exists run': Run :: IsRun(Part(sys, partition), run') &&
                                  forall t: nat :: SelectedAgree(sys, partition, run(t), run'(t))
    ensures AllRunsExtend(sys, Part(sys, partition), PartBack(sys, partition)) <==>
            StartsCompletable(sys, Part(sys, partition), PartBack(sys, partition))
    ensures forall run: Run, run': Run, t: nat :: Extends(sys, run, Part(sys, partition), PartBack(sys, partition), run') ==>
              SelectedAgree(sys, partition, run(t), run'(t))
  {
    hide WellTyped, AgreeAt, Extends, IsRun, AllRunsExtend, StartsCompletable, SelectedAgree, SameObservation, Retained;
    var filtered, part, back := Filtered(sys, partition), Part(sys, partition), PartBack(sys, partition);
    FilteredTyped(sys, partition);
    RetainedRefines(filtered);
    forall run: Run | IsRun(sys, run)
      ensures exists run': Run :: IsRun(part, run') && forall t: nat :: SelectedAgree(sys, partition, run(t), run'(t))
    {
      var run' := Project(back, run);
      FilteredRuns(sys, partition, run);
      RunsProject(filtered, part, back, run);
      forall t: nat
        ensures SelectedAgree(sys, partition, run(t), run'(t))
      {
        SelectedAgreeAt(sys, partition, run(t), run'(t));
      }
    }
    PartExtends(sys, filtered, part, back);
    forall run: Run, run': Run, t: nat | Extends(sys, run, part, back, run')
      ensures SelectedAgree(sys, partition, run(t), run'(t))
    {
      SameExtends(sys, filtered, run, part, back, run');
      ExtensionObserves(filtered, run, part, back, run', t);
      SelectedAgreeAt(sys, partition, run(t), run'(t));
    }
  }

  lemma PartExtends(sys: Sys, filtered: Sys, part: Sys, back: seq<NodeId>)
    requires WellTyped(sys) && WellTyped(filtered) && WellTyped(part) && Refines(filtered, part, back)
    requires sys.operations == filtered.operations && sys.states == filtered.states
    ensures AllRunsExtend(sys, part, back) <==> StartsCompletable(sys, part, back)
  {
    hide WellTyped, AgreeAt, AllRunsExtend, StartsCompletable;
    RunsExtend(filtered, part, back);
    if AllRunsExtend(sys, part, back) {
      SameAllExtend(sys, filtered, part, back);
      SameCompletable(filtered, sys, part, back);
    }
    if StartsCompletable(sys, part, back) {
      SameCompletable(sys, filtered, part, back);
      SameAllExtend(filtered, sys, part, back);
    }
  }
}
