/** Removing what no output and no property depends on. */
module DeadCodeElimination {
  import opened Bits
  import opened TransitionSystem
  import opened Semantics
  import opened Refinement
  import opened Extension
  import opened PassSupport
  import opened Roots
  import opened Rebuilding

  // ----- what is live -----

  /** Operation `a` needs operation `b`: as an operand, or as the init or next value of a state. */
  predicate Needs(sys: Sys, a: NodeId, b: NodeId) {
    && InRange(sys.operations, a)
    && (b in sys.operations[a - 1].operands ||
        (sys.operations[a - 1].opcode.StateVar? && (InitOf(sys, a) == Some(b) || NextOf(sys, a) == Some(b))))
  }

  ghost predicate Closed(sys: Sys, s: set<NodeId>) {
    forall a: NodeId, b: NodeId :: a in s && Needs(sys, a, b) ==> b in s
  }

  predicate Observed(sys: Sys, id: NodeId) {
    || (exists k :: 0 <= k < |sys.outputs| && sys.outputs[k].value == id)
    || (exists k :: 0 <= k < |sys.properties| && (sys.properties[k].condition == id || id in sys.properties[k].conditions))
  }

  ghost predicate Suffices(sys: Sys, s: set<NodeId>) {
    Closed(sys, s) && forall id: NodeId :: id > 0 && Observed(sys, id) ==> id in s
  }

  /** In every set that is closed and contains what is observed. */
  ghost predicate Live(sys: Sys, id: NodeId) {
    id > 0 && forall s: set<NodeId> :: Suffices(sys, s) ==> id in s
  }

  ghost function LiveOperations(sys: Sys): (live: seq<bool>)
    ensures |live| == |sys.operations| + 1
  {
    seq(|sys.operations| + 1, id requires id >= 0 => Live(sys, id))
  }

  ghost function Retained(sys: Sys): Sys {
    Rebuilt(sys, LiveOperations(sys), Identity(|sys.operations|))
  }

  // ----- marking -----

  /** Marks only grow, and everything that a new mark needs is marked. */
  ghost predicate Grown(sys: Sys, before: seq<bool>, after: seq<bool>) {
    && |before| == |after|
    && (forall x :: 0 <= x < |before| && before[x] ==> after[x])
    && (forall x: NodeId, y: NodeId :: x < |before| && after[x] && !before[x] && Needs(sys, x, y) ==> y < |after| && after[y])
  }

  /** Every new mark lies in every closed set that contains the starting points. */
  ghost predicate Within(sys: Sys, before: seq<bool>, after: seq<bool>, starts: seq<NodeId>) {
    |before| == |after| &&
    forall s: set<NodeId> :: Closed(sys, s) && (forall k :: 0 <= k < |starts| ==> starts[k] == 0 || starts[k] in s) ==>
      forall x: NodeId :: x < |after| && after[x] && !before[x] ==> x in s
  }

  function Unmarked(live: seq<bool>): nat {
    if live == [] then 0 else Unmarked(live[..|live| - 1]) + if live[|live| - 1] then 0 else 1
  }

  lemma {:induction false} UnmarkedShrinks(before: seq<bool>, after: seq<bool>)
    requires |before| == |after| && forall x :: 0 <= x < |before| && before[x] ==> after[x]
    ensures Unmarked(after) <= Unmarked(before)
    ensures (exists x :: 0 <= x < |before| && after[x] && !before[x]) ==> Unmarked(after) < Unmarked(before)
  {
    if before != [] {
      UnmarkedShrinks(before[..|before| - 1], after[..|after| - 1]);
    }
  }

  lemma GrownTransitive(sys: Sys, a: seq<bool>, b: seq<bool>, c: seq<bool>)
    requires Grown(sys, a, b) && Grown(sys, b, c)
    ensures Grown(sys, a, c)
  {
  }

  lemma WithinTransitive(sys: Sys, a: seq<bool>, b: seq<bool>, c: seq<bool>, starts: seq<NodeId>, more: seq<NodeId>)
    requires Within(sys, a, b, starts) && Within(sys, b, c, more)
    ensures Within(sys, a, c, starts + more)
  {
    forall s: set<NodeId> | Closed(sys, s) && (forall k :: 0 <= k < |starts + more| ==> (starts + more)[k] == 0 || (starts + more)[k] in s)
      ensures forall x: NodeId :: x < |c| && c[x] && !a[x] ==> x in s
    {
      forall k | 0 <= k < |starts|
        ensures starts[k] == 0 || starts[k] in s
      {
        assert (starts + more)[k] == starts[k];
      }
      forall k | 0 <= k < |more|
        ensures more[k] == 0 || more[k] in s
      {
        assert (starts + more)[|starts| + k] == more[k];
      }
    }
  }

  /** What the marked operation `id` needs, in the order in which it is visited. */
  function Needed(sys: Sys, id: NodeId): seq<NodeId>
    requires InRange(sys.operations, id)
  {
    var o := sys.operations[id - 1];
    if o.opcode.StateVar? then
      o.operands + (if InitOf(sys, id).Some? then [InitOf(sys, id).value] else [])
                 + (if NextOf(sys, id).Some? then [NextOf(sys, id).value] else [])
    else o.operands
  }

  lemma NeededExactly(sys: Sys, id: NodeId, y: NodeId)
    requires InRange(sys.operations, id)
    ensures y in Needed(sys, id) <==> Needs(sys, id, y)
  {
  }

  lemma NeededInRange(sys: Sys, id: NodeId)
    requires WellTyped(sys) && InRange(sys.operations, id)
    ensures forall k :: 0 <= k < |Needed(sys, id)| ==> Needed(sys, id)[k] <= |sys.operations|
  {
    assert TypedAt(sys.operations, id);
    if sys.operations[id - 1].opcode.StateVar? {
      RecordTyped(sys, id);
    }
  }

  /** Marking `id` and then all it needs completes its mark. */
  lemma MarkCompletes(sys: Sys, before: seq<bool>, after: seq<bool>, id: NodeId)
    requires InRange(sys.operations, id) && id < |before| && !before[id]
    requires Grown(sys, before[id := true], after) && Within(sys, before[id := true], after, Needed(sys, id))
    requires forall k :: 0 <= k < |Needed(sys, id)| ==> Needed(sys, id)[k] < |after| && (Needed(sys, id)[k] == 0 || after[Needed(sys, id)[k]])
    requires forall y: NodeId :: Needs(sys, id, y) ==> y > 0
    ensures Grown(sys, before, after) && Within(sys, before, after, [id])
  {
    forall x: NodeId, y: NodeId | x < |before| && after[x] && !before[x] && Needs(sys, x, y)
      ensures y < |after| && after[y]
    {
      if x == id {
        NeededExactly(sys, id, y);
      }
    }
    forall s: set<NodeId> | Closed(sys, s) && (forall k :: 0 <= k < |[id]| ==> [id][k] == 0 || [id][k] in s)
      ensures forall x: NodeId :: x < |after| && after[x] && !before[x] ==> x in s
    {
      assert [id][0] == id;
      forall k | 0 <= k < |Needed(sys, id)|
        ensures Needed(sys, id)[k] in s
      {
        NeededExactly(sys, id, Needed(sys, id)[k]);
      }
    }
  }

  lemma NeedsPositive(sys: Sys, id: NodeId, y: NodeId)
    requires WellTyped(sys) && Needs(sys, id, y)
    ensures y > 0
  {
    assert TypedAt(sys.operations, id);
    if sys.operations[id - 1].opcode.StateVar? {
      RecordTyped(sys, id);
    }
  }

  method Mark(sys: Sys, live: array<bool>, id: NodeId)
    requires WellTyped(sys) && live.Length == |sys.operations| + 1 && id < live.Length
    modifies live
    ensures id > 0 ==> live[id]
    ensures Grown(sys, old(live[..]), live[..]) && Within(sys, old(live[..]), live[..], [id])
    decreases Unmarked(live[..]), 0
  {
    if id == 0 || live[id] {
      return;
    }
    ghost var before := live[..];
    live[id] := true;
    assert live[..] == before[id := true];
    UnmarkedShrinks(before, live[..]);
    assert live[..][id] && !before[id];
    NeededInRange(sys, id);
    MarkEach(sys, live, Needed(sys, id));
    forall y: NodeId | Needs(sys, id, y)
      ensures y > 0
    {
      NeedsPositive(sys, id, y);
    }
    MarkCompletes(sys, before, live[..], id);
  }

  method MarkEach(sys: Sys, live: array<bool>, list: seq<NodeId>)
    requires WellTyped(sys) && live.Length == |sys.operations| + 1
    requires forall k :: 0 <= k < |list| ==> list[k] < live.Length
    modifies live
    ensures forall k :: 0 <= k < |list| ==> list[k] == 0 || live[list[k]]
    ensures Grown(sys, old(live[..]), live[..]) && Within(sys, old(live[..]), live[..], list)
    decreases Unmarked(live[..]), 1
  {
    ghost var start := live[..];
    for k := 0 to |list|
      invariant Grown(sys, start, live[..]) && Within(sys, start, live[..], list[..k])
      invariant forall j :: 0 <= j < k ==> list[j] == 0 || live[list[j]]
    {
      ghost var before := live[..];
      UnmarkedShrinks(start, before);
      Mark(sys, live, list[k]);
      GrownTransitive(sys, start, before, live[..]);
      WithinTransitive(sys, start, before, live[..], list[..k], [list[k]]);
      assert list[..k + 1] == list[..k] + [list[k]];
      forall j | 0 <= j < k
        ensures list[j] == 0 || live[list[j]]
      {
        assert before[list[j]] ==> live[..][list[j]];
      }
    }
    assert list[..|list|] == list;
  }

  predicate Marked(live: seq<bool>, list: seq<NodeId>) {
    forall k :: 0 <= k < |list| ==> list[k] == 0 || (list[k] < |live| && live[list[k]])
  }

  method MarkOutputs(sys: Sys, live: array<bool>)
    requires WellTyped(sys) && live.Length == |sys.operations| + 1
    modifies live
    ensures Marked(live[..], OutputUses(sys.outputs, |sys.outputs|))
    ensures Grown(sys, old(live[..]), live[..])
    ensures Within(sys, old(live[..]), live[..], OutputUses(sys.outputs, |sys.outputs|))
  {
    ghost var start := live[..];
    for k := 0 to |sys.outputs|
      invariant Marked(live[..], OutputUses(sys.outputs, k))
      invariant Grown(sys, start, live[..]) && Within(sys, start, live[..], OutputUses(sys.outputs, k))
    {
      ghost var before := live[..];
      Mark(sys, live, sys.outputs[k].value);
      assert Marked(live[..], [sys.outputs[k].value]);
      MarkedStays(sys, before, live[..], OutputUses(sys.outputs, k), [sys.outputs[k].value]);
      GrownTransitive(sys, start, before, live[..]);
      WithinTransitive(sys, start, before, live[..], OutputUses(sys.outputs, k), [sys.outputs[k].value]);
    }
  }

  method MarkProperties(sys: Sys, live: array<bool>)
    requires WellTyped(sys) && live.Length == |sys.operations| + 1
    modifies live
    ensures Marked(live[..], PropertyUses(sys.properties, |sys.properties|))
    ensures Grown(sys, old(live[..]), live[..])
    ensures Within(sys, old(live[..]), live[..], PropertyUses(sys.properties, |sys.properties|))
  {
    ghost var start := live[..];
    for k := 0 to |sys.properties|
      invariant Marked(live[..], PropertyUses(sys.properties, k))
      invariant Grown(sys, start, live[..]) && Within(sys, start, live[..], PropertyUses(sys.properties, k))
    {
      ghost var before := live[..];
      var p := sys.properties[k];
      assert TypedProperty(sys.operations, p);
      var list := (if p.condition != 0 then [p.condition] else []) + p.conditions;
      MarkEach(sys, live, list);
      assert Marked(live[..], list);
      MarkedStays(sys, before, live[..], PropertyUses(sys.properties, k), list);
      GrownTransitive(sys, start, before, live[..]);
      WithinTransitive(sys, start, before, live[..], PropertyUses(sys.properties, k), list);
      assert PropertyUses(sys.properties, k + 1) == PropertyUses(sys.properties, k) + list;
    }
  }

  lemma MarkedStays(sys: Sys, before: seq<bool>, after: seq<bool>, list: seq<NodeId>, more: seq<NodeId>)
    requires Grown(sys, before, after) && Marked(before, list) && Marked(after, more)
    ensures Marked(after, list + more)
  {
  }

  function ObservedList(sys: Sys): seq<NodeId> {
    OutputUses(sys.outputs, |sys.outputs|) + PropertyUses(sys.properties, |sys.properties|)
  }

  lemma ObservedListExact(sys: Sys, id: NodeId)
    requires id > 0
    ensures id in ObservedList(sys) <==> Observed(sys, id)
  {
    if Observed(sys, id) {
      if k :| 0 <= k < |sys.outputs| && sys.outputs[k].value == id {
        OutputRoot(sys.outputs, |sys.outputs|, k, id);
      } else if k :| 0 <= k < |sys.properties| && (sys.properties[k].condition == id || id in sys.properties[k].conditions) {
        PropertyRoot(sys.properties, |sys.properties|, k, id);
      }
    }
    if j :| 0 <= j < |OutputUses(sys.outputs, |sys.outputs|)| && OutputUses(sys.outputs, |sys.outputs|)[j] == id {
      OutputUseIsOutput(sys.outputs, |sys.outputs|, j);
    }
    if j :| 0 <= j < |PropertyUses(sys.properties, |sys.properties|)| && PropertyUses(sys.properties, |sys.properties|)[j] == id {
      PropertyUseIsProperty(sys.properties, |sys.properties|, j);
    }
  }

  function Ids(n: nat): (s: set<NodeId>)
    ensures forall id :: id in s <==> 1 <= id <= n
  {
    if n == 0 then {} else Ids(n - 1) + {n}
  }

  lemma AllSuffices(sys: Sys) returns (all: set<NodeId>)
    requires WellTyped(sys)
    ensures (forall id :: id in all <==> 1 <= id <= |sys.operations|) && Suffices(sys, all)
  {
    all := Ids(|sys.operations|);
    forall a: NodeId, b: NodeId | a in all && Needs(sys, a, b)
      ensures b in all
    {
      NeedsPositive(sys, a, b);
      NeededInRange(sys, a);
      NeededExactly(sys, a, b);
    }
    forall id: NodeId | id > 0 && Observed(sys, id)
      ensures id in all
    {
      ObservedInRange(sys, id);
    }
  }

  lemma ObservedInRange(sys: Sys, id: NodeId)
    requires WellTyped(sys) && id > 0 && Observed(sys, id)
    ensures InRange(sys.operations, id)
  {
    if k :| 0 <= k < |sys.properties| && (sys.properties[k].condition == id || id in sys.properties[k].conditions) {
      assert TypedProperty(sys.operations, sys.properties[k]);
    }
  }

  /** Marking from the observed operations marks exactly the live ones. */
  lemma MarkedIsLive(sys: Sys, start: seq<bool>, live: seq<bool>)
    requires WellTyped(sys) && |start| == |live| == |sys.operations| + 1
    requires forall x :: 0 <= x < |start| ==> !start[x]
    requires Grown(sys, start, live) && Within(sys, start, live, ObservedList(sys)) && Marked(live, ObservedList(sys))
    ensures live == LiveOperations(sys)
  {
    var all := AllSuffices(sys);
    var marked := set x: NodeId | 1 <= x < |live| && live[x];
    forall a: NodeId, b: NodeId | a in marked && Needs(sys, a, b)
      ensures b in marked
    {
      NeedsPositive(sys, a, b);
    }
    forall id: NodeId | id > 0 && Observed(sys, id)
      ensures id in marked
    {
      ObservedListExact(sys, id);
    }
    assert Suffices(sys, marked);
    forall x: NodeId | x < |live| && live[x]
      ensures Live(sys, x)
    {
      forall s: set<NodeId> | Suffices(sys, s)
        ensures x in s
      {
        SufficientCoversList(sys, s);
      }
      assert x in all;
    }
  }

  lemma SufficientCoversList(sys: Sys, s: set<NodeId>)
    requires Suffices(sys, s)
    ensures forall k :: 0 <= k < |ObservedList(sys)| ==> ObservedList(sys)[k] == 0 || ObservedList(sys)[k] in s
  {
    forall k | 0 <= k < |ObservedList(sys)|
      ensures ObservedList(sys)[k] == 0 || ObservedList(sys)[k] in s
    {
      if ObservedList(sys)[k] != 0 {
        ObservedListExact(sys, ObservedList(sys)[k]);
      }
    }
  }

  method EliminateDeadCode(m: Module) returns (changed: bool)
    requires WellTyped(m.View())
    modifies m
    ensures m.View() == Retained(old(m.View()))
    ensures changed == (|m.operations| != |old(m.operations)|)
  {
    var sys := m.View();
    var live := new bool[|sys.operations| + 1](i => false);
    ghost var start := live[..];
    MarkOutputs(sys, live);
    ghost var middle := live[..];
    MarkProperties(sys, live);
    ghost var outputs := OutputUses(sys.outputs, |sys.outputs|);
    ghost var properties := PropertyUses(sys.properties, |sys.properties|);
    GrownTransitive(sys, start, middle, live[..]);
    WithinTransitive(sys, start, middle, live[..], outputs, properties);
    MarkedStays(sys, middle, live[..], outputs, properties);
    MarkedIsLive(sys, start, live[..]);
    RetainedFits(sys);
    RebuildRefines(sys, LiveOperations(sys), Identity(|sys.operations|));
    var outcome := Rebuild(m, Some(live[..]), None);
    changed := |m.operations| != |sys.operations|;
  }

  // ----- soundness -----

  lemma LiveNeeds(sys: Sys, a: NodeId, b: NodeId)
    requires WellTyped(sys) && Live(sys, a) && Needs(sys, a, b)
    ensures Live(sys, b) && b <= |sys.operations|
  {
    NeedsPositive(sys, a, b);
    NeededInRange(sys, a);
    NeededExactly(sys, a, b);
  }

  lemma RetainedFits(sys: Sys)
    requires WellTyped(sys)
    ensures Fits(sys, LiveOperations(sys), Identity(|sys.operations|))
  {
    var live, canon := LiveOperations(sys), Identity(|sys.operations|);
    forall id: NodeId | InRange(sys.operations, id)
      ensures Replaces(sys.operations, id, canon[id])
    {
    }
    forall id: NodeId | InRange(sys.operations, id) && live[id]
      ensures AllLive(live, canon, sys.operations[id - 1].operands)
    {
      var operands := sys.operations[id - 1].operands;
      forall k | 0 <= k < |operands|
        ensures OptionalLive(live, canon, Some(operands[k]))
      {
        LiveNeeds(sys, id, operands[k]);
      }
    }
    forall k | 0 <= k < |sys.states| && sys.states[k].value < |live| && live[sys.states[k].value]
      ensures OptionalLive(live, canon, sys.states[k].initial) && OptionalLive(live, canon, sys.states[k].next)
    {
      var id := sys.states[k].value;
      assert TypedState(sys.operations, sys.states[k]);
      FindDistinct(sys.states, k);
      if sys.states[k].initial.Some? {
        LiveNeeds(sys, id, sys.states[k].initial.value);
      }
      if sys.states[k].next.Some? {
        LiveNeeds(sys, id, sys.states[k].next.value);
      }
    }
    forall id: NodeId | id > 0 && Observed(sys, id)
      ensures OptionalLive(live, canon, Some(id))
    {
      ObservedInRange(sys, id);
    }
    forall k | 0 <= k < |sys.outputs|
      ensures OptionalLive(live, canon, Some(sys.outputs[k].value))
    {
      assert Observed(sys, sys.outputs[k].value);
    }
    forall k | 0 <= k < |sys.properties|
      ensures sys.properties[k].condition != 0 ==> OptionalLive(live, canon, Some(sys.properties[k].condition))
      ensures AllLive(live, canon, sys.properties[k].conditions)
    {
      assert TypedProperty(sys.operations, sys.properties[k]);
      assert Observed(sys, sys.properties[k].condition);
      forall j | 0 <= j < |sys.properties[k].conditions|
        ensures OptionalLive(live, canon, Some(sys.properties[k].conditions[j]))
      {
        assert Observed(sys, sys.properties[k].conditions[j]);
      }
    }
  }

  ghost function RetainedBack(sys: Sys): seq<NodeId> {
    BackOf(LiveOperations(sys), Identity(|sys.operations|))
  }

  lemma RetainedRefines(sys: Sys)
    requires WellTyped(sys)
    ensures WellTyped(Retained(sys)) && Refines(sys, Retained(sys), RetainedBack(sys))
  {
    RetainedFits(sys);
    RebuildRefines(sys, LiveOperations(sys), Identity(|sys.operations|));
  }

  /** What is observed has a number in the reduced module. */
  lemma RetainedNumber(sys: Sys, id: NodeId)
    requires WellTyped(sys) && id > 0 && Observed(sys, id)
    ensures var i := Lookup(NewIds(Survivors(LiveOperations(sys), Identity(|sys.operations|)), Identity(|sys.operations|)), id);
            0 < i < |RetainedBack(sys)| && RetainedBack(sys)[i] == id
  {
    RetainedFits(sys);
    ObservedInRange(sys, id);
    NewNumber(sys, LiveOperations(sys), Identity(|sys.operations|), id);
  }

  /** Nothing is dropped that anything retained depends on, and nothing is retained without need. */
  lemma RetainedIsLive(sys: Sys, id: NodeId)
    requires WellTyped(sys) && InRange(sys.operations, id)
    ensures Live(sys, id) <==> id in RetainedBack(sys)[1..]
  {
    var n := |sys.operations|;
    var keep := Survivors(LiveOperations(sys), Identity(n));
    var back := RetainedBack(sys);
    assert keep[id] == Live(sys, id);
    if keep[id] {
      KeptOperationAt(sys.operations, keep, [], n, id);
      assert back[1..][Slot(keep, id) - 1] == id;
    }
    if k :| 0 <= k < |back[1..]| && back[1..][k] == id {
      KeptIdAt(keep, n, k + 1);
    }
  }

  // ----- what is retained, on the text of the module -----

  /** Operation `a` names `b` as an operand, or a record of the state `a` does. */
  ghost predicate Names(sys: Sys, a: NodeId, b: NodeId) {
    && 1 <= a <= |sys.operations|
    && (b in sys.operations[a - 1].operands
        || (sys.operations[a - 1].opcode == StateVar
            && exists r :: 0 <= r < |sys.states| && sys.states[r].value == a && (sys.states[r].initial == Some(b) || sys.states[r].next == Some(b))))
  }

  /** From an output or a property condition, each operation of the trail names the next. */
  ghost predicate Trail(sys: Sys, p: seq<NodeId>) {
    && p != [] && p[0] > 0
    && ((exists k :: 0 <= k < |sys.outputs| && sys.outputs[k].value == p[0])
        || (exists k :: 0 <= k < |sys.properties| && (sys.properties[k].condition == p[0] || p[0] in sys.properties[k].conditions)))
    && forall k :: 0 <= k < |p| - 1 ==> Names(sys, p[k], p[k + 1])
  }

  ghost predicate TrailTo(sys: Sys, id: NodeId) {
    exists p: seq<NodeId> :: Trail(sys, p) && p[|p| - 1] == id
  }

  lemma NamesIsNeeds(sys: Sys, a: NodeId, b: NodeId)
    requires WellTyped(sys)
    ensures Names(sys, a, b) <==> Needs(sys, a, b)
  {
    if InRange(sys.operations, a) && sys.operations[a - 1].opcode.StateVar? {
      if r :| 0 <= r < |sys.states| && sys.states[r].value == a && (sys.states[r].initial == Some(b) || sys.states[r].next == Some(b)) {
        FindDistinct(sys.states, r);
      }
      var k := FindState(sys.states, a);
      assert k < |sys.states| ==> sys.states[k].value == a;
    }
  }

  lemma TrailExtends(sys: Sys, a: NodeId, b: NodeId)
    requires TrailTo(sys, a) && Names(sys, a, b)
    ensures TrailTo(sys, b)
  {
    hide Names;
    var p: seq<NodeId> :| Trail(sys, p) && p[|p| - 1] == a;
    var q := p + [b];
    forall k | 0 <= k < |q| - 1
      ensures Names(sys, q[k], q[k + 1])
    {
      if k < |p| - 1 {
        assert q[k] == p[k] && q[k + 1] == p[k + 1];
      }
    }
    assert Trail(sys, q);
  }

  lemma {:induction false} TrailIsLive(sys: Sys, p: seq<NodeId>)
    requires WellTyped(sys) && Trail(sys, p)
    ensures Live(sys, p[|p| - 1])
    decreases |p|
  {
    hide Names, Needs;
    var last := |p| - 1;
    if last == 0 {
      assert Observed(sys, p[0]);
    } else {
      var front := p[..last];
      forall k | 0 <= k < |front| - 1
        ensures Names(sys, front[k], front[k + 1])
      {
        assert front[k] == p[k] && front[k + 1] == p[k + 1];
      }
      TrailIsLive(sys, front);
      var k := last - 1;
      assert Names(sys, p[k], p[k + 1]);
      NamesIsNeeds(sys, p[k], p[last]);
      NeedsPositive(sys, p[k], p[last]);
    }
  }

  lemma NeededNumber(sys: Sys, a: NodeId, b: NodeId)
    requires WellTyped(sys) && Needs(sys, a, b)
    ensures 1 <= b <= |sys.operations|
  {
    NeedsPositive(sys, a, b);
    NeededInRange(sys, a);
    NeededExactly(sys, a, b);
  }

  lemma TrailsSuffice(sys: Sys) returns (s: set<NodeId>)
    requires WellTyped(sys)
    ensures Suffices(sys, s) && forall id :: id in s ==> TrailTo(sys, id)
  {
    hide Needs, Names, TrailTo, Observed;
    s := set id: NodeId | 1 <= id <= |sys.operations| && TrailTo(sys, id);
    forall a: NodeId, b: NodeId | a in s && Needs(sys, a, b)
      ensures b in s
    {
      NeededNumber(sys, a, b);
      NamesIsNeeds(sys, a, b);
      TrailExtends(sys, a, b);
    }
    forall id: NodeId | id > 0 && Observed(sys, id)
      ensures id in s
    {
      ObservedInRange(sys, id);
      ObservedTrail(sys, id);
    }
  }

  lemma ObservedTrail(sys: Sys, id: NodeId)
    requires id > 0 && Observed(sys, id)
    ensures TrailTo(sys, id)
  {
    assert Trail(sys, [id]);
  }

  /** Main result: an operation is retained exactly when a trail leads to it. */
  lemma RetainedHasTrail(sys: Sys, id: NodeId)
    requires WellTyped(sys) && InRange(sys.operations, id)
    ensures id in RetainedBack(sys)[1..] <==> TrailTo(sys, id)
  {
    hide Trail, Suffices;
    RetainedIsLive(sys, id);
    if TrailTo(sys, id) {
      TrailNonempty(sys);
      var p: seq<NodeId> :| Trail(sys, p) && p[|p| - 1] == id;
      TrailIsLive(sys, p);
    }
    if Live(sys, id) {
      var s := TrailsSuffice(sys);
      assert id in s;
    }
  }

  lemma TrailNonempty(sys: Sys)
    ensures forall p: seq<NodeId> :: Trail(sys, p) ==> p != []
  {
  }

  /** Every run projects to one with the same observations; every run comes back exactly when every start can be completed. */
  lemma RetainedTraces(sys: Sys)
    requires WellTyped(sys)
    ensures WellTyped(Retained(sys)) && Refines(sys, Retained(sys), RetainedBack(sys))
    ensures forall run: Run :: IsRun(sys, run) ==>
              && IsRun(Retained(sys), Project(RetainedBack(sys), run))
              && forall t: nat :: SameObservation(sys, run(t), Retained(sys), Project(RetainedBack(sys), run)(t))
    ensures AllRunsExtend(sys, Retained(sys), RetainedBack(sys)) <==> StartsCompletable(sys, Retained(sys), RetainedBack(sys))
    ensures forall run: Run, run': Run, t: nat :: Extends(sys, run, Retained(sys), RetainedBack(sys), run') ==>
              SameObservation(sys, run(t), Retained(sys), run'(t))
  {
    hide WellTyped, Refines, SameObservation, Extends, IsRun, Retained;
    var sys', back := Retained(sys), RetainedBack(sys);
    RetainedRefines(sys);
    forall run: Run | IsRun(sys, run)
      ensures IsRun(sys', Project(back, run))
      ensures forall t: nat :: SameObservation(sys, run(t), sys', Project(back, run)(t))
    {
      RunsProject(sys, sys', back, run);
    }
    RunsExtend(sys, sys', back);
    forall run: Run, run': Run, t: nat | Extends(sys, run, sys', back, run')
      ensures SameObservation(sys, run(t), sys', run'(t))
    {
      ExtensionObserves(sys, run, sys', back, run', t);
    }
  }

  /** Constant initial values, and any that depend on each other without a cycle, give every run back. */
  lemma RankedTraces(sys: Sys, rank: Rank)
    requires WellTyped(sys)
    ensures WellTyped(Retained(sys)) && Refines(sys, Retained(sys), RetainedBack(sys))
    ensures InitsRanked(sys, Retained(sys).operations, RetainedBack(sys), rank) || InitsConstant(sys) ==>
              AllRunsExtend(sys, Retained(sys), RetainedBack(sys))
  {
    hide WellTyped, Refines, AllRunsExtend, Retained;
    var sys', back := Retained(sys), RetainedBack(sys);
    RetainedRefines(sys);
    if InitsRanked(sys, sys'.operations, back, rank) {
      RankedRunsExtend(sys, sys', back, rank);
    }
    if InitsConstant(sys) {
      ConstantRunsExtend(sys, sys', back);
    }
  }

  // ----- a start that cannot be completed -----

  /** A state that must start as its own complement. */
  function Paradox(): Sys {
    Sys([Operation(StateVar, 1, [], [], "s", ""), Operation(Not, 1, [1], [], "", "")],
        [State(1, Some(2), Some(1))], [], [])
  }

  lemma ParadoxTyped()
    ensures WellTyped(Paradox()) && IsStateVar(Paradox().operations, 1) && InitOf(Paradox(), 1) == Some(2)
  {
    var sys := Paradox();
    assert OperandWidths(sys.operations, 2) == [1];
    assert TypedAt(sys.operations, 1) && TypedAt(sys.operations, 2);
    assert TypedState(sys.operations, sys.states[0]);
  }

  lemma ParadoxNeverStarts(env: Env)
    requires WellTyped(Paradox()) && IsStateVar(Paradox().operations, 1) && InitOf(Paradox(), 1) == Some(2)
    ensures !Starts(Paradox(), env, 1)
  {
    var ops := Paradox().operations;
    assert TypedAt(ops, 1) && TypedAt(ops, 2);
    assert Pow2(0) == 1 && Pow2(1) == 2;
    assert OperandValues(ops, 2, env) == [Eval(ops, 1, env)];
    assert Eval(ops, 2, env) == 1 - Eval(ops, 1, env);
  }

  lemma ParadoxIsDead()
    ensures Retained(Paradox()).operations == []
  {
    var sys := Paradox();
    assert Suffices(sys, {});
    assert LiveOperations(sys) == [false, false, false];
    var keep := Survivors(LiveOperations(sys), Identity(2));
    assert Count(keep, 2) == Count(keep, 1) == Count(keep, 0) == 0;
  }

  /** The paradox has no run, yet all of it is dead, so its reduced system has every run; no start of that can be completed. */
  lemma ParadoxGainsRuns(run: Run)
    ensures WellTyped(Paradox()) && WellTyped(Retained(Paradox()))
    ensures !IsRun(Paradox(), run) && IsRun(Retained(Paradox()), run)
    ensures !StartsCompletable(Paradox(), Retained(Paradox()), RetainedBack(Paradox()))
  {
    ParadoxTyped();
    ParadoxIsDead();
    var sys', back := Retained(Paradox()), RetainedBack(Paradox());
    RetainedRefines(Paradox());
    ParadoxNeverStarts(run(0));
    assert StartsAll(sys', run(0));
    forall rest: Env
      ensures !StartsDropped(Paradox(), sys'.operations, back, run(0), rest)
    {
      assert !Kept(sys'.operations, back, 1);
      ParadoxNeverStarts(Fill(sys'.operations, back, run(0), rest));
    }
  }
}
