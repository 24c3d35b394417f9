/** Liveness and dominators of a function, on the text of its blocks. */
module FunctionAnalysis {
  import opened TransitionSystem
  import opened ControlFlow
  import opened Liveness
  import opened Dominators

  // ----- liveness -----

  /** Control may pass along `p`, past blocks that do not define the value, to a block that reads it first. */
  ghost predicate CarriesTo(fn: seq<Block>, p: seq<nat>, v: nat) {
    && p != [] && (forall k :: 0 <= k < |p| ==> p[k] < |fn|)
    && (forall k :: 0 <= k < |p| - 1 ==> Flows(fn, p[k], p[k + 1]) && !Kills(fn[p[k]], v))
    && Exposed(fn[p[|p| - 1]], v)
  }

  ghost predicate LiveAt(fn: seq<Block>, b: nat, v: nat) {
    exists p: seq<nat> :: CarriesTo(fn, p, v) && p[0] == b
  }

  ghost predicate LiveAfter(fn: seq<Block>, b: nat, v: nat) {
    exists s: nat :: Flows(fn, b, s) && LiveAt(fn, s, v)
  }

  ghost predicate EdgesOf(fn: seq<Block>, succs: seq<seq<nat>>) {
    |succs| == |fn| && forall a: nat, b: nat :: a < |fn| ==> (b in succs[a] <==> Flows(fn, a, b))
  }

  lemma SamePaths(fn: seq<Block>, succs: seq<seq<nat>>, p: seq<nat>, v: nat)
    requires EdgesOf(fn, succs)
    ensures Carries(fn, succs, p, v) <==> CarriesTo(fn, p, v)
  {
    hide Flows, Kills, Exposed;
  }

  lemma SameLiveness(fn: seq<Block>, succs: seq<seq<nat>>, b: nat, v: nat)
    requires EdgesOf(fn, succs)
    ensures LiveIn(fn, succs, b, v) <==> LiveAt(fn, b, v)
    ensures b < |fn| ==> (LiveOut(fn, succs, b, v) <==> LiveAfter(fn, b, v))
  {
    hide Carries, CarriesTo, Flows;
    forall p: seq<nat>
      ensures Carries(fn, succs, p, v) <==> CarriesTo(fn, p, v)
    {
      SamePaths(fn, succs, p, v);
    }
    forall s: nat
      ensures LiveIn(fn, succs, s, v) <==> LiveAt(fn, s, v)
    {
      CarriesSome(fn, succs, s, v);
    }
    if b < |fn| {
      forall s: nat
        ensures s in succs[b] <==> Flows(fn, b, s)
      {
      }
    }
  }

  lemma CarriesSome(fn: seq<Block>, succs: seq<seq<nat>>, s: nat, v: nat)
    requires |succs| == |fn| && forall p: seq<nat> :: Carries(fn, succs, p, v) <==> CarriesTo(fn, p, v)
    ensures LiveIn(fn, succs, s, v) <==> LiveAt(fn, s, v)
  {
    hide Carries, CarriesTo;
    if LiveIn(fn, succs, s, v) {
      CarriesNonempty(fn, succs, v);
      var p: seq<nat> :| Carries(fn, succs, p, v) && p[0] == s;
      assert CarriesTo(fn, p, v);
    }
    if LiveAt(fn, s, v) {
      CarriesNonempty(fn, succs, v);
      var p: seq<nat> :| CarriesTo(fn, p, v) && p[0] == s;
      assert Carries(fn, succs, p, v);
    }
  }

  lemma CarriesNonempty(fn: seq<Block>, succs: seq<seq<nat>>, v: nat)
    requires |succs| == |fn|
    ensures forall p: seq<nat> :: Carries(fn, succs, p, v) || CarriesTo(fn, p, v) ==> p != []
  {
  }

  /** A value is live exactly where control may reach a use of it before any definition. */
  method AnalyzeLiveness(fn: seq<Block>) returns (flow: DataFlow)
    ensures |flow.into| == |flow.out| == |fn|
    ensures forall b: nat, v: nat :: b < |fn| ==>
              (v in flow.into[b] <==> LiveAt(fn, b, v)) && (v in flow.out[b] <==> LiveAfter(fn, b, v))
  {
    hide Mirrored, Flows, LiveIn, LiveOut, LiveAt, LiveAfter;
    var g := new Graph(fn);
    MirroredLengths(|fn|, g.successors, g.predecessors);
    flow := new DataFlow();
    flow.RunLiveness(g);
    forall b: nat, v: nat | b < |fn|
      ensures (v in flow.into[b] <==> LiveAt(fn, b, v)) && (v in flow.out[b] <==> LiveAfter(fn, b, v))
    {
      SameLiveness(fn, g.successors, b, v);
    }
  }

  // ----- dominators -----

  /** Where control comes from: the first block, and blocks that nothing jumps to. */
  ghost predicate Start(fn: seq<Block>, b: nat) {
    b < |fn| && (b == 0 || forall a: nat :: !Flows(fn, a, b))
  }

  ghost predicate Route(fn: seq<Block>, p: seq<nat>, b: nat) {
    && p != [] && (forall k :: 0 <= k < |p| ==> p[k] < |fn|) && Start(fn, p[0]) && p[|p| - 1] == b
    && forall k :: 0 <= k < |p| - 1 ==> Flows(fn, p[k], p[k + 1])
  }

  /** Every route to `b` passes `a`. */
  ghost predicate MustPass(fn: seq<Block>, a: nat, b: nat) {
    a < |fn| && b < |fn| && forall p: seq<nat> :: Route(fn, p, b) ==> a in p
  }

  /** A strict dominator of `b` that dominates no other. */
  ghost predicate Nearest(fn: seq<Block>, c: nat, b: nat) {
    && c != b && MustPass(fn, c, b)
    && forall o: nat :: o != b && o != c && MustPass(fn, o, b) ==> !MustPass(fn, c, o)
  }

  ghost predicate ReversedEdgesOf(fn: seq<Block>, preds: seq<seq<nat>>) {
    && |preds| == |fn| && Inside(|fn|, preds)
    && forall a: nat, b: nat :: a < |fn| && b < |fn| ==> (a in preds[b] <==> Flows(fn, a, b))
  }

  lemma SameStart(fn: seq<Block>, preds: seq<seq<nat>>, b: nat)
    requires ReversedEdgesOf(fn, preds)
    ensures Origin(preds, b) <==> Start(fn, b)
  {
    if b < |fn| && preds[b] != [] {
      assert preds[b][0] in preds[b] && Flows(fn, preds[b][0], b);
    }
    if b < |fn| && preds[b] == [] {
      forall a: nat
        ensures !Flows(fn, a, b)
      {
        assert a < |fn| ==> a !in preds[b];
      }
    }
  }

  lemma SameRoutes(fn: seq<Block>, preds: seq<seq<nat>>, p: seq<nat>, b: nat)
    requires ReversedEdgesOf(fn, preds)
    ensures Leads(preds, p, b) <==> Route(fn, p, b)
  {
    hide Flows, Origin, Start;
    if p != [] {
      SameStart(fn, preds, p[0]);
      if forall k :: 0 <= k < |p| ==> p[k] < |fn| {
        forall k | 0 <= k < |p| - 1
          ensures Edge(preds, p[k], p[k + 1]) <==> Flows(fn, p[k], p[k + 1])
        {
        }
      }
    }
  }

  lemma SameDominators(fn: seq<Block>, preds: seq<seq<nat>>, a: nat, b: nat)
    requires ReversedEdgesOf(fn, preds)
    ensures Dominates(preds, a, b) <==> MustPass(fn, a, b)
  {
    hide Leads, Route;
    forall p: seq<nat>
      ensures Leads(preds, p, b) <==> Route(fn, p, b)
    {
      SameRoutes(fn, preds, p, b);
    }
  }

  lemma SameNearest(fn: seq<Block>, preds: seq<seq<nat>>, c: nat, b: nat)
    requires ReversedEdgesOf(fn, preds)
    ensures Closest(preds, c, b) <==> Nearest(fn, c, b)
  {
    hide Dominates, MustPass;
    forall a: nat, d: nat
      ensures Dominates(preds, a, d) <==> MustPass(fn, a, d)
    {
      SameDominators(fn, preds, a, d);
    }
  }

  /** Dominators and immediate dominators over the jumps of the function. */
  method AnalyzeDominators(fn: seq<Block>) returns (tree: DominatorTree)
    ensures |tree.dominators| == |tree.immediate| == |fn|
    ensures forall a: nat, b: nat :: b < |fn| ==> (a in tree.dominators[b] <==> MustPass(fn, a, b))
    ensures forall b: nat :: b < |fn| && tree.immediate[b].Some? ==> b != 0 && Nearest(fn, tree.immediate[b].value, b)
    ensures forall b: nat :: 0 < b < |fn| && tree.immediate[b].None? ==> forall c: nat :: !Nearest(fn, c, b)
    ensures OneStart(fn) ==> forall b: nat :: 0 < b < |fn| && Reached(fn, b) ==> tree.immediate[b].Some?
  {
    hide Mirrored, Flows, Dominates, MustPass, Closest, Nearest;
    var g := new Graph(fn);
    var preds := g.predecessors;
    PredecessorsFlow(fn, g.successors, preds);
    tree := new DominatorTree(g);
    forall a: nat, b: nat | b < |fn|
      ensures a in tree.dominators[b] <==> MustPass(fn, a, b)
    {
      SameDominators(fn, preds, a, b);
    }
    forall c: nat, b: nat
      ensures Closest(preds, c, b) <==> Nearest(fn, c, b)
    {
      SameNearest(fn, preds, c, b);
    }
    forall b: nat | b < |fn|
      ensures tree.immediate[b].Some? ==> b != 0 && Nearest(fn, tree.immediate[b].value, b)
      ensures b > 0 && tree.immediate[b].None? ==> forall c: nat :: !Nearest(fn, c, b)
    {
      assert ImmediateAt(preds, b, tree.immediate[b]);
    }
    if OneStart(fn) {
      forall b: nat | 0 < b < |fn| && Reached(fn, b)
        ensures tree.immediate[b].Some?
      {
        assert ImmediateAt(preds, b, tree.immediate[b]);
        ImmediateFound(fn, preds, b, tree.immediate[b]);
      }
    }
  }

  /** Something jumps to every block but the first. */
  ghost predicate OneStart(fn: seq<Block>) {
    forall k: nat :: 0 < k < |fn| ==> !Start(fn, k)
  }

  ghost predicate Reached(fn: seq<Block>, b: nat) {
    exists p: seq<nat> :: Route(fn, p, b)
  }

  lemma ImmediateFound(fn: seq<Block>, preds: seq<seq<nat>>, b: nat, found: Option<nat>)
    requires ReversedEdgesOf(fn, preds) && OneStart(fn) && 0 < b < |fn| && Reached(fn, b) && ImmediateAt(preds, b, found)
    ensures found.Some?
  {
    hide Route, Leads, Start, Closest, Flows;
    var p: seq<nat> :| Route(fn, p, b);
    SameRoutes(fn, preds, p, b);
    assert Reachable(preds, b);
    forall k: nat | 1 <= k < |preds|
      ensures preds[k] != []
    {
      SameStart(fn, preds, k);
    }
    ImmediateExists(preds, b, found);
  }

  lemma PredecessorsFlow(fn: seq<Block>, succs: seq<seq<nat>>, preds: seq<seq<nat>>)
    requires Mirrored(|fn|, succs, preds) && Inside(|fn|, preds)
    requires forall a: nat, b: nat :: a < |fn| ==> (b in succs[a] <==> Flows(fn, a, b))
    ensures ReversedEdgesOf(fn, preds)
  {
    hide Flows;
    forall a: nat, b: nat | a < |fn| && b < |fn|
      ensures a in preds[b] <==> Flows(fn, a, b)
    {
      EdgesMirror(|fn|, succs, preds, a, b);
    }
  }
}
