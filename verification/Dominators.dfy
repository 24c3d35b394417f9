/** Dominators of a control-flow graph, as the greatest solution of the dataflow equations. */
module Dominators {
  import opened TransitionSystem
  import opened ControlFlow
  import opened FiniteSets

  /** Predecessor lists; block zero is the entry. */
  type Preds = seq<seq<nat>>

  predicate Closed(preds: Preds) {
    forall b, k :: 0 <= b < |preds| && 0 <= k < |preds[b]| ==> preds[b][k] < |preds|
  }

  // ----- paths -----

  predicate Edge(preds: Preds, a: nat, b: nat) {
    a < |preds| && b < |preds| && a in preds[b]
  }

  predicate IsPath(preds: Preds, p: seq<nat>) {
    && p != [] && (forall k :: 0 <= k < |p| ==> p[k] < |preds|)
    && forall k :: 0 <= k < |p| - 1 ==> Edge(preds, p[k], p[k + 1])
  }

  /** Where paths start: at the entry, and at blocks that nothing leads to. */
  predicate Origin(preds: Preds, b: nat) {
    b < |preds| && (b == 0 || preds[b] == [])
  }

  predicate Leads(preds: Preds, p: seq<nat>, b: nat) {
    IsPath(preds, p) && Origin(preds, p[0]) && p[|p| - 1] == b
  }

  /** Every path from an origin to `b` passes `a`. */
  ghost predicate Dominates(preds: Preds, a: nat, b: nat) {
    a < |preds| && b < |preds| && forall p: seq<nat> :: Leads(preds, p, b) ==> a in p
  }

  ghost predicate StrictlyDominates(preds: Preds, a: nat, b: nat) {
    a != b && Dominates(preds, a, b)
  }

  // ----- the equations -----

  function All(n: nat): (s: set<nat>)
    ensures forall x: nat :: x in s <==> x < n
    ensures |s| == n
  {
    if n == 0 then {} else
      var before := All(n - 1);
      before + {n - 1}
  }

  /** What the first `k` predecessors have in common. */
  function Common(d: seq<set<nat>>, list: seq<nat>, k: nat): (s: set<nat>)
    requires 0 < k <= |list| && forall j :: 0 <= j < |list| ==> list[j] < |d|
    ensures forall x :: x in s <==> forall j :: 0 <= j < k ==> x in d[list[j]]
  {
    if k == 1 then d[list[0]] else Common(d, list, k - 1) * d[list[k - 1]]
  }

  function Transfer(preds: Preds, d: seq<set<nat>>, b: nat): set<nat>
    requires Closed(preds) && |d| == |preds| && b < |preds|
  {
    {b} + if preds[b] == [] then {} else Common(d, preds[b], |preds[b]|)
  }

  lemma TransferMonotone(preds: Preds, d: seq<set<nat>>, e: seq<set<nat>>, b: nat)
    requires Closed(preds) && |d| == |e| == |preds| && b < |preds|
    requires forall k :: 0 <= k < |d| ==> d[k] <= e[k]
    ensures Transfer(preds, d, b) <= Transfer(preds, e, b)
  {
  }

  /** What the sets keep while they shrink towards the solution. */
  ghost predicate Shrinking(preds: Preds, d: seq<set<nat>>) {
    && Closed(preds) && |d| == |preds| > 0 && d[0] == {0}
    && (forall b :: 0 <= b < |d| ==> forall x :: x in d[b] ==> x < |d|)
    && (forall b :: 1 <= b < |d| ==> Transfer(preds, d, b) <= d[b])
    && forall a: nat, b: nat :: Dominates(preds, a, b) ==> a in d[b]
  }

  lemma PathExtends(preds: Preds, p: seq<nat>, a: nat, b: nat)
    requires Leads(preds, p, a) && Edge(preds, a, b)
    ensures Leads(preds, p + [b], b)
  {
    var q := p + [b];
    forall k | 0 <= k < |q| - 1
      ensures Edge(preds, q[k], q[k + 1])
    {
      assert k < |p| - 1 ==> q[k] == p[k] && q[k + 1] == p[k + 1];
    }
  }

  /** A dominator of a block is the block or dominates every predecessor. */
  lemma DominatesBack(preds: Preds, a: nat, b: nat)
    requires Closed(preds) && Dominates(preds, a, b) && a != b && b != 0
    ensures preds[b] != []
    ensures forall k :: 0 <= k < |preds[b]| ==> Dominates(preds, a, preds[b][k])
  {
    if preds[b] == [] {
      assert Leads(preds, [b], b);
      assert false;
    }
    forall k | 0 <= k < |preds[b]|
      ensures Dominates(preds, a, preds[b][k])
    {
      var c := preds[b][k];
      forall p: seq<nat> | Leads(preds, p, c)
        ensures a in p
      {
        PathExtends(preds, p, c, b);
        assert a in p + [b];
      }
    }
  }

  lemma ShrinkingUpdate(preds: Preds, d: seq<set<nat>>, b: nat)
    requires Shrinking(preds, d) && 1 <= b < |d|
    ensures Shrinking(preds, d[b := Transfer(preds, d, b)])
  {
    var next := Transfer(preds, d, b);
    var e := d[b := next];
    forall k | 1 <= k < |e|
      ensures Transfer(preds, e, k) <= e[k]
    {
      TransferMonotone(preds, e, d, k);
    }
    forall a: nat, k: nat | Dominates(preds, a, k)
      ensures a in e[k]
    {
      if k == b && a != b {
        DominatesBack(preds, a, b);
      }
    }
  }

  lemma StartShrinking(preds: Preds, d: seq<set<nat>>)
    requires Closed(preds) && |d| == |preds| > 0
    requires forall b :: 0 <= b < |d| ==> d[b] == if b == 0 then {0} else All(|d|)
    ensures Shrinking(preds, d)
  {
    forall a: nat | Dominates(preds, a, 0)
      ensures a in d[0]
    {
      assert Leads(preds, [0], 0);
    }
    forall b | 1 <= b < |d|
      ensures Transfer(preds, d, b) <= d[b]
    {
      if preds[b] != [] {
        assert forall x :: x in Common(d, preds[b], |preds[b]|) ==> x in d[preds[b][0]];
      }
    }
  }

  /** A fixpoint contains dominators only. */
  lemma {:induction false} FixpointDominates(preds: Preds, d: seq<set<nat>>, p: seq<nat>, a: nat, b: nat)
    requires Shrinking(preds, d) && forall k :: 1 <= k < |d| ==> Transfer(preds, d, k) == d[k]
    requires Leads(preds, p, b) && a in d[b]
    ensures a in p
    decreases |p|
  {
    if b != 0 && a != b {
      var front := p[..|p| - 1];
      if front == [] {
        assert false;
      } else {
        var c := p[|p| - 2];
        assert Edge(preds, p[|p| - 2], p[|p| - 2 + 1]);
        assert Leads(preds, front, c);
        FixpointDominates(preds, d, front, a, c);
      }
    }
  }

  lemma FixpointExact(preds: Preds, d: seq<set<nat>>, a: nat, b: nat)
    requires Shrinking(preds, d) && forall k :: 1 <= k < |d| ==> Transfer(preds, d, k) == d[k]
    requires b < |d|
    ensures a in d[b] <==> Dominates(preds, a, b)
  {
    if a in d[b] {
      forall p: seq<nat> | Leads(preds, p, b)
        ensures a in p
      {
        FixpointDominates(preds, d, p, a, b);
      }
    }
  }

  // ----- the order of dominators -----

  ghost predicate Reachable(preds: Preds, b: nat) {
    exists p: seq<nat> :: Leads(preds, p, b)
  }

  lemma PrefixLeads(preds: Preds, p: seq<nat>, b: nat, k: nat)
    requires Leads(preds, p, b) && k < |p|
    ensures Leads(preds, p[..k + 1], p[k])
  {
    var q := p[..k + 1];
    forall j | 0 <= j < |q| - 1
      ensures Edge(preds, q[j], q[j + 1])
    {
      assert Edge(preds, p[j], p[j + 1]);
    }
  }

  lemma DominatesTransitive(preds: Preds, a: nat, b: nat, c: nat)
    requires Dominates(preds, a, b) && Dominates(preds, b, c)
    ensures Dominates(preds, a, c)
  {
    forall p: seq<nat> | Leads(preds, p, c)
      ensures a in p
    {
      assert b in p;
      var k :| 0 <= k < |p| && p[k] == b;
      PrefixLeads(preds, p, c, k);
      assert a in p[..k + 1];
    }
  }

  /** Two blocks do not dominate each other when something leads to them. */
  lemma {:induction false} DominatesAntisymmetric(preds: Preds, a: nat, b: nat, p: seq<nat>)
    requires Dominates(preds, a, b) && Dominates(preds, b, a) && Leads(preds, p, b)
    ensures a == b
    decreases |p|
  {
    if a != b {
      var k :| 0 <= k < |p| && p[k] == a;
      PrefixLeads(preds, p, b, k);
      DominatesAntisymmetric(preds, b, a, p[..k + 1]);
    }
  }

  function LastIndex(p: seq<nat>, a: nat): (k: nat)
    requires a in p
    ensures k < |p| && p[k] == a && forall j :: k < j < |p| ==> p[j] != a
  {
    if p[|p| - 1] == a then |p| - 1 else LastIndex(p[..|p| - 1], a)
  }

  lemma Detour(preds: Preds, p: seq<nat>, b: nat, k: nat, q: seq<nat>)
    requires Leads(preds, p, b) && k < |p| && Leads(preds, q, p[k])
    ensures Leads(preds, q + p[k + 1..], b)
  {
    var r := q + p[k + 1..];
    forall j | 0 <= j < |r| - 1
      ensures Edge(preds, r[j], r[j + 1])
    {
      if j < |q| - 1 {
        assert Edge(preds, q[j], q[j + 1]);
      } else {
        assert Edge(preds, p[k + 1 + j - |q|], p[k + 1 + j - |q| + 1]);
      }
    }
  }

  /** If `c` comes after the last `a` on a path to a block that `a` dominates, then `a` dominates `c`. */
  lemma LaterIsDominated(preds: Preds, a: nat, b: nat, p: seq<nat>, k: nat)
    requires Dominates(preds, a, b) && Leads(preds, p, b) && k < |p| && forall j :: k <= j < |p| ==> p[j] != a
    ensures Dominates(preds, a, p[k])
  {
    forall q: seq<nat> | Leads(preds, q, p[k])
      ensures a in q
    {
      Detour(preds, p, b, k, q);
      assert a in q + p[k + 1..];
    }
  }

  /** The dominators of a block that something leads to form a chain. */
  lemma DominatorsChain(preds: Preds, a: nat, c: nat, b: nat)
    requires Dominates(preds, a, b) && Dominates(preds, c, b) && Reachable(preds, b)
    ensures Dominates(preds, a, c) || Dominates(preds, c, a)
  {
    var p: seq<nat> :| Leads(preds, p, b);
    var i, k := LastIndex(p, a), LastIndex(p, c);
    if i < k {
      LaterIsDominated(preds, a, b, p, k);
    } else if k < i {
      LaterIsDominated(preds, c, b, p, i);
    } else {
      assert a == c;
      forall q: seq<nat> | Leads(preds, q, a)
        ensures a in q
      {
        assert q[|q| - 1] == a;
      }
    }
  }

  // ----- the immediate dominator -----

  /** A strict dominator that dominates no other strict dominator. */
  ghost predicate Closest(preds: Preds, c: nat, b: nat) {
    && StrictlyDominates(preds, c, b)
    && forall o: nat :: StrictlyDominates(preds, o, b) && o != c ==> !Dominates(preds, c, o)
  }

  lemma DominatorReachable(preds: Preds, a: nat, b: nat)
    requires Dominates(preds, a, b) && Reachable(preds, b)
    ensures Reachable(preds, a)
  {
    var p: seq<nat> :| Leads(preds, p, b);
    var k :| 0 <= k < |p| && p[k] == a;
    PrefixLeads(preds, p, b, k);
  }

  lemma {:induction false} ClosestAmong(preds: Preds, b: nat, s: set<nat>) returns (c: nat)
    requires s != {} && Reachable(preds, b) && forall x :: x in s ==> StrictlyDominates(preds, x, b)
    ensures c in s && forall o :: o in s && o != c ==> !Dominates(preds, c, o)
    decreases s
  {
    var x :| x in s;
    var rest := s - {x};
    assert forall o :: o in s <==> o == x || o in rest;
    if rest == {} {
      c := x;
    } else {
      c := ClosestAmong(preds, b, rest);
      if Dominates(preds, c, x) {
        forall o | o in s && o != x
          ensures !Dominates(preds, x, o)
        {
          if Dominates(preds, x, o) {
            if o == c {
              DominatorReachable(preds, x, b);
              var p: seq<nat> :| Leads(preds, p, x);
              DominatesAntisymmetric(preds, c, x, p);
              assert false;
            } else {
              DominatesTransitive(preds, c, x, o);
              assert false;
            }
          }
        }
        c := x;
      }
    }
  }

  /** A block that something leads to has at most one closest dominator, and one if it has any strict dominator. */
  lemma ClosestUnique(preds: Preds, b: nat)
    requires Reachable(preds, b)
    ensures forall c: nat, o: nat :: Closest(preds, c, b) && Closest(preds, o, b) ==> c == o
    ensures (exists a: nat :: StrictlyDominates(preds, a, b)) ==> exists c: nat :: Closest(preds, c, b)
  {
    forall c: nat, o: nat | Closest(preds, c, b) && Closest(preds, o, b)
      ensures c == o
    {
      DominatorsChain(preds, c, o, b);
    }
    if exists a: nat :: StrictlyDominates(preds, a, b) {
      var strict := set x | x in All(|preds|) && StrictlyDominates(preds, x, b);
      var a: nat :| StrictlyDominates(preds, a, b);
      assert a in strict;
      var c := ClosestAmong(preds, b, strict);
      assert Closest(preds, c, b);
    }
  }

  /** When every block can be reached from the entry, the entry dominates them all. */
  lemma EntryDominates(preds: Preds, b: nat)
    requires b < |preds| && forall k: nat :: 1 <= k < |preds| ==> preds[k] != []
    ensures Dominates(preds, 0, b)
  {
    forall p: seq<nat> | Leads(preds, p, b)
      ensures 0 in p
    {
      assert p[0] == 0 by {
        assert Origin(preds, p[0]);
      }
    }
    assert forall p: seq<nat> :: Leads(preds, p, b) ==> 0 in p;
  }

  // ----- the algorithm -----

  method Refresh(preds: Preds, d: seq<set<nat>>, b: nat) returns (next: set<nat>)
    requires Closed(preds) && |d| == |preds| && b < |preds|
    ensures next == Transfer(preds, d, b)
  {
    next := {};
    var list := preds[b];
    if list != [] {
      next := d[list[0]];
      for p := 1 to |list|
        invariant next == Common(d, list, p)
      {
        next := set x | x in next && x in d[list[p]];
      }
    }
    next := next + {b};
  }

  class DominatorTree {
    var dominators: seq<set<nat>>
    var immediate: seq<Option<nat>>

    constructor (g: Graph)
      requires g.Valid(|g.blocks|)
      ensures |dominators| == |immediate| == |g.blocks|
      ensures forall a: nat, b: nat :: b < |g.blocks| ==> (a in dominators[b] <==> Dominates(g.predecessors, a, b))
      ensures forall b: nat :: b < |g.blocks| ==> ImmediateAt(g.predecessors, b, immediate[b])
    {
      dominators, immediate := [], seq(|g.blocks|, k => None);
      new;
      if g.blocks != [] {
        Solve(g.predecessors);
        SelectImmediate(g.predecessors);
      }
    }

    method Solve(preds: Preds)
      requires Closed(preds) && preds != []
      modifies this`dominators
      ensures |dominators| == |preds|
      ensures forall a: nat, b: nat :: b < |preds| ==> (a in dominators[b] <==> Dominates(preds, a, b))
    {
      dominators := seq(|preds|, k => if k == 0 then {0} else All(|preds|));
      StartShrinking(preds, dominators);
      var changed := true;
      while changed
        invariant Shrinking(preds, dominators)
        invariant !changed ==> forall k :: 1 <= k < |preds| ==> Transfer(preds, dominators, k) == dominators[k]
        decreases Total(dominators), changed
      {
        changed := Sweep(preds);
      }
      forall a: nat, b: nat | b < |preds|
        ensures a in dominators[b] <==> Dominates(preds, a, b)
      {
        FixpointExact(preds, dominators, a, b);
      }
    }

    method Sweep(preds: Preds) returns (changed: bool)
      requires Shrinking(preds, dominators)
      modifies this`dominators
      ensures Shrinking(preds, dominators)
      ensures if changed then Total(dominators) < Total(old(dominators)) else dominators == old(dominators)
      ensures !changed ==> forall k :: 1 <= k < |preds| ==> Transfer(preds, dominators, k) == dominators[k]
    {
      hide Shrinking, Transfer;
      changed := false;
      ShrinkingLength(preds, dominators);
      for i := 1 to |preds|
        invariant Shrinking(preds, dominators) && |dominators| == |preds| && Closed(preds)
        invariant if changed then Total(dominators) < Total(old(dominators)) else dominators == old(dominators)
        invariant !changed ==> forall k :: 1 <= k < i ==> Transfer(preds, dominators, k) == dominators[k]
      {
        var next := Refresh(preds, dominators, i);
        if next != dominators[i] {
          TransferShrinks(preds, dominators, i);
          TotalShrinks(dominators, i, next);
          ShrinkingUpdate(preds, dominators, i);
          dominators := dominators[i := next];
          changed := true;
        }
      }
    }

    method SelectImmediate(preds: Preds)
      requires preds != [] && |dominators| == |preds|
      requires immediate == seq(|preds|, k => None)
      requires forall a: nat, b: nat :: b < |preds| ==> (a in dominators[b] <==> Dominates(preds, a, b))
      modifies this`immediate
      ensures |immediate| == |preds| && forall b: nat :: b < |preds| ==> ImmediateAt(preds, b, immediate[b])
    {
      hide Dominates;
      for i := 1 to |preds|
        invariant |immediate| == |preds| && forall b :: i <= b < |preds| ==> immediate[b] == None
        invariant forall b: nat :: b < i ==> ImmediateAt(preds, b, immediate[b])
      {
        var found := FindImmediate(preds, i);
        immediate := immediate[i := found];
      }
    }

    /** Candidates are tried in any order. */
    method FindImmediate(preds: Preds, b: nat) returns (found: Option<nat>)
      requires 1 <= b < |preds| == |dominators|
      requires forall a: nat, b: nat :: b < |preds| ==> (a in dominators[b] <==> Dominates(preds, a, b))
      ensures ImmediateAt(preds, b, found)
    {
      hide Dominates;
      var candidates := dominators[b];
      while candidates != {}
        invariant candidates <= dominators[b]
        invariant forall c :: c in dominators[b] && c !in candidates ==> !Closest(preds, c, b)
        decreases |candidates|
      {
        var candidate :| candidate in candidates;
        candidates := candidates - {candidate};
        if candidate != b {
          var closest := IsClosest(preds, candidate, b);
          if closest {
            return Some(candidate);
          }
        }
      }
      return None;
    }

    method IsClosest(preds: Preds, candidate: nat, b: nat) returns (closest: bool)
      requires b < |preds| == |dominators| && candidate in dominators[b] && candidate != b
      requires forall a: nat, b: nat :: b < |preds| ==> (a in dominators[b] <==> Dominates(preds, a, b))
      ensures closest == Closest(preds, candidate, b)
    {
      hide Dominates;
      closest := true;
      var others := dominators[b];
      while others != {} && closest
        invariant others <= dominators[b]
        invariant closest ==> forall o :: o in dominators[b] && o !in others && o != b && o != candidate ==> !Dominates(preds, candidate, o)
        invariant !closest ==> !Closest(preds, candidate, b)
        decreases |others|
      {
        var other :| other in others;
        others := others - {other};
        if other != b && other != candidate {
          DominatorInside(preds, other, b);
          if candidate in dominators[other] {
            closest := false;
          }
        }
      }
    }
  }

  lemma DominatorInside(preds: Preds, a: nat, b: nat)
    requires Dominates(preds, a, b)
    ensures a < |preds|
  {
  }

  lemma ShrinkingLength(preds: Preds, d: seq<set<nat>>)
    requires Shrinking(preds, d)
    ensures |d| == |preds| > 0 && Closed(preds)
  {
  }

  lemma TransferShrinks(preds: Preds, d: seq<set<nat>>, b: nat)
    requires Shrinking(preds, d) && 1 <= b < |d|
    ensures Transfer(preds, d, b) <= d[b]
  {
  }

  /** The entry has none; the others have a closest dominator, if there is one. */
  ghost predicate ImmediateAt(preds: Preds, b: nat, found: Option<nat>) {
    if b == 0 then found.None?
    else match found
      case Some(c) => Closest(preds, c, b)
      case None => forall c: nat :: !Closest(preds, c, b)
  }

  /** Main result: when the entry is the only origin, every other reachable block has exactly one immediate dominator. */
  lemma ImmediateExists(preds: Preds, b: nat, found: Option<nat>)
    requires 1 <= b < |preds| && ImmediateAt(preds, b, found) && Reachable(preds, b)
    requires forall k: nat :: 1 <= k < |preds| ==> preds[k] != []
    ensures found.Some? && Closest(preds, found.value, b)
    ensures forall o: nat :: StrictlyDominates(preds, o, b) ==> Dominates(preds, o, found.value)
  {
    hide Dominates;
    EntryDominates(preds, b);
    assert StrictlyDominates(preds, 0, b);
    ClosestUnique(preds, b);
    forall o: nat | StrictlyDominates(preds, o, b)
      ensures Dominates(preds, o, found.value)
    {
      DominatorsChain(preds, o, found.value, b);
    }
  }
}
