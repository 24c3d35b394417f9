/** Live values of basic blocks, as the least solution of the dataflow equations. */
module Liveness {
  import opened ControlFlow
  import opened FiniteSets

  // ----- one block -----

  /** No instruction from the `i`-th up to the `n`-th defines the value. */
  predicate Undefined(block: Block, v: nat, i: nat, n: nat)
    requires n <= |block.operations|
  {
    forall j :: i <= j < n ==> v !in block.operations[j].results
  }

  /** Instruction `n` reads the value that was there before the `i`-th. */
  predicate UsedAt(block: Block, v: nat, i: nat, n: nat) {
    i <= n < |block.operations| && v in block.operations[n].operands && Undefined(block, v, i, n)
  }

  /** The value is read before the block defines it, and it is no argument of the block. */
  ghost predicate Exposed(block: Block, v: nat) {
    v !in block.arguments && exists n: nat :: UsedAt(block, v, 0, n)
  }

  predicate Kills(block: Block, v: nat) {
    v in block.arguments || !Undefined(block, v, 0, |block.operations|)
  }

  /** Values needed before instruction `k`, going backwards from those needed at the end. */
  function Before(ops: seq<Instruction>, out: set<nat>, k: nat): set<nat>
    requires k <= |ops|
    decreases |ops| - k
  {
    if k == |ops| then out
    else Before(ops, out, k + 1) - (set x | x in ops[k].results) + (set x | x in ops[k].operands)
  }

  function LiveBefore(block: Block, out: set<nat>): set<nat> {
    Before(block.operations, out, 0) - set x | x in block.arguments
  }

  lemma {:induction false} BeforeMeans(block: Block, out: set<nat>, k: nat, v: nat)
    requires k <= |block.operations|
    ensures v in Before(block.operations, out, k) <==>
              (exists n: nat :: UsedAt(block, v, k, n)) || (v in out && Undefined(block, v, k, |block.operations|))
    decreases |block.operations| - k
  {
    if k < |block.operations| {
      var next := k + 1;
      BeforeMeans(block, out, next, v);
      var op := block.operations[k];
      if v in op.operands {
        assert UsedAt(block, v, k, k);
      } else {
        forall n: nat
          ensures UsedAt(block, v, k, n) <==> v !in op.results && UsedAt(block, v, next, n)
        {
        }
        var n := |block.operations|;
        assert Undefined(block, v, k, n) <==> v !in op.results && Undefined(block, v, k + 1, n);
      }
    }
  }

  /** A block needs what it exposes, and what is needed later and it does not define. */
  lemma LiveBeforeMeans(block: Block, out: set<nat>, v: nat)
    ensures v in LiveBefore(block, out) <==> Exposed(block, v) || (v in out && !Kills(block, v))
  {
    BeforeMeans(block, out, 0, v);
  }

  method TransferBlock(block: Block, out: set<nat>) returns (live: set<nat>)
    ensures live == LiveBefore(block, out)
  {
    live := out;
    var k: nat := |block.operations|;
    while k > 0
      invariant k <= |block.operations| && live == Before(block.operations, out, k)
    {
      k := k - 1;
      var op := block.operations[k];
      for i := 0 to |op.results|
        invariant live == Before(block.operations, out, k + 1) - set x | x in op.results[..i]
      {
        assert op.results[..i + 1] == op.results[..i] + [op.results[i]];
        live := live - {op.results[i]};
      }
      assert op.results[..|op.results|] == op.results;
      ghost var kept := live;
      for i := 0 to |op.operands|
        invariant live == kept + set x | x in op.operands[..i]
      {
        assert op.operands[..i + 1] == op.operands[..i] + [op.operands[i]];
        live := live + {op.operands[i]};
      }
      assert op.operands[..|op.operands|] == op.operands;
    }
    ghost var needed := live;
    for i := 0 to |block.arguments|
      invariant live == needed - set x | x in block.arguments[..i]
    {
      assert block.arguments[..i + 1] == block.arguments[..i] + [block.arguments[i]];
      live := live - {block.arguments[i]};
    }
    assert block.arguments[..|block.arguments|] == block.arguments;
  }

  // ----- paths to a use -----

  type Succs = seq<seq<nat>>

  /** A path from `p[0]` to a block that exposes the value, past blocks that do not define it. */
  ghost predicate Carries(blocks: seq<Block>, succs: Succs, p: seq<nat>, v: nat)
    requires |succs| == |blocks|
  {
    && p != [] && (forall k :: 0 <= k < |p| ==> p[k] < |blocks|)
    && (forall k :: 0 <= k < |p| - 1 ==> p[k + 1] in succs[p[k]] && !Kills(blocks[p[k]], v))
    && Exposed(blocks[p[|p| - 1]], v)
  }

  ghost predicate LiveIn(blocks: seq<Block>, succs: Succs, b: nat, v: nat)
    requires |succs| == |blocks|
  {
    exists p: seq<nat> :: Carries(blocks, succs, p, v) && p[0] == b
  }

  ghost predicate LiveOut(blocks: seq<Block>, succs: Succs, b: nat, v: nat)
    requires |succs| == |blocks| && b < |blocks|
  {
    exists s: nat :: s in succs[b] && LiveIn(blocks, succs, s, v)
  }

  lemma LiveHere(blocks: seq<Block>, succs: Succs, b: nat, v: nat)
    requires |succs| == |blocks| && b < |blocks|
    requires Exposed(blocks[b], v) || (!Kills(blocks[b], v) && LiveOut(blocks, succs, b, v))
    ensures LiveIn(blocks, succs, b, v)
  {
    if Exposed(blocks[b], v) {
      assert Carries(blocks, succs, [b], v);
    } else {
      var s: nat :| s in succs[b] && LiveIn(blocks, succs, s, v);
      var p: seq<nat> :| Carries(blocks, succs, p, v) && p[0] == s;
      var q := [b] + p;
      forall k | 0 <= k < |q| - 1
        ensures q[k + 1] in succs[q[k]] && !Kills(blocks[q[k]], v)
      {
        if k > 0 {
          assert q[k] == p[k - 1] && q[k + 1] == p[k - 1 + 1];
        }
      }
      assert Carries(blocks, succs, q, v);
    }
  }

  // ----- the equations -----

  /** What the first `k` successors need. */
  function Union(live: seq<set<nat>>, list: seq<nat>, k: nat): (s: set<nat>)
    requires k <= |list| && forall j :: 0 <= j < |list| ==> list[j] < |live|
    ensures forall x :: x in s <==> exists j :: 0 <= j < k && x in live[list[j]]
  {
    if k == 0 then {} else Union(live, list, k - 1) + live[list[k - 1]]
  }

  function NewOut(succs: Succs, live: seq<set<nat>>, b: nat): set<nat>
    requires Inside(|live|, succs) && b < |succs|
  {
    Union(live, succs[b], |succs[b]|)
  }

  /** What the sets keep while they grow towards the solution. */
  ghost predicate Growing(blocks: seq<Block>, succs: Succs, into: seq<set<nat>>, out: seq<set<nat>>) {
    && |blocks| == |succs| == |into| == |out| && Inside(|blocks|, succs)
    && (forall b: nat :: b < |blocks| ==> out[b] <= NewOut(succs, into, b))
    && (forall b: nat :: b < |blocks| ==> into[b] <= LiveBefore(blocks[b], NewOut(succs, into, b)))
    && forall b: nat, v: nat :: b < |blocks| && v in into[b] ==> LiveIn(blocks, succs, b, v)
  }

  ghost predicate Settled(blocks: seq<Block>, succs: Succs, into: seq<set<nat>>, out: seq<set<nat>>, b: nat)
    requires |blocks| == |succs| == |into| == |out| && Inside(|blocks|, succs) && b < |blocks|
  {
    out[b] == NewOut(succs, into, b) && into[b] == LiveBefore(blocks[b], NewOut(succs, into, b))
  }

  lemma NewOutGrows(succs: Succs, live: seq<set<nat>>, more: seq<set<nat>>, b: nat)
    requires |live| == |more| && Inside(|live|, succs) && b < |succs|
    requires forall k :: 0 <= k < |live| ==> live[k] <= more[k]
    ensures NewOut(succs, live, b) <= NewOut(succs, more, b)
  {
    forall x | x in NewOut(succs, live, b)
      ensures x in NewOut(succs, more, b)
    {
      var j :| 0 <= j < |succs[b]| && x in live[succs[b][j]];
      assert x in more[succs[b][j]];
    }
  }

  lemma LiveBeforeGrows(block: Block, out: set<nat>, more: set<nat>)
    requires out <= more
    ensures LiveBefore(block, out) <= LiveBefore(block, more)
  {
    forall v | v in LiveBefore(block, out)
      ensures v in LiveBefore(block, more)
    {
      LiveBeforeMeans(block, out, v);
      LiveBeforeMeans(block, more, v);
    }
  }

  lemma NewIsLive(blocks: seq<Block>, succs: Succs, into: seq<set<nat>>, out: seq<set<nat>>, b: nat, v: nat)
    requires Growing(blocks, succs, into, out) && b < |blocks| && v in LiveBefore(blocks[b], NewOut(succs, into, b))
    ensures LiveIn(blocks, succs, b, v)
  {
    LiveBeforeMeans(blocks[b], NewOut(succs, into, b), v);
    if !Exposed(blocks[b], v) {
      var j :| 0 <= j < |succs[b]| && v in into[succs[b][j]];
      assert LiveIn(blocks, succs, succs[b][j], v);
    }
    LiveHere(blocks, succs, b, v);
  }

  lemma GrowingUpdate(blocks: seq<Block>, succs: Succs, into: seq<set<nat>>, out: seq<set<nat>>, b: nat)
    requires Growing(blocks, succs, into, out) && b < |blocks|
    ensures var o := NewOut(succs, into, b);
            Growing(blocks, succs, into[b := LiveBefore(blocks[b], o)], out[b := o])
  {
    hide LiveBefore, LiveIn, NewOut;
    var o := NewOut(succs, into, b);
    var more, outs := into[b := LiveBefore(blocks[b], o)], out[b := o];
    forall c: nat | c < |blocks|
      ensures outs[c] <= NewOut(succs, more, c) && more[c] <= LiveBefore(blocks[c], NewOut(succs, more, c))
    {
      NewOutGrows(succs, into, more, c);
      LiveBeforeGrows(blocks[c], NewOut(succs, into, c), NewOut(succs, more, c));
    }
    forall c: nat, v: nat | c < |blocks| && v in more[c]
      ensures LiveIn(blocks, succs, c, v)
    {
      if c == b {
        NewIsLive(blocks, succs, into, out, b, v);
      }
    }
  }

  /** A fixpoint holds every live value. */
  lemma {:induction false} FixpointComplete(blocks: seq<Block>, succs: Succs, into: seq<set<nat>>, out: seq<set<nat>>, p: seq<nat>, v: nat)
    requires Growing(blocks, succs, into, out) && forall b: nat :: b < |blocks| ==> Settled(blocks, succs, into, out, b)
    requires Carries(blocks, succs, p, v)
    ensures v in into[p[0]]
    decreases |p|
  {
    var b := p[0];
    assert Settled(blocks, succs, into, out, b);
    LiveBeforeMeans(blocks[b], NewOut(succs, into, b), v);
    if |p| > 1 {
      var rest := p[1..];
      forall k | 0 <= k < |rest| - 1
        ensures rest[k + 1] in succs[rest[k]] && !Kills(blocks[rest[k]], v)
      {
        assert rest[k] == p[k + 1] && rest[k + 1] == p[k + 1 + 1];
      }
      FixpointComplete(blocks, succs, into, out, rest, v);
      assert p[0 + 1] in succs[b];
      var j :| 0 <= j < |succs[b]| && succs[b][j] == p[1];
      assert v in into[succs[b][j]];
    }
  }

  /** At a fixpoint, the sets are exactly the live values. */
  lemma FixpointExact(blocks: seq<Block>, succs: Succs, into: seq<set<nat>>, out: seq<set<nat>>, b: nat, v: nat)
    requires Growing(blocks, succs, into, out) && forall b: nat :: b < |blocks| ==> Settled(blocks, succs, into, out, b)
    requires b < |blocks|
    ensures v in into[b] <==> LiveIn(blocks, succs, b, v)
    ensures v in out[b] <==> LiveOut(blocks, succs, b, v)
  {
    FixpointIn(blocks, succs, into, out, b, v);
    assert Settled(blocks, succs, into, out, b);
    forall j | 0 <= j < |succs[b]|
      ensures v in into[succs[b][j]] <==> LiveIn(blocks, succs, succs[b][j], v)
    {
      FixpointIn(blocks, succs, into, out, succs[b][j], v);
    }
  }

  lemma FixpointIn(blocks: seq<Block>, succs: Succs, into: seq<set<nat>>, out: seq<set<nat>>, b: nat, v: nat)
    requires Growing(blocks, succs, into, out) && forall b: nat :: b < |blocks| ==> Settled(blocks, succs, into, out, b)
    requires b < |blocks|
    ensures v in into[b] <==> LiveIn(blocks, succs, b, v)
  {
    if LiveIn(blocks, succs, b, v) {
      var p: seq<nat> :| Carries(blocks, succs, p, v) && p[0] == b;
      FixpointComplete(blocks, succs, into, out, p, v);
    }
  }

  // ----- the algorithm -----

  /** Every value that some instruction reads. */
  function Read(ops: seq<Instruction>): set<nat> {
    if ops == [] then {} else (set x | x in ops[0].operands) + Read(ops[1..])
  }

  function Universe(blocks: seq<Block>): set<nat> {
    if blocks == [] then {} else Read(blocks[0].operations) + Universe(blocks[1..])
  }

  lemma {:induction false} ReadContains(ops: seq<Instruction>, k: nat, v: nat)
    requires k < |ops| && v in ops[k].operands
    ensures v in Read(ops)
  {
    if k > 0 {
      assert ops[1..][k - 1] == ops[k];
      ReadContains(ops[1..], k - 1, v);
    }
  }

  lemma {:induction false} UniverseContains(blocks: seq<Block>, b: nat, v: nat)
    requires b < |blocks| && v in Read(blocks[b].operations)
    ensures v in Universe(blocks)
  {
    if b > 0 {
      assert blocks[1..][b - 1] == blocks[b];
      UniverseContains(blocks[1..], b - 1, v);
    }
  }

  lemma LiveIsRead(blocks: seq<Block>, succs: Succs, b: nat, v: nat)
    requires |succs| == |blocks| && LiveIn(blocks, succs, b, v)
    ensures v in Universe(blocks)
  {
    var p: seq<nat> :| Carries(blocks, succs, p, v) && p[0] == b;
    var last := p[|p| - 1];
    var n: nat :| UsedAt(blocks[last], v, 0, n);
    ReadContains(blocks[last].operations, n, v);
    UniverseContains(blocks, last, v);
  }

  /** How much the sets can still grow. */
  function Room(all: set<nat>, d: seq<set<nat>>): seq<set<nat>> {
    seq(|d|, k requires 0 <= k < |d| => all - d[k])
  }

  lemma RoomShrinks(all: set<nat>, d: seq<set<nat>>, b: nat, s: set<nat>)
    requires b < |d| && d[b] <= s <= all
    ensures Total(Room(all, d[b := s])) <= Total(Room(all, d))
    ensures d[b] != s ==> Total(Room(all, d[b := s])) < Total(Room(all, d))
  {
    if d[b] != s {
      var x :| x in s && x !in d[b];
      assert all - s < all - d[b] by {
        assert x in all - d[b] && x !in all - s;
      }
      TotalShrinks(Room(all, d), b, all - s);
      assert Room(all, d[b := s]) == Room(all, d)[b := all - s];
    } else {
      assert d[b := s] == d;
    }
  }

  /** The new sets of a block are larger, and hold only values that are read somewhere. */
  lemma NewWithin(blocks: seq<Block>, succs: Succs, into: seq<set<nat>>, out: seq<set<nat>>, b: nat)
    requires Growing(blocks, succs, into, out) && b < |blocks|
    ensures var o := NewOut(succs, into, b);
            out[b] <= o <= Universe(blocks) && into[b] <= LiveBefore(blocks[b], o) <= Universe(blocks)
  {
    hide LiveBefore, LiveIn;
    var o := NewOut(succs, into, b);
    forall v | v in o
      ensures v in Universe(blocks)
    {
      var j :| 0 <= j < |succs[b]| && v in into[succs[b][j]];
      LiveIsRead(blocks, succs, succs[b][j], v);
    }
    forall v | v in LiveBefore(blocks[b], o)
      ensures v in Universe(blocks)
    {
      NewIsLive(blocks, succs, into, out, b, v);
      LiveIsRead(blocks, succs, b, v);
    }
  }

  function Slack(blocks: seq<Block>, into: seq<set<nat>>, out: seq<set<nat>>): nat {
    Total(Room(Universe(blocks), into)) + Total(Room(Universe(blocks), out))
  }

  class DataFlow {
    var into: seq<set<nat>>
    var out: seq<set<nat>>

    constructor ()
    {
      into, out := [], [];
    }

    method RunLiveness(g: Graph)
      requires Inside(|g.blocks|, g.successors) && |g.successors| == |g.blocks|
      modifies this
      ensures |into| == |out| == |g.blocks|
      ensures forall b: nat, v: nat :: b < |g.blocks| ==>
                && (v in into[b] <==> LiveIn(g.blocks, g.successors, b, v))
                && (v in out[b] <==> LiveOut(g.blocks, g.successors, b, v))
    {
      var blocks, succs := g.blocks, g.successors;
      into := seq(|blocks|, k => {});
      out := seq(|blocks|, k => {});
      var changed := true;
      while changed
        invariant Growing(blocks, succs, into, out)
        invariant !changed ==> forall b: nat :: b < |blocks| ==> Settled(blocks, succs, into, out, b)
        decreases Slack(blocks, into, out), changed
      {
        changed := Sweep(blocks, succs);
      }
      forall b: nat, v: nat | b < |blocks|
        ensures (v in into[b] <==> LiveIn(blocks, succs, b, v)) && (v in out[b] <==> LiveOut(blocks, succs, b, v))
      {
        FixpointExact(blocks, succs, into, out, b, v);
      }
    }

    method Sweep(blocks: seq<Block>, succs: Succs) returns (changed: bool)
      requires Growing(blocks, succs, into, out)
      modifies this
      ensures Growing(blocks, succs, into, out)
      ensures if changed then Slack(blocks, into, out) < old(Slack(blocks, into, out))
              else into == old(into) && out == old(out)
      ensures !changed ==> forall b: nat :: b < |blocks| ==> Settled(blocks, succs, into, out, b)
    {
      hide Growing, LiveBefore, NewOut, Slack;
      changed := false;
      GrowingLengths(blocks, succs, into, out);
      var k: nat := |blocks|;
      while k > 0
        invariant k <= |blocks| == |succs| == |into| == |out| && Inside(|blocks|, succs) && Growing(blocks, succs, into, out)
        invariant if changed then Slack(blocks, into, out) < old(Slack(blocks, into, out))
                  else into == old(into) && out == old(out)
        invariant !changed ==> forall b: nat :: k <= b < |blocks| ==> Settled(blocks, succs, into, out, b)
      {
        k := k - 1;
        var needed := UniteSuccessors(succs, k);
        var live := TransferBlock(blocks[k], needed);
        if live != into[k] || needed != out[k] {
          SlackShrinks(blocks, succs, into, out, k);
          GrowingUpdate(blocks, succs, into, out, k);
          into, out := into[k := live], out[k := needed];
          changed := true;
        }
      }
    }

    method UniteSuccessors(succs: Succs, b: nat) returns (needed: set<nat>)
      requires Inside(|into|, succs) && b < |succs|
      ensures needed == NewOut(succs, into, b)
    {
      needed := {};
      for j := 0 to |succs[b]|
        invariant needed == Union(into, succs[b], j)
      {
        needed := needed + into[succs[b][j]];
      }
    }
  }

  lemma GrowingLengths(blocks: seq<Block>, succs: Succs, into: seq<set<nat>>, out: seq<set<nat>>)
    requires Growing(blocks, succs, into, out)
    ensures |blocks| == |succs| == |into| == |out| && Inside(|blocks|, succs)
  {
  }

  lemma SlackShrinks(blocks: seq<Block>, succs: Succs, into: seq<set<nat>>, out: seq<set<nat>>, b: nat)
    requires Growing(blocks, succs, into, out) && b < |blocks| && !Settled(blocks, succs, into, out, b)
    ensures var o := NewOut(succs, into, b);
            Slack(blocks, into[b := LiveBefore(blocks[b], o)], out[b := o]) < Slack(blocks, into, out)
  {
    hide Growing, LiveBefore, NewOut;
    GrowingLengths(blocks, succs, into, out);
    NewWithin(blocks, succs, into, out, b);
    var o := NewOut(succs, into, b);
    RoomShrinks(Universe(blocks), into, b, LiveBefore(blocks[b], o));
    RoomShrinks(Universe(blocks), out, b, o);
  }
}
