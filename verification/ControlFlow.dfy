/** Basic blocks and the control-flow graph between them. */
module ControlFlow {
  import opened TransitionSystem

  datatype Kind = Br(target: string) | CondBr(yes: string, no: string) | Ends | Plain

  /** An instruction defines values and reads values; values are known by number. */
  datatype Instruction = Instruction(kind: Kind, results: seq<nat>, operands: seq<nat>)

  datatype Block = Block(name: string, arguments: seq<nat>, operations: seq<Instruction>)

  /** The last instruction, if it ends the block. */
  function Terminator(block: Block): Option<Kind> {
    if block.operations == [] || block.operations[|block.operations| - 1].kind.Plain? then None
    else Some(block.operations[|block.operations| - 1].kind)
  }

  function TargetNames(block: Block): seq<string> {
    match Terminator(block)
    case Some(Br(target)) => [target]
    case Some(CondBr(yes, no)) => [yes, no]
    case Some(Ends) => []
    case Some(Plain) => []
    case None => []
  }

  /** The last of the first `n` blocks with this name. */
  function Named(blocks: seq<Block>, name: string, n: nat): (r: Option<nat>)
    requires n <= |blocks|
    ensures r.Some? ==> r.value < n && blocks[r.value].name == name
    ensures r.None? ==> forall k :: 0 <= k < n ==> blocks[k].name != name
    ensures r.Some? ==> forall k :: r.value < k < n ==> blocks[k].name != name
  {
    if n == 0 then None
    else if blocks[n - 1].name == name then Some(n - 1)
    else Named(blocks, name, n - 1)
  }

  /** Blocks that the first `n` names refer to; unknown names are passed over. */
  function Resolved(blocks: seq<Block>, names: seq<string>, n: nat): (r: seq<nat>)
    requires n <= |names|
    ensures forall k :: 0 <= k < |r| ==> r[k] < |blocks|
  {
    if n == 0 then []
    else
      var before, found := Resolved(blocks, names, n - 1), Named(blocks, names[n - 1], |blocks|);
      if found.Some? then before + [found.value] else before
  }

  function Targets(blocks: seq<Block>, b: nat): (r: seq<nat>)
    requires b < |blocks|
    ensures forall k :: 0 <= k < |r| ==> r[k] < |blocks|
  {
    Resolved(blocks, TargetNames(blocks[b]), |TargetNames(blocks[b])|)
  }

  // ----- edges, on the text of the blocks -----

  /** The last instruction of block `a` names `name`. */
  predicate Jumps(fn: seq<Block>, a: nat, name: string)
    requires a < |fn|
  {
    var ops := fn[a].operations;
    ops != [] && (ops[|ops| - 1].kind == Br(name)
                  || (ops[|ops| - 1].kind.CondBr? && (ops[|ops| - 1].kind.yes == name || ops[|ops| - 1].kind.no == name)))
  }

  /** Control may pass from `a` to `b`, the last block of a name that `a` jumps to. */
  predicate Flows(fn: seq<Block>, a: nat, b: nat) {
    a < |fn| && b < |fn| && Jumps(fn, a, fn[b].name) && forall k :: b < k < |fn| ==> fn[k].name != fn[b].name
  }

  /** The last block of that name alone, or nothing if no block has it. */
  predicate RefersTo(fn: seq<Block>, name: string, list: seq<nat>) {
    if list == [] then forall k :: 0 <= k < |fn| ==> fn[k].name != name
    else |list| == 1 && list[0] < |fn| && fn[list[0]].name == name && forall k :: list[0] < k < |fn| ==> fn[k].name != name
  }

  /** What a block jumps to: first where it goes if its condition holds, then where it goes otherwise. */
  ghost predicate JumpsInOrder(fn: seq<Block>, a: nat, list: seq<nat>)
    requires a < |fn|
  {
    var ops := fn[a].operations;
    if ops != [] && ops[|ops| - 1].kind.Br? then RefersTo(fn, ops[|ops| - 1].kind.target, list)
    else if ops != [] && ops[|ops| - 1].kind.CondBr? then
      exists yes: seq<nat>, no: seq<nat> ::
        RefersTo(fn, ops[|ops| - 1].kind.yes, yes) && RefersTo(fn, ops[|ops| - 1].kind.no, no) && list == yes + no
    else list == []
  }

  function Found(blocks: seq<Block>, name: string): (r: seq<nat>)
    ensures RefersTo(blocks, name, r)
  {
    var found := Named(blocks, name, |blocks|);
    if found.Some? then [found.value] else []
  }

  lemma FoundMembers(fn: seq<Block>, name: string, b: nat)
    ensures b in Found(fn, name) <==> b < |fn| && fn[b].name == name && forall k :: b < k < |fn| ==> fn[k].name != name
  {
  }

  lemma TargetsOrder(fn: seq<Block>, a: nat)
    requires a < |fn|
    ensures var ops := fn[a].operations;
            Targets(fn, a) ==
            if ops != [] && ops[|ops| - 1].kind.Br? then Found(fn, ops[|ops| - 1].kind.target)
            else if ops != [] && ops[|ops| - 1].kind.CondBr? then Found(fn, ops[|ops| - 1].kind.yes) + Found(fn, ops[|ops| - 1].kind.no)
            else []
  {
    hide Found, Resolved;
    var names := TargetNames(fn[a]);
    if |names| == 1 {
      ResolvedOne(fn, names);
    } else if |names| == 2 {
      ResolvedTwo(fn, names);
    } else {
      ResolvedNone(fn, names);
    }
  }

  /** The targets of a block are those that its last instruction names, in order. */
  lemma TargetsText(fn: seq<Block>, a: nat)
    requires a < |fn|
    ensures JumpsInOrder(fn, a, Targets(fn, a))
    ensures forall b: nat :: b in Targets(fn, a) <==> Flows(fn, a, b)
  {
    hide Found, Targets;
    TargetsOrder(fn, a);
    var ops := fn[a].operations;
    if ops != [] && ops[|ops| - 1].kind.CondBr? {
      assert RefersTo(fn, ops[|ops| - 1].kind.yes, Found(fn, ops[|ops| - 1].kind.yes));
      assert RefersTo(fn, ops[|ops| - 1].kind.no, Found(fn, ops[|ops| - 1].kind.no));
    }
    forall b: nat
      ensures b in Targets(fn, a) <==> Flows(fn, a, b)
    {
      if ops != [] && ops[|ops| - 1].kind.Br? {
        FoundMembers(fn, ops[|ops| - 1].kind.target, b);
      } else if ops != [] && ops[|ops| - 1].kind.CondBr? {
        FoundMembers(fn, ops[|ops| - 1].kind.yes, b);
        FoundMembers(fn, ops[|ops| - 1].kind.no, b);
      }
    }
  }

  lemma ResolvedNone(fn: seq<Block>, names: seq<string>)
    requires names == []
    ensures Resolved(fn, names, 0) == []
  {
  }

  lemma ResolvedOne(fn: seq<Block>, names: seq<string>)
    requires |names| == 1
    ensures Resolved(fn, names, 1) == Found(fn, names[0])
  {
    assert Resolved(fn, names, 0) == [];
  }

  lemma ResolvedTwo(fn: seq<Block>, names: seq<string>)
    requires |names| == 2
    ensures Resolved(fn, names, 2) == Found(fn, names[0]) + Found(fn, names[1])
  {
    assert Resolved(fn, names, 0) == [] && Resolved(fn, names, 1) == Found(fn, names[0]);
  }

  function CountIn(list: seq<nat>, x: nat): nat {
    multiset(list)[x]
  }

  lemma CountAppend(list: seq<nat>, y: nat, x: nat)
    ensures CountIn(list + [y], x) == CountIn(list, x) + if x == y then 1 else 0
  {
    assert multiset(list + [y]) == multiset(list) + multiset{y};
  }

  /** Each edge is recorded at both ends, equally often. */
  ghost predicate Mirrored(n: nat, successors: seq<seq<nat>>, predecessors: seq<seq<nat>>) {
    && |successors| == |predecessors| == n
    && forall a: nat, b: nat :: a < n && b < n ==> CountIn(successors[a], b) == CountIn(predecessors[b], a)
  }

  predicate Inside(n: nat, lists: seq<seq<nat>>) {
    forall b, k :: 0 <= b < |lists| && 0 <= k < |lists[b]| ==> lists[b][k] < n
  }

  ghost predicate NamesBlocks(names: map<string, nat>, blocks: seq<Block>, n: nat)
    requires n <= |blocks|
  {
    forall name: string :: Named(blocks, name, n) == if name in names then Some(names[name]) else None
  }

  method NameBlocks(blocks: seq<Block>) returns (names: map<string, nat>)
    ensures NamesBlocks(names, blocks, |blocks|)
  {
    names := map[];
    for b := 0 to |blocks|
      invariant NamesBlocks(names, blocks, b)
    {
      names := names[blocks[b].name := b];
    }
  }

  class Graph {
    var blocks: seq<Block>
    var successors: seq<seq<nat>>
    var predecessors: seq<seq<nat>>

    /** Lists for `n` blocks that mirror each other. */
    ghost predicate Valid(n: nat)
      reads this
    {
      Mirrored(n, successors, predecessors) && Inside(n, predecessors)
    }

    constructor (fn: seq<Block>)
      ensures blocks == fn && Valid(|fn|) && Inside(|fn|, successors)
      ensures forall a: nat :: a < |fn| ==> JumpsInOrder(fn, a, successors[a])
      ensures forall a: nat, b: nat :: a < |fn| ==> (b in successors[a] <==> Flows(fn, a, b))
    {
      blocks := fn;
      successors := seq(|fn|, k => []);
      predecessors := seq(|fn|, k => []);
      new;
      var names := NameBlocks(fn);
      for b := 0 to |fn|
        invariant blocks == fn && Valid(|fn|)
        invariant forall a :: 0 <= a < |fn| ==> successors[a] == if a < b then Targets(fn, a) else []
      {
        ConnectBlock(names, b);
      }
      forall a: nat | a < |fn|
        ensures JumpsInOrder(fn, a, successors[a]) && forall b: nat :: b in successors[a] <==> Flows(fn, a, b)
      {
        TargetsText(fn, a);
      }
    }

    method ConnectBlock(names: map<string, nat>, b: nat)
      requires Valid(|blocks|) && b < |blocks| && successors[b] == [] && NamesBlocks(names, blocks, |blocks|)
      modifies this`successors, this`predecessors
      ensures Valid(|blocks|) && successors == old(successors)[b := Targets(blocks, b)]
    {
      hide Mirrored, NamesBlocks;
      MirroredLengths(|blocks|, successors, predecessors);
      var targets := TargetNames(blocks[b]);
      for t := 0 to |targets|
        invariant Valid(|blocks|) && successors == old(successors)[b := Resolved(blocks, targets, t)]
      {
        MirroredLengths(|blocks|, successors, predecessors);
        NameFound(names, blocks, targets[t]);
        if targets[t] in names {
          Connect(b, names[targets[t]]);
        }
      }
    }

    method Connect(a: nat, b: nat)
      requires a < |successors| && b < |successors| && Valid(|successors|)
      modifies this`successors, this`predecessors
      ensures successors == old(successors)[a := old(successors[a]) + [b]]
      ensures Valid(|successors|)
    {
      ghost var s, p := successors[a], predecessors[b];
      successors := successors[a := successors[a] + [b]];
      predecessors := predecessors[b := predecessors[b] + [a]];
      forall x: nat, y: nat | x < |successors| && y < |successors|
        ensures CountIn(successors[x], y) == CountIn(predecessors[y], x)
      {
        CountAppend(s, b, y);
        CountAppend(p, a, x);
      }
    }
  }

  lemma MirroredLengths(n: nat, successors: seq<seq<nat>>, predecessors: seq<seq<nat>>)
    requires Mirrored(n, successors, predecessors)
    ensures |successors| == |predecessors| == n
  {
  }

  lemma NameFound(names: map<string, nat>, blocks: seq<Block>, name: string)
    requires NamesBlocks(names, blocks, |blocks|)
    ensures Named(blocks, name, |blocks|) == if name in names then Some(names[name]) else None
  {
  }

  /** A block is a successor exactly of its predecessors. */
  lemma EdgesMirror(n: nat, successors: seq<seq<nat>>, predecessors: seq<seq<nat>>, a: nat, b: nat)
    requires Mirrored(n, successors, predecessors) && a < n && b < n
    ensures b in successors[a] <==> a in predecessors[b]
  {
    assert CountIn(successors[a], b) == CountIn(predecessors[b], a);
    assert b in successors[a] <==> b in multiset(successors[a]);
    assert a in predecessors[b] <==> a in multiset(predecessors[b]);
  }
}
