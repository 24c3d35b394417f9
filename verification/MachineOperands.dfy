/** Loading operands into registers, counting their uses down, and building a result. */
module MachineOperands {
  import opened MachineProgram
  import opened MachineEncoding

  // ----- operands -----

  predicate Available(e: Encoding, id: nat) {
    Located(e, id) || id in e.stateAddresses || id in e.inputAddresses
  }

  predicate TooWide(operand: Operand) {
    operand.Number? && operand.bits > 0xffff_ffff
  }

  /** Numbers have at most 32 bits. */
  predicate SourcesFit(operands: seq<Operand>) {
    forall j :: 0 <= j < |operands| && operands[j].Number? ==> operands[j].bits <= 4294967295
  }

  predicate OnlyPins(e: Encoding, e': Encoding, r: nat) {
    |e'.pinned| == |e.pinned| && forall q: nat :: q < |e.pinned| && e'.pinned[q] ==> e.pinned[q] || q == r
  }

  ghost predicate OnlyLocates(e: Encoding, e': Encoding, operand: Operand) {
    && (forall id: nat :: Located(e', id) ==> Located(e, id) || operand == Virtual(id))
    && (forall id: nat :: id in e'.registers ==> id in e.registers || operand == Virtual(id))
  }

  /** The word that reloads a value that no register holds. */
  function ReloadWord(e: Encoding, id: nat, r: nat): Word
    requires Available(e, id) && id !in e.registers
  {
    if id in e.spills then LoadSlot(r, e.spills[id])
    else if id in e.stateAddresses then LoadState(r, e.stateAddresses[id])
    else LoadSlot(r, e.inputAddresses[id])
  }

  lemma ReloadReads(t: Target, values: map<nat, nat>, e: Encoding, pending: set<nat>, id: nat, r: nat)
    requires MemoryValid(e) && Holds(t, values, e, pending) && Available(e, id) && id !in e.registers
    ensures id in values && AddressBelow(ReloadWord(e, id, r), |e.bindings|)
    ensures Step(t, e.bindings, Now(t, e), ReloadWord(e, id, r)) == Put(Now(t, e), r, values[id])
  {
    hide Run;
  }

  /** Every register that may be allocated is held, or pinned. */
  predicate Exhausted(e: Encoding, first: nat, held: set<nat>) {
    forall r: nat :: first <= r < |e.used| && r < |e.pinned| ==> e.used[r] && (r in held || e.pinned[r])
  }

  /** Register `r` was taken for a use of its own; contents of registers did not change. */
  ghost predicate Freed(t: Target, values: map<nat, nat>, e: Encoding, e': Encoding, first: nat, held: set<nat>, pending: set<nat>, r: nat) {
    && Valid(e', first, held + {r}) && Holds(t, values, e', pending) && r !in held
    && Frame(t, e, e') && first <= r < |e'.used| && !Safe(e, r)
    && e'.pinned == e.pinned && Now(t, e').registers == Now(t, e).registers
    && (forall id :: id in e'.registers ==> id in e.registers && e'.registers[id] == e.registers[id])
    && (forall id :: Located(e', id) ==> Located(e, id))
  }

  lemma FileSizes(e: Encoding, first: nat, held: set<nat>)
    requires FileValid(e, first, held)
    ensures |e.used| == |e.pinned| && first <= |e.used|
  {
  }

  lemma UsedAssigned(e: Encoding, first: nat, held: set<nat>, id: nat)
    requires FileValid(e, first, held) && id in e.registers
    ensures first <= e.registers[id] < |e.used| == |e.pinned| && e.used[e.registers[id]]
  {
    assert Assigned(e, e.registers[id]);
  }

  lemma RegistersInFile(e: Encoding, first: nat, held: set<nat>)
    requires FileValid(e, first, held)
    ensures forall id :: id in e.registers ==> e.registers[id] < |e.pinned|
  {
  }

  lemma TakenFrees(t: Target, values: map<nat, nat>, e: Encoding, first: nat, held: set<nat>, pending: set<nat>, r: nat)
    requires Valid(e, first, held) && Holds(t, values, e, pending) && first <= r < |e.used| && !e.used[r]
    ensures Freed(t, values, e, e.(used := e.used[r := true]), first, held, pending, r)
  {
    hide HoldsIn, MemoryValid, FileValid, Run, Frame;
    TakenValid(t, values, e, first, held, pending, r);
    assert forall id: nat :: Located(e.(used := e.used[r := true]), id) <==> Located(e, id);
  }

  lemma EvictedFrees(t: Target, values: map<nat, nat>, e: Encoding, first: nat, held: set<nat>, pending: set<nat>, victim: nat)
    requires Valid(e, first, held) && Holds(t, values, e, pending)
    requires victim in e.registers && e.registers[victim] < |e.pinned| && !e.pinned[e.registers[victim]]
    requires forall id :: id in pending && id in e.registers ==> Safe(e, e.registers[id])
    ensures Freed(t, values, e, Evicted(e, victim), first, held, pending, e.registers[victim])
  {
    hide HoldsIn, MemoryValid, FileValid, Run, Frame;
    EvictedValid(t, values, e, first, held, pending, victim);
    EvictedFrame(t, e, victim);
    UsedAssigned(e, first, held, victim);
  }

  lemma AllPinned(e: Encoding, first: nat, held: set<nat>)
    requires FileValid(e, first, held) && forall r :: first <= r < |e.used| ==> e.used[r]
    requires forall id :: id in e.registers ==> e.registers[id] < |e.pinned| && e.pinned[e.registers[id]]
    ensures Exhausted(e, first, held)
  {
  }

  /** What holds when an operand is in register `r`. */
  ghost predicate Sourced(t: Target, values: map<nat, nat>, e: Encoding, e': Encoding, first: nat, held: set<nat>, operand: Operand, r: nat) {
    && Valid(e', first, if operand.Virtual? then held else held + {r}) && (operand.Virtual? || r !in held)
    && Holds(t, values, e', {}) && Frame(t, e, e') && Safe(e', r) && first <= r
    && Register(Now(t, e'), r) == Meaning(t, values, operand)
    && OnlyPins(e, e', r) && OnlyLocates(e, e', operand) && !TooWide(operand)
    && (operand.Virtual? ==> operand.id in e'.registers && e'.registers[operand.id] == r)
  }

  lemma RegisterHolds(t: Target, values: map<nat, nat>, e: Encoding, m: Machine, pending: set<nat>, id: nat)
    requires HoldsIn(t, values, e, m, pending) && id in e.registers && id !in pending
    ensures id in values && Register(m, e.registers[id]) == values[id]
  {
  }

  lemma SourceFound(t: Target, values: map<nat, nat>, start: Encoding, e: Encoding, first: nat, held: set<nat>, id: nat)
    requires Valid(e, first, held) && Holds(t, values, e, {}) && id in e.registers && e.pinned == start.pinned
    requires e == start || (Frame(t, start, e) && OnlyLocates(start, e, Virtual(id)))
    ensures e.registers[id] < |e.pinned|
    ensures Sourced(t, values, start, e.(pinned := e.pinned[e.registers[id] := true]), first, held, Virtual(id), e.registers[id])
  {
    hide Run, HoldsIn, FileValid, MemoryValid;
    var r := e.registers[id];
    RegisterHolds(t, values, e, Now(t, e), {}, id);
    UsedAssigned(e, first, held, id);
    PinValid(t, values, e, first, held, {}, r);
    FrameSelf(t, start);
    FramePin(t, start, e, r);
  }

  lemma TemporaryReady(t: Target, values: map<nat, nat>, start: Encoding, e: Encoding, first: nat, held: set<nat>, operand: Operand, r: nat)
    requires Valid(e, first, held + {r}) && Holds(t, values, e, {}) && Frame(t, start, e) && e.pinned == start.pinned
    requires forall id :: Located(e, id) ==> Located(start, id)
    requires forall id :: id in e.registers ==> id in start.registers
    ensures r < |e.pinned|
    ensures var e' := e.(pinned := e.pinned[r := true]);
            && Valid(e', first, held + {r}) && Holds(t, values, e', {}) && Frame(t, start, e') && Safe(e', r)
            && OnlyPins(start, e', r) && OnlyLocates(start, e', operand)
  {
    hide Run, HoldsIn, MemoryValid, Frame;
    assert r in held + {r};
    HeldUnassigned(e, first, held + {r}, r);
    PinValid(t, values, e, first, held + {r}, {}, r);
    FramePin(t, start, e, r);
  }

  lemma TemporaryKept(start: Encoding, e: Encoding, e': Encoding, operand: Operand, r: nat)
    requires e' == e.(bindings := e'.bindings) && Safe(e, r) && OnlyPins(start, e, r) && OnlyLocates(start, e, operand)
    ensures Safe(e', r) && OnlyPins(start, e', r) && OnlyLocates(start, e', operand)
  {
    assert forall id: nat :: Located(e', id) <==> Located(e, id);
  }

  lemma NumberReads(t: Target, e: Encoding, r: nat, bits: nat)
    ensures Step(t, e.bindings, Now(t, e), LoadNumber(r, bits)) == Put(Now(t, e), r, bits)
  {
  }

  lemma UnknownReads(t: Target, e: Encoding, r: nat, address: nat, kind: nat)
    requires MemoryValid(e) && address < |e.bindings| && e.bindings[address] == UnknownName(kind)
    ensures Step(t, e.bindings, Now(t, e), LoadSlot(r, address)) == Put(Now(t, e), r, t.slot(UnknownName(kind)))
  {
    if address in Now(t, e).slots {
      WrittenSlots(t, e.bindings, e.words, address);
    }
  }

  lemma PutTemporary(t: Target, values: map<nat, nat>, start: Encoding, e: Encoding, first: nat, held: set<nat>, word: Word, r: nat, operand: Operand)
    requires Valid(e, first, held + {r}) && r !in held && Holds(t, values, e, {}) && Frame(t, start, e) && !Safe(start, r) && Safe(e, r)
    requires !operand.Virtual? && !TooWide(operand) && AddressBelow(word, |e.bindings|) && !word.StoreSlot? && !word.Finish?
    requires Step(t, e.bindings, Now(t, e), word) == Put(Now(t, e), r, Meaning(t, values, operand))
    requires OnlyPins(start, e, r) && OnlyLocates(start, e, operand)
    ensures Sourced(t, values, start, e.(words := e.words + [word]), first, held, operand, r)
  {
    hide Run, Step, HoldsIn, MemoryValid, Frame;
    HeldUnassigned(e, first, held + {r}, r);
    EmitPut(t, values, e, first, held + {r}, {}, word, r, Meaning(t, values, operand));
    FramePut(t, start, e, word, r, Meaning(t, values, operand));
  }

  lemma HeldUnassigned(e: Encoding, first: nat, held: set<nat>, r: nat)
    requires FileValid(e, first, held) && r in held
    ensures first <= r < |e.used| == |e.pinned| && e.used[r] && forall id :: id in e.registers ==> e.registers[id] != r
  {
    forall id | id in e.registers
      ensures e.registers[id] != r
    {
      assert Assigned(e, e.registers[id]);
    }
  }

  lemma StillAvailable(t: Target, e: Encoding, e': Encoding, id: nat)
    requires Frame(t, e, e') && Available(e, id) && id !in e.registers
    requires forall a :: a in e'.registers ==> a in e.registers
    ensures Available(e', id) && id !in e'.registers
  {
    hide Run;
  }

  lemma OnlyRegister(e: Encoding, first: nat, held: set<nat>, id: nat)
    requires FileValid(e, first, held) && id in e.registers
    ensures forall a :: a in e.registers && e.registers[a] == e.registers[id] ==> a == id
  {
  }

  lemma LocatesAssigned(start: Encoding, e: Encoding, e': Encoding, id: nat, r: nat)
    requires forall a :: Located(e, a) ==> Located(start, a)
    requires forall a :: a in e.registers ==> a in start.registers
    requires e'.registers == e.registers[id := r] && e'.spills == e.spills
    ensures OnlyLocates(start, e', Virtual(id))
  {
  }

  // ----- all operands of an instruction -----

  function SetOf(list: seq<nat>): set<nat> {
    set x | x in list
  }

  predicate NothingPinned(e: Encoding) {
    forall r: nat :: r < |e.pinned| ==> !e.pinned[r]
  }

  /** The operands are in registers `list`; `temporaries` are those of the literals. */
  ghost predicate Loaded(t: Target, values: map<nat, nat>, start: Encoding, e: Encoding, first: nat,
                         operands: seq<Operand>, list: seq<nat>, temporaries: seq<nat>)
  {
    && Valid(e, first, SetOf(temporaries)) && Holds(t, values, e, {}) && Frame(t, start, e)
    && |list| == |operands| && SourcesFit(operands)
    && (forall x :: x in temporaries ==> x in list)
    && (forall i, j :: 0 <= i < j < |temporaries| ==> temporaries[i] != temporaries[j])
    && (forall r: nat :: r < |e.pinned| && e.pinned[r] ==> r in list)
    && (forall k :: 0 <= k < |list| ==> Safe(e, list[k]) && Register(Now(t, e), list[k]) == Meaning(t, values, operands[k]))
    && (forall k :: 0 <= k < |list| && operands[k].Virtual? ==>
          operands[k].id in e.registers && e.registers[operands[k].id] == list[k])
    && (forall id: nat :: Located(e, id) ==> Located(start, id) || Virtual(id) in operands)
  }

  lemma LoadedFit(t: Target, values: map<nat, nat>, start: Encoding, e: Encoding, first: nat, operands: seq<Operand>,
                  list: seq<nat>, temporaries: seq<nat>)
    requires Loaded(t, values, start, e, first, operands, list, temporaries)
    ensures SourcesFit(operands)
  {
    hide Run, HoldsIn, FileValid, MemoryValid;
  }

  lemma NothingLoaded(t: Target, values: map<nat, nat>, e: Encoding, first: nat)
    requires Valid(e, first, {}) && Holds(t, values, e, {}) && NothingPinned(e)
    ensures Loaded(t, values, e, e, first, [], [], [])
  {
    hide Run, HoldsIn, FileValid, MemoryValid;
    assert SetOf([]) == {};
    FrameSelf(t, e);
  }

  lemma LoadedReady(t: Target, values: map<nat, nat>, start: Encoding, e: Encoding, first: nat, operands: seq<Operand>,
                    k: nat, list: seq<nat>, temporaries: seq<nat>)
    requires k < |operands| && Loaded(t, values, start, e, first, operands[..k], list, temporaries)
    requires operands[k].Virtual? ==> Available(start, operands[k].id)
    ensures Valid(e, first, SetOf(temporaries)) && Holds(t, values, e, {})
    ensures operands[k].Virtual? ==> Available(e, operands[k].id)
  {
    hide Run, HoldsIn, FileValid, MemoryValid;
  }

  /** A list that covers a range is at least as long as the range. */
  lemma {:induction false} RangeCovered(list: seq<nat>, lo: nat, hi: nat)
    requires lo <= hi && forall r: nat :: lo <= r < hi ==> r in list
    ensures hi - lo <= |list|
    decreases hi
  {
    if lo < hi {
      var top: nat := hi - 1;
      assert top in list;
      var k :| 0 <= k < |list| && list[k] == top;
      var rest := list[..k] + list[k + 1..];
      forall r: nat | lo <= r < hi - 1
        ensures r in rest
      {
        assert r in list;
        var j :| 0 <= j < |list| && list[j] == r;
        assert rest[if j < k then j else j - 1] == r;
      }
      RangeCovered(rest, lo, hi - 1);
    }
  }

  lemma ExhaustedBy(e: Encoding, first: nat, held: set<nat>, list: seq<nat>)
    requires Exhausted(e, first, held) && |e.used| == |e.pinned| && first <= |e.used|
    requires forall r: nat :: r in held || (r < |e.pinned| && e.pinned[r]) ==> r in list
    ensures |e.used| - first <= |list|
  {
    RangeCovered(list, first, |e.used|);
  }

  lemma SourceFails(start: Encoding, e: Encoding, e': Encoding, first: nat, operands: seq<Operand>, k: nat,
                    list: seq<nat>, temporaries: seq<nat>, t: Target, values: map<nat, nat>)
    requires k < |operands| && Loaded(t, values, start, e, first, operands[..k], list, temporaries)
    requires Exhausted(e, first, SetOf(temporaries)) || TooWide(operands[k])
    ensures |start.used| - first < |operands| || !SourcesFit(operands)
  {
    hide Run, HoldsIn, MemoryValid;
    if !TooWide(operands[k]) {
      ExhaustedBy(e, first, SetOf(temporaries), list);
    }
  }

  lemma FramePins(t: Target, e: Encoding, e': Encoding)
    requires Frame(t, e, e')
    ensures |e'.pinned| == |e.pinned| && |e'.used| == |e.used| && forall r: nat :: Safe(e, r) ==> Safe(e', r)
  {
  }

  lemma LoadedMore(t: Target, values: map<nat, nat>, start: Encoding, e: Encoding, e': Encoding, first: nat, operands: seq<Operand>,
                   k: nat, list: seq<nat>, temporaries: seq<nat>, r: nat)
    requires k < |operands| && Loaded(t, values, start, e, first, operands[..k], list, temporaries)
    requires Sourced(t, values, e, e', first, SetOf(temporaries), operands[k], r)
    ensures Loaded(t, values, start, e', first, operands[..k + 1], list + [r],
                   if operands[k].Virtual? then temporaries else temporaries + [r])
  {
    hide Run, HoldsIn, FileValid, MemoryValid, Slot, Frame, Located, Safe, Meaning;
    FrameTransitive(t, start, e, e');
    FramePins(t, e, e');
    var more := if operands[k].Virtual? then temporaries else temporaries + [r];
    assert SetOf(temporaries + [r]) == SetOf(temporaries) + {r};
    LoadedLater(t, values, start, e, e', first, operands, k, list, temporaries, r);
    LoadedLocates(start, e, e', operands, k);
  }

  lemma LoadedLocates(start: Encoding, e: Encoding, e': Encoding, operands: seq<Operand>, k: nat)
    requires k < |operands| && OnlyLocates(e, e', operands[k])
    requires forall id: nat :: Located(e, id) ==> Located(start, id) || Virtual(id) in operands[..k]
    ensures forall id: nat :: Located(e', id) ==> Located(start, id) || Virtual(id) in operands[..k + 1]
  {
    hide Located;
    var longer := operands[..k + 1];
    assert longer[..k] == operands[..k] && longer[k] == operands[k];
    forall id: nat | Located(e', id)
      ensures Located(start, id) || Virtual(id) in longer
    {
      if Located(e, id) && !Located(start, id) {
        assert Virtual(id) in operands[..k];
        var j :| 0 <= j < k && operands[..k][j] == Virtual(id);
        assert longer[j] == Virtual(id);
      }
    }
  }

  lemma LoadedLater(t: Target, values: map<nat, nat>, start: Encoding, e: Encoding, e': Encoding, first: nat, operands: seq<Operand>,
                    k: nat, list: seq<nat>, temporaries: seq<nat>, r: nat)
    requires k < |operands| && Loaded(t, values, start, e, first, operands[..k], list, temporaries)
    requires Sourced(t, values, e, e', first, SetOf(temporaries), operands[k], r)
    ensures var longer, all := operands[..k + 1], list + [r];
            forall j :: 0 <= j < |all| ==>
              && Safe(e', all[j]) && Register(Now(t, e'), all[j]) == Meaning(t, values, longer[j])
              && (longer[j].Virtual? ==> longer[j].id in e'.registers && e'.registers[longer[j].id] == all[j])
  {
    hide Run, HoldsIn, FileValid, MemoryValid, Slot;
    var longer, all := operands[..k + 1], list + [r];
    forall j | 0 <= j < |all|
      ensures Safe(e', all[j]) && Register(Now(t, e'), all[j]) == Meaning(t, values, longer[j])
      ensures longer[j].Virtual? ==> longer[j].id in e'.registers && e'.registers[longer[j].id] == all[j]
    {
      if j < k {
        assert longer[j] == operands[..k][j] && all[j] == list[j];
        assert Safe(e, list[j]);
      }
    }
  }

  // ----- reference counts -----

  function References(e: Encoding, id: nat): nat {
    if id in e.references then e.references[id] else 0
  }

  function Uses(operands: seq<Operand>, id: nat): nat {
    if operands == [] then 0 else Uses(operands[..|operands| - 1], id) + if operands[|operands| - 1] == Virtual(id) then 1 else 0
  }

  lemma {:induction false} UsesPrefix(operands: seq<Operand>, k: nat, id: nat)
    requires k <= |operands|
    ensures Uses(operands[..k], id) <= Uses(operands, id)
    decreases |operands|
  {
    if k < |operands| {
      var front := operands[..|operands| - 1];
      assert front[..k] == operands[..k];
      UsesPrefix(front, k, id);
    } else {
      assert operands[..k] == operands;
    }
  }

  lemma UsesSplit(operands: seq<Operand>, k: nat)
    requires k < |operands|
    ensures forall id: nat :: Uses(operands[..k], id) + (if operands[k] == Virtual(id) then 1 else 0) <= Uses(operands, id)
  {
    assert operands[..k + 1][..k] == operands[..k];
    forall id: nat
      ensures Uses(operands[..k], id) + (if operands[k] == Virtual(id) then 1 else 0) <= Uses(operands, id)
    {
      UsesPrefix(operands, k + 1, id);
    }
  }

  /** The encoding without a value in its register and its spill slot. */
  function Without(e: Encoding, id: nat): Encoding
    requires id in e.registers ==> e.registers[id] < |e.used|
  {
    e.(used := if id in e.registers then e.used[e.registers[id] := false] else e.used,
       registers := e.registers - {id}, spills := e.spills - {id})
  }

  ghost predicate Forgot(e: Encoding, e': Encoding, id: nat) {
    (id in e.registers ==> e.registers[id] < |e.used|) && e' == Without(e, id)
  }

  /** One use less; the value is forgotten when none is left. */
  ghost predicate CountedDown(e: Encoding, e': Encoding, id: nat) {
    && References(e, id) > 0
    && var e1 := e.(references := e.references[id := References(e, id) - 1]);
       if References(e, id) == 1 then Forgot(e1, e', id) else e' == e1
  }

  /** One value was used `uses` times: it is where it was while uses are left, and nowhere when none is. */
  ghost predicate ReleasedAt(e: Encoding, e': Encoding, id: nat, uses: nat) {
    && References(e', id) + uses == References(e, id)
    && (Located(e', id) <==> Located(e, id) && (uses > 0 ==> References(e', id) > 0))
    && (id in e'.registers ==> id in e.registers && e'.registers[id] == e.registers[id])
    && (id in e.registers && (uses == 0 || References(e', id) > 0) ==> id in e'.registers)
  }

  /** From `e` to `e'`, the operands were released. */
  ghost predicate Released(e: Encoding, e': Encoding, operands: seq<Operand>) {
    && e'.stateAddresses == e.stateAddresses && e'.inputAddresses == e.inputAddresses && e'.pendingWrites == e.pendingWrites
    && e'.bindings == e.bindings && e'.words == e.words && |e'.used| == |e.used| && e'.pinned == e.pinned
    && (forall id: nat :: ReleasedAt(e, e', id, Uses(operands, id)))
  }

  lemma ReferenceLeft(start: Encoding, e: Encoding, operands: seq<Operand>, k: nat)
    requires k < |operands| && operands[k].Virtual? && Released(start, e, operands[..k])
    requires References(start, operands[k].id) >= Uses(operands, operands[k].id)
    ensures References(e, operands[k].id) > 0
  {
    UsesSplit(operands, k);
    assert ReleasedAt(start, e, operands[k].id, Uses(operands[..k], operands[k].id));
  }

  lemma ReleasedNothing(e: Encoding, e': Encoding)
    requires e' == e.(used := e'.used) && |e'.used| == |e.used|
    ensures Released(e, e', [])
  {
  }

  lemma UsesMore(operands: seq<Operand>, operand: Operand, id: nat)
    ensures Uses(operands + [operand], id) == Uses(operands, id) + if operand == Virtual(id) then 1 else 0
  {
    var all := operands + [operand];
    assert all[..|all| - 1] == operands;
  }

  lemma CountedDownAt(e: Encoding, e': Encoding, operand: nat, id: nat)
    requires CountedDown(e, e', operand)
    ensures ReleasedAt(e, e', id, if id == operand then 1 else 0)
  {
  }

  lemma ReleasedTwice(start: Encoding, e: Encoding, e': Encoding, id: nat, uses: nat, more: nat)
    requires ReleasedAt(start, e, id, uses) && ReleasedAt(e, e', id, more)
    ensures ReleasedAt(start, e', id, uses + more)
  {
  }

  lemma ReleasedMore(start: Encoding, e: Encoding, e': Encoding, operands: seq<Operand>, operand: Operand)
    requires Released(start, e, operands)
    requires if operand.Virtual? then CountedDown(e, e', operand.id) else e' == e
    ensures Released(start, e', operands + [operand])
  {
    hide ReleasedAt, Uses;
    var all := operands + [operand];
    forall id: nat
      ensures ReleasedAt(start, e', id, Uses(all, id))
    {
      UsesMore(operands, operand, id);
      assert ReleasedAt(start, e, id, Uses(operands, id));
      if operand.Virtual? {
        CountedDownAt(e, e', operand.id, id);
        ReleasedTwice(start, e, e', id, Uses(operands, id), if id == operand.id then 1 else 0);
      }
    }
  }

  lemma ReferencesDoNotMatter(t: Target, values: map<nat, nat>, e: Encoding, e': Encoding, first: nat)
    requires Valid(e, first, {}) && Holds(t, values, e, {}) && e' == e.(references := e'.references)
    ensures Valid(e', first, {}) && Holds(t, values, e', {})
  {
    hide Run, HoldsIn, FileValid, MemoryValid;
    FileSame(e, e', first, {});
    SamePlacesHold(t, values, e, e', {});
  }

  lemma UnheldValid(t: Target, values: map<nat, nat>, e: Encoding, first: nat, temporaries: seq<nat>, k: nat)
    requires k < |temporaries| && Valid(e, first, SetOf(temporaries[k..])) && Holds(t, values, e, {})
    requires forall i, j :: 0 <= i < j < |temporaries| ==> temporaries[i] != temporaries[j]
    ensures temporaries[k] < |e.used|
    ensures var e' := e.(used := e.used[temporaries[k] := false]);
            Valid(e', first, SetOf(temporaries[k + 1..])) && Holds(t, values, e', {})
  {
    hide Run, HoldsIn, FileValid, MemoryValid;
    var r := temporaries[k];
    assert r in SetOf(temporaries[k..]) by {
      assert temporaries[k..][0] == r;
    }
    assert SetOf(temporaries[k + 1..]) == SetOf(temporaries[k..]) - {r} by {
      assert temporaries[k..] == [r] + temporaries[k + 1..];
    }
    UnheldFile(e, first, SetOf(temporaries[k..]), r);
    SamePlacesHold(t, values, e, e.(used := e.used[r := false]), {});
  }

  lemma UnheldFile(e: Encoding, first: nat, held: set<nat>, r: nat)
    requires FileValid(e, first, held) && r in held
    ensures r < |e.used| && FileValid(e.(used := e.used[r := false]), first, held - {r})
  {
    var e' := e.(used := e.used[r := false]);
    forall q: nat
      ensures Assigned(e', q) <==> Assigned(e, q)
    {
    }
  }

  lemma ForgetFile(e: Encoding, first: nat, id: nat)
    requires FileValid(e, first, {})
    ensures (id in e.registers ==> e.registers[id] < |e.used|) && FileValid(Without(e, id), first, {})
  {
    var e' := Without(e, id);
    forall q: nat
      ensures Assigned(e', q) <==> Assigned(e, q) && !(id in e.registers && e.registers[id] == q)
    {
      if Assigned(e, q) && !(id in e.registers && e.registers[id] == q) {
        var a :| a in e.registers && e.registers[a] == q;
        assert a in e'.registers && e'.registers[a] == q;
      }
      if Assigned(e', q) {
        var a :| a in e'.registers && e'.registers[a] == q;
        assert a in e.registers && e.registers[a] == q;
      }
    }
  }

  lemma ForgetHolds(t: Target, values: map<nat, nat>, e: Encoding, m: Machine, id: nat)
    requires HoldsIn(t, values, e, m, {}) && (id in e.registers ==> e.registers[id] < |e.used|)
    ensures HoldsIn(t, values, Without(e, id), m, {})
  {
  }

  lemma ForgetMemory(e: Encoding, id: nat)
    requires MemoryValid(e) && (id in e.registers ==> e.registers[id] < |e.used|)
    ensures MemoryValid(Without(e, id))
  {
  }

  lemma ForgetValid(t: Target, values: map<nat, nat>, e: Encoding, first: nat, id: nat)
    requires Valid(e, first, {}) && Holds(t, values, e, {})
    ensures (id in e.registers ==> e.registers[id] < |e.used|)
    ensures Valid(Without(e, id), first, {}) && Holds(t, values, Without(e, id), {})
  {
    hide Run, FileValid, HoldsIn, MemoryValid;
    ForgetFile(e, first, id);
    ForgetMemory(e, id);
    ForgetHolds(t, values, e, Now(t, e), id);
  }

  // ----- building a result -----

  /** A register was given to value `id`; its contents are still to be written. */
  ghost predicate ResultReady(t: Target, values: map<nat, nat>, start: Encoding, e: Encoding, first: nat, held: set<nat>, id: nat, r: nat) {
    && Valid(e, first, held) && Holds(t, values, e, {id}) && Frame(t, start, e) && id in e.registers && e.registers[id] == r
    && !Safe(start, r) && e.pinned == start.pinned && Now(t, e).registers == Now(t, start).registers
    && OnlyLocates(start, e, Virtual(id))
  }

  lemma ResultIsReady(t: Target, values: map<nat, nat>, start: Encoding, e: Encoding, first: nat, held: set<nat>, id: nat, r: nat)
    requires Valid(e, first, held) && Holds(t, values, e, {} + {id}) && Frame(t, start, e) && id in e.registers && e.registers[id] == r
    requires !Safe(start, r) && e.pinned == start.pinned && Now(t, e).registers == Now(t, start).registers
    requires OnlyLocates(start, e, Virtual(id))
    ensures ResultReady(t, values, start, e, first, held, id, r)
  {
    assert {} + {id} == {id};
  }

  /** Operands are in pinned registers `list`, the result has a pinned register, and `scratch` registers hold `contents`. */
  ghost predicate Building(t: Target, values: map<nat, nat>, start: Encoding, e: Encoding, first: nat, operands: seq<Operand>,
                           list: seq<nat>, temporaries: seq<nat>, result: nat, scratch: seq<nat>, contents: seq<nat>)
  {
    && Valid(e, first, SetOf(temporaries) + SetOf(scratch)) && Holds(t, values, e, {result}) && Frame(t, start, e)
    && NothingPinned(start) && |list| == |operands| && |contents| == |scratch|
    && result in e.registers && Safe(e, e.registers[result]) && e.registers[result] !in list
    && (forall x :: x in temporaries ==> x in list)
    && (forall i, j :: 0 <= i < j < |temporaries| ==> temporaries[i] != temporaries[j])
    && (forall r: nat :: r < |e.pinned| && e.pinned[r] ==> r in list || r == e.registers[result])
    && (forall k :: 0 <= k < |list| ==> Safe(e, list[k]) && Register(Now(t, e), list[k]) == Meaning(t, values, operands[k]))
    && (forall j :: 0 <= j < |scratch| ==>
          scratch[j] !in list && scratch[j] != e.registers[result] && Register(Now(t, e), scratch[j]) == contents[j])
    && (forall i, j :: 0 <= i < j < |scratch| ==> scratch[i] != scratch[j])
    && (forall id: nat :: Located(e, id) ==> Located(start, id) || Virtual(id) in operands || id == result)
  }

  lemma BuildingBasics(t: Target, values: map<nat, nat>, start: Encoding, e: Encoding, first: nat, operands: seq<Operand>,
                       list: seq<nat>, temporaries: seq<nat>, result: nat, scratch: seq<nat>, contents: seq<nat>)
    requires Building(t, values, start, e, first, operands, list, temporaries, result, scratch, contents)
    ensures Valid(e, first, SetOf(temporaries) + SetOf(scratch)) && Holds(t, values, e, {result})
    ensures result in e.registers && Safe(e, e.registers[result]) && |e.used| == |e.pinned| && first <= |e.used|
  {
    hide Run, HoldsIn, MemoryValid;
  }

  lemma BuildingExhausted(t: Target, values: map<nat, nat>, start: Encoding, e: Encoding, first: nat, operands: seq<Operand>,
                          list: seq<nat>, temporaries: seq<nat>, result: nat, scratch: seq<nat>, contents: seq<nat>)
    requires Building(t, values, start, e, first, operands, list, temporaries, result, scratch, contents)
    requires Exhausted(e, first, SetOf(temporaries) + SetOf(scratch))
    ensures |e.used| - first <= |list| + 1 + |scratch|
  {
    hide Run, HoldsIn, MemoryValid;
    ExhaustedBy(e, first, SetOf(temporaries) + SetOf(scratch), list + [e.registers[result]] + scratch);
  }

  lemma BuildingTakes(t: Target, values: map<nat, nat>, start: Encoding, e: Encoding, e': Encoding, first: nat, operands: seq<Operand>,
                      list: seq<nat>, temporaries: seq<nat>, result: nat, scratch: seq<nat>, contents: seq<nat>, r: nat)
    requires Building(t, values, start, e, first, operands, list, temporaries, result, scratch, contents)
    requires var held := SetOf(temporaries) + SetOf(scratch);
             && Valid(e', first, held + {r}) && Holds(t, values, e', {result}) && r !in held && Frame(t, e, e')
             && !Safe(e, r) && e'.pinned == e.pinned && Now(t, e').registers == Now(t, e).registers
             && (forall id :: id in e'.registers ==> id in e.registers && e'.registers[id] == e.registers[id])
             && (forall id :: Located(e', id) ==> Located(e, id))
    ensures Building(t, values, start, e', first, operands, list, temporaries, result, scratch + [r], contents + [Register(Now(t, e'), r)])
  {
    hide Run, HoldsIn, FileValid, MemoryValid, Slot;
    FrameTransitive(t, start, e, e');
    assert SetOf(temporaries) + SetOf(scratch + [r]) == SetOf(temporaries) + SetOf(scratch) + {r};
  }

  /** Writing a scratch register. */
  lemma BuildingWrites(t: Target, values: map<nat, nat>, start: Encoding, e: Encoding, first: nat, operands: seq<Operand>,
                       list: seq<nat>, temporaries: seq<nat>, result: nat, scratch: seq<nat>, contents: seq<nat>, word: Word, j: nat, value: nat)
    requires Building(t, values, start, e, first, operands, list, temporaries, result, scratch, contents) && j < |scratch|
    requires AddressBelow(word, |e.bindings|) && !word.StoreSlot? && !word.Finish?
    requires Step(t, e.bindings, Now(t, e), word) == Put(Now(t, e), scratch[j], value)
    ensures Building(t, values, start, e.(words := e.words + [word]), first, operands, list, temporaries, result, scratch, contents[j := value])
  {
    hide Run, HoldsIn, MemoryValid, Step, Slot, Frame;
    var held := SetOf(temporaries) + SetOf(scratch);
    assert scratch[j] in held;
    HeldUnassigned(e, first, held, scratch[j]);
    EmitPut(t, values, e, first, held, {result}, word, scratch[j], value);
    FramePut(t, start, e, word, scratch[j], value);
  }

  /** The result and no scratch register yet. */
  lemma BuildingStarts(t: Target, values: map<nat, nat>, start: Encoding, e: Encoding, e': Encoding, first: nat, operands: seq<Operand>,
                       list: seq<nat>, temporaries: seq<nat>, result: nat, r: nat)
    requires Loaded(t, values, start, e, first, operands, list, temporaries) && NothingPinned(start)
    requires ResultReady(t, values, e, e', first, SetOf(temporaries), result, r)
    ensures r < |e'.pinned|
    ensures Building(t, values, start, e'.(pinned := e'.pinned[r := true]), first, operands, list, temporaries, result, [], [])
  {
    hide Run, HoldsIn, MemoryValid, Frame;
    UsedAssigned(e', first, SetOf(temporaries), result);
    PinValid(t, values, e', first, SetOf(temporaries), {result}, r);
    FrameTransitive(t, start, e, e');
    FramePin(t, start, e', r);
    assert SetOf(temporaries) + SetOf([]) == SetOf(temporaries);
    FramePins(t, e, e');
    ResultLocates(start, e, e', operands, result);
  }

  lemma ResultLocates(start: Encoding, e: Encoding, e': Encoding, operands: seq<Operand>, result: nat)
    requires forall id: nat :: Located(e, id) ==> Located(start, id) || Virtual(id) in operands
    requires OnlyLocates(e, e', Virtual(result))
    ensures forall id: nat :: Located(e', id) ==> Located(start, id) || Virtual(id) in operands || id == result
  {
  }

  /** Giving a scratch register back. */
  lemma BuildingDrops(t: Target, values: map<nat, nat>, start: Encoding, e: Encoding, first: nat, operands: seq<Operand>,
                      list: seq<nat>, temporaries: seq<nat>, result: nat, scratch: seq<nat>, contents: seq<nat>, j: nat)
    requires Building(t, values, start, e, first, operands, list, temporaries, result, scratch, contents) && j < |scratch|
    ensures scratch[j] < |e.used|
    ensures Building(t, values, start, e.(used := e.used[scratch[j] := false]), first, operands, list, temporaries, result,
                     scratch[..j] + scratch[j + 1..], contents[..j] + contents[j + 1..])
  {
    hide Run, HoldsIn, FileValid, MemoryValid, Frame;
    var held, r := SetOf(temporaries) + SetOf(scratch), scratch[j];
    assert r in held;
    UnheldFile(e, first, held, r);
    var e' := e.(used := e.used[r := false]);
    assert SetOf(temporaries) + SetOf(scratch[..j] + scratch[j + 1..]) == held - {r} by {
      DroppedSet(temporaries, scratch, j);
    }
    SamePlacesHold(t, values, e, e', {result});
    FrameUnused(t, start, e, e');
    assert forall id: nat :: Located(e', id) <==> Located(e, id);
  }

  lemma DroppedSet(temporaries: seq<nat>, scratch: seq<nat>, j: nat)
    requires j < |scratch| && scratch[j] !in temporaries
    requires forall i, k :: 0 <= i < k < |scratch| ==> scratch[i] != scratch[k]
    ensures SetOf(temporaries) + SetOf(scratch[..j] + scratch[j + 1..]) == SetOf(temporaries) + SetOf(scratch) - {scratch[j]}
  {
    assert scratch == scratch[..j] + [scratch[j]] + scratch[j + 1..];
  }

  /** With nothing pinned at the start, no register was safe. */
  lemma FrameUnused(t: Target, start: Encoding, e: Encoding, e': Encoding)
    requires Frame(t, start, e) && NothingPinned(start) && SamePlaces(e, e') && e'.references == e.references
    requires |e'.used| == |e.used| && |e'.pinned| == |e.pinned|
    ensures Frame(t, start, e')
  {
    hide Run;
    forall id: nat | Located(start, id)
      ensures Located(e', id)
    {
      assert Located(e, id);
    }
  }
}
