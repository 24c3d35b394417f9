/** Each instruction of the virtual machine, carried out by words of the emulated one. */
module MachineSteps {
  import opened Bits
  import opened MachineProgram
  import opened MachineEncoding
  import opened MachineOperands
  import opened MachineBoundaries

  // ----- before an instruction -----

  lemma ReadySources(t: Target, block: Block, k: nat, e: Encoding, first: nat)
    requires k < |block.code| && WellFormed(block) && Ready(t, block, k, e, first)
    ensures Valid(e, first, {}) && Holds(t, After(t, block, k).values, e, {}) && NothingPinned(e) && |e.used| == |e.pinned| && first <= |e.used|
    ensures var operands := Sources(block.code[k]);
            |operands| <= 3 && forall j :: 0 <= j < |operands| && operands[j].Virtual? ==> Available(e, operands[j].id)
  {
    hide HoldsIn, MemoryValid, Run, After, Bookkept, Available;
    assert InstructionFormed(block, k);
    AfterDefines(t, block, k);
    var operands := Sources(block.code[k]);
    forall j | 0 <= j < |operands| && operands[j].Virtual?
      ensures Available(e, operands[j].id)
    {
      UsesMember(operands, operands[j].id);
      UsesLeft(block, k, e, operands[j].id);
    }
  }

  /** The result of an instruction is new, so nothing holds it yet. */
  lemma ResultIsNew(t: Target, block: Block, k: nat, e: Encoding)
    requires k < |block.code| && WellFormed(block) && !block.code[k].WriteState?
    requires Holds(t, After(t, block, k).values, e, {})
    ensures block.code[k].result !in After(t, block, k).values && block.code[k].result !in e.registers
    ensures block.code[k].result !in e.spills && block.code[k].result !in After(t, block, k).observed
  {
    hide Run, After;
    assert InstructionFormed(block, k);
    AfterDefines(t, block, k);
  }

  lemma LoadedExhausted(t: Target, values: map<nat, nat>, start: Encoding, e: Encoding, first: nat, operands: seq<Operand>,
                        list: seq<nat>, temporaries: seq<nat>)
    requires Loaded(t, values, start, e, first, operands, list, temporaries) && Exhausted(e, first, SetOf(temporaries))
    ensures |start.used| - first <= |operands|
  {
    hide Run, HoldsIn, MemoryValid;
    ExhaustedBy(e, first, SetOf(temporaries), list);
  }

  // ----- writing the result -----

  lemma ExtendHolds(t: Target, values: map<nat, nat>, e: Encoding, m: Machine, id: nat, value: nat)
    requires HoldsIn(t, values, e, m, {id}) && id !in values && id in e.registers
    ensures HoldsIn(t, values[id := value], e, m, {} + {id})
  {
    assert {} + {id} == {id};
  }

  /** The word that writes the register of the result. */
  lemma ResultWritten(t: Target, values: map<nat, nat>, start: Encoding, e: Encoding, first: nat, held: set<nat>, id: nat, word: Word, value: nat)
    requires Valid(e, first, held) && Holds(t, values, e, {id}) && Frame(t, start, e) && id in e.registers && id !in values
    requires !Safe(start, e.registers[id]) && AddressBelow(word, |e.bindings|) && !word.StoreSlot? && !word.Finish?
    requires Step(t, e.bindings, Now(t, e), word) == Put(Now(t, e), e.registers[id], value)
    ensures var e' := e.(words := e.words + [word]);
            Valid(e', first, held) && Holds(t, values[id := value], e', {}) && Frame(t, start, e')
  {
    hide HoldsIn, FileValid, MemoryValid, Run, Step, Frame, Safe;
    var r := e.registers[id];
    var e' := e.(words := e.words + [word]);
    OnlyRegister(e, first, held, id);
    EmitPut(t, values, e, first, held, {id}, word, r, value);
    FramePut(t, start, e, word, r, value);
    ExtendHolds(t, values, e', Now(t, e'), id, value);
    SettleHolds(t, values[id := value], e', Now(t, e'), {}, id);
  }

  lemma UnsafeBefore(t: Target, start: Encoding, e: Encoding, r: nat)
    requires Frame(t, start, e) && !Safe(e, r)
    ensures !Safe(start, r)
  {
  }

  // ----- operators -----

  lemma LoadedContents(t: Target, values: map<nat, nat>, start: Encoding, e: Encoding, e': Encoding, first: nat, operands: seq<Operand>,
                       list: seq<nat>, temporaries: seq<nat>)
    requires Loaded(t, values, start, e, first, operands, list, temporaries) && Now(t, e').registers == Now(t, e).registers
    ensures Contents(Now(t, e'), list) == Meanings(t, values, operands)
  {
    hide Run, HoldsIn, FileValid, MemoryValid, Frame;
    forall j | 0 <= j < |list|
      ensures Contents(Now(t, e'), list)[j] == Meanings(t, values, operands)[j]
    {
      assert Register(Now(t, e), list[j]) == Meaning(t, values, operands[j]);
    }
  }

  lemma LoadedBasics(t: Target, values: map<nat, nat>, start: Encoding, e: Encoding, first: nat, operands: seq<Operand>,
                     list: seq<nat>, temporaries: seq<nat>)
    requires Loaded(t, values, start, e, first, operands, list, temporaries)
    ensures Valid(e, first, SetOf(temporaries)) && Holds(t, values, e, {}) && Frame(t, start, e) && |list| == |operands|
    ensures forall i, j :: 0 <= i < j < |temporaries| ==> temporaries[i] != temporaries[j]
    ensures forall id: nat :: Located(e, id) ==> Located(start, id) || Virtual(id) in operands
  {
    hide Run, HoldsIn, FileValid, MemoryValid, Frame;
  }

  lemma ResultBasics(t: Target, values: map<nat, nat>, start: Encoding, e: Encoding, first: nat, held: set<nat>, id: nat, r: nat)
    requires ResultReady(t, values, start, e, first, held, id, r)
    ensures Valid(e, first, held) && Holds(t, values, e, {id}) && Frame(t, start, e) && id in e.registers && e.registers[id] == r
    ensures !Safe(start, r) && OnlyLocates(start, e, Virtual(id)) && Now(t, e).registers == Now(t, start).registers
  {
    hide Run, HoldsIn, FileValid, MemoryValid, Frame, OnlyLocates;
  }

  lemma LocatesResult(block: Block, k: nat, start: Encoding, e: Encoding, e': Encoding)
    requires k < |block.code| && !block.code[k].WriteState?
    requires forall id: nat :: Located(e, id) ==> Located(start, id) || Virtual(id) in Sources(block.code[k]) || id == block.code[k].result
    requires e'.registers == e.registers && e'.spills == e.spills
    ensures LocatesOperands(block, k, start, e')
  {
    hide Sources;
    forall id: nat | Located(e', id)
      ensures Located(start, id) || Virtual(id) in Sources(block.code[k]) || Defines(block.code[k], id)
    {
      assert Located(e, id);
    }
  }

  lemma ComputePerformed(t: Target, block: Block, k: nat, start: Encoding, e1: Encoding, e2: Encoding, first: nat,
                         list: seq<nat>, temporaries: seq<nat>, r: nat)
    requires k < |block.code| && block.code[k].Compute? && WellFormed(block) && Ready(t, block, k, start, first)
    requires Loaded(t, After(t, block, k).values, start, e1, first, block.code[k].sources, list, temporaries)
    requires ResultReady(t, After(t, block, k).values, e1, e2, first, SetOf(temporaries), block.code[k].result, r)
    ensures var e' := e2.(words := e2.words + [Execute(block.code[k].operator, r, list)]);
            Performed(t, block, k, e', first, temporaries, Owed(block, k)) && |e'.used| == |start.used|
  {
    hide HoldsIn, FileValid, MemoryValid, Run, Frame, Safe, Located, Loaded, ResultReady, WellFormed, Ready, Performed, LocatesOperands;
    var Compute(result, operator, sources) := block.code[k];
    var values := After(t, block, k).values;
    LoadedBasics(t, values, start, e1, first, sources, list, temporaries);
    ResultBasics(t, values, e1, e2, first, SetOf(temporaries), result, r);
    ResultIsNew(t, block, k, e1);
    FrameTransitive(t, start, e1, e2);
    UnsafeBefore(t, start, e1, r);
    LoadedContents(t, values, start, e1, e2, first, sources, list, temporaries);
    var value := t.apply(operator, Meanings(t, values, sources));
    ResultWritten(t, values, start, e2, first, SetOf(temporaries), result, Execute(operator, r, list), value);
    var e' := e2.(words := e2.words + [Execute(operator, r, list)]);
    ResultLocates(start, e1, e2, sources, result);
    LocatesResult(block, k, start, e2, e');
    ResultPerformed(t, block, k, start, e', first, temporaries, value);
    FrameReferences(t, start, e');
  }

  // ----- the multiplexer -----

  lemma ModuloHalves(a: nat, half: nat)
    requires half > 0
    ensures a % (2 * half) == 2 * (a / 2 % half) + a % 2
  {
    var q, r := a / 2 / half, a / 2 % half;
    MulAssociates(2, half, q);
    DivUnique(a, 2 * half, q, 2 * r + a % 2);
  }

  lemma AndOdd(a: nat, b: nat)
    ensures BitAnd(a, 2 * b + 1) == 2 * BitAnd(a / 2, b) + a % 2
  {
    assert (2 * b + 1) / 2 == b && (2 * b + 1) % 2 == 1;
  }

  lemma {:induction false} MaskedBits(a: nat, width: nat)
    ensures BitAnd(a, Pow2(width) - 1) == a % Pow2(width)
  {
    hide BitAnd;
    if width == 0 {
      AndNothing(a);
    } else {
      var half := Pow2(width - 1);
      MaskedBits(a / 2, width - 1);
      AndOdd(a, half - 1);
      ModuloHalves(a, half);
    }
  }

  lemma AndNothing(a: nat)
    ensures BitAnd(a, 0) == 0
  {
  }

  lemma {:induction false} OrNothing(a: nat)
    ensures BitOr(a, 0) == a && BitOr(0, a) == a
  {
    if a != 0 {
      OrNothing(a / 2);
    }
  }

  function MaskOf(condition: nat, width: nat): nat {
    if condition != 0 then Pow2(width) - 1 else 0
  }

  /** The two masked operands, joined, are the chosen one. */
  lemma MaskSelects(condition: nat, width: nat, otherwise: nat, chosen: nat)
    ensures var mask := MaskOf(condition, width);
            BitOr(BitAnd(otherwise, (Pow2(width) - 1 - mask) % Pow2(width)), BitAnd(chosen, mask))
            == (if condition != 0 then chosen else otherwise) % Pow2(width)
  {
    MaskedBits(otherwise, width);
    MaskedBits(chosen, width);
    OrNothing(otherwise % Pow2(width));
    OrNothing(chosen % Pow2(width));
    assert BitAnd(otherwise, 0) == 0 && BitAnd(chosen, 0) == 0;
    SmallModulo(Pow2(width) - 1, Pow2(width));
    SmallModulo(0, Pow2(width));
  }

  lemma BuildingReads(t: Target, values: map<nat, nat>, start: Encoding, e: Encoding, first: nat, operands: seq<Operand>,
                      list: seq<nat>, temporaries: seq<nat>, result: nat, scratch: seq<nat>, contents: seq<nat>)
    requires Building(t, values, start, e, first, operands, list, temporaries, result, scratch, contents)
    ensures |list| == |operands| && |contents| == |scratch| && result in e.registers && |e.used| == |start.used|
    ensures forall k :: 0 <= k < |list| ==> Register(Now(t, e), list[k]) == Meaning(t, values, operands[k])
    ensures forall j :: 0 <= j < |scratch| ==> Register(Now(t, e), scratch[j]) == contents[j]
  {
    hide Run, HoldsIn, FileValid, MemoryValid;
  }

  /** Without scratch registers, the result can be written. */
  lemma BuiltResult(t: Target, block: Block, k: nat, start: Encoding, e: Encoding, first: nat, list: seq<nat>, temporaries: seq<nat>,
                    word: Word, value: nat)
    requires k < |block.code| && block.code[k].Mux? && WellFormed(block) && Ready(t, block, k, start, first)
    requires var values, result := After(t, block, k).values, block.code[k].result;
             && Building(t, values, start, e, first, Sources(block.code[k]), list, temporaries, result, [], [])
             && After(t, block, k + 1) == After(t, block, k).(values := values[result := value])
             && AddressBelow(word, |e.bindings|) && !word.StoreSlot? && !word.Finish? && result !in values
             && Step(t, e.bindings, Now(t, e), word) == Put(Now(t, e), e.registers[result], value)
    ensures Performed(t, block, k, e.(words := e.words + [word]), first, temporaries, Owed(block, k))
  {
    hide HoldsIn, FileValid, MemoryValid, Run, Frame, Located, WellFormed, Ready, Performed, LocatesOperands, After, Step;
    var values, result := After(t, block, k).values, block.code[k].result;
    assert SetOf(temporaries) + SetOf([]) == SetOf(temporaries);
    ReadyUnpinned(t, block, k, start, first);
    var e' := e.(words := e.words + [word]);
    ResultWritten(t, values, start, e, first, SetOf(temporaries), result, word, value);
    LocatesResult(block, k, start, e, e');
    ResultPerformed(t, block, k, start, e', first, temporaries, value);
  }

  lemma ReadyUnpinned(t: Target, block: Block, k: nat, e: Encoding, first: nat)
    requires k <= |block.code| && Ready(t, block, k, e, first)
    ensures NothingPinned(e)
  {
  }

  function GiveBack(e: Encoding, scratch: seq<nat>): Encoding
    requires |scratch| == 3 && forall j :: 0 <= j < 3 ==> scratch[j] < |e.used|
  {
    e.(used := e.used[scratch[0] := false][scratch[1] := false][scratch[2] := false])
  }

  /** The masked operands are joined, and the scratch registers given back. */
  lemma MuxPerformed(t: Target, block: Block, k: nat, start: Encoding, e: Encoding, first: nat, list: seq<nat>, temporaries: seq<nat>,
                     scratch: seq<nat>, contents: seq<nat>)
    requires k < |block.code| && block.code[k].Mux? && WellFormed(block) && Ready(t, block, k, start, first)
    requires |scratch| == |contents| == 3 && block.code[k].result !in After(t, block, k).values
    requires Building(t, After(t, block, k).values, start, e, first, Sources(block.code[k]), list, temporaries,
                      block.code[k].result, scratch, contents)
    requires var values, result := After(t, block, k).values, block.code[k].result;
             After(t, block, k + 1) == After(t, block, k).(values := values[result := BitOr(contents[1], contents[2])])
    ensures forall j :: 0 <= j < 3 ==> scratch[j] < |e.used|
    ensures block.code[k].result in e.registers && |e.used| == |start.used|
    ensures var word := Disjoin(e.registers[block.code[k].result], scratch[1], scratch[2]);
            Performed(t, block, k, GiveBack(e.(words := e.words + [word]), scratch), first, temporaries, Owed(block, k))
  {
    hide HoldsIn, FileValid, MemoryValid, Run, WellFormed, Ready, Performed, After, Building;
    var values, result, operands := After(t, block, k).values, block.code[k].result, Sources(block.code[k]);
    BuildingReads(t, values, start, e, first, operands, list, temporaries, result, scratch, contents);
    var e1, e2, e3 := DroppedThree(t, values, start, e, first, operands, list, temporaries, result, scratch, contents);
    var word := Disjoin(e.registers[result], scratch[1], scratch[2]);
    assert Now(t, e3) == Now(t, e);
    BuiltResult(t, block, k, start, e3, first, list, temporaries, word, BitOr(contents[1], contents[2]));
    assert GiveBack(e.(words := e.words + [word]), scratch) == e3.(words := e3.words + [word]);
  }

  lemma DroppedThree(t: Target, values: map<nat, nat>, start: Encoding, e: Encoding, first: nat, operands: seq<Operand>,
                     list: seq<nat>, temporaries: seq<nat>, result: nat, scratch: seq<nat>, contents: seq<nat>)
    returns (e1: Encoding, e2: Encoding, e3: Encoding)
    requires Building(t, values, start, e, first, operands, list, temporaries, result, scratch, contents)
    requires |scratch| == |contents| == 3
    ensures forall j :: 0 <= j < 3 ==> scratch[j] < |e.used|
    ensures e3 == GiveBack(e, scratch)
    ensures Building(t, values, start, e3, first, operands, list, temporaries, result, [], [])
  {
    hide Building;
    BuildingDrops(t, values, start, e, first, operands, list, temporaries, result, scratch, contents, 0);
    e1 := e.(used := e.used[scratch[0] := false]);
    assert scratch[..0] + scratch[1..] == [scratch[1], scratch[2]] && contents[..0] + contents[1..] == [contents[1], contents[2]];
    var s1, c1 := [scratch[1], scratch[2]], [contents[1], contents[2]];
    BuildingDrops(t, values, start, e1, first, operands, list, temporaries, result, s1, c1, 0);
    e2 := e1.(used := e1.used[scratch[1] := false]);
    assert s1[..0] + s1[1..] == [scratch[2]] && c1[..0] + c1[1..] == [contents[2]];
    var s2, c2 := [scratch[2]], [contents[2]];
    BuildingDrops(t, values, start, e2, first, operands, list, temporaries, result, s2, c2, 0);
    e3 := e2.(used := e2.used[scratch[2] := false]);
    assert s2[..0] + s2[1..] == [] && c2[..0] + c2[1..] == [];
  }

  // ----- reading a state -----

  function StateNoted(e: Encoding, id: nat, address: nat): Encoding {
    e.(stateAddresses := e.stateAddresses[id := address])
  }

  lemma NotedHolds(t: Target, values: map<nat, nat>, e: Encoding, m: Machine, id: nat, address: nat, value: nat)
    requires HoldsIn(t, values, e, m, {}) && id !in values && Stored(t, e.bindings, m, address) == value
    ensures HoldsIn(t, values[id := value], StateNoted(e, id, address), m, {})
  {
  }

  lemma NotedValid(e: Encoding, first: nat, id: nat, address: nat)
    requires Valid(e, first, {}) && address < |e.bindings| && e.bindings[address].StateName?
    ensures Valid(StateNoted(e, id, address), first, {})
  {
    FileSame(e, StateNoted(e, id, address), first, {});
  }

  /** Nothing is emitted for the read of a state: the address is noted, and the value can be reloaded from it. */
  lemma ReadPerformed(t: Target, block: Block, k: nat, e: Encoding, first: nat, address: nat)
    requires k < |block.code| && block.code[k].ReadState? && WellFormed(block) && Ready(t, block, k, e, first)
    requires address < |e.bindings| && e.bindings[address] == StateName(block.code[k].state)
    ensures Performed(t, block, k, StateNoted(e, block.code[k].result, address), first, [], {})
  {
    hide HoldsIn, FileValid, MemoryValid, Run, WellFormed, Bookkept;
    var p, id, state := After(t, block, k), block.code[k].result, block.code[k].state;
    var e' := StateNoted(e, id, address);
    ResultIsNew(t, block, k, e);
    NotedValid(e, first, id, address);
    NothingStored(t, block, p, e, address);
    NotedHolds(t, p.values, e, Now(t, e), id, address, t.state(state));
    assert SetOf([]) == {};
    CountedFramed(t, block, k, e, e');
    NotedAvailable(p, e, id, address, state, t.state(state));
    NotedBookkept(t, block, p, e, id, address, state, t.state(state));
    assert forall other: nat :: Located(e', other) <==> Located(e, other);
  }

  lemma NothingStored(t: Target, block: Block, p: Progress, e: Encoding, address: nat)
    requires Bookkept(t, block, p, e, {}) && address < |e.bindings| && e.bindings[address].StateName?
    ensures Stored(t, e.bindings, Now(t, e), address) == t.state(e.bindings[address].state)
  {
  }

  lemma NotedAvailable(p: Progress, e: Encoding, id: nat, address: nat, state: nat, value: nat)
    requires AllAvailable(p, e)
    ensures AllAvailable(p.(values := p.values[id := value], observed := p.observed[id := state]), StateNoted(e, id, address))
  {
    var p', e' := p.(values := p.values[id := value], observed := p.observed[id := state]), StateNoted(e, id, address);
    forall other: nat | other in p'.values && References(e', other) > 0
      ensures Available(e', other)
    {
      assert other == id || Available(e, other);
    }
  }

  lemma NotedBookkept(t: Target, block: Block, p: Progress, e: Encoding, id: nat, address: nat, state: nat, value: nat)
    requires Bookkept(t, block, p, e, {}) && address < |e.bindings| && e.bindings[address] == StateName(state)
    requires id !in p.values
    ensures Bookkept(t, block, p.(values := p.values[id := value], observed := p.observed[id := state]), StateNoted(e, id, address), {})
  {
    hide Run, StatesMatch, Exported;
    var p', e' := p.(values := p.values[id := value], observed := p.observed[id := state]), StateNoted(e, id, address);
    assert Now(t, e') == Now(t, e);
    forall index: nat | Eager(block, p', index)
      ensures Exported(t, e', index, p'.values[block.results[index].id])
    {
      assert Eager(block, p, index);
      assert Exported(t, e, index, p.values[block.results[index].id]);
      ExportedSame(t, e, e', index, p.values[block.results[index].id]);
    }
  }

  lemma ExportedSame(t: Target, e: Encoding, e': Encoding, index: nat, value: nat)
    requires Exported(t, e, index, value) && e'.bindings == e.bindings && Now(t, e').slots == Now(t, e).slots
    ensures Exported(t, e', index, value)
  {
    hide Run;
    var a: nat :| a < |e.bindings| && e.bindings[a] == ExportName(index) && Slot(t, e.bindings, Now(t, e), a) == value;
    assert Slot(t, e'.bindings, Now(t, e'), a) == value;
  }

  /** Binding an address keeps an encoder ready. */
  lemma BoundReady(t: Target, block: Block, k: nat, e: Encoding, first: nat, name: Binding)
    requires k <= |block.code| && Ready(t, block, k, e, first) && !name.SpillName?
    ensures Ready(t, block, k, e.(bindings := Bound(e.bindings, name)), first)
  {
    hide HoldsIn, FileValid, MemoryValid, Run, Bookkept, After, Frame, Counted;
    var p, e' := After(t, block, k), e.(bindings := Bound(e.bindings, name));
    BindValid(t, p.values, e, first, {}, {}, name);
    FrameSelf(t, e);
    FrameBind(t, e, e, name);
    BookkeptFramed(t, block, p, e, e', {});
    CountedFramed(t, block, k, e, e');
    AvailableFramed(t, p, e, e');
    assert forall id: nat :: Located(e', id) <==> Located(e, id);
    assert forall id: nat :: References(e', id) == References(e, id);
  }

  // ----- writing a state -----

  /** The encoding after the word that writes a state. */
  function StateWritten(e: Encoding, rs: nat, address: nat): Encoding {
    e.(words := e.words + [StoreState(rs, address)], pendingWrites := e.pendingWrites + 1)
  }

  lemma WrittenRuns(t: Target, e: Encoding, rs: nat, address: nat)
    ensures Now(t, StateWritten(e, rs, address)) == Now(t, e).(pending := Now(t, e).pending[address := Register(Now(t, e), rs)])
  {
    hide Run;
    RunAppend(t, e.bindings, e.words, StoreState(rs, address));
  }

  lemma WrittenHolds(t: Target, values: map<nat, nat>, e: Encoding, m: Machine, m': Machine, rs: nat, address: nat)
    requires HoldsIn(t, values, e, m, {}) && m' == m.(pending := m'.pending)
    ensures HoldsIn(t, values, StateWritten(e, rs, address), m', {})
  {
  }

  lemma WrittenValid(t: Target, values: map<nat, nat>, e: Encoding, first: nat, held: set<nat>, rs: nat, address: nat)
    requires Valid(e, first, held) && Holds(t, values, e, {}) && address < |e.bindings|
    ensures Valid(StateWritten(e, rs, address), first, held) && Holds(t, values, StateWritten(e, rs, address), {})
  {
    hide HoldsIn, FileValid, Run;
    var e' := StateWritten(e, rs, address);
    FileSame(e, e', first, held);
    EmitMemory(e, StoreState(rs, address));
    WrittenRuns(t, e, rs, address);
    WrittenHolds(t, values, e, Now(t, e), Now(t, e'), rs, address);
  }

  lemma StatesMatchWritten(names: seq<Binding>, cells: map<nat, nat>, writes: map<nat, nat>, address: nat, state: nat, value: nat)
    requires StatesMatch(names, cells, writes) && Distinct(names) && address < |names| && names[address] == StateName(state)
    ensures StatesMatch(names, cells[address := value], writes[state := value])
  {
    var cells', writes' := cells[address := value], writes[state := value];
    forall s: nat | s in writes'
      ensures Written(names, cells', s)
    {
      if s == state {
        assert address in cells' && names[address] == StateName(s);
      } else {
        assert Written(names, cells, s);
        var a: nat :| a in cells && a < |names| && names[a] == StateName(s);
        assert a in cells';
      }
    }
  }

  lemma WrittenBookkept(t: Target, block: Block, p: Progress, e: Encoding, rs: nat, address: nat, state: nat)
    requires Bookkept(t, block, p, e, {}) && Distinct(e.bindings) && address < |e.bindings| && e.bindings[address] == StateName(state)
    ensures Bookkept(t, block, p.(writes := p.writes[state := Register(Now(t, e), rs)]), StateWritten(e, rs, address), {})
  {
    hide Run, StatesMatch;
    var p', e' := p.(writes := p.writes[state := Register(Now(t, e), rs)]), StateWritten(e, rs, address);
    WrittenRuns(t, e, rs, address);
    StatesMatchWritten(e.bindings, Now(t, e).pending, p.writes, address, state, Register(Now(t, e), rs));
    forall index: nat | Eager(block, p', index)
      ensures Exported(t, e', index, p'.values[block.results[index].id])
    {
      assert Eager(block, p, index);
      ExportedSame(t, e, e', index, p.values[block.results[index].id]);
    }
    assert state in p'.writes;
  }

  lemma WritePerformed(t: Target, block: Block, k: nat, start: Encoding, e: Encoding, first: nat, temporaries: seq<nat>, rs: nat, address: nat)
    requires k < |block.code| && block.code[k].WriteState? && Ready(t, block, k, start, first)
    requires Valid(e, first, SetOf(temporaries)) && Holds(t, After(t, block, k).values, e, {}) && Frame(t, start, e)
    requires forall i, j :: 0 <= i < j < |temporaries| ==> temporaries[i] != temporaries[j]
    requires LocatesOperands(block, k, start, e)
    requires Register(Now(t, e), rs) == Meaning(t, After(t, block, k).values, block.code[k].source)
    requires address < |e.bindings| && e.bindings[address] == StateName(block.code[k].state)
    ensures Performed(t, block, k, StateWritten(e, rs, address), first, temporaries, {})
  {
    hide HoldsIn, FileValid, MemoryValid, Run, Bookkept, Frame, LocatesOperands;
    var p, e' := After(t, block, k), StateWritten(e, rs, address);
    FrameReferences(t, start, e);
    CountedFramed(t, block, k, start, e');
    AvailableFramed(t, p, start, e);
    StillNeeded(block, k, start, e);
    BookkeptFramed(t, block, p, start, e, {});
    MemoryBasics(e);
    WrittenValid(t, p.values, e, first, SetOf(temporaries), rs, address);
    WrittenBookkept(t, block, p, e, rs, address, block.code[k].state);
    forall id: nat
      ensures Located(e', id) == Located(e, id) && References(e', id) == References(e, id) && Available(e', id) == Available(e, id)
    {
    }
  }

  // ----- exporting the result -----

  lemma BoundPerformed(t: Target, block: Block, k: nat, e: Encoding, first: nat, temporaries: seq<nat>, missing: set<nat>, name: Binding)
    requires k < |block.code| && Performed(t, block, k, e, first, temporaries, missing) && !name.SpillName?
    ensures Performed(t, block, k, e.(bindings := Bound(e.bindings, name)), first, temporaries, missing)
  {
    hide HoldsIn, FileValid, MemoryValid, Run, Bookkept, After, Frame, Counted;
    var p, e' := After(t, block, k + 1), e.(bindings := Bound(e.bindings, name));
    BindValid(t, p.values, e, first, SetOf(temporaries), {}, name);
    FrameSelf(t, e);
    FrameBind(t, e, e, name);
    BookkeptFramed(t, block, p, e, e', missing);
    CountedFramed(t, block, k, e, e');
    AvailableFramed(t, p, e, e');
    assert forall id: nat :: Located(e', id) <==> Located(e, id);
    assert forall id: nat :: References(e', id) == References(e, id);
  }

  lemma SpillsElsewhere(e: Encoding, address: nat)
    requires MemoryValid(e) && address < |e.bindings| && !e.bindings[address].SpillName?
    ensures forall id :: id in e.spills ==> e.spills[id] != address
  {
  }

  lemma StoredPerformed(t: Target, block: Block, k: nat, e: Encoding, first: nat, temporaries: seq<nat>, missing: set<nat>,
                        index: nat, address: nat)
    requires k < |block.code| && Performed(t, block, k, e, first, temporaries, missing)
    requires Eager(block, After(t, block, k + 1), index) && block.results[index].id in e.registers
    requires address < |e.bindings| && e.bindings[address] == ExportName(index)
    ensures var word := StoreSlot(e.registers[block.results[index].id], address);
            Performed(t, block, k, e.(words := e.words + [word]), first, temporaries, missing - {index})
  {
    hide HoldsIn, FileValid, MemoryValid, Run, Bookkept, After, Frame, Counted;
    var p, id := After(t, block, k + 1), block.results[index].id;
    var rs := e.registers[id];
    var e' := e.(words := e.words + [StoreSlot(rs, address)]);
    SpillsElsewhere(e, address);
    RegisterHolds(t, p.values, e, Now(t, e), {}, id);
    EmitStore(t, p.values, e, first, SetOf(temporaries), {}, rs, address);
    ExportStored(t, block, p, e, e', missing, index, rs, address);
    CountedFramed(t, block, k, e, e');
    forall other: nat
      ensures Located(e', other) == Located(e, other) && References(e', other) == References(e, other) && Available(e', other) == Available(e, other)
    {
    }
  }

  lemma OwedIsEager(t: Target, block: Block, k: nat, index: nat)
    requires k < |block.code| && WellFormed(block) && index in Owed(block, k)
    ensures Eager(block, After(t, block, k + 1), index) && block.results[index].id == block.code[k].result
  {
    assert InstructionFormed(block, k);
    AfterDefines(t, block, k);
  }

  lemma PerformedBasics(t: Target, block: Block, k: nat, e: Encoding, first: nat, temporaries: seq<nat>, missing: set<nat>)
    requires k < |block.code| && Performed(t, block, k, e, first, temporaries, missing)
    ensures Valid(e, first, SetOf(temporaries)) && Holds(t, After(t, block, k + 1).values, e, {}) && MemoryValid(e)
    ensures forall i, j :: 0 <= i < j < |temporaries| ==> temporaries[i] != temporaries[j]
    ensures forall id: nat :: References(e, id) >= Uses(Sources(block.code[k]), id)
    ensures !block.code[k].WriteState? ==> (block.code[k].result in e.registers <==> !block.code[k].ReadState?)
  {
    hide HoldsIn, FileValid, MemoryValid, Run, Bookkept, After, References, Uses;
    forall id: nat
      ensures References(e, id) >= Uses(Sources(block.code[k]), id)
    {
      UsesLeft(block, k, e, id);
    }
  }

  lemma ReadyBasics(t: Target, block: Block, k: nat, e: Encoding, first: nat)
    requires k <= |block.code| && Ready(t, block, k, e, first)
    ensures Distinct(e.bindings) && |e.used| == |e.pinned| && first <= |e.used|
  {
    hide HoldsIn, Run, Bookkept;
  }

  /** The operand of a write is loaded, and the address of the state bound. */
  lemma LoadedForWrite(t: Target, block: Block, k: nat, start: Encoding, e: Encoding, first: nat, list: seq<nat>, temporaries: seq<nat>)
    requires k < |block.code| && block.code[k].WriteState?
    requires Loaded(t, After(t, block, k).values, start, e, first, Sources(block.code[k]), list, temporaries)
    ensures |list| == 1
    ensures forall i, j :: 0 <= i < j < |temporaries| ==> temporaries[i] != temporaries[j]
    ensures var name := StateName(block.code[k].state);
            var e', values := e.(bindings := Bound(e.bindings, name)), After(t, block, k).values;
            && IndexOf(e.bindings, name) < |e'.bindings| && e'.bindings[IndexOf(e.bindings, name)] == name
            && Valid(e', first, SetOf(temporaries)) && Holds(t, values, e', {}) && Frame(t, start, e')
            && LocatesOperands(block, k, start, e') && Register(Now(t, e'), list[0]) == Meaning(t, values, block.code[k].source)
  {
    hide HoldsIn, FileValid, MemoryValid, Run, After, Frame;
    var name, values := StateName(block.code[k].state), After(t, block, k).values;
    var e' := e.(bindings := Bound(e.bindings, name));
    LoadedBasics(t, values, start, e, first, Sources(block.code[k]), list, temporaries);
    MemoryBasics(e);
    BoundDistinct(e.bindings, name);
    BindValid(t, values, e, first, SetOf(temporaries), {}, name);
    FrameBind(t, start, e, name);
    assert forall id: nat :: Located(e', id) <==> Located(e, id);
  }

  lemma ConcludedBasics(t: Target, block: Block, k: nat, e: Encoding, first: nat)
    requires k < |block.code| && Concluded(t, block, k, e, first)
    ensures Valid(e, first, {}) && Holds(t, After(t, block, k + 1).values, e, {})
  {
  }
}
