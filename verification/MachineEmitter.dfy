/** Register allocation in one pass: reference counts, pinning, eviction to spill slots, and reloads. */
module MachineEmitter {
  import opened TransitionSystem
  import opened Bits
  import opened MachineProgram
  import opened MachineEncoding
  import opened MachineOperands
  import opened MachineBoundaries
  import opened MachineSteps
  import opened MachineYield

  // ----- what is collected before emission -----

  function ExportsOf(exports: map<nat, seq<nat>>, id: nat): seq<nat> {
    if id in exports then exports[id] else []
  }

  /** The eager exports of a value are the results that name it. */
  ghost predicate ExportsKnown(block: Block, exports: map<nat, seq<nat>>) {
    forall id: nat :: SetOf(ExportsOf(exports, id)) == Naming(block, id)
  }

  function CountOf(references: map<nat, nat>, id: nat): nat {
    if id in references then references[id] else 0
  }

  method CountUses(references: map<nat, nat>, operands: seq<Operand>) returns (counts: map<nat, nat>)
    ensures forall id: nat :: CountOf(counts, id) == CountOf(references, id) + Uses(operands, id)
  {
    counts := references;
    for j := 0 to |operands|
      invariant forall id: nat :: CountOf(counts, id) == CountOf(references, id) + Uses(operands[..j], id)
    {
      assert operands[..j + 1][..j] == operands[..j];
      if operands[j].Virtual? {
        counts := counts[operands[j].id := CountOf(counts, operands[j].id) + 1];
      }
    }
    assert operands[..|operands|] == operands;
  }

  lemma NothingCounted()
    ensures forall id: nat :: CountOf(map[], id) == 0
  {
  }

  method CountReferences(block: Block) returns (references: map<nat, nat>)
    ensures forall id: nat :: CountOf(references, id) == UsesBefore(block, |block.code|, id)
  {
    hide CountOf, Uses;
    references := map[];
    NothingCounted();
    for k := 0 to |block.code|
      invariant forall id: nat :: CountOf(references, id) == UsesBefore(block, k, id)
    {
      references := CountUses(references, Sources(block.code[k]));
    }
  }

  method CollectExports(block: Block) returns (exports: map<nat, seq<nat>>)
    ensures ExportsKnown(block, exports)
  {
    exports := map[];
    for index := 0 to |block.results|
      invariant forall id: nat :: SetOf(ExportsOf(exports, id)) == set i: nat | i < index && block.results[i] == Virtual(id)
    {
      if block.results[index].Virtual? {
        var id := block.results[index].id;
        var before := ExportsOf(exports, id);
        exports := exports[id := before + [index]];
        assert SetOf(before + [index]) == SetOf(before) + {index};
      }
    }
  }

  /** Numbers have at most 32 bits, immediates of slices are in range, and the target has the opcodes. */
  predicate InstructionFits(instruction: Instruction, opcodes: set<nat>) {
    && SourcesFit(Sources(instruction))
    && (instruction.Compute? && instruction.operator.Cut? ==>
          0 in opcodes && instruction.operator.start <= 31 && 1 <= instruction.operator.width <= 32)
    && (instruction.Compute? && instruction.operator.Other? ==> instruction.operator.opcode in opcodes)
    && (instruction.Mux? ==> 1 in opcodes && 2 in opcodes && 3 in opcodes && 4 in opcodes)
  }

  class Encoder {
    const block: Block
    const exports: map<nat, seq<nat>>
    const opcodes: set<nat>
    const first: nat
    var registers: map<nat, nat>
    var used: seq<bool>
    var pinned: seq<bool>
    var references: map<nat, nat>
    var spills: map<nat, nat>
    var stateAddresses: map<nat, nat>
    var inputAddresses: map<nat, nat>
    var bindings: seq<Binding>
    var words: seq<Word>
    var nextSpill: nat
    var pendingWrites: nat

    constructor (block: Block, first: nat, count: nat, opcodes: set<nat>)
      requires first <= count
      ensures this.block == block && this.first == first && this.opcodes == opcodes && ExportsKnown(block, exports) && |used| == count
      ensures View() == Encoding(map[], seq(count, k => false), seq(count, k => false), references, map[], map[], map[], bindings, [], 0, 0)
      ensures forall id: nat :: CountOf(references, id) == UsesBefore(block, |block.code|, id)
      ensures Distinct(bindings) && forall a :: 0 <= a < |bindings| ==> bindings[a].StateName?
    {
      var collected := CollectExports(block);
      var counted := CountReferences(block);
      this.block, this.first, this.opcodes, exports := block, first, opcodes, collected;
      used, pinned := seq(count, k => false), seq(count, k => false);
      registers, references, spills, stateAddresses, inputAddresses := map[], counted, map[], map[], map[];
      bindings, words, nextSpill, pendingWrites := [], [], 0, 0;
      new;
      for k := 0 to |block.states|
        invariant Distinct(bindings) && forall a :: 0 <= a < |bindings| ==> bindings[a].StateName?
        invariant View() == Encoding(map[], seq(count, k => false), seq(count, k => false), counted, map[], map[], map[], bindings, [], 0, 0)
      {
        BoundDistinct(bindings, StateName(block.states[k]));
        var address := Address(StateName(block.states[k]));
      }
    }

    function View(): Encoding
      reads this
    {
      Encoding(registers, used, pinned, references, spills, stateAddresses, inputAddresses, bindings, words, nextSpill, pendingWrites)
    }

    method Emit(word: Word)
      modifies this`words
      ensures words == old(words) + [word]
    {
      words := words + [word];
    }

    method Address(name: Binding) returns (address: nat)
      modifies this`bindings
      ensures bindings == Bound(old(bindings), name) && address == IndexOf(old(bindings), name)
    {
      address := 0;
      while address < |bindings| && bindings[address] != name
        invariant address <= |bindings| && bindings == old(bindings)
        invariant forall j :: 0 <= j < address ==> bindings[j] != name
      {
        address := address + 1;
      }
      if address == |bindings| {
        bindings := bindings + [name];
      }
    }

    /** An unused register, or one whose value is moved to a new spill slot; nothing when all are held or pinned. */
    method FreeRegister(ghost t: Target, ghost values: map<nat, nat>, ghost held: set<nat>, ghost pending: set<nat>)
      returns (reg: Option<nat>)
      requires Valid(View(), first, held) && Holds(t, values, View(), pending)
      requires forall id :: id in pending && id in registers ==> Safe(View(), registers[id])
      modifies this
      ensures reg.None? ==> View() == old(View()) && Exhausted(View(), first, held)
      ensures reg.Some? ==> Freed(t, values, old(View()), View(), first, held, pending, reg.value)
    {
      hide HoldsIn, MemoryValid, FileValid, Run, Frame, Freed;
      FileSizes(View(), first, held);
      for r := first to |used|
        invariant View() == old(View()) && forall q :: first <= q < r ==> used[q]
      {
        if !used[r] {
          TakenFrees(t, values, View(), first, held, pending, r);
          used := used[r := true];
          return Some(r);
        }
      }
      reg := EvictAny(t, values, held, pending);
    }

    /** Moves some unpinned value to a new spill slot; which one is left open. */
    method EvictAny(ghost t: Target, ghost values: map<nat, nat>, ghost held: set<nat>, ghost pending: set<nat>) returns (reg: Option<nat>)
      requires Valid(View(), first, held) && Holds(t, values, View(), pending)
      requires forall id :: id in pending && id in registers ==> Safe(View(), registers[id])
      requires forall r :: first <= r < |used| ==> used[r]
      modifies this
      ensures reg.None? ==> View() == old(View()) && Exhausted(View(), first, held)
      ensures reg.Some? ==> Freed(t, values, old(View()), View(), first, held, pending, reg.value)
    {
      hide HoldsIn, MemoryValid, FileValid, Run, Frame, Freed;
      RegistersInFile(View(), first, held);
      var candidates := registers.Keys;
      while candidates != {}
        invariant View() == old(View()) && candidates <= registers.Keys
        invariant forall id :: id in registers && id !in candidates ==> pinned[registers[id]]
        decreases |candidates|
      {
        var id :| id in candidates;
        candidates := candidates - {id};
        if !pinned[registers[id]] {
          EvictedFrees(t, values, View(), first, held, pending, id);
          reg := Some(registers[id]);
          Evict(id);
          return;
        }
      }
      AllPinned(View(), first, held);
      return None;
    }

    method Evict(victim: nat)
      requires victim in registers
      modifies this
      ensures View() == Evicted(old(View()), victim)
    {
      var address := |bindings|;
      bindings := bindings + [SpillName(nextSpill)];
      nextSpill := nextSpill + 1;
      words := words + [StoreSlot(registers[victim], address)];
      spills := spills[victim := address];
      registers := registers - {victim};
    }

    /** Reloads a value that no register holds, from its spill slot, its state or its input. */
    method Reload(ghost t: Target, ghost values: map<nat, nat>, ghost held: set<nat>, id: nat) returns (reg: Option<nat>)
      requires Valid(View(), first, held) && Holds(t, values, View(), {})
      requires Available(View(), id) && id !in registers
      modifies this
      ensures reg.None? ==> View() == old(View()) && Exhausted(View(), first, held)
      ensures reg.Some? ==>
                && Valid(View(), first, held) && Holds(t, values, View(), {}) && Frame(t, old(View()), View())
                && id in registers && registers[id] == reg.value && id in values && Register(Now(t, View()), reg.value) == values[id]
                && pinned == old(pinned) && OnlyLocates(old(View()), View(), Virtual(id))
    {
      hide HoldsIn, FileValid, MemoryValid, Run, Frame, Step, Safe;
      ghost var start := View();
      reg := FreeRegister(t, values, held, {});
      if reg.None? {
        return;
      }
      var r := reg.value;
      ghost var s1 := View();
      StillAvailable(t, start, s1, id);
      AssignValid(t, values, s1, first, held, {}, id, r);
      FrameAssign(t, start, s1, id, r);
      registers := registers[id := r];
      ghost var s2 := View();
      ReloadReads(t, values, s1, {}, id, r);
      var word := if id in spills then LoadSlot(r, spills[id])
                  else if id in stateAddresses then LoadState(r, stateAddresses[id])
                  else LoadSlot(r, inputAddresses[id]);
      OnlyRegister(s2, first, held, id);
      EmitPut(t, values, s2, first, held, {} + {id}, word, r, values[id]);
      FramePut(t, start, s2, word, r, values[id]);
      Emit(word);
      SettleHolds(t, values, View(), Now(t, View()), {}, id);
      LocatesAssigned(start, s1, View(), id, r);
    }

    /** Loads an operand into a register, which stays pinned; other operands keep theirs. */
    method Source(ghost t: Target, ghost values: map<nat, nat>, ghost held: set<nat>, operand: Operand)
      returns (reg: Option<nat>)
      requires Valid(View(), first, held) && Holds(t, values, View(), {})
      requires operand.Virtual? ==> Available(View(), operand.id)
      modifies this
      ensures reg.None? ==> Exhausted(old(View()), first, held) || TooWide(operand)
      ensures reg.Some? ==> Sourced(t, values, old(View()), View(), first, held, operand, reg.value)
    {
      hide HoldsIn, FileValid, MemoryValid, Run, Frame, Step, Safe, Sourced, Located;
      ghost var start := View();
      match operand
      case Virtual(id) =>
        if id in registers {
          reg := Some(registers[id]);
        } else {
          reg := Reload(t, values, held, id);
          if reg.None? {
            return;
          }
        }
        ghost var s1 := View();
        SourceFound(t, values, start, s1, first, held, id);
        pinned := pinned[registers[id] := true];
      case Number(bits) =>
        if bits > 0xffff_ffff {
          return None;
        }
        reg := LoadTemporary(t, values, held, operand);
      case Unknown(kind) =>
        reg := LoadTemporary(t, values, held, operand);
    }

    /** Loads a literal into a register of its own. */
    method LoadTemporary(ghost t: Target, ghost values: map<nat, nat>, ghost held: set<nat>, operand: Operand)
      returns (reg: Option<nat>)
      requires Valid(View(), first, held) && Holds(t, values, View(), {}) && !operand.Virtual? && !TooWide(operand)
      modifies this
      ensures reg.None? ==> Exhausted(old(View()), first, held)
      ensures reg.Some? ==> Sourced(t, values, old(View()), View(), first, held, operand, reg.value)
    {
      hide HoldsIn, FileValid, MemoryValid, Run, Frame, Step, Safe, Sourced, Located;
      ghost var start := View();
      reg := FreeRegister(t, values, held, {});
      if reg.None? {
        return;
      }
      var r := reg.value;
      ghost var s0 := View();
      TemporaryReady(t, values, start, s0, first, held, operand, r);
      pinned := pinned[r := true];
      ghost var s1 := View();
      if operand.Unknown? {
        var name := UnknownName(operand.kind);
        BindValid(t, values, s1, first, held + {r}, {}, name);
        FrameBind(t, start, s1, name);
        MemoryBasics(s1);
        BoundDistinct(s1.bindings, name);
        var address := Address(name);
        ghost var s2 := View();
        UnknownReads(t, s2, r, address, operand.kind);
        TemporaryKept(start, s1, s2, operand, r);
        PutTemporary(t, values, start, s2, first, held, LoadSlot(r, address), r, operand);
        Emit(LoadSlot(r, address));
      } else {
        NumberReads(t, s1, r, operand.bits);
        PutTemporary(t, values, start, s1, first, held, LoadNumber(r, operand.bits), r, operand);
        Emit(LoadNumber(r, operand.bits));
      }
    }

    /** Loads all operands of an instruction, in order. */
    method LoadSources(ghost t: Target, ghost values: map<nat, nat>, operands: seq<Operand>)
      returns (regs: Option<seq<nat>>, temporaries: seq<nat>)
      requires Valid(View(), first, {}) && Holds(t, values, View(), {}) && NothingPinned(View())
      requires forall k :: 0 <= k < |operands| && operands[k].Virtual? ==> Available(View(), operands[k].id)
      modifies this
      ensures regs.Some? ==> Loaded(t, values, old(View()), View(), first, operands, regs.value, temporaries) && SourcesFit(operands)
      ensures regs.None? ==> |old(used)| - first < |operands| || !SourcesFit(operands)
    {
      hide Valid, Holds, Run, Sourced, Available, Exhausted, Loaded;
      ghost var start := View();
      var list: seq<nat> := [];
      temporaries := [];
      NothingLoaded(t, values, start, first);
      for k := 0 to |operands|
        invariant |list| == k && Loaded(t, values, start, View(), first, operands[..k], list, temporaries)
      {
        ghost var before := View();
        LoadedReady(t, values, start, before, first, operands, k, list, temporaries);
        var reg := Source(t, values, SetOf(temporaries), operands[k]);
        if reg.None? {
          SourceFails(start, before, View(), first, operands, k, list, temporaries, t, values);
          return None, temporaries;
        }
        LoadedMore(t, values, start, before, View(), first, operands, k, list, temporaries, reg.value);
        list := list + [reg.value];
        if !operands[k].Virtual? {
          temporaries := temporaries + [reg.value];
        }
      }
      assert operands[..|operands|] == operands;
      LoadedFit(t, values, start, View(), first, operands, list, temporaries);
      return Some(list), temporaries;
    }

    /** Gives back the registers of literals, and counts down the uses of values; a value without uses is forgotten. */
    method ReleaseSources(ghost t: Target, ghost values: map<nat, nat>, operands: seq<Operand>, temporaries: seq<nat>)
      requires Valid(View(), first, SetOf(temporaries)) && Holds(t, values, View(), {})
      requires forall i, j :: 0 <= i < j < |temporaries| ==> temporaries[i] != temporaries[j]
      requires forall id: nat :: References(View(), id) >= Uses(operands, id)
      modifies this
      ensures Valid(View(), first, {}) && Holds(t, values, View(), {})
      ensures Released(old(View()), View(), operands)
    {
      hide Valid, Holds, Run, Released;
      ghost var start := View();
      assert temporaries[0..] == temporaries;
      for k := 0 to |temporaries|
        invariant Valid(View(), first, SetOf(temporaries[k..])) && Holds(t, values, View(), {})
        invariant View() == start.(used := used) && |used| == |start.used|
      {
        UnheldValid(t, values, View(), first, temporaries, k);
        used := used[temporaries[k] := false];
      }
      assert SetOf(temporaries[|temporaries|..]) == {};
      ReleasedNothing(start, View());
      for k := 0 to |operands|
        invariant Valid(View(), first, {}) && Holds(t, values, View(), {}) && Released(start, View(), operands[..k])
      {
        assert operands[..k + 1] == operands[..k] + [operands[k]];
        ghost var before := View();
        UsesSplit(operands, k);
        if operands[k].Virtual? {
          ReferenceLeft(start, before, operands, k);
          CountDown(t, values, operands[k].id);
        }
        ReleasedMore(start, before, View(), operands[..k], operands[k]);
      }
      assert operands[..|operands|] == operands;
    }

    method CountDown(ghost t: Target, ghost values: map<nat, nat>, id: nat)
      requires Valid(View(), first, {}) && Holds(t, values, View(), {}) && References(View(), id) > 0
      modifies this
      ensures Valid(View(), first, {}) && Holds(t, values, View(), {}) && CountedDown(old(View()), View(), id)
    {
      hide HoldsIn, MemoryValid, FileValid, Run;
      references := references[id := references[id] - 1];
      ReferencesDoNotMatter(t, values, old(View()), View(), first);
      if references[id] == 0 {
        Forget(t, values, id);
      }
    }

    /** Drops a value from its register and its spill slot. */
    method Forget(ghost t: Target, ghost values: map<nat, nat>, id: nat)
      requires Valid(View(), first, {}) && Holds(t, values, View(), {})
      modifies this
      ensures Valid(View(), first, {}) && Holds(t, values, View(), {}) && Forgot(old(View()), View(), id)
    {
      hide HoldsIn, MemoryValid, FileValid, Run;
      ForgetValid(t, values, View(), first, id);
      if id in registers {
        UsedAssigned(View(), first, {}, id);
        used := used[registers[id] := false];
        registers := registers - {id};
      }
      spills := spills - {id};
      assert registers == old(registers) - {id};
      assert View() == Without(old(View()), id);
    }

    /** A register for a new value, still to be written. */
    method AllocateResult(ghost t: Target, ghost values: map<nat, nat>, ghost held: set<nat>, id: nat) returns (reg: Option<nat>)
      requires Valid(View(), first, held) && Holds(t, values, View(), {}) && id !in registers
      modifies this
      ensures reg.None? ==> View() == old(View()) && Exhausted(View(), first, held)
      ensures reg.Some? ==> ResultReady(t, values, old(View()), View(), first, held, id, reg.value)
    {
      hide HoldsIn, FileValid, MemoryValid, Run, Frame, Step, Safe, ResultReady;
      ghost var start := View();
      reg := FreeRegister(t, values, held, {});
      if reg.Some? {
        ghost var s1 := View();
        AssignValid(t, values, s1, first, held, {}, id, reg.value);
        FrameAssign(t, start, s1, id, reg.value);
        LocatesAssigned(start, s1, AssignedTo(s1, id, reg.value), id, reg.value);
        registers := registers[id := reg.value];
        ResultIsReady(t, values, start, View(), first, held, id, reg.value);
      }
    }

    /** One more register of its own, next to the result that is being built. */
    method TakeScratch(ghost t: Target, ghost values: map<nat, nat>, ghost start: Encoding, ghost operands: seq<Operand>,
                       ghost list: seq<nat>, ghost temporaries: seq<nat>, ghost result: nat, ghost scratch: seq<nat>, ghost contents: seq<nat>)
      returns (reg: Option<nat>)
      requires Building(t, values, start, View(), first, operands, list, temporaries, result, scratch, contents)
      modifies this
      ensures reg.None? ==> |start.used| - first <= |list| + 1 + |scratch|
      ensures reg.Some? ==>
                Building(t, values, start, View(), first, operands, list, temporaries, result, scratch + [reg.value],
                         contents + [Register(Now(t, View()), reg.value)])
    {
      hide Valid, Holds, Run, Frame, Step, Building;
      ghost var e := View();
      BuildingBasics(t, values, start, e, first, operands, list, temporaries, result, scratch, contents);
      reg := FreeRegister(t, values, SetOf(temporaries) + SetOf(scratch), {result});
      if reg.None? {
        BuildingReads(t, values, start, e, first, operands, list, temporaries, result, scratch, contents);
        BuildingExhausted(t, values, start, e, first, operands, list, temporaries, result, scratch, contents);
      } else {
        BuildingTakes(t, values, start, e, View(), first, operands, list, temporaries, result, scratch, contents, reg.value);
      }
    }

    // ----- one instruction -----

    method Unpin()
      modifies this`pinned
      ensures |pinned| == |old(pinned)| && NothingPinned(View())
    {
      pinned := seq(|pinned|, k => false);
    }

    method LowerCompute(ghost t: Target, k: nat) returns (ok: bool, temporaries: seq<nat>)
      requires WellFormed(block) && k < |block.code| && block.code[k].Compute? && Ready(t, block, k, View(), first)
      modifies this
      ensures ok ==> Performed(t, block, k, View(), first, temporaries, Owed(block, k)) && |used| == |old(used)|
      ensures ok ==> InstructionFits(block.code[k], opcodes)
      ensures !ok ==> |old(used)| - first < 7 || !InstructionFits(block.code[k], opcodes)
    {
      hide Valid, Holds, Run, Ready, Performed, Loaded, ResultReady, WellFormed, After, NothingPinned, Available;
      ghost var start, values := View(), After(t, block, k).values;
      ReadySources(t, block, k, start, first);
      var Compute(result, operator, sources) := block.code[k];
      var regs;
      regs, temporaries := LoadSources(t, values, sources);
      if regs.None? {
        return false, temporaries;
      }
      ghost var e1 := View();
      LoadedBasics(t, values, start, e1, first, sources, regs.value, temporaries);
      ResultIsNew(t, block, k, e1);
      var reg := AllocateResult(t, values, SetOf(temporaries), result);
      if reg.None? {
        LoadedExhausted(t, values, start, e1, first, sources, regs.value, temporaries);
        return false, temporaries;
      }
      if !Encodable(block.code[k], opcodes) {
        return false, temporaries;
      }
      ComputePerformed(t, block, k, start, e1, View(), first, regs.value, temporaries, reg.value);
      Emit(Execute(operator, reg.value, regs.value));
      ok := true;
    }

    method LowerReadState(ghost t: Target, k: nat)
      requires WellFormed(block) && k < |block.code| && block.code[k].ReadState? && Ready(t, block, k, View(), first)
      modifies this
      ensures Performed(t, block, k, View(), first, [], {}) && |used| == |old(used)|
    {
      hide Ready, Performed, WellFormed;
      var name := StateName(block.code[k].state);
      ReadyBasics(t, block, k, View(), first);
      BoundReady(t, block, k, View(), first, name);
      BoundDistinct(bindings, name);
      var address := Address(name);
      ReadPerformed(t, block, k, View(), first, address);
      stateAddresses := stateAddresses[block.code[k].result := address];
    }

    method LowerWriteState(ghost t: Target, k: nat) returns (ok: bool, temporaries: seq<nat>)
      requires WellFormed(block) && k < |block.code| && block.code[k].WriteState? && Ready(t, block, k, View(), first)
      modifies this
      ensures ok ==> Performed(t, block, k, View(), first, temporaries, {}) && |used| == |old(used)|
      ensures ok ==> InstructionFits(block.code[k], opcodes)
      ensures !ok ==> |old(used)| - first < 7 || !InstructionFits(block.code[k], opcodes)
    {
      hide Valid, Holds, Run, Ready, Performed, Loaded, WellFormed, After, NothingPinned, Available, Frame, LocatesOperands;
      ghost var start, values := View(), After(t, block, k).values;
      ReadySources(t, block, k, start, first);
      var WriteState(state, source) := block.code[k];
      var regs;
      regs, temporaries := LoadSources(t, values, [source]);
      if regs.None? {
        return false, temporaries;
      }
      ghost var e1 := View();
      var name := StateName(state);
      LoadedForWrite(t, block, k, start, e1, first, regs.value, temporaries);
      var address := Address(name);
      FrameReferences(t, start, View());
      WritePerformed(t, block, k, start, View(), first, temporaries, regs.value[0], address);
      Emit(StoreState(regs.value[0], address));
      pendingWrites := pendingWrites + 1;
      ok := true;
    }

    /** The chosen operand is selected with a mask: spread, inverted, conjoined twice and joined. */
    method LowerMux(ghost t: Target, k: nat) returns (ok: bool, temporaries: seq<nat>)
      requires WellFormed(block) && k < |block.code| && block.code[k].Mux? && Ready(t, block, k, View(), first)
      modifies this
      ensures ok ==> Performed(t, block, k, View(), first, temporaries, Owed(block, k)) && |used| == |old(used)|
      ensures ok ==> InstructionFits(block.code[k], opcodes)
      ensures !ok ==> |old(used)| - first < 7 || !InstructionFits(block.code[k], opcodes)
    {
      hide Valid, Holds, Run, Ready, Performed, Loaded, ResultReady, WellFormed, After, NothingPinned, Available, Building;
      ghost var start, values := View(), After(t, block, k).values;
      ReadySources(t, block, k, start, first);
      var operands := Sources(block.code[k]);
      var regs;
      regs, temporaries := LoadSources(t, values, operands);
      if regs.None? {
        return false, temporaries;
      }
      ghost var e1 := View();
      LoadedBasics(t, values, start, e1, first, operands, regs.value, temporaries);
      ResultIsNew(t, block, k, e1);
      var reg := AllocateResult(t, values, SetOf(temporaries), block.code[k].result);
      if reg.None? {
        LoadedExhausted(t, values, start, e1, first, operands, regs.value, temporaries);
        return false, temporaries;
      }
      if !Encodable(block.code[k], opcodes) {
        return false, temporaries;
      }
      BuildingStarts(t, values, start, e1, View(), first, operands, regs.value, temporaries, block.code[k].result, reg.value);
      pinned := pinned[reg.value := true];
      ok := Select(t, k, start, regs.value, temporaries);
    }

    /** Writes the scratch register taken last. */
    method EmitScratch(ghost t: Target, ghost values: map<nat, nat>, ghost start: Encoding, ghost operands: seq<Operand>,
                       ghost list: seq<nat>, ghost temporaries: seq<nat>, ghost result: nat, ghost scratch: seq<nat>, ghost contents: seq<nat>,
                       reg: nat, word: Word, ghost value: nat)
      requires Building(t, values, start, View(), first, operands, list, temporaries, result, scratch + [reg],
                        contents + [Register(Now(t, View()), reg)]) && |scratch| == |contents|
      requires AddressBelow(word, |bindings|) && !word.StoreSlot? && !word.Finish?
      requires Step(t, bindings, Now(t, View()), word) == Put(Now(t, View()), reg, value)
      modifies this`words
      ensures Building(t, values, start, View(), first, operands, list, temporaries, result, scratch + [reg], contents + [value])
    {
      hide Building, Run, Step;
      ghost var all := contents + [Register(Now(t, View()), reg)];
      BuildingWrites(t, values, start, View(), first, operands, list, temporaries, result, scratch + [reg], all, word, |scratch|, value);
      assert all[|scratch| := value] == contents + [value];
      Emit(word);
    }

    /** A scratch register with all bits equal to the condition. */
    method TakeMask(ghost t: Target, ghost values: map<nat, nat>, ghost start: Encoding, ghost operands: seq<Operand>,
      list: seq<nat>, ghost temporaries: seq<nat>, ghost result: nat, width: nat) returns (reg: Option<nat>)
      requires Building(t, values, start, View(), first, operands, list, temporaries, result, [], []) && |list| == 3
      modifies this
      ensures reg.None? ==> |start.used| - first < 7
      ensures reg.Some? ==>
                && |operands| == 3
                && Building(t, values, start, View(), first, operands, list, temporaries, result, [reg.value],
                            [MaskOf(Meaning(t, values, operands[0]), width)])
    {
      hide Building, Run, Frame;
      reg := TakeScratch(t, values, start, operands, list, temporaries, result, [], []);
      if reg.Some? {
        var r := reg.value;
        ghost var old' := [Register(Now(t, View()), r)];
        assert [] + [r] == [r] && [] + old' == old';
        BuildingReads(t, values, start, View(), first, operands, list, temporaries, result, [r], old');
        ghost var value := MaskOf(Meaning(t, values, operands[0]), width);
        assert [] + [value] == [value];
        EmitScratch(t, values, start, operands, list, temporaries, result, [], [], r, Spread(r, list[0], width), value);
      }
    }

    /** A scratch register with the bits of the mask inverted. */
    method TakeInverted(ghost t: Target, ghost values: map<nat, nat>, ghost start: Encoding, ghost operands: seq<Operand>,
      list: seq<nat>, ghost temporaries: seq<nat>, ghost result: nat,
                        mask: nat, ghost m: nat, width: nat) returns (reg: Option<nat>)
      requires Building(t, values, start, View(), first, operands, list, temporaries, result, [mask], [m]) && |list| == 3
      modifies this
      ensures reg.None? ==> |start.used| - first < 7
      ensures reg.Some? ==>
                Building(t, values, start, View(), first, operands, list, temporaries, result, [mask, reg.value],
                         [m, (Pow2(width) - 1 - m) % Pow2(width)])
    {
      hide Building, Run, Frame;
      reg := TakeScratch(t, values, start, operands, list, temporaries, result, [mask], [m]);
      if reg.Some? {
        var r := reg.value;
        ghost var before := Register(Now(t, View()), r);
        assert [mask] + [r] == [mask, r] && [m] + [before] == [m, before];
        BuildingReads(t, values, start, View(), first, operands, list, temporaries, result, [mask, r], [m, before]);
        assert Register(Now(t, View()), [mask, r][0]) == [m, before][0];
        ghost var value: nat := (Pow2(width) - 1 - m) % Pow2(width);
        assert [m] + [value] == [m, value];
        EmitScratch(t, values, start, operands, list, temporaries, result, [mask], [m], r, Invert(r, mask, width), value);
      }
    }

    /** A scratch register with operand `j` under the mask in scratch register `i`. */
    method TakeMasked(ghost t: Target, ghost values: map<nat, nat>, ghost start: Encoding, ghost operands: seq<Operand>,
      list: seq<nat>, ghost temporaries: seq<nat>, ghost result: nat,
                      ghost scratch: seq<nat>, ghost contents: seq<nat>, j: nat, ghost i: nat, mask: nat) returns (reg: Option<nat>)
      requires Building(t, values, start, View(), first, operands, list, temporaries, result, scratch, contents)
      requires |list| == 3 && j < 3 && |scratch| == |contents| == 2 && i < 2 && scratch[i] == mask
      modifies this
      ensures reg.None? ==> |start.used| - first < 7
      ensures reg.Some? ==>
                && |operands| == 3
                && Building(t, values, start, View(), first, operands, list, temporaries, result, scratch + [reg.value],
                            contents + [BitAnd(Meaning(t, values, operands[j]), contents[i])])
    {
      hide Building, Run, Frame, BitAnd;
      reg := TakeScratch(t, values, start, operands, list, temporaries, result, scratch, contents);
      if reg.Some? {
        var r := reg.value;
        ghost var all, now := scratch + [r], contents + [Register(Now(t, View()), r)];
        BuildingReads(t, values, start, View(), first, operands, list, temporaries, result, all, now);
        assert Register(Now(t, View()), all[i]) == now[i];
        EmitScratch(t, values, start, operands, list, temporaries, result, scratch, contents, r, Conjoin(r, list[j], mask),
                    BitAnd(Meaning(t, values, operands[j]), contents[i]));
      }
    }

    /** The mask, and the operand for a false condition under the inverted mask, which is given back. */
    method TakeFalse(ghost t: Target, ghost values: map<nat, nat>, ghost start: Encoding, ghost operands: seq<Operand>,
      list: seq<nat>, ghost temporaries: seq<nat>, ghost result: nat, width: nat) returns (ok: bool, mask: nat, whenFalse: nat)
      requires Building(t, values, start, View(), first, operands, list, temporaries, result, [], []) && |list| == 3
      modifies this
      ensures !ok ==> |start.used| - first < 7
      ensures ok ==>
                && |operands| == 3
                && var m := MaskOf(Meaning(t, values, operands[0]), width);
                   Building(t, values, start, View(), first, operands, list, temporaries, result, [mask, whenFalse],
                            [m, BitAnd(Meaning(t, values, operands[1]), (Pow2(width) - 1 - m) % Pow2(width))])
    {
      hide Run, Building, BitAnd, Frame, Meaning, Pow2;
      ok, mask, whenFalse := false, 0, 0;
      var r0 := TakeMask(t, values, start, operands, list, temporaries, result, width);
      if r0.None? { return; }
      ghost var m, b := MaskOf(Meaning(t, values, operands[0]), width), Meaning(t, values, operands[1]);
      var r1 := TakeInverted(t, values, start, operands, list, temporaries, result, r0.value, m, width);
      if r1.None? { return; }
      ghost var inverse: nat := (Pow2(width) - 1 - m) % Pow2(width);
      ghost var s2, c2 := [r0.value, r1.value], [m, inverse];
      var r2 := TakeMasked(t, values, start, operands, list, temporaries, result, s2, c2, 1, 1, r1.value);
      if r2.None? { return; }
      ghost var s3, c3 := s2 + [r2.value], c2 + [BitAnd(b, inverse)];
      BuildingDrops(t, values, start, View(), first, operands, list, temporaries, result, s3, c3, 1);
      used := used[r1.value := false];
      assert s3[..1] + s3[2..] == [r0.value, r2.value] && c3[..1] + c3[2..] == [m, BitAnd(b, inverse)];
      ok, mask, whenFalse := true, r0.value, r2.value;
    }

    method Select(ghost t: Target, k: nat, ghost start: Encoding, list: seq<nat>, ghost temporaries: seq<nat>) returns (ok: bool)
      requires WellFormed(block) && k < |block.code| && block.code[k].Mux? && Ready(t, block, k, start, first)
      requires block.code[k].result !in After(t, block, k).values && |list| == 3
      requires Building(t, After(t, block, k).values, start, View(), first, Sources(block.code[k]), list, temporaries, block.code[k].result, [], [])
      modifies this
      ensures ok ==> Performed(t, block, k, View(), first, temporaries, Owed(block, k)) && |used| == |start.used|
      ensures !ok ==> |start.used| - first < 7
    {
      hide Run, Ready, Performed, WellFormed, Building, BitAnd, BitOr, Frame, Meaning;
      ok := false;
      var Mux(result, width, condition, otherwise, chosen) := block.code[k];
      ghost var values, operands := After(t, block, k).values, Sources(block.code[k]);
      ghost var a, b, c := Meaning(t, values, condition), Meaning(t, values, otherwise), Meaning(t, values, chosen);
      ghost var m := MaskOf(a, width);
      ghost var f := BitAnd(b, (Pow2(width) - 1 - m) % Pow2(width));
      var taken, mask, whenFalse := TakeFalse(t, values, start, operands, list, temporaries, result, width);
      if !taken { return; }
      ghost var s4, c4 := [mask, whenFalse], [m, f];
      var whenTrue := TakeMasked(t, values, start, operands, list, temporaries, result, s4, c4, 2, 0, mask);
      if whenTrue.None? { return; }
      ghost var s5, c5 := s4 + [whenTrue.value], c4 + [BitAnd(c, m)];
      MaskSelects(a, width, b, c);
      MuxPerformed(t, block, k, start, View(), first, list, temporaries, s5, c5);
      Emit(Disjoin(registers[result], whenFalse, whenTrue.value));
      used := used[mask := false][whenFalse := false][whenTrue.value := false];
      ok := true;
    }

    // ----- after an instruction -----

    /** Stores result `index` of the block from register `reg`. */
    method ExportOne(ghost t: Target, ghost k: nat, ghost temporaries: seq<nat>, ghost missing: set<nat>, index: nat, reg: nat)
      requires k < |block.code| && Performed(t, block, k, View(), first, temporaries, missing)
      requires Eager(block, After(t, block, k + 1), index) && block.results[index].id in registers && registers[block.results[index].id] == reg
      modifies this`bindings, this`words
      ensures Performed(t, block, k, View(), first, temporaries, missing - {index})
    {
      hide Performed, After, MemoryValid;
      var name := ExportName(index);
      PerformedBasics(t, block, k, View(), first, temporaries, missing);
      MemoryBasics(View());
      BoundDistinct(bindings, name);
      BoundPerformed(t, block, k, View(), first, temporaries, missing, name);
      var address := Address(name);
      StoredPerformed(t, block, k, View(), first, temporaries, missing, index, address);
      Emit(StoreSlot(reg, address));
    }

    /** Exports the result of the instruction under every result name it has. */
    method ExportResult(ghost t: Target, k: nat, ghost temporaries: seq<nat>)
      requires WellFormed(block) && ExportsKnown(block, exports) && k < |block.code|
      requires Performed(t, block, k, View(), first, temporaries, Owed(block, k))
      modifies this`bindings, this`words
      ensures Performed(t, block, k, View(), first, temporaries, {})
    {
      hide Performed, After, WellFormed, Eager;
      PerformedBasics(t, block, k, View(), first, temporaries, Owed(block, k));
      if !block.code[k].WriteState? && block.code[k].result in exports && block.code[k].result in registers {
        var id := block.code[k].result;
        var list := exports[id];
        assert SetOf(ExportsOf(exports, id)) == Naming(block, id);
        assert Naming(block, id) - SetOf(list[..0]) == Owed(block, k);
        for j := 0 to |list|
          invariant Performed(t, block, k, View(), first, temporaries, Naming(block, id) - SetOf(list[..j]))
        {
          assert list[j] in SetOf(list);
          OwedIsEager(t, block, k, list[j]);
          ExportOne(t, k, temporaries, Naming(block, id) - SetOf(list[..j]), list[j], registers[id]);
          assert Naming(block, id) - SetOf(list[..j + 1]) == Naming(block, id) - SetOf(list[..j]) - {list[j]};
        }
        assert list[..|list|] == list;
        assert Naming(block, id) - SetOf(list) == {};
      } else {
        if block.code[k].Compute? || block.code[k].Mux? {
          assert SetOf(ExportsOf(exports, block.code[k].result)) == Naming(block, block.code[k].result);
        }
        assert Owed(block, k) == {};
      }
    }

    method FinishInstruction(ghost t: Target, k: nat, temporaries: seq<nat>)
      requires WellFormed(block) && ExportsKnown(block, exports) && k < |block.code|
      requires Performed(t, block, k, View(), first, temporaries, Owed(block, k))
      modifies this
      ensures Ready(t, block, k + 1, View(), first) && |used| == |old(used)|
    {
      hide Performed, After, WellFormed, Valid, Holds, Concluded, Ready, ReleasedAt, Located;
      ghost var values := After(t, block, k + 1).values;
      ExportResult(t, k, temporaries);
      ghost var e1 := View();
      PerformedBasics(t, block, k, e1, first, temporaries, {});
      ReleaseSources(t, values, Sources(block.code[k]), temporaries);
      ghost var e2 := View();
      ReleasedConcludes(t, block, k, e1, e2, first, temporaries);
      Unpin();
      ghost var e3 := View();
      UnpinnedConcludes(t, block, k, e2, e3, first);
      ConcludedBasics(t, block, k, e3, first);
      if !block.code[k].WriteState? && CountOf(references, block.code[k].result) == 0 {
        Forget(t, values, block.code[k].result);
        ForgottenConcludes(t, block, k, e3, View(), first, block.code[k].result);
      }
      ConcludedReady(t, block, k, View(), first);
    }

    method Lower(ghost t: Target, k: nat) returns (ok: bool)
      requires WellFormed(block) && ExportsKnown(block, exports) && k < |block.code| && Ready(t, block, k, View(), first)
      modifies this
      ensures ok ==> Ready(t, block, k + 1, View(), first) && |used| == |old(used)| && InstructionFits(block.code[k], opcodes)
      ensures !ok ==> |old(used)| - first < 7 || !InstructionFits(block.code[k], opcodes)
    {
      hide Performed, WellFormed, Ready, ExportsKnown;
      var temporaries: seq<nat> := [];
      match block.code[k] {
        case Compute(_, _, _) => ok, temporaries := LowerCompute(t, k);
        case Mux(_, _, _, _, _) => ok, temporaries := LowerMux(t, k);
        case ReadState(_, _) => LowerReadState(t, k); ok := true;
        case WriteState(_, _) => ok, temporaries := LowerWriteState(t, k);
      }
      if ok {
        FinishInstruction(t, k, temporaries);
      }
    }

    // ----- the whole block -----

    method BindInputs(ghost t: Target)
      requires Fresh(View()) && MemoryValid(View()) && inputAddresses == map[] && first <= |used|
      requires forall id: nat :: CountOf(references, id) == UsesBefore(block, |block.code|, id)
      modifies this
      ensures Ready(t, block, 0, View(), first) && |used| == |old(used)|
    {
      hide MemoryValid;
      ghost var start := View();
      for k := 0 to |block.inputs|
        invariant MemoryValid(View()) && View() == start.(bindings := bindings, inputAddresses := inputAddresses)
        invariant forall id: nat :: id in inputAddresses <==> id in block.inputs[..k]
      {
        InputMemory(View(), block.inputs[k]);
        var address := Address(InputName(block.inputs[k]));
        inputAddresses := inputAddresses[block.inputs[k] := address];
      }
      assert block.inputs[..|block.inputs|] == block.inputs;
      FreshReady(t, block, View(), first);
    }

    /** Stores result `index` from register `r`, which is given back. */
    method StoreResult(index: nat, r: nat)
      requires index < |block.results| && r < |used|
      requires forall id: nat :: id in registers ==> block.results[index] == Virtual(id)
      modifies this
      ensures var e, name := old(View()), ExportName(index);
              View() == ResultStored(e.(bindings := Bound(e.bindings, name)), r, IndexOf(e.bindings, name))
    {
      var address := Address(ExportName(index));
      Emit(StoreSlot(r, address));
      used := used[r := false];
      if block.results[index].Virtual? {
        registers := registers - {block.results[index].id};
      }
      assert registers == map[];
    }

    /** Exports result `index`, unless that was done where it was computed. */
    method YieldOne(ghost t: Target, index: nat) returns (ok: bool)
      requires WellFormed(block) && index < |block.results|
      requires Yielding(t, block, After(t, block, |block.code|), View(), first, index)
      modifies this
      ensures ok ==> Yielding(t, block, After(t, block, |block.code|), View(), first, index + 1) && |used| == |old(used)|
      ensures ok ==> !TooWide(block.results[index])
      ensures !ok ==> |old(used)| <= first || TooWide(block.results[index])
    {
      hide Yielding, WellFormed, After, Sourced, Exhausted, FileValid, MemoryValid, HoldsIn, Run, Final, Available, Eager, IndexOf, Bound;
      ghost var p := After(t, block, |block.code|);
      ghost var start := View();
      var operand := block.results[index];
      YieldingBasics(t, block, start, first, index);
      if operand.Virtual? && operand.id !in inputAddresses && operand.id !in stateAddresses {
        YieldSkips(t, block, p, start, first, index);
        return true;
      }
      YieldReady(t, block, start, first, index);
      var reg := Source(t, Final(t, p), {}, operand);
      if reg.None? {
        if first < |start.used| {
          YieldSucceeds(start, first);
        }
        return false;
      }
      var r := reg.value;
      YieldStores(t, block, p, start, View(), first, index, r);
      StoreResult(index, r);
      ok := true;
    }

    /** Commits the writes, exports what is not yet exported, and ends the program. */
    method Yield(ghost t: Target) returns (ok: bool)
      requires WellFormed(block) && Ready(t, block, |block.code|, View(), first)
      modifies this
      ensures ok ==> Implements(t, block, bindings, words) && SourcesFit(block.results)
      ensures !ok ==> |old(used)| <= first || !SourcesFit(block.results)
    {
      hide Ready, Yielding, WellFormed, After, Implements, Run, Bookkept, MemoryValid, CommitsTo;
      ghost var start := View();
      YieldStarts(t, block, start, first);
      if pendingWrites > 0 {
        Emit(Commit);
        pendingWrites := 0;
      }
      YieldBegins(t, block, start, View(), first);
      for index := 0 to |block.results|
        invariant Yielding(t, block, After(t, block, |block.code|), View(), first, index)
        invariant |used| == |start.used| && SourcesFit(block.results[..index])
      {
        ok := YieldOne(t, index);
        if !ok {
          return;
        }
      }
      assert block.results[..|block.results|] == block.results;
      YieldImplements(t, block, View(), first);
      assert words + [Commit, Finish] == words + [Commit] + [Finish];
      Emit(Commit);
      Emit(Finish);
      ok := true;
    }

    method Encode(ghost t: Target) returns (ok: bool)
      requires WellFormed(block) && ExportsKnown(block, exports) && Fresh(View()) && MemoryValid(View()) && inputAddresses == map[]
      requires first <= |used| && forall id: nat :: CountOf(references, id) == UsesBefore(block, |block.code|, id)
      modifies this
      ensures ok ==> Implements(t, block, bindings, words) && Fits(block, opcodes)
      ensures !ok ==> |old(used)| - first < 7 || !Fits(block, opcodes)
    {
      hide Ready, WellFormed, Implements, ExportsKnown, Fresh, MemoryValid, SourcesFit, InstructionFits;
      BindInputs(t);
      for k := 0 to |block.code|
        invariant Ready(t, block, k, View(), first) && |used| == |old(used)|
        invariant forall j :: 0 <= j < k ==> InstructionFits(block.code[j], opcodes)
      {
        ok := Lower(t, k);
        if !ok {
          return;
        }
      }
      ok := Yield(t);
    }
  }

  predicate Fits(block: Block, opcodes: set<nat>) {
    SourcesFit(block.results) && forall k :: 0 <= k < |block.code| ==> InstructionFits(block.code[k], opcodes)
  }

  datatype Program = Program(bindings: seq<Binding>, words: seq<Word>)

  /** The emitted words cannot depend on the ghost `t`: they implement the block on every target. */
  method EncodeBlock(block: Block, first: nat, count: nat, opcodes: set<nat>, ghost t: Target) returns (program: Option<Program>)
    requires WellFormed(block) && first <= count
    ensures program.Some? ==> Implements(t, block, program.value.bindings, program.value.words) && Fits(block, opcodes)
    ensures count - first >= 7 && Fits(block, opcodes) ==> program.Some?
  {
    hide WellFormed, Implements, ExportsKnown, MemoryValid, Fits;
    var encoder := new Encoder(block, first, count, opcodes);
    FreshMemory(encoder.View());
    var ok := encoder.Encode(t);
    program := if ok then Some(Program(encoder.bindings, encoder.words)) else None;
  }
}
