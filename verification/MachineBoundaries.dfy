/** What the register allocator keeps from one instruction to the next. */
module MachineBoundaries {
  import opened MachineProgram
  import opened MachineEncoding
  import opened MachineOperands

  // ----- uses that are left -----

  function UsesBefore(block: Block, k: nat, id: nat): nat
    requires k <= |block.code|
  {
    if k == 0 then 0 else UsesBefore(block, k - 1, id) + Uses(Sources(block.code[k - 1]), id)
  }

  lemma {:induction false} UsesBeforeMonotonic(block: Block, j: nat, k: nat, id: nat)
    requires j <= k <= |block.code|
    ensures UsesBefore(block, j, id) <= UsesBefore(block, k, id)
    decreases k
  {
    if j < k {
      UsesBeforeMonotonic(block, j, k - 1, id);
    }
  }

  lemma {:induction false} UsesMember(operands: seq<Operand>, id: nat)
    requires Virtual(id) in operands
    ensures Uses(operands, id) > 0
  {
    var last := |operands| - 1;
    if operands[last] != Virtual(id) {
      var j :| 0 <= j < |operands| && operands[j] == Virtual(id);
      assert operands[..last][j] == Virtual(id);
      UsesMember(operands[..last], id);
    }
  }

  /** Reference counts are the uses from instruction `k` on. */
  ghost predicate Counted(block: Block, k: nat, e: Encoding)
    requires k <= |block.code|
  {
    forall id: nat :: References(e, id) + UsesBefore(block, k, id) == UsesBefore(block, |block.code|, id)
  }

  lemma UsesLeft(block: Block, k: nat, e: Encoding, id: nat)
    requires k < |block.code| && Counted(block, k, e)
    ensures References(e, id) >= Uses(Sources(block.code[k]), id)
  {
    UsesBeforeMonotonic(block, k + 1, |block.code|, id);
  }

  // ----- states, inputs and exports -----

  /** `cells` holds, at the addresses of the states, what was written to them. */
  ghost predicate StatesMatch(names: seq<Binding>, cells: map<nat, nat>, writes: map<nat, nat>) {
    && (forall a: nat :: a in cells ==>
          a < |names| && names[a].StateName? && names[a].state in writes && cells[a] == writes[names[a].state])
    && (forall s: nat :: s in writes ==> Written(names, cells, s))
  }

  ghost predicate Written(names: seq<Binding>, cells: map<nat, nat>, state: nat) {
    exists a: nat :: a in cells && a < |names| && names[a] == StateName(state)
  }

  /** The slot of export `index` holds `value`. */
  ghost predicate Exported(t: Target, e: Encoding, index: nat, value: nat) {
    Exports(t, e.bindings, Now(t, e), index, value)
  }

  /** A result that is exported where its value is computed: neither an input nor the read of a state. */
  predicate Eager(block: Block, p: Progress, index: nat) {
    index < |block.results| && block.results[index].Virtual?
    && block.results[index].id in p.values && block.results[index].id !in block.inputs && block.results[index].id !in p.observed
  }

  function Naming(block: Block, id: nat): (indices: set<nat>) {
    set index: nat | index < |block.results| && block.results[index] == Virtual(id)
  }

  ghost predicate Addressed(block: Block, p: Progress, e: Encoding) {
    && (forall id: nat :: id in e.inputAddresses <==> id in block.inputs)
    && (forall id: nat :: id in e.stateAddresses <==> id in p.observed)
    && (forall id: nat :: id in e.stateAddresses ==>
          e.stateAddresses[id] < |e.bindings| && e.bindings[e.stateAddresses[id]] == StateName(p.observed[id]))
  }

  ghost predicate EagerlyExported(t: Target, block: Block, p: Progress, e: Encoding, missing: set<nat>) {
    forall index: nat :: Eager(block, p, index) && index !in missing ==> Exported(t, e, index, p.values[block.results[index].id])
  }

  /** Addresses, state writes and exports are those of `p`, except for the exports in `missing`. */
  ghost predicate Bookkept(t: Target, block: Block, p: Progress, e: Encoding, missing: set<nat>) {
    && Addressed(block, p, e)
    && Now(t, e).states == map[] && StatesMatch(e.bindings, Now(t, e).pending, p.writes)
    && (e.pendingWrites == 0 <==> p.writes == map[])
    && EagerlyExported(t, block, p, e, missing)
  }

  lemma ExportedFramed(t: Target, e: Encoding, e': Encoding, index: nat, value: nat)
    requires Frame(t, e, e') && Exported(t, e, index, value)
    ensures Exported(t, e', index, value)
  {
    hide Run;
    var a: nat :| a < |e.bindings| && e.bindings[a] == ExportName(index) && Slot(t, e.bindings, Now(t, e), a) == value;
    assert a < |e'.bindings| && e'.bindings[a] == ExportName(index);
  }

  lemma StatesMatchMore(names: seq<Binding>, more: seq<Binding>, cells: map<nat, nat>, writes: map<nat, nat>)
    requires StatesMatch(names, cells, writes) && names <= more
    ensures StatesMatch(more, cells, writes)
  {
    forall s: nat | s in writes
      ensures Written(more, cells, s)
    {
      assert Written(names, cells, s);
      var a: nat :| a in cells && a < |names| && names[a] == StateName(s);
      assert a < |more| && more[a] == StateName(s);
    }
  }

  lemma EagerlyExportedFramed(t: Target, block: Block, p: Progress, e: Encoding, e': Encoding, missing: set<nat>)
    requires EagerlyExported(t, block, p, e, missing) && Frame(t, e, e')
    ensures EagerlyExported(t, block, p, e', missing)
  {
    hide Frame, Run, Exported;
    forall index: nat | Eager(block, p, index) && index !in missing
      ensures Exported(t, e', index, p.values[block.results[index].id])
    {
      ExportedFramed(t, e, e', index, p.values[block.results[index].id]);
    }
  }

  lemma BookkeptFramed(t: Target, block: Block, p: Progress, e: Encoding, e': Encoding, missing: set<nat>)
    requires Bookkept(t, block, p, e, missing) && Frame(t, e, e')
    ensures Bookkept(t, block, p, e', missing)
  {
    hide Run, EagerlyExported, StatesMatch;
    StatesMatchMore(e.bindings, e'.bindings, Now(t, e).pending, p.writes);
    EagerlyExportedFramed(t, block, p, e, e', missing);
  }

  /** Once a value is computed, only its own exports are missing. */
  lemma BookkeptDefined(t: Target, block: Block, p: Progress, e: Encoding, id: nat, value: nat)
    requires Bookkept(t, block, p, e, {}) && id !in p.values
    ensures Bookkept(t, block, p.(values := p.values[id := value]), e, Naming(block, id))
  {
    hide Run, Exported, StatesMatch;
    var p' := p.(values := p.values[id := value]);
    forall index: nat | Eager(block, p', index) && index !in Naming(block, id)
      ensures Exported(t, e, index, p'.values[block.results[index].id])
    {
      assert Eager(block, p, index);
    }
  }

  // ----- between instructions -----

  ghost predicate AllAvailable(p: Progress, e: Encoding) {
    forall id: nat :: id in p.values && References(e, id) > 0 ==> Available(e, id)
  }

  ghost predicate OnlyNeeded(e: Encoding) {
    forall id: nat :: Located(e, id) ==> References(e, id) > 0
  }

  /** Before instruction `k`: what is needed later can be had, and everything recorded is true. */
  ghost predicate Ready(t: Target, block: Block, k: nat, e: Encoding, first: nat)
    requires k <= |block.code|
  {
    var p := After(t, block, k);
    && Valid(e, first, {}) && Holds(t, p.values, e, {}) && NothingPinned(e) && Counted(block, k, e)
    && AllAvailable(p, e) && OnlyNeeded(e) && Bookkept(t, block, p, e, {})
  }

  predicate Defines(instruction: Instruction, id: nat) {
    !instruction.WriteState? && instruction.result == id
  }

  /** The exports that instruction `k` owes. */
  function Owed(block: Block, k: nat): set<nat>
    requires k < |block.code|
  {
    if block.code[k].Compute? || block.code[k].Mux? then Naming(block, block.code[k].result) else {}
  }

  ghost predicate NeededOrDefined(block: Block, k: nat, e: Encoding)
    requires k < |block.code|
  {
    forall id: nat :: Located(e, id) ==> References(e, id) > 0 || Defines(block.code[k], id)
  }

  /** Instruction `k` has been carried out, except for the exports in `missing`; its operands are not yet released. */
  ghost predicate Performed(t: Target, block: Block, k: nat, e: Encoding, first: nat, temporaries: seq<nat>, missing: set<nat>)
    requires k < |block.code|
  {
    var p := After(t, block, k + 1);
    && Valid(e, first, SetOf(temporaries)) && Holds(t, p.values, e, {}) && Counted(block, k, e)
    && (forall i, j :: 0 <= i < j < |temporaries| ==> temporaries[i] != temporaries[j])
    && AllAvailable(p, e) && NeededOrDefined(block, k, e) && Bookkept(t, block, p, e, missing)
    && (!block.code[k].WriteState? ==> (block.code[k].result in e.registers <==> !block.code[k].ReadState?))
  }

  lemma AvailableFramed(t: Target, p: Progress, e: Encoding, e': Encoding)
    requires AllAvailable(p, e) && Frame(t, e, e')
    ensures AllAvailable(p, e')
  {
    hide Run;
    forall id: nat | id in p.values && References(e', id) > 0
      ensures Available(e', id)
    {
      assert Available(e, id);
    }
  }

  lemma AvailableDefined(p: Progress, e: Encoding, id: nat, value: nat)
    requires AllAvailable(p, e) && Available(e, id)
    ensures AllAvailable(p.(values := p.values[id := value]), e)
  {
  }

  lemma CountedFramed(t: Target, block: Block, k: nat, e: Encoding, e': Encoding)
    requires k <= |block.code| && Counted(block, k, e) && e'.references == e.references
    ensures Counted(block, k, e')
  {
    forall id: nat
      ensures References(e', id) == References(e, id)
    {
    }
  }

  ghost predicate LocatesOperands(block: Block, k: nat, start: Encoding, e: Encoding)
    requires k < |block.code|
  {
    forall id: nat :: Located(e, id) ==> Located(start, id) || Virtual(id) in Sources(block.code[k]) || Defines(block.code[k], id)
  }

  lemma StillNeeded(block: Block, k: nat, start: Encoding, e: Encoding)
    requires k < |block.code| && Counted(block, k, start) && OnlyNeeded(start) && e.references == start.references
    requires LocatesOperands(block, k, start, e)
    ensures NeededOrDefined(block, k, e)
  {
    hide Located;
    forall id: nat | Located(e, id)
      ensures References(e, id) > 0 || Defines(block.code[k], id)
    {
      assert References(e, id) == References(start, id);
      if Virtual(id) in Sources(block.code[k]) {
        UsesMember(Sources(block.code[k]), id);
        UsesLeft(block, k, start, id);
      }
    }
  }

  /** A result was computed without losing anything. */
  lemma ResultPerformed(t: Target, block: Block, k: nat, start: Encoding, e: Encoding, first: nat, temporaries: seq<nat>, value: nat)
    requires k < |block.code| && (block.code[k].Compute? || block.code[k].Mux?) && Ready(t, block, k, start, first)
    requires var p, id := After(t, block, k), block.code[k].result;
             && After(t, block, k + 1) == p.(values := p.values[id := value]) && id !in p.values && id in e.registers
             && Holds(t, p.values[id := value], e, {})
    requires Valid(e, first, SetOf(temporaries)) && Frame(t, start, e) && LocatesOperands(block, k, start, e)
    requires forall i, j :: 0 <= i < j < |temporaries| ==> temporaries[i] != temporaries[j]
    ensures Performed(t, block, k, e, first, temporaries, Owed(block, k))
  {
    hide HoldsIn, FileValid, MemoryValid, Run, Frame, After, Bookkept, AllAvailable, OnlyNeeded, LocatesOperands, NeededOrDefined, Counted;
    var p, id := After(t, block, k), block.code[k].result;
    FrameReferences(t, start, e);
    CountedFramed(t, block, k, start, e);
    AvailableFramed(t, p, start, e);
    AvailableDefined(p, e, id, value);
    StillNeeded(block, k, start, e);
    BookkeptFramed(t, block, p, start, e, {});
    BookkeptDefined(t, block, p, e, id, value);
  }

  lemma FrameReferences(t: Target, e: Encoding, e': Encoding)
    requires Frame(t, e, e')
    ensures e'.references == e.references && |e'.used| == |e.used| && |e'.pinned| == |e.pinned|
  {
  }

  // ----- exports -----

  lemma ExportStored(t: Target, block: Block, p: Progress, e: Encoding, e': Encoding, missing: set<nat>, index: nat, rs: nat, address: nat)
    requires Bookkept(t, block, p, e, missing) && MemoryValid(e) && Eager(block, p, index)
    requires address < |e.bindings| && e.bindings[address] == ExportName(index)
    requires e' == e.(words := e.words + [StoreSlot(rs, address)])
    requires Register(Now(t, e), rs) == p.values[block.results[index].id]
    requires Now(t, e') == Now(t, e).(slots := Now(t, e).slots[address := Register(Now(t, e), rs)])
    ensures Bookkept(t, block, p, e', missing - {index})
  {
    hide Run, StatesMatch;
    forall other: nat | Eager(block, p, other) && other !in missing - {index}
      ensures Exported(t, e', other, p.values[block.results[other].id])
    {
      if other == index {
        assert Slot(t, e'.bindings, Now(t, e'), address) == p.values[block.results[other].id];
      } else {
        OtherExport(t, e, e', address, other, p.values[block.results[other].id], Register(Now(t, e), rs));
      }
    }
  }

  lemma OtherExport(t: Target, e: Encoding, e': Encoding, address: nat, other: nat, value: nat, stored: nat)
    requires Exported(t, e, other, value) && e'.bindings == e.bindings
    requires address < |e.bindings| && e.bindings[address] != ExportName(other)
    requires Now(t, e') == Now(t, e).(slots := Now(t, e).slots[address := stored])
    ensures Exported(t, e', other, value)
  {
    hide Run;
    var a: nat :| a < |e.bindings| && e.bindings[a] == ExportName(other) && Slot(t, e.bindings, Now(t, e), a) == value;
    assert Slot(t, e'.bindings, Now(t, e'), a) == value;
  }

  // ----- releasing -----

  /** Instruction `k` has been carried out and its operands are released; its result may be without uses. */
  ghost predicate Concluded(t: Target, block: Block, k: nat, e: Encoding, first: nat)
    requires k < |block.code|
  {
    var p := After(t, block, k + 1);
    && Valid(e, first, {}) && Holds(t, p.values, e, {}) && Counted(block, k + 1, e)
    && AllAvailable(p, e) && NeededOrDefined(block, k, e) && Bookkept(t, block, p, e, {})
  }

  lemma ReleasedConcludes(t: Target, block: Block, k: nat, e: Encoding, e': Encoding, first: nat, temporaries: seq<nat>)
    requires k < |block.code| && Performed(t, block, k, e, first, temporaries, {})
    requires Valid(e', first, {}) && Holds(t, After(t, block, k + 1).values, e', {}) && Released(e, e', Sources(block.code[k]))
    ensures Concluded(t, block, k, e', first)
  {
    hide HoldsIn, FileValid, MemoryValid, Run, After, AllAvailable, NeededOrDefined, Counted, Bookkept, ReleasedAt;
    ReleasedCounts(block, k, e, e');
    ReleasedAvailable(After(t, block, k + 1), e, e', Sources(block.code[k]));
    ReleasedNeeded(block, k, e, e', Sources(block.code[k]));
    BookkeptSame(t, block, After(t, block, k + 1), e, e');
  }

  lemma ReleasedCounts(block: Block, k: nat, e: Encoding, e': Encoding)
    requires k < |block.code| && Counted(block, k, e) && Released(e, e', Sources(block.code[k]))
    ensures Counted(block, k + 1, e')
  {
    hide References, Located;
    forall id: nat
      ensures References(e', id) + UsesBefore(block, k + 1, id) == UsesBefore(block, |block.code|, id)
    {
      assert ReleasedAt(e, e', id, Uses(Sources(block.code[k]), id));
    }
  }

  lemma ReleasedAvailable(p: Progress, e: Encoding, e': Encoding, operands: seq<Operand>)
    requires AllAvailable(p, e) && Released(e, e', operands)
    ensures AllAvailable(p, e')
  {
    hide References;
    forall id: nat | id in p.values && References(e', id) > 0
      ensures Available(e', id)
    {
      assert ReleasedAt(e, e', id, Uses(operands, id));
      assert Available(e, id);
    }
  }

  lemma ReleasedNeeded(block: Block, k: nat, e: Encoding, e': Encoding, operands: seq<Operand>)
    requires k < |block.code| && NeededOrDefined(block, k, e) && Released(e, e', operands)
    ensures NeededOrDefined(block, k, e')
  {
    hide References;
    forall id: nat | Located(e', id)
      ensures References(e', id) > 0 || Defines(block.code[k], id)
    {
      assert ReleasedAt(e, e', id, Uses(operands, id));
    }
  }

  lemma BookkeptSame(t: Target, block: Block, p: Progress, e: Encoding, e': Encoding)
    requires Bookkept(t, block, p, e, {}) && e'.bindings == e.bindings && e'.words == e.words && e'.pendingWrites == e.pendingWrites
    requires e'.stateAddresses == e.stateAddresses && e'.inputAddresses == e.inputAddresses
    ensures Bookkept(t, block, p, e', {})
  {
    hide Run, StatesMatch;
    assert Now(t, e') == Now(t, e);
    forall index: nat | Eager(block, p, index)
      ensures Exported(t, e', index, p.values[block.results[index].id])
    {
      assert Exported(t, e, index, p.values[block.results[index].id]);
      var a: nat :| a < |e.bindings| && e.bindings[a] == ExportName(index)
                    && Slot(t, e.bindings, Now(t, e), a) == p.values[block.results[index].id];
      assert a < |e'.bindings| && e'.bindings[a] == ExportName(index);
    }
  }

  lemma UnpinnedConcludes(t: Target, block: Block, k: nat, e: Encoding, e': Encoding, first: nat)
    requires k < |block.code| && Concluded(t, block, k, e, first)
    requires e' == e.(pinned := e'.pinned) && |e'.pinned| == |e.pinned|
    ensures Concluded(t, block, k, e', first)
  {
    hide HoldsIn, FileValid, MemoryValid, Run, After, Counted, Bookkept;
    FileSame(e, e', first, {});
    SamePlacesHold(t, After(t, block, k + 1).values, e, e', {});
    CountedFramed(t, block, k + 1, e, e');
    BookkeptSame(t, block, After(t, block, k + 1), e, e');
    forall id: nat
      ensures Located(e', id) == Located(e, id) && References(e', id) == References(e, id) && Available(e', id) == Available(e, id)
    {
    }
  }

  lemma ConcludedReady(t: Target, block: Block, k: nat, e: Encoding, first: nat)
    requires k < |block.code| && Concluded(t, block, k, e, first) && NothingPinned(e)
    requires forall id: nat :: Defines(block.code[k], id) && References(e, id) == 0 ==> !Located(e, id)
    ensures Ready(t, block, k + 1, e, first)
  {
    hide HoldsIn, FileValid, MemoryValid, Run, After, Counted, Bookkept;
  }

  /** Forgetting a result that nothing uses. */
  lemma ForgottenConcludes(t: Target, block: Block, k: nat, e: Encoding, e': Encoding, first: nat, id: nat)
    requires k < |block.code| && Concluded(t, block, k, e, first) && References(e, id) == 0 && Forgot(e, e', id)
    requires Valid(e', first, {}) && Holds(t, After(t, block, k + 1).values, e', {})
    ensures Concluded(t, block, k, e', first) && !Located(e', id) && e'.pinned == e.pinned && References(e', id) == 0
  {
    hide HoldsIn, FileValid, MemoryValid, Run, After, Counted, Bookkept;
    CountedFramed(t, block, k + 1, e, e');
    BookkeptSame(t, block, After(t, block, k + 1), e, e');
    forall other: nat
      ensures References(e', other) == References(e, other) && (Located(e', other) <==> Located(e, other) && other != id)
    {
    }
    forall other: nat | other in After(t, block, k + 1).values && References(e', other) > 0
      ensures Available(e', other)
    {
      assert Available(e, other);
    }
  }

  // ----- what an encoder that is ready has -----

  lemma {:induction false} UsedLater(block: Block, k: nat, j: nat, id: nat)
    requires k <= j < |block.code| && Virtual(id) in Sources(block.code[j])
    ensures UsesBefore(block, k, id) < UsesBefore(block, |block.code|, id)
  {
    UsesMember(Sources(block.code[j]), id);
    UsesBeforeMonotonic(block, k, j, id);
    UsesBeforeMonotonic(block, j + 1, |block.code|, id);
  }

  /** A value that a later instruction uses is in its register, or in its spill slot, or where its state or input is. */
  lemma NeededValueIsHeld(t: Target, block: Block, k: nat, e: Encoding, first: nat, j: nat, id: nat)
    requires k <= j < |block.code| && Ready(t, block, k, e, first)
    requires id in After(t, block, k).values && Virtual(id) in Sources(block.code[j])
    ensures var m, value := Now(t, e), After(t, block, k).values[id];
            || (id in e.registers && Register(m, e.registers[id]) == value)
            || (id in e.spills && Slot(t, e.bindings, m, e.spills[id]) == value)
            || (id in e.stateAddresses && Stored(t, e.bindings, m, e.stateAddresses[id]) == value)
            || (id in e.inputAddresses && Slot(t, e.bindings, m, e.inputAddresses[id]) == value)
  {
    hide FileValid, MemoryValid, Run, After, Bookkept;
    UsedLater(block, k, j, id);
    assert References(e, id) > 0;
  }

  /** No two values share a register, and a register is in use exactly when it holds a value that is used later. */
  lemma RegistersAreNotShared(t: Target, block: Block, k: nat, e: Encoding, first: nat)
    requires k <= |block.code| && Ready(t, block, k, e, first)
    ensures forall a, b :: a in e.registers && b in e.registers && a != b ==> e.registers[a] != e.registers[b]
    ensures forall r: nat :: first <= r < |e.used| ==>
              (e.used[r] <==> exists id: nat :: id in e.registers && e.registers[id] == r && References(e, id) > 0)
  {
    hide HoldsIn, MemoryValid, Run, After, Bookkept;
    forall r: nat | first <= r < |e.used|
      ensures e.used[r] <==> exists id: nat :: id in e.registers && e.registers[id] == r && References(e, id) > 0
    {
      if e.used[r] {
        assert Assigned(e, r);
        var id :| id in e.registers && e.registers[id] == r;
        assert Located(e, id);
      } else {
        assert !Assigned(e, r);
      }
    }
  }
}
