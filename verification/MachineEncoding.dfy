/** The state of the register allocator as one value: where each value is held, and what a step leaves alone. */
module MachineEncoding {
  import opened MachineProgram

  // ----- the encoder's state, as one value -----

  datatype Encoding = Encoding(
    registers: map<nat, nat>,
    used: seq<bool>,
    pinned: seq<bool>,
    references: map<nat, nat>,
    spills: map<nat, nat>,
    stateAddresses: map<nat, nat>,
    inputAddresses: map<nat, nat>,
    bindings: seq<Binding>,
    words: seq<Word>,
    nextSpill: nat,
    pendingWrites: nat)

  predicate Assigned(e: Encoding, r: nat) {
    exists id :: id in e.registers && e.registers[id] == r
  }

  /** Registers hold one value each, or are held as temporaries, or are unused. */
  ghost predicate FileValid(e: Encoding, first: nat, held: set<nat>) {
    && |e.used| == |e.pinned| && first <= |e.used|
    && (forall id :: id in e.registers ==> first <= e.registers[id] < |e.used|)
    && (forall a, b :: a in e.registers && b in e.registers && e.registers[a] == e.registers[b] ==> a == b)
    && (forall r :: r in held ==> first <= r < |e.used| && !Assigned(e, r))
    && (forall r: nat :: first <= r < |e.used| ==> (e.used[r] <==> r in held || Assigned(e, r)))
  }

  predicate MayStore(names: seq<Binding>, word: Word) {
    !word.Finish? && (word.StoreSlot? ==> word.address < |names| && (names[word.address].SpillName? || names[word.address].ExportName?))
  }

  /** Only spill slots and exports are written, and the program does not end yet. */
  ghost predicate StoresOnly(names: seq<Binding>, words: seq<Word>) {
    forall k :: 0 <= k < |words| ==> MayStore(names, words[k])
  }

  lemma StepSlots(t: Target, names: seq<Binding>, m: Machine, word: Word, a: nat)
    ensures a in Step(t, names, m, word).slots ==> a in m.slots || (word.StoreSlot? && word.address == a)
  {
  }

  lemma {:induction false} WrittenSlots(t: Target, names: seq<Binding>, words: seq<Word>, a: nat)
    requires StoresOnly(names, words) && a in Run(t, names, words).slots
    ensures a < |names| && (names[a].SpillName? || names[a].ExportName?)
  {
    hide Step;
    if words != [] {
      var front, word := words[..|words| - 1], words[|words| - 1];
      assert MayStore(names, word);
      StepSlots(t, names, Run(t, names, front), word, a);
      if a in Run(t, names, front).slots {
        WrittenSlots(t, names, front, a);
      }
    }
  }

  /** Addresses are bound to what they are used for. */
  ghost predicate MemoryValid(e: Encoding) {
    && Distinct(e.bindings) && AddressesBelow(e.words, |e.bindings|) && StoresOnly(e.bindings, e.words)
    && (forall id :: id in e.spills ==> e.spills[id] < |e.bindings| && e.bindings[e.spills[id]].SpillName?)
    && (forall i :: 0 <= i < |e.bindings| && e.bindings[i].SpillName? ==> e.bindings[i].spill < e.nextSpill)
    && (forall id :: id in e.stateAddresses ==>
          e.stateAddresses[id] < |e.bindings| && e.bindings[e.stateAddresses[id]].StateName?)
    && (forall id :: id in e.inputAddresses ==>
          e.inputAddresses[id] < |e.bindings| && e.bindings[e.inputAddresses[id]] == InputName(id))
  }

  ghost predicate Valid(e: Encoding, first: nat, held: set<nat>) {
    FileValid(e, first, held) && MemoryValid(e)
  }

  function Now(t: Target, e: Encoding): Machine {
    Run(t, e.bindings, e.words)
  }

  /** Every place that is said to hold a value holds it in `m`; `pending` registers are still to be written. */
  ghost predicate HoldsIn(t: Target, values: map<nat, nat>, e: Encoding, m: Machine, pending: set<nat>) {
    && (forall id :: id in e.registers && id !in pending ==> id in values && Register(m, e.registers[id]) == values[id])
    && (forall id :: id in e.spills ==> id in values && Slot(t, e.bindings, m, e.spills[id]) == values[id])
    && (forall id :: id in e.inputAddresses ==> id in values && Slot(t, e.bindings, m, e.inputAddresses[id]) == values[id])
    && (forall id :: id in e.stateAddresses ==> id in values && Stored(t, e.bindings, m, e.stateAddresses[id]) == values[id])
  }

  ghost predicate Holds(t: Target, values: map<nat, nat>, e: Encoding, pending: set<nat>) {
    HoldsIn(t, values, e, Now(t, e), pending)
  }

  // ----- binding addresses -----

  function IndexOf(names: seq<Binding>, name: Binding): (k: nat)
    ensures k <= |names|
    ensures k < |names| ==> names[k] == name
    ensures forall j :: 0 <= j < k ==> names[j] != name
  {
    if names == [] then 0
    else if names[0] == name then 0
    else
      var k := IndexOf(names[1..], name);
      assert forall j :: 1 <= j < k + 1 ==> names[j] == names[1..][j - 1];
      k + 1
  }

  function Bound(names: seq<Binding>, name: Binding): seq<Binding> {
    if IndexOf(names, name) < |names| then names else names + [name]
  }

  lemma BoundDistinct(names: seq<Binding>, name: Binding)
    requires Distinct(names)
    ensures names <= Bound(names, name) && Distinct(Bound(names, name))
    ensures IndexOf(names, name) < |Bound(names, name)| && Bound(names, name)[IndexOf(names, name)] == name
  {
  }

  lemma AddressesGrow(words: seq<Word>, n: nat, m: nat)
    requires AddressesBelow(words, n) && n <= m
    ensures AddressesBelow(words, m)
  {
    forall k | 0 <= k < |words|
      ensures AddressBelow(words[k], m)
    {
      assert AddressBelow(words[k], n);
    }
  }

  lemma BindMemory(e: Encoding, name: Binding)
    requires MemoryValid(e) && !name.SpillName?
    ensures MemoryValid(e.(bindings := Bound(e.bindings, name)))
  {
    BoundDistinct(e.bindings, name);
    AddressesGrow(e.words, |e.bindings|, |Bound(e.bindings, name)|);
    StoresGrow(e.bindings, Bound(e.bindings, name), e.words);
  }

  lemma StoresGrow(names: seq<Binding>, more: seq<Binding>, words: seq<Word>)
    requires StoresOnly(names, words) && names <= more
    ensures StoresOnly(more, words)
  {
    forall k | 0 <= k < |words|
      ensures MayStore(more, words[k])
    {
      assert MayStore(names, words[k]);
    }
  }

  lemma BindHolds(t: Target, values: map<nat, nat>, e: Encoding, m: Machine, pending: set<nat>, names: seq<Binding>)
    requires MemoryValid(e) && HoldsIn(t, values, e, m, pending) && e.bindings <= names
    ensures HoldsIn(t, values, e.(bindings := names), m, pending)
  {
    assert forall a: nat :: a < |e.bindings| ==> Slot(t, names, m, a) == Slot(t, e.bindings, m, a);
    assert forall a: nat :: a < |e.bindings| ==> Stored(t, names, m, a) == Stored(t, e.bindings, m, a);
    BoundHolds(t, values, e, m, pending, names);
  }

  lemma BoundHolds(t: Target, values: map<nat, nat>, e: Encoding, m: Machine, pending: set<nat>, names: seq<Binding>)
    requires MemoryValid(e) && HoldsIn(t, values, e, m, pending)
    requires forall a: nat :: a < |e.bindings| ==> Slot(t, names, m, a) == Slot(t, e.bindings, m, a)
    requires forall a: nat :: a < |e.bindings| ==> Stored(t, names, m, a) == Stored(t, e.bindings, m, a)
    ensures HoldsIn(t, values, e.(bindings := names), m, pending)
  {
    hide Slot, Stored;
  }

  /** Binding one more name changes nothing that was there. */
  lemma BindValid(t: Target, values: map<nat, nat>, e: Encoding, first: nat, held: set<nat>, pending: set<nat>, name: Binding)
    requires Valid(e, first, held) && Holds(t, values, e, pending) && !name.SpillName?
    ensures var e' := e.(bindings := Bound(e.bindings, name));
            Valid(e', first, held) && Holds(t, values, e', pending) && Now(t, e') == Now(t, e)
  {
    hide HoldsIn, FileValid, MemoryValid, Run;
    var e' := e.(bindings := Bound(e.bindings, name));
    MemoryBasics(e);
    BoundDistinct(e.bindings, name);
    RunStable(t, e.bindings, e'.bindings, e.words);
    BindMemory(e, name);
    BindHolds(t, values, e, Now(t, e), pending, e'.bindings);
    FileSame(e, e', first, held);
  }

  lemma MemoryBasics(e: Encoding)
    requires MemoryValid(e)
    ensures Distinct(e.bindings) && AddressesBelow(e.words, |e.bindings|)
  {
  }

  lemma FileSame(e: Encoding, e': Encoding, first: nat, held: set<nat>)
    requires FileValid(e, first, held) && e'.registers == e.registers && e'.used == e.used && |e'.pinned| == |e.pinned|
    ensures FileValid(e', first, held)
  {
    forall r: nat
      ensures Assigned(e', r) <==> Assigned(e, r)
    {
    }
  }

  /** Use flags, pins and reference counts say nothing about contents. */
  predicate SamePlaces(e: Encoding, e': Encoding) {
    e' == e.(used := e'.used, pinned := e'.pinned, references := e'.references)
  }

  lemma SamePlacesHold(t: Target, values: map<nat, nat>, e: Encoding, e': Encoding, pending: set<nat>)
    requires MemoryValid(e) && Holds(t, values, e, pending) && SamePlaces(e, e')
    ensures MemoryValid(e') && Holds(t, values, e', pending) && Now(t, e') == Now(t, e)
  {
    hide Run;
    SamePlacesHoldIn(t, values, e, e', Now(t, e), pending);
  }

  lemma SamePlacesHoldIn(t: Target, values: map<nat, nat>, e: Encoding, e': Encoding, m: Machine, pending: set<nat>)
    requires HoldsIn(t, values, e, m, pending) && SamePlaces(e, e')
    ensures HoldsIn(t, values, e', m, pending)
  {
  }

  // ----- words that leave the bookkeeping alone -----

  lemma EmitMemory(e: Encoding, word: Word)
    requires MemoryValid(e) && AddressBelow(word, |e.bindings|) && MayStore(e.bindings, word)
    ensures MemoryValid(e.(words := e.words + [word]))
  {
  }

  lemma SlotsHold(t: Target, values: map<nat, nat>, e: Encoding, m: Machine, m': Machine, pending: set<nat>)
    requires HoldsIn(t, values, e, m, pending) && m'.registers == m.registers && m'.states == m.states
    requires forall id :: id in e.spills ==> Slot(t, e.bindings, m', e.spills[id]) == Slot(t, e.bindings, m, e.spills[id])
    requires forall id :: id in e.inputAddresses ==> Slot(t, e.bindings, m', e.inputAddresses[id]) == Slot(t, e.bindings, m, e.inputAddresses[id])
    ensures HoldsIn(t, values, e, m', pending)
  {
    hide Slot;
  }

  lemma StoreHolds(t: Target, values: map<nat, nat>, e: Encoding, m: Machine, pending: set<nat>, address: nat, value: nat)
    requires MemoryValid(e) && HoldsIn(t, values, e, m, pending) && address < |e.bindings|
    requires e.bindings[address].SpillName? || e.bindings[address].ExportName?
    requires forall id :: id in e.spills ==> e.spills[id] != address
    ensures HoldsIn(t, values, e, m.(slots := m.slots[address := value]), pending)
  {
    hide HoldsIn;
    SlotsHold(t, values, e, m, m.(slots := m.slots[address := value]), pending);
  }

  lemma EmitStore(t: Target, values: map<nat, nat>, e: Encoding, first: nat, held: set<nat>, pending: set<nat>, rs: nat, address: nat)
    requires Valid(e, first, held) && Holds(t, values, e, pending) && address < |e.bindings|
    requires e.bindings[address].SpillName? || e.bindings[address].ExportName?
    requires forall id :: id in e.spills ==> e.spills[id] != address
    ensures var e' := e.(words := e.words + [StoreSlot(rs, address)]);
            && Valid(e', first, held) && Holds(t, values, e', pending)
            && Now(t, e') == Now(t, e).(slots := Now(t, e).slots[address := Register(Now(t, e), rs)])
  {
    hide HoldsIn, FileValid, MemoryValid, Run;
    var word := StoreSlot(rs, address);
    RunAppend(t, e.bindings, e.words, word);
    EmitMemory(e, word);
    StoreHolds(t, values, e, Now(t, e), pending, address, Register(Now(t, e), rs));
    WordsDoNotMatter(t, values, e, e.words + [word], Now(t, e.(words := e.words + [word])), pending);
    FileSame(e, e.(words := e.words + [word]), first, held);
  }

  lemma WordsDoNotMatter(t: Target, values: map<nat, nat>, e: Encoding, words: seq<Word>, m: Machine, pending: set<nat>)
    ensures HoldsIn(t, values, e.(words := words), m, pending) <==> HoldsIn(t, values, e, m, pending)
  {
  }

  lemma PutHolds(t: Target, values: map<nat, nat>, e: Encoding, m: Machine, pending: set<nat>, rd: nat, value: nat)
    requires HoldsIn(t, values, e, m, pending) && forall id :: id in e.registers && e.registers[id] == rd ==> id in pending
    ensures HoldsIn(t, values, e, Put(m, rd, value), pending)
  {
  }

  /** A register is written that holds no value, or one that is still to be written. */
  lemma EmitPut(t: Target, values: map<nat, nat>, e: Encoding, first: nat, held: set<nat>, pending: set<nat>, word: Word, rd: nat, value: nat)
    requires Valid(e, first, held) && Holds(t, values, e, pending) && AddressBelow(word, |e.bindings|) && !word.StoreSlot? && !word.Finish?
    requires Step(t, e.bindings, Now(t, e), word) == Put(Now(t, e), rd, value)
    requires forall id :: id in e.registers && e.registers[id] == rd ==> id in pending
    ensures var e' := e.(words := e.words + [word]);
            Valid(e', first, held) && Holds(t, values, e', pending) && Now(t, e') == Put(Now(t, e), rd, value)
  {
    hide HoldsIn, FileValid, MemoryValid, Run, Step;
    RunAppend(t, e.bindings, e.words, word);
    EmitMemory(e, word);
    PutHolds(t, values, e, Now(t, e), pending, rd, value);
    WordsDoNotMatter(t, values, e, e.words + [word], Now(t, e.(words := e.words + [word])), pending);
    FileSame(e, e.(words := e.words + [word]), first, held);
  }

  // ----- what a step leaves alone -----

  /** Registers that may not be taken: pinned and in use. */
  predicate Safe(e: Encoding, r: nat) {
    r < |e.pinned| && r < |e.used| && e.pinned[r] && e.used[r]
  }

  predicate Located(e: Encoding, id: nat) {
    id in e.registers || id in e.spills
  }

  /** From `e` to `e'`, safe registers and bound memory keep their contents, and no value is lost. */
  ghost predicate Frame(t: Target, e: Encoding, e': Encoding) {
    && |e'.used| == |e.used| && |e'.pinned| == |e.pinned| && e.bindings <= e'.bindings
    && e'.references == e.references && e'.stateAddresses == e.stateAddresses && e'.inputAddresses == e.inputAddresses
    && e'.pendingWrites == e.pendingWrites
    && Now(t, e').states == Now(t, e).states && Now(t, e').pending == Now(t, e).pending
    && (forall a: nat :: a < |e.bindings| ==> Slot(t, e'.bindings, Now(t, e'), a) == Slot(t, e.bindings, Now(t, e), a))
    && (forall r: nat :: Safe(e, r) ==> Safe(e', r) && Register(Now(t, e'), r) == Register(Now(t, e), r))
    && (forall id :: id in e.registers && Safe(e, e.registers[id]) ==> id in e'.registers && e'.registers[id] == e.registers[id])
    && (forall id :: Located(e, id) ==> Located(e', id))
  }

  lemma FrameSelf(t: Target, e: Encoding)
    ensures Frame(t, e, e)
  {
  }

  lemma FrameTransitive(t: Target, a: Encoding, b: Encoding, c: Encoding)
    requires Frame(t, a, b) && Frame(t, b, c)
    ensures Frame(t, a, c)
  {
    hide Now, Slot, Register;
  }

  // ----- taking a register -----

  /** The encoding after the value in a register was moved to a new spill slot. */
  function Evicted(e: Encoding, victim: nat): Encoding
    requires victim in e.registers
  {
    var address := |e.bindings|;
    e.(registers := e.registers - {victim}, spills := e.spills[victim := address],
       bindings := e.bindings + [SpillName(e.nextSpill)],
       words := e.words + [StoreSlot(e.registers[victim], address)], nextSpill := e.nextSpill + 1)
  }

  lemma EvictedFile(e: Encoding, first: nat, held: set<nat>, victim: nat)
    requires FileValid(e, first, held) && victim in e.registers
    ensures FileValid(Evicted(e, victim), first, held + {e.registers[victim]}) && e.registers[victim] !in held
  {
    var e', r := Evicted(e, victim), e.registers[victim];
    forall q: nat
      ensures Assigned(e', q) <==> Assigned(e, q) && q != r
    {
      if Assigned(e, q) && q != r {
        var id :| id in e.registers && e.registers[id] == q;
        assert id in e'.registers && e'.registers[id] == q;
      }
    }
    assert Assigned(e, r);
  }

  lemma EvictedMemory(e: Encoding, victim: nat)
    requires MemoryValid(e) && victim in e.registers
    ensures MemoryValid(Evicted(e, victim))
  {
    var e' := Evicted(e, victim);
    AddressesGrow(e.words, |e.bindings|, |e'.bindings|);
    StoresGrow(e.bindings, e'.bindings, e.words);
  }

  lemma EvictedRuns(t: Target, e: Encoding, victim: nat)
    requires MemoryValid(e) && victim in e.registers
    ensures var m, address := Now(t, e), |e.bindings|;
            && Now(t, Evicted(e, victim)) == m.(slots := m.slots[address := Register(m, e.registers[victim])])
            && Untouched(m, address)
  {
    hide Run;
    var e' := Evicted(e, victim);
    RunStable(t, e.bindings, e'.bindings, e.words);
    RunAppend(t, e'.bindings, e.words, StoreSlot(e.registers[victim], |e.bindings|));
    RunUntouched(t, e.bindings, e.words, |e.bindings|);
  }

  lemma EvictedHolds(t: Target, values: map<nat, nat>, e: Encoding, m: Machine, pending: set<nat>, victim: nat)
    requires MemoryValid(e) && HoldsIn(t, values, e, m, pending) && victim in e.registers && victim !in pending
    requires Untouched(m, |e.bindings|)
    ensures HoldsIn(t, values, Evicted(e, victim),
                    m.(slots := m.slots[|e.bindings| := Register(m, e.registers[victim])]), pending)
  {
    var e', m' := Evicted(e, victim), m.(slots := m.slots[|e.bindings| := Register(m, e.registers[victim])]);
    forall a: nat | a < |e.bindings|
      ensures Slot(t, e'.bindings, m', a) == Slot(t, e.bindings, m, a)
      ensures Stored(t, e'.bindings, m', a) == Stored(t, e.bindings, m, a)
    {
    }
    EvictedContents(t, values, e, e', m, m', pending, victim);
  }

  lemma EvictedContents(t: Target, values: map<nat, nat>, e: Encoding, e': Encoding, m: Machine, m': Machine, pending: set<nat>, victim: nat)
    requires MemoryValid(e) && HoldsIn(t, values, e, m, pending) && victim in e.registers && victim !in pending
    requires e' == Evicted(e, victim) && m'.registers == m.registers
    requires forall a: nat :: a < |e.bindings| ==> Slot(t, e'.bindings, m', a) == Slot(t, e.bindings, m, a)
    requires forall a: nat :: a < |e.bindings| ==> Stored(t, e'.bindings, m', a) == Stored(t, e.bindings, m, a)
    requires Slot(t, e'.bindings, m', |e.bindings|) == Register(m, e.registers[victim])
    ensures HoldsIn(t, values, e', m', pending)
  {
    hide Slot, Stored;
  }

  lemma EvictedFrame(t: Target, e: Encoding, victim: nat)
    requires MemoryValid(e) && victim in e.registers && !Safe(e, e.registers[victim])
    ensures Frame(t, e, Evicted(e, victim))
    ensures Now(t, Evicted(e, victim)).registers == Now(t, e).registers
  {
    hide Run;
    EvictedRuns(t, e, victim);
  }

  /** Evicting a value keeps everything that is held. */
  lemma EvictedValid(t: Target, values: map<nat, nat>, e: Encoding, first: nat, held: set<nat>, pending: set<nat>, victim: nat)
    requires Valid(e, first, held) && Holds(t, values, e, pending) && victim in e.registers && victim !in pending
    ensures Valid(Evicted(e, victim), first, held + {e.registers[victim]}) && Holds(t, values, Evicted(e, victim), pending)
    ensures e.registers[victim] !in held
  {
    hide HoldsIn, FileValid, MemoryValid, Run;
    EvictedFile(e, first, held, victim);
    EvictedMemory(e, victim);
    EvictedRuns(t, e, victim);
    EvictedHolds(t, values, e, Now(t, e), pending, victim);
  }

  lemma TakenFile(e: Encoding, first: nat, held: set<nat>, r: nat)
    requires FileValid(e, first, held) && first <= r < |e.used| && !e.used[r]
    ensures FileValid(e.(used := e.used[r := true]), first, held + {r}) && r !in held
  {
    var e' := e.(used := e.used[r := true]);
    forall q: nat
      ensures Assigned(e', q) <==> Assigned(e, q)
    {
    }
  }

  lemma SamePlacesFrame(t: Target, e: Encoding, e': Encoding)
    requires SamePlaces(e, e') && e'.references == e.references && |e'.used| == |e.used| && |e'.pinned| == |e.pinned|
    requires forall r: nat :: Safe(e, r) ==> Safe(e', r)
    ensures Frame(t, e, e')
  {
    hide Run;
    assert forall id: nat :: Located(e', id) <==> Located(e, id);
  }

  lemma TakenValid(t: Target, values: map<nat, nat>, e: Encoding, first: nat, held: set<nat>, pending: set<nat>, r: nat)
    requires Valid(e, first, held) && Holds(t, values, e, pending) && first <= r < |e.used| && !e.used[r]
    ensures var e' := e.(used := e.used[r := true]);
            && Valid(e', first, held + {r}) && Holds(t, values, e', pending) && Frame(t, e, e') && r !in held
            && Now(t, e') == Now(t, e)
  {
    hide Run, Step, HoldsIn, FileValid, MemoryValid, Frame;
    var e' := e.(used := e.used[r := true]);
    TakenFile(e, first, held, r);
    SamePlacesHold(t, values, e, e', pending);
    SamePlacesFrame(t, e, e');
  }

  // ----- giving a register to a value -----

  function AssignedTo(e: Encoding, id: nat, r: nat): Encoding {
    e.(registers := e.registers[id := r])
  }

  /** A held register becomes the register of a value that has none; its contents are still to be written. */
  lemma AssignValid(t: Target, values: map<nat, nat>, e: Encoding, first: nat, held: set<nat>, pending: set<nat>, id: nat, r: nat)
    requires Valid(e, first, held + {r}) && Holds(t, values, e, pending) && r !in held && id !in e.registers
    ensures Valid(AssignedTo(e, id, r), first, held) && Holds(t, values, AssignedTo(e, id, r), pending + {id})
    ensures Now(t, AssignedTo(e, id, r)) == Now(t, e)
  {
    hide Run;
    AssignFile(e, first, held, id, r);
    AssignHolds(t, values, e, Now(t, e), pending, id, r);
  }

  lemma AssignFile(e: Encoding, first: nat, held: set<nat>, id: nat, r: nat)
    requires FileValid(e, first, held + {r}) && r !in held && id !in e.registers
    ensures FileValid(AssignedTo(e, id, r), first, held)
  {
    var e' := AssignedTo(e, id, r);
    assert r in held + {r};
    forall q: nat
      ensures Assigned(e', q) <==> Assigned(e, q) || q == r
    {
      if Assigned(e, q) {
        var a :| a in e.registers && e.registers[a] == q;
        assert a in e'.registers && e'.registers[a] == q;
      }
      assert id in e'.registers && e'.registers[id] == r;
    }
    forall a | a in e.registers
      ensures e.registers[a] != r
    {
      assert Assigned(e, e.registers[a]);
    }
  }

  lemma AssignHolds(t: Target, values: map<nat, nat>, e: Encoding, m: Machine, pending: set<nat>, id: nat, r: nat)
    requires HoldsIn(t, values, e, m, pending)
    ensures HoldsIn(t, values, AssignedTo(e, id, r), m, pending + {id})
  {
  }

  /** Once its register is written, a value is no longer pending. */
  lemma SettleHolds(t: Target, values: map<nat, nat>, e: Encoding, m: Machine, pending: set<nat>, id: nat)
    requires HoldsIn(t, values, e, m, pending + {id}) && id in e.registers && id in values
    requires Register(m, e.registers[id]) == values[id]
    ensures HoldsIn(t, values, e, m, pending)
  {
  }

  lemma PinValid(t: Target, values: map<nat, nat>, e: Encoding, first: nat, held: set<nat>, pending: set<nat>, r: nat)
    requires Valid(e, first, held) && Holds(t, values, e, pending) && r < |e.pinned|
    ensures var e' := e.(pinned := e.pinned[r := true]);
            Valid(e', first, held) && Holds(t, values, e', pending) && Now(t, e') == Now(t, e)
  {
    hide Run, HoldsIn, FileValid, MemoryValid;
    var e' := e.(pinned := e.pinned[r := true]);
    FileSame(e, e', first, held);
    SamePlacesHold(t, values, e, e', pending);
  }

  lemma FrameAssign(t: Target, start: Encoding, e: Encoding, id: nat, r: nat)
    requires Frame(t, start, e) && id !in e.registers
    ensures Frame(t, start, AssignedTo(e, id, r))
  {
    hide Run;
    forall a | Located(start, a)
      ensures Located(AssignedTo(e, id, r), a)
    {
      assert Located(e, a);
    }
  }

  lemma FramePin(t: Target, start: Encoding, e: Encoding, r: nat)
    requires Frame(t, start, e) && r < |e.pinned|
    ensures Frame(t, start, e.(pinned := e.pinned[r := true]))
  {
    hide Run;
    var e' := e.(pinned := e.pinned[r := true]);
    forall a | Located(start, a)
      ensures Located(e', a)
    {
      assert Located(e, a);
    }
    assert forall q: nat :: Safe(e, q) ==> Safe(e', q);
  }

  lemma FramePut(t: Target, start: Encoding, e: Encoding, word: Word, rd: nat, value: nat)
    requires Frame(t, start, e) && !Safe(start, rd)
    requires Now(t, e.(words := e.words + [word])) == Put(Now(t, e), rd, value)
    ensures Frame(t, start, e.(words := e.words + [word]))
  {
    hide Run;
    var e' := e.(words := e.words + [word]);
    forall a | Located(start, a)
      ensures Located(e', a)
    {
      assert Located(e, a);
    }
    assert forall q: nat :: Safe(e, q) ==> Safe(e', q);
  }

  lemma FrameBind(t: Target, start: Encoding, e: Encoding, name: Binding)
    requires Frame(t, start, e) && MemoryValid(e) && !name.SpillName?
    ensures Frame(t, start, e.(bindings := Bound(e.bindings, name)))
  {
    hide Run;
    var e' := e.(bindings := Bound(e.bindings, name));
    BoundDistinct(e.bindings, name);
    RunStable(t, e.bindings, e'.bindings, e.words);
    forall a | Located(start, a)
      ensures Located(e', a)
    {
      assert Located(e, a);
    }
    assert forall q: nat :: Safe(e, q) ==> Safe(e', q);
  }
}
