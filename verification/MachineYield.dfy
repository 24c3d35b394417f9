/** The beginning of a block, and the yield that ends it. */
module MachineYield {
  import opened MachineProgram
  import opened MachineEncoding
  import opened MachineOperands
  import opened MachineBoundaries
  import opened MachineSteps

  // ----- the beginning -----

  /** The encoding after an input was bound to an address. */
  function InputNoted(e: Encoding, id: nat): Encoding {
    e.(bindings := Bound(e.bindings, InputName(id)), inputAddresses := e.inputAddresses[id := IndexOf(e.bindings, InputName(id))])
  }

  lemma InputMemory(e: Encoding, id: nat)
    requires MemoryValid(e)
    ensures MemoryValid(InputNoted(e, id))
  {
    hide IndexOf;
    BindMemory(e, InputName(id));
    BoundDistinct(e.bindings, InputName(id));
  }

  /** Nothing is emitted or held yet. */
  predicate Fresh(e: Encoding) {
    && e.registers == map[] && e.spills == map[] && e.stateAddresses == map[] && e.words == [] && e.nextSpill == 0 && e.pendingWrites == 0
    && |e.used| == |e.pinned| && (forall r :: 0 <= r < |e.used| ==> !e.used[r] && !e.pinned[r])
  }

  lemma FreshMemory(e: Encoding)
    requires Fresh(e) && e.inputAddresses == map[] && Distinct(e.bindings)
    requires forall a :: 0 <= a < |e.bindings| ==> e.bindings[a].StateName?
    ensures MemoryValid(e)
  {
  }

  lemma FreshHolds(t: Target, block: Block, e: Encoding)
    requires Fresh(e) && MemoryValid(e) && forall id: nat :: id in e.inputAddresses <==> id in block.inputs
    ensures Holds(t, After(t, block, 0).values, e, {})
  {
  }

  lemma FreshReady(t: Target, block: Block, e: Encoding, first: nat)
    requires Fresh(e) && MemoryValid(e) && first <= |e.used|
    requires forall id: nat :: id in e.inputAddresses <==> id in block.inputs
    requires forall id: nat :: References(e, id) == UsesBefore(block, |block.code|, id)
    ensures Ready(t, block, 0, e, first)
  {
    hide MemoryValid, HoldsIn, References;
    FreshHolds(t, block, e);
    FreshBookkept(t, block, e);
  }

  lemma FreshBookkept(t: Target, block: Block, e: Encoding)
    requires Fresh(e) && forall id: nat :: id in e.inputAddresses <==> id in block.inputs
    ensures Bookkept(t, block, After(t, block, 0), e, {})
  {
  }

  // ----- the yield -----

  lemma NothingNeeded(t: Target, block: Block, e: Encoding, first: nat)
    requires Ready(t, block, |block.code|, e, first)
    ensures e.registers == map[] && e.spills == map[]
  {
    hide HoldsIn, FileValid, MemoryValid, Run, After, Bookkept, References;
    forall id: nat
      ensures !Located(e, id)
    {
      assert References(e, id) == 0;
    }
    assert forall id: nat :: id in e.registers ==> Located(e, id);
    assert forall id: nat :: id in e.spills ==> Located(e, id);
  }

  predicate Given(block: Block, p: Progress, index: nat, done: nat) {
    index < |block.results| && (index < done || Eager(block, p, index))
  }

  ghost predicate AllExported(t: Target, block: Block, p: Progress, e: Encoding, done: nat) {
    forall index: nat :: Given(block, p, index, done) ==> Exported(t, e, index, Meaning(t, Final(t, p), block.results[index]))
  }

  /** During the yield: writes are committed, no register is in use, and the first `done` results are exported. */
  ghost predicate Yielding(t: Target, block: Block, p: Progress, e: Encoding, first: nat, done: nat) {
    && Valid(e, first, {}) && Holds(t, Final(t, p), e, {}) && e.registers == map[] && Addressed(block, p, e)
    && Now(t, e).pending == map[] && StatesMatch(e.bindings, Now(t, e).states, p.writes)
    && AllExported(t, block, p, e, done)
  }

  lemma EagerFinal(t: Target, block: Block, p: Progress, index: nat)
    requires Eager(block, p, index)
    ensures Meaning(t, Final(t, p), block.results[index]) == p.values[block.results[index].id]
  {
  }

  /** What the states hold once pending writes have taken effect. */
  ghost predicate CommitsTo(m: Machine, m': Machine) {
    m' == m.(states := m.states + m.pending, pending := map[])
  }

  lemma CommittedStates(t: Target, block: Block, p: Progress, e: Encoding, m': Machine, id: nat)
    requires Bookkept(t, block, p, e, {}) && MemoryValid(e) && CommitsTo(Now(t, e), m') && id in e.stateAddresses
    ensures Stored(t, e.bindings, m', e.stateAddresses[id]) == Committed(t, p, p.observed[id])
  {
    hide Run;
    var a, s := e.stateAddresses[id], p.observed[id];
    if s in p.writes {
      assert Written(e.bindings, Now(t, e).pending, s);
      var b: nat :| b in Now(t, e).pending && b < |e.bindings| && e.bindings[b] == StateName(s);
      assert a == b;
    }
  }

  lemma PlacesHold(t: Target, values: map<nat, nat>, more: map<nat, nat>, e: Encoding, e': Encoding, m: Machine, m': Machine)
    requires HoldsIn(t, values, e, m, {}) && e.registers == map[] && e.spills == map[]
    requires e' == e.(words := e'.words, pendingWrites := e'.pendingWrites) && m'.slots == m.slots
    requires forall id :: id in e.inputAddresses && id in values ==> id in more && more[id] == values[id]
    requires forall id :: id in e.stateAddresses ==> id in more && Stored(t, e.bindings, m', e.stateAddresses[id]) == more[id]
    ensures HoldsIn(t, more, e', m', {})
  {
    hide Stored;
  }

  lemma CommittedHolds(t: Target, block: Block, e: Encoding, first: nat, e': Encoding, m': Machine)
    requires WellFormed(block) && Ready(t, block, |block.code|, e, first) && CommitsTo(Now(t, e), m')
    requires e' == e.(words := e'.words, pendingWrites := e'.pendingWrites)
    ensures HoldsIn(t, Final(t, After(t, block, |block.code|)), e', m', {})
  {
    hide Run, After, AllAvailable, OnlyNeeded, Counted, HoldsIn, FileValid, MemoryValid, StatesMatch, EagerlyExported, WellFormed, Stored, Committed;
    var p := After(t, block, |block.code|);
    NothingNeeded(t, block, e, first);
    AfterDefines(t, block, |block.code|);
    forall id | id in e.stateAddresses
      ensures id in Final(t, p) && Stored(t, e.bindings, m', e.stateAddresses[id]) == Final(t, p)[id]
    {
      CommittedStates(t, block, p, e, m', id);
    }
    PlacesHold(t, p.values, Final(t, p), e, e', Now(t, e), m');
  }

  lemma CommittedMatch(t: Target, block: Block, p: Progress, e: Encoding, m': Machine)
    requires Bookkept(t, block, p, e, {}) && CommitsTo(Now(t, e), m')
    ensures StatesMatch(e.bindings, m'.states, p.writes) && m'.pending == map[]
  {
    hide Run;
    assert m'.states == Now(t, e).pending;
  }

  lemma CommittedExports(t: Target, block: Block, p: Progress, e: Encoding, e': Encoding)
    requires Bookkept(t, block, p, e, {}) && CommitsTo(Now(t, e), Now(t, e')) && e'.bindings == e.bindings
    ensures AllExported(t, block, p, e', 0)
  {
    hide Run, Exported, Final;
    forall index: nat | Given(block, p, index, 0)
      ensures Exported(t, e', index, Meaning(t, Final(t, p), block.results[index]))
    {
      EagerFinal(t, block, p, index);
      assert Exported(t, e, index, p.values[block.results[index].id]);
      ExportedSame(t, e, e', index, p.values[block.results[index].id]);
    }
  }

  /** After the commit, or without one when nothing was written, the yield begins. */
  lemma YieldBegins(t: Target, block: Block, e: Encoding, e': Encoding, first: nat)
    requires WellFormed(block) && Ready(t, block, |block.code|, e, first)
    requires e' == e.(words := e'.words, pendingWrites := e'.pendingWrites)
    requires MemoryValid(e') && CommitsTo(Now(t, e), Now(t, e'))
    ensures Yielding(t, block, After(t, block, |block.code|), e', first, 0)
  {
    hide Run, After, HoldsIn, FileValid, MemoryValid, AllAvailable, OnlyNeeded, Counted, StatesMatch, AllExported;
    var p := After(t, block, |block.code|);
    NothingNeeded(t, block, e, first);
    FileSame(e, e', first, {});
    CommittedHolds(t, block, e, first, e', Now(t, e'));
    CommittedMatch(t, block, p, e, Now(t, e'));
    CommittedExports(t, block, p, e, e');
  }

  lemma CommitRuns(t: Target, e: Encoding)
    requires MemoryValid(e)
    ensures var e' := e.(words := e.words + [Commit], pendingWrites := 0); MemoryValid(e') && CommitsTo(Now(t, e), Now(t, e'))
  {
    hide Run;
    EmitMemory(e, Commit);
    RunAppend(t, e.bindings, e.words, Commit);
  }

  lemma NothingToCommit(t: Target, block: Block, p: Progress, e: Encoding)
    requires Bookkept(t, block, p, e, {}) && e.pendingWrites == 0
    ensures CommitsTo(Now(t, e), Now(t, e))
  {
    hide Run;
    assert Now(t, e).pending == map[];
    assert Now(t, e).states + Now(t, e).pending == Now(t, e).states;
  }

  // ----- one result -----

  lemma YieldReady(t: Target, block: Block, e: Encoding, first: nat, index: nat)
    requires WellFormed(block) && Yielding(t, block, After(t, block, |block.code|), e, first, index)
    requires index < |block.results| && !Eager(block, After(t, block, |block.code|), index)
    ensures Valid(e, first, {}) && Holds(t, Final(t, After(t, block, |block.code|)), e, {})
    ensures block.results[index].Virtual? ==> Available(e, block.results[index].id)
  {
    hide HoldsIn, MemoryValid, FileValid, Run, After;
    AfterDefines(t, block, |block.code|);
  }

  /** No register is in use, so one can be taken. */
  lemma YieldSucceeds(e: Encoding, first: nat)
    requires FileValid(e, first, {}) && e.registers == map[] && first < |e.used|
    ensures !Exhausted(e, first, {})
  {
    assert !Assigned(e, first);
    assert !e.used[first];
  }

  lemma SourcedBound(t: Target, values: map<nat, nat>, e: Encoding, e': Encoding, first: nat, operand: Operand, r: nat, name: Binding)
    requires Sourced(t, values, e, e', first, {}, operand, r) && !name.SpillName?
    ensures Sourced(t, values, e, e'.(bindings := Bound(e'.bindings, name)), first, {}, operand, r)
  {
    hide HoldsIn, MemoryValid, FileValid, Run, Frame;
    var e2 := e'.(bindings := Bound(e'.bindings, name));
    BindValid(t, values, e', first, if operand.Virtual? then {} else {} + {r}, {}, name);
    FrameBind(t, e, e', name);
    assert forall id: nat :: Located(e2, id) <==> Located(e', id);
  }

  /** The encoding after the export word, with the register given back. */
  function ResultStored(e: Encoding, r: nat, address: nat): Encoding
    requires r < |e.used|
  {
    e.(words := e.words + [StoreSlot(r, address)], used := e.used[r := false], registers := map[])
  }

  lemma DroppedFile(e: Encoding, e': Encoding, first: nat, operand: Operand, r: nat)
    requires FileValid(e, first, if operand.Virtual? then {} else {} + {r}) && r < |e.used|
    requires forall id: nat :: id in e.registers ==> operand == Virtual(id) && e.registers[id] == r
    requires operand.Virtual? ==> operand.id in e.registers
    requires e'.registers == map[] && e'.used == e.used[r := false] && e'.pinned == e.pinned
    ensures FileValid(e', first, {})
  {
    forall q: nat | first <= q < |e.used| && q != r
      ensures !e.used[q]
    {
    }
  }

  lemma DroppedHolds(t: Target, values: map<nat, nat>, e: Encoding, e': Encoding, m: Machine)
    requires HoldsIn(t, values, e, m, {}) && e' == e.(used := e'.used, registers := map[], words := e'.words)
    ensures HoldsIn(t, values, e', m, {})
  {
  }

  lemma DroppedMemory(e: Encoding, e': Encoding)
    requires MemoryValid(e) && e' == e.(used := e'.used, registers := map[])
    ensures MemoryValid(e')
  {
  }

  /** Storing a result and giving its register back. */
  lemma StoredValid(t: Target, values: map<nat, nat>, e: Encoding, first: nat, operand: Operand, r: nat, address: nat)
    requires Valid(e, first, if operand.Virtual? then {} else {} + {r}) && Holds(t, values, e, {}) && r < |e.used|
    requires forall id: nat :: id in e.registers ==> operand == Virtual(id) && e.registers[id] == r
    requires operand.Virtual? ==> operand.id in e.registers
    requires address < |e.bindings| && e.bindings[address].ExportName?
    ensures var e' := ResultStored(e, r, address);
            && Valid(e', first, {}) && Holds(t, values, e', {})
            && Now(t, e') == Now(t, e).(slots := Now(t, e).slots[address := Register(Now(t, e), r)])
  {
    hide HoldsIn, MemoryValid, FileValid, Run;
    var e', e3 := ResultStored(e, r, address), e.(words := e.words + [StoreSlot(r, address)]);
    SpillsElsewhere(e, address);
    EmitStore(t, values, e, first, if operand.Virtual? then {} else {} + {r}, {}, r, address);
    DroppedFile(e, e', first, operand, r);
    DroppedMemory(e3, e');
    DroppedHolds(t, values, e3, e', Now(t, e3));
  }

  /** What a loaded result tells about the encoding. */
  lemma SourcedAlone(t: Target, values: map<nat, nat>, e: Encoding, e': Encoding, first: nat, operand: Operand, r: nat)
    requires Sourced(t, values, e, e', first, {}, operand, r) && e.registers == map[]
    ensures Valid(e', first, if operand.Virtual? then {} else {} + {r}) && Holds(t, values, e', {}) && r < |e'.used|
    ensures Frame(t, e, e') && Register(Now(t, e'), r) == Meaning(t, values, operand) && |e'.used| == |e.used|
    ensures forall id: nat :: id in e'.registers ==> operand == Virtual(id) && e'.registers[id] == r
    ensures operand.Virtual? ==> operand.id in e'.registers
  {
    hide HoldsIn, MemoryValid, FileValid, Run, Meaning;
  }

  lemma StoredExports(t: Target, block: Block, p: Progress, e: Encoding, e': Encoding, index: nat, r: nat, address: nat)
    requires AllExported(t, block, p, e, index) && index < |block.results| && e'.bindings == e.bindings
    requires address < |e.bindings| && e.bindings[address] == ExportName(index)
    requires Register(Now(t, e), r) == Meaning(t, Final(t, p), block.results[index])
    requires Now(t, e') == Now(t, e).(slots := Now(t, e).slots[address := Register(Now(t, e), r)])
    ensures AllExported(t, block, p, e', index + 1)
  {
    hide Run, Final, Meaning;
    forall other: nat | Given(block, p, other, index + 1)
      ensures Exported(t, e', other, Meaning(t, Final(t, p), block.results[other]))
    {
      var value := Meaning(t, Final(t, p), block.results[other]);
      if other == index {
        assert Slot(t, e'.bindings, Now(t, e'), address) == value;
      } else {
        assert Given(block, p, other, index);
        OtherExport(t, e, e', address, other, value, Register(Now(t, e), r));
      }
    }
  }

  lemma FramedExports(t: Target, block: Block, p: Progress, e: Encoding, e': Encoding, done: nat)
    requires AllExported(t, block, p, e, done) && Frame(t, e, e')
    ensures AllExported(t, block, p, e', done)
  {
    hide Run, Final, Meaning, Frame, Exported;
    forall index: nat | Given(block, p, index, done)
      ensures Exported(t, e', index, Meaning(t, Final(t, p), block.results[index]))
    {
      ExportedFramed(t, e, e', index, Meaning(t, Final(t, p), block.results[index]));
    }
  }

  lemma FramedStates(t: Target, block: Block, p: Progress, e: Encoding, e': Encoding)
    requires Frame(t, e, e') && Addressed(block, p, e) && StatesMatch(e.bindings, Now(t, e).states, p.writes)
    ensures Addressed(block, p, e') && StatesMatch(e'.bindings, Now(t, e').states, p.writes) && Now(t, e').pending == Now(t, e).pending
  {
    hide Run, StatesMatch;
    StatesMatchMore(e.bindings, e'.bindings, Now(t, e).states, p.writes);
  }

  /** One more result is exported. */
  lemma YieldStep(t: Target, block: Block, p: Progress, e: Encoding, e': Encoding, first: nat, index: nat, r: nat, address: nat)
    requires Yielding(t, block, p, e, first, index) && index < |block.results|
    requires Sourced(t, Final(t, p), e, e', first, {}, block.results[index], r)
    requires address < |e'.bindings| && e'.bindings[address] == ExportName(index)
    ensures r < |e'.used| && |e'.used| == |e.used|
    ensures Yielding(t, block, p, ResultStored(e', r, address), first, index + 1)
  {
    hide HoldsIn, MemoryValid, FileValid, Run, Frame, Final, Sourced, AllExported, StatesMatch;
    SourcedAlone(t, Final(t, p), e, e', first, block.results[index], r);
    FramedExports(t, block, p, e, e', index);
    FramedStates(t, block, p, e, e');
    StoredValid(t, Final(t, p), e', first, block.results[index], r, address);
    StoredExports(t, block, p, e', ResultStored(e', r, address), index, r, address);
  }

  /** Binding the name of a result, storing it, and giving its register back. */
  lemma YieldStores(t: Target, block: Block, p: Progress, e: Encoding, e': Encoding, first: nat, index: nat, r: nat)
    requires Yielding(t, block, p, e, first, index) && index < |block.results|
    requires Sourced(t, Final(t, p), e, e', first, {}, block.results[index], r)
    ensures r < |e'.used| && |e'.used| == |e.used| && !TooWide(block.results[index])
    ensures forall id: nat :: id in e'.registers ==> block.results[index] == Virtual(id)
    ensures var name := ExportName(index);
            Yielding(t, block, p, ResultStored(e'.(bindings := Bound(e'.bindings, name)), r, IndexOf(e'.bindings, name)), first, index + 1)
  {
    hide HoldsIn, MemoryValid, FileValid, Run, Frame, Final, Sourced, AllExported, StatesMatch, IndexOf, Bound;
    var name := ExportName(index);
    SourcedFits(t, Final(t, p), e, e', first, block.results[index], r);
    SourcedBound(t, Final(t, p), e, e', first, block.results[index], r, name);
    BoundDistinct(e'.bindings, name);
    YieldStep(t, block, p, e, e'.(bindings := Bound(e'.bindings, name)), first, index, r, IndexOf(e'.bindings, name));
  }

  /** A result that was exported where it was computed. */
  lemma YieldSkips(t: Target, block: Block, p: Progress, e: Encoding, first: nat, index: nat)
    requires Yielding(t, block, p, e, first, index) && Eager(block, p, index)
    ensures Yielding(t, block, p, e, first, index + 1)
  {
    hide HoldsIn, MemoryValid, FileValid, Run, Final, StatesMatch, Exported;
    forall other: nat | Given(block, p, other, index + 1)
      ensures Exported(t, e, other, Meaning(t, Final(t, p), block.results[other]))
    {
      assert Given(block, p, other, index);
    }
  }

  // ----- the end -----

  lemma StatesHold(t: Target, block: Block, p: Progress, e: Encoding, m: Machine)
    requires StatesMatch(e.bindings, m.states, p.writes) && Distinct(e.bindings)
    ensures forall a: nat :: a < |e.bindings| && e.bindings[a].StateName? ==> Stored(t, e.bindings, m, a) == Committed(t, p, e.bindings[a].state)
    ensures forall state: nat :: state in p.writes ==> Binds(e.bindings, state)
  {
    forall a: nat | a < |e.bindings| && e.bindings[a].StateName?
      ensures Stored(t, e.bindings, m, a) == Committed(t, p, e.bindings[a].state)
    {
      var s := e.bindings[a].state;
      if s in p.writes {
        assert Written(e.bindings, m.states, s);
        var b: nat :| b in m.states && b < |e.bindings| && e.bindings[b] == StateName(s);
        assert a == b;
      }
    }
    forall state: nat | state in p.writes
      ensures Binds(e.bindings, state)
    {
      assert Written(e.bindings, m.states, state);
      var b: nat :| b in m.states && b < |e.bindings| && e.bindings[b] == StateName(state);
      assert e.bindings[b] == StateName(state);
    }
  }

  lemma EndRuns(t: Target, e: Encoding)
    requires Now(t, e).pending == map[]
    ensures Run(t, e.bindings, e.words + [Commit, Finish]) == Now(t, e)
  {
    hide Run;
    assert e.words + [Commit, Finish] == e.words + [Commit] + [Finish];
    RunAppend(t, e.bindings, e.words, Commit);
    RunAppend(t, e.bindings, e.words + [Commit], Finish);
    assert Now(t, e).states + map[] == Now(t, e).states;
  }

  /** Nothing that was emitted ended the program. */
  lemma EndsOnce(e: Encoding)
    requires MemoryValid(e)
    ensures var words := e.words + [Commit, Finish];
            (forall k :: 0 <= k < |words| - 1 ==> words[k] != Finish) && Executed(words) == words
  {
    var words := e.words + [Commit, Finish];
    forall k | 0 <= k < |words| - 1
      ensures words[k] != Finish
    {
      assert k < |e.words| ==> MayStore(e.bindings, words[k]);
    }
    ExecutedAll(words);
  }

  /** When all results are exported, the words implement the block. */
  lemma YieldImplements(t: Target, block: Block, e: Encoding, first: nat)
    requires Yielding(t, block, After(t, block, |block.code|), e, first, |block.results|)
    ensures Implements(t, block, e.bindings, e.words + [Commit, Finish])
  {
    hide HoldsIn, FileValid, Run, After, Final, StatesMatch, Executed;
    var p := After(t, block, |block.code|);
    EndRuns(t, e);
    EndsOnce(e);
    StatesHold(t, block, p, e, Now(t, e));
    forall index: nat | index < |block.results|
      ensures Exports(t, e.bindings, Now(t, e), index, Meaning(t, Final(t, p), block.results[index]))
    {
      assert Given(block, p, index, |block.results|);
      assert Exported(t, e, index, Meaning(t, Final(t, p), block.results[index]));
    }
  }

  lemma YieldingBasics(t: Target, block: Block, e: Encoding, first: nat, index: nat)
    requires WellFormed(block) && Yielding(t, block, After(t, block, |block.code|), e, first, index) && index < |block.results|
    ensures e.registers == map[] && FileValid(e, first, {})
    ensures Eager(block, After(t, block, |block.code|), index) <==>
            block.results[index].Virtual? && block.results[index].id !in e.inputAddresses && block.results[index].id !in e.stateAddresses
  {
    hide HoldsIn, MemoryValid, FileValid, Run, After;
    AfterDefines(t, block, |block.code|);
  }

  lemma SourcedFits(t: Target, values: map<nat, nat>, e: Encoding, e': Encoding, first: nat, operand: Operand, r: nat)
    requires Sourced(t, values, e, e', first, {}, operand, r) && e.registers == map[]
    ensures !TooWide(operand) && r < |e'.used| && MemoryValid(e') && Distinct(e'.bindings)
    ensures forall id: nat :: id in e'.registers ==> operand == Virtual(id)
  {
    hide HoldsIn, FileValid, Run;
  }

  lemma YieldStarts(t: Target, block: Block, e: Encoding, first: nat)
    requires Ready(t, block, |block.code|, e, first)
    ensures MemoryValid(e)
    ensures if e.pendingWrites > 0
            then var e' := e.(words := e.words + [Commit], pendingWrites := 0); MemoryValid(e') && CommitsTo(Now(t, e), Now(t, e'))
            else CommitsTo(Now(t, e), Now(t, e))
  {
    hide HoldsIn, FileValid, MemoryValid, Run, After, Bookkept;
    if e.pendingWrites > 0 {
      CommitRuns(t, e);
    } else {
      NothingToCommit(t, block, After(t, block, |block.code|), e);
    }
  }
}
