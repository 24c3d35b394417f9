/** When a yield exports the values that a block computed, and when it exports what the states hold afterwards. */
module YieldedReads {
  import opened Bits
  import opened MachineProgram

  // ----- one execution -----

  /** A yield exports the value that was computed unless it names the read of a state that has been overwritten. */
  lemma FinalAgrees(t: Target, block: Block, operand: Operand)
    requires WellFormed(block)
    ensures var p := After(t, block, |block.code|);
            Meaning(t, Final(t, p), operand) == Meaning(t, p.values, operand) <==>
            !(operand.Virtual? && operand.id in p.observed && p.observed[operand.id] in p.writes
              && p.writes[p.observed[operand.id]] != t.state(p.observed[operand.id]))
  {
    AfterDefines(t, block, |block.code|);
  }

  /** A read, then a write of the same state: the yield of what was read exports what was written. */
  lemma YieldRereads(t: Target)
    ensures var block := Block([0], [], [ReadState(0, 0), WriteState(0, Number(1))], [Virtual(0)]);
            var p := After(t, block, 2);
            WellFormed(block) && Meaning(t, p.values, Virtual(0)) == t.state(0) && Meaning(t, Final(t, p), Virtual(0)) == 1
  {
    var block := Block([0], [], [ReadState(0, 0), WriteState(0, Number(1))], [Virtual(0)]);
    assert Defined(block, 0) == {} && Defined(block, 1) == {0} && Defined(block, 2) == {0};
    var p0 := After(t, block, 0);
    var p1 := After(t, block, 1);
    assert p0.values == map[] && p1 == Perform(t, p0, block.code[0]);
    assert After(t, block, 2) == Perform(t, p1, block.code[1]);
  }

  // ----- a condition on the text of the block -----

  predicate Reads(block: Block, k: nat, id: nat, state: nat) {
    exists m: nat :: m < k <= |block.code| && block.code[m] == ReadState(id, state)
  }

  predicate NotWrittenFrom(block: Block, k: nat, n: nat, state: nat) {
    forall m :: k <= m < n <= |block.code| && block.code[m].WriteState? ==> block.code[m].state != state
  }

  /** Instruction `k` is the last write to `state` among the first `n`. */
  predicate LastWrite(block: Block, k: nat, n: nat, state: nat) {
    && k < n <= |block.code| && block.code[k].WriteState? && block.code[k].state == state
    && NotWrittenFrom(block, k + 1, n, state)
  }

  /** The operand is a value that was read from the state. */
  predicate IsRead(block: Block, operand: Operand, state: nat) {
    operand.Virtual? && Reads(block, |block.code|, operand.id, state)
  }

  /** A state that a result reads is written, if at all, last with a value that was read from it. */
  predicate YieldsKept(block: Block) {
    forall i, k ::
      0 <= i < |block.results| && 0 <= k < |block.code| && block.code[k].WriteState?
      && LastWrite(block, k, |block.code|, block.code[k].state) && IsRead(block, block.results[i], block.code[k].state) ==>
      IsRead(block, block.code[k].source, block.code[k].state)
  }

  ghost predicate ExportsAgree(t: Target, block: Block) {
    var p := After(t, block, |block.code|);
    forall i: nat :: i < |block.results| ==> Meaning(t, Final(t, p), block.results[i]) == Meaning(t, p.values, block.results[i])
  }

  // ----- reads and writes, and the instructions that made them -----

  lemma {:induction false} ReadObserved(t: Target, block: Block, k: nat, id: nat, state: nat)
    requires k <= |block.code| && WellFormed(block)
    ensures Reads(block, k, id, state) <==> id in After(t, block, k).observed && After(t, block, k).observed[id] == state
  {
    hide After, WellFormed;
    if k != 0 {
      ReadObserved(t, block, k - 1, id, state);
      ReadsStep(block, k, id, state);
      ObservedStep(t, block, k, id, state);
    } else {
      NothingObserved(t, block);
    }
  }

  lemma NothingObserved(t: Target, block: Block)
    ensures After(t, block, 0).observed == map[] && After(t, block, 0).writes == map[]
  {
  }

  lemma ReadsStep(block: Block, k: nat, id: nat, state: nat)
    requires 0 < k <= |block.code|
    ensures Reads(block, k, id, state) <==> Reads(block, k - 1, id, state) || block.code[k - 1] == ReadState(id, state)
  {
  }

  lemma ObservedStep(t: Target, block: Block, k: nat, id: nat, state: nat)
    requires 0 < k <= |block.code| && WellFormed(block)
    ensures var before, after := After(t, block, k - 1).observed, After(t, block, k).observed;
            (id in after && after[id] == state) <==> (id in before && before[id] == state) || block.code[k - 1] == ReadState(id, state)
  {
    AfterDefines(t, block, k - 1);
    assert InstructionFormed(block, k - 1);
  }

  /** Values keep what they were defined with. */
  lemma {:induction false} ValuesKept(t: Target, block: Block, k: nat, n: nat, id: nat)
    requires k <= n <= |block.code| && WellFormed(block) && id in After(t, block, k).values
    ensures id in After(t, block, n).values && After(t, block, n).values[id] == After(t, block, k).values[id]
    decreases n
  {
    hide WellFormed;
    if k < n {
      ValuesKept(t, block, k, n - 1, id);
      ValueStep(t, block, n, id);
    }
  }

  lemma ValueStep(t: Target, block: Block, n: nat, id: nat)
    requires 0 < n <= |block.code| && WellFormed(block) && id in After(t, block, n - 1).values
    ensures id in After(t, block, n).values && After(t, block, n).values[id] == After(t, block, n - 1).values[id]
  {
    AfterDefines(t, block, n - 1);
    assert InstructionFormed(block, n - 1);
  }

  /** A state holds what its last write wrote. */
  lemma {:induction false} LastWritten(t: Target, block: Block, k: nat, n: nat, state: nat)
    requires LastWrite(block, k, n, state)
    ensures state in After(t, block, n).writes
    ensures After(t, block, n).writes[state] == Meaning(t, After(t, block, k).values, block.code[k].source)
    decreases n
  {
    hide Meaning;
    if k < n - 1 {
      LastWritten(t, block, k, n - 1, state);
    }
  }

  lemma {:induction false} WriteFound(t: Target, block: Block, n: nat, state: nat) returns (k: nat)
    requires n <= |block.code| && state in After(t, block, n).writes
    ensures LastWrite(block, k, n, state)
  {
    if block.code[n - 1].WriteState? && block.code[n - 1].state == state {
      k := n - 1;
    } else {
      k := WriteFound(t, block, n - 1, state);
    }
  }

  /** At the end, the source of the last write still has the value that was written. */
  lemma WrittenAtEnd(t: Target, block: Block, k: nat, state: nat)
    requires WellFormed(block) && LastWrite(block, k, |block.code|, state)
    ensures var p := After(t, block, |block.code|);
            && state in p.writes && p.writes[state] == Meaning(t, p.values, block.code[k].source)
            && (block.code[k].source.Virtual? ==> block.code[k].source.id in p.values)
  {
    hide After;
    var source := block.code[k].source;
    LastWritten(t, block, k, |block.code|, state);
    assert InstructionFormed(block, k) && Sources(block.code[k])[0] == source;
    AfterDefines(t, block, k);
    if source.Virtual? {
      ValuesKept(t, block, k, |block.code|, source.id);
    }
  }

  // ----- where the condition holds -----

  lemma KeptAgrees(t: Target, block: Block, i: nat)
    requires WellFormed(block) && YieldsKept(block) && i < |block.results|
    ensures var p := After(t, block, |block.code|);
            Meaning(t, Final(t, p), block.results[i]) == Meaning(t, p.values, block.results[i])
  {
    hide After, WellFormed, Final, NotWrittenFrom, Reads;
    var n, p, operand := |block.code|, After(t, block, |block.code|), block.results[i];
    FinalAgrees(t, block, operand);
    if operand.Virtual? && operand.id in p.observed && p.observed[operand.id] in p.writes {
      var state := p.observed[operand.id];
      ReadObserved(t, block, n, operand.id, state);
      var k := WriteFound(t, block, n, state);
      var source := block.code[k].source;
      WrittenAtEnd(t, block, k, state);
      assert IsRead(block, source, state);
      ReadObserved(t, block, n, source.id, state);
      AfterDefines(t, block, n);
    }
  }

  // ----- a target on which it matters -----

  /** All operators and slots give zero, and one state holds `value`. */
  function Against(state: nat, value: nat): Target {
    Target((operator, values) => 0, name => 0, s => if s == state then value else 0)
  }

  /** More than any mux among the first `n` instructions can give. */
  function Above(block: Block, n: nat): (bound: nat)
    requires n <= |block.code|
    ensures bound > 0
  {
    if n == 0 then 1 else Above(block, n - 1) + if block.code[n - 1].Mux? then Pow2(block.code[n - 1].width) else 0
  }

  /** On that target, every value that was not read from the state stays small. */
  lemma {:induction false} ValuesSmall(block: Block, n: nat, state: nat, value: nat, id: nat)
    requires n <= |block.code| && id in After(Against(state, value), block, n).values
    ensures After(Against(state, value), block, n).values[id] < Above(block, n) || Reads(block, n, id, state)
  {
    var t := Against(state, value);
    if n != 0 {
      var before, word := After(t, block, n - 1), block.code[n - 1];
      ReadsStep(block, n, id, state);
      if !word.WriteState? && word.result == id {
        SmallResult(t, before, word, state, value);
      } else {
        ValuesSmall(block, n - 1, state, value, id);
      }
    }
  }

  lemma SmallResult(t: Target, p: Progress, instruction: Instruction, state: nat, value: nat)
    requires t == Against(state, value) && !instruction.WriteState?
    ensures var after := Perform(t, p, instruction).values;
            instruction.result in after
            && (after[instruction.result] == 0 || instruction == ReadState(instruction.result, state)
                || (instruction.Mux? && after[instruction.result] < Pow2(instruction.width)))
  {
  }

  lemma LostAtTarget(block: Block, i: nat, k: nat, state: nat) returns (t: Target)
    requires WellFormed(block) && i < |block.results| && IsRead(block, block.results[i], state)
    requires LastWrite(block, k, |block.code|, state) && !IsRead(block, block.code[k].source, state)
    ensures !ExportsAgree(t, block)
  {
    hide After, WellFormed, Final, NotWrittenFrom, Reads, Above;
    var n, source, operand := |block.code|, block.code[k].source, block.results[i];
    var value := Above(block, n) + if source.Number? then source.bits else 0;
    t := Against(state, value);
    var p := After(t, block, n);
    WrittenAtEnd(t, block, k, state);
    ReadObserved(t, block, n, operand.id, state);
    FinalAgrees(t, block, operand);
    if source.Virtual? {
      ValuesSmall(block, n, state, value, source.id);
    }
    assert p.writes[state] < value == t.state(state);
  }

  /** Main result: exports are the computed values on every target exactly when the text of the block keeps what results read. */
  lemma YieldsAgree(block: Block)
    requires WellFormed(block)
    ensures (forall t: Target :: ExportsAgree(t, block)) <==> YieldsKept(block)
  {
    hide After, WellFormed, Final, NotWrittenFrom, IsRead;
    if YieldsKept(block) {
      forall t: Target
        ensures ExportsAgree(t, block)
      {
        forall i: nat | i < |block.results|
          ensures var p := After(t, block, |block.code|);
                  Meaning(t, Final(t, p), block.results[i]) == Meaning(t, p.values, block.results[i])
        {
          KeptAgrees(t, block, i);
        }
      }
    } else {
      var i, k :|
        0 <= i < |block.results| && 0 <= k < |block.code| && block.code[k].WriteState?
        && LastWrite(block, k, |block.code|, block.code[k].state) && IsRead(block, block.results[i], block.code[k].state)
        && !IsRead(block, block.code[k].source, block.code[k].state);
      var t := LostAtTarget(block, i, k, block.code[k].state);
    }
  }
}
