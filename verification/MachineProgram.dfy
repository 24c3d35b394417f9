/** Straight-line machine code over virtual registers, and the words of the emulated machine. */
module MachineProgram {
  import opened Bits

  // ----- machine code over virtual registers -----

  /** A value, a number, or one of the unknown literals. */
  datatype Operand = Virtual(id: nat) | Number(bits: nat) | Unknown(kind: nat)

  /** A slice with its immediates, or another operator by its opcode. */
  datatype Operator = Cut(start: nat, width: nat) | Other(opcode: nat)

  datatype Instruction =
    | Compute(result: nat, operator: Operator, sources: seq<Operand>)
    | Mux(result: nat, width: nat, condition: Operand, otherwise: Operand, chosen: Operand)
    | ReadState(result: nat, state: nat)
    | WriteState(state: nat, source: Operand)

  /** One straight-line block; `results` are the operands of the yield that ends it. */
  datatype Block = Block(states: seq<nat>, inputs: seq<nat>, code: seq<Instruction>, results: seq<Operand>)

  // opcodes of the words for slices, and of those that a mux is made of
  const SLICE := 0
  const MUX_OPCODES := {1, 2, 3, 4}

  /** The target has the opcodes of the instruction, and immediates of a slice fit. */
  predicate Encodable(instruction: Instruction, opcodes: set<nat>) {
    match instruction
    case Compute(_, Cut(start, width), _) => SLICE in opcodes && start <= 31 && 0 < width <= 32
    case Compute(_, Other(opcode), _) => opcode in opcodes
    case Mux(_, _, _, _, _) => MUX_OPCODES <= opcodes
    case ReadState(_, _) => true
    case WriteState(_, _) => true
  }

  /** The operands that have to be in registers. */
  function Sources(instruction: Instruction): seq<Operand> {
    match instruction
    case Compute(_, _, sources) => sources
    case Mux(_, _, condition, otherwise, chosen) => [condition, otherwise, chosen]
    case ReadState(_, _) => []
    case WriteState(_, source) => [source]
  }

  predicate InScope(operands: seq<Operand>, defined: set<nat>) {
    forall j :: 0 <= j < |operands| && operands[j].Virtual? ==> operands[j].id in defined
  }

  function Defined(block: Block, k: nat): set<nat>
    requires k <= |block.code|
  {
    if k == 0 then set i | i in block.inputs
    else Defined(block, k - 1) + if block.code[k - 1].WriteState? then {} else {block.code[k - 1].result}
  }

  /** Every value is defined once, before its uses; no instruction has more than three sources. */
  predicate WellFormed(block: Block) {
    && (forall k :: 0 <= k < |block.code| ==> InstructionFormed(block, k))
    && InScope(block.results, Defined(block, |block.code|))
  }

  predicate InstructionFormed(block: Block, k: nat)
    requires k < |block.code|
  {
    && |Sources(block.code[k])| <= 3 && InScope(Sources(block.code[k]), Defined(block, k))
    && (!block.code[k].WriteState? ==> block.code[k].result !in Defined(block, k))
  }

  /** What an address of the emitted program stands for. */
  datatype Binding = StateName(state: nat) | InputName(input: nat) | SpillName(spill: nat) | UnknownName(kind: nat) | ExportName(index: nat)

  /** The operators of the machine, and what the bound memory holds at the start. */
  datatype Target = Target(apply: (Operator, seq<nat>) -> nat, slot: Binding -> nat, state: nat -> nat)

  /** Values of the virtual registers defined so far, the states some of them read, and the state writes so far. */
  datatype Progress = Progress(values: map<nat, nat>, observed: map<nat, nat>, writes: map<nat, nat>)

  function Meaning(t: Target, values: map<nat, nat>, operand: Operand): nat {
    match operand
    case Virtual(id) => if id in values then values[id] else 0
    case Number(bits) => bits
    case Unknown(kind) => t.slot(UnknownName(kind))
  }

  function Meanings(t: Target, values: map<nat, nat>, operands: seq<Operand>): (r: seq<nat>)
    ensures |r| == |operands|
  {
    seq(|operands|, k requires 0 <= k < |operands| => Meaning(t, values, operands[k]))
  }

  function MuxValue(t: Target, values: map<nat, nat>, width: nat, condition: Operand, otherwise: Operand, chosen: Operand): nat {
    Meaning(t, values, if Meaning(t, values, condition) != 0 then chosen else otherwise) % Pow2(width)
  }

  function Perform(t: Target, p: Progress, instruction: Instruction): Progress {
    match instruction
    case Compute(result, operator, sources) =>
      p.(values := p.values[result := t.apply(operator, Meanings(t, p.values, sources))])
    case Mux(result, width, condition, otherwise, chosen) =>
      p.(values := p.values[result := MuxValue(t, p.values, width, condition, otherwise, chosen)])
    case ReadState(result, state) => p.(values := p.values[result := t.state(state)], observed := p.observed[result := state])
    case WriteState(state, source) => p.(writes := p.writes[state := Meaning(t, p.values, source)])
  }

  /** What the first `k` instructions compute. */
  function After(t: Target, block: Block, k: nat): Progress
    requires k <= |block.code|
  {
    if k == 0 then Progress(map i | i in block.inputs :: t.slot(InputName(i)), map[], map[])
    else Perform(t, After(t, block, k - 1), block.code[k - 1])
  }

  lemma {:induction false} AfterDefines(t: Target, block: Block, k: nat)
    requires k <= |block.code| && WellFormed(block)
    ensures var p := After(t, block, k);
            && p.values.Keys == Defined(block, k) && p.observed.Keys <= p.values.Keys
            && (forall i :: i in block.inputs ==> i in p.values && p.values[i] == t.slot(InputName(i)) && i !in p.observed)
            && (forall id :: id in p.observed ==> p.values[id] == t.state(p.observed[id]))
  {
    if k != 0 {
      AfterDefines(t, block, k - 1);
      assert InstructionFormed(block, k - 1);
    }
  }

  /** The content of a state when all writes have been committed. */
  function Committed(t: Target, p: Progress, state: nat): nat {
    if state in p.writes then p.writes[state] else t.state(state)
  }

  /** The values as the yield exports them: reads of a state are repeated after the commit. */
  function Final(t: Target, p: Progress): map<nat, nat> {
    map id | id in p.values :: if id in p.observed then Committed(t, p, p.observed[id]) else p.values[id]
  }

  // ----- words -----

  datatype Word =
    | LoadSlot(rd: nat, address: nat)
    | StoreSlot(rs: nat, address: nat)
    | LoadState(rd: nat, address: nat)
    | StoreState(rs: nat, address: nat)
    | LoadNumber(rd: nat, bits: nat)
    | Execute(operator: Operator, rd: nat, sources: seq<nat>)
    | Spread(rd: nat, rs: nat, width: nat)
    | Invert(rd: nat, rs: nat, width: nat)
    | Conjoin(rd: nat, left: nat, right: nat)
    | Disjoin(rd: nat, left: nat, right: nat)
    | Commit
    | Finish

  datatype Machine = Machine(registers: map<nat, nat>, slots: map<nat, nat>, states: map<nat, nat>, pending: map<nat, nat>)

  function Register(m: Machine, r: nat): nat {
    if r in m.registers then m.registers[r] else 0
  }

  function Slot(t: Target, names: seq<Binding>, m: Machine, address: nat): nat {
    if address in m.slots then m.slots[address] else if address < |names| then t.slot(names[address]) else 0
  }

  function Stored(t: Target, names: seq<Binding>, m: Machine, address: nat): nat {
    if address in m.states then m.states[address]
    else if address < |names| && names[address].StateName? then t.state(names[address].state) else 0
  }

  function Contents(m: Machine, list: seq<nat>): (r: seq<nat>)
    ensures |r| == |list|
  {
    seq(|list|, k requires 0 <= k < |list| => Register(m, list[k]))
  }

  function Put(m: Machine, r: nat, value: nat): Machine {
    m.(registers := m.registers[r := value])
  }

  function Step(t: Target, names: seq<Binding>, m: Machine, word: Word): Machine {
    match word
    case LoadSlot(rd, address) => Put(m, rd, Slot(t, names, m, address))
    case StoreSlot(rs, address) => m.(slots := m.slots[address := Register(m, rs)])
    case LoadState(rd, address) => Put(m, rd, Stored(t, names, m, address))
    case StoreState(rs, address) => m.(pending := m.pending[address := Register(m, rs)])
    case LoadNumber(rd, bits) => Put(m, rd, bits)
    case Execute(operator, rd, sources) => Put(m, rd, t.apply(operator, Contents(m, sources)))
    case Spread(rd, rs, width) => Put(m, rd, if Register(m, rs) != 0 then Pow2(width) - 1 else 0)
    case Invert(rd, rs, width) => Put(m, rd, (Pow2(width) - 1 - Register(m, rs)) % Pow2(width))
    case Conjoin(rd, left, right) => Put(m, rd, BitAnd(Register(m, left), Register(m, right)))
    case Disjoin(rd, left, right) => Put(m, rd, BitOr(Register(m, left), Register(m, right)))
    case Commit => m.(states := m.states + m.pending, pending := map[])
    case Finish => m
  }

  function Run(t: Target, names: seq<Binding>, words: seq<Word>): Machine {
    if words == [] then Machine(map[], map[], map[], map[])
    else Step(t, names, Run(t, names, words[..|words| - 1]), words[|words| - 1])
  }

  lemma RunAppend(t: Target, names: seq<Binding>, words: seq<Word>, word: Word)
    ensures Run(t, names, words + [word]) == Step(t, names, Run(t, names, words), word)
  {
    assert (words + [word])[..|words|] == words;
  }

  predicate AddressBelow(word: Word, n: nat) {
    match word
    case LoadSlot(_, address) => address < n
    case StoreSlot(_, address) => address < n
    case LoadState(_, address) => address < n
    case StoreState(_, address) => address < n
    case LoadNumber(_, _) => true
    case Execute(_, _, _) => true
    case Spread(_, _, _) => true
    case Invert(_, _, _) => true
    case Conjoin(_, _, _) => true
    case Disjoin(_, _, _) => true
    case Commit => true
    case Finish => true
  }

  predicate AddressesBelow(words: seq<Word>, n: nat) {
    forall k :: 0 <= k < |words| ==> AddressBelow(words[k], n)
  }

  /** Binding further addresses does not change what the words did. */
  lemma {:induction false} RunStable(t: Target, names: seq<Binding>, more: seq<Binding>, words: seq<Word>)
    requires AddressesBelow(words, |names|) && names <= more
    ensures Run(t, more, words) == Run(t, names, words)
  {
    if words != [] {
      var front := words[..|words| - 1];
      RunStable(t, names, more, front);
      assert AddressBelow(words[|words| - 1], |names|);
    }
  }

  ghost predicate Untouched(m: Machine, n: nat) {
    forall a :: (a in m.slots || a in m.states || a in m.pending) ==> a < n
  }

  lemma StepUntouched(t: Target, names: seq<Binding>, m: Machine, word: Word, n: nat)
    requires AddressBelow(word, n) && Untouched(m, n)
    ensures Untouched(Step(t, names, m, word), n)
  {
    if word.Commit? {
      assert forall a :: a in (m.states + m.pending) ==> a in m.states || a in m.pending;
    }
  }

  /** Memory beyond the bound addresses is as it was. */
  lemma {:induction false} RunUntouched(t: Target, names: seq<Binding>, words: seq<Word>, n: nat)
    requires AddressesBelow(words, n)
    ensures Untouched(Run(t, names, words), n)
  {
    hide Step;
    if words != [] {
      var front, word := words[..|words| - 1], words[|words| - 1];
      RunUntouched(t, names, front, n);
      assert AddressBelow(word, n);
      StepUntouched(t, names, Run(t, names, front), word, n);
    }
  }

  // ----- what the words of a block must do -----

  predicate Distinct(names: seq<Binding>) {
    forall i, j :: 0 <= i < j < |names| ==> names[i] != names[j]
  }

  ghost predicate Exports(t: Target, names: seq<Binding>, m: Machine, index: nat, value: nat) {
    exists a: nat :: a < |names| && names[a] == ExportName(index) && Slot(t, names, m, a) == value
  }

  ghost predicate Binds(names: seq<Binding>, state: nat) {
    exists a: nat :: a < |names| && names[a] == StateName(state)
  }

  /** What the machine carries out: the words up to the first `Finish`. */
  function Executed(words: seq<Word>): seq<Word> {
    if words == [] then []
    else if words[0].Finish? then [words[0]]
    else [words[0]] + Executed(words[1..])
  }

  lemma {:induction false} ExecutedAll(words: seq<Word>)
    requires words != [] && forall k :: 0 <= k < |words| - 1 ==> !words[k].Finish?
    ensures Executed(words) == words
  {
    if |words| > 1 {
      assert forall k :: 0 <= k < |words| - 2 ==> words[1..][k] == words[k + 1];
      ExecutedAll(words[1..]);
    }
  }

  /** The machine ends at the last word and not before; then every result is in its export slot, and every state holds what was last written to it. */
  ghost predicate Implements(t: Target, block: Block, names: seq<Binding>, words: seq<Word>) {
    var m, p := Run(t, names, Executed(words)), After(t, block, |block.code|);
    && words != [] && words[|words| - 1] == Finish && (forall k :: 0 <= k < |words| - 1 ==> words[k] != Finish)
    && Distinct(names) && m.pending == map[]
    && (forall index: nat :: index < |block.results| ==>
          Exports(t, names, m, index, Meaning(t, Final(t, p), block.results[index])))
    && (forall a: nat :: a < |names| && names[a].StateName? ==> Stored(t, names, m, a) == Committed(t, p, names[a].state))
    && (forall state: nat :: state in p.writes ==> Binds(names, state))
  }
}
