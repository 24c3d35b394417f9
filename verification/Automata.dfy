/** Automata over words of letters, read at sample ticks and restarted by a disable condition. */
module Automata {
  import opened SampledTime

  datatype Guard =
    | Truth(value: bool)
    | Atom(index: nat)
    | Negation(operand: Guard)
    | Conjunction(left: Guard, right: Guard)
    | Disjunction(left: Guard, right: Guard)

  datatype Transition = Transition(source: nat, destination: nat, guard: Guard)

  datatype Automaton = Automaton(
    deterministic: bool,
    initial: nat,
    states: nat,
    accepting: seq<bool>,
    transitions: seq<Transition>)

  /** The truth values of the atoms. */
  type Letter = nat -> bool

  predicate Holds(guard: Guard, letter: Letter) {
    match guard
    case Truth(value) => value
    case Atom(index) => letter(index)
    case Negation(operand) => !Holds(operand, letter)
    case Conjunction(left, right) => Holds(left, letter) && Holds(right, letter)
    case Disjunction(left, right) => Holds(left, letter) || Holds(right, letter)
  }

  predicate UsesBelow(guard: Guard, n: nat) {
    match guard
    case Truth(_) => true
    case Atom(index) => index < n
    case Negation(operand) => UsesBelow(operand, n)
    case Conjunction(left, right) => UsesBelow(left, n) && UsesBelow(right, n)
    case Disjunction(left, right) => UsesBelow(left, n) && UsesBelow(right, n)
  }

  /** What a translator delivers: an automaton over `atoms` atoms. */
  predicate WellFormed(a: Automaton, atoms: nat) {
    && a.initial < a.states == |a.accepting|
    && forall i :: 0 <= i < |a.transitions| ==>
         var edge := a.transitions[i];
         edge.source < a.states && edge.destination < a.states && UsesBelow(edge.guard, atoms)
  }

  predicate Enables(a: Automaton, i: nat, q: nat, letter: Letter) {
    i < |a.transitions| && a.transitions[i].source == q && Holds(a.transitions[i].guard, letter)
  }

  /** From every state, every letter enables at most one transition. */
  ghost predicate Exclusive(a: Automaton) {
    forall i: nat, j: nat, q: nat, letter: Letter :: Enables(a, i, q, letter) && Enables(a, j, q, letter) ==> i == j
  }

  /** What drives the automaton: clock ticks, the disable condition, and the letters. */
  datatype Stimulus = Stimulus(sample: Signal, disable: Signal, letter: nat -> Letter)

  /** One step: restart when disabled, take transition `i` at a tick, and stay otherwise. */
  predicate StepsTo(a: Automaton, s: Stimulus, t: nat, q: nat, i: nat, q': nat) {
    if s.disable(t) then q' == a.initial
    else if s.sample(t) then Enables(a, i, q, s.letter(t)) && q' == a.transitions[i].destination
    else q' == q
  }

  /** States `q` and transitions `edge` follow the stimulus. */
  ghost predicate Follows(a: Automaton, s: Stimulus, q: nat -> nat, edge: nat -> nat) {
    q(0) == a.initial && forall t: nat :: StepsTo(a, s, t, q(t), edge(t), q(t + 1))
  }

  ghost predicate HoldsFrom(p: Signal, t: nat) {
    exists u: nat :: t <= u && p(u)
  }

  ghost predicate InfinitelyOften(p: Signal) {
    forall t: nat :: HoldsFrom(p, t)
  }
}
