/** Sequences and tight satisfaction, clauses 16.7 and 16.9 and Annex F of IEEE Std 1800-2023. */
module SequenceSemantics {
  import opened TransitionSystem
  import opened WordSegments

  datatype Sequence =
    | Atom(atom: nat)
    | Delay(before: Option<Sequence>, after: Sequence, minimum: nat, maximum: Bound)
    | Repeat(unit: Sequence, minimum: nat, maximum: Bound)
    | Goto(condition: nat, minimum: nat, maximum: Bound)
    | Nonconsecutive(condition: nat, minimum: nat, maximum: Bound)
    | Disjunction(left: Sequence, right: Sequence)
    | Conjunction(left: Sequence, right: Sequence)
    | Intersection(left: Sequence, right: Sequence)
    | Throughout(left: Sequence, right: Sequence)
    | Contained(left: Sequence, right: Sequence)
    | Match(body: Sequence, items: seq<nat>)
    | FirstMatch(body: Sequence, items: seq<nat>)

  /** Which atoms hold at each step of an infinite word. */
  type Word = nat -> (nat -> bool)

  /** Ranges of repetitions are in order, as the language demands. */
  predicate InOrder(s: Sequence) {
    match s
    case Atom(_) => true
    case Delay(before, after, _, _) => (before.Some? ==> InOrder(before.value)) && InOrder(after)
    case Repeat(unit, minimum, maximum) => InOrder(unit) && Proper(minimum, maximum)
    case Goto(_, minimum, maximum) => Proper(minimum, maximum)
    case Nonconsecutive(_, minimum, maximum) => Proper(minimum, maximum)
    case Disjunction(left, right) => InOrder(left) && InOrder(right)
    case Conjunction(left, right) => InOrder(left) && InOrder(right)
    case Intersection(left, right) => InOrder(left) && InOrder(right)
    case Throughout(left, right) => InOrder(left) && InOrder(right)
    case Contained(left, right) => InOrder(left) && InOrder(right)
    case Match(body, _) => InOrder(body)
    case FirstMatch(body, _) => InOrder(body)
  }

  /** `m` starts `d` steps after the last step of `l`; starting at that very step, both are nonempty. */
  ghost predicate StartsAfter(l: Segments, m: Segments, d: nat, i: nat, j: nat) {
    if d == 0 then Fuse(l, m, i, j)
    else exists e: nat, n: nat :: i <= e <= n <= j && n - e == d - 1 && l(i, e) && m(n, j)
  }

  /** Number of steps in `[i, j)` at which an atom holds. */
  function Occurrences(w: Word, atom: nat, i: nat, j: nat): nat
    decreases j
  {
    if j <= i then 0 else Occurrences(w, atom, i, j - 1) + if w(j - 1)(atom) then 1 else 0
  }

  predicate AllHold(w: Word, t: nat, items: seq<nat>) {
    forall k :: 0 <= k < |items| ==> w(t)(items[k])
  }

  /** Match items are evaluated at the last step. */
  function WithItems(l: Segments, w: Word, items: seq<nat>): Segments {
    (i: nat, j: nat) => l(i, j) && (items != [] ==> i < j && AllHold(w, j - 1, items))
  }

  /** One step at which an atom has the given value. */
  function Step(w: Word, atom: nat, value: bool): Segments {
    (i: nat, j: nat) => j == i + 1 && w(i)(atom) == value
  }

  /** `m` starts `lo` to `hi` steps later. */
  ghost function Later(m: Segments, lo: nat, hi: Bound): Segments {
    (i: nat, j: nat) => exists n: nat :: i <= n <= j && Between(n - i, lo, hi) && m(n, j)
  }

  /** `m` starts `lo` to `hi` steps after the last step of `l`. */
  ghost function After(l: Segments, m: Segments, lo: nat, hi: Bound): Segments {
    (i: nat, j: nat) => exists d: nat :: Between(d, lo, hi) && StartsAfter(l, m, d, i, j)
  }

  /** `l` matches somewhere inside `m`. */
  ghost function Inside(l: Segments, m: Segments): Segments {
    (i: nat, j: nat) => m(i, j) && exists a: nat, b: nat :: i <= a <= b <= j && l(a, b)
  }

  /** Ends at an occurrence, one of those counted. */
  function EndsAt(w: Word, atom: nat, lo: nat, hi: Bound): Segments {
    (i: nat, j: nat) => i <= j && Between(Occurrences(w, atom, i, j), lo, hi) && (j > i ==> w(j - 1)(atom))
  }

  function Occurring(w: Word, atom: nat, lo: nat, hi: Bound): Segments {
    (i: nat, j: nat) => i <= j && Between(Occurrences(w, atom, i, j), lo, hi)
  }

  /** The segments of `w` that tightly satisfy `s`. */
  ghost function Tight(s: Sequence, w: Word): Segments {
    match s
    case Atom(atom) => Step(w, atom, true)
    case Delay(None, after, minimum, maximum) => Later(Tight(after, w), minimum, maximum)
    case Delay(Some(before), after, minimum, maximum) => After(Tight(before, w), Tight(after, w), minimum, maximum)
    case Repeat(unit, minimum, maximum) => Repeated(Tight(unit, w), minimum, maximum)
    case Goto(atom, minimum, maximum) => EndsAt(w, atom, minimum, maximum)
    case Nonconsecutive(atom, minimum, maximum) => Occurring(w, atom, minimum, maximum)
    case Disjunction(left, right) => Either(Tight(left, w), Tight(right, w))
    case Conjunction(left, right) => Overlapping(Tight(left, w), Tight(right, w))
    case Intersection(left, right) => Both(Tight(left, w), Tight(right, w))
    case Throughout(left, right) => Both(Repeated(Tight(left, w), 0, Unbounded), Tight(right, w))
    case Contained(left, right) => Inside(Tight(left, w), Tight(right, w))
    case Match(body, items) => WithItems(Tight(body, w), w, items)
    case FirstMatch(body, items) => First(WithItems(Tight(body, w), w, items))
  }
}
