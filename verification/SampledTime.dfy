/** Time measured in sample ticks, with arbitrary steps in between. */
module SampledTime {

  /** A Boolean signal over the steps of a run. */
  type Signal = nat -> bool

  /** Number of sample ticks in the steps from `u` up to, not including, `t`. */
  ghost function Ticks(sample: Signal, u: nat, t: nat): nat
    decreases t
  {
    if t <= u then 0 else Ticks(sample, u, t - 1) + if sample(t - 1) then 1 else 0
  }

  lemma {:induction false} TicksSplit(sample: Signal, u: nat, v: nat, t: nat)
    requires u <= v <= t
    ensures Ticks(sample, u, t) == Ticks(sample, u, v) + Ticks(sample, v, t)
    decreases t
  {
    if v < t {
      TicksSplit(sample, u, v, t - 1);
    }
  }

  lemma TicksFirst(sample: Signal, u: nat, t: nat)
    requires u < t
    ensures Ticks(sample, u, t) == (if sample(u) then 1 else 0) + Ticks(sample, u + 1, t)
  {
    TicksSplit(sample, u, u + 1, t);
    assert Ticks(sample, u, u) == 0;
  }

  /** Two sample ticks with equally many ticks up to `t` are the same step. */
  lemma SameTick(sample: Signal, u: nat, v: nat, t: nat)
    requires u < t && v < t && sample(u) && sample(v) && Ticks(sample, u, t) == Ticks(sample, v, t)
    ensures u == v
  {
    if u < v {
      TicksSplit(sample, u, v, t);
      TicksFirst(sample, u, v);
    } else if v < u {
      TicksSplit(sample, v, u, t);
      TicksFirst(sample, v, u);
    }
  }

  /** Some tick before `t` has a given number of ticks from it on, if there are so many. */
  lemma {:induction false} TickExists(sample: Signal, depth: nat, t: nat) returns (u: nat)
    requires 0 < depth <= Ticks(sample, 0, t)
    ensures u < t && sample(u) && Ticks(sample, u, t) == depth
  {
    if sample(t - 1) && depth == 1 {
      u := t - 1;
      assert Ticks(sample, u, u) == 0;
    } else {
      u := TickExists(sample, if sample(t - 1) then depth - 1 else depth, t - 1);
    }
  }
}
