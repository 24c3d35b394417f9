/** Overlapped and non-overlapped implication with a bounded delay, clause 16.12.7 of IEEE Std 1800-2023. */
module ImplicationSemantics {
  import opened SampledTime

  /** What the monitor observes at each step: the clock tick, the antecedent, the consequent, the disable condition. */
  datatype Observed = Observed(sample: Signal, trigger: Signal, condition: Signal, disable: Signal)

  /** The consequent holds at the tick `s`, inside the window that opens `lo` ticks after the attempt at `u`. */
  ghost predicate Satisfies(o: Observed, lo: nat, u: nat, s: nat) {
    o.sample(s) && o.condition(s) && Ticks(o.sample, u, s) >= lo
  }

  /** The attempt at `u` was made, not disabled, and not yet satisfied by any tick before `t`. */
  ghost predicate Waiting(o: Observed, lo: nat, u: nat, t: nat) {
    && u <= t && o.sample(u) && o.trigger(u)
    && (forall s: nat :: u <= s < t ==> !o.disable(s))
    && (forall s: nat :: u <= s < t ==> !Satisfies(o, lo, u, s))
  }

  /** Some attempt `age` ticks old is still waiting. */
  ghost predicate Pending(o: Observed, lo: nat, age: nat, t: nat) {
    exists u: nat :: u < t && Ticks(o.sample, u, t) == age && Waiting(o, lo, u, t)
  }

  /** Some attempt, possibly the one made now, is waiting `age` ticks later. */
  ghost predicate Attempted(o: Observed, lo: nat, age: nat, t: nat) {
    exists u: nat :: Ticks(o.sample, u, t) == age && Waiting(o, lo, u, t)
  }

  /** An attempt fails at `t`: its window of ticks `lo` to `hi` closes without the consequent. */
  ghost predicate Fails(o: Observed, lo: nat, hi: nat, t: nat) {
    o.sample(t) && !o.disable(t) && !o.condition(t) && Attempted(o, lo, hi, t)
  }

  /** An attempt succeeds at `t`, with the first consequent inside its window. */
  ghost predicate Succeeds(o: Observed, lo: nat, hi: nat, t: nat) {
    && o.sample(t) && !o.disable(t) && o.condition(t)
    && exists u: nat :: lo <= Ticks(o.sample, u, t) <= hi && Waiting(o, lo, u, t)
  }

  lemma SucceedsByAge(o: Observed, lo: nat, hi: nat, t: nat)
    ensures Succeeds(o, lo, hi, t) <==>
              o.sample(t) && !o.disable(t) && o.condition(t) && exists age: nat :: lo <= age <= hi && Attempted(o, lo, age, t)
  {
    hide Waiting;
    forall u: nat | lo <= Ticks(o.sample, u, t) <= hi && Waiting(o, lo, u, t)
      ensures Attempted(o, lo, Ticks(o.sample, u, t), t)
    {
    }
  }

  // ----- the recurrence that registers follow -----

  /** Whether a register of age `age` is set after a step, from the registers before it. */
  ghost predicate AgeStep(o: Observed, lo: nat, age: nat, t: nat, younger: bool, same: bool)
    requires age >= 1
  {
    !o.disable(t) &&
    if o.sample(t) then
      if age == 1 then o.trigger(t) && (lo == 0 ==> !o.condition(t))
      else younger && (age - 1 >= lo ==> !o.condition(t))
    else same
  }

  lemma WaitingStep(o: Observed, lo: nat, u: nat, t: nat)
    requires u <= t
    ensures Waiting(o, lo, u, t + 1) <==> Waiting(o, lo, u, t) && !o.disable(t) && !Satisfies(o, lo, u, t)
  {
  }

  /** Pending attempts obey the register recurrence. */
  lemma PendingStep(o: Observed, lo: nat, age: nat, t: nat)
    requires age >= 1
    ensures Pending(o, lo, age, t + 1) <==>
              AgeStep(o, lo, age, t, age >= 2 && Pending(o, lo, age - 1, t), Pending(o, lo, age, t))
  {
    if Pending(o, lo, age, t + 1) {
      var u: nat :| u < t + 1 && Ticks(o.sample, u, t + 1) == age && Waiting(o, lo, u, t + 1);
      WaitingStep(o, lo, u, t);
      assert Ticks(o.sample, u, t + 1) == Ticks(o.sample, u, t) + if o.sample(t) then 1 else 0;
      if u < t {
        TicksFirst(o.sample, u, t);
      }
    }
    if AgeStep(o, lo, age, t, age >= 2 && Pending(o, lo, age - 1, t), Pending(o, lo, age, t)) {
      if o.sample(t) && age == 1 {
        assert Ticks(o.sample, t, t) == 0;
        assert Ticks(o.sample, t, t + 1) == 1;
        assert Waiting(o, lo, t, t + 1);
      } else {
        var before := if o.sample(t) then age - 1 else age;
        var u: nat :| u < t && Ticks(o.sample, u, t) == before && Waiting(o, lo, u, t);
        WaitingStep(o, lo, u, t);
        assert Ticks(o.sample, u, t + 1) == age;
      }
    }
  }

  lemma NothingPendingAtFirst(o: Observed, lo: nat, age: nat)
    ensures !Pending(o, lo, age, 0)
  {
  }

  /** A waiting attempt is the one made now, or one that a register holds. */
  lemma WaitingSplit(o: Observed, lo: nat, age: nat, t: nat)
    requires o.sample(t)
    ensures Attempted(o, lo, age, t) <==> (if age == 0 then o.trigger(t) else Pending(o, lo, age, t))
  {
    if age == 0 {
      assert Ticks(o.sample, t, t) == 0;
      if o.trigger(t) {
        assert Waiting(o, lo, t, t);
      }
      forall u: nat | Ticks(o.sample, u, t) == 0 && Waiting(o, lo, u, t)
        ensures o.trigger(t)
      {
        if u < t {
          TicksFirst(o.sample, u, t);
        }
      }
    } else {
      forall u: nat | Ticks(o.sample, u, t) == age && Waiting(o, lo, u, t)
        ensures Pending(o, lo, age, t)
      {
        assert u < t by {
          assert Ticks(o.sample, t, t) == 0;
        }
      }
    }
  }
}
