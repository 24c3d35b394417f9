/** Languages of segments of one infinite word: which stretches `[i, j)` of it match. */
module WordSegments {

  type Segments = (nat, nat) -> bool

  datatype Bound = Finite(n: nat) | Unbounded

  predicate Between(k: nat, lo: nat, hi: Bound) {
    lo <= k && (hi.Finite? ==> k <= hi.n)
  }

  predicate Proper(lo: nat, hi: Bound) {
    hi.Finite? ==> lo <= hi.n
  }

  function AddBounds(a: Bound, b: Bound): Bound {
    if a.Finite? && b.Finite? then Finite(a.n + b.n) else Unbounded
  }

  ghost predicate Same(l: Segments, m: Segments) {
    forall i: nat, j: nat :: l(i, j) == m(i, j)
  }

  /** One segment after the other. */
  ghost predicate Follow(l: Segments, m: Segments, i: nat, j: nat) {
    exists k: nat :: i <= k <= j && l(i, k) && m(k, j)
  }

  /** Two segments that share one letter. */
  ghost predicate Fuse(l: Segments, m: Segments, i: nat, j: nat) {
    exists k: nat :: i <= k < j && l(i, k + 1) && m(k, j)
  }

  /** `k` segments one after the other. */
  ghost predicate Power(l: Segments, k: nat, i: nat, j: nat) {
    if k == 0 then i == j
    else exists m: nat :: i <= m <= j && l(i, m) && Power(l, k - 1, m, j)
  }

  ghost predicate Repeats(l: Segments, lo: nat, hi: Bound, i: nat, j: nat) {
    exists k: nat :: Between(k, lo, hi) && Power(l, k, i, j)
  }

  function Either(l: Segments, m: Segments): Segments {
    (i: nat, j: nat) => l(i, j) || m(i, j)
  }

  function Both(l: Segments, m: Segments): Segments {
    (i: nat, j: nat) => l(i, j) && m(i, j)
  }

  /** One matches, and the other one matches a prefix. */
  ghost function Overlapping(l: Segments, m: Segments): Segments {
    (i: nat, j: nat) =>
      || (l(i, j) && exists k: nat :: i <= k <= j && m(i, k))
      || (m(i, j) && exists k: nat :: i <= k <= j && l(i, k))
  }

  ghost function Fused(l: Segments, m: Segments): Segments {
    (i: nat, j: nat) => Fuse(l, m, i, j)
  }

  ghost function Repeated(l: Segments, lo: nat, hi: Bound): Segments {
    (i: nat, j: nat) => Repeats(l, lo, hi, i, j)
  }

  /** The segments with no shorter one from the same start. */
  ghost function First(l: Segments): Segments {
    (i: nat, j: nat) => l(i, j) && forall k: nat :: i <= k < j ==> !l(i, k)
  }

  /** Any single letter. */
  predicate AnyLetter(i: nat, j: nat) {
    j == i + 1
  }

  lemma {:induction false} PowerOrdered(l: Segments, k: nat, i: nat, j: nat)
    requires Power(l, k, i, j)
    ensures i <= j
  {
    if k > 0 {
      var m: nat :| i <= m <= j && l(i, m) && Power(l, k - 1, m, j);
    }
  }

  lemma {:induction false} PowerSame(l: Segments, m: Segments, k: nat, i: nat, j: nat)
    requires Same(l, m)
    ensures Power(l, k, i, j) <==> Power(m, k, i, j)
  {
    if k > 0 {
      var p := k - 1;
      forall n: nat
        ensures Power(l, p, n, j) <==> Power(m, p, n, j)
      {
        PowerSame(l, m, p, n, j);
      }
    }
  }

  lemma RepeatsSame(l: Segments, m: Segments, lo: nat, hi: Bound, i: nat, j: nat)
    requires Same(l, m)
    ensures Repeats(l, lo, hi, i, j) <==> Repeats(m, lo, hi, i, j)
  {
    hide Power;
    forall k: nat
      ensures Power(l, k, i, j) <==> Power(m, k, i, j)
    {
      PowerSame(l, m, k, i, j);
    }
  }

  lemma {:induction false} PowerOfLetters(k: nat, i: nat, j: nat)
    ensures Power(AnyLetter, k, i, j) <==> j == i + k
  {
    if k > 0 {
      var p := k - 1;
      forall n: nat
        ensures Power(AnyLetter, p, n, j) <==> j == n + p
      {
        PowerOfLetters(p, n, j);
      }
      if j == i + k {
        assert AnyLetter(i, i + 1) && Power(AnyLetter, p, i + 1, j);
      }
    }
  }

  lemma RepeatsOrdered(l: Segments, lo: nat, hi: Bound, i: nat, j: nat)
    requires i > j
    ensures !Repeats(l, lo, hi, i, j)
  {
    forall k: nat | Power(l, k, i, j)
      ensures false
    {
      PowerOrdered(l, k, i, j);
    }
  }

  lemma RepeatsNone(l: Segments, i: nat, j: nat)
    ensures Repeats(l, 0, Finite(0), i, j) <==> i == j
  {
    if i == j {
      assert Between(0, 0, Finite(0)) && Power(l, 0, i, j);
    }
  }

  /** Repetitions can be split anywhere. */
  lemma {:induction false} PowerSplits(l: Segments, a: nat, b: nat, i: nat, j: nat) returns (m: nat)
    requires Power(l, a + b, i, j)
    ensures i <= m <= j && Power(l, a, i, m) && Power(l, b, m, j)
  {
    if a == 0 {
      PowerOrdered(l, b, i, j);
      m := i;
    } else {
      assert a + b - 1 == (a - 1) + b;
      var n: nat :| i <= n <= j && l(i, n) && Power(l, (a - 1) + b, n, j);
      m := PowerSplits(l, a - 1, b, n, j);
    }
  }

  lemma {:induction false} PowerJoins(l: Segments, a: nat, b: nat, i: nat, m: nat, j: nat)
    requires Power(l, a, i, m) && Power(l, b, m, j)
    ensures Power(l, a + b, i, j)
  {
    if a > 0 {
      var n: nat :| i <= n <= m && l(i, n) && Power(l, a - 1, n, m);
      PowerJoins(l, a - 1, b, n, m, j);
      PowerOrdered(l, b, m, j);
      assert a + b - 1 == (a - 1) + b;
    }
  }

  /** How a total number of repetitions divides over two ranges. */
  lemma Divide(k: nat, lo: nat, hi: Bound, lo': nat, hi': Bound) returns (a: nat, b: nat)
    requires Proper(lo, hi) && Proper(lo', hi') && Between(k, lo + lo', AddBounds(hi, hi'))
    ensures a + b == k && Between(a, lo, hi) && Between(b, lo', hi')
  {
    if hi.Finite? && hi.n < k - lo' {
      a := hi.n;
    } else {
      a := k - lo';
    }
    b := k - a;
  }

  /** Ranges of repetitions add up. */
  lemma RepeatsAdd(l: Segments, lo: nat, hi: Bound, lo': nat, hi': Bound, i: nat, j: nat)
    requires Proper(lo, hi) && Proper(lo', hi')
    ensures Repeats(l, lo + lo', AddBounds(hi, hi'), i, j) <==>
              exists m: nat :: i <= m <= j && Repeats(l, lo, hi, i, m) && Repeats(l, lo', hi', m, j)
  {
    hide Power;
    if Repeats(l, lo + lo', AddBounds(hi, hi'), i, j) {
      var k: nat :| Between(k, lo + lo', AddBounds(hi, hi')) && Power(l, k, i, j);
      var a, b := Divide(k, lo, hi, lo', hi');
      var m := PowerSplits(l, a, b, i, j);
      assert Repeats(l, lo, hi, i, m) && Repeats(l, lo', hi', m, j);
    }
    forall m: nat | i <= m <= j && Repeats(l, lo, hi, i, m) && Repeats(l, lo', hi', m, j)
      ensures Repeats(l, lo + lo', AddBounds(hi, hi'), i, j)
    {
      var a: nat :| Between(a, lo, hi) && Power(l, a, i, m);
      var b: nat :| Between(b, lo', hi') && Power(l, b, m, j);
      PowerJoins(l, a, b, i, m, j);
      assert Between(a + b, lo + lo', AddBounds(hi, hi'));
    }
  }
}
