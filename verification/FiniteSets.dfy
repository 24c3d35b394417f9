/** Sizes of finite sets, and of sequences of them. */
module FiniteSets {

  function Total(d: seq<set<nat>>): nat {
    if d == [] then 0 else |d[0]| + Total(d[1..])
  }

  lemma SubsetSize<T>(a: set<T>, b: set<T>)
    requires a < b
    ensures |a| < |b|
  {
    var x :| x in b && x !in a;
    var rest := b - {x};
    assert a <= rest;
    SubsetSizes(a, rest);
  }

  lemma SubsetSizes<T>(a: set<T>, b: set<T>)
    requires a <= b
    ensures |a| <= |b|
  {
    assert b == a + (b - a);
  }

  lemma {:induction false} TotalShrinks(d: seq<set<nat>>, b: nat, s: set<nat>)
    requires b < |d| && s < d[b]
    ensures Total(d[b := s]) < Total(d)
  {
    if b == 0 {
      SubsetSize(s, d[0]);
      assert d[0 := s][1..] == d[1..];
    } else {
      TotalShrinks(d[1..], b - 1, s);
      assert d[b := s][1..] == d[1..][b - 1 := s];
    }
  }
}
