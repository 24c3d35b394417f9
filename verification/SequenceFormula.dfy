/** Finite sequences expanded into formulas of linear temporal logic, one for each endpoint. */
module SequenceFormula {
  import opened TransitionSystem
  import opened WordSegments
  import opened SequenceSemantics
  import SereLowering

  datatype Formula =
    | Truth
    | Prop(atom: nat)
    | And(left: Formula, right: Formula)
    | Next(cycles: nat, body: Formula)

  predicate Sat(f: Formula, w: Word, t: nat) {
    match f
    case Truth => true
    case Prop(atom) => w(t)(atom)
    case And(left, right) => Sat(left, w, t) && Sat(right, w, t)
    case Next(cycles, body) => Sat(body, w, t + cycles)
  }

  /** A formula on the first step, and how many steps later the match ends. */
  datatype SequenceMatch = SequenceMatch(formula: Formula, end: nat)

  datatype Expansion = Expanded(matches: seq<SequenceMatch>) | Refused(error: string)

  const EXPANSION := 256

  // ----- endpoints -----

  function EndsOf(list: seq<SequenceMatch>): (r: seq<nat>)
    ensures |r| == |list|
  {
    seq(|list|, k requires 0 <= k < |list| => list[k].end)
  }

  function Plus(offset: nat, ends: seq<nat>): (r: seq<nat>)
    ensures |r| == |ends|
  {
    seq(|ends|, k requires 0 <= k < |ends| => offset + ends[k])
  }

  /** Endpoints after delays `lo` up to, not including, `n`. */
  function DelayFrom(end: nat, right: seq<nat>, lo: nat, n: nat): seq<nat> {
    if n <= lo then [] else DelayFrom(end, right, lo, n - 1) + Plus(end + (n - 1), right)
  }

  function DelayAll(left: seq<nat>, right: seq<nat>, lo: nat, hi: nat, k: nat): seq<nat>
    requires k <= |left|
  {
    if k == 0 then [] else DelayAll(left, right, lo, hi, k - 1) + DelayFrom(left[k - 1], right, lo, hi + 1)
  }

  function Max(a: nat, b: nat): nat {
    if a < b then b else a
  }

  /** Endpoints of pairs with one left match; for an intersection, of those that end together. */
  function PairsFrom(end: nat, right: seq<nat>, together: bool, k: nat): seq<nat>
    requires k <= |right|
  {
    if k == 0 then []
    else PairsFrom(end, right, together, k - 1) + if together && end != right[k - 1] then [] else [Max(end, right[k - 1])]
  }

  function PairsAll(left: seq<nat>, right: seq<nat>, together: bool, k: nat): seq<nat>
    requires k <= |left|
  {
    if k == 0 then [] else PairsAll(left, right, together, k - 1) + PairsFrom(left[k - 1], right, together, |right|)
  }

  /** Endpoints when one more unit follows each prefix. */
  function ExtendAll(prefixes: seq<nat>, unit: seq<nat>, first: bool, k: nat): seq<nat>
    requires k <= |prefixes|
  {
    if k == 0 then []
    else ExtendAll(prefixes, unit, first, k - 1) + Plus(if first then 0 else prefixes[k - 1] + 1, unit)
  }

  function PowerEnds(unit: seq<nat>, n: nat): seq<nat> {
    if n == 0 then [0]
    else
      var before := PowerEnds(unit, n - 1);
      ExtendAll(before, unit, n == 1, |before|)
  }

  /** Endpoints of `lo` to `n` units, unless some list on the way is too long. */
  function RepeatEnds(unit: seq<nat>, lo: nat, n: nat): Option<seq<nat>> {
    if n == 0 then Some([])
    else
      var before, power := RepeatEnds(unit, lo, n - 1), PowerEnds(unit, n);
      if before.None? then None
      else
        var all := before.value + if n >= lo then power else [];
        if |all| >= EXPANSION || |power| >= EXPANSION then None else Some(all)
  }

  function Copies(end: nat, n: nat): seq<nat> {
    seq(n, k => end)
  }

  /** One copy of the outer endpoint for every place where the inner match fits. */
  function PlacesFrom(outer: nat, inner: seq<nat>, k: nat): seq<nat>
    requires k <= |inner|
  {
    if k == 0 then []
    else PlacesFrom(outer, inner, k - 1) + if inner[k - 1] <= outer then Copies(outer, outer - inner[k - 1] + 1) else []
  }

  function PlacesAll(outer: seq<nat>, inner: seq<nat>, k: nat): seq<nat>
    requires k <= |outer|
  {
    if k == 0 then [] else PlacesAll(outer, inner, k - 1) + PlacesFrom(outer[k - 1], inner, |inner|)
  }

  function NotEmpty(ends: seq<nat>): Option<seq<nat>> {
    if ends == [] then None else Some(ends)
  }

  predicate FiniteRange(lo: nat, hi: Bound) {
    hi.Finite? && lo <= hi.n < lo + EXPANSION
  }

  /** Endpoints of the expansion, in order; nothing when the sequence is not expanded. */
  function Shape(s: Sequence): Option<seq<nat>> {
    match s
    case Atom(_) => Some([0])
    case Delay(before, after, minimum, maximum) =>
      var right := Shape(after);
      var left := if before.Some? then Shape(before.value) else Some([0]);
      if left.Some? && right.Some? && FiniteRange(minimum, maximum)
      then Some(DelayAll(left.value, right.value, minimum, maximum.n, |left.value|)) else None
    case Repeat(unit, minimum, maximum) =>
      var ends := Shape(unit);
      if ends.Some? && FiniteRange(minimum, maximum) && minimum > 0 then RepeatEnds(ends.value, minimum, maximum.n) else None
    case Goto(_, _, _) => None
    case Nonconsecutive(_, _, _) => None
    case Disjunction(left, right) =>
      var a, b := Shape(left), Shape(right);
      if a.Some? && b.Some? then Some(a.value + b.value) else None
    case Conjunction(left, right) =>
      var a, b := Shape(left), Shape(right);
      if a.Some? && b.Some? then NotEmpty(PairsAll(a.value, b.value, false, |a.value|)) else None
    case Intersection(left, right) =>
      var a, b := Shape(left), Shape(right);
      if a.Some? && b.Some? then NotEmpty(PairsAll(a.value, b.value, true, |a.value|)) else None
    case Throughout(left, right) => if left.Atom? then Shape(right) else None
    case Contained(left, right) =>
      var a, b := Shape(left), Shape(right);
      if a.Some? && b.Some? then NotEmpty(PlacesAll(b.value, a.value, |b.value|)) else None
    case Match(body, items) => if items == [] then Shape(body) else None
    case FirstMatch(_, _) => None
  }

  // ----- what a list of matches means -----

  /** Some match of the list ends with the segment. */
  ghost predicate Matched(list: seq<SequenceMatch>, w: Word, i: nat, j: nat) {
    exists k: nat :: k < |list| && EndsWith(list[k], w, i, j)
  }

  predicate EndsWith(m: SequenceMatch, w: Word, i: nat, j: nat) {
    j == i + m.end + 1 && Sat(m.formula, w, i)
  }

  lemma MatchedAppends(a: seq<SequenceMatch>, b: seq<SequenceMatch>, w: Word, i: nat, j: nat)
    ensures Matched(a + b, w, i, j) <==> Matched(a, w, i, j) || Matched(b, w, i, j)
  {
    hide EndsWith;
    var all := a + b;
    forall k: nat | k < |a|
      ensures all[k] == a[k]
    {
    }
    forall k: nat | k < |b|
      ensures all[|a| + k] == b[k]
    {
    }
  }

  lemma EndsAppend(a: seq<SequenceMatch>, b: seq<SequenceMatch>)
    ensures EndsOf(a + b) == EndsOf(a) + EndsOf(b)
  {
  }

  lemma MatchedOne(m: SequenceMatch, w: Word, i: nat, j: nat)
    ensures Matched([m], w, i, j) <==> EndsWith(m, w, i, j)
  {
    hide EndsWith;
    var one := [m];
    assert one[0] == m;
  }

  function Shifted(cycles: nat, f: Formula): (r: Formula)
    ensures forall w: Word, t: nat :: Sat(r, w, t) <==> Sat(f, w, t + cycles)
  {
    if cycles > 0 then Next(cycles, f) else f
  }

  // ----- one prefix before every item of a list -----

  function Joined(prefix: SequenceMatch, offset: nat, m: SequenceMatch): SequenceMatch {
    SequenceMatch(Formula.And(prefix.formula, Shifted(offset, m.formula)), offset + m.end)
  }

  method JoinEach(prefix: SequenceMatch, offset: nat, items: seq<SequenceMatch>) returns (r: seq<SequenceMatch>)
    ensures forall w: Word, i: nat, j: nat ::
              Matched(r, w, i, j) <==> Sat(prefix.formula, w, i) && Matched(items, w, i + offset, j)
    ensures EndsOf(r) == Plus(offset, EndsOf(items))
  {
    r := [];
    for k := 0 to |items|
      invariant |r| == k && forall n: nat :: n < k ==> r[n] == Joined(prefix, offset, items[n])
    {
      r := r + [Joined(prefix, offset, items[k])];
    }
    JoinedMatch(prefix, offset, items, r);
  }

  lemma JoinedEnds(prefix: SequenceMatch, offset: nat, m: SequenceMatch, w: Word, i: nat, j: nat)
    ensures EndsWith(Joined(prefix, offset, m), w, i, j) <==> Sat(prefix.formula, w, i) && EndsWith(m, w, i + offset, j)
  {
    var later := Shifted(offset, m.formula);
    assert Sat(Formula.And(prefix.formula, later), w, i) <==> Sat(prefix.formula, w, i) && Sat(later, w, i);
  }

  lemma JoinedMatch(prefix: SequenceMatch, offset: nat, items: seq<SequenceMatch>, r: seq<SequenceMatch>)
    requires |r| == |items| && forall n: nat :: n < |items| ==> r[n] == Joined(prefix, offset, items[n])
    ensures forall w: Word, i: nat, j: nat ::
              Matched(r, w, i, j) <==> Sat(prefix.formula, w, i) && Matched(items, w, i + offset, j)
  {
    forall w: Word, i: nat, j: nat, n: nat | n < |items|
      ensures EndsWith(r[n], w, i, j) <==> Sat(prefix.formula, w, i) && EndsWith(items[n], w, i + offset, j)
    {
      JoinedEnds(prefix, offset, items[n], w, i, j);
    }
  }

  // ----- delays -----

  /** A match of `lhs`, and a match of the other list that starts `d` steps after its end. */
  ghost predicate Reaches(lhs: SequenceMatch, right: seq<SequenceMatch>, d: nat, w: Word, i: nat, j: nat) {
    Sat(lhs.formula, w, i) && Matched(right, w, i + lhs.end + d, j)
  }

  lemma ReachesMeans(lhs: SequenceMatch, right: seq<SequenceMatch>, d: nat, w: Word, i: nat, j: nat)
    ensures Reaches(lhs, right, d, w, i, j) <==> Sat(lhs.formula, w, i) && Matched(right, w, i + (lhs.end + d), j)
  {
  }

  method ExpandDelayAfter(lhs: SequenceMatch, right: seq<SequenceMatch>, minimum: nat, maximum: nat) returns (r: seq<SequenceMatch>)
    requires minimum <= maximum
    ensures forall w: Word, i: nat, j: nat ::
              Matched(r, w, i, j) <==> exists d: nat :: minimum <= d <= maximum && Reaches(lhs, right, d, w, i, j)
    ensures EndsOf(r) == DelayFrom(lhs.end, EndsOf(right), minimum, maximum + 1)
  {
    hide Matched, Sat, Reaches;
    r := [];
    MatchedNone();
    for delay := minimum to maximum + 1
      invariant forall w: Word, i: nat, j: nat ::
                  Matched(r, w, i, j) <==> exists d: nat :: minimum <= d < delay && Reaches(lhs, right, d, w, i, j)
      invariant EndsOf(r) == DelayFrom(lhs.end, EndsOf(right), minimum, delay)
    {
      var more := JoinEach(lhs, lhs.end + delay, right);
      forall w: Word, i: nat, j: nat
        ensures Matched(r + more, w, i, j) <==> exists d: nat :: minimum <= d < delay + 1 && Reaches(lhs, right, d, w, i, j)
      {
        MatchedAppends(r, more, w, i, j);
        ReachesMeans(lhs, right, delay, w, i, j);
      }
      EndsAppend(r, more);
      r := r + more;
    }
  }

  lemma MatchedNone()
    ensures forall w: Word, i: nat, j: nat :: !Matched([], w, i, j)
  {
  }

  method ExpandDelay(left: seq<SequenceMatch>, right: seq<SequenceMatch>, minimum: nat, maximum: nat) returns (r: seq<SequenceMatch>)
    requires minimum <= maximum
    ensures forall w: Word, i: nat, j: nat ::
              Matched(r, w, i, j) <==>
                exists k: nat, d: nat :: k < |left| && minimum <= d <= maximum && Reaches(left[k], right, d, w, i, j)
    ensures EndsOf(r) == DelayAll(EndsOf(left), EndsOf(right), minimum, maximum, |left|)
  {
    hide Matched, Sat, Reaches, DelayFrom;
    r := [];
    MatchedNone();
    for k := 0 to |left|
      invariant forall w: Word, i: nat, j: nat ::
                  Matched(r, w, i, j) <==>
                    exists n: nat, d: nat :: n < k && minimum <= d <= maximum && Reaches(left[n], right, d, w, i, j)
      invariant EndsOf(r) == DelayAll(EndsOf(left), EndsOf(right), minimum, maximum, k)
    {
      var more := ExpandDelayAfter(left[k], right, minimum, maximum);
      forall w: Word, i: nat, j: nat
        ensures Matched(r + more, w, i, j) <==>
                  exists n: nat, d: nat :: n < k + 1 && minimum <= d <= maximum && Reaches(left[n], right, d, w, i, j)
      {
        MatchedAppends(r, more, w, i, j);
      }
      EndsAppend(r, more);
      r := r + more;
    }
  }

  /** The list matches exactly the given segments of every word. */
  ghost predicate Expands(list: seq<SequenceMatch>, s: Sequence) {
    forall w: Word, i: nat, j: nat :: Matched(list, w, i, j) <==> Tight(s, w)(i, j)
  }

  lemma MatchedNonempty(list: seq<SequenceMatch>, w: Word, i: nat, j: nat)
    requires Matched(list, w, i, j)
    ensures i < j
  {
  }

  lemma AfterIsReached(left: seq<SequenceMatch>, right: seq<SequenceMatch>, l: Segments, m: Segments, d: nat, w: Word, i: nat, j: nat)
    requires forall i: nat, j: nat :: Matched(left, w, i, j) == l(i, j)
    requires forall i: nat, j: nat :: Matched(right, w, i, j) == m(i, j)
    requires StartsAfter(l, m, d, i, j)
    ensures exists k: nat :: k < |left| && Reaches(left[k], right, d, w, i, j)
  {
    hide Sat;
    var e: nat;
    if d == 0 {
      var k: nat :| i <= k < j && l(i, k + 1) && m(k, j);
      e := k + 1;
    } else {
      var n: nat;
      e, n :| i <= e <= n <= j && n - e == d - 1 && l(i, e) && m(n, j);
    }
    assert Matched(left, w, i, e);
    var k: nat :| k < |left| && EndsWith(left[k], w, i, e);
    assert Reaches(left[k], right, d, w, i, j);
  }

  lemma ReachedIsAfter(lhs: SequenceMatch, right: seq<SequenceMatch>, l: Segments, m: Segments, d: nat, w: Word, i: nat, j: nat)
    requires l(i, i + lhs.end + 1)
    requires forall i: nat, j: nat :: Matched(right, w, i, j) == m(i, j)
    requires Reaches(lhs, right, d, w, i, j)
    ensures StartsAfter(l, m, d, i, j)
  {
    hide Matched, Sat;
    var e := i + lhs.end + 1;
    MatchedNonempty(right, w, i + lhs.end + d, j);
    if d == 0 {
      assert l(i, (e - 1) + 1) && m(e - 1, j);
    } else {
      var n: nat := e + (d - 1);
      assert n - e == d - 1 && l(i, e) && m(n, j);
    }
  }

  lemma ReachesAfter(left: seq<SequenceMatch>, right: seq<SequenceMatch>, l: Segments, m: Segments, d: nat, w: Word, i: nat, j: nat)
    requires forall i: nat, j: nat :: Matched(left, w, i, j) == l(i, j)
    requires forall i: nat, j: nat :: Matched(right, w, i, j) == m(i, j)
    ensures StartsAfter(l, m, d, i, j) <==> exists k: nat :: k < |left| && Reaches(left[k], right, d, w, i, j)
  {
    hide StartsAfter;
    if StartsAfter(l, m, d, i, j) {
      AfterIsReached(left, right, l, m, d, w, i, j);
    }
    forall k: nat | k < |left| && Reaches(left[k], right, d, w, i, j)
      ensures StartsAfter(l, m, d, i, j)
    {
      assert EndsWith(left[k], w, i, i + left[k].end + 1) && Matched(left, w, i, i + left[k].end + 1);
      ReachedIsAfter(left[k], right, l, m, d, w, i, j);
    }
  }

  lemma DelayExpands(r: seq<SequenceMatch>, before: Option<Sequence>, after: Sequence, left: seq<SequenceMatch>,
                     right: seq<SequenceMatch>, lo: nat, hi: nat)
    requires lo <= hi && Expands(right, after)
    requires if before.Some? then Expands(left, before.value) else left == [SequenceMatch(Truth, 0)]
    requires forall w: Word, i: nat, j: nat ::
               Matched(r, w, i, j) <==> exists k: nat, d: nat :: k < |left| && lo <= d <= hi && Reaches(left[k], right, d, w, i, j)
    ensures Expands(r, Delay(before, after, lo, Finite(hi)))
  {
    hide Matched, Tight, Reaches, After, Later, StartsAfter;
    forall w: Word, i: nat, j: nat
      ensures Matched(r, w, i, j) <==> Tight(Delay(before, after, lo, Finite(hi)), w)(i, j)
    {
      DelayTight(before, after, lo, Finite(hi), w);
      if before.Some? {
        AfterReaches(left, right, Tight(before.value, w), Tight(after, w), lo, hi, w, i, j);
      } else {
        LaterReaches(right, Tight(after, w), lo, hi, w, i, j);
        var start := SequenceMatch(Truth, 0);
        assert left[0] == start;
        assert Matched(r, w, i, j) <==> exists d: nat :: lo <= d <= hi && Reaches(start, right, d, w, i, j);
      }
    }
  }

  lemma AfterReaches(left: seq<SequenceMatch>, right: seq<SequenceMatch>, l: Segments, m: Segments, lo: nat, hi: nat,
                     w: Word, i: nat, j: nat)
    requires forall i: nat, j: nat :: Matched(left, w, i, j) == l(i, j)
    requires forall i: nat, j: nat :: Matched(right, w, i, j) == m(i, j)
    ensures After(l, m, lo, Finite(hi))(i, j) <==>
              exists k: nat, d: nat :: k < |left| && lo <= d <= hi && Reaches(left[k], right, d, w, i, j)
  {
    hide Matched, Reaches, StartsAfter;
    forall d: nat
      ensures StartsAfter(l, m, d, i, j) <==> exists k: nat :: k < |left| && Reaches(left[k], right, d, w, i, j)
    {
      ReachesAfter(left, right, l, m, d, w, i, j);
    }
    if After(l, m, lo, Finite(hi))(i, j) {
      var d: nat :| Between(d, lo, Finite(hi)) && StartsAfter(l, m, d, i, j);
      var k: nat :| k < |left| && Reaches(left[k], right, d, w, i, j);
    }
    forall k: nat, d: nat | k < |left| && lo <= d <= hi && Reaches(left[k], right, d, w, i, j)
      ensures After(l, m, lo, Finite(hi))(i, j)
    {
      assert Between(d, lo, Finite(hi)) && StartsAfter(l, m, d, i, j);
    }
  }

  lemma LaterReaches(right: seq<SequenceMatch>, m: Segments, lo: nat, hi: nat, w: Word, i: nat, j: nat)
    requires forall i: nat, j: nat :: Matched(right, w, i, j) == m(i, j)
    ensures Later(m, lo, Finite(hi))(i, j) <==>
              exists d: nat :: lo <= d <= hi && Reaches(SequenceMatch(Truth, 0), right, d, w, i, j)
  {
    hide Matched, Later, Reaches;
    if Later(m, lo, Finite(hi))(i, j) {
      LaterIsReached(right, m, lo, hi, w, i, j);
    }
    forall d: nat | lo <= d <= hi && Reaches(SequenceMatch(Truth, 0), right, d, w, i, j)
      ensures Later(m, lo, Finite(hi))(i, j)
    {
      ReachedIsLater(right, m, lo, hi, d, w, i, j);
    }
  }

  lemma LaterIsReached(right: seq<SequenceMatch>, m: Segments, lo: nat, hi: nat, w: Word, i: nat, j: nat)
    requires forall i: nat, j: nat :: Matched(right, w, i, j) == m(i, j)
    requires Later(m, lo, Finite(hi))(i, j)
    ensures exists d: nat :: lo <= d <= hi && Reaches(SequenceMatch(Truth, 0), right, d, w, i, j)
  {
    hide Matched, Reaches;
    var n: nat :| i <= n <= j && Between(n - i, lo, Finite(hi)) && m(n, j);
    ReachesFromStart(right, n - i, w, i, j);
    assert lo <= n - i <= hi && Reaches(SequenceMatch(Truth, 0), right, n - i, w, i, j);
  }

  lemma ReachedIsLater(right: seq<SequenceMatch>, m: Segments, lo: nat, hi: nat, d: nat, w: Word, i: nat, j: nat)
    requires forall i: nat, j: nat :: Matched(right, w, i, j) == m(i, j)
    requires lo <= d <= hi && Reaches(SequenceMatch(Truth, 0), right, d, w, i, j)
    ensures Later(m, lo, Finite(hi))(i, j)
  {
    hide Matched, Reaches;
    ReachesFromStart(right, d, w, i, j);
    var n := i + d;
    assert i <= n <= j && Between(n - i, lo, Finite(hi)) && m(n, j);
  }

  lemma ReachesFromStart(right: seq<SequenceMatch>, d: nat, w: Word, i: nat, j: nat)
    ensures Reaches(SequenceMatch(Truth, 0), right, d, w, i, j) <==> Matched(right, w, i + d, j) && i + d <= j
  {
  }

  lemma DelayTight(before: Option<Sequence>, after: Sequence, lo: nat, hi: Bound, w: Word)
    ensures Tight(Delay(before, after, lo, hi), w) ==
            if before.Some? then After(Tight(before.value, w), Tight(after, w), lo, hi) else Later(Tight(after, w), lo, hi)
  {
    hide After, Later;
    match before
    case None =>
    case Some(_) =>
  }

  // ----- conjunction and intersection -----

  function Paired(lhs: SequenceMatch, rhs: SequenceMatch): SequenceMatch {
    SequenceMatch(Formula.And(lhs.formula, rhs.formula), Max(lhs.end, rhs.end))
  }

  /** Both match from the same step; together, they also end together. */
  ghost predicate PairEnds(lhs: SequenceMatch, rhs: SequenceMatch, together: bool, w: Word, i: nat, j: nat) {
    (together ==> lhs.end == rhs.end) && EndsWith(Paired(lhs, rhs), w, i, j)
  }

  method PairEach(lhs: SequenceMatch, right: seq<SequenceMatch>, together: bool) returns (r: seq<SequenceMatch>)
    ensures forall w: Word, i: nat, j: nat ::
              Matched(r, w, i, j) <==> exists n: nat :: n < |right| && PairEnds(lhs, right[n], together, w, i, j)
    ensures EndsOf(r) == PairsFrom(lhs.end, EndsOf(right), together, |right|)
  {
    hide Matched, Sat, EndsWith;
    r := [];
    MatchedNone();
    for k := 0 to |right|
      invariant forall w: Word, i: nat, j: nat ::
                  Matched(r, w, i, j) <==> exists n: nat :: n < k && PairEnds(lhs, right[n], together, w, i, j)
      invariant EndsOf(r) == PairsFrom(lhs.end, EndsOf(right), together, k)
    {
      if !(together && lhs.end != right[k].end) {
        var pair := Paired(lhs, right[k]);
        forall w: Word, i: nat, j: nat
          ensures Matched(r + [pair], w, i, j) <==> Matched(r, w, i, j) || EndsWith(pair, w, i, j)
        {
          MatchedAppends(r, [pair], w, i, j);
          MatchedOne(pair, w, i, j);
        }
        EndsAppend(r, [pair]);
        r := r + [pair];
      }
    }
  }

  method ExpandPairs(left: seq<SequenceMatch>, right: seq<SequenceMatch>, together: bool) returns (r: seq<SequenceMatch>)
    ensures forall w: Word, i: nat, j: nat ::
              Matched(r, w, i, j) <==>
                exists k: nat, n: nat :: k < |left| && n < |right| && PairEnds(left[k], right[n], together, w, i, j)
    ensures EndsOf(r) == PairsAll(EndsOf(left), EndsOf(right), together, |left|)
  {
    hide Matched, PairEnds, PairsFrom;
    r := [];
    MatchedNone();
    for m := 0 to |left|
      invariant forall w: Word, i: nat, j: nat ::
                  Matched(r, w, i, j) <==>
                    exists k: nat, n: nat :: k < m && n < |right| && PairEnds(left[k], right[n], together, w, i, j)
      invariant EndsOf(r) == PairsAll(EndsOf(left), EndsOf(right), together, m)
    {
      var more := PairEach(left[m], right, together);
      forall w: Word, i: nat, j: nat
        ensures Matched(r + more, w, i, j) <==> Matched(r, w, i, j) || Matched(more, w, i, j)
      {
        MatchedAppends(r, more, w, i, j);
      }
      EndsAppend(r, more);
      r := r + more;
    }
  }

  lemma PairsMean(left: seq<SequenceMatch>, right: seq<SequenceMatch>, together: bool, w: Word, i: nat, j: nat)
    ensures (exists k: nat, n: nat :: k < |left| && n < |right| && PairEnds(left[k], right[n], together, w, i, j)) <==>
              if together then Matched(left, w, i, j) && Matched(right, w, i, j)
              else
                || (Matched(left, w, i, j) && exists e: nat :: i <= e <= j && Matched(right, w, i, e))
                || (Matched(right, w, i, j) && exists e: nat :: i <= e <= j && Matched(left, w, i, e))
  {
    forall k: nat, n: nat | k < |left| && n < |right| && PairEnds(left[k], right[n], together, w, i, j)
      ensures if together then Matched(left, w, i, j) && Matched(right, w, i, j)
              else
                || (Matched(left, w, i, j) && exists e: nat :: i <= e <= j && Matched(right, w, i, e))
                || (Matched(right, w, i, j) && exists e: nat :: i <= e <= j && Matched(left, w, i, e))
    {
      var a, b := left[k], right[n];
      assert EndsWith(a, w, i, i + a.end + 1) && EndsWith(b, w, i, i + b.end + 1);
      assert Matched(left, w, i, i + a.end + 1) && Matched(right, w, i, i + b.end + 1);
    }
    forall e: nat | i <= e <= j && Matched(left, w, i, j) && Matched(right, w, i, e) && (together ==> e == j)
      ensures exists k: nat, n: nat :: k < |left| && n < |right| && PairEnds(left[k], right[n], together, w, i, j)
    {
      var k: nat :| k < |left| && EndsWith(left[k], w, i, j);
      var n: nat :| n < |right| && EndsWith(right[n], w, i, e);
      assert PairEnds(left[k], right[n], together, w, i, j);
    }
    forall e: nat | !together && i <= e <= j && Matched(right, w, i, j) && Matched(left, w, i, e)
      ensures exists k: nat, n: nat :: k < |left| && n < |right| && PairEnds(left[k], right[n], together, w, i, j)
    {
      var k: nat :| k < |left| && EndsWith(left[k], w, i, e);
      var n: nat :| n < |right| && EndsWith(right[n], w, i, j);
      assert PairEnds(left[k], right[n], together, w, i, j);
    }
    if together && Matched(left, w, i, j) {
      MatchedNonempty(left, w, i, j);
    }
  }

  lemma PairsExpand(r: seq<SequenceMatch>, left: seq<SequenceMatch>, right: seq<SequenceMatch>, a: Sequence, b: Sequence, together: bool)
    requires Expands(left, a) && Expands(right, b)
    requires forall w: Word, i: nat, j: nat ::
               Matched(r, w, i, j) <==>
                 exists k: nat, n: nat :: k < |left| && n < |right| && PairEnds(left[k], right[n], together, w, i, j)
    ensures Expands(r, if together then Intersection(a, b) else Conjunction(a, b))
  {
    hide Matched, PairEnds, Tight;
    forall w: Word, i: nat, j: nat
      ensures Matched(r, w, i, j) <==> Tight(if together then Intersection(a, b) else Conjunction(a, b), w)(i, j)
    {
      PairsMean(left, right, together, w, i, j);
      BinaryTight(a, b, w);
    }
  }

  lemma BinaryTight(a: Sequence, b: Sequence, w: Word)
    ensures Tight(Intersection(a, b), w) == Both(Tight(a, w), Tight(b, w))
    ensures Tight(Conjunction(a, b), w) == Overlapping(Tight(a, w), Tight(b, w))
    ensures Tight(Disjunction(a, b), w) == Either(Tight(a, w), Tight(b, w))
    ensures Tight(Contained(a, b), w) == Inside(Tight(a, w), Tight(b, w))
    ensures Tight(Throughout(a, b), w) == Both(Repeated(Tight(a, w), 0, Unbounded), Tight(b, w))
  {
    hide Both, Overlapping, Either, Inside, Repeated;
  }

  lemma DisjunctionExpands(left: seq<SequenceMatch>, right: seq<SequenceMatch>, a: Sequence, b: Sequence)
    requires Expands(left, a) && Expands(right, b)
    ensures Expands(left + right, Disjunction(a, b))
  {
    hide Matched, Tight;
    forall w: Word, i: nat, j: nat
      ensures Matched(left + right, w, i, j) <==> Tight(Disjunction(a, b), w)(i, j)
    {
      MatchedAppends(left, right, w, i, j);
      BinaryTight(a, b, w);
    }
  }

  // ----- throughout -----

  predicate HoldsThroughout(w: Word, atom: nat, i: nat, j: nat) {
    forall c: nat :: i <= c < j ==> w(c)(atom)
  }

  /** `r` matches where `m` does and the condition holds throughout. */
  ghost predicate GuardedBy(r: SequenceMatch, m: SequenceMatch, atom: nat) {
    && r.end == m.end
    && forall w: Word, i: nat, j: nat :: EndsWith(r, w, i, j) <==> EndsWith(m, w, i, j) && HoldsThroughout(w, atom, i, j)
  }

  /** Adds the condition at every step up to the end. */
  method Guarded(m: SequenceMatch, atom: nat) returns (r: SequenceMatch)
    ensures GuardedBy(r, m, atom)
  {
    r := m;
    for cycle := 0 to m.end + 1
      invariant r.end == m.end
      invariant forall w: Word, t: nat :: Sat(r.formula, w, t) <==> Sat(m.formula, w, t) && HoldsThroughout(w, atom, t, t + cycle)
    {
      ghost var before := r.formula;
      var later := Shifted(cycle, Prop(atom));
      r := r.(formula := Formula.And(r.formula, later));
      forall w: Word, t: nat
        ensures Sat(r.formula, w, t) <==> Sat(before, w, t) && w(t + cycle)(atom)
      {
        assert Sat(later, w, t) <==> Sat(Prop(atom), w, t + cycle);
      }
    }
  }

  method ExpandThroughout(list: seq<SequenceMatch>, atom: nat) returns (r: seq<SequenceMatch>)
    ensures forall w: Word, i: nat, j: nat :: Matched(r, w, i, j) <==> Matched(list, w, i, j) && HoldsThroughout(w, atom, i, j)
    ensures EndsOf(r) == EndsOf(list)
  {
    hide HoldsThroughout, Sat;
    r := list;
    for k := 0 to |list|
      invariant |r| == |list| && forall n :: k <= n < |list| ==> r[n] == list[n]
      invariant forall n: nat :: n < k ==> GuardedBy(r[n], list[n], atom)
    {
      var m := Guarded(r[k], atom);
      r := r[k := m];
    }
    GuardedMatched(r, list, atom);
  }

  lemma GuardedMatched(r: seq<SequenceMatch>, list: seq<SequenceMatch>, atom: nat)
    requires |r| == |list| && forall n: nat :: n < |list| ==> GuardedBy(r[n], list[n], atom)
    ensures forall w: Word, i: nat, j: nat :: Matched(r, w, i, j) <==> Matched(list, w, i, j) && HoldsThroughout(w, atom, i, j)
    ensures EndsOf(r) == EndsOf(list)
  {
    hide HoldsThroughout, EndsWith;
    forall w: Word, i: nat, j: nat, n: nat | n < |list|
      ensures EndsWith(r[n], w, i, j) <==> EndsWith(list[n], w, i, j) && HoldsThroughout(w, atom, i, j)
    {
      assert GuardedBy(r[n], list[n], atom);
    }
    forall n: nat | n < |list|
      ensures r[n].end == list[n].end
    {
      assert GuardedBy(r[n], list[n], atom);
    }
  }

  lemma {:induction false} StepsHold(w: Word, atom: nat, k: nat, i: nat, j: nat)
    ensures Power(Step(w, atom, true), k, i, j) <==> j == i + k && HoldsThroughout(w, atom, i, j)
  {
    var l := Step(w, atom, true);
    if k > 0 {
      var p := k - 1;
      forall m: nat
        ensures Power(l, p, m, j) <==> j == m + p && HoldsThroughout(w, atom, m, j)
      {
        StepsHold(w, atom, p, m, j);
      }
      if j == i + k && HoldsThroughout(w, atom, i, j) {
        assert l(i, i + 1) && Power(l, p, i + 1, j);
      }
    }
  }

  lemma ThroughoutExpands(r: seq<SequenceMatch>, list: seq<SequenceMatch>, atom: nat, s: Sequence)
    requires Expands(list, s)
    requires forall w: Word, i: nat, j: nat :: Matched(r, w, i, j) <==> Matched(list, w, i, j) && HoldsThroughout(w, atom, i, j)
    ensures Expands(r, Throughout(Atom(atom), s))
  {
    hide Matched, Tight, HoldsThroughout, Power;
    forall w: Word, i: nat, j: nat
      ensures Matched(r, w, i, j) <==> Tight(Throughout(Atom(atom), s), w)(i, j)
    {
      BinaryTight(Atom(atom), s, w);
      AtomTight(atom, w);
      if Matched(list, w, i, j) {
        MatchedNonempty(list, w, i, j);
        HoldsRepeated(w, atom, i, j);
      }
    }
  }

  lemma AtomTight(atom: nat, w: Word)
    ensures Tight(Atom(atom), w) == Step(w, atom, true)
  {
  }

  lemma HoldsRepeated(w: Word, atom: nat, i: nat, j: nat)
    requires i <= j
    ensures Repeated(Step(w, atom, true), 0, Unbounded)(i, j) <==> HoldsThroughout(w, atom, i, j)
  {
    hide Power, HoldsThroughout, Step;
    forall k: nat
      ensures Power(Step(w, atom, true), k, i, j) <==> j == i + k && HoldsThroughout(w, atom, i, j)
    {
      StepsHold(w, atom, k, i, j);
    }
    assert Between(j - i, 0, Unbounded);
    assert Power(Step(w, atom, true), j - i, i, j) <==> HoldsThroughout(w, atom, i, j);
  }

  // ----- within -----

  predicate FitsAt(outer: SequenceMatch, inner: SequenceMatch, offset: nat, w: Word, i: nat) {
    offset + inner.end <= outer.end && Sat(inner.formula, w, i + offset)
  }

  /** The inner match starts at some step of the outer one and ends no later. */
  ghost predicate Fits(outer: SequenceMatch, inner: SequenceMatch, w: Word, i: nat, j: nat) {
    EndsWith(outer, w, i, j) && exists offset: nat :: FitsAt(outer, inner, offset, w, i)
  }

  method PlaceEach(outer: SequenceMatch, inner: SequenceMatch) returns (r: seq<SequenceMatch>)
    requires inner.end <= outer.end
    ensures forall w: Word, i: nat, j: nat :: Matched(r, w, i, j) <==> Fits(outer, inner, w, i, j)
    ensures EndsOf(r) == Copies(outer.end, outer.end - inner.end + 1)
  {
    hide Matched;
    r := [];
    MatchedNone();
    for offset := 0 to outer.end - inner.end + 1
      invariant |r| == offset && EndsOf(r) == Copies(outer.end, offset)
      invariant forall w: Word, i: nat, j: nat ::
                  Matched(r, w, i, j) <==>
                    EndsWith(outer, w, i, j) && exists n: nat :: n < offset && FitsAt(outer, inner, n, w, i)
    {
      var later := Shifted(offset, inner.formula);
      var placed := SequenceMatch(Formula.And(outer.formula, later), outer.end);
      forall w: Word, i: nat, j: nat
        ensures Matched(r + [placed], w, i, j) <==>
                  EndsWith(outer, w, i, j) && exists n: nat :: n < offset + 1 && FitsAt(outer, inner, n, w, i)
      {
        MatchedAppends(r, [placed], w, i, j);
        MatchedOne(placed, w, i, j);
        assert Sat(later, w, i) <==> Sat(inner.formula, w, i + offset);
        assert EndsWith(placed, w, i, j) <==> EndsWith(outer, w, i, j) && FitsAt(outer, inner, offset, w, i);
      }
      EndsAppend(r, [placed]);
      r := r + [placed];
    }
  }

  method PlaceAll(outer: SequenceMatch, inner: seq<SequenceMatch>) returns (r: seq<SequenceMatch>)
    ensures forall w: Word, i: nat, j: nat ::
              Matched(r, w, i, j) <==> exists n: nat :: n < |inner| && Fits(outer, inner[n], w, i, j)
    ensures EndsOf(r) == PlacesFrom(outer.end, EndsOf(inner), |inner|)
  {
    hide Matched, Fits;
    r := [];
    MatchedNone();
    for k := 0 to |inner|
      invariant forall w: Word, i: nat, j: nat ::
                  Matched(r, w, i, j) <==> exists n: nat :: n < k && Fits(outer, inner[n], w, i, j)
      invariant EndsOf(r) == PlacesFrom(outer.end, EndsOf(inner), k)
    {
      if inner[k].end <= outer.end {
        var more := PlaceEach(outer, inner[k]);
        forall w: Word, i: nat, j: nat
          ensures Matched(r + more, w, i, j) <==> Matched(r, w, i, j) || Matched(more, w, i, j)
        {
          MatchedAppends(r, more, w, i, j);
        }
        EndsAppend(r, more);
        r := r + more;
      } else {
        NeverFits(outer, inner[k]);
      }
    }
  }

  lemma NeverFits(outer: SequenceMatch, inner: SequenceMatch)
    requires inner.end > outer.end
    ensures forall w: Word, i: nat, j: nat :: !Fits(outer, inner, w, i, j)
  {
  }

  method ExpandInside(outer: seq<SequenceMatch>, inner: seq<SequenceMatch>) returns (r: seq<SequenceMatch>)
    ensures forall w: Word, i: nat, j: nat ::
              Matched(r, w, i, j) <==> exists k: nat, n: nat :: k < |outer| && n < |inner| && Fits(outer[k], inner[n], w, i, j)
    ensures EndsOf(r) == PlacesAll(EndsOf(outer), EndsOf(inner), |outer|)
  {
    hide Matched, Fits, PlacesFrom;
    r := [];
    MatchedNone();
    for m := 0 to |outer|
      invariant forall w: Word, i: nat, j: nat ::
                  Matched(r, w, i, j) <==> exists k: nat, n: nat :: k < m && n < |inner| && Fits(outer[k], inner[n], w, i, j)
      invariant EndsOf(r) == PlacesAll(EndsOf(outer), EndsOf(inner), m)
    {
      var more := PlaceAll(outer[m], inner);
      forall w: Word, i: nat, j: nat
        ensures Matched(r + more, w, i, j) <==> Matched(r, w, i, j) || Matched(more, w, i, j)
      {
        MatchedAppends(r, more, w, i, j);
      }
      EndsAppend(r, more);
      r := r + more;
    }
  }

  lemma FitsInside(outer: seq<SequenceMatch>, inner: seq<SequenceMatch>, w: Word, i: nat, j: nat)
    ensures (exists k: nat, n: nat :: k < |outer| && n < |inner| && Fits(outer[k], inner[n], w, i, j)) <==>
              Matched(outer, w, i, j) && exists a: nat, b: nat :: i <= a <= b <= j && Matched(inner, w, a, b)
  {
    forall k: nat, n: nat | k < |outer| && n < |inner| && Fits(outer[k], inner[n], w, i, j)
      ensures Matched(outer, w, i, j) && exists a: nat, b: nat :: i <= a <= b <= j && Matched(inner, w, a, b)
    {
      var offset: nat :| FitsAt(outer[k], inner[n], offset, w, i);
      var a, b := i + offset, i + offset + inner[n].end + 1;
      assert EndsWith(inner[n], w, a, b);
      assert i <= a <= b <= j && Matched(inner, w, a, b);
    }
    forall a: nat, b: nat | Matched(outer, w, i, j) && i <= a <= b <= j && Matched(inner, w, a, b)
      ensures exists k: nat, n: nat :: k < |outer| && n < |inner| && Fits(outer[k], inner[n], w, i, j)
    {
      var k: nat :| k < |outer| && EndsWith(outer[k], w, i, j);
      var n: nat :| n < |inner| && EndsWith(inner[n], w, a, b);
      var offset: nat := a - i;
      assert FitsAt(outer[k], inner[n], offset, w, i);
      assert Fits(outer[k], inner[n], w, i, j);
    }
  }

  lemma InsideExpands(r: seq<SequenceMatch>, outer: seq<SequenceMatch>, inner: seq<SequenceMatch>, a: Sequence, b: Sequence)
    requires Expands(inner, a) && Expands(outer, b)
    requires forall w: Word, i: nat, j: nat ::
               Matched(r, w, i, j) <==> exists k: nat, n: nat :: k < |outer| && n < |inner| && Fits(outer[k], inner[n], w, i, j)
    ensures Expands(r, Contained(a, b))
  {
    hide Matched, Fits, Tight;
    forall w: Word, i: nat, j: nat
      ensures Matched(r, w, i, j) <==> Tight(Contained(a, b), w)(i, j)
    {
      FitsInside(outer, inner, w, i, j);
      BinaryTight(a, b, w);
    }
  }

  // ----- consecutive repetition -----

  /** A prefix, and a unit that starts right after it. */
  ghost predicate Extends(prefix: SequenceMatch, unit: seq<SequenceMatch>, first: bool, w: Word, i: nat, j: nat) {
    Sat(prefix.formula, w, i) && Matched(unit, w, i + (if first then 0 else prefix.end + 1), j)
  }

  method ExtendEach(prefixes: seq<SequenceMatch>, unit: seq<SequenceMatch>, first: bool) returns (r: seq<SequenceMatch>)
    ensures forall w: Word, i: nat, j: nat ::
              Matched(r, w, i, j) <==> exists k: nat :: k < |prefixes| && Extends(prefixes[k], unit, first, w, i, j)
    ensures EndsOf(r) == ExtendAll(EndsOf(prefixes), EndsOf(unit), first, |prefixes|)
  {
    hide Matched, Sat, Extends;
    r := [];
    MatchedNone();
    for m := 0 to |prefixes|
      invariant forall w: Word, i: nat, j: nat ::
                  Matched(r, w, i, j) <==> exists k: nat :: k < m && Extends(prefixes[k], unit, first, w, i, j)
      invariant EndsOf(r) == ExtendAll(EndsOf(prefixes), EndsOf(unit), first, m)
    {
      var offset := if first then 0 else prefixes[m].end + 1;
      var more := JoinEach(prefixes[m], offset, unit);
      forall w: Word, i: nat, j: nat
        ensures Matched(r + more, w, i, j) <==> Matched(r, w, i, j) || Extends(prefixes[m], unit, first, w, i, j)
      {
        MatchedAppends(r, more, w, i, j);
        ExtendsMeans(prefixes[m], unit, first, w, i, j);
      }
      EndsAppend(r, more);
      r := r + more;
    }
  }

  lemma ExtendsMeans(prefix: SequenceMatch, unit: seq<SequenceMatch>, first: bool, w: Word, i: nat, j: nat)
    ensures Extends(prefix, unit, first, w, i, j) <==>
              Sat(prefix.formula, w, i) && Matched(unit, w, i + (if first then 0 else prefix.end + 1), j)
  {
  }

  /** The list stands for `n` units in a row. */
  ghost predicate IsPower(list: seq<SequenceMatch>, s: Sequence, n: nat) {
    if n == 0 then list == [SequenceMatch(Truth, 0)]
    else forall w: Word, i: nat, j: nat :: Matched(list, w, i, j) <==> Power(Tight(s, w), n, i, j)
  }

  lemma OnePower(l: Segments, i: nat, j: nat)
    ensures Power(l, 1, i, j) <==> i <= j && l(i, j)
  {
    if i <= j && l(i, j) {
      assert Power(l, 0, j, j);
    }
    forall m: nat
      ensures Power(l, 0, m, j) <==> m == j
    {
    }
  }

  lemma PowerFollows(l: Segments, n: nat, i: nat, j: nat)
    ensures Power(l, n + 1, i, j) <==> exists m: nat :: m <= j && Power(l, n, i, m) && l(m, j)
  {
    if Power(l, n + 1, i, j) {
      var m := PowerSplits(l, n, 1, i, j);
      OnePower(l, m, j);
    }
    forall m: nat | m <= j && Power(l, n, i, m) && l(m, j)
      ensures Power(l, n + 1, i, j)
    {
      OnePower(l, m, j);
      PowerJoins(l, n, 1, i, m, j);
    }
  }

  lemma ExtendedAt(prefixes: seq<SequenceMatch>, unit: seq<SequenceMatch>, s: Sequence, n: nat, w: Word, i: nat, j: nat)
    requires Expands(unit, s) && IsPower(prefixes, s, n)
    ensures (exists k: nat :: k < |prefixes| && Extends(prefixes[k], unit, n == 0, w, i, j)) <==> Power(Tight(s, w), n + 1, i, j)
  {
    hide Tight, Power;
    var l := Tight(s, w);
    if n == 0 {
      OnePower(l, i, j);
      assert prefixes[0] == SequenceMatch(Truth, 0);
      if Matched(unit, w, i, j) {
        MatchedNonempty(unit, w, i, j);
      }
    } else {
      PowerFollows(l, n, i, j);
      forall k: nat | k < |prefixes| && Extends(prefixes[k], unit, false, w, i, j)
        ensures Power(l, n + 1, i, j)
      {
        var m := i + prefixes[k].end + 1;
        assert EndsWith(prefixes[k], w, i, m) && Matched(prefixes, w, i, m);
        MatchedNonempty(unit, w, m, j);
      }
      forall m: nat | m <= j && Power(l, n, i, m) && l(m, j)
        ensures exists k: nat :: k < |prefixes| && Extends(prefixes[k], unit, false, w, i, j)
      {
        assert Matched(prefixes, w, i, m);
        var k: nat :| k < |prefixes| && EndsWith(prefixes[k], w, i, m);
        assert Extends(prefixes[k], unit, false, w, i, j);
      }
    }
  }

  lemma {:induction false} TooLongStays(unit: seq<nat>, lo: nat, n: nat, m: nat)
    requires n <= m && RepeatEnds(unit, lo, n).None?
    ensures RepeatEnds(unit, lo, m).None?
    decreases m
  {
    if n < m {
      TooLongStays(unit, lo, n, m - 1);
    }
  }

  /** The list stands for `lo` to `hi` units in a row. */
  ghost predicate IsRange(list: seq<SequenceMatch>, s: Sequence, lo: nat, hi: nat) {
    forall w: Word, i: nat, j: nat :: Matched(list, w, i, j) <==> Repeats(Tight(s, w), lo, Finite(hi), i, j)
  }

  lemma RangeStarts(s: Sequence, lo: nat)
    requires lo > 0
    ensures IsRange([], s, lo, 0)
  {
    MatchedNone();
  }

  lemma RepeatsGrow(l: Segments, lo: nat, n: nat, i: nat, j: nat)
    requires n > 0
    ensures Repeats(l, lo, Finite(n), i, j) <==> Repeats(l, lo, Finite(n - 1), i, j) || (lo <= n && Power(l, n, i, j))
  {
    if Repeats(l, lo, Finite(n), i, j) {
      var k: nat :| Between(k, lo, Finite(n)) && Power(l, k, i, j);
      assert k < n ==> Between(k, lo, Finite(n - 1));
    }
    if Repeats(l, lo, Finite(n - 1), i, j) {
      var k: nat :| Between(k, lo, Finite(n - 1)) && Power(l, k, i, j);
      assert Between(k, lo, Finite(n));
    }
    if lo <= n && Power(l, n, i, j) {
      assert Between(n, lo, Finite(n));
    }
  }

  lemma RangeGrows(list: seq<SequenceMatch>, power: seq<SequenceMatch>, s: Sequence, lo: nat, n: nat)
    requires n > 0 && IsRange(list, s, lo, n - 1) && IsPower(power, s, n)
    ensures IsRange(if n >= lo then list + power else list, s, lo, n)
  {
    hide Matched, Tight, Repeats;
    var longer := if n >= lo then list + power else list;
    forall w: Word, i: nat, j: nat
      ensures Matched(longer, w, i, j) <==> Repeats(Tight(s, w), lo, Finite(n), i, j)
    {
      MatchedAppends(list, power, w, i, j);
      RepeatsGrow(Tight(s, w), lo, n, i, j);
    }
  }

  lemma RangeExpands(list: seq<SequenceMatch>, s: Sequence, lo: nat, hi: nat)
    requires IsRange(list, s, lo, hi)
    ensures Expands(list, Repeat(s, lo, Finite(hi)))
  {
    hide Matched, Repeats, Tight;
    forall w: Word, i: nat, j: nat
      ensures Matched(list, w, i, j) <==> Tight(Repeat(s, lo, Finite(hi)), w)(i, j)
    {
      RepeatTight(s, lo, Finite(hi), w);
    }
  }

  lemma RepeatTight(s: Sequence, lo: nat, hi: Bound, w: Word)
    ensures Tight(Repeat(s, lo, hi), w) == Repeated(Tight(s, w), lo, hi)
  {
    hide Repeated;
  }

  method ExpandRepeat(unit: seq<SequenceMatch>, ghost s: Sequence, minimum: nat, maximum: nat) returns (r: Expansion)
    requires Expands(unit, s) && 0 < minimum <= maximum
    ensures r.Expanded? <==> RepeatEnds(EndsOf(unit), minimum, maximum).Some?
    ensures r.Expanded? ==> Some(EndsOf(r.matches)) == RepeatEnds(EndsOf(unit), minimum, maximum)
    ensures r.Expanded? ==> Expands(r.matches, Repeat(s, minimum, Finite(maximum)))
  {
    hide Matched, Sat, Tight, Power, Extends, ExtendAll, Expands, IsRange, IsPower;
    var result: seq<SequenceMatch> := [];
    var current := [SequenceMatch(Truth, 0)];
    RangeStarts(s, minimum);
    PowerStarts(s);
    for count := 1 to maximum + 1
      invariant IsPower(current, s, count - 1) && EndsOf(current) == PowerEnds(EndsOf(unit), count - 1)
      invariant IsRange(result, s, minimum, count - 1) && RepeatEnds(EndsOf(unit), minimum, count - 1) == Some(EndsOf(result))
    {
      var next := ExtendEach(current, unit, count == 1);
      ExtendedIsPower(current, next, unit, s, count - 1);
      current := next;
      RangeGrows(result, current, s, minimum, count);
      EndsAppend(result, current);
      assert EndsOf(result) + [] == EndsOf(result);
      if count >= minimum {
        result := result + current;
      }
      if |result| >= EXPANSION || |current| >= EXPANSION {
        TooLongStays(EndsOf(unit), minimum, count, maximum);
        return Refused("consecutive repetition expansion is too large");
      }
    }
    RangeExpands(result, s, minimum, maximum);
    return Expanded(result);
  }

  lemma PowerStarts(s: Sequence)
    ensures IsPower([SequenceMatch(Truth, 0)], s, 0)
  {
  }

  lemma ExtendedIsPower(prefixes: seq<SequenceMatch>, next: seq<SequenceMatch>, unit: seq<SequenceMatch>, s: Sequence, n: nat)
    requires Expands(unit, s) && IsPower(prefixes, s, n)
    requires forall w: Word, i: nat, j: nat ::
               Matched(next, w, i, j) <==> exists k: nat :: k < |prefixes| && Extends(prefixes[k], unit, n == 0, w, i, j)
    ensures IsPower(next, s, n + 1)
  {
    hide Matched, Tight, Power, Extends, Expands;
    forall w: Word, i: nat, j: nat
      ensures Matched(next, w, i, j) <==> Power(Tight(s, w), n + 1, i, j)
    {
      ExtendedAt(prefixes, unit, s, n, w, i, j);
    }
  }

  // ----- the expansion -----

  lemma AtomExpands(atom: nat)
    ensures Expands([SequenceMatch(Prop(atom), 0)], Atom(atom))
    ensures EndsOf([SequenceMatch(Prop(atom), 0)]) == [0]
  {
    forall w: Word, i: nat, j: nat
      ensures Matched([SequenceMatch(Prop(atom), 0)], w, i, j) <==> Tight(Atom(atom), w)(i, j)
    {
      MatchedOne(SequenceMatch(Prop(atom), 0), w, i, j);
      AtomTight(atom, w);
    }
  }

  lemma MatchExpands(list: seq<SequenceMatch>, body: Sequence)
    requires Expands(list, body)
    ensures Expands(list, Match(body, []))
  {
    hide Matched, Tight;
    forall w: Word, i: nat, j: nat
      ensures Matched(list, w, i, j) <==> Tight(Match(body, []), w)(i, j)
    {
      NoItemsTight(body, w);
    }
  }

  lemma NoItemsTight(body: Sequence, w: Word)
    ensures Tight(Match(body, []), w) == WithItems(Tight(body, w), w, [])
  {
    hide WithItems;
  }

  /** The sequence is expanded exactly when it has a shape, and then to matches with these endpoints and its meaning. */
  ghost predicate Exact(r: Expansion, s: Sequence) {
    && (r.Expanded? <==> Shape(s).Some?)
    && (r.Expanded? ==> EndsOf(r.matches) == Shape(s).value && Expands(r.matches, s))
  }

  lemma AtomExact(atom: nat)
    ensures Exact(Expanded([SequenceMatch(Prop(atom), 0)]), Atom(atom))
  {
    hide Expands;
    AtomExpands(atom);
  }

  lemma NeverExpanded(s: Sequence, error: string)
    requires s.FirstMatch? || s.Goto? || s.Nonconsecutive?
    ensures Exact(Refused(error), s)
  {
  }

  /** Main result: the expansion, when there is one, matches exactly the segments that tightly satisfy the sequence. */
  method Expand(s: Sequence) returns (r: Expansion)
    ensures Exact(r, s)
    decreases s
  {
    hide Exact;
    match s
    case Atom(atom) =>
      AtomExact(atom);
      return Expanded([SequenceMatch(Prop(atom), 0)]);
    case Match(body, items) =>
      r := ExpandMatch(s, body, items);
    case FirstMatch(_, items) =>
      NeverExpanded(s, if items != [] then "SVA match-item side effects require an attempt engine"
                       else "first_match with competing endpoints requires an attempt engine");
      return Refused(if items != [] then "SVA match-item side effects require an attempt engine"
                     else "first_match with competing endpoints requires an attempt engine");
    case Disjunction(left, right) =>
      r := ExpandEither(s, left, right);
    case Conjunction(left, right) =>
      r := ExpandTogether(s, left, right, false);
    case Intersection(left, right) =>
      r := ExpandTogether(s, left, right, true);
    case Delay(before, after, minimum, maximum) =>
      r := ExpandDelayed(s, before, after, minimum, maximum);
    case Repeat(unit, minimum, maximum) =>
      r := ExpandRepeated(s, unit, minimum, maximum);
    case Throughout(left, right) =>
      r := ExpandGuarded(s, left, right);
    case Contained(left, right) =>
      r := ExpandContained(s, left, right);
    case Goto(_, _, _) =>
      NeverExpanded(s, "nonconsecutive and goto repetition require an attempt engine");
      return Refused("nonconsecutive and goto repetition require an attempt engine");
    case Nonconsecutive(_, _, _) =>
      NeverExpanded(s, "nonconsecutive and goto repetition require an attempt engine");
      return Refused("nonconsecutive and goto repetition require an attempt engine");
  }

  method ExpandBoth(ghost whole: Sequence, left: Sequence, right: Sequence) returns (a: Expansion, b: Expansion)
    requires left < whole && right < whole
    ensures Exact(a, left) && Exact(b, right)
    decreases whole, 0
  {
    a := Expand(left);
    b := Expand(right);
  }

  method ExpandRepeated(ghost whole: Sequence, unit: Sequence, minimum: nat, maximum: Bound) returns (r: Expansion)
    requires unit < whole
    ensures Exact(r, Repeat(unit, minimum, maximum))
    decreases whole, 1
  {
    hide Matched, Expands, RepeatEnds;
    if !FiniteRange(minimum, maximum) {
      return Refused("consecutive repetition is not finite-LTL-expandable");
    }
    if minimum == 0 {
      return Refused("zero-length repetition requires explicit empty-match semantics");
    }
    r := Expand(unit);
    if r.Expanded? {
      r := ExpandRepeat(r.matches, unit, minimum, maximum.n);
    }
  }

  method ExpandGuarded(ghost whole: Sequence, left: Sequence, right: Sequence) returns (r: Expansion)
    requires right < whole
    ensures Exact(r, Throughout(left, right))
    decreases whole, 1
  {
    hide Matched, Expands, HoldsThroughout;
    if !left.Atom? {
      return Refused("throughout currently requires an atomic left operand");
    }
    r := Expand(right);
    if r.Expanded? {
      var guarded := ExpandThroughout(r.matches, left.atom);
      ThroughoutExpands(guarded, r.matches, left.atom, right);
      r := Expanded(guarded);
    }
  }

  method ExpandMatch(ghost whole: Sequence, body: Sequence, items: seq<nat>) returns (r: Expansion)
    requires body < whole
    ensures Exact(r, Match(body, items))
    decreases whole, 1
  {
    hide Matched, Expands;
    if items != [] {
      return Refused("SVA match-item side effects require an attempt engine");
    }
    r := Expand(body);
    if r.Expanded? {
      MatchExpands(r.matches, body);
    }
  }

  method ExpandEither(ghost whole: Sequence, left: Sequence, right: Sequence) returns (r: Expansion)
    requires left < whole && right < whole
    ensures Exact(r, Disjunction(left, right))
    decreases whole, 1
  {
    hide Matched, Expands, Tight;
    var a, b := ExpandBoth(whole, left, right);
    if a.Refused? || b.Refused? {
      return if a.Refused? then a else b;
    }
    DisjunctionExpands(a.matches, b.matches, left, right);
    EndsAppend(a.matches, b.matches);
    return Expanded(a.matches + b.matches);
  }

  method ExpandContained(ghost whole: Sequence, left: Sequence, right: Sequence) returns (r: Expansion)
    requires left < whole && right < whole
    ensures Exact(r, Contained(left, right))
    decreases whole, 1
  {
    hide Matched, Expands, Tight, Fits, PlacesAll, Shape;
    PlaceShape(left, right);
    var inner, envelope := ExpandBoth(whole, left, right);
    if inner.Refused? || envelope.Refused? {
      return if inner.Refused? then inner else envelope;
    }
    var placed := ExpandInside(envelope.matches, inner.matches);
    InsideExpands(placed, envelope.matches, inner.matches, left, right);
    if placed == [] {
      return Refused("within sequence cannot fit its envelope");
    }
    return Expanded(placed);
  }

  lemma PlaceShape(left: Sequence, right: Sequence)
    ensures Shape(Contained(left, right)) ==
            if Shape(left).Some? && Shape(right).Some?
            then NotEmpty(PlacesAll(Shape(right).value, Shape(left).value, |Shape(right).value|)) else None
  {
    hide PlacesAll;
  }

  lemma PairShape(left: Sequence, right: Sequence, together: bool)
    ensures Shape(if together then Intersection(left, right) else Conjunction(left, right)) ==
            if Shape(left).Some? && Shape(right).Some?
            then NotEmpty(PairsAll(Shape(left).value, Shape(right).value, together, |Shape(left).value|)) else None
  {
    hide PairsAll;
  }

  method ExpandTogether(ghost whole: Sequence, left: Sequence, right: Sequence, together: bool) returns (r: Expansion)
    requires left < whole && right < whole
    ensures var s := if together then Intersection(left, right) else Conjunction(left, right);
            Exact(r, s)
    decreases whole, 1
  {
    hide Matched, Expands, PairEnds, PairsAll, Shape, Tight;
    PairShape(left, right, together);
    var a, b := ExpandBoth(whole, left, right);
    if a.Refused? || b.Refused? {
      return if a.Refused? then a else b;
    }
    var pairs := ExpandPairs(a.matches, b.matches, together);
    PairsExpand(pairs, a.matches, b.matches, left, right, together);
    if pairs == [] {
      return Refused("sequence intersection has no common endpoint");
    }
    return Expanded(pairs);
  }

  method ExpandDelayed(ghost whole: Sequence, before: Option<Sequence>, after: Sequence, minimum: nat, maximum: Bound) returns (r: Expansion)
    requires after < whole && (before.Some? ==> before.value < whole)
    ensures Exact(r, Delay(before, after, minimum, maximum))
    decreases whole, 1
  {
    hide Matched, Expands, Reaches, DelayAll;
    if !FiniteRange(minimum, maximum) {
      return Refused("## delay is not finite-LTL-expandable");
    }
    var right := Expand(after);
    var left := Expanded([SequenceMatch(Truth, 0)]);
    if before.Some? {
      left := Expand(before.value);
    }
    if left.Refused? || right.Refused? {
      return if left.Refused? then left else right;
    }
    assert before.None? ==> EndsOf(left.matches) == [0];
    var delayed := ExpandDelay(left.matches, right.matches, minimum, maximum.n);
    DelayExpands(delayed, before, after, left.matches, right.matches, minimum, maximum.n);
    return Expanded(delayed);
  }

  /** The two lowerings of one sequence match the same segments of every word, whenever the expansion is not refused. */
  method LoweringsAgree(s: Sequence) returns (r: Expansion, sere: SereLowering.Sere)
    requires InOrder(s)
    ensures r.Expanded? <==> Shape(s).Some?
    ensures r.Expanded? ==>
              forall w: Word, i: nat, j: nat :: Matched(r.matches, w, i, j) <==> SereLowering.Language(sere, w)(i, j)
  {
    hide Tight, Matched, SereLowering.Language, Shape;
    r := Expand(s);
    sere := SereLowering.LowerSere(s);
    if r.Expanded? {
      forall w: Word, i: nat, j: nat
        ensures Matched(r.matches, w, i, j) <==> SereLowering.Language(sere, w)(i, j)
      {
        assert Matched(r.matches, w, i, j) <==> Tight(s, w)(i, j);
      }
    }
  }

  // ----- exactly when the expansion is refused -----

  function Times(n: nat, k: nat): nat {
    if k == 0 then 1 else n * Times(n, k - 1)
  }

  /** Matches of `lo` to `hi` copies of something with `n` matches. */
  function Total(n: nat, lo: nat, hi: nat): nat {
    if hi == 0 then 0 else Total(n, lo, hi - 1) + if hi >= lo then Times(n, hi) else 0
  }

  lemma {:induction false} ExtendAllCount(prefixes: seq<nat>, unit: seq<nat>, first: bool, k: nat)
    requires k <= |prefixes|
    ensures |ExtendAll(prefixes, unit, first, k)| == k * |unit|
  {
    if k != 0 {
      ExtendAllCount(prefixes, unit, first, k - 1);
    }
  }

  lemma {:induction false} PowerEndsCount(unit: seq<nat>, n: nat)
    ensures |PowerEnds(unit, n)| == Times(|unit|, n)
  {
    if n != 0 {
      PowerEndsCount(unit, n - 1);
      ExtendAllCount(PowerEnds(unit, n - 1), unit, n == 1, |PowerEnds(unit, n - 1)|);
    }
  }

  lemma TimesGrows(n: nat, k: nat)
    requires n > 0
    ensures 0 < Times(n, k) <= Times(n, k + 1)
  {
    TimesPositive(n, k);
  }

  lemma {:induction false} RepeatCount(unit: seq<nat>, lo: nat, n: nat)
    requires unit != []
    ensures RepeatEnds(unit, lo, n).None? <==> Total(|unit|, lo, n) >= EXPANSION || (n > 0 && Times(|unit|, n) >= EXPANSION)
    ensures RepeatEnds(unit, lo, n).Some? ==> |RepeatEnds(unit, lo, n).value| == Total(|unit|, lo, n)
  {
    if n != 0 {
      RepeatCount(unit, lo, n - 1);
      PowerEndsCount(unit, n);
      TimesGrows(|unit|, n - 1);
    }
  }

  /** Repetitions are refused exactly when they would have 256 matches together. */
  lemma RepeatRefused(unit: seq<nat>, lo: nat, hi: nat)
    requires unit != [] && 0 < lo <= hi
    ensures RepeatEnds(unit, lo, hi).None? <==> Total(|unit|, lo, hi) >= EXPANSION
  {
    RepeatCount(unit, lo, hi);
  }

  lemma {:induction false} PairsFromEmpty(end: nat, right: seq<nat>, together: bool, k: nat)
    requires k <= |right|
    ensures PairsFrom(end, right, together, k) == [] <==> if together then end !in right[..k] else k == 0
  {
    if k != 0 {
      PairsFromEmpty(end, right, together, k - 1);
      assert right[..k] == right[..k - 1] + [right[k - 1]];
    }
  }

  lemma {:induction false} PairsAllEmpty(left: seq<nat>, right: seq<nat>, together: bool, k: nat)
    requires k <= |left|
    ensures PairsAll(left, right, together, k) == [] <==>
            if together then forall j :: 0 <= j < k ==> left[j] !in right else k == 0 || right == []
  {
    if k != 0 {
      PairsAllEmpty(left, right, together, k - 1);
      PairsFromEmpty(left[k - 1], right, together, |right|);
      assert right[..|right|] == right;
    }
  }

  lemma {:induction false} PlacesFromEmpty(outer: nat, inner: seq<nat>, k: nat)
    requires k <= |inner|
    ensures PlacesFrom(outer, inner, k) == [] <==> forall j :: 0 <= j < k ==> inner[j] > outer
  {
    if k != 0 {
      PlacesFromEmpty(outer, inner, k - 1);
    }
  }

  lemma {:induction false} PlacesAllEmpty(outer: seq<nat>, inner: seq<nat>, k: nat)
    requires k <= |outer|
    ensures PlacesAll(outer, inner, k) == [] <==> forall i, j :: 0 <= i < k && 0 <= j < |inner| ==> inner[j] > outer[i]
  {
    if k != 0 {
      PlacesAllEmpty(outer, inner, k - 1);
      PlacesFromEmpty(outer[k - 1], inner, |inner|);
    }
  }

  lemma NoPlace(outer: seq<nat>, inner: seq<nat>)
    ensures PlacesAll(outer, inner, |outer|) != [] <==> exists a, b :: a in inner && b in outer && a <= b
  {
    PlacesAllEmpty(outer, inner, |outer|);
    if a, b :| a in inner && b in outer && a <= b {
      var j :| 0 <= j < |inner| && inner[j] == a;
      var i :| 0 <= i < |outer| && outer[i] == b;
      assert inner[j] <= outer[i];
    }
    if PlacesAll(outer, inner, |outer|) != [] {
      var i, j :| 0 <= i < |outer| && 0 <= j < |inner| && inner[j] <= outer[i];
      assert inner[j] in inner && outer[i] in outer;
    }
  }

  lemma NoPair(left: seq<nat>, right: seq<nat>)
    ensures PairsAll(left, right, true, |left|) != [] <==> exists end :: end in left && end in right
  {
    PairsAllEmpty(left, right, true, |left|);
    if end :| end in left && end in right {
      var j :| 0 <= j < |left| && left[j] == end;
      assert left[j] in right;
    }
    if PairsAll(left, right, true, |left|) != [] {
      var j :| 0 <= j < |left| && left[j] in right;
      assert left[j] in left;
    }
  }

  lemma {:induction false} DelayFromCount(end: nat, right: seq<nat>, lo: nat, n: nat)
    ensures |DelayFrom(end, right, lo, n)| == if n <= lo then 0 else (n - lo) * |right|
  {
    if n > lo {
      DelayFromCount(end, right, lo, n - 1);
    }
  }

  lemma {:induction false} DelayAllCount(left: seq<nat>, right: seq<nat>, lo: nat, hi: nat, k: nat)
    requires k <= |left| && lo <= hi
    ensures |DelayAll(left, right, lo, hi, k)| == k * ((hi + 1 - lo) * |right|)
  {
    if k != 0 {
      DelayAllCount(left, right, lo, hi, k - 1);
      DelayFromCount(left[k - 1], right, lo, hi + 1);
    }
  }

  /** What is expanded has a match. */
  lemma {:induction false} ShapeNotEmpty(s: Sequence)
    ensures Shape(s).Some? ==> Shape(s).value != []
  {
    match s
    case Delay(before, after, minimum, maximum) =>
      if Shape(s).Some? {
        ShapeNotEmpty(after);
        if before.Some? {
          ShapeNotEmpty(before.value);
        }
        var left, right := if before.Some? then Shape(before.value).value else [0], Shape(after).value;
        DelayAllCount(left, right, minimum, maximum.n, |left|);
      }
    case Repeat(unit, minimum, maximum) =>
      ShapeNotEmpty(unit);
      if Shape(s).Some? {
        RepeatCount(Shape(unit).value, minimum, maximum.n);
        TimesPositive(|Shape(unit).value|, maximum.n);
      }
    case Disjunction(left, right) =>
      ShapeNotEmpty(left);
    case Throughout(_, right) =>
      ShapeNotEmpty(right);
    case Match(body, _) =>
      ShapeNotEmpty(body);
    case _ =>
  }

  lemma {:induction false} TimesPositive(n: nat, k: nat)
    requires n > 0
    ensures Times(n, k) > 0
  {
    if k != 0 {
      TimesPositive(n, k - 1);
    }
  }

  /** Beside unsupported operators and ranges, only these are refused: too many repetitions, no common end, and no room inside. */
  lemma ShapeRefused(a: Sequence, b: Sequence, minimum: nat, maximum: Bound)
    ensures Shape(Repeat(a, minimum, maximum)).Some? <==>
            && Shape(a).Some? && FiniteRange(minimum, maximum) && minimum > 0
            && Total(|Shape(a).value|, minimum, maximum.n) < EXPANSION
    ensures Shape(Conjunction(a, b)).Some? <==> Shape(a).Some? && Shape(b).Some?
    ensures Shape(Intersection(a, b)).Some? <==>
            Shape(a).Some? && Shape(b).Some? && exists end :: end in Shape(a).value && end in Shape(b).value
    ensures Shape(Contained(a, b)).Some? <==>
            Shape(a).Some? && Shape(b).Some? && exists inner, outer :: inner in Shape(a).value && outer in Shape(b).value && inner <= outer
  {
    hide Shape, RepeatEnds, PairsAll, PlacesAll, Total;
    ShapeUnfolds(a, b, minimum, maximum);
    ShapeNotEmpty(a);
    ShapeNotEmpty(b);
    if Shape(a).Some? && FiniteRange(minimum, maximum) && minimum > 0 {
      RepeatRefused(Shape(a).value, minimum, maximum.n);
    }
    if Shape(a).Some? && Shape(b).Some? {
      var l, r := Shape(a).value, Shape(b).value;
      PairsAllEmpty(l, r, false, |l|);
      NoPair(l, r);
      NoPlace(r, l);
    }
  }

  lemma ShapeUnfolds(a: Sequence, b: Sequence, minimum: nat, maximum: Bound)
    ensures Shape(Repeat(a, minimum, maximum)) ==
            if Shape(a).Some? && FiniteRange(minimum, maximum) && minimum > 0
            then RepeatEnds(Shape(a).value, minimum, maximum.n) else None
    ensures Shape(Conjunction(a, b)) ==
            if Shape(a).Some? && Shape(b).Some? then NotEmpty(PairsAll(Shape(a).value, Shape(b).value, false, |Shape(a).value|)) else None
    ensures Shape(Intersection(a, b)) ==
            if Shape(a).Some? && Shape(b).Some? then NotEmpty(PairsAll(Shape(a).value, Shape(b).value, true, |Shape(a).value|)) else None
    ensures Shape(Contained(a, b)) ==
            if Shape(a).Some? && Shape(b).Some? then NotEmpty(PlacesAll(Shape(b).value, Shape(a).value, |Shape(b).value|)) else None
  {
    hide RepeatEnds, PairsAll, PlacesAll;
  }
}
