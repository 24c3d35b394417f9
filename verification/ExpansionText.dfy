/** Which sequences are expanded, into how many matches, and with which endpoints, operator by operator. */
module ExpansionText {
  import opened TransitionSystem
  import opened WordSegments
  import opened SequenceSemantics
  import opened SequenceFormula

  // ----- endpoints -----

  function Always(): Word {
    (t: nat) => (atom: nat) => true
  }

  /** Formulas of expansions only ask for atoms to hold. */
  lemma {:induction false} AlwaysSatisfies(f: Formula, t: nat)
    ensures Sat(f, Always(), t)
  {
    match f
    case Truth =>
    case Prop(_) =>
    case And(left, right) => AlwaysSatisfies(left, t); AlwaysSatisfies(right, t);
    case Next(cycles, body) => AlwaysSatisfies(body, t + cycles);
  }

  ghost predicate EndsAfter(s: Sequence, end: nat) {
    exists w: Word :: Tight(s, w)(0, end + 1)
  }

  ghost predicate HasEnd(list: seq<SequenceMatch>, end: nat) {
    exists k: nat :: k < |list| && list[k].end == end
  }

  /** The endpoints are those that some word has. */
  lemma EndpointsTight(list: seq<SequenceMatch>, s: Sequence, end: nat)
    requires Expands(list, s)
    ensures HasEnd(list, end) <==> EndsAfter(s, end)
  {
    hide Tight, Sat;
    if HasEnd(list, end) {
      var k: nat :| k < |list| && list[k].end == end;
      AlwaysSatisfies(list[k].formula, 0);
      assert EndsWith(list[k], Always(), 0, end + 1);
      assert Matched(list, Always(), 0, end + 1);
    }
    if EndsAfter(s, end) {
      var w: Word :| Tight(s, w)(0, end + 1);
      assert Matched(list, w, 0, end + 1);
      var k: nat :| k < |list| && EndsWith(list[k], w, 0, end + 1);
      assert list[k].end == end;
    }
  }

  // ----- how many matches -----

  /** Places of two lists that hold the same number. */
  function Common(left: seq<nat>, right: seq<nat>): set<(nat, nat)> {
    set i: nat, j: nat | i < |left| && j < |right| && left[i] == right[j] :: (i, j)
  }

  /** Places where an inner match, after some delay, ends inside an outer one. */
  function Placements(outer: seq<nat>, inner: seq<nat>): set<(nat, nat, nat)> {
    set i: nat, j: nat, d: nat | i < |outer| && j < |inner| && d <= outer[i] && inner[j] + d <= outer[i] :: (i, j, d)
  }

  function Row(left: seq<nat>, right: seq<nat>, i: nat, n: nat): set<(nat, nat)>
    requires i < |left| && n <= |right|
  {
    set j: nat | j < n && left[i] == right[j] :: (i, j)
  }

  lemma {:induction false} RowCount(left: seq<nat>, right: seq<nat>, i: nat, n: nat)
    requires i < |left| && n <= |right|
    ensures |Row(left, right, i, n)| == |PairsFrom(left[i], right, true, n)|
  {
    if n == 0 {
      assert Row(left, right, i, 0) == {};
    } else {
      RowCount(left, right, i, n - 1);
      if left[i] == right[n - 1] {
        assert Row(left, right, i, n) == Row(left, right, i, n - 1) + {(i, n - 1)};
      } else {
        assert Row(left, right, i, n) == Row(left, right, i, n - 1);
      }
    }
  }

  function Rows(left: seq<nat>, right: seq<nat>, k: nat): set<(nat, nat)>
    requires k <= |left|
  {
    set i: nat, j: nat | i < k && j < |right| && left[i] == right[j] :: (i, j)
  }

  lemma {:induction false} CommonCount(left: seq<nat>, right: seq<nat>, k: nat)
    requires k <= |left|
    ensures |Rows(left, right, k)| == |PairsAll(left, right, true, k)|
  {
    if k == 0 {
      assert Rows(left, right, 0) == {};
    } else {
      CommonCount(left, right, k - 1);
      RowCount(left, right, k - 1, |right|);
      assert Rows(left, right, k) == Rows(left, right, k - 1) + Row(left, right, k - 1, |right|);
      assert Rows(left, right, k - 1) !! Row(left, right, k - 1, |right|);
    }
  }

  lemma {:induction false} PairsCount(left: seq<nat>, right: seq<nat>, k: nat)
    requires k <= |left|
    ensures |PairsAll(left, right, false, k)| == k * |right|
  {
    hide PairsFrom;
    if k != 0 {
      PairsCount(left, right, k - 1);
      PairCount(left[k - 1], right, |right|);
      assert k * |right| == (k - 1) * |right| + |right|;
    }
  }

  lemma {:induction false} PairCount(end: nat, right: seq<nat>, k: nat)
    requires k <= |right|
    ensures |PairsFrom(end, right, false, k)| == k
  {
    if k != 0 {
      PairCount(end, right, k - 1);
    }
  }

  function Spot(i: nat, j: nat, n: nat): set<(nat, nat, nat)> {
    set d: nat | d < n :: (i, j, d)
  }

  lemma {:induction false} SpotCount(i: nat, j: nat, n: nat)
    ensures |Spot(i, j, n)| == n
  {
    if n == 0 {
      assert Spot(i, j, 0) == {};
    } else {
      SpotCount(i, j, n - 1);
      assert Spot(i, j, n) == Spot(i, j, n - 1) + {(i, j, n - 1)};
    }
  }

  function Shelf(outer: seq<nat>, inner: seq<nat>, i: nat, k: nat): set<(nat, nat, nat)>
    requires i < |outer| && k <= |inner|
  {
    set j: nat, d: nat | j < k && d <= outer[i] && inner[j] + d <= outer[i] :: (i, j, d)
  }

  lemma ShelfEmpty(outer: seq<nat>, inner: seq<nat>, i: nat)
    requires i < |outer|
    ensures Shelf(outer, inner, i, 0) == {}
  {
  }

  lemma ShelfSplits(outer: seq<nat>, inner: seq<nat>, i: nat, k: nat, room: nat)
    requires i < |outer| && 0 < k <= |inner| && room == if inner[k - 1] <= outer[i] then outer[i] - inner[k - 1] + 1 else 0
    ensures Shelf(outer, inner, i, k) == Shelf(outer, inner, i, k - 1) + Spot(i, k - 1, room)
    ensures Shelf(outer, inner, i, k - 1) !! Spot(i, k - 1, room)
  {
  }

  lemma {:induction false} ShelfCount(outer: seq<nat>, inner: seq<nat>, i: nat, k: nat)
    requires i < |outer| && k <= |inner|
    ensures |Shelf(outer, inner, i, k)| == |PlacesFrom(outer[i], inner, k)|
  {
    hide Shelf, Spot;
    if k == 0 {
      ShelfEmpty(outer, inner, i);
    } else {
      ShelfCount(outer, inner, i, k - 1);
      var room: nat := if inner[k - 1] <= outer[i] then outer[i] - inner[k - 1] + 1 else 0;
      SpotCount(i, k - 1, room);
      ShelfSplits(outer, inner, i, k, room);
      assert |PlacesFrom(outer[i], inner, k)| == |PlacesFrom(outer[i], inner, k - 1)| + room;
    }
  }

  function Shelves(outer: seq<nat>, inner: seq<nat>, k: nat): set<(nat, nat, nat)>
    requires k <= |outer|
  {
    set i: nat, j: nat, d: nat | i < k && j < |inner| && d <= outer[i] && inner[j] + d <= outer[i] :: (i, j, d)
  }

  lemma ShelvesEmpty(outer: seq<nat>, inner: seq<nat>)
    ensures Shelves(outer, inner, 0) == {}
  {
  }

  lemma ShelvesSplit(outer: seq<nat>, inner: seq<nat>, k: nat)
    requires 0 < k <= |outer|
    ensures Shelves(outer, inner, k) == Shelves(outer, inner, k - 1) + Shelf(outer, inner, k - 1, |inner|)
    ensures Shelves(outer, inner, k - 1) !! Shelf(outer, inner, k - 1, |inner|)
  {
  }

  lemma {:induction false} PlacementsCount(outer: seq<nat>, inner: seq<nat>, k: nat)
    requires k <= |outer|
    ensures |Shelves(outer, inner, k)| == |PlacesAll(outer, inner, k)|
  {
    hide Shelf, Shelves;
    if k == 0 {
      ShelvesEmpty(outer, inner);
    } else {
      PlacementsCount(outer, inner, k - 1);
      ShelfCount(outer, inner, k - 1, |inner|);
      ShelvesSplit(outer, inner, k);
    }
  }

  // ----- operator by operator -----

  /** A range of fewer than 256 numbers, in order. */
  predicate ShortRange(lo: nat, hi: Bound) {
    hi.Finite? && lo <= hi.n && hi.n - lo < 256
  }

  /** `r` is refused or expanded, into so many matches, as any expansions of the operands say. */
  ghost predicate Decides(s: Sequence, r: Expansion) {
    match s
    case Atom(_) => r.Expanded? && |r.matches| == 1
    case Delay(None, after, lo, hi) =>
      forall a: Expansion :: Exact(a, after) ==> DelayDecides(1, a, lo, hi, r)
    case Delay(Some(before), after, lo, hi) =>
      forall b: Expansion, a: Expansion :: Exact(b, before) && Exact(a, after) ==>
        if b.Refused? then r.Refused? else DelayDecides(|b.matches|, a, lo, hi, r)
    case Repeat(unit, lo, hi) =>
      forall u: Expansion :: Exact(u, unit) ==> RepeatDecides(u, lo, hi, r)
    case Goto(_, _, _) => r.Refused?
    case Nonconsecutive(_, _, _) => r.Refused?
    case Disjunction(left, right) =>
      forall a: Expansion, b: Expansion :: Exact(a, left) && Exact(b, right) ==>
        if a.Expanded? && b.Expanded? then r.Expanded? && |r.matches| == |a.matches| + |b.matches| else r.Refused?
    case Conjunction(left, right) =>
      forall a: Expansion, b: Expansion :: Exact(a, left) && Exact(b, right) ==>
        if a.Expanded? && b.Expanded? then r.Expanded? && |r.matches| == |a.matches| * |b.matches| else r.Refused?
    case Intersection(left, right) =>
      forall a: Expansion, b: Expansion :: Exact(a, left) && Exact(b, right) ==> IntersectionDecides(a, b, r)
    case Throughout(left, right) =>
      forall b: Expansion :: Exact(b, right) ==>
        if left.Atom? && b.Expanded? then r.Expanded? && |r.matches| == |b.matches| else r.Refused?
    case Contained(left, right) =>
      forall a: Expansion, b: Expansion :: Exact(a, left) && Exact(b, right) ==> ContainedDecides(a, b, r)
    case Match(body, items) =>
      forall b: Expansion :: Exact(b, body) ==>
        if items == [] && b.Expanded? then r.Expanded? && |r.matches| == |b.matches| else r.Refused?
    case FirstMatch(_, _) => r.Refused?
  }

  ghost predicate DelayDecides(before: nat, a: Expansion, lo: nat, hi: Bound, r: Expansion) {
    if a.Expanded? && ShortRange(lo, hi) then r.Expanded? && |r.matches| == before * ((hi.n + 1 - lo) * |a.matches|) else r.Refused?
  }

  ghost predicate RepeatDecides(u: Expansion, lo: nat, hi: Bound, r: Expansion) {
    if u.Expanded? && ShortRange(lo, hi) && lo > 0 && Total(|u.matches|, lo, hi.n) < 256
    then r.Expanded? && |r.matches| == Total(|u.matches|, lo, hi.n) else r.Refused?
  }

  ghost predicate IntersectionDecides(a: Expansion, b: Expansion, r: Expansion) {
    if a.Expanded? && b.Expanded? && Common(EndsOf(a.matches), EndsOf(b.matches)) != {}
    then r.Expanded? && |r.matches| == |Common(EndsOf(a.matches), EndsOf(b.matches))| else r.Refused?
  }

  ghost predicate ContainedDecides(a: Expansion, b: Expansion, r: Expansion) {
    if a.Expanded? && b.Expanded? && Placements(EndsOf(b.matches), EndsOf(a.matches)) != {}
    then r.Expanded? && |r.matches| == |Placements(EndsOf(b.matches), EndsOf(a.matches))| else r.Refused?
  }

  lemma SizeOf(r: Expansion, s: Sequence)
    requires Exact(r, s)
    ensures r.Expanded? <==> Shape(s).Some?
    ensures r.Expanded? ==> EndsOf(r.matches) == Shape(s).value && |r.matches| == |Shape(s).value| > 0
  {
    ShapeNotEmpty(s);
  }

  lemma DelaySizes(before: Option<Sequence>, after: Sequence, lo: nat, hi: Bound, b: Expansion, a: Expansion, r: Expansion)
    requires Exact(r, Delay(before, after, lo, hi)) && Exact(a, after) && (before.Some? ==> Exact(b, before.value))
    ensures if before.Some? && b.Refused? then r.Refused? else DelayDecides(if before.Some? then |b.matches| else 1, a, lo, hi, r)
  {
    hide Exact, DelayAll;
    SizeOf(r, Delay(before, after, lo, hi));
    SizeOf(a, after);
    if before.Some? {
      SizeOf(b, before.value);
    }
    if (before.Some? ==> b.Expanded?) && a.Expanded? && ShortRange(lo, hi) {
      var left := if before.Some? then Shape(before.value).value else [0];
      DelayAllCount(left, Shape(after).value, lo, hi.n, |left|);
    }
  }

  lemma RepeatSizes(unit: Sequence, lo: nat, hi: Bound, u: Expansion, r: Expansion)
    requires Exact(r, Repeat(unit, lo, hi)) && Exact(u, unit)
    ensures RepeatDecides(u, lo, hi, r)
  {
    hide Exact, RepeatEnds, Total;
    SizeOf(r, Repeat(unit, lo, hi));
    SizeOf(u, unit);
    if u.Expanded? && ShortRange(lo, hi) && lo > 0 {
      RepeatRefused(Shape(unit).value, lo, hi.n);
      RepeatCount(Shape(unit).value, lo, hi.n);
    }
  }

  lemma PairSizes(left: Sequence, right: Sequence, a: Expansion, b: Expansion, r: Expansion)
    requires Exact(a, left) && Exact(b, right)
    ensures Exact(r, Conjunction(left, right)) ==>
              if a.Expanded? && b.Expanded? then r.Expanded? && |r.matches| == |a.matches| * |b.matches| else r.Refused?
    ensures Exact(r, Intersection(left, right)) ==> IntersectionDecides(a, b, r)
    ensures Exact(r, Contained(left, right)) ==> ContainedDecides(a, b, r)
  {
    hide Exact, Shape, PairsAll, PlacesAll;
    ShapeUnfolds(left, right, 0, Unbounded);
    SizeOf(a, left);
    SizeOf(b, right);
    if a.Expanded? && b.Expanded? {
      var l, m := Shape(left).value, Shape(right).value;
      PairsCount(l, m, |l|);
      CommonCount(l, m, |l|);
      assert Rows(l, m, |l|) == Common(l, m);
      PlacementsCount(m, l, |m|);
      assert Shelves(m, l, |m|) == Placements(m, l);
    }
    if Exact(r, Conjunction(left, right)) {
      SizeOf(r, Conjunction(left, right));
    }
    if Exact(r, Intersection(left, right)) {
      SizeOf(r, Intersection(left, right));
    }
    if Exact(r, Contained(left, right)) {
      SizeOf(r, Contained(left, right));
    }
  }

  /** The outcome of every operator, in terms of the outcomes of its operands. */
  lemma ExactDecides(s: Sequence, r: Expansion)
    requires Exact(r, s)
    ensures Decides(s, r)
  {
    hide Exact, DelayDecides, RepeatDecides, IntersectionDecides, ContainedDecides;
    SizeOf(r, s);
    match s
    case Delay(before, after, lo, hi) =>
      forall b: Expansion, a: Expansion | Exact(a, after) && (before.Some? ==> Exact(b, before.value))
        ensures if before.Some? && b.Refused? then r.Refused? else DelayDecides(if before.Some? then |b.matches| else 1, a, lo, hi, r)
      {
        DelaySizes(before, after, lo, hi, b, a, r);
      }
    case Repeat(unit, lo, hi) =>
      forall u: Expansion | Exact(u, unit)
        ensures RepeatDecides(u, lo, hi, r)
      {
        RepeatSizes(unit, lo, hi, u, r);
      }
    case Conjunction(left, right) =>
      forall a: Expansion, b: Expansion | Exact(a, left) && Exact(b, right)
        ensures if a.Expanded? && b.Expanded? then r.Expanded? && |r.matches| == |a.matches| * |b.matches| else r.Refused?
      {
        PairSizes(left, right, a, b, r);
      }
    case Intersection(left, right) =>
      forall a: Expansion, b: Expansion | Exact(a, left) && Exact(b, right)
        ensures IntersectionDecides(a, b, r)
      {
        PairSizes(left, right, a, b, r);
      }
    case Contained(left, right) =>
      forall a: Expansion, b: Expansion | Exact(a, left) && Exact(b, right)
        ensures ContainedDecides(a, b, r)
      {
        PairSizes(left, right, a, b, r);
      }
    case Disjunction(left, right) =>
      forall a: Expansion, b: Expansion | Exact(a, left) && Exact(b, right)
        ensures if a.Expanded? && b.Expanded? then r.Expanded? && |r.matches| == |a.matches| + |b.matches| else r.Refused?
      {
        SizeOf(a, left);
        SizeOf(b, right);
      }
    case Throughout(left, right) =>
      forall b: Expansion | Exact(b, right)
        ensures if left.Atom? && b.Expanded? then r.Expanded? && |r.matches| == |b.matches| else r.Refused?
      {
        SizeOf(b, right);
      }
    case Match(body, items) =>
      forall b: Expansion | Exact(b, body)
        ensures if items == [] && b.Expanded? then r.Expanded? && |r.matches| == |b.matches| else r.Refused?
      {
        SizeOf(b, body);
      }
    case _ =>
  }

  /** What the expansion gives: the outcome, the number of matches, the endpoints and the meaning. */
  method ExpandText(s: Sequence) returns (r: Expansion)
    ensures Exact(r, s) && Decides(s, r)
    ensures r.Expanded? ==> forall end: nat :: HasEnd(r.matches, end) <==> EndsAfter(s, end)
  {
    hide Exact, Decides;
    r := Expand(s);
    ExactDecides(s, r);
    if r.Expanded? {
      ExactExpands(s, r);
      forall end: nat
        ensures HasEnd(r.matches, end) <==> EndsAfter(s, end)
      {
        EndpointsTight(r.matches, s, end);
      }
    }
  }

  lemma ExactExpands(s: Sequence, r: Expansion)
    requires Exact(r, s) && r.Expanded?
    ensures Expands(r.matches, s)
  {
  }
}
