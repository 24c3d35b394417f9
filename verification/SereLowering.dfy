/** Sequential extended regular expressions, as the Spot library defines them, and the lowering of sequences to them. */
module SereLowering {
  import opened TransitionSystem
  import opened WordSegments
  import opened SequenceSemantics

  datatype Sere =
    | Letter
    | Prop(atom: nat)
    | NotProp(atom: nat)
    | Concat(parts: seq<Sere>)
    | Star(unit: Sere, minimum: nat, maximum: Bound)
    | Fusion(left: Sere, right: Sere)
    | OrRat(parts: seq<Sere>)
    | AndRat(left: Sere, right: Sere)
    | AndNLM(left: Sere, right: Sere)
    | FirstOf(body: Sere)

  ghost function Language(r: Sere, w: Word): Segments
    decreases r
  {
    match r
    case Letter => AnyLetter
    case Prop(atom) => Step(w, atom, true)
    case NotProp(atom) => Step(w, atom, false)
    case Concat(parts) => (i: nat, j: nat) => InConcat(parts, w, i, j)
    case Star(unit, minimum, maximum) => Repeated(Language(unit, w), minimum, maximum)
    case Fusion(left, right) => Fused(Language(left, w), Language(right, w))
    case OrRat(parts) => (i: nat, j: nat) => exists k: nat :: k < |parts| && Language(parts[k], w)(i, j)
    case AndRat(left, right) => Both(Language(left, w), Language(right, w))
    case AndNLM(left, right) => Overlapping(Language(left, w), Language(right, w))
    case FirstOf(body) => First(Language(body, w))
  }

  ghost predicate InConcat(parts: seq<Sere>, w: Word, i: nat, j: nat)
    decreases parts
  {
    if parts == [] then i == j
    else exists m: nat :: i <= m <= j && Language(parts[0], w)(i, m) && InConcat(parts[1..], w, m, j)
  }

  // ----- concatenation -----

  lemma {:induction false} InConcatOrdered(parts: seq<Sere>, w: Word, i: nat, j: nat)
    requires InConcat(parts, w, i, j)
    ensures i <= j
  {
    if parts != [] {
      var m: nat :| i <= m <= j && Language(parts[0], w)(i, m) && InConcat(parts[1..], w, m, j);
    }
  }

  lemma {:induction false} ConcatAppends(parts: seq<Sere>, r: Sere, w: Word, i: nat, j: nat)
    ensures InConcat(parts + [r], w, i, j) <==>
              exists m: nat :: i <= m <= j && InConcat(parts, w, i, m) && Language(r, w)(m, j)
  {
    var all := parts + [r];
    if parts == [] {
      assert all[0] == r && all[1..] == [];
      assert InConcat([], w, i, i) && InConcat([], w, j, j);
      assert InConcat(all, w, i, j) <==> i <= j && Language(r, w)(i, j);
    } else {
      var rest := parts[1..];
      assert all[0] == parts[0] && all[1..] == rest + [r];
      forall n: nat
        ensures InConcat(all[1..], w, n, j) <==>
                  exists m: nat :: n <= m <= j && InConcat(rest, w, n, m) && Language(r, w)(m, j)
      {
        ConcatAppends(rest, r, w, n, j);
      }
      if InConcat(all, w, i, j) {
        var n: nat :| i <= n <= j && Language(all[0], w)(i, n) && InConcat(all[1..], w, n, j);
        var m: nat :| n <= m <= j && InConcat(rest, w, n, m) && Language(r, w)(m, j);
        assert InConcat(parts, w, i, m);
      }
      forall m: nat | i <= m <= j && InConcat(parts, w, i, m) && Language(r, w)(m, j)
        ensures InConcat(all, w, i, j)
      {
        var n: nat :| i <= n <= m && Language(parts[0], w)(i, n) && InConcat(rest, w, n, m);
        assert InConcat(all[1..], w, n, j);
      }
    }
  }

  function Concatenate(parts: seq<Sere>): Sere {
    if |parts| == 1 then parts[0] else Sere.Concat(parts)
  }

  lemma ConcatenateMeans(parts: seq<Sere>, w: Word, i: nat, j: nat)
    requires i <= j
    ensures Language(Concatenate(parts), w)(i, j) <==> InConcat(parts, w, i, j)
  {
    if |parts| == 1 {
      assert parts == [] + [parts[0]];
      ConcatAppends([], parts[0], w, i, j);
    }
  }

  // ----- repetition in chunks -----

  const LIMIT := 254

  /** Every counter is within what the library's eight bits can hold. */
  predicate Compact(r: Sere) {
    match r
    case Letter => true
    case Prop(_) => true
    case NotProp(_) => true
    case Concat(parts) => forall k :: 0 <= k < |parts| ==> Compact(parts[k])
    case Star(unit, minimum, maximum) =>
      Compact(unit) && minimum <= LIMIT && (maximum.Finite? ==> maximum.n <= LIMIT)
    case Fusion(left, right) => Compact(left) && Compact(right)
    case OrRat(parts) => forall k :: 0 <= k < |parts| ==> Compact(parts[k])
    case AndRat(left, right) => Compact(left) && Compact(right)
    case AndNLM(left, right) => Compact(left) && Compact(right)
    case FirstOf(body) => Compact(body)
  }

  predicate SmallStar(r: Sere, unit: Sere) {
    r.Star? && r.unit == unit && r.minimum <= LIMIT && (r.maximum.Finite? ==> r.maximum.n <= LIMIT)
  }

  /** The parts together stand for `lo` to `hi` repetitions. */
  ghost predicate Counts(parts: seq<Sere>, unit: Sere, lo: nat, hi: Bound) {
    && Proper(lo, hi) && (forall k :: 0 <= k < |parts| ==> SmallStar(parts[k], unit))
    && forall w: Word, i: nat, j: nat :: InConcat(parts, w, i, j) <==> Repeats(Language(unit, w), lo, hi, i, j)
  }

  lemma CountsNone(unit: Sere)
    ensures Counts([], unit, 0, Finite(0))
  {
    hide Repeats;
    forall w: Word, i: nat, j: nat
      ensures InConcat([], w, i, j) <==> Repeats(Language(unit, w), 0, Finite(0), i, j)
    {
      RepeatsNone(Language(unit, w), i, j);
    }
  }

  lemma StarMeans(unit: Sere, lo: nat, hi: Bound, w: Word, i: nat, j: nat)
    ensures Language(Star(unit, lo, hi), w)(i, j) <==> Repeats(Language(unit, w), lo, hi, i, j)
  {
  }

  lemma CountsAppendAt(parts: seq<Sere>, unit: Sere, lo: nat, hi: Bound, minimum: nat, maximum: Bound, w: Word, i: nat, j: nat)
    requires Proper(lo, hi) && Proper(minimum, maximum)
    requires forall m: nat :: InConcat(parts, w, i, m) <==> Repeats(Language(unit, w), lo, hi, i, m)
    ensures InConcat(parts + [Star(unit, minimum, maximum)], w, i, j) <==>
              Repeats(Language(unit, w), lo + minimum, AddBounds(hi, maximum), i, j)
  {
    hide Repeats, Repeated;
    var star, l := Star(unit, minimum, maximum), Language(unit, w);
    ConcatAppends(parts, star, w, i, j);
    RepeatsAdd(l, lo, hi, minimum, maximum, i, j);
    if InConcat(parts + [star], w, i, j) {
      var m: nat :| i <= m <= j && InConcat(parts, w, i, m) && Language(star, w)(m, j);
      StarMeans(unit, minimum, maximum, w, m, j);
      assert Repeats(l, lo, hi, i, m) && Repeats(l, minimum, maximum, m, j);
    }
    if Repeats(l, lo + minimum, AddBounds(hi, maximum), i, j) {
      var m: nat :| i <= m <= j && Repeats(l, lo, hi, i, m) && Repeats(l, minimum, maximum, m, j);
      StarMeans(unit, minimum, maximum, w, m, j);
      assert InConcat(parts, w, i, m) && Language(star, w)(m, j);
    }
  }

  lemma CountsAppend(parts: seq<Sere>, unit: Sere, lo: nat, hi: Bound, minimum: nat, maximum: Bound)
    requires Counts(parts, unit, lo, hi) && Proper(minimum, maximum) && SmallStar(Star(unit, minimum, maximum), unit)
    ensures Counts(parts + [Star(unit, minimum, maximum)], unit, lo + minimum, AddBounds(hi, maximum))
  {
    hide Repeats, SmallStar, Language, InConcat;
    forall w: Word, i: nat, j: nat
      ensures InConcat(parts + [Star(unit, minimum, maximum)], w, i, j) <==>
                Repeats(Language(unit, w), lo + minimum, AddBounds(hi, maximum), i, j)
    {
      CountsAppendAt(parts, unit, lo, hi, minimum, maximum, w, i, j);
    }
  }

  /** Repetition of `unit`, in chunks of at most 254. */
  method RepeatRange(unit: Sere, minimum: nat, maximum: Bound) returns (r: Sere)
    requires Proper(minimum, maximum)
    ensures forall w: Word, i: nat, j: nat ::
              i <= j ==> (Language(r, w)(i, j) <==> Repeats(Language(unit, w), minimum, maximum, i, j))
    ensures Compact(r) <==> Compact(unit)
  {
    hide Repeats, Counts, Language;
    var parts: seq<Sere> := [];
    var least: nat, most := minimum, maximum;
    CountsNone(unit);
    ghost var lo: nat := 0;
    while least > LIMIT
      invariant Counts(parts, unit, lo, Finite(lo)) && lo + least == minimum
      invariant maximum == AddBounds(Finite(lo), most) && Proper(least, most)
    {
      CountsAppend(parts, unit, lo, Finite(lo), LIMIT, Finite(LIMIT));
      parts := parts + [Star(unit, LIMIT, Finite(LIMIT))];
      lo := lo + LIMIT;
      least := least - LIMIT;
      if most.Finite? {
        most := Finite(most.n - LIMIT);
      }
    }
    if least > 0 {
      CountsAppend(parts, unit, lo, Finite(lo), least, Finite(least));
      parts := parts + [Star(unit, least, Finite(least))];
    }
    if most.Unbounded? {
      CountsAppend(parts, unit, minimum, Finite(minimum), 0, Unbounded);
      parts := parts + [Star(unit, 0, Unbounded)];
    } else {
      var remaining: nat := most.n - least;
      ghost var hi: nat := minimum;
      while remaining > LIMIT
        invariant Counts(parts, unit, minimum, Finite(hi)) && maximum == Finite(hi + remaining)
      {
        CountsAppend(parts, unit, minimum, Finite(hi), 0, Finite(LIMIT));
        parts := parts + [Star(unit, 0, Finite(LIMIT))];
        remaining := remaining - LIMIT;
        hi := hi + LIMIT;
      }
      if remaining > 0 || parts == [] {
        CountsAppend(parts, unit, minimum, Finite(hi), 0, Finite(remaining));
        parts := parts + [Star(unit, 0, Finite(remaining))];
      }
    }
    CountsConcatenate(parts, unit, minimum, maximum);
    return Concatenate(parts);
  }

  lemma CountsConcatenate(parts: seq<Sere>, unit: Sere, lo: nat, hi: Bound)
    requires Counts(parts, unit, lo, hi) && parts != []
    ensures forall w: Word, i: nat, j: nat ::
              i <= j ==> (Language(Concatenate(parts), w)(i, j) <==> Repeats(Language(unit, w), lo, hi, i, j))
    ensures Compact(Concatenate(parts)) <==> Compact(unit)
  {
    hide Repeats;
    forall w: Word, i: nat, j: nat | i <= j
      ensures Language(Concatenate(parts), w)(i, j) <==> Repeats(Language(unit, w), lo, hi, i, j)
    {
      ConcatenateMeans(parts, w, i, j);
    }
    assert SmallStar(parts[0], unit);
  }

  lemma {:induction false} LanguageOrdered(r: Sere, w: Word, i: nat, j: nat)
    requires Language(r, w)(i, j)
    ensures i <= j
  {
    match r
    case Letter =>
    case Prop(_) =>
    case NotProp(_) =>
    case Concat(parts) => InConcatOrdered(parts, w, i, j);
    case Star(unit, minimum, maximum) =>
      var k: nat :| Between(k, minimum, maximum) && Power(Language(unit, w), k, i, j);
      PowerOrdered(Language(unit, w), k, i, j);
    case Fusion(_, _) =>
    case OrRat(parts) =>
      var k: nat :| k < |parts| && Language(parts[k], w)(i, j);
      LanguageOrdered(parts[k], w, i, j);
    case AndRat(left, right) => LanguageOrdered(left, w, i, j);
    case AndNLM(left, right) =>
      if Language(left, w)(i, j) {
        LanguageOrdered(left, w, i, j);
      } else {
        LanguageOrdered(right, w, i, j);
      }
    case FirstOf(body) => LanguageOrdered(body, w, i, j);
  }

  // ----- delays -----

  lemma ConcatTwo(a: Sere, b: Sere, w: Word, i: nat, j: nat)
    ensures InConcat([a, b], w, i, j) <==> Follow(Language(a, w), Language(b, w), i, j)
  {
    var parts := [a, b];
    assert parts[1..] == [b];
    forall m: nat
      ensures InConcat([b], w, m, j) <==> m <= j && Language(b, w)(m, j)
    {
      if m <= j {
        ConcatenateMeans([b], w, m, j);
      } else if InConcat([b], w, m, j) {
        InConcatOrdered([b], w, m, j);
      }
    }
  }

  lemma ConcatThree(a: Sere, b: Sere, c: Sere, w: Word, i: nat, j: nat)
    ensures InConcat([a, b, c], w, i, j) <==>
              exists m: nat, n: nat :: i <= m <= n <= j && Language(a, w)(i, m) && Language(b, w)(m, n) && Language(c, w)(n, j)
  {
    assert [a, b] + [c] == [a, b, c];
    ConcatAppends([a, b], c, w, i, j);
    if InConcat([a, b, c], w, i, j) {
      var n: nat :| i <= n <= j && InConcat([a, b], w, i, n) && Language(c, w)(n, j);
      ConcatTwo(a, b, w, i, n);
      var m: nat :| i <= m <= n && Language(a, w)(i, m) && Language(b, w)(m, n);
    }
    forall m: nat, n: nat | i <= m <= n <= j && Language(a, w)(i, m) && Language(b, w)(m, n) && Language(c, w)(n, j)
      ensures InConcat([a, b, c], w, i, j)
    {
      ConcatTwo(a, b, w, i, n);
    }
  }

  lemma LettersRepeat(lo: nat, hi: Bound, i: nat, j: nat)
    ensures Repeats(AnyLetter, lo, hi, i, j) <==> i <= j && Between(j - i, lo, hi)
  {
    hide Power;
    forall k: nat
      ensures Power(AnyLetter, k, i, j) <==> j == i + k
    {
      PowerOfLetters(k, i, j);
    }
    if i <= j {
      assert Power(AnyLetter, j - i, i, j);
    }
  }

  ghost predicate Delayed(left: Option<Sere>, right: Sere, w: Word, lo: nat, hi: Bound, i: nat, j: nat) {
    match left
    case None => Later(Language(right, w), lo, hi)(i, j)
    case Some(l) => After(Language(l, w), Language(right, w), lo, hi)(i, j)
  }

  /** A gap of any letters, between `lo` and `hi` long. */
  ghost predicate IsGap(gap: Sere, lo: nat, hi: Bound) {
    forall w: Word, i: nat, j: nat :: i <= j ==> (Language(gap, w)(i, j) <==> Between(j - i, lo, hi))
  }

  /** A delay of at least one step is a gap of one step less. */
  lemma AfterMeans(l: Segments, m: Segments, lo: nat, hi: Bound, i: nat, j: nat)
    requires lo > 0
    ensures After(l, m, lo, hi)(i, j) <==>
              exists e: nat, n: nat :: i <= e <= n <= j && l(i, e) && Between(n - e + 1, lo, hi) && m(n, j)
  {
    if After(l, m, lo, hi)(i, j) {
      var d: nat :| Between(d, lo, hi) && StartsAfter(l, m, d, i, j);
      var e: nat, n: nat :| i <= e <= n <= j && n - e == d - 1 && l(i, e) && m(n, j);
      assert i <= e <= n <= j && l(i, e) && Between(n - e + 1, lo, hi) && m(n, j);
    }
    forall e: nat, n: nat | i <= e <= n <= j && l(i, e) && Between(n - e + 1, lo, hi) && m(n, j)
      ensures After(l, m, lo, hi)(i, j)
    {
      var d: nat := n - e + 1;
      assert n - e == d - 1 && l(i, e) && m(n, j);
      assert StartsAfter(l, m, d, i, j);
    }
  }

  lemma DelayedUnfolds(left: Option<Sere>, right: Sere, w: Word, lo: nat, hi: Bound, i: nat, j: nat)
    ensures Delayed(left, right, w, lo, hi, i, j) <==>
              if left.Some? then After(Language(left.value, w), Language(right, w), lo, hi)(i, j)
              else Later(Language(right, w), lo, hi)(i, j)
  {
    hide After, Later, Language;
  }

  lemma LaterUnfolds(m: Segments, lo: nat, hi: Bound, i: nat, j: nat)
    ensures Later(m, lo, hi)(i, j) <==> exists n: nat :: i <= n <= j && Between(n - i, lo, hi) && m(n, j)
  {
  }

  lemma LeadingGap(gap: Sere, right: Sere, w: Word, lo: nat, hi: Bound, i: nat, j: nat)
    requires IsGap(gap, lo, hi)
    ensures InConcat([gap, right], w, i, j) <==> Delayed(None, right, w, lo, hi, i, j)
  {
    hide Language, Later, Delayed, InConcat;
    DelayedUnfolds(None, right, w, lo, hi, i, j);
    ConcatTwo(gap, right, w, i, j);
    LaterUnfolds(Language(right, w), lo, hi, i, j);
  }

  lemma InnerGap(left: Sere, gap: Sere, right: Sere, w: Word, lo: nat, hi: Bound, i: nat, j: nat)
    requires lo > 0 && (hi.Finite? ==> hi.n > 0)
    requires IsGap(gap, lo - 1, if hi.Finite? then Finite(hi.n - 1) else Unbounded)
    ensures InConcat([left, gap, right], w, i, j) <==> Delayed(Some(left), right, w, lo, hi, i, j)
  {
    hide Language, After, Delayed, InConcat;
    DelayedUnfolds(Some(left), right, w, lo, hi, i, j);
    ConcatThree(left, gap, right, w, i, j);
    AfterMeans(Language(left, w), Language(right, w), lo, hi, i, j);
    forall m: nat, n: nat | m <= n
      ensures Language(gap, w)(m, n) <==> Between(n - m + 1, lo, hi)
    {
    }
  }

  lemma DelayedFromZero(left: Sere, right: Sere, w: Word, hi: Bound, i: nat, j: nat)
    ensures Delayed(Some(left), right, w, 0, hi, i, j) <==>
              Fuse(Language(left, w), Language(right, w), i, j) || Delayed(Some(left), right, w, 1, hi, i, j)
  {
    hide Language, Delayed, After;
    DelayedUnfolds(Some(left), right, w, 0, hi, i, j);
    DelayedUnfolds(Some(left), right, w, 1, hi, i, j);
    AfterFromZero(Language(left, w), Language(right, w), hi, i, j);
  }

  lemma AfterFromZero(l: Segments, m: Segments, hi: Bound, i: nat, j: nat)
    ensures After(l, m, 0, hi)(i, j) <==> Fuse(l, m, i, j) || After(l, m, 1, hi)(i, j)
  {
    hide Fuse;
    if Fuse(l, m, i, j) {
      assert Between(0, 0, hi) && StartsAfter(l, m, 0, i, j);
    }
    if After(l, m, 1, hi)(i, j) {
      var d: nat :| Between(d, 1, hi) && StartsAfter(l, m, d, i, j);
      assert Between(d, 0, hi);
    }
    if After(l, m, 0, hi)(i, j) {
      var d: nat :| Between(d, 0, hi) && StartsAfter(l, m, d, i, j);
      assert d > 0 ==> Between(d, 1, hi);
    }
  }

  ghost predicate InSome(parts: seq<Sere>, w: Word, i: nat, j: nat) {
    exists k: nat :: k < |parts| && Language(parts[k], w)(i, j)
  }

  function Alternative(parts: seq<Sere>): Sere {
    if |parts| == 1 then parts[0] else OrRat(parts)
  }

  lemma AlternativeMeans(parts: seq<Sere>, w: Word, i: nat, j: nat)
    ensures Language(Alternative(parts), w)(i, j) <==> InSome(parts, w, i, j)
  {
  }

  lemma InSomeAppends(parts: seq<Sere>, r: Sere, w: Word, i: nat, j: nat)
    ensures InSome(parts + [r], w, i, j) <==> InSome(parts, w, i, j) || Language(r, w)(i, j)
  {
    hide Language;
    var all := parts + [r];
    forall k: nat | k < |parts|
      ensures all[k] == parts[k]
    {
    }
    assert all[|parts|] == r;
  }

  lemma GapIs(gap: Sere, lo: nat, hi: Bound)
    requires forall w: Word, i: nat, j: nat ::
               i <= j ==> (Language(gap, w)(i, j) <==> Repeats(Language(Letter, w), lo, hi, i, j))
    ensures IsGap(gap, lo, hi)
  {
    hide Repeats;
    forall w: Word, i: nat, j: nat | i <= j
      ensures Language(gap, w)(i, j) <==> Between(j - i, lo, hi)
    {
      assert Language(Letter, w) == AnyLetter;
      LettersRepeat(lo, hi, i, j);
    }
  }

  function GapLeast(left: Option<Sere>, lo: nat): nat
    requires left.Some? ==> lo > 0
  {
    if left.Some? then lo - 1 else lo
  }

  function GapMost(left: Option<Sere>, hi: Bound): Bound
    requires left.Some? && hi.Finite? ==> hi.n > 0
  {
    if left.Some? && hi.Finite? then Finite(hi.n - 1) else hi
  }

  function Around(left: Option<Sere>, gap: Sere, right: Sere): seq<Sere> {
    (if left.Some? then [left.value] else []) + [gap] + [right]
  }

  lemma AroundMeans(left: Option<Sere>, gap: Sere, right: Sere, lo: nat, hi: Bound, w: Word, i: nat, j: nat)
    requires Proper(lo, hi) && (left.Some? ==> lo > 0) && IsGap(gap, GapLeast(left, lo), GapMost(left, hi))
    ensures Language(Concatenate(Around(left, gap, right)), w)(i, j) <==> Delayed(left, right, w, lo, hi, i, j)
  {
    hide IsGap;
    match left
    case None =>
      assert Around(left, gap, right) == [gap, right];
      LeadingGap(gap, right, w, lo, hi, i, j);
    case Some(l) =>
      assert Around(left, gap, right) == [l, gap, right];
      InnerGap(l, gap, right, w, lo, hi, i, j);
  }

  /** Fusion for a zero delay, concatenation around a gap for the others. */
  method DelayedBy(left: Option<Sere>, right: Sere, minimum: nat, maximum: Bound) returns (r: Sere)
    ensures forall w: Word, i: nat, j: nat :: Language(r, w)(i, j) <==> Delayed(left, right, w, minimum, maximum, i, j)
    ensures Compact(r) <==> (Proper(minimum, maximum) ==> Compact(right) && (left.Some? ==> Compact(left.value)))
  {
    hide Language, Delayed, InSome, IsGap, Alternative, Concatenate;
    var alternatives: seq<Sere> := [];
    var least: nat := minimum;
    if left.Some? && least == 0 {
      alternatives := alternatives + [Fusion(left.value, right)];
      least := 1;
    }
    ghost var fused := alternatives;
    assert fused == if left.Some? && minimum == 0 then [Fusion(left.value, right)] else [];
    if maximum.Unbounded? || least <= maximum.n {
      var gap := RepeatRange(Letter, GapLeast(left, least), GapMost(left, maximum));
      GapIs(gap, GapLeast(left, least), GapMost(left, maximum));
      var whole := Concatenate(Around(left, gap, right));
      AroundCompact(left, gap, right);
      alternatives := alternatives + [whole];
      forall w: Word, i: nat, j: nat
        ensures InSome(alternatives, w, i, j) <==> InSome(fused, w, i, j) || Delayed(left, right, w, least, maximum, i, j)
      {
        InSomeAppends(fused, whole, w, i, j);
        AroundMeans(left, gap, right, least, maximum, w, i, j);
      }
    }
    r := Alternative(alternatives);
    forall w: Word, i: nat, j: nat
      ensures Language(r, w)(i, j) <==> Delayed(left, right, w, minimum, maximum, i, j)
    {
      AlternativeMeans(alternatives, w, i, j);
      DelaySplits(left, right, minimum, maximum, w, i, j);
    }
    AlternativeCompact(alternatives);
    assert alternatives != [] <==> Proper(minimum, maximum);
    assert forall k :: 0 <= k < |alternatives| ==>
             (Compact(alternatives[k]) <==> Compact(right) && (left.Some? ==> Compact(left.value)));
    assert alternatives != [] ==> alternatives[0] in alternatives;
  }

  lemma AroundCompact(left: Option<Sere>, gap: Sere, right: Sere)
    ensures Compact(Concatenate(Around(left, gap, right))) <==>
              Compact(gap) && Compact(right) && (left.Some? ==> Compact(left.value))
  {
    var parts := Around(left, gap, right);
    assert parts == if left.Some? then [left.value, gap, right] else [gap, right];
    assert parts[|parts| - 1] == right && parts[|parts| - 2] == gap;
    assert left.Some? ==> parts[0] == left.value;
  }

  lemma AlternativeCompact(parts: seq<Sere>)
    ensures Compact(Alternative(parts)) <==> forall k :: 0 <= k < |parts| ==> Compact(parts[k])
  {
  }

  lemma DelayedProper(left: Option<Sere>, right: Sere, w: Word, lo: nat, hi: Bound, i: nat, j: nat)
    requires Delayed(left, right, w, lo, hi, i, j)
    ensures Proper(lo, hi)
  {
    hide Language, After, Later, Delayed;
    DelayedUnfolds(left, right, w, lo, hi, i, j);
    match left
    case None => LaterProper(Language(right, w), lo, hi, i, j);
    case Some(l) => AfterProper(Language(l, w), Language(right, w), lo, hi, i, j);
  }

  lemma LaterProper(m: Segments, lo: nat, hi: Bound, i: nat, j: nat)
    requires Later(m, lo, hi)(i, j)
    ensures Proper(lo, hi)
  {
    var n: nat :| i <= n <= j && Between(n - i, lo, hi) && m(n, j);
    assert Between(n - i, lo, hi);
  }

  lemma AfterProper(l: Segments, m: Segments, lo: nat, hi: Bound, i: nat, j: nat)
    requires After(l, m, lo, hi)(i, j)
    ensures Proper(lo, hi)
  {
    var d: nat :| Between(d, lo, hi) && StartsAfter(l, m, d, i, j);
    assert Between(d, lo, hi);
  }

  /** The first alternatives and the range that is left, together. */
  lemma DelaySplits(left: Option<Sere>, right: Sere, minimum: nat, maximum: Bound, w: Word, i: nat, j: nat)
    ensures var fused := if left.Some? && minimum == 0 then [Fusion(left.value, right)] else [];
            var least := if left.Some? && minimum == 0 then 1 else minimum;
            Delayed(left, right, w, minimum, maximum, i, j) <==>
              InSome(fused, w, i, j) || (Proper(least, maximum) && Delayed(left, right, w, least, maximum, i, j))
  {
    hide Delayed;
    var least := if left.Some? && minimum == 0 then 1 else minimum;
    if Delayed(left, right, w, least, maximum, i, j) {
      DelayedProper(left, right, w, least, maximum, i, j);
    }
    if left.Some? && minimum == 0 {
      DelayedFromZero(left.value, right, w, maximum, i, j);
      assert InSome([Fusion(left.value, right)], w, i, j) <==> Fuse(Language(left.value, w), Language(right, w), i, j) by {
        var one := [Fusion(left.value, right)];
        assert one[0] == Fusion(left.value, right);
      }
    }
  }

  // ----- repetition of a condition -----

  /** Some steps without the condition, and one with it. */
  function UpTo(atom: nat): Sere {
    Sere.Concat([Star(NotProp(atom), 0, Unbounded), Prop(atom)])
  }

  function SugarGoto(atom: nat, minimum: nat, maximum: Bound): Sere {
    Star(UpTo(atom), minimum, maximum)
  }

  function SugarEqual(atom: nat, minimum: nat, maximum: Bound): Sere {
    Sere.Concat([SugarGoto(atom, minimum, maximum), Star(NotProp(atom), 0, Unbounded)])
  }

  lemma {:induction false} OccurrencesSplit(w: Word, atom: nat, i: nat, m: nat, j: nat)
    requires i <= m <= j
    ensures Occurrences(w, atom, i, j) == Occurrences(w, atom, i, m) + Occurrences(w, atom, m, j)
  {
    if m < j {
      OccurrencesSplit(w, atom, i, m, j - 1);
    }
  }

  lemma {:induction false} NoneOccur(w: Word, atom: nat, k: nat, i: nat, j: nat)
    ensures Power(Language(NotProp(atom), w), k, i, j) <==> j == i + k && Occurrences(w, atom, i, j) == 0
  {
    var l := Language(NotProp(atom), w);
    if k > 0 {
      var p := k - 1;
      forall m: nat
        ensures Power(l, p, m, j) <==> j == m + p && Occurrences(w, atom, m, j) == 0
      {
        NoneOccur(w, atom, p, m, j);
      }
      if j == i + k {
        OccurrencesSplit(w, atom, i, i + 1, j);
        assert Occurrences(w, atom, i, i) == 0;
        if Occurrences(w, atom, i, j) == 0 {
          assert l(i, i + 1) && Power(l, p, i + 1, j);
        }
      }
    }
  }

  lemma WithoutAny(w: Word, atom: nat, i: nat, j: nat)
    ensures Language(Star(NotProp(atom), 0, Unbounded), w)(i, j) <==> i <= j && Occurrences(w, atom, i, j) == 0
  {
    hide Power, Occurrences;
    forall k: nat
      ensures Power(Language(NotProp(atom), w), k, i, j) <==> j == i + k && Occurrences(w, atom, i, j) == 0
    {
      NoneOccur(w, atom, k, i, j);
    }
    if i <= j {
      assert Between(j - i, 0, Unbounded);
      assert Power(Language(NotProp(atom), w), j - i, i, j) <==> Occurrences(w, atom, i, j) == 0;
    }
  }

  lemma UpToMeans(w: Word, atom: nat, i: nat, j: nat)
    ensures Language(UpTo(atom), w)(i, j) <==> i < j && w(j - 1)(atom) && Occurrences(w, atom, i, j - 1) == 0
  {
    hide Occurrences, Repeats;
    ConcatTwo(Star(NotProp(atom), 0, Unbounded), Prop(atom), w, i, j);
    forall m: nat
      ensures Language(Star(NotProp(atom), 0, Unbounded), w)(i, m) <==> i <= m && Occurrences(w, atom, i, m) == 0
    {
      WithoutAny(w, atom, i, m);
    }
  }

  /** The first step with the condition. */
  lemma {:induction false} FirstOccurrence(w: Word, atom: nat, i: nat, j: nat) returns (t: nat)
    requires i <= j && Occurrences(w, atom, i, j) > 0
    ensures i <= t < j && w(t)(atom) && Occurrences(w, atom, i, t) == 0
  {
    if Occurrences(w, atom, i, j - 1) > 0 {
      t := FirstOccurrence(w, atom, i, j - 1);
    } else {
      t := j - 1;
    }
  }

  /** The end of the last step with the condition. */
  lemma {:induction false} AfterLast(w: Word, atom: nat, i: nat, j: nat) returns (m: nat)
    requires i <= j
    ensures i <= m <= j && Occurrences(w, atom, m, j) == 0 && Occurrences(w, atom, i, m) == Occurrences(w, atom, i, j)
    ensures m > i ==> w(m - 1)(atom)
  {
    if i == j || w(j - 1)(atom) {
      m := j;
    } else {
      m := AfterLast(w, atom, i, j - 1);
    }
  }

  /** Reaching the condition `k` times is ending at its `k`-th occurrence. */
  lemma {:induction false} UpToTimes(w: Word, atom: nat, k: nat, i: nat, j: nat)
    ensures Power(Language(UpTo(atom), w), k, i, j) <==>
              i <= j && Occurrences(w, atom, i, j) == k && (j > i ==> w(j - 1)(atom))
  {
    hide Language;
    var l := Language(UpTo(atom), w);
    if k == 0 {
      if i < j && w(j - 1)(atom) {
        assert Occurrences(w, atom, i, j) > 0;
      }
    } else {
      var p := k - 1;
      forall m: nat
        ensures Power(l, p, m, j) <==> m <= j && Occurrences(w, atom, m, j) == p && (j > m ==> w(j - 1)(atom))
        ensures l(i, m) <==> i < m && w(m - 1)(atom) && Occurrences(w, atom, i, m - 1) == 0
      {
        UpToTimes(w, atom, p, m, j);
        UpToMeans(w, atom, i, m);
      }
      if Power(l, k, i, j) {
        var m: nat :| i <= m <= j && l(i, m) && Power(l, p, m, j);
        OccurrencesSplit(w, atom, i, m, j);
      }
      if i <= j && Occurrences(w, atom, i, j) == k && (j > i ==> w(j - 1)(atom)) {
        var t := FirstOccurrence(w, atom, i, j);
        OccurrencesSplit(w, atom, i, t + 1, j);
        assert l(i, t + 1) && Power(l, p, t + 1, j);
      }
    }
  }

  /** Goto repetition matches at the k-th occurrence. */
  lemma GotoMeans(w: Word, atom: nat, minimum: nat, maximum: Bound, i: nat, j: nat)
    ensures Language(SugarGoto(atom, minimum, maximum), w)(i, j) <==> Tight(Goto(atom, minimum, maximum), w)(i, j)
  {
    hide Occurrences, Power;
    var l := Language(UpTo(atom), w);
    forall k: nat
      ensures Power(l, k, i, j) <==> i <= j && Occurrences(w, atom, i, j) == k && (j > i ==> w(j - 1)(atom))
    {
      UpToTimes(w, atom, k, i, j);
    }
    assert Language(SugarGoto(atom, minimum, maximum), w)(i, j) <==> Repeats(l, minimum, maximum, i, j);
    if i <= j {
      assert Power(l, Occurrences(w, atom, i, j), i, j) <==> (j > i ==> w(j - 1)(atom));
    }
  }

  /** Nonconsecutive repetition counts occurrences. */
  lemma EqualMeans(w: Word, atom: nat, minimum: nat, maximum: Bound, i: nat, j: nat)
    ensures Language(SugarEqual(atom, minimum, maximum), w)(i, j) <==> Tight(Nonconsecutive(atom, minimum, maximum), w)(i, j)
  {
    hide Occurrences, Repeats, SugarGoto;
    var goto, rest := SugarGoto(atom, minimum, maximum), Star(NotProp(atom), 0, Unbounded);
    ConcatTwo(goto, rest, w, i, j);
    forall m: nat | i <= m <= j
      ensures Language(goto, w)(i, m) <==> Tight(Goto(atom, minimum, maximum), w)(i, m)
      ensures Language(rest, w)(m, j) <==> Occurrences(w, atom, m, j) == 0
      ensures Occurrences(w, atom, i, j) == Occurrences(w, atom, i, m) + Occurrences(w, atom, m, j)
    {
      GotoMeans(w, atom, minimum, maximum, i, m);
      WithoutAny(w, atom, m, j);
      OccurrencesSplit(w, atom, i, m, j);
    }
    if i <= j {
      var m := AfterLast(w, atom, i, j);
      assert Language(goto, w)(i, m) <==> Tight(Goto(atom, minimum, maximum), w)(i, m);
    }
  }

  // ----- the lowering -----

  ghost predicate Denotes(r: Sere, s: Sequence) {
    forall w: Word, i: nat, j: nat :: Language(r, w)(i, j) <==> Tight(s, w)(i, j)
  }

  /** The bounds of goto and nonconsecutive repetitions, which are passed on without chunking, fit; a delay by nothing has no operands. */
  predicate SmallGotos(s: Sequence) {
    match s
    case Atom(_) => true
    case Delay(before, after, minimum, maximum) =>
      Proper(minimum, maximum) ==> (before.Some? ==> SmallGotos(before.value)) && SmallGotos(after)
    case Repeat(unit, _, _) => SmallGotos(unit)
    case Goto(_, minimum, maximum) => minimum <= LIMIT && (maximum.Finite? ==> maximum.n <= LIMIT)
    case Nonconsecutive(_, minimum, maximum) => minimum <= LIMIT && (maximum.Finite? ==> maximum.n <= LIMIT)
    case Disjunction(left, right) => SmallGotos(left) && SmallGotos(right)
    case Conjunction(left, right) => SmallGotos(left) && SmallGotos(right)
    case Intersection(left, right) => SmallGotos(left) && SmallGotos(right)
    case Throughout(left, right) => SmallGotos(left) && SmallGotos(right)
    case Contained(left, right) => SmallGotos(left) && SmallGotos(right)
    case Match(body, _) => SmallGotos(body)
    case FirstMatch(body, _) => SmallGotos(body)
  }

  lemma DenotesSame(r: Sere, s: Sequence, w: Word)
    requires Denotes(r, s)
    ensures Same(Language(r, w), Tight(s, w))
  {
    hide Language, Tight;
  }

  lemma DelayUnfolds(before: Option<Sequence>, after: Sequence, lo: nat, hi: Bound, w: Word)
    ensures Tight(Delay(before, after, lo, hi), w) ==
            if before.Some? then After(Tight(before.value, w), Tight(after, w), lo, hi) else Later(Tight(after, w), lo, hi)
  {
    hide After, Later;
    match before
    case None =>
    case Some(_) =>
  }

  lemma DelayMeans(before: Option<Sequence>, after: Sequence, left: Option<Sere>, right: Sere, lo: nat, hi: Bound, w: Word, i: nat, j: nat)
    requires Same(Language(right, w), Tight(after, w)) && before.Some? == left.Some?
    requires before.Some? ==> Same(Language(left.value, w), Tight(before.value, w))
    ensures Delayed(left, right, w, lo, hi, i, j) <==> Tight(Delay(before, after, lo, hi), w)(i, j)
  {
    hide Language, Tight, Same, After, Later;
    DelayUnfolds(before, after, lo, hi, w);
    match before
    case None => LaterSame(Language(right, w), Tight(after, w), lo, hi, i, j);
    case Some(b) => AfterSame(Language(left.value, w), Tight(b, w), Language(right, w), Tight(after, w), lo, hi, i, j);
  }

  lemma LaterSame(m: Segments, n: Segments, lo: nat, hi: Bound, i: nat, j: nat)
    requires Same(m, n)
    ensures Later(m, lo, hi)(i, j) == Later(n, lo, hi)(i, j)
  {
  }

  lemma AfterSame(k: Segments, l: Segments, m: Segments, n: Segments, lo: nat, hi: Bound, i: nat, j: nat)
    requires Same(k, l) && Same(m, n)
    ensures After(k, m, lo, hi)(i, j) == After(l, n, lo, hi)(i, j)
  {
    hide StartsAfter;
    forall d: nat
      ensures StartsAfter(k, m, d, i, j) <==> StartsAfter(l, n, d, i, j)
    {
      StartsAfterSame(k, l, m, n, d, i, j);
    }
  }

  lemma StartsAfterSame(k: Segments, l: Segments, m: Segments, n: Segments, d: nat, i: nat, j: nat)
    requires Same(k, l) && Same(m, n)
    ensures StartsAfter(k, m, d, i, j) <==> StartsAfter(l, n, d, i, j)
  {
  }

  lemma DelayDenotes(r: Sere, before: Option<Sequence>, after: Sequence, left: Option<Sere>, right: Sere, lo: nat, hi: Bound)
    requires Denotes(right, after) && before.Some? == left.Some? && (before.Some? ==> Denotes(left.value, before.value))
    requires forall w: Word, i: nat, j: nat :: Language(r, w)(i, j) <==> Delayed(left, right, w, lo, hi, i, j)
    ensures Denotes(r, Delay(before, after, lo, hi))
  {
    hide Language, Tight, Delayed;
    forall w: Word, i: nat, j: nat
      ensures Language(r, w)(i, j) <==> Tight(Delay(before, after, lo, hi), w)(i, j)
    {
      DenotesSame(right, after, w);
      if before.Some? {
        DenotesSame(left.value, before.value, w);
      }
      DelayMeans(before, after, left, right, lo, hi, w, i, j);
    }
  }

  lemma RepeatDenotes(r: Sere, unit: Sere, s: Sequence, lo: nat, hi: Bound)
    requires Denotes(unit, s)
    requires forall w: Word, i: nat, j: nat :: i <= j ==> (Language(r, w)(i, j) <==> Repeats(Language(unit, w), lo, hi, i, j))
    ensures Denotes(r, Repeat(s, lo, hi))
  {
    hide Language, Repeats;
    forall w: Word, i: nat, j: nat
      ensures Language(r, w)(i, j) <==> Tight(Repeat(s, lo, hi), w)(i, j)
    {
      RepeatsSame(Language(unit, w), Tight(s, w), lo, hi, i, j);
      if i > j {
        RepeatsOrdered(Tight(s, w), lo, hi, i, j);
        if Language(r, w)(i, j) {
          LanguageOrdered(r, w, i, j);
        }
      }
    }
  }

  lemma ContainedUnfolds(body: seq<Sere>, right: Sere, l: Sequence, r: Sequence, w: Word, i: nat, j: nat)
    ensures Language(AndRat(Sere.Concat(body), right), w)(i, j) <==> InConcat(body, w, i, j) && Language(right, w)(i, j)
    ensures Tight(Contained(l, r), w) == Inside(Tight(l, w), Tight(r, w))
  {
    hide Inside, InConcat;
    assert Language(AndRat(Sere.Concat(body), right), w) == Both(Language(Sere.Concat(body), w), Language(right, w));
  }

  lemma PaddingMeans(w: Word, a: nat, b: nat)
    ensures Language(Star(Letter, 0, Unbounded), w)(a, b) <==> a <= b
  {
    hide Repeats;
    assert Language(Letter, w) == AnyLetter;
    LettersRepeat(0, Unbounded, a, b);
  }

  lemma ContainedMeans(left: Sere, right: Sere, l: Sequence, r: Sequence, w: Word, i: nat, j: nat)
    requires Same(Language(left, w), Tight(l, w)) && Same(Language(right, w), Tight(r, w))
    ensures var padding := Star(Letter, 0, Unbounded);
            Language(AndRat(Sere.Concat([padding, left, padding]), right), w)(i, j) <==> Tight(Contained(l, r), w)(i, j)
  {
    hide Language, Tight, InConcat;
    var padding := Star(Letter, 0, Unbounded);
    ConcatThree(padding, left, padding, w, i, j);
    forall a: nat, b: nat
      ensures Language(padding, w)(a, b) <==> a <= b
      ensures Language(left, w)(a, b) <==> Tight(l, w)(a, b)
    {
      PaddingMeans(w, a, b);
    }
    ContainedUnfolds([padding, left, padding], right, l, r, w, i, j);
  }

  lemma ContainedDenotes(left: Sere, right: Sere, l: Sequence, r: Sequence)
    requires Denotes(left, l) && Denotes(right, r)
    ensures var padding := Star(Letter, 0, Unbounded);
            Denotes(AndRat(Sere.Concat([padding, left, padding]), right), Contained(l, r))
  {
    hide Language, Tight;
    var padding := Star(Letter, 0, Unbounded);
    forall w: Word, i: nat, j: nat
      ensures Language(AndRat(Sere.Concat([padding, left, padding]), right), w)(i, j) <==> Tight(Contained(l, r), w)(i, j)
    {
      DenotesSame(left, l, w);
      DenotesSame(right, r, w);
      ContainedMeans(left, right, l, r, w, i, j);
    }
  }

  lemma SameSegments(k: Segments, l: Segments, m: Segments, n: Segments, i: nat, j: nat)
    requires Same(k, l) && Same(m, n)
    ensures Either(k, m)(i, j) == Either(l, n)(i, j)
    ensures Both(k, m)(i, j) == Both(l, n)(i, j)
    ensures Overlapping(k, m)(i, j) == Overlapping(l, n)(i, j)
  {
  }

  lemma OrTwo(left: Sere, right: Sere, w: Word, i: nat, j: nat)
    ensures Language(OrRat([left, right]), w)(i, j) <==> Either(Language(left, w), Language(right, w))(i, j)
  {
    var both := [left, right];
    assert both[0] == left && both[1] == right;
  }

  lemma BinaryMeans(left: Sere, right: Sere, l: Sequence, r: Sequence, w: Word, i: nat, j: nat)
    requires Same(Language(left, w), Tight(l, w)) && Same(Language(right, w), Tight(r, w))
    ensures Language(OrRat([left, right]), w)(i, j) <==> Tight(Disjunction(l, r), w)(i, j)
    ensures Language(AndNLM(left, right), w)(i, j) <==> Tight(Conjunction(l, r), w)(i, j)
    ensures Language(AndRat(left, right), w)(i, j) <==> Tight(Intersection(l, r), w)(i, j)
  {
    hide Either, Both, Overlapping, Same;
    OrTwo(left, right, w, i, j);
    SameSegments(Language(left, w), Tight(l, w), Language(right, w), Tight(r, w), i, j);
  }

  lemma BinaryDenotes(left: Sere, right: Sere, l: Sequence, r: Sequence)
    requires Denotes(left, l) && Denotes(right, r)
    ensures Denotes(OrRat([left, right]), Disjunction(l, r))
    ensures Denotes(AndNLM(left, right), Conjunction(l, r))
    ensures Denotes(AndRat(left, right), Intersection(l, r))
  {
    hide Language, Tight;
    forall w: Word, i: nat, j: nat
      ensures Language(OrRat([left, right]), w)(i, j) <==> Tight(Disjunction(l, r), w)(i, j)
      ensures Language(AndNLM(left, right), w)(i, j) <==> Tight(Conjunction(l, r), w)(i, j)
      ensures Language(AndRat(left, right), w)(i, j) <==> Tight(Intersection(l, r), w)(i, j)
    {
      DenotesSame(left, l, w);
      DenotesSame(right, r, w);
      BinaryMeans(left, right, l, r, w, i, j);
    }
  }

  lemma ThroughoutMeans(left: Sere, right: Sere, l: Sequence, r: Sequence, w: Word, i: nat, j: nat)
    requires Same(Language(left, w), Tight(l, w)) && Same(Language(right, w), Tight(r, w))
    ensures Language(AndRat(Star(left, 0, Unbounded), right), w)(i, j) <==> Tight(Throughout(l, r), w)(i, j)
  {
    hide Repeats, Language, Tight;
    RepeatsSame(Language(left, w), Tight(l, w), 0, Unbounded, i, j);
    ThroughoutUnfolds(left, right, l, r, w);
  }

  lemma ThroughoutUnfolds(left: Sere, right: Sere, l: Sequence, r: Sequence, w: Word)
    ensures Language(AndRat(Star(left, 0, Unbounded), right), w) == Both(Repeated(Language(left, w), 0, Unbounded), Language(right, w))
    ensures Tight(Throughout(l, r), w) == Both(Repeated(Tight(l, w), 0, Unbounded), Tight(r, w))
  {
    hide Repeated, Both;
  }

  lemma ThroughoutDenotes(left: Sere, right: Sere, l: Sequence, r: Sequence)
    requires Denotes(left, l) && Denotes(right, r)
    ensures Denotes(AndRat(Star(left, 0, Unbounded), right), Throughout(l, r))
  {
    hide Language, Tight;
    forall w: Word, i: nat, j: nat
      ensures Language(AndRat(Star(left, 0, Unbounded), right), w)(i, j) <==> Tight(Throughout(l, r), w)(i, j)
    {
      DenotesSame(left, l, w);
      DenotesSame(right, r, w);
      ThroughoutMeans(left, right, l, r, w, i, j);
    }
  }

  ghost predicate DenotesItems(r: Sere, body: Sere, items: seq<nat>) {
    forall w: Word, i: nat, j: nat :: Language(r, w)(i, j) <==> WithItems(Language(body, w), w, items)(i, j)
  }

  /** Match items are fused onto the last step. */
  method FuseItems(body: Sere, items: seq<nat>) returns (r: Sere)
    ensures DenotesItems(r, body, items) && (Compact(r) <==> Compact(body))
  {
    hide Language;
    r := body;
    for k := 0 to |items|
      invariant DenotesItems(r, body, items[..k]) && (Compact(r) <==> Compact(body))
    {
      ItemFused(r, body, items[..k], items[k]);
      assert items[..k + 1] == items[..k] + [items[k]];
      r := Fusion(r, Prop(items[k]));
    }
    assert items[..|items|] == items;
  }

  lemma FuseProp(l: Segments, item: nat, w: Word, i: nat, j: nat)
    ensures Fuse(l, Language(Prop(item), w), i, j) <==> i < j && l(i, j) && w(j - 1)(item)
  {
    if i < j {
      assert j - 1 + 1 == j;
      assert Language(Prop(item), w)(j - 1, j) <==> w(j - 1)(item);
    }
  }

  lemma AllHoldMore(w: Word, t: nat, items: seq<nat>, item: nat)
    ensures AllHold(w, t, items + [item]) <==> AllHold(w, t, items) && w(t)(item)
  {
    var more := items + [item];
    assert forall k :: 0 <= k < |items| ==> more[k] == items[k];
    assert more[|items|] == item;
  }

  lemma ItemFused(r: Sere, body: Sere, items: seq<nat>, item: nat)
    requires DenotesItems(r, body, items)
    ensures DenotesItems(Fusion(r, Prop(item)), body, items + [item])
  {
    hide AllHold, Fuse;
    forall w: Word, i: nat, j: nat
      ensures Language(Fusion(r, Prop(item)), w)(i, j) <==> WithItems(Language(body, w), w, items + [item])(i, j)
    {
      FuseProp(Language(r, w), item, w, i, j);
      assert Language(r, w)(i, j) <==> WithItems(Language(body, w), w, items)(i, j);
      if i < j {
        AllHoldMore(w, j - 1, items, item);
        NoItemsHold(w, j - 1);
      }
    }
  }

  lemma NoItemsHold(w: Word, t: nat)
    ensures AllHold(w, t, [])
  {
  }

  lemma ItemsSame(k: Segments, l: Segments, m: Segments, w: Word, items: seq<nat>, i: nat, j: nat)
    requires Same(k, WithItems(l, w, items)) && Same(l, m)
    ensures k(i, j) == WithItems(m, w, items)(i, j)
    ensures First(k)(i, j) == First(WithItems(m, w, items))(i, j)
  {
    hide AllHold;
    assert Same(k, WithItems(m, w, items));
  }

  lemma MatchUnfolds(r: Sere, s: Sequence, items: seq<nat>, w: Word)
    ensures Language(FirstOf(r), w) == First(Language(r, w))
    ensures Tight(Match(s, items), w) == WithItems(Tight(s, w), w, items)
    ensures Tight(FirstMatch(s, items), w) == First(WithItems(Tight(s, w), w, items))
  {
    hide First, WithItems;
  }

  lemma MatchMeans(r: Sere, body: Sere, s: Sequence, items: seq<nat>, w: Word, i: nat, j: nat)
    requires Same(Language(r, w), WithItems(Language(body, w), w, items)) && Same(Language(body, w), Tight(s, w))
    ensures Language(r, w)(i, j) <==> Tight(Match(s, items), w)(i, j)
    ensures Language(FirstOf(r), w)(i, j) <==> Tight(FirstMatch(s, items), w)(i, j)
  {
    hide Language, Tight, WithItems, First, Same;
    MatchUnfolds(r, s, items, w);
    ItemsSame(Language(r, w), Language(body, w), Tight(s, w), w, items, i, j);
  }

  lemma MatchDenotes(r: Sere, body: Sere, s: Sequence, items: seq<nat>)
    requires DenotesItems(r, body, items) && Denotes(body, s)
    ensures Denotes(r, Match(s, items)) && Denotes(FirstOf(r), FirstMatch(s, items))
  {
    hide Language, Tight, WithItems;
    forall w: Word, i: nat, j: nat
      ensures Language(r, w)(i, j) <==> Tight(Match(s, items), w)(i, j)
      ensures Language(FirstOf(r), w)(i, j) <==> Tight(FirstMatch(s, items), w)(i, j)
    {
      DenotesSame(body, s, w);
      assert Same(Language(r, w), WithItems(Language(body, w), w, items));
      MatchMeans(r, body, s, items, w, i, j);
    }
  }

  /** Main result: the expression matches exactly the segments that tightly satisfy the sequence. */
  method LowerSere(s: Sequence) returns (r: Sere)
    requires InOrder(s)
    ensures Denotes(r, s)
    ensures Compact(r) <==> SmallGotos(s)
    decreases s
  {
    hide Language, Tight, DenotesItems;
    match s
    case Atom(atom) =>
      r := Prop(atom);
      AtomDenotes(atom);
    case Delay(before, after, minimum, maximum) =>
      var right := LowerSere(after);
      var left: Option<Sere> := None;
      if before.Some? {
        var l := LowerSere(before.value);
        left := Some(l);
      }
      r := DelayedBy(left, right, minimum, maximum);
      DelayDenotes(r, before, after, left, right, minimum, maximum);
    case Repeat(unit, minimum, maximum) =>
      var u := LowerSere(unit);
      r := RepeatRange(u, minimum, maximum);
      RepeatDenotes(r, u, unit, minimum, maximum);
    case Goto(atom, minimum, maximum) =>
      r := SugarGoto(atom, minimum, maximum);
      GotoDenotes(atom, minimum, maximum);
      GotoCompact(atom, minimum, maximum);
    case Nonconsecutive(atom, minimum, maximum) =>
      r := SugarEqual(atom, minimum, maximum);
      GotoDenotes(atom, minimum, maximum);
      GotoCompact(atom, minimum, maximum);
    case Disjunction(left, right) =>
      var a, b := LowerBoth(s, left, right);
      r := OrRat([a, b]);
      CompactParts(a, b);
    case Conjunction(left, right) =>
      var a, b := LowerBoth(s, left, right);
      r := AndNLM(a, b);
    case Intersection(left, right) =>
      var a, b := LowerBoth(s, left, right);
      r := AndRat(a, b);
    case Throughout(left, right) =>
      var a, b := LowerBoth(s, left, right);
      r := AndRat(Star(a, 0, Unbounded), b);
      ThroughoutDenotes(a, b, left, right);
    case Contained(left, right) =>
      var a, b := LowerBoth(s, left, right);
      var padding := Star(Letter, 0, Unbounded);
      r := AndRat(Sere.Concat([padding, a, padding]), b);
      ContainedDenotes(a, b, left, right);
      CompactParts(a, b);
    case Match(body, items) =>
      var b := LowerSere(body);
      r := FuseItems(b, items);
      MatchDenotes(r, b, body, items);
    case FirstMatch(body, items) =>
      var b := LowerSere(body);
      var fused := FuseItems(b, items);
      MatchDenotes(fused, b, body, items);
      r := FirstOf(fused);
  }

  method LowerBoth(ghost whole: Sequence, left: Sequence, right: Sequence) returns (l: Sere, r: Sere)
    requires InOrder(left) && InOrder(right) && left < whole && right < whole
    ensures Denotes(l, left) && Denotes(r, right)
    ensures (Compact(l) <==> SmallGotos(left)) && (Compact(r) <==> SmallGotos(right))
    ensures Denotes(OrRat([l, r]), Disjunction(left, right))
    ensures Denotes(AndNLM(l, r), Conjunction(left, right))
    ensures Denotes(AndRat(l, r), Intersection(left, right))
    decreases whole, 0
  {
    hide Denotes;
    l := LowerSere(left);
    r := LowerSere(right);
    BinaryDenotes(l, r, left, right);
  }

  lemma CompactParts(a: Sere, b: Sere)
    ensures Compact(OrRat([a, b])) <==> Compact(a) && Compact(b)
    ensures var padding := Star(Letter, 0, Unbounded);
            Compact(AndRat(Sere.Concat([padding, a, padding]), b)) <==> Compact(a) && Compact(b)
  {
    var padding := Star(Letter, 0, Unbounded);
    var two, three := [a, b], [padding, a, padding];
    assert two[0] == a && two[1] == b && three[1] == a;
    assert Compact(Sere.Concat(three)) <==> Compact(a) by {
      assert forall k :: 0 <= k < 3 ==> three[k] == a || three[k] == padding;
    }
  }

  /** Bounds of goto and nonconsecutive repetition reach the library as they are. */
  lemma GotoCompact(atom: nat, minimum: nat, maximum: Bound)
    ensures var small := minimum <= LIMIT && (maximum.Finite? ==> maximum.n <= LIMIT);
            (Compact(SugarGoto(atom, minimum, maximum)) <==> small) && (Compact(SugarEqual(atom, minimum, maximum)) <==> small)
  {
    assert Compact(Star(NotProp(atom), 0, Unbounded));
    assert Compact(UpTo(atom));
    var parts := [SugarGoto(atom, minimum, maximum), Star(NotProp(atom), 0, Unbounded)];
    assert parts[0] == SugarGoto(atom, minimum, maximum);
  }

  lemma AtomDenotes(atom: nat)
    ensures Denotes(Prop(atom), Atom(atom))
  {
  }

  lemma GotoDenotes(atom: nat, minimum: nat, maximum: Bound)
    ensures Denotes(SugarGoto(atom, minimum, maximum), Goto(atom, minimum, maximum))
    ensures Denotes(SugarEqual(atom, minimum, maximum), Nonconsecutive(atom, minimum, maximum))
  {
    hide Language, Tight;
    forall w: Word, i: nat, j: nat
      ensures Language(SugarGoto(atom, minimum, maximum), w)(i, j) <==> Tight(Goto(atom, minimum, maximum), w)(i, j)
      ensures Language(SugarEqual(atom, minimum, maximum), w)(i, j) <==> Tight(Nonconsecutive(atom, minimum, maximum), w)(i, j)
    {
      GotoMeans(w, atom, minimum, maximum, i, j);
      EqualMeans(w, atom, minimum, maximum, i, j);
    }
  }
}
