/** Regular expressions with their counters stored in eight bits, where the largest value stands for no bound. */
module EightBitCounters {
  import opened WordSegments
  import opened SequenceSemantics
  import opened SereLowering

  const BYTE := 256

  function InByte(bound: Bound): Bound {
    match bound
    case Unbounded => Unbounded
    case Finite(n) => if n % BYTE == BYTE - 1 then Unbounded else Finite(n % BYTE)
  }

  /** The expression as it is stored. */
  function InBytes(r: Sere): Sere {
    match r
    case Letter => r
    case Prop(_) => r
    case NotProp(_) => r
    case Concat(parts) => Sere.Concat(seq(|parts|, k requires 0 <= k < |parts| => InBytes(parts[k])))
    case Star(unit, minimum, maximum) => Star(InBytes(unit), minimum % BYTE, InByte(maximum))
    case Fusion(left, right) => Fusion(InBytes(left), InBytes(right))
    case OrRat(parts) => OrRat(seq(|parts|, k requires 0 <= k < |parts| => InBytes(parts[k])))
    case AndRat(left, right) => AndRat(InBytes(left), InBytes(right))
    case AndNLM(left, right) => AndNLM(InBytes(left), InBytes(right))
    case FirstOf(body) => FirstOf(InBytes(body))
  }

  /** Expressions whose counters fit are stored as they are. */
  lemma {:induction false} CompactStored(r: Sere)
    requires Compact(r)
    ensures InBytes(r) == r
  {
    match r
    case Concat(parts) =>
      forall k | 0 <= k < |parts|
        ensures InBytes(parts[k]) == parts[k]
      {
        CompactStored(parts[k]);
      }
      assert InBytes(r).parts == parts;
    case OrRat(parts) =>
      forall k | 0 <= k < |parts|
        ensures InBytes(parts[k]) == parts[k]
      {
        CompactStored(parts[k]);
      }
      assert InBytes(r).parts == parts;
    case Star(unit, _, _) => CompactStored(unit);
    case Fusion(left, right) => CompactStored(left); CompactStored(right);
    case AndRat(left, right) => CompactStored(left); CompactStored(right);
    case AndNLM(left, right) => CompactStored(left); CompactStored(right);
    case FirstOf(body) => CompactStored(body);
    case _ =>
  }

  /** The lowering, as it is stored: exact for every sequence whose goto and nonconsecutive bounds fit. */
  method LowerStored(s: Sequence) returns (stored: Sere)
    requires InOrder(s)
    ensures SmallGotos(s) ==> Denotes(stored, s)
  {
    hide Denotes;
    var r := LowerSere(s);
    if SmallGotos(s) {
      CompactStored(r);
    }
    stored := InBytes(r);
  }

  // ----- goto and nonconsecutive repetition, whose bounds are not chunked -----

  lemma SugarStored(atom: nat, minimum: nat, maximum: Bound)
    ensures InBytes(SugarGoto(atom, minimum, maximum)) == SugarGoto(atom, minimum % BYTE, InByte(maximum))
    ensures InBytes(SugarEqual(atom, minimum, maximum)) == SugarEqual(atom, minimum % BYTE, InByte(maximum))
  {
    var rest := Star(NotProp(atom), 0, Unbounded);
    assert Compact(NotProp(atom)) && Compact(rest);
    UpToCompact(atom);
    CompactStored(rest);
    CompactStored(UpTo(atom));
    var whole := SugarEqual(atom, minimum, maximum);
    assert whole.parts == [SugarGoto(atom, minimum, maximum), rest];
    assert InBytes(whole).parts[0] == InBytes(whole.parts[0]) && InBytes(whole).parts[1] == InBytes(whole.parts[1]);
    assert InBytes(whole).parts == [SugarGoto(atom, minimum % BYTE, InByte(maximum)), rest];
  }

  lemma UpToCompact(atom: nat)
    ensures Compact(UpTo(atom))
  {
    var parts := UpTo(atom).parts;
    assert Compact(NotProp(atom));
    assert forall k :: 0 <= k < |parts| ==> Compact(parts[k]);
  }

  /** The range of counts survives storing. */
  predicate RangeStored(minimum: nat, maximum: Bound) {
    minimum < BYTE && (maximum.Finite? ==> maximum.n < BYTE - 1)
  }

  /** A count that only one of the ranges has, when the range does not survive. */
  function Lost(minimum: nat, maximum: Bound): (count: nat)
    requires Proper(minimum, maximum) && !RangeStored(minimum, maximum)
    ensures count > 0 && Between(count, minimum % BYTE, InByte(maximum)) != Between(count, minimum, maximum)
  {
    match maximum
    case Unbounded => minimum - 1
    case Finite(n) => if n % BYTE == BYTE - 1 then n + 1 else n
  }

  function Always(): Word {
    (t: nat) => (atom: nat) => true
  }

  lemma {:induction false} AlwaysOccurs(atom: nat, count: nat)
    ensures Occurrences(Always(), atom, 0, count) == count
  {
    if count != 0 {
      AlwaysOccurs(atom, count - 1);
    }
  }

  /** On the word of all atoms, a segment matches exactly when its length is in the range. */
  lemma CountsMatch(atom: nat, minimum: nat, maximum: Bound, count: nat)
    ensures Tight(Goto(atom, minimum, maximum), Always())(0, count) <==> Between(count, minimum, maximum)
    ensures Tight(Nonconsecutive(atom, minimum, maximum), Always())(0, count) <==> Between(count, minimum, maximum)
  {
    hide Occurrences;
    AlwaysOccurs(atom, count);
  }

  /** Where a range does not survive, a segment of the word of all atoms is gained or lost. */
  lemma RangeLost(atom: nat, minimum: nat, maximum: Bound)
    requires Proper(minimum, maximum) && !RangeStored(minimum, maximum)
    ensures var count := Lost(minimum, maximum);
            && Language(InBytes(SugarGoto(atom, minimum, maximum)), Always())(0, count) !=
               Tight(Goto(atom, minimum, maximum), Always())(0, count)
            && Language(InBytes(SugarEqual(atom, minimum, maximum)), Always())(0, count) !=
               Tight(Nonconsecutive(atom, minimum, maximum), Always())(0, count)
  {
    hide Language, Tight, SugarGoto, SugarEqual;
    var count := Lost(minimum, maximum);
    SugarStored(atom, minimum, maximum);
    GotoMeans(Always(), atom, minimum % BYTE, InByte(maximum), 0, count);
    EqualMeans(Always(), atom, minimum % BYTE, InByte(maximum), 0, count);
    CountsMatch(atom, minimum % BYTE, InByte(maximum), count);
    CountsMatch(atom, minimum, maximum, count);
  }

  /** Main result: what is stored means the repetition exactly when its range survives. */
  lemma GotoStored(atom: nat, minimum: nat, maximum: Bound)
    requires Proper(minimum, maximum)
    ensures Denotes(InBytes(SugarGoto(atom, minimum, maximum)), Goto(atom, minimum, maximum)) <==> RangeStored(minimum, maximum)
    ensures Denotes(InBytes(SugarEqual(atom, minimum, maximum)), Nonconsecutive(atom, minimum, maximum)) <==> RangeStored(minimum, maximum)
  {
    hide Language, Tight, SugarGoto, SugarEqual;
    if RangeStored(minimum, maximum) {
      SugarStored(atom, minimum, maximum);
      GotoDenotes(atom, minimum, maximum);
    } else {
      RangeLost(atom, minimum, maximum);
    }
  }

  /** A bound of 255 is stored as no bound: 256 occurrences match, although they do not satisfy the sequence. */
  lemma LargeGoto(atom: nat)
    ensures var s := Goto(atom, 0, Finite(255));
            && InOrder(s) && !SmallGotos(s) && SmallGotos(Goto(atom, 0, Finite(254)))
            && Language(InBytes(SugarGoto(atom, 0, Finite(255))), Always())(0, 256) && !Tight(s, Always())(0, 256)
  {
    hide Language, Tight, SugarGoto;
    assert Lost(0, Finite(255)) == 256;
    RangeLost(atom, 0, Finite(255));
    CountsMatch(atom, 0, Finite(255), 256);
  }
}
