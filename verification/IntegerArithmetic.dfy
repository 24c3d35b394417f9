/** Bit-vector operators computed with unbounded integers. */
module IntegerArithmetic {
  import opened Bits
  import opened TransitionSystem
  import opened Semantics

  function Mask(width: nat): nat {
    Pow2(width) - 1
  }

  /** Two's complement reading, by testing the sign bit. */
  function SignedValue(value: nat, width: nat): int
    requires width > 0
  {
    if BitAnd(value, Pow2(width - 1)) != 0 then value - Pow2(width) else value
  }

  lemma {:induction false} TestBit(value: nat, bit: nat)
    ensures BitAnd(value, Pow2(bit)) == value / Pow2(bit) % 2 * Pow2(bit)
  {
    if bit == 0 {
      if value != 0 {
        assert BitAnd(value / 2, 0) == 0;
        assert (value % 2) * 1 == value % 2;
      }
    } else if value != 0 {
      TestBit(value / 2, bit - 1);
      HalveDiv(value, bit);
      assert (value % 2) * 0 == 0;
      var b := value / Pow2(bit) % 2;
      assert 2 * (b * Pow2(bit - 1)) == b * Pow2(bit);
    } else {
      assert 0 / Pow2(bit) == 0;
    }
  }

  lemma SignedValueIsSigned(value: nat, width: nat)
    requires width > 0 && value < Pow2(width)
    ensures SignedValue(value, width) == Signed(value, width)
  {
    hide BitAnd, Pow2;
    TestBit(value, width - 1);
    MsbCases(value, width);
    Scale(Msb(value, width), Pow2(width - 1));
  }

  lemma Scale(flag: nat, p: nat)
    ensures flag == 0 ==> flag * p == 0
    ensures flag == 1 ==> flag * p == p
  {
  }

  lemma {:induction false} OrIsSum(high: nat, low: nat, width: nat)
    requires low < Pow2(width)
    ensures BitOr(high * Pow2(width), low) == high * Pow2(width) + low
  {
    if width == 0 {
      Scale(1, high);
      OrZero(high);
    } else {
      var h := high * Pow2(width - 1);
      Doubling(high, Pow2(width - 1));
      OrIsSum(high, low / 2, width - 1);
      OrHalves(2 * h, low);
    }
  }

  lemma Doubling(a: nat, p: nat)
    ensures a * (2 * p) == 2 * (a * p)
  {
  }

  lemma OrHalves(a: nat, b: nat)
    requires a % 2 == 0
    ensures BitOr(a, b) == 2 * BitOr(a / 2, b / 2) + b % 2
  {
  }

  lemma {:induction false} OrZero(a: nat)
    ensures BitOr(a, 0) == a
  {
    if a != 0 {
      OrZero(a / 2);
    }
  }

  // ----- shifts -----

  lemma ShiftAway(a: nat, amount: nat, width: nat)
    requires a < Pow2(width) && width <= amount
    ensures a / Pow2(amount) == 0
  {
    Pow2Monotonic(width, amount);
    DivUnique(a, Pow2(amount), 0, a);
  }

  lemma MultipleModulo(a: nat, p: nat)
    requires p > 0
    ensures a * p % p == 0
  {
    DivUnique(a * p, p, a, 0);
  }

  lemma ShiftOut(a: nat, amount: nat, width: nat)
    requires width <= amount
    ensures a * Pow2(amount) % Pow2(width) == 0
  {
    Pow2Add(amount - width, width);
    MulAssociates(a, Pow2(amount - width), Pow2(width));
    MultipleModulo(a * Pow2(amount - width), Pow2(width));
  }

  function Saturated(amount: nat, width: nat): nat {
    if amount > width then width else amount
  }

  lemma SaturatedShifts(a: nat, amount: nat, width: nat)
    requires a < Pow2(width)
    ensures a / Pow2(Saturated(amount, width)) == a / Pow2(amount)
    ensures a * Pow2(Saturated(amount, width)) % Pow2(width) == a * Pow2(amount) % Pow2(width)
  {
    if amount > width {
      ShiftAway(a, amount, width);
      ShiftAway(a, width, width);
      ShiftOut(a, amount, width);
      ShiftOut(a, width, width);
    }
  }

  /** Floor division of a negative number, through its complement. */
  lemma NegativeFloor(x: nat, d: nat)
    requires d > 0
    ensures (-1 - x) / d == -1 - x / d
  {
    var q, r := x / d, x % d;
    Negate(d, q);
    QuotientUnique(-1 - x, d, -1 - q, d - 1 - r);
  }

  lemma Negate(d: int, q: int)
    ensures d * (-1 - q) == -1 * d - d * q
  {
  }

  lemma QuotientUnique(a: int, d: nat, q: int, r: nat)
    requires d > 0 && a == d * q + r && r < d
    ensures a / d == q && a % d == r
  {
    var q' := a / d;
    if q' < q {
      MulMonotonic(d, q' + 1, q);
      MulDistributes(d, q', 1);
      assert false;
    } else if q < q' {
      MulMonotonic(d, q + 1, q');
      MulDistributes(d, q, 1);
      assert false;
    }
  }

  lemma ArithmeticShift(a: nat, amount: nat, width: nat)
    requires width > 0 && a < Pow2(width) && amount < Pow2(width)
    ensures SignedValue(a, width) / Pow2(Saturated(amount, width)) % Pow2(width) == ArithmeticResult(Sra, width, a, amount)
  {
    var p := Pow2(width);
    SignedValueIsSigned(a, width);
    MsbCases(a, width);
    if Msb(a, width) == 0 {
      SaturatedShifts(a, amount, width);
      QuotientShrinks(a, Pow2(amount));
      SmallModulo(a / Pow2(amount), p);
    } else {
      var x := p - 1 - a;
      SaturatedShifts(x, amount, width);
      NegativeFloor(x, Pow2(Saturated(amount, width)));
      QuotientShrinks(x, Pow2(amount));
      QuotientUnique(-1 - x / Pow2(amount), p, -1, p - 1 - x / Pow2(amount));
    }
  }

  // ----- comparison and extension -----

  lemma SignedComparison(a: nat, b: nat, width: nat)
    requires width > 0 && a < Pow2(width) && b < Pow2(width)
    ensures SignedValue(a, width) < SignedValue(b, width) <==> SignedLess(a, b, width)
    ensures SignedValue(a, width) == SignedValue(b, width) <==> a == b
  {
    SignedValueIsSigned(a, width);
    SignedValueIsSigned(b, width);
    MsbCases(a, width);
    MsbCases(b, width);
  }

  lemma SignExtension(a: nat, width: nat, wider: nat)
    requires 0 < width <= wider && a < Pow2(width)
    ensures Pow2(width) <= Pow2(wider)
    ensures SignedValue(a, width) % Pow2(wider) == if Msb(a, width) == 0 then a else a + (Pow2(wider) - Pow2(width))
  {
    Pow2Monotonic(width, wider);
    SignedValueIsSigned(a, width);
    MsbCases(a, width);
    if Msb(a, width) == 0 {
      SmallModulo(a, Pow2(wider));
    } else {
      QuotientUnique(a - Pow2(width), Pow2(wider), -1, a + (Pow2(wider) - Pow2(width)));
    }
  }

  lemma Complement(a: nat, p: nat)
    requires a < p
    ensures (-1 - a) % p == p - 1 - a
  {
    QuotientUnique(-1 - a, p, -1, p - 1 - a);
  }
}
