/** Bit-vector arithmetic on natural numbers: a width-`w` value is a number below `Pow2(w)`. */
module Bits {

  function Pow2(n: nat): (p: nat)
    ensures p >= 1
  {
    if n == 0 then 1 else 2 * Pow2(n - 1)
  }

  lemma {:induction false} Pow2Add(a: nat, b: nat)
    ensures Pow2(a + b) == Pow2(a) * Pow2(b)
  {
    if a != 0 {
      Pow2Add(a - 1, b);
      assert a + b - 1 == (a - 1) + b;
      assert 2 * (Pow2(a - 1) * Pow2(b)) == (2 * Pow2(a - 1)) * Pow2(b);
    }
  }

  lemma {:induction false} Pow2Monotonic(a: nat, b: nat)
    requires a <= b
    ensures Pow2(a) <= Pow2(b)
    decreases b
  {
    if a < b {
      Pow2Monotonic(a, b - 1);
    }
  }

  lemma {:induction false} Pow2Exceeds(n: nat)
    ensures n < Pow2(n)
  {
    if n != 0 {
      Pow2Exceeds(n - 1);
    }
  }

  // ----- constants written in binary -----

  predicate ValidBits(bits: string, width: nat) {
    |bits| == width && forall i :: 0 <= i < |bits| ==> bits[i] == '0' || bits[i] == '1'
  }

  function Digit(bit: char): nat {
    if bit == '1' then 1 else 0
  }

  function ValueOf(bits: string): nat {
    if bits == "" then 0 else 2 * ValueOf(bits[..|bits| - 1]) + Digit(bits[|bits| - 1])
  }

  function BitsOf(value: nat, width: nat): (bits: string)
    ensures ValidBits(bits, width)
  {
    if width == 0 then "" else BitsOf(value / 2, width - 1) + [if value % 2 == 1 then '1' else '0']
  }

  lemma {:induction false} ValueOfBound(bits: string)
    ensures ValueOf(bits) < Pow2(|bits|)
  {
    if bits != "" {
      ValueOfBound(bits[..|bits| - 1]);
    }
  }

  lemma {:induction false} ValueOfBitsOf(value: nat, width: nat)
    requires value < Pow2(width)
    ensures ValueOf(BitsOf(value, width)) == value
  {
    hide ValidBits;
    if width != 0 {
      ValueOfBitsOf(value / 2, width - 1);
      var bits := BitsOf(value, width);
      assert bits[..|bits| - 1] == BitsOf(value / 2, width - 1);
    }
  }

  lemma {:induction false} BitsOfValueOf(bits: string)
    requires ValidBits(bits, |bits|)
    ensures BitsOf(ValueOf(bits), |bits|) == bits
  {
    if bits != "" {
      var front := bits[..|bits| - 1];
      BitsOfValueOf(front);
      assert ValueOf(bits) / 2 == ValueOf(front);
      assert bits == front + [bits[|bits| - 1]];
    }
  }

  /** The bit string of a value is its binary expansion, least significant bit last. */
  lemma {:induction false} BitsOfAt(value: nat, width: nat, bit: nat)
    requires bit < width
    ensures BitsOf(value, width)[width - bit - 1] == if value / Pow2(bit) % 2 == 1 then '1' else '0'
  {
    if bit != 0 {
      BitsOfAt(value / 2, width - 1, bit - 1);
      HalveDiv(value, bit);
    }
  }

  /** Sets one digit for every bit that is one. */
  method BitString(value: int, width: nat) returns (result: string)
    ensures result == BitsOf(value % Pow2(width), width)
  {
    var masked: nat := value % Pow2(width);
    result := seq(width, k => '0');
    for bit := 0 to width
      invariant |result| == width
      invariant forall j :: width - bit <= j < width ==> result[j] == BitsOf(masked, width)[j]
      invariant forall j :: 0 <= j < width - bit ==> result[j] == '0'
    {
      BitsOfAt(masked, width, bit);
      if masked / Pow2(bit) % 2 == 1 {
        result := result[width - bit - 1 := '1'];
      }
    }
  }

  lemma HalveDiv(value: nat, bit: nat)
    requires bit > 0
    ensures value / Pow2(bit) == value / 2 / Pow2(bit - 1)
  {
    var p := Pow2(bit - 1);
    var half := value / 2;
    MulAssociates(2, p, half / p);
    DivUnique(value, Pow2(bit), half / p, 2 * (half % p) + value % 2);
  }

  lemma MulDistributes(a: int, b: int, c: int)
    ensures a * (b + c) == a * b + a * c
  {
  }

  lemma MulAssociates(a: int, b: int, c: int)
    ensures a * (b * c) == (a * b) * c
  {
  }

  lemma MulBound(a: nat, b: nat, c: nat)
    requires a > 0 && b < c
    ensures a * b + a <= a * c
  {
    MulDistributes(a, b, 1);
    MulMonotonic(a, b + 1, c);
  }

  lemma MulMonotonic(a: nat, b: int, c: int)
    requires b <= c
    ensures a * b <= a * c
  {
    MulDistributes(a, b, c - b);
  }

  lemma SmallModulo(a: nat, b: nat)
    requires a < b
    ensures a % b == a
  {
  }

  lemma QuotientShrinks(a: nat, b: nat)
    requires b > 0
    ensures 0 <= a / b <= a
  {
    var q := a / b;
    if q > a {
      MulMonotonic(q, 1, b);
    }
    if q < 0 {
      MulMonotonic(b, q, -1);
      assert false;
    }
  }

  /** Quotient and remainder are determined by the division equation. */
  lemma DivUnique(a: nat, d: nat, q: nat, r: nat)
    requires d > 0 && a == d * q + r && r < d
    ensures a / d == q && a % d == r
  {
    var q' := a / d;
    if q' < q {
      MulBound(d, q', q);
      assert false;
    } else if q < q' {
      MulBound(d, q, q');
      assert false;
    }
  }

  // ----- bitwise operators -----

  function BitAnd(a: nat, b: nat): nat {
    if a == 0 || b == 0 then 0 else 2 * BitAnd(a / 2, b / 2) + (a % 2) * (b % 2)
  }

  function BitOr(a: nat, b: nat): nat
    decreases a + b
  {
    if a == 0 && b == 0 then 0
    else 2 * BitOr(a / 2, b / 2) + (if a % 2 == 1 || b % 2 == 1 then 1 else 0)
  }

  function BitXor(a: nat, b: nat): nat
    decreases a + b
  {
    if a == 0 && b == 0 then 0
    else 2 * BitXor(a / 2, b / 2) + (if a % 2 != b % 2 then 1 else 0)
  }

  /** Exclusive-or of all bits. */
  function Parity(n: nat): nat {
    if n == 0 then 0 else (n % 2 + Parity(n / 2)) % 2
  }

  lemma {:induction false} BitwiseBounds(a: nat, b: nat, width: nat)
    requires a < Pow2(width) && b < Pow2(width)
    ensures BitAnd(a, b) < Pow2(width) && BitOr(a, b) < Pow2(width) && BitXor(a, b) < Pow2(width)
  {
    if width != 0 {
      BitwiseBounds(a / 2, b / 2, width - 1);
      assert (a % 2) * (b % 2) <= 1 by {
        if a % 2 == 0 {} else {}
      }
    }
  }

  lemma {:induction false} BitwiseCommutes(a: nat, b: nat)
    ensures BitAnd(a, b) == BitAnd(b, a) && BitOr(a, b) == BitOr(b, a) && BitXor(a, b) == BitXor(b, a)
    decreases a + b
  {
    if a != 0 || b != 0 {
      BitwiseCommutes(a / 2, b / 2);
      assert (a % 2) * (b % 2) == (b % 2) * (a % 2);
    }
  }

  lemma {:induction false} BitwiseUnits(a: nat, width: nat)
    requires a < Pow2(width)
    ensures BitAnd(a, Pow2(width) - 1) == a && BitAnd(a, 0) == 0 && BitOr(a, 0) == a && BitXor(a, 0) == a
  {
    if width != 0 {
      var ones := Pow2(width) - 1;
      BitwiseUnits(a / 2, width - 1);
      assert ones / 2 == Pow2(width - 1) - 1 && ones % 2 == 1 && ones > 0;
      assert (a % 2) * (ones % 2) == a % 2;
    }
  }

  /** Clearing the lowest set bit flips the parity. */
  lemma {:induction false} ClearLowestBit(n: nat)
    requires n > 0
    ensures BitAnd(n, n - 1) < n && Parity(BitAnd(n, n - 1)) == 1 - Parity(n)
  {
    hide BitAnd, Parity;
    var h := n / 2;
    if n % 2 == 1 {
      BitAndDigits(h, h, 1, 0);
      BitAndSelf(h);
      ParityDigit(h, 0);
      ParityDigit(h, 1);
    } else {
      ClearLowestBit(h);
      BitAndDigits(h, h - 1, 0, 1);
      ParityDigit(BitAnd(h, h - 1), 0);
      ParityDigit(h, 0);
    }
  }

  lemma ParityDigit(h: nat, d: nat)
    requires d < 2
    ensures Parity(2 * h + d) == (d + Parity(h)) % 2
  {
    assert (2 * h + d) / 2 == h && (2 * h + d) % 2 == d;
    assert Parity(0) == 0;
  }

  lemma BitAndDigits(a: nat, b: nat, x: nat, y: nat)
    requires x < 2 && y < 2 && x + y == 1
    ensures BitAnd(2 * a + x, 2 * b + y) == 2 * BitAnd(a, b)
  {
    assert (2 * a + x) / 2 == a && (2 * a + x) % 2 == x;
    assert (2 * b + y) / 2 == b && (2 * b + y) % 2 == y;
    assert x * y == 0;
    assert BitAnd(a, 0) == 0 && BitAnd(0, b) == 0;
  }

  lemma {:induction false} BitAndSelf(n: nat)
    ensures BitAnd(n, n) == n
  {
    if n != 0 {
      BitAndSelf(n / 2);
      assert (n % 2) * (n % 2) == n % 2;
    }
  }

  // ----- two's complement -----

  /** The sign bit of a width-`width` value. */
  function Msb(value: nat, width: nat): nat
    requires width > 0
  {
    value / Pow2(width - 1) % 2
  }

  /** The two's complement reading of a width-`width` value. */
  function Signed(value: nat, width: nat): int
    requires width > 0
  {
    if Msb(value, width) == 1 then value - Pow2(width) else value
  }

  lemma MsbCases(value: nat, width: nat)
    requires width > 0 && value < Pow2(width)
    ensures Msb(value, width) == if value < Pow2(width - 1) then 0 else 1
  {
    var half := Pow2(width - 1);
    if value < half {
      DivUnique(value, half, 0, value);
    } else {
      DivUnique(value, half, 1, value - half);
    }
  }
}
