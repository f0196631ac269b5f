/** The *_RANGE_OVERFLOW macros of src/coreutils/intprops.h. They are evaluated here in the type they are about:
    every operation of theirs gives None when its own result leaves [min, max] or is undefined. */
module Intprops {
  import opened Options
  import opened Arithmetic

  predicate InRange(x: int, min: int, max: int) {
    min <= x <= max
  }

  /** The types the macros are for: unsigned, or signed in any of C's representations. */
  predicate IntegerType(min: int, max: int) {
    max >= 1 && (min == 0 || min == -max || min == -max - 1)
  }

  function Check(x: int, min: int, max: int): (r: Option<int>)
    ensures r.Some? <==> InRange(x, min, max)
    ensures r.Some? ==> r.value == x
  {
    if InRange(x, min, max) then Some(x) else None
  }

  function Quotient(n: nat, d: nat): nat
    requires d >= 1
  {
    n / d
  }

  function Magnitude(x: int): nat {
    if x < 0 then -x else x
  }

  /** C's division truncates toward zero. */
  function Truncated(a: int, b: int): int
    requires b != 0
  {
    var q: int := Quotient(Magnitude(a), Magnitude(b));
    if (a < 0) == (b < 0) then q else -q
  }

  function Div(a: int, b: int, min: int, max: int): Option<int> {
    if b == 0 then None else Check(Truncated(a, b), min, max)
  }

  function Less(x: Option<int>, y: Option<int>): Option<bool> {
    if x.Some? && y.Some? then Some(x.value < y.value) else None
  }

  // ---- the macros ----

  function AddOverflow(a: int, b: int, min: int, max: int): Option<bool> {
    if b < 0 then Less(Some(a), Check(min - b, min, max)) else Less(Check(max - b, min, max), Some(a))
  }

  function SubtractOverflow(a: int, b: int, min: int, max: int): Option<bool> {
    if b < 0 then Less(Check(max + b, min, max), Some(a)) else Less(Some(a), Check(min + b, min, max))
  }

  function NegateOverflow(a: int, min: int, max: int): Option<bool> {
    if min < 0 then Less(Some(a), Check(-max, min, max)) else Some(0 < a)
  }

  function MultiplyOverflow(a: int, b: int, min: int, max: int): Option<bool> {
    if b < 0 then
      if a < 0 then Less(Some(a), Div(max, b, min, max))
      else if b == -1 then Some(false)
      else Less(Div(min, b, min, max), Some(a))
    else if b == 0 then Some(false)
    else if a < 0 then Less(Some(a), Div(min, b, min, max))
    else Less(Div(max, b, min, max), Some(a))
  }

  function DivideOverflow(a: int, b: int, min: int, max: int): Option<bool> {
    if min < 0 && b == -1 then Less(Some(a), Check(-max, min, max)) else Some(false)
  }

  /** The right shift that keeps the sign: it rounds down in two's complement and toward zero in the other
      representations of negative numbers. */
  function ShiftRight(x: int, b: nat, twosComplement: bool): int {
    if twosComplement then x / Power(2, b) else Truncated(x, Power(2, b))
  }

  function LeftShiftOverflow(a: int, b: nat, min: int, max: int): Option<bool> {
    var twosComplement := min < -max;
    if a < 0 then Less(Some(a), Check(ShiftRight(min, b, twosComplement), min, max))
    else Less(Check(ShiftRight(max, b, twosComplement), min, max), Some(a))
  }

  // ---- division ----

  lemma {:induction false} QuotientBounds(n: nat, d: nat, x: nat)
    requires d >= 1
    ensures Quotient(n, d) < x <==> n < x * d
    ensures Quotient(n, d) <= n
    ensures d >= 2 ==> 2 * Quotient(n, d) <= n
  {
    var q := Quotient(n, d);
    assert n == q * d + n % d;
    if q < x {
      MulMonotone(q + 1, x, d);
    } else {
      MulMonotone(x, q, d);
    }
    MulMonotone(1, d, q);
    if d >= 2 {
      MulMonotone(2, d, q);
    }
  }

  lemma {:induction false} ProductOfMagnitudes(a: int, b: int)
    ensures Magnitude(a) * Magnitude(b) >= 0
    ensures a * b == if (a < 0) == (b < 0) then Magnitude(a) * Magnitude(b) else -(Magnitude(a) * Magnitude(b))
  {
    assert a * b == (-a) * (-b) && (-a) * b == -(a * b) && a * (-b) == -(a * b);
  }

  /** What the multiply check computes, said without signs. */
  lemma {:induction false} MultiplyByMagnitudes(a: int, b: int, min: int, max: int)
    requires IntegerType(min, max) && InRange(a, min, max) && InRange(b, min, max)
    requires b != 0 && (b != -1 || a < 0)
    ensures MultiplyOverflow(a, b, min, max)
         == Some(Quotient(if (a < 0) == (b < 0) then max else -min, Magnitude(b)) < Magnitude(a))
  {
    QuotientBounds(max, Magnitude(b), 0);
    QuotientBounds(-min, Magnitude(b), 0);
    hide Quotient;
    assert Magnitude(max) == max && Magnitude(min) == -min;
  }

  /** The multiply check is exact, and nothing it computes on the way overflows. */
  lemma {:induction false} MultiplyIsExact(a: int, b: int, min: int, max: int)
    requires IntegerType(min, max) && InRange(a, min, max) && InRange(b, min, max)
    ensures MultiplyOverflow(a, b, min, max) == Some(!InRange(a * b, min, max))
  {
    ProductOfMagnitudes(a, b);
    if b != 0 && (b != -1 || a < 0) {
      MultiplyByMagnitudes(a, b, min, max);
      QuotientBounds(if (a < 0) == (b < 0) then max else -min, Magnitude(b), Magnitude(a));
      hide MultiplyOverflow, Quotient, Magnitude;
    } else if b == -1 {
      assert a * b == -a;
    }
  }

  // ---- the other checks ----

  lemma {:induction false} AddIsExact(a: int, b: int, min: int, max: int)
    requires IntegerType(min, max) && InRange(a, min, max) && InRange(b, min, max)
    ensures AddOverflow(a, b, min, max) == Some(!InRange(a + b, min, max))
    ensures SubtractOverflow(a, b, min, max) == Some(!InRange(a - b, min, max))
    ensures NegateOverflow(a, min, max) == Some(!InRange(-a, min, max))
  {
  }

  lemma {:induction false} TruncatedStaysSmall(a: int, b: int)
    requires b != 0
    ensures Magnitude(Truncated(a, b)) <= Magnitude(a)
    ensures b == -1 ==> Truncated(a, b) == -a
    ensures b == 1 ==> Truncated(a, b) == a
    ensures Magnitude(b) >= 2 ==> 2 * Magnitude(Truncated(a, b)) <= Magnitude(a)
  {
    QuotientBounds(Magnitude(a), Magnitude(b), 0);
    if Magnitude(b) == 1 {
      assert Quotient(Magnitude(a), 1) == Magnitude(a);
    }
    hide Quotient;
  }

  /** The quotient leaves the range for the smallest two's complement number over -1 and for nothing else. */
  lemma {:induction false} DivideIsExact(a: int, b: int, min: int, max: int)
    requires IntegerType(min, max) && InRange(a, min, max) && InRange(b, min, max) && b != 0
    ensures DivideOverflow(a, b, min, max) == Some(!InRange(Truncated(a, b), min, max))
    ensures DivideOverflow(a, b, min, max) == Some(a < -max && b == -1)
  {
    TruncatedStaysSmall(a, b);
    if b != 1 && b != -1 {
      assert Magnitude(b) >= 2;
    }
    hide Truncated;
  }

  /** min and max of a type with the given number of value bits. */
  predicate BinaryType(bits: nat, min: int, max: int) {
    bits >= 1 && max == Power(2, bits) - 1 && IntegerType(min, max)
  }

  lemma {:induction false} ExactShift(c: int, d: nat)
    requires d >= 1
    ensures (-(c * d)) / d == -c
  {
    assert -(c * d) == (-c) * d;
    ExactQuotient(-c, d);
  }

  lemma {:induction false} ExactQuotient(c: int, d: nat)
    requires d >= 1
    ensures (c * d) / d == c
  {
    var q, r := (c * d) / d, (c * d) % d;
    assert c * d == q * d + r && 0 <= r < d;
    assert (c - q) * d == r;
    AwayFromZero(c - q, d);
  }

  lemma {:induction false} AwayFromZero(e: int, d: nat)
    ensures e >= 1 ==> e * d >= d
    ensures e <= -1 ==> e * d <= -(d as int)
  {
    if e >= 1 {
      MulMonotone(1, e, d);
    } else if e <= -1 {
      MulMonotone(1, -e, d);
      assert -e * d == -(e * d);
    }
  }

  /** The least number shifted right, by no more than the width. */
  lemma {:induction false} MinShifted(b: nat, bits: nat, min: int, max: int)
    requires BinaryType(bits, min, max) && b <= bits && min < 0
    ensures var q, d := ShiftRight(min, b, min < -max), Power(2, b);
            && min <= q <= 0
            && (forall a: nat :: -q < a <==> -min < a * d)
  {
    hide Power;
    var d, c: int := Power(2, b), Power(2, bits - b);
    PowerAdd(2, b, bits - b);
    assert c * d == Power(2, bits);
    if min < -max {
      ExactShift(c, d);
      ExactQuotient(c, d);
      forall a: nat
        ensures c < a <==> c * d < a * d
      {
        QuotientBounds(c * d, d, a);
      }
      MulMonotone(1, d, c);
    } else {
      assert Magnitude(min) == max && Magnitude(d) == d;
      assert Truncated(min, d) == -(Quotient(max, d) as int);
      forall a: nat
        ensures Quotient(max, d) < a <==> max < a * d
      {
        QuotientBounds(max, d, a);
      }
      QuotientBounds(max, d, 0);
    }
  }

  /** The left shift check is exact for every shift count below the width, in every representation. */
  lemma {:induction false} LeftShiftIsExact(a: int, b: nat, bits: nat, min: int, max: int)
    requires BinaryType(bits, min, max) && InRange(a, min, max) && b <= bits
    ensures LeftShiftOverflow(a, b, min, max) == Some(!InRange(a * Power(2, b), min, max))
  {
    hide Power;
    var d := Power(2, b);
    if a < 0 {
      MinShifted(b, bits, min, max);
      var m: nat := -a;
      assert a * d == -(m * d);
    } else {
      QuotientBounds(max, d, a);
      assert ShiftRight(max, b, min < -max) == Quotient(max, d);
    }
  }
}
