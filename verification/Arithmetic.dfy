/** Products and powers. */
module Arithmetic {

  /** The types size_t, ssize_t and uintmax_t have 64 bits. */
  const WORD_MODULUS := 0x1_0000_0000_0000_0000

  function Min(a: int, b: int): int {
    if a <= b then a else b
  }

  function Power(base: nat, n: nat): (p: nat)
    ensures base >= 1 ==> p >= 1
  {
    if n == 0 then 1 else base * Power(base, n - 1)
  }

  lemma {:induction false} Associative(x: nat, y: nat, z: nat)
    ensures x * (y * z) == x * y * z
  {
  }

  lemma {:induction false} MulMonotone(x: nat, y: nat, b: nat)
    requires x <= y
    ensures x * b <= y * b
  {
  }

  lemma {:induction false} MulBoth(x: nat, y: nat, a: nat, b: nat)
    requires x <= y && a <= b
    ensures x * a <= y * b
  {
    MulMonotone(x, y, a);
    MulMonotone(a, b, y);
  }

  lemma {:induction false} MulStrict(x: nat, y: nat, a: nat, b: nat)
    requires x < y && a <= b && b >= 1
    ensures x * a < y * b
  {
    MulMonotone(a, b, x);
    MulMonotone(x + 1, y, b);
  }

  lemma {:induction false} MulCancel(x: nat, y: nat, b: nat)
    requires x * b < y * b
    ensures x < y
  {
    if y <= x {
      MulMonotone(y, x, b);
    }
  }

  lemma {:induction false} PowerAdd(x: nat, m: nat, n: nat)
    ensures Power(x, m + n) == Power(x, m) * Power(x, n)
  {
    if m > 0 {
      assert Power(x, m) == x * Power(x, m - 1);
      assert Power(x, m + n) == x * Power(x, m - 1 + n);
      hide Power;
      PowerAdd(x, m - 1, n);
      Associative(x, Power(x, m - 1), Power(x, n));
    }
  }

  lemma {:induction false} PowerTimes(x: nat, m: nat, n: nat)
    ensures Power(x, m * n) == Power(Power(x, m), n)
  {
    if n > 0 {
      PowerTimes(x, m, n - 1);
      PowerAdd(x, m, m * (n - 1));
      assert m + m * (n - 1) == m * n;
    } else {
      assert m * n == 0;
    }
  }

  lemma {:induction false} PowerMonotone(x: nat, y: nat, n: nat)
    requires x <= y
    ensures Power(x, n) <= Power(y, n)
  {
    if n > 0 {
      PowerMonotone(x, y, n - 1);
      MulBoth(x, y, Power(x, n - 1), Power(y, n - 1));
    }
  }

  lemma {:induction false} PowerStrict(x: nat, y: nat, n: nat)
    requires x < y && n >= 1
    ensures Power(x, n) < Power(y, n)
  {
    PowerMonotone(x, y, n - 1);
    MulStrict(x, y, Power(x, n - 1), Power(y, n - 1));
  }

  lemma {:induction false} ExponentMonotone(x: nat, m: nat, n: nat)
    requires x >= 1 && m <= n
    ensures Power(x, m) <= Power(x, n)
  {
    PowerAdd(x, m, n - m);
    MulMonotone(1, Power(x, n - m), Power(x, m));
  }

  /** Roots keep the order. */
  lemma {:induction false} PowerCancel(x: nat, y: nat, n: nat)
    requires Power(x, n) <= Power(y, n) && n >= 1
    ensures x <= y
  {
    if y < x {
      PowerStrict(y, x, n);
    }
  }

  lemma {:induction false} PowerCancelStrict(x: nat, y: nat, n: nat)
    requires Power(x, n) < Power(y, n)
    ensures x < y
  {
    if y <= x {
      PowerMonotone(y, x, n);
    }
  }
}
