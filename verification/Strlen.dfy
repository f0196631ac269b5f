/** INT_BITS_STRLEN_BOUND of src/coreutils/intprops.h against the decimal digits of the numbers of a given width. */
module Strlen {
  import opened Arithmetic
  import opened Header

  function BitsStrlenBound(b: nat): nat {
    (b * 146 + 484) / 485
  }

  // ---- a few powers of two, bounded by numbers of seven digits times a power of ten ----

  ghost predicate Below(n: nat, m: nat, e: nat) {
    Power(2, n) <= m * Power(10, e)
  }

  ghost predicate Above(n: nat, m: nat, e: nat) {
    m * Power(10, e) <= Power(2, n)
  }

  lemma {:induction false} Double(n: nat, odd: bool)
    ensures Power(2, 2 * n + if odd then 1 else 0) == Power(2, n) * Power(2, n) * (if odd then 2 else 1)
  {
    PowerAdd(2, n, n);
    PowerAdd(2, 2 * n, 1);
    assert Power(2, 1) == 2 * Power(2, 0);
  }

  lemma {:induction false} ScaledSquare(m: nat, e: nat, d: nat, q: nat, odd: nat)
    ensures (m * Power(10, e)) * (m * Power(10, e)) * odd == m * m * odd * Power(10, 2 * e)
    ensures q * Power(10, d) * Power(10, 2 * e) == q * Power(10, 2 * e + d)
  {
    PowerAdd(10, e, e);
    PowerAdd(10, 2 * e, d);
    Regroup(m, Power(10, e), odd);
    Associative(q, Power(10, d), Power(10, 2 * e));
  }

  lemma {:induction false} Regroup(m: nat, p: nat, odd: nat)
    ensures (m * p) * (m * p) * odd == m * m * odd * (p * p)
  {
    assert (m * p) * (m * p) == (m * m) * (p * p);
    Associative(m * m, p * p, odd);
    assert m * m * (odd * (p * p)) == m * m * odd * (p * p);
  }

  lemma {:induction false} BelowStep(n: nat, m: nat, e: nat, odd: bool, d: nat, q: nat)
    requires Below(n, m, e) && m * m * (if odd then 2 else 1) <= q * Power(10, d)
    ensures Below(2 * n + if odd then 1 else 0, q, 2 * e + d)
  {
    var f := if odd then 2 else 1;
    Double(n, odd);
    ScaledSquare(m, e, d, q, f);
    MulBoth(Power(2, n), m * Power(10, e), Power(2, n), m * Power(10, e));
    MulMonotone(Power(2, n) * Power(2, n), (m * Power(10, e)) * (m * Power(10, e)), f);
    MulMonotone(m * m * f, q * Power(10, d), Power(10, 2 * e));
  }

  lemma {:induction false} AboveStep(n: nat, m: nat, e: nat, odd: bool, d: nat, q: nat)
    requires Above(n, m, e) && q * Power(10, d) <= m * m * (if odd then 2 else 1)
    ensures Above(2 * n + if odd then 1 else 0, q, 2 * e + d)
  {
    var f := if odd then 2 else 1;
    Double(n, odd);
    ScaledSquare(m, e, d, q, f);
    MulBoth(m * Power(10, e), Power(2, n), m * Power(10, e), Power(2, n));
    MulMonotone((m * Power(10, e)) * (m * Power(10, e)), Power(2, n) * Power(2, n), f);
    MulMonotone(q * Power(10, d), m * m * f, Power(10, 2 * e));
  }

  lemma {:induction false} TenPowers()
    ensures Power(10, 0) == 1
    ensures Power(10, 3) == 1000
    ensures Power(10, 4) == 10000
    ensures Power(10, 5) == 100000
    ensures Power(10, 6) == 1000000
    ensures Power(10, 7) == 10000000
    ensures Power(10, 8) == 100000000
  {
  }

  lemma {:induction false} TwoPowers()
    ensures Power(2, 0) == 1 && Power(2, 1) == 2 && Power(2, 2) == 4
    ensures Power(2, 15) == 0x8000 && Power(2, 16) == 0x1_0000
    ensures Power(2, 20) == 0x10_0000 && Power(2, 64) == 0x1_0000_0000_0000_0000
  {
    assert Power(2, 5) == 32;
    PowerAdd(2, 5, 5);
    PowerAdd(2, 10, 5);
    PowerAdd(2, 1, 15);
    PowerAdd(2, 10, 10);
    PowerAdd(2, 16, 16);
    PowerAdd(2, 32, 32);
  }

  /** log10(2) < 146/485. */
  lemma {:induction false} TwoTo485()
    ensures Power(2, 485) < Power(10, 146)
  {
    TenPowers();
    TwoPowers();
    hide Power;
    BelowStep(15, 32768, 0, false, 4, 107375);
    BelowStep(30, 107375, 4, false, 5, 115294);
    BelowStep(60, 115294, 13, true, 5, 265855);
    BelowStep(121, 265855, 31, false, 5, 706789);
    BelowStep(242, 706789, 67, true, 6, 999102);
    PowerAdd(10, 6, 140);
    MulStrict(999102, 1000000, Power(10, 140), Power(10, 140));
  }

  lemma {:induction false} TwoTo2136()
    ensures Power(10, 643) < Power(2, 2136)
  {
    TenPowers();
    TwoPowers();
    hide Power;
    AboveStep(16, 65536, 0, true, 3, 8589934);
    AboveStep(33, 8589934, 3, false, 7, 7378696);
    AboveStep(66, 7378696, 13, true, 8, 1088903);
    AboveStep(133, 1088903, 34, true, 6, 2371419);
    AboveStep(267, 2371419, 74, false, 6, 5623628);
    AboveStep(534, 5623628, 154, false, 7, 3162519);
    AboveStep(1068, 3162519, 315, false, 7, 1000152);
    PowerAdd(10, 6, 637);
    MulStrict(1000000, 1000152, Power(10, 637), Power(10, 637));
  }

  lemma {:induction false} TwoTo2621()
    ensures Power(2, 2621) < Power(10, 789)
  {
    TenPowers();
    TwoPowers();
    hide Power;
    BelowStep(20, 1048576, 0, false, 7, 109952);
    BelowStep(40, 109952, 7, true, 5, 241789);
    BelowStep(81, 241789, 19, true, 6, 116924);
    BelowStep(163, 116924, 44, true, 5, 273425);
    BelowStep(327, 273425, 93, true, 6, 149523);
    BelowStep(655, 149523, 192, false, 5, 223572);
    BelowStep(1310, 223572, 389, true, 5, 999689);
    PowerAdd(10, 6, 783);
    MulStrict(999689, 1000000, Power(10, 783), Power(10, 783));
  }

  // ---- the bound covers every number of b bits ----

  lemma {:induction false} BoundCovers(b: nat)
    ensures Power(2, b) <= Power(10, BitsStrlenBound(b))
  {
    var l := BitsStrlenBound(b);
    hide Power;
    TwoTo485();
    PowerTimes(2, b, 485);
    PowerTimes(2, 485, b);
    assert b * 485 == 485 * b;
    PowerMonotone(Power(2, 485), Power(10, 146), b);
    PowerTimes(10, 146, b);
    ExponentMonotone(10, 146 * b, l * 485);
    PowerTimes(10, l, 485);
    PowerCancel(Power(2, b), Power(10, l), 485);
  }

  // ---- and is tight below 2621 bits ----

  /** If a^n < 2 b^n for some b <= a, then so for every smaller n. */
  lemma {:induction false} NearPowers(a: nat, b: nat, n: nat, m: nat, f: nat)
    requires 1 <= b <= a && m <= n && Power(a, n) < f * Power(b, n)
    ensures Power(a, m) < f * Power(b, m)
  {
    hide Power;
    PowerAdd(a, m, n - m);
    PowerAdd(b, m, n - m);
    PowerMonotone(b, a, n - m);
    MulMonotone(Power(b, n - m), Power(a, n - m), Power(a, m));
    Associative(f, Power(b, n - m), Power(b, m));
    MulCancel(Power(a, m), f * Power(b, m), Power(b, n - m));
  }

  lemma {:induction false} Near(m: nat)
    ensures m <= 643 ==> Power(Power(10, 146), m) < 2 * Power(Power(2, 485), m)
    ensures m <= 788 ==> Power(Power(10, 146), m) < 4 * Power(Power(2, 485), m)
  {
    TwoPowers();
    hide Power;
    var a, b := Power(10, 146), Power(2, 485);
    TwoTo485();
    TwoTo2136();
    PowerStrict(Power(10, 643), Power(2, 2136), 146);
    PowerTimes(10, 643, 146);
    PowerTimes(10, 146, 643);
    PowerTimes(2, 2136, 146);
    PowerTimes(2, 485, 643);
    PowerAdd(2, 1, 485 * 643);
    assert Power(a, 643) < 2 * Power(b, 643);
    if m <= 643 {
      NearPowers(a, b, 643, m, 2);
    } else if m <= 788 {
      NearPowers(a, b, 643, m - 643, 2);
      PowerAdd(a, 643, m - 643);
      PowerAdd(b, 643, m - 643);
      MulStrict(Power(a, 643), 2 * Power(b, 643), Power(a, m - 643), 2 * Power(b, m - 643));
      assert 2 * Power(b, 643) * (2 * Power(b, m - 643)) == 4 * (Power(b, 643) * Power(b, m - 643));
    }
  }

  /** m is one less than the bound, and 485 m is below 146 b by k. Were k 1, then m would be 87 below a multiple
      of 146, and the first such m above 643 is 789. */
  lemma {:induction false} Margin(b: nat) returns (m: nat, k: nat)
    requires 1 <= b < 2621
    ensures m + 1 == BitsStrlenBound(b) && k + 485 * m == b * 146 && m <= 788
    ensures k >= if m <= 643 then 1 else 2
  {
    var l := BitsStrlenBound(b);
    assert 485 * l <= b * 146 + 484 < 485 * (l + 1);
    hide BitsStrlenBound;
    m, k := l - 1, 146 * b - 485 * (l - 1);
    if k == 1 {
      var q := 87 * b - 289 * m;
      assert m == 146 * q - 87;
      assert m <= 643 || m >= 789;
    }
  }

  /** One digit less would not do for b bits. */
  lemma {:induction false} BoundIsTight(b: nat)
    requires 1 <= b < 2621
    ensures Power(10, BitsStrlenBound(b) - 1) < Power(2, b)
  {
    hide Power;
    var m, k := Margin(b);
    TwoPowers();
    Near(m);
    var f := if m <= 643 then 1 else 2;
    ExponentMonotone(2, f, k);
    PowerTimes(2, 485, m);
    PowerAdd(2, k, 485 * m);
    MulMonotone(Power(2, f), Power(2, k), Power(Power(2, 485), m));
    PowerTimes(10, 146, m);
    PowerTimes(10, m, 146);
    PowerTimes(2, b, 146);
    assert 146 * m == m * 146;
    PowerCancelStrict(Power(10, m), Power(2, b), 146);
  }

  // ---- digits ----

  /** A number has at most l digits exactly when it is below 10^l. */
  lemma {:induction false} DecimalLength(v: nat, l: nat)
    requires l >= 1
    ensures |Decimal(v)| <= l <==> v < Power(10, l)
  {
    if l == 1 {
      assert Power(10, 1) == 10;
    } else if v >= 10 {
      DecimalLength(v / 10, l - 1);
      assert Power(10, l) == 10 * Power(10, l - 1);
    } else {
      ExponentMonotone(10, 1, l);
      assert Power(10, 1) == 10;
    }
  }

  /** The bound is the number of digits of the largest number of b bits: never exceeded, and attained by it
      for every b below 2621. */
  lemma {:induction false} StrlenBoundIsExact(b: nat, v: nat)
    requires b >= 1 && v < Power(2, b)
    ensures |Decimal(v)| <= BitsStrlenBound(b)
    ensures b < 2621 && v == Power(2, b) - 1 ==> |Decimal(v)| == BitsStrlenBound(b)
  {
    hide Power;
    BoundCovers(b);
    DecimalLength(v, BitsStrlenBound(b));
    if b < 2621 && v == Power(2, b) - 1 {
      BoundIsTight(b);
      if BitsStrlenBound(b) > 1 {
        DecimalLength(v, BitsStrlenBound(b) - 1);
      }
    }
  }

  /** 2621 is the first width for which the bound is one too large, for every number of that width. */
  lemma {:induction false} NotTightAt2621(v: nat)
    requires v < Power(2, 2621)
    ensures |Decimal(v)| < BitsStrlenBound(2621)
  {
    hide Power;
    TwoTo2621();
    DecimalLength(v, 789);
  }

  /** The server's buffer of 1024 bytes holds the length line of any tail and its terminating NUL. */
  lemma {:induction false} LengthLineFits(n: nat)
    requires n < WORD_MODULUS
    ensures |Decimal(n)| + 2 <= 22 <= 1024
  {
    TwoPowers();
    StrlenBoundIsExact(64, n);
  }
}
