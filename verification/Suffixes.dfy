/** The grammar of the -c and -n arguments, written without any scanning, and xstrtoumax against it. */
module Suffixes {
  import opened Options
  import opened Arithmetic
  import opened Xstrtol

  /** The suffixes that both programs accept (src/tailserver.c:218, src/tailclient.c:217). */
  const SUFFIXES := "bkKmMGTPEZY0"

  /** t is spaces, perhaps a plus sign, and the decimal digits of n. */
  ghost predicate Number(t: string, n: nat) {
    exists d: nat :: NumberAt(t, d, n)
  }

  ghost predicate NumberAt(t: string, d: nat, n: nat) {
    && d < |t|
    && (forall i | d <= i < |t| :: IsDigit(t[i]))
    && n == DigitsValue(t[d..])
    && (Blank(t, d) || (d > 0 && t[d - 1] == '+' && Blank(t, d - 1)))
  }

  ghost predicate Blank(t: string, d: nat)
    requires d <= |t|
  {
    forall i | 0 <= i < d :: IsSpace(t[i])
  }

  const PREFIXES := "KMGTPEZY"
  const SMALL_PREFIXES := "kmGTPEZY"

  ghost predicate PrefixOf(c: char, e: nat) {
    1 <= e <= 8 && (c == PREFIXES[e - 1] || c == SMALL_PREFIXES[e - 1])
  }

  /** What may stand behind a suffix letter to select the base. */
  ghost predicate BaseMark(t: string, base: nat) {
    (base == 1024 && (t == "" || t == "iB")) || (base == 1000 && (t == "B" || t == "D"))
  }

  /** t multiplies the number before it with f. */
  ghost predicate Multiplier(t: string, f: nat) {
    if t == "" then f == 1
    else exists base: nat :: BaseMark(t[1..], base) && LetterMeans(t[0], base, f)
  }

  ghost predicate LetterMeans(c: char, base: nat, f: nat) {
    (c == 'b' && f == 512) || exists e: nat :: PrefixOf(c, e) && f == Power(base, e)
  }

  /** The whole text is a number with a multiplier, or a multiplier alone, and its true value is v. */
  ghost predicate Denotes(s: string, v: nat) {
    || (s != "" && Multiplier(s, v))
    || exists k: nat, n: nat, f: nat :: NumberAndMultiplier(s, k, n, f) && v == Times(n, f)
  }

  function Times(n: nat, f: nat): nat {
    n * f
  }

  ghost predicate NumberAndMultiplier(s: string, k: nat, n: nat, f: nat) {
    k <= |s| && Number(s[..k], n) && Multiplier(s[k..], f)
  }

  // ---- scanning finds the parts ----

  lemma {:induction false} SpacesEndIs(s: string, i: nat, k: nat)
    requires i <= k <= |s| && (forall j | i <= j < k :: IsSpace(s[j])) && (k < |s| ==> !IsSpace(s[k]))
    ensures SpacesEnd(s, i) == k
    decreases k - i
  {
    if i < k {
      SpacesEndIs(s, i + 1, k);
    }
  }

  lemma {:induction false} DigitsEndIs(s: string, i: nat, k: nat)
    requires i <= k <= |s| && (forall j | i <= j < k :: IsDigit(s[j])) && (k < |s| ==> !IsDigit(s[k]))
    ensures DigitsEnd(s, i) == k
    decreases k - i
  {
    if i < k {
      DigitsEndIs(s, i + 1, k);
    }
  }

  lemma {:induction false} PrefixIsExponent(c: char, e: nat)
    ensures PrefixOf(c, e) <==> Exponent(c) == Some(e) && c in SUFFIXES
    ensures PrefixOf(c, e) ==> c != 'b' && c != '0'
  {
    hide Power;
  }

  /** A letter of the programs' set has the meaning that the switch gives it. */
  lemma {:induction false} LetterIsFactor(c: char, base: nat, f: nat)
    requires base >= 1
    ensures LetterMeans(c, base, f) <==> c in SUFFIXES && LetterFactor(c, base) == Some(f)
  {
    hide Power;
    forall e: nat { PrefixIsExponent(c, e); }
    if c != 'b' && c in SUFFIXES && Exponent(c).Some? {
      assert PrefixOf(c, Exponent(c).value);
    }
  }

  lemma {:induction false} MarkIsSecondSuffix(t: string, base: nat)
    requires t != ""
    ensures BaseMark(t[1..], base) <==> SecondSuffix(t, SUFFIXES) == (base, |t|)
  {
    assert |t| == 2 ==> t[1..] == [t[1]];
    assert |t| == 3 ==> t[1..] == [t[1], t[2]];
  }

  /** Behind a number, a multiplier scales it and sets no suffix flag. */
  lemma {:induction false} MultiplierIsScaled(number: nat, t: string, max: nat, f: nat)
    requires Multiplier(t, f)
    ensures Scaled(number, t, max, SUFFIXES) == Saturated(Times(number, f), max)
  {
    hide LetterFactor, LetterMeans;
    if t != "" {
      var base: nat :| BaseMark(t[1..], base) && LetterMeans(t[0], base, f);
      MarkIsSecondSuffix(t, base);
      LetterIsFactor(t[0], base, f);
    }
  }

  /** Any other text sets it. */
  lemma {:induction false} ScaledIsMultiplier(number: nat, t: string, max: nat) returns (f: nat)
    requires !Scaled(number, t, max, SUFFIXES).1.invalidSuffixChar
    ensures Multiplier(t, f)
  {
    hide LetterFactor, LetterMeans;
    if t == "" {
      return 1;
    }
    var base := SecondSuffix(t, SUFFIXES).0;
    MarkIsSecondSuffix(t, base);
    f := LetterFactor(t[0], base).value;
    LetterIsFactor(t[0], base, f);
  }

  lemma {:induction false} MultiplierStart(t: string, f: nat)
    requires Multiplier(t, f) && t != ""
    ensures t[0] in SUFFIXES && !IsDigit(t[0]) && !IsSpace(t[0]) && t[0] != '-' && t[0] != '+'
  {
    hide Power;
    var base: nat :| BaseMark(t[1..], base) && LetterMeans(t[0], base, f);
    LetterIsFactor(t[0], base, f);
  }

  // ---- the number ----

  /** strtoumax reads exactly the number in front of a multiplier. */
  lemma {:induction false} NumberIsRead(s: string, k: nat, n: nat)
    requires k <= |s| && Number(s[..k], n) && (k < |s| ==> !IsDigit(s[k]))
    ensures k > 0 && Strtoumax(s) == (n, k)
    ensures CharAt(s, SpacesEnd(s, 0)) != '-'
  {
    var t := s[..k];
    var d: nat :| NumberAt(t, d, n);
    assert IsDigit(t[d]);
    assert forall i | 0 <= i < k :: t[i] == s[i];
    SpacesEndIs(s, 0, if Blank(t, d) then d else d - 1);
    DigitsEndIs(s, d, k);
    assert t[d..] == s[d..k];
  }

  lemma {:induction false} ReadIsNumber(s: string)
    requires Strtoumax(s).1 > 0
    ensures Number(s[..Strtoumax(s).1], Strtoumax(s).0)
  {
    hide DigitsValue, IsDigit, IsSpace;
    var i := SpacesEnd(s, 0);
    var d := if s[i] == '+' then i + 1 else i;
    var k := DigitsEnd(s, d);
    DigitsOf(s, d, k);
    assert s[..k][d..] == s[d..k];
    assert NumberAt(s[..k], d, DigitsValue(s[d..k]));
  }

  lemma {:induction false} DigitsOf(s: string, d: nat, k: nat)
    requires d <= k <= |s| && forall i | d <= i < k :: IsDigit(s[i])
    ensures forall i | 0 <= i < |s[d..k]| :: IsDigit(s[d..k][i])
    ensures forall i | d <= i < k :: IsDigit(s[..k][i])
  {
    assert forall i | 0 <= i < |s[d..k]| :: s[d..k][i] == s[d + i];
  }

  /** A text that starts with a multiplier holds no number at its start. */
  lemma {:induction false} NoNumberInMultiplier(s: string, f: nat)
    requires s != "" && Multiplier(s, f)
    ensures Strtoumax(s).1 == 0 && SpacesEnd(s, 0) == 0 && s[0] in SUFFIXES && s[0] != '-'
  {
    MultiplierStart(s, f);
    SpacesEndIs(s, 0, 0);
    DigitsEndIs(s, 0, 0);
  }

  // ---- the main result ----

  function Saturated(v: nat, max: nat): (nat, StrtolError) {
    (Min(v, max), StrtolError(v > max, false, false))
  }

  function XStrtoumax(s: string): (Option<nat>, StrtolError) {
    Result(s, UINTMAX_MAX, Some(SUFFIXES))
  }

  /** A text of the grammar is stored at its true value or, when that is too large, at the maximum; only then
      is there a flag, for overflow. */
  lemma {:induction false} DenotedIsStored(s: string, v: nat, max: nat)
    requires Denotes(s, v)
    ensures Result(s, max, Some(SUFFIXES)) == (Some(Min(v, max)), StrtolError(v > max, false, false))
  {
    hide LetterFactor, Multiplier, Number, Scaled, Strtoumax;
    if s != "" && Multiplier(s, v) {
      NoNumberInMultiplier(s, v);
      MultiplierIsScaled(1, s, max, v);
      assert s[0..] == s;
    } else {
      var k: nat, n: nat, f: nat :| NumberAndMultiplier(s, k, n, f) && v == Times(n, f);
      if k < |s| {
        assert s[k..][0] == s[k];
        MultiplierStart(s[k..], f);
      }
      NumberIsRead(s, k, n);
      MultiplierIsScaled(n, s[k..], max, f);
    }
  }

  lemma {:induction false} ValueIsUnique(s: string, v: nat, w: nat)
    requires Denotes(s, v) && Denotes(s, w)
    ensures v == w
  {
    hide Denotes, Result;
    DenotedIsStored(s, v, v + w);
    DenotedIsStored(s, w, v + w);
  }

  /** Every other text is flagged as invalid in itself or in its suffix. */
  lemma {:induction false} UnflaggedIsDenoted(s: string) returns (v: nat)
    requires !XStrtoumax(s).1.invalid && !XStrtoumax(s).1.invalidSuffixChar
    ensures Denotes(s, v)
  {
    hide LetterFactor, Multiplier, Number, Scaled, Strtoumax;
    var (n, k) := Strtoumax(s);
    if k == 0 {
      assert s[0..] == s;
      v := ScaledIsMultiplier(1, s, UINTMAX_MAX);
    } else {
      ReadIsNumber(s);
      var f := ScaledIsMultiplier(n, s[k..], UINTMAX_MAX);
      assert NumberAndMultiplier(s, k, n, f);
      v := Times(n, f);
    }
  }

  /** xstrtoumax accepts exactly the texts of the grammar whose true value fits, and stores that value; it reports
      overflow alone exactly on those whose true value does not fit. */
  lemma {:induction false} AcceptsExactly(s: string)
    ensures XStrtoumax(s).1 == LONGINT_OK <==> exists v: nat :: Denotes(s, v) && v <= UINTMAX_MAX
    ensures forall v: nat | Denotes(s, v) && v <= UINTMAX_MAX :: XStrtoumax(s).0 == Some(v)
    ensures XStrtoumax(s).1 == StrtolError(true, false, false) <==> exists v: nat :: Denotes(s, v) && v > UINTMAX_MAX
  {
    hide Denotes, Result;
    forall v: nat | Denotes(s, v)
      ensures XStrtoumax(s) == (Some(Min(v, UINTMAX_MAX)), StrtolError(v > UINTMAX_MAX, false, false))
    {
      DenotedIsStored(s, v, UINTMAX_MAX);
    }
    if !XStrtoumax(s).1.invalid && !XStrtoumax(s).1.invalidSuffixChar {
      var v := UnflaggedIsDenoted(s);
    }
  }
}
