/** What __xstrtol does with every text, whatever suffixes are valid: what is stored and flagged, said without any
    scanning. The texts of the programs' grammar (Suffixes.dfy) are those that are flagged for overflow at most. */
module Flagged {
  import opened Options
  import opened Arithmetic
  import opened Xstrtol
  import opened Suffixes

  /** The prefixes, with two undocumented letters. */
  ghost predicate AnyPrefix(c: char, e: nat) {
    PrefixOf(c, e) || (c == 'g' && e == 3) || (c == 't' && e == 4)
  }

  /** What any letter multiplies with. */
  ghost predicate FactorOf(c: char, base: nat, f: nat) {
    || (c == 'b' && f == 512)
    || (c == 'B' && f == 1024)
    || (c == 'c' && f == 1)
    || (c == 'w' && f == 2)
    || exists e: nat :: AnyPrefix(c, e) && f == Power(base, e)
  }

  ghost predicate Known(c: char) {
    c == 'b' || c == 'B' || c == 'c' || c == 'w' || exists e: nat :: AnyPrefix(c, e)
  }

  /** What stands behind a letter selects the base: the mark belongs to the suffix, and what is after it does not.
      Marks are read only when '0' is among the valid suffixes. */
  ghost predicate Marked(mark: string, after: string, valid: string, base: nat) {
    if '0' in valid then
      || (mark == "iB" && base == 1024)
      || ((mark == "B" || mark == "D") && base == 1000)
      || (mark == "" && base == 1024 && !("iB" <= after || "B" <= after || "D" <= after))
    else mark == "" && base == 1024
  }

  ghost predicate NoNumber(s: string) {
    forall k: nat, n: nat | k <= |s| :: !Number(s[..k], n)
  }

  /** The number in front, to its last digit. */
  ghost predicate LongNumber(s: string, k: nat, n: nat) {
    k <= |s| && Number(s[..k], n) && (k < |s| ==> !IsDigit(s[k]))
  }

  ghost predicate Negative(s: string) {
    exists i :: 0 <= i < |s| && s[i] == '-' && Blank(s, i)
  }

  // ---- behind the number ----

  lemma {:induction false} AnyPrefixIsExponent(c: char, e: nat)
    ensures AnyPrefix(c, e) <==> Exponent(c) == Some(e)
  {
  }

  lemma {:induction false} FactorIsLetter(c: char, base: nat, f: nat)
    requires base >= 1
    ensures FactorOf(c, base, f) <==> LetterFactor(c, base) == Some(f)
    ensures Known(c) <==> LetterFactor(c, base).Some?
  {
    hide Power, AnyPrefix;
    forall e: nat { AnyPrefixIsExponent(c, e); }
    if Exponent(c).Some? {
      assert AnyPrefix(c, Exponent(c).value);
    }
  }

  lemma {:induction false} MarkedIsSecond(t: string, mark: string, after: string, valid: string, base: nat)
    requires t != "" && t[1..] == mark + after
    ensures Marked(mark, after, valid, base) ==> SecondSuffix(t, valid) == (base, 1 + |mark|)
  {
    assert forall i | 0 <= i < |t[1..]| :: t[1..][i] == t[1 + i];
    assert forall i | 0 <= i < |mark| :: (mark + after)[i] == mark[i];
    assert forall i | 0 <= i < |after| :: (mark + after)[|mark| + i] == after[i];
  }

  /** A letter with its mark scales the number, and only text after them is flagged. */
  lemma {:induction false} SuffixScales(n: nat, t: string, valid: string, max: nat, mark: string, after: string,
                                        base: nat, f: nat)
    requires t != "" && t[0] in valid && t[1..] == mark + after
    requires Marked(mark, after, valid, base) && FactorOf(t[0], base, f)
    ensures Scaled(n, t, max, valid) == (Min(Times(n, f), max), StrtolError(Times(n, f) > max, after != "", false))
  {
    hide LetterFactor, FactorOf, Marked, SecondSuffix;
    MarkedIsSecond(t, mark, after, valid, base);
    BasePositive(mark, after, valid, base);
    FactorIsLetter(t[0], base, f);
    assert |t| == 1 + |mark| + |after|;
  }

  lemma {:induction false} BasePositive(mark: string, after: string, valid: string, base: nat)
    requires Marked(mark, after, valid, base)
    ensures base >= 1
  {
  }

  /** Any other text behind the number is flagged and changes nothing. */
  lemma {:induction false} OtherTextIsFlagged(n: nat, t: string, valid: string, max: nat)
    requires t != "" && (t[0] !in valid || !Known(t[0]))
    ensures Scaled(n, t, max, valid) == (Min(n, max), StrtolError(n > max, true, false))
  {
    hide LetterFactor, FactorOf, Known, SecondSuffix;
    if t[0] in valid {
      FactorIsLetter(t[0], SecondSuffix(t, valid).0, 0);
    }
  }

  /** These are all the cases: a known letter always has a mark and a factor. */
  lemma {:induction false} SuffixSplits(t: string, valid: string)
    returns (mark: string, after: string, base: nat, f: nat)
    requires t != "" && Known(t[0])
    ensures t[1..] == mark + after && Marked(mark, after, valid, base) && FactorOf(t[0], base, f)
  {
    hide LetterFactor, Power;
    var rest := t[1..];
    mark, after, base := "", rest, 1024;
    if '0' in valid {
      if "iB" <= rest {
        mark, after := "iB", rest[2..];
      } else if "B" <= rest || "D" <= rest {
        mark, after, base := rest[..1], rest[1..], 1000;
      }
    }
    FactorIsLetter(t[0], base, 0);
    f := LetterFactor(t[0], base).value;
    FactorIsLetter(t[0], base, f);
  }

  // ---- the number ----

  /** A number is read to its last digit, and what is behind it decides the rest. */
  lemma {:induction false} NumberThenRest(s: string, k: nat, n: nat, valid: string, max: nat)
    requires LongNumber(s, k, n)
    ensures var (value, err) := Scaled(n, s[k..], max, valid); Result(s, max, Some(valid)) == (Some(value), err)
    ensures Result(s, max, None) == (Some(Min(n, max)), StrtolError(n > max, false, false))
  {
    hide Number, Strtoumax, Scaled, DigitsValue;
    NumberIsRead(s, k, n);
  }

  /** Without a number, but with a valid first character, the number is 1. */
  lemma {:induction false} RestAlone(s: string, valid: string, max: nat)
    requires NoNumber(s) && !Negative(s) && s != "" && s[0] in valid
    ensures var (value, err) := Scaled(1, s, max, valid); Result(s, max, Some(valid)) == (Some(value), err)
  {
    hide Number, Strtoumax, Scaled, DigitsValue, Negative;
    NothingRead(s);
    NotNegative(s);
    assert s[0..] == s;
  }

  /** Everything else is invalid, and nothing is stored. */
  lemma {:induction false} Rejected(s: string, valid: Option<string>, max: nat)
    requires Negative(s) || (NoNumber(s) && !(valid.Some? && s != "" && s[0] in valid.value))
    ensures Result(s, max, valid) == (None, LONGINT_INVALID)
  {
    hide Number, Strtoumax, Scaled, DigitsValue;
    if Negative(s) {
      var i :| 0 <= i < |s| && s[i] == '-' && Blank(s, i);
      SpacesEndIs(s, 0, i);
    } else {
      NothingRead(s);
    }
  }

  lemma {:induction false} NothingRead(s: string)
    requires NoNumber(s)
    ensures Strtoumax(s).1 == 0
  {
    hide Number, Strtoumax, DigitsValue;
    if Strtoumax(s).1 > 0 {
      ReadIsNumber(s);
    }
  }

  lemma {:induction false} NotNegative(s: string)
    requires !Negative(s)
    ensures CharAt(s, SpacesEnd(s, 0)) != '-'
  {
    var i := SpacesEnd(s, 0);
    if i < |s| && s[i] == '-' {
      assert Blank(s, i);
    }
  }

  /** These are all the cases, too. */
  lemma {:induction false} NumberOrNot(s: string)
    ensures NoNumber(s) || exists k: nat, n: nat :: LongNumber(s, k, n)
  {
    hide Number, DigitsValue;
    if !NoNumber(s) {
      var k: nat, n: nat :| k <= |s| && Number(s[..k], n);
      NumberIsFound(s, k, n);
      ReadIsNumber(s);
      assert LongNumber(s, Strtoumax(s).1, Strtoumax(s).0);
    }
  }

  lemma {:induction false} NumberIsFound(s: string, k: nat, n: nat)
    requires k <= |s| && Number(s[..k], n)
    ensures Strtoumax(s).1 > 0
  {
    hide DigitsValue;
    var t := s[..k];
    var d: nat :| NumberAt(t, d, n);
    assert IsDigit(t[d]);
    assert forall i | 0 <= i < k :: t[i] == s[i];
    SpacesEndIs(s, 0, if Blank(t, d) then d else d - 1);
  }

  /** With the programs' suffixes: the number in front of an invalid suffix is stored, and the suffix flagged. */
  lemma {:induction false} InvalidSuffixIsFlagged(s: string, k: nat, n: nat)
    requires LongNumber(s, k, n) && k < |s| && s[k] !in SUFFIXES
    ensures XStrtoumax(s) == (Some(Min(n, UINTMAX_MAX)), StrtolError(n > UINTMAX_MAX, true, false))
  {
    hide Number, Result, Scaled, LongNumber;
    OtherTextIsFlagged(n, s[k..], SUFFIXES, UINTMAX_MAX);
    NumberThenRest(s, k, n, SUFFIXES, UINTMAX_MAX);
  }
}
