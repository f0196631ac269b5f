/** Numbers with a multiplier suffix (src/coreutils/xstrtol.c), read into an unsigned type. */
module Xstrtol {
  import opened Options
  import opened Arithmetic

  /** The flags of strtol_error; none of them set is LONGINT_OK. */
  datatype StrtolError = StrtolError(overflow: bool, invalidSuffixChar: bool, invalid: bool)

  const LONGINT_OK := StrtolError(false, false, false)
  const LONGINT_INVALID := StrtolError(false, false, true)
  const UINTMAX_MAX: nat := WORD_MODULUS - 1

  lemma {:induction false} MulAtLeast(a: nat, b: nat)
    requires b >= 1
    ensures a * b >= a
  {
  }

  lemma {:induction false} QuotientBelow(max: nat, b: nat, x: nat)
    requires b >= 1
    ensures max / b < x <==> x * b > max
  {
    var q := max / b;
    assert max == q * b + max % b;
    if q < x {
      MulMonotone(q + 1, x, b);
    } else {
      MulMonotone(x, q, b);
    }
  }

  /** Scaling a saturated value saturates the scaled value. */
  lemma {:induction false} SaturatedStep(p: nat, b: nat, max: nat)
    requires b >= 1
    ensures Min(Min(p, max) * b, max) == Min(p * b, max)
    ensures (p > max || Min(p, max) * b > max) <==> p * b > max
  {
    MulAtLeast(p, b);
    MulAtLeast(max, b);
  }

  lemma {:induction false} PowerStep(x: nat, base: nat, n: nat)
    ensures x * Power(base, n + 1) == x * Power(base, n) * base
  {
    Associative(x, Power(base, n), base);
  }

  method BkmScale(x: nat, scaleFactor: nat, max: nat) returns (scaled: nat, overflow: bool)
    requires scaleFactor >= 1 && x <= max
    ensures scaled == Min(x * scaleFactor, max)
    ensures overflow <==> x * scaleFactor > max
  {
    QuotientBelow(max, scaleFactor, x);
    if max / scaleFactor < x {
      return max, true;
    }
    return x * scaleFactor, false;
  }

  /** Scaling by a power is exact: the result is the true product or, when that is too large, the maximum,
      and overflow is reported exactly then. */
  method BkmScaleByPower(x: nat, base: nat, power: nat, max: nat) returns (scaled: nat, overflow: bool)
    requires base >= 1 && x <= max
    ensures scaled == Min(x * Power(base, power), max)
    ensures overflow <==> x * Power(base, power) > max
  {
    assert Power(base, 0) == 1;
    hide Power;
    scaled, overflow := x, false;
    var left := power;
    ghost var done, product := 0, x;
    while left > 0
      invariant left + done == power && product == x * Power(base, done)
      invariant scaled == Min(product, max)
      invariant overflow <==> product > max
    {
      PowerStep(x, base, done);
      SaturatedStep(product, base, max);
      var over;
      scaled, over := BkmScale(scaled, base, max);
      overflow := overflow || over;
      product := product * base;
      left, done := left - 1, done + 1;
    }
    assert done == power;
  }

  predicate IsSpace(c: char) {
    c == ' ' || '\t' <= c <= '\r'
  }

  predicate IsDigit(c: char) {
    '0' <= c <= '9'
  }

  function DigitsValue(s: string): nat
    requires forall i | 0 <= i < |s| :: IsDigit(s[i])
  {
    if s == [] then 0
    else
      assert IsDigit(s[|s| - 1]);
      DigitsValue(s[..|s| - 1]) * 10 + (s[|s| - 1] - '0') as nat
  }

  function SpacesEnd(s: string, i: nat): (k: nat)
    requires i <= |s|
    ensures i <= k <= |s| && (forall j | i <= j < k :: IsSpace(s[j])) && (k < |s| ==> !IsSpace(s[k]))
    decreases |s| - i
  {
    if i < |s| && IsSpace(s[i]) then SpacesEnd(s, i + 1) else i
  }

  function DigitsEnd(s: string, i: nat): (k: nat)
    requires i <= |s|
    ensures i <= k <= |s| && (forall j | i <= j < k :: IsDigit(s[j])) && (k < |s| ==> !IsDigit(s[k]))
    decreases |s| - i
  {
    if i < |s| && IsDigit(s[i]) then DigitsEnd(s, i + 1) else i
  }

  /** strtoumax in base 10 on a text without a minus sign: the true value of the number and where it ends;
      an end of 0 means that there is none. */
  function Strtoumax(s: string): (r: (nat, nat))
    ensures r.1 <= |s|
  {
    var i := SpacesEnd(s, 0);
    var j := if i < |s| && s[i] == '+' then i + 1 else i;
    var k := DigitsEnd(s, j);
    if k == j then (0, 0) else (DigitsValue(s[j..k]), k)
  }

  /** The character at p, or the terminating NUL. */
  function CharAt(s: string, p: nat): char {
    if p < |s| then s[p] else '\0'
  }

  /** The power of the base that a suffix letter stands for. */
  function Exponent(c: char): Option<nat> {
    match c
    case 'k' => Some(1)
    case 'K' => Some(1)
    case 'M' => Some(2)
    case 'm' => Some(2)
    case 'G' => Some(3)
    case 'g' => Some(3)
    case 'T' => Some(4)
    case 't' => Some(4)
    case 'P' => Some(5)
    case 'E' => Some(6)
    case 'Z' => Some(7)
    case 'Y' => Some(8)
    case _ => None
  }

  /** What a suffix letter multiplies with when its second suffix selects the given base. */
  function LetterFactor(c: char, base: nat): (f: Option<nat>)
    ensures base >= 1 && f.Some? ==> f.value >= 1
  {
    match c
    case 'b' => Some(512)
    case 'B' => Some(1024)
    case 'c' => Some(1)
    case 'w' => Some(2)
    case _ => if Exponent(c).Some? then Some(Power(base, Exponent(c).value)) else None
  }

  /** The base that the text behind a suffix letter selects, and how long letter and second suffix are. */
  function SecondSuffix(suffix: string, suffixes: string): (r: (nat, nat))
    requires suffix != ""
    ensures 1 <= r.1 <= |suffix| && r.0 >= 1
  {
    if '0' !in suffixes then (1024, 1)
    else if CharAt(suffix, 1) == 'i' && CharAt(suffix, 2) == 'B' then (1024, 3)
    else if CharAt(suffix, 1) == 'B' || CharAt(suffix, 1) == 'D' then (1000, 2)
    else (1024, 1)
  }

  /** The value stored and the flags for a number with some text behind it. */
  function Scaled(number: nat, suffix: string, max: nat, suffixes: string): (nat, StrtolError) {
    var plain := (Min(number, max), StrtolError(number > max, suffix != "", false));
    if suffix == "" || suffix[0] !in suffixes then plain
    else
      var (base, length) := SecondSuffix(suffix, suffixes);
      match LetterFactor(suffix[0], base)
      case None => plain
      case Some(f) => (Min(number * f, max), StrtolError(number * f > max, |suffix| > length, false))
  }

  /** What __xstrtol stores, if anything, and returns for an unsigned type with the given maximum. */
  function Result(s: string, max: nat, validSuffixes: Option<string>): (Option<nat>, StrtolError) {
    var (n, end) := Strtoumax(s);
    if CharAt(s, SpacesEnd(s, 0)) == '-' then (None, LONGINT_INVALID)
    else if end == 0 && !(validSuffixes.Some? && s != "" && s[0] in validSuffixes.value) then (None, LONGINT_INVALID)
    else
      var number := if end == 0 then 1 else n;
      if validSuffixes == None then (Some(Min(number, max)), StrtolError(number > max, false, false))
      else
        var (value, err) := Scaled(number, s[end..], max, validSuffixes.value);
        (Some(value), err)
  }

  /** The switch over the suffix letter; None is its default branch. */
  method ScaleByLetter(x: nat, c: char, base: nat, max: nat) returns (scaled: nat, overflow: Option<bool>)
    requires base >= 1 && x <= max
    ensures overflow.None? <==> LetterFactor(c, base).None?
    ensures overflow.None? ==> scaled == x
    ensures overflow.Some? ==> scaled == Min(x * LetterFactor(c, base).value, max)
    ensures overflow.Some? ==> (overflow.value <==> x * LetterFactor(c, base).value > max)
  {
    hide Power;
    var over;
    match c {
      case 'b' => scaled, over := BkmScale(x, 512, max);
      case 'B' => scaled, over := BkmScale(x, 1024, max);
      case 'c' => scaled, over := x, false;
      case 'E' => scaled, over := BkmScaleByPower(x, base, 6, max);
      case 'G' => scaled, over := BkmScaleByPower(x, base, 3, max);
      case 'g' => scaled, over := BkmScaleByPower(x, base, 3, max);
      case 'k' => scaled, over := BkmScaleByPower(x, base, 1, max);
      case 'K' => scaled, over := BkmScaleByPower(x, base, 1, max);
      case 'M' => scaled, over := BkmScaleByPower(x, base, 2, max);
      case 'm' => scaled, over := BkmScaleByPower(x, base, 2, max);
      case 'P' => scaled, over := BkmScaleByPower(x, base, 5, max);
      case 'T' => scaled, over := BkmScaleByPower(x, base, 4, max);
      case 't' => scaled, over := BkmScaleByPower(x, base, 4, max);
      case 'w' => scaled, over := BkmScale(x, 2, max);
      case 'Y' => scaled, over := BkmScaleByPower(x, base, 8, max);
      case 'Z' => scaled, over := BkmScaleByPower(x, base, 7, max);
      case _ => return x, None;
    }
    overflow := Some(over);
  }

  /** The loop that looks for a sign. */
  method SkipSpaces(s: string) returns (q: nat)
    ensures q == SpacesEnd(s, 0)
  {
    q := 0;
    while IsSpace(CharAt(s, q))
      invariant q <= |s| && SpacesEnd(s, q) == SpacesEnd(s, 0)
      decreases |s| - q
    {
      q := q + 1;
    }
  }

  /** The switch over p[0][1]: the base and the number of characters that belong to the suffix at p. */
  method SelectBase(s: string, p: nat, validSuffixes: string) returns (base: nat, suffixes: nat)
    requires p < |s| && '\0' !in s
    ensures (base, suffixes) == SecondSuffix(s[p..], validSuffixes)
  {
    base, suffixes := 1024, 1;
    assert forall i | 0 <= i :: CharAt(s[p..], i) == CharAt(s, p + i);
    if '0' in validSuffixes {
      match CharAt(s, p + 1) {
        case 'i' =>
          if CharAt(s, p + 2) == 'B' {
            suffixes := suffixes + 2;
          }
        case 'B' => base, suffixes := 1000, suffixes + 1;
        case 'D' => base, suffixes := 1000, suffixes + 1;
        case _ =>
      }
    }
  }

  /** __xstrtol for an unsigned type, in base 10: what is stored in *val, if anything, and the flags returned. */
  method XStrtol(s: string, max: nat, validSuffixes: Option<string>) returns (val: Option<nat>, err: StrtolError)
    requires '\0' !in s && max >= 1
    ensures (val, err) == Result(s, max, validSuffixes)
  {
    hide LetterFactor, DigitsValue, SpacesEnd, DigitsEnd, Strtoumax, SecondSuffix, Power;
    var q := SkipSpaces(s);
    if CharAt(s, q) == '-' {
      return None, LONGINT_INVALID;
    }
    var (number, p) := Strtoumax(s);
    var tmp := Min(number, max);
    err := StrtolError(number > max, false, false);
    if p == 0 {
      if validSuffixes.Some? && CharAt(s, p) != '\0' && CharAt(s, p) in validSuffixes.value {
        tmp, err := 1, LONGINT_OK;
        number := 1;
      } else {
        return None, LONGINT_INVALID;
      }
    }
    if validSuffixes.None? {
      return Some(tmp), err;
    }
    ghost var suffix := s[p..];
    if CharAt(s, p) != '\0' {
      assert suffix[0] == s[p];
      if CharAt(s, p) !in validSuffixes.value {
        return Some(tmp), err.(invalidSuffixChar := true);
      }
      var base, suffixes := SelectBase(s, p, validSuffixes.value);
      var scaled, overflow := ScaleByLetter(tmp, CharAt(s, p), base, max);
      if overflow.None? {
        return Some(tmp), err.(invalidSuffixChar := true);
      }
      SaturatedStep(number, LetterFactor(s[p], base).value, max);
      tmp := scaled;
      err := err.(overflow := err.overflow || overflow.value);
      p := p + suffixes;
      if CharAt(s, p) != '\0' {
        err := err.(invalidSuffixChar := true);
      }
    }
    return Some(tmp), err;
  }
}
