/** The first line of a connection: the decimal length of the tail that follows. The server prints it
    (src/sockets.c), the client parses it byte by byte (src/clientconn.c). */
module Header {
  import opened Arithmetic
  import opened Tails

  const ZERO: Byte := 48
  const SSIZE_MAX := WORD_MODULUS / 2 - 1

  predicate IsDigit(b: Byte) {
    ZERO <= b < ZERO + 10
  }

  /** sprintf with %llu. */
  function Decimal(n: nat): (s: seq<Byte>)
    ensures |s| >= 1
    ensures forall i | 0 <= i < |s| :: IsDigit(s[i])
  {
    if n < 10 then [ZERO + n] else Decimal(n / 10) + [ZERO + n % 10]
  }

  /** The value of a digit string, read from the left. */
  function ValueOf(s: seq<Byte>): nat
    requires forall i | 0 <= i < |s| :: IsDigit(s[i])
  {
    if s == [] then 0
    else
      assert IsDigit(s[|s| - 1]);
      ValueOf(s[..|s| - 1]) * 10 + (s[|s| - 1] - ZERO)
  }

  /** Everything the server sends first: the length line and the tail t. */
  function Greeting(t: seq<Byte>): seq<Byte> {
    Decimal(|t|) + [NEWLINE] + t
  }

  lemma {:induction false} ValueOfDecimal(n: nat)
    ensures ValueOf(Decimal(n)) == n
  {
    if n >= 10 {
      ValueOfDecimal(n / 10);
      var s := Decimal(n);
      assert s[..|s| - 1] == Decimal(n / 10);
    } else {
      assert Decimal(n)[..0] == [];
    }
  }

  lemma {:induction false} ValueOfPrefix(s: seq<Byte>, k: nat)
    requires forall i | 0 <= i < |s| :: IsDigit(s[i])
    requires k <= |s|
    ensures ValueOf(s[..k]) <= ValueOf(s)
  {
    if k < |s| {
      ValueOfPrefix(s[..|s| - 1], k);
      assert s[..|s| - 1][..k] == s[..k];
    } else {
      assert s[..k] == s;
    }
  }

  /** No prefix of the printed length exceeds it, so reading value + 1 more bytes stays within the line
      and the tail. */
  lemma {:induction false} HeaderLowerBound(n: nat, k: nat)
    requires k <= |Decimal(n)|
    ensures ValueOf(Decimal(n)[..k]) + 1 <= (|Decimal(n)| - k) + 1 + n
    ensures ValueOf(Decimal(n)[..k]) <= n
  {
    ValueOfDecimal(n);
    ValueOfPrefix(Decimal(n), k);
  }

  /** The stored value of x in a signed 64-bit integer. */
  function WrapSSize(x: int): int {
    (x + SSIZE_MAX + 1) % WORD_MODULUS - SSIZE_MAX - 1
  }

  lemma {:induction false} WrapSmall(x: int)
    requires 0 <= x <= SSIZE_MAX
    ensures WrapSSize(x) == x
  {
  }

  /** The parser's state after some input: whether the line is complete, the number so far, how many of
      the bytes were used up, and whether the server broke the protocol. */
  datatype Parse = Parse(known: bool, size: int, used: nat, failed: bool)

  /** parse_server_buffer_size on the bytes buf. A protocol error uses up all of them. */
  function ParseFrom(size: int, buf: seq<Byte>): (p: Parse)
    ensures p.used <= |buf|
    ensures !p.known && !p.failed ==> p.used == |buf|
    ensures p.failed ==> p.used == |buf| && !p.known
    ensures size >= 0 && !p.failed ==> p.size >= 0
    decreases |buf|
  {
    if buf == [] then Parse(false, size, 0, false)
    else if IsDigit(buf[0]) then
      var size' := WrapSSize(size * 10 + (buf[0] - ZERO));
      if size' < 0 then Parse(false, size', |buf|, true)
      else
        var p := ParseFrom(size', buf[1..]);
        p.(used := p.used + 1)
    else if buf[0] == NEWLINE then Parse(true, size, 1, false)
    else Parse(false, size, |buf|, true)
  }

  lemma {:induction false} ValueOfOneMore(s: seq<Byte>, k: nat)
    requires forall i | 0 <= i < |s| :: IsDigit(s[i])
    requires k < |s|
    ensures ValueOf(s[..k + 1]) == ValueOf(s[..k]) * 10 + (s[k] - ZERO)
  {
    assert s[..k + 1][..k] == s[..k];
  }

  /** Byte i of the length line of a tail of n bytes. */
  function LineByte(n: nat, i: nat): Byte {
    if i < |Decimal(n)| then Decimal(n)[i] else NEWLINE
  }

  /** Whatever part of a well-formed stream comes next, the parser goes on to exactly the printed length
      and stops exactly behind the newline. */
  lemma {:induction false} ParseChunk(n: nat, k: nat, d: seq<Byte>)
    requires n <= SSIZE_MAX && k <= |Decimal(n)|
    requires forall i | 0 <= i < |d| && k + i <= |Decimal(n)| :: d[i] == LineByte(n, k + i)
    ensures var p := ParseFrom(ValueOf(Decimal(n)[..k]), d);
            if |d| <= |Decimal(n)| - k then p == Parse(false, ValueOf(Decimal(n)[..k + |d|]), |d|, false)
            else p == Parse(true, n, |Decimal(n)| - k + 1, false)
    decreases |d|
  {
    hide ValueOf, Decimal, WrapSSize;
    var s := Decimal(n);
    if d == [] {
    } else if k < |s| {
      assert d[0] == LineByte(n, k + 0) == s[k];
      ValueOfOneMore(s, k);
      HeaderLowerBound(n, k + 1);
      WrapSmall(ValueOf(s[..k + 1]));
      forall i | 0 <= i < |d[1..]| && k + 1 + i <= |s|
        ensures d[1..][i] == LineByte(n, k + 1 + i)
      {
        assert d[i + 1] == LineByte(n, k + (i + 1));
      }
      ParseChunk(n, k + 1, d[1..]);
    } else {
      assert d[0] == LineByte(n, k + 0) == NEWLINE;
      assert s[..k] == s;
      ValueOfDecimal(n);
    }
  }

  /** A byte that is neither a digit nor a newline, behind digits only, is a protocol error, and so is a number
      that becomes negative before it; either way all of the data is junk. */
  lemma {:induction false} BadByteFails(size: int, d: seq<Byte>, k: nat)
    requires k < |d| && !IsDigit(d[k]) && d[k] != NEWLINE && forall i | 0 <= i < k :: IsDigit(d[i])
    ensures ParseFrom(size, d).failed && ParseFrom(size, d).used == |d|
    decreases k
  {
    hide WrapSSize;
    if k > 0 {
      assert d[1..][k - 1] == d[k];
      BadByteFails(WrapSSize(size * 10 + (d[0] - ZERO)), d[1..], k - 1);
    }
  }

  /** So is a number that the digits make negative. */
  lemma {:induction false} NegativeFails(size: int, d: seq<Byte>)
    requires d != [] && IsDigit(d[0]) && WrapSSize(size * 10 + (d[0] - ZERO)) < 0
    ensures ParseFrom(size, d).failed && ParseFrom(size, d).used == |d|
  {
  }
}
