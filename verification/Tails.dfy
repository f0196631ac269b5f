/** What "the last n lines" and "the last n bytes" of a byte string mean. */
module Tails {

  type Byte = x: int | 0 <= x < 256

  const NEWLINE: Byte := 10

  /** The unit a tail is measured in, with the number of units asked for. */
  datatype Units = LastLines(n: nat) | LastBytes(n: nat)

  function Newlines(s: seq<Byte>): (k: nat)
    ensures k <= |s|
  {
    if s == [] then 0 else (if s[0] == NEWLINE then 1 else 0) + Newlines(s[1..])
  }

  /** The offset just behind the k-th newline of s (0 when k is 0). */
  function AfterNewlines(s: seq<Byte>, k: nat): (p: nat)
    requires k <= Newlines(s)
    ensures p <= |s|
  {
    if k == 0 then 0
    else 1 + AfterNewlines(s[1..], if s[0] == NEWLINE then k - 1 else k)
  }

  /** How many units s holds. An unfinished last line is not counted. */
  function Count(u: Units, s: seq<Byte>): nat {
    if u.LastLines? then Newlines(s) else |s|
  }

  /** How many units precede the tail. */
  function Excess(u: Units, s: seq<Byte>): nat {
    if Count(u, s) > u.n then Count(u, s) - u.n else 0
  }

  /** The offset at which the tail of s begins. */
  function Start(u: Units, s: seq<Byte>): (p: nat)
    ensures p <= |s|
  {
    if u.LastLines? then AfterNewlines(s, Excess(u, s)) else Excess(u, s)
  }

  function Tail(u: Units, s: seq<Byte>): seq<Byte> {
    s[Start(u, s)..]
  }

  function Shorter(a: seq<Byte>, b: seq<Byte>): seq<Byte> {
    if |a| <= |b| then a else b
  }

  lemma {:induction false} ConcatAssociative(a: seq<Byte>, b: seq<Byte>, c: seq<Byte>)
    ensures a + b + c == a + (b + c)
  {
  }

  lemma {:induction false} CutConcat(a: seq<Byte>, b: seq<Byte>, n: nat)
    requires n <= |a|
    ensures (a + b)[..n] == a[..n]
    ensures (a + b)[n..] == a[n..] + b
  {
  }

  lemma {:induction false} NewlinesConcat(a: seq<Byte>, b: seq<Byte>)
    ensures Newlines(a + b) == Newlines(a) + Newlines(b)
  {
    if a == [] {
      assert a + b == b;
    } else {
      NewlinesConcat(a[1..], b);
      assert (a + b)[1..] == a[1..] + b;
    }
  }

  lemma {:induction false} AfterNewlinesStep(s: seq<Byte>, k: nat)
    requires s != []
    ensures Newlines(s) == (if s[0] == NEWLINE then 1 else 0) + Newlines(s[1..])
    ensures 0 < k <= Newlines(s) ==>
              AfterNewlines(s, k) == 1 + AfterNewlines(s[1..], if s[0] == NEWLINE then k - 1 else k)
  {
  }

  lemma {:induction false} AfterNoNewline(s: seq<Byte>)
    ensures AfterNewlines(s, 0) == 0 && Newlines([]) == 0
  {
  }

  lemma {:induction false} AfterNewlinesConcat(a: seq<Byte>, b: seq<Byte>, k: nat)
    requires k <= Newlines(a) + Newlines(b)
    ensures Newlines(a + b) == Newlines(a) + Newlines(b)
    ensures k <= Newlines(a) ==> AfterNewlines(a + b, k) == AfterNewlines(a, k)
    ensures k > Newlines(a) ==> AfterNewlines(a + b, k) == |a| + AfterNewlines(b, k - Newlines(a))
  {
    hide Newlines, AfterNewlines;
    NewlinesConcat(a, b);
    AfterNoNewline(a);
    AfterNoNewline(a + b);
    if a == [] {
      assert a + b == b;
    } else if k > 0 {
      var j := if a[0] == NEWLINE then k - 1 else k;
      AfterNewlinesStep(a, k);
      AfterNewlinesStep(a + b, k);
      assert (a + b)[1..] == a[1..] + b;
      AfterNewlinesConcat(a[1..], b, j);
      AfterNoNewline(b);
    }
  }

  /** Offset p cuts off exactly k newlines and, unless it is 0, follows a newline. */
  ghost predicate CutsOff(s: seq<Byte>, k: nat, p: nat)
    requires p <= |s|
  {
    Newlines(s[..p]) == k && (p > 0 ==> s[p - 1] == NEWLINE)
  }

  lemma {:induction false} AfterNewlinesCutsOff(s: seq<Byte>, k: nat)
    requires k <= Newlines(s)
    ensures CutsOff(s, k, AfterNewlines(s, k))
  {
    if k > 0 {
      var k' := if s[0] == NEWLINE then k - 1 else k;
      var p := AfterNewlines(s[1..], k');
      AfterNewlinesCutsOff(s[1..], k');
      assert s[..p + 1] == [s[0]] + s[1..][..p];
    }
  }

  lemma {:induction false} CutIsUnique(s: seq<Byte>, k: nat, p: nat, q: nat)
    requires p < q <= |s| && CutsOff(s, k, p)
    ensures !CutsOff(s, k, q)
  {
    if s[q - 1] == NEWLINE {
      NewlinesConcat(s[..p], s[p..q]);
      assert s[..p] + s[p..q] == s[..q];
      NewlinesConcat(s[p..q - 1], [s[q - 1]]);
      assert s[p..q - 1] + [s[q - 1]] == s[p..q];
    }
  }

  /** The offset behind the k-th newline is the only one that cuts off k newlines at a line's beginning. */
  lemma {:induction false} AfterNewlinesIsTheCut(s: seq<Byte>, k: nat, p: nat)
    requires k <= Newlines(s) && p <= |s|
    ensures p == AfterNewlines(s, k) <==> CutsOff(s, k, p)
  {
    var q := AfterNewlines(s, k);
    AfterNewlinesCutsOff(s, k);
    if p < q && CutsOff(s, k, p) {
      CutIsUnique(s, k, p, q);
    } else if q < p {
      CutIsUnique(s, k, q, p);
    }
  }

  lemma {:induction false} AfterNewlinesMonotone(s: seq<Byte>, j: nat, k: nat)
    requires j <= k <= Newlines(s)
    ensures AfterNewlines(s, j) <= AfterNewlines(s, k)
    ensures j < k ==> AfterNewlines(s, j) < AfterNewlines(s, k)
  {
    if j > 0 {
      var d := if s[0] == NEWLINE then 1 else 0;
      AfterNewlinesMonotone(s[1..], j - d, k - d);
    }
  }

  lemma {:induction false} CountConcat(u: Units, a: seq<Byte>, b: seq<Byte>)
    ensures Count(u, a + b) == Count(u, a) + Count(u, b)
  {
    NewlinesConcat(a, b);
  }

  /** Appending never moves the beginning of the tail backwards. */
  lemma {:induction false} StartMonotone(u: Units, s: seq<Byte>, d: seq<Byte>)
    ensures Start(u, s) <= Start(u, s + d)
  {
    CountConcat(u, s, d);
    if u.LastLines? {
      AfterNewlinesConcat(s, d, Excess(u, s));
      AfterNewlinesMonotone(s + d, Excess(u, s), Excess(u, s + d));
    }
  }

  /** Where a suffix's tail begins: at the tail of the whole or, when that is longer, at the cut. */
  lemma {:induction false} StartOfSuffix(u: Units, a: seq<Byte>, b: seq<Byte>)
    ensures |a| + Start(u, b) == if Start(u, a + b) >= |a| then Start(u, a + b) else |a|
  {
    CountConcat(u, a, b);
    if u.LastLines? {
      var k := Excess(u, a + b);
      AfterNewlinesConcat(a, b, k);
    }
  }

  /** A suffix that holds more than n units has the same tail as the whole. */
  lemma {:induction false} TailOfLargeSuffix(u: Units, a: seq<Byte>, b: seq<Byte>)
    requires Count(u, b) > u.n
    ensures Start(u, a + b) == |a| + Start(u, b)
    ensures Tail(u, a + b) == Tail(u, b)
  {
    CountConcat(u, a, b);
    if u.LastLines? {
      AfterNewlinesConcat(a, b, Excess(u, a + b));
    }
  }

  /** A tail of a tail is the shorter of the two tails, whatever their units. */
  lemma {:induction false} TailCompose(client: Units, server: Units, s: seq<Byte>)
    ensures Tail(client, Tail(server, s)) == Shorter(Tail(server, s), Tail(client, s))
  {
    var p := Start(server, s);
    StartOfSuffix(client, s[..p], s[p..]);
    assert s[..p] + s[p..] == s;
  }

  /** In equal units the composition asks for the smaller number. */
  lemma {:induction false} TailComposeLines(m: nat, n: nat, s: seq<Byte>)
    ensures Tail(LastLines(m), Tail(LastLines(n), s)) == Tail(LastLines(if m <= n then m else n), s)
  {
    hide Newlines, AfterNewlines;
    TailCompose(LastLines(m), LastLines(n), s);
    var j, k := Excess(LastLines(m), s), Excess(LastLines(n), s);
    if j <= k {
      AfterNewlinesMonotone(s, j, k);
    } else {
      AfterNewlinesMonotone(s, k, j);
    }
  }

  lemma {:induction false} TailComposeBytes(m: nat, n: nat, s: seq<Byte>)
    ensures Tail(LastBytes(m), Tail(LastBytes(n), s)) == Tail(LastBytes(if m <= n then m else n), s)
  {
    TailCompose(LastBytes(m), LastBytes(n), s);
  }

  /** The last n bytes are a suffix of min(n, |s|) bytes. */
  lemma {:induction false} LastBytesLength(n: nat, s: seq<Byte>)
    ensures |Tail(LastBytes(n), s)| == if n <= |s| then n else |s|
    ensures s[..|s| - |Tail(LastBytes(n), s)|] + Tail(LastBytes(n), s) == s
  {
  }

  /** At most n lines are everything... */
  lemma {:induction false} FewLinesMeaning(n: nat, s: seq<Byte>)
    requires Newlines(s) <= n
    ensures Tail(LastLines(n), s) == s
  {
    assert AfterNewlines(s, 0) == 0;
  }

  /** ...and of more, the last n are the suffix that holds exactly n newlines and follows a newline. */
  lemma {:induction false} LastLinesMeaning(n: nat, s: seq<Byte>, p: nat)
    requires Newlines(s) > n && 0 < p <= |s|
    ensures p == Start(LastLines(n), s) <==> Newlines(s[p..]) == n && s[p - 1] == NEWLINE
    ensures Start(LastLines(n), s) > 0
  {
    hide Newlines;
    NewlinesConcat(s[..p], s[p..]);
    assert s[..p] + s[p..] == s;
    AfterNewlinesIsTheCut(s, Newlines(s) - n, p);
  }

  lemma {:induction false} TailOfNothing(u: Units)
    ensures Tail(u, []) == []
  {
    hide Newlines, AfterNewlines;
    assert |Tail(u, [])| == 0;
  }
}
