/** Where the tail of a chain of blocks begins, and how src/buffer.c finds it: memchr, size_t counters, prefix
    sums over the chain. */
module TailSearch {
  import opened Options
  import opened Arithmetic
  import opened Tails
  import opened Blocks

  /** The value of a size_t that x is stored in. */
  function Wrap(x: int): (w: nat)
    ensures w < WORD_MODULUS
    ensures 0 <= x < WORD_MODULUS ==> w == x
  {
    x % WORD_MODULUS
  }

  function SizeAdd(a: nat, b: nat): nat {
    Wrap(a + b)
  }

  function SizeSub(a: nat, b: nat): nat {
    Wrap(a - b)
  }

  lemma {:induction false} WrapMultiple(x: int, k: int)
    ensures Wrap(x + k * WORD_MODULUS) == Wrap(x)
  {
  }

  /** Wrapping is compatible with sums and differences. */
  lemma {:induction false} WrapTwice(a: int, b: int)
    ensures SizeAdd(Wrap(a), Wrap(b)) == Wrap(a + b)
    ensures SizeSub(Wrap(a), Wrap(b)) == Wrap(a - b)
  {
    var p, q := a / WORD_MODULUS, b / WORD_MODULUS;
    assert Wrap(a) == a - p * WORD_MODULUS && Wrap(b) == b - q * WORD_MODULUS;
    WrapMultiple(a + b, -p - q);
    WrapMultiple(a - b, q - p);
  }

  /** memchr for a newline in s, beginning at offset from: where it is, or -1. */
  function Memchr(s: seq<Byte>, from: nat): (p: int)
    requires from <= |s|
    ensures p == -1 || from <= p < |s|
    ensures p != -1 ==> s[p] == NEWLINE && NEWLINE !in s[from..p]
    ensures p == -1 ==> NEWLINE !in s[from..]
    decreases |s| - from
  {
    if from == |s| then -1
    else if s[from] == NEWLINE then from
    else
      assert s[from..] == [s[from]] + s[from + 1..];
      var p := Memchr(s, from + 1);
      assert p != -1 ==> s[from..p] == [s[from]] + s[from + 1..p];
      p
  }

  lemma {:induction false} NoNewlines(s: seq<Byte>)
    requires NEWLINE !in s
    ensures Newlines(s) == 0
  {
    if s != [] {
      NoNewlines(s[1..]);
    }
  }

  lemma {:induction false} NewlinesUpTo(s: seq<Byte>, p: nat, q: nat)
    requires p <= q <= |s|
    ensures Newlines(s[..q]) == Newlines(s[..p]) + Newlines(s[p..q])
  {
    NewlinesConcat(s[..p], s[p..q]);
    assert s[..p] + s[p..q] == s[..q];
  }

  lemma {:induction false} OneMore(s: seq<Byte>, p: nat)
    requires p < |s|
    ensures Newlines(s[..p + 1]) == Newlines(s[..p]) + (if s[p] == NEWLINE then 1 else 0)
  {
    NewlinesConcat(s[..p], [s[p]]);
    assert s[..p] + [s[p]] == s[..p + 1];
    assert [s[p]][1..] == [];
  }

  lemma {:induction false} NewlinesOfPrefix(s: seq<Byte>, p: nat)
    requires p <= |s|
    ensures Newlines(s[..p]) <= Newlines(s)
  {
    hide Newlines;
    NewlinesConcat(s[..p], s[p..]);
    assert s[..p] + s[p..] == s;
  }

  lemma {:induction false} NewlineBehindCut(s: seq<Byte>, k: nat, beg: nat, p: nat)
    requires beg <= p < |s| && CutsOff(s, k, beg)
    requires NEWLINE !in s[beg..p] && s[p] == NEWLINE
    ensures CutsOff(s, k + 1, p + 1) && k < Newlines(s)
  {
    hide Newlines;
    NewlinesUpTo(s, beg, p);
    NoNewlines(s[beg..p]);
    OneMore(s, p);
    NewlinesOfPrefix(s, p + 1);
  }

  /** Searching on from behind the k-th newline finds the next one exactly when there is one. */
  lemma {:induction false} NextNewline(s: seq<Byte>, k: nat)
    requires k <= Newlines(s)
    ensures var p := Memchr(s, AfterNewlines(s, k));
            if k < Newlines(s) then p != -1 && p + 1 == AfterNewlines(s, k + 1) else p == -1
  {
    var beg := AfterNewlines(s, k);
    var p := Memchr(s, beg);
    AfterNewlinesCutsOff(s, k);
    if p == -1 {
      NoNewlines(s[beg..]);
      NewlinesConcat(s[..beg], s[beg..]);
      assert s[..beg] + s[beg..] == s;
    } else {
      NewlineBehindCut(s, k, beg, p);
      AfterNewlinesIsTheCut(s, k + 1, p + 1);
    }
  }

  lemma {:induction false} FromBeginning(s: seq<Byte>)
    ensures AfterNewlines(s, 0) == 0
  {
  }

  /** Where the line behind the first skip newlines of a block begins; None when the block has fewer. */
  function LineStart(s: seq<Byte>, skip: nat): Option<nat> {
    if skip <= Newlines(s) then Some(AfterNewlines(s, skip)) else None
  }

  /** The line behind more newlines than a and b hold begins behind both. */
  lemma {:induction false} LineBehindBlock(a: seq<Byte>, b: seq<Byte>, rest: seq<Byte>, k: nat)
    requires Newlines(a) + Newlines(b) < k <= Newlines(a + (b + rest))
    ensures AfterNewlines(a + (b + rest), k) >= |a| + |b| && rest != []
  {
    NewlinesConcat(b, rest);
    NewlinesConcat(a, b + rest);
    AfterNewlinesConcat(a, b + rest, k);
    AfterNewlinesConcat(b, rest, k - Newlines(a));
  }

  /** The line behind more newlines than a holds, but no more than a and b do, begins in b. */
  lemma {:induction false} LineInBlock(a: seq<Byte>, b: seq<Byte>, rest: seq<Byte>, k: nat)
    requires Newlines(a) < k <= Newlines(a) + Newlines(b)
    ensures k <= Newlines(a + (b + rest))
    ensures AfterNewlines(a + (b + rest), k) == |a| + AfterNewlines(b, k - Newlines(a))
  {
    NewlinesConcat(b, rest);
    AfterNewlinesConcat(a, b + rest, k);
    AfterNewlinesConcat(b, rest, k - Newlines(a));
  }

  /** The line behind no more newlines than a holds does not begin behind a. */
  lemma {:induction false} LineBeforeBlock(a: seq<Byte>, s: seq<Byte>, k: nat)
    requires k <= Newlines(a)
    ensures k <= Newlines(a + s)
    ensures AfterNewlines(a + s, k) <= |a|
  {
    AfterNewlinesConcat(a, s, k);
  }

  /** Where keep_track_of_tail_lines puts the tail in a block that holds d when, from there on, counted
      newlines are on record; None when its assertion fails. */
  function TailStartIn(n: nat, d: seq<Byte>, counted: nat): Option<nat> {
    if counted > n then LineStart(d, counted - n) else Some(0)
  }

  /** What an unset line count of the first spare block does while its content d is followed by no more than
      n lines: with k newlines on record, the tail is right if and only if the count happened to be 0 or both
      the record and the truth fit into the tail; the assertion fails if and only if more are to be skipped
      than the block has. */
  lemma {:induction false} UnsetSpareCount(n: nat, d: seq<Byte>, behind: nat, unset: nat)
    requires behind <= n && Newlines(d) + behind < WORD_MODULUS && unset < WORD_MODULUS
    ensures var lines, k := Newlines(d) + behind, Wrap(Newlines(d) + behind + unset);
            && (TailStartIn(n, d, k) == Some(AfterNewlines(d, if lines > n then lines - n else 0)) <==>
                unset == 0 || (k <= n && lines <= n))
            && (TailStartIn(n, d, k) == None <==> k > n + Newlines(d))
  {
    assert AfterNewlines(d, 0) == 0;
    var lines, k := Newlines(d) + behind, Wrap(Newlines(d) + behind + unset);
    if n < k <= n + Newlines(d) {
      var skip := if lines > n then lines - n else 0;
      if skip <= k - n {
        AfterNewlinesMonotone(d, skip, k - n);
      } else {
        AfterNewlinesMonotone(d, k - n, skip);
      }
    } else if k <= n < lines {
      AfterNewlinesMonotone(d, 0, lines - n);
    }
  }

  /** For the first input d, with nothing behind it: the program aborts if and only if the count exceeds n
      and does not wrap around. */
  lemma {:induction false} UnsetSpareCountAtFirst(n: nat, d: seq<Byte>, unset: nat)
    requires Newlines(d) < WORD_MODULUS && unset < WORD_MODULUS
    ensures TailStartIn(n, d, Wrap(Newlines(d) + unset)) == Some(Start(LastLines(n), d)) <==>
            unset == 0 || (Wrap(Newlines(d) + unset) <= n && Newlines(d) <= n)
    ensures TailStartIn(n, d, Wrap(Newlines(d) + unset)) == None <==>
            n < unset && Newlines(d) + unset < WORD_MODULUS
  {
    UnsetSpareCount(n, d, 0, unset);
  }

  /** With a count of 1 left in memory, the first input "A" in -n 0 mode aborts the program. */
  lemma {:induction false} UnsetSpareCountAborts()
    ensures TailStartIn(0, [65], Wrap(Newlines([65]) + 1)) == None
  {
    UnsetSpareCountAtFirst(0, [65], 1);
  }

  /** With that count and -n 1, the first input "\n" does not abort it, but the tail misses that line. */
  lemma {:induction false} UnsetSpareCountMisleads()
    ensures TailStartIn(1, [NEWLINE], Wrap(Newlines([NEWLINE]) + 1)) == Some(1)
    ensures Start(LastLines(1), [NEWLINE]) == 0
  {
    assert Newlines([NEWLINE]) == 1;
  }

  /** The bytes of the first t blocks, and how many units they hold. */
  ghost function BytesBefore(c: seq<seq<Byte>>, t: nat): nat
    requires t <= |c|
  {
    |Flat(c[..t])|
  }

  ghost function LinesBefore(c: seq<seq<Byte>>, t: nat): nat
    requires t <= |c|
  {
    Newlines(Flat(c[..t]))
  }

  lemma {:induction false} NothingBefore(c: seq<seq<Byte>>)
    ensures BytesBefore(c, 0) == LinesBefore(c, 0) == 0
  {
  }

  lemma {:induction false} BeforeNext(c: seq<seq<Byte>>, t: nat)
    requires t < |c|
    ensures BytesBefore(c, t + 1) == BytesBefore(c, t) + |c[t]| <= |Flat(c)|
    ensures LinesBefore(c, t + 1) == LinesBefore(c, t) + Newlines(c[t]) <= Newlines(Flat(c))
    ensures t + 1 == |c| ==> BytesBefore(c, t + 1) == |Flat(c)| && LinesBefore(c, t + 1) == Newlines(Flat(c))
  {
    hide Newlines;
    FlatSplit(c, t);
    NewlinesConcat(Flat(c[..t]), c[t]);
    assert c == c[..t + 1] + c[t + 1..];
    FlatConcat(c[..t + 1], c[t + 1..]);
    NewlinesConcat(Flat(c[..t + 1]), Flat(c[t + 1..]));
    assert t + 1 == |c| ==> c[..t + 1] == c;
  }

  /** Blocks that follow block t have the bytes behind it. */
  lemma {:induction false} BytesAfter(c: seq<seq<Byte>>, t: nat)
    requires t < |c| && BytesBefore(c, t + 1) < |Flat(c)|
    ensures t + 1 < |c|
  {
    BeforeNext(c, t);
  }

  lemma {:induction false} TailBehindBlock(n: nat, a: seq<Byte>, b: seq<Byte>, rest: seq<Byte>)
    requires Newlines(a + (b + rest)) - Newlines(a) - Newlines(b) > n
    ensures |a| + |b| <= Start(LastLines(n), a + (b + rest)) && rest != []
  {
    LineBehindBlock(a, b, rest, Newlines(a + (b + rest)) - n);
  }

  lemma {:induction false} TailInBlock(n: nat, a: seq<Byte>, b: seq<Byte>, rest: seq<Byte>)
    requires 0 < Newlines(a + (b + rest)) - Newlines(a) - n <= Newlines(b)
    ensures Start(LastLines(n), a + (b + rest)) == |a| + AfterNewlines(b, Newlines(a + (b + rest)) - Newlines(a) - n)
  {
    LineInBlock(a, b, rest, Newlines(a + (b + rest)) - n);
  }

  lemma {:induction false} TailAtBlock(n: nat, a: seq<Byte>, s: seq<Byte>)
    requires Newlines(a + s) - Newlines(a) <= n
    ensures Start(LastLines(n), a + s) <= |a|
  {
    LineBeforeBlock(a, s, Excess(LastLines(n), a + s));
  }

  /** A step of the skip loop in line mode: there is a next block, and the tail does not begin before it. */
  lemma {:induction false} SkipLinesStep(n: nat, c: seq<seq<Byte>>, t: nat)
    requires t < |c|
    requires Newlines(Flat(c)) - LinesBefore(c, t) - Newlines(c[t]) > n
    ensures t + 1 < |c|
    ensures BytesBefore(c, t + 1) <= Start(LastLines(n), Flat(c))
  {
    hide Newlines, AfterNewlines, Start;
    FlatSplit(c, t);
    TailBehindBlock(n, Flat(c[..t]), c[t], Flat(c[t + 1..]));
  }

  /** When the skip loop has stopped, the tail begins in its block... */
  lemma {:induction false} SkipLinesInside(n: nat, c: seq<seq<Byte>>, t: nat)
    requires t < |c|
    requires 0 < Newlines(Flat(c)) - LinesBefore(c, t) - n <= Newlines(c[t])
    ensures Start(LastLines(n), Flat(c)) ==
            BytesBefore(c, t) + AfterNewlines(c[t], Newlines(Flat(c)) - LinesBefore(c, t) - n)
  {
    hide Newlines, AfterNewlines, Start;
    FlatSplit(c, t);
    TailInBlock(n, Flat(c[..t]), c[t], Flat(c[t + 1..]));
  }

  /** ...or with it. */
  lemma {:induction false} SkipLinesAtStart(n: nat, c: seq<seq<Byte>>, t: nat)
    requires t < |c|
    requires Newlines(Flat(c)) - LinesBefore(c, t) <= n
    requires BytesBefore(c, t) <= Start(LastLines(n), Flat(c))
    ensures Start(LastLines(n), Flat(c)) == BytesBefore(c, t)
  {
    hide Newlines, AfterNewlines, Start;
    FlatSplit(c, t);
    TailAtBlock(n, Flat(c[..t]), Flat(c[t..]));
  }

  /** The chain's content after d came in: as a new block, or at the end of the last one. */
  function Extended(c: seq<seq<Byte>>, d: seq<Byte>, merge: bool): seq<seq<Byte>>
    requires |c| > 0
  {
    if merge then c[|c| - 1 := c[|c| - 1] + d] else c + [d]
  }

  lemma {:induction false} ExtendedCounts(u: Units, c: seq<seq<Byte>>, d: seq<Byte>, merge: bool, t: nat)
    requires t < |c|
    ensures var c' := Extended(c, d, merge);
            && Flat(c') == Flat(c) + d
            && BytesBefore(c', t) == BytesBefore(c, t)
            && LinesBefore(c', t) == LinesBefore(c, t)
            && Start(u, Flat(c)) <= Start(u, Flat(c'))
  {
    FlatExtendLast(c, d);
    StartMonotone(u, Flat(c), d);
    assert Extended(c, d, merge)[..t] == c[..t];
  }

  /** The history h is what was dropped, followed by the content c, and what was dropped lies in front
      of the tail. */
  ghost predicate RetainedIn(u: Units, h: seq<Byte>, dropped: seq<Byte>, c: seq<seq<Byte>>) {
    && h == dropped + Flat(c)
    && (dropped != [] ==> Count(u, Flat(c)) > u.n)
  }

  lemma {:induction false} SameSuffix(s: seq<Byte>, p: nat, q: nat)
    requires p <= |s| && q <= |s|
    ensures s[p..] == s[q..] <==> p == q
  {
  }

  lemma {:induction false} RetainedIsSuffix(u: Units, h: seq<Byte>, dropped: seq<Byte>, c: seq<seq<Byte>>)
    requires RetainedIn(u, h, dropped, c)
    ensures h == dropped + Flat(c)
  {
  }

  lemma {:induction false} RetainedTail(u: Units, h: seq<Byte>, dropped: seq<Byte>, c: seq<seq<Byte>>)
    requires RetainedIn(u, h, dropped, c)
    ensures Tail(u, h) == Tail(u, Flat(c))
  {
    hide Flat, Count, Start;
    if dropped != [] {
      TailOfLargeSuffix(u, dropped, Flat(c));
    } else {
      assert h == Flat(c);
    }
  }

  lemma {:induction false} RetainedExtended(u: Units, h: seq<Byte>, dropped: seq<Byte>, c: seq<seq<Byte>>,
                                            d: seq<Byte>, merge: bool)
    requires |c| > 0 && RetainedIn(u, h, dropped, c)
    ensures RetainedIn(u, h + d, dropped, Extended(c, d, merge))
  {
    hide Flat, Count;
    FlatExtendLast(c, d);
    CountConcat(u, Flat(c), d);
    assert h + d == dropped + (Flat(c) + d);
  }

  /** What is left when the first block goes still has the tail, if that block is empty or enough remains. */
  lemma {:induction false} DroppedRetained(u: Units, h: seq<Byte>, dropped: seq<Byte>, c: seq<seq<Byte>>)
    requires |c| > 0 && RetainedIn(u, h, dropped, c)
    requires c[0] == [] || Count(u, Flat(c)) - Count(u, c[0]) > u.n
    ensures RetainedIn(u, h, dropped + c[0], c[1..])
    ensures Start(u, Flat(c)) == |c[0]| + Start(u, Flat(c[1..]))
  {
    hide Newlines, AfterNewlines, Start, Count;
    CountConcat(u, c[0], Flat(c[1..]));
    assert h == (dropped + c[0]) + Flat(c[1..]);
    if c[0] == [] {
      assert Flat(c) == Flat(c[1..]) && dropped + c[0] == dropped;
    } else {
      TailOfLargeSuffix(u, c[0], Flat(c[1..]));
    }
  }

  /** The prefix sums when the first block goes. */
  lemma {:induction false} DroppedCounts(c: seq<seq<Byte>>, t: nat)
    requires 0 < t < |c|
    ensures |Flat(c)| == |c[0]| + |Flat(c[1..])|
    ensures Newlines(Flat(c)) == Newlines(c[0]) + Newlines(Flat(c[1..]))
    ensures BytesBefore(c, t) == |c[0]| + BytesBefore(c[1..], t - 1)
    ensures LinesBefore(c, t) == Newlines(c[0]) + LinesBefore(c[1..], t - 1)
  {
    hide Newlines;
    NewlinesConcat(c[0], Flat(c[1..]));
    assert c[..t][1..] == c[1..][..t - 1];
    NewlinesConcat(c[0], Flat(c[1..][..t - 1]));
  }

  lemma {:induction false} FirstBefore(c: seq<seq<Byte>>, t: nat)
    requires 0 < t <= |c|
    ensures |c[0]| <= BytesBefore(c, t) <= |Flat(c)|
    ensures Newlines(c[0]) <= LinesBefore(c, t) <= Newlines(Flat(c))
  {
    hide Newlines, AfterNewlines;
    NewlinesConcat(c[0], Flat(c[..t][1..]));
    FlatConcat(c[..t], c[t..]);
    assert c[..t] + c[t..] == c;
    NewlinesConcat(Flat(c[..t]), Flat(c[t..]));
  }
}
