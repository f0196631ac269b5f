/** What the line count that src/buffer.c:312 leaves unset in the first spare block does to the search for the
    tail. The block that the first input ends up in keeps the stray count until it is dropped. */
module StrayCounts {
  import opened Options
  import opened Arithmetic
  import opened Tails
  import opened Blocks
  import opened TailSearch

  /** How many lines end behind block at. */
  ghost function LinesBehind(c: seq<seq<Byte>>, at: nat): nat
    requires at < |c|
  {
    Newlines(Flat(c[at + 1..]))
  }

  lemma {:induction false} LinesSplit(c: seq<seq<Byte>>, at: nat)
    requires at < |c|
    ensures Newlines(Flat(c)) == LinesBefore(c, at) + Newlines(c[at]) + LinesBehind(c, at)
    ensures LinesBefore(c, at + 1) == LinesBefore(c, at) + Newlines(c[at])
  {
    hide Newlines;
    FlatSplit(c, at);
    NewlinesConcat(Flat(c[..at]), Flat(c[at..]));
    NewlinesConcat(c[at], Flat(c[at + 1..]));
    NewlinesConcat(Flat(c[..at]), c[at]);
  }

  /** The stray count is in block at, or in none when at is negative. Nothing precedes that block. */
  ghost predicate PlacedIn(c: seq<seq<Byte>>, at: int) {
    at >= 0 ==> at < |c| && at <= 1 && c[at] != [] && (at == 1 ==> c[0] == [])
  }

  /** The stray count no longer matters. */
  ghost predicate SettledIn(n: nat, c: seq<seq<Byte>>, at: int) {
    0 <= at < |c| ==> LinesBehind(c, at) > n
  }

  /** The search may begin at block t. */
  ghost predicate ReadyIn(u: Units, c: seq<seq<Byte>>, at: int, t: nat)
    requires t < |c|
  {
    if SettledIn(u.n, c, at) then BytesBefore(c, t) <= Start(u, Flat(c)) && at <= t else t <= at + 1
  }

  lemma {:induction false} NothingBeforeStray(c: seq<seq<Byte>>, at: nat, t: nat)
    requires PlacedIn(c, at) && t <= at
    ensures BytesBefore(c, t) == LinesBefore(c, t) == 0
  {
    NothingBefore(c);
    if t == 1 {
      BeforeNext(c, 0);
      assert Newlines(c[0]) == 0;
    }
  }

  /** How much of a stray count is recorded for the first t blocks. */
  ghost function StraysIn(at: int, unset: nat, t: nat): nat {
    if 0 <= at < t then unset else 0
  }

  lemma {:induction false} LinesFit(c: seq<seq<Byte>>, t: nat)
    requires t <= |c| && |Flat(c)| < WORD_MODULUS
    ensures 0 <= LinesBefore(c, t) <= Newlines(Flat(c)) < WORD_MODULUS
  {
    hide Newlines;
    FlatCut(c, t);
    NewlinesConcat(Flat(c[..t]), Flat(c[t..]));
  }

  /** The lines behind block t, as the counters have them when the search begins there. */
  lemma {:induction false} BehindMeans(u: Units, c: seq<seq<Byte>>, at: int, unset: nat, t: nat)
    requires t < |c| && PlacedIn(c, at) && ReadyIn(u, c, at, t) && |Flat(c)| < WORD_MODULUS
    ensures var lines := Newlines(Flat(c));
            var behind := Wrap(lines - LinesBefore(c, t + 1) + StraysIn(at, unset, |c|) - StraysIn(at, unset, t + 1));
            && (SettledIn(u.n, c, at) ==> behind == lines - LinesBefore(c, t + 1))
            && (!SettledIn(u.n, c, at) && at <= t ==> behind <= u.n)
            && (!SettledIn(u.n, c, at) && t < at ==> behind == Wrap(lines + unset))
  {
    hide Newlines, AfterNewlines, Flat, LinesBefore, BytesBefore, Start, Wrap;
    LinesFit(c, t + 1);
    if !SettledIn(u.n, c, at) {
      LinesSplit(c, at);
      if t < at {
        NothingBeforeStray(c, at, t + 1);
      } else {
        LinesSplit(c, t);
      }
    }
  }

  /** As long as there are too many of them, the search may begin at the next block. */
  lemma {:induction false} ReadyNext(u: Units, c: seq<seq<Byte>>, at: int, unset: nat, t: nat, behind: nat)
    requires t < |c| && PlacedIn(c, at) && ReadyIn(u, c, at, t) && u.LastLines? && behind > u.n
    requires SettledIn(u.n, c, at) ==> behind == Newlines(Flat(c)) - LinesBefore(c, t + 1)
    requires !SettledIn(u.n, c, at) && at <= t ==> behind <= u.n
    ensures t + 1 < |c| && ReadyIn(u, c, at, t + 1)
    ensures !SettledIn(u.n, c, at) ==> t < at
  {
    hide Newlines, AfterNewlines, Flat, LinesBefore, BytesBefore, Start;
    if SettledIn(u.n, c, at) {
      LinesSplit(c, t);
      SkipLinesStep(u.n, c, t);
    }
  }

  /** The lines from block t on, when the search has gone as far as it can. */
  lemma {:induction false} OnwardMeans(u: Units, c: seq<seq<Byte>>, at: int, unset: nat, t: nat)
    requires t < |c| && PlacedIn(c, at) && ReadyIn(u, c, at, t) && |Flat(c)| < WORD_MODULUS
    requires SettledIn(u.n, c, at) && at >= 0 ==> at < t
    ensures var lines := Newlines(Flat(c));
            var counted := Wrap(lines - LinesBefore(c, t) + StraysIn(at, unset, |c|) - StraysIn(at, unset, t));
            && (SettledIn(u.n, c, at) ==> counted == lines - LinesBefore(c, t))
            && (!SettledIn(u.n, c, at) && t <= at ==> counted == Wrap(lines + unset))
            && (!SettledIn(u.n, c, at) && at < t ==> counted == LinesBehind(c, at))
  {
    hide Newlines, AfterNewlines, Flat, LinesBefore, BytesBefore, Start, Wrap, LinesBehind;
    LinesFit(c, t);
    if !SettledIn(u.n, c, at) {
      LinesSplit(c, at);
      if t <= at {
        NothingBeforeStray(c, at, t);
      }
    }
  }

  lemma {:induction false} BehindExtended(c: seq<seq<Byte>>, d: seq<Byte>, merge: bool, at: nat)
    requires at < |c|
    ensures var c' := Extended(c, d, merge);
            LinesBehind(c', at) == if merge && at == |c| - 1 then 0 else LinesBehind(c, at) + Newlines(d)
    ensures at == |c| - 1 ==> LinesBehind(c, at) == 0
  {
    hide Newlines;
    assert Newlines(Flat([])) == 0 by {
      NoNewlines([]);
    }
    var c' := Extended(c, d, merge);
    if at < |c| - 1 {
      var rest := c[at + 1..];
      assert c'[at + 1..] == Extended(rest, d, merge);
      FlatExtendLast(rest, d);
      NewlinesConcat(Flat(rest), d);
    } else if merge {
      assert c'[at + 1..] == [];
    } else {
      assert c'[at + 1..] == [d];
      FlatSingle(d);
    }
  }

  /** The first input goes to the only block, or to a second one, with the stray count. */
  lemma {:induction false} FirstReady(u: Units, d: seq<Byte>, merge: bool)
    requires d != []
    ensures var c', at := Extended([[]], d, merge), if merge then 0 else 1;
            PlacedIn(c', at) && LinesBehind(c', at) == 0 && ReadyIn(u, c', at, 0)
  {
    var c', at := Extended([[]], d, merge), if merge then 0 else 1;
    assert [] + d == d;
    assert c'[at + 1..] == [];
  }

  /** More input leaves the stray count where it is; once settled, it stays settled. */
  lemma {:induction false} ReadyExtended(u: Units, c: seq<seq<Byte>>, at: int, t: nat, d: seq<Byte>, merge: bool)
    requires t < |c| && PlacedIn(c, at) && ReadyIn(u, c, at, t) && at <= t && u.LastLines?
    ensures PlacedIn(Extended(c, d, merge), at) && ReadyIn(u, Extended(c, d, merge), at, t)
    ensures SettledIn(u.n, c, at) ==> SettledIn(u.n, Extended(c, d, merge), at)
  {
    hide Newlines, AfterNewlines, Flat, Start;
    var c' := Extended(c, d, merge);
    ExtendedCounts(u, c, d, merge, t);
    if at >= 0 {
      BehindExtended(c, d, merge, at);
      if SettledIn(u.n, c', at) && !SettledIn(u.n, c, at) {
        LinesSplit(c', at);
        SkipLinesStep(u.n, c', at);
        BeforeNext(c', at);
        assert t == at || t == at + 1;
        BytesMonotone(c', at);
      }
    }
  }

  lemma {:induction false} BytesMonotone(c: seq<seq<Byte>>, t: nat)
    requires t < |c|
    ensures BytesBefore(c, t) <= BytesBefore(c, t + 1)
  {
    BeforeNext(c, t);
  }

  /** Where the search ends, before a look at whether the block is exhausted. */
  ghost predicate FoundIn(u: Units, c: seq<seq<Byte>>, at: int, unset: nat, t: nat, off: nat) {
    && t < |c| && off <= |c[t]|
    && if SettledIn(u.n, c, at) then BytesBefore(c, t) + off == Start(u, Flat(c)) && at <= t
       else if t < at then off == 0 && Wrap(Newlines(Flat(c)) + unset) <= u.n
       else if t == at then TailStartIn(u.n, c[t], Wrap(Newlines(Flat(c)) + unset)) == Some(off)
       else t == at + 1 && off == 0
  }

  /** When the skip loop stops in the settled case, no more than n lines follow, so it has passed the stray
      count. */
  lemma {:induction false} StoppedIn(u: Units, c: seq<seq<Byte>>, at: int, unset: nat, t: nat, behind: nat)
    requires t < |c| && PlacedIn(c, at) && ReadyIn(u, c, at, t) && behind <= u.n
    requires SettledIn(u.n, c, at) ==> behind == Newlines(Flat(c)) - LinesBefore(c, t + 1)
    requires !SettledIn(u.n, c, at) && t < at ==> behind == Wrap(Newlines(Flat(c)) + unset)
    ensures SettledIn(u.n, c, at) ==>
              Newlines(Flat(c)) - LinesBefore(c, t) - Newlines(c[t]) <= u.n && (at >= 0 ==> at < t)
    ensures !SettledIn(u.n, c, at) && t < at ==> Wrap(Newlines(Flat(c)) + unset) <= u.n
  {
    hide Newlines, AfterNewlines, Flat, LinesBefore, BytesBefore, Start, Wrap;
    LinesSplit(c, t);
  }

  /** The offset in the block where the skip loop has stopped. */
  lemma {:induction false} OffsetFound(u: Units, c: seq<seq<Byte>>, at: int, unset: nat, t: nat, counted: nat,
                                       r: Option<nat>)
    requires t < |c| && PlacedIn(c, at) && ReadyIn(u, c, at, t) && u.LastLines?
    requires r == TailStartIn(u.n, c[t], counted)
    requires SettledIn(u.n, c, at) ==>
               Newlines(Flat(c)) - LinesBefore(c, t) - Newlines(c[t]) <= u.n && (at >= 0 ==> at < t)
    requires !SettledIn(u.n, c, at) && t < at ==> Wrap(Newlines(Flat(c)) + unset) <= u.n
    requires SettledIn(u.n, c, at) ==> counted == Newlines(Flat(c)) - LinesBefore(c, t)
    requires !SettledIn(u.n, c, at) && t <= at ==> counted == Wrap(Newlines(Flat(c)) + unset)
    requires !SettledIn(u.n, c, at) && at < t ==> counted == LinesBehind(c, at)
    ensures r.None? <==> AbortsIn(u.n, c, at, unset, t)
    ensures r.Some? ==> FoundIn(u, c, at, unset, t, r.value)
  {
    hide Newlines, AfterNewlines, Flat, LinesBefore, BytesBefore, Start, Wrap;
    if SettledIn(u.n, c, at) {
      if counted > u.n {
        SkipLinesInside(u.n, c, t);
      } else {
        SkipLinesAtStart(u.n, c, t);
      }
    }
  }

  /** Moving on from an exhausted block. */
  lemma {:induction false} FoundNext(u: Units, c: seq<seq<Byte>>, at: int, unset: nat, t: nat, off: nat)
    requires PlacedIn(c, at) && FoundIn(u, c, at, unset, t, off)
    requires forall i | 0 < i < |c| :: c[i] != []
    ensures off == |c[t]| && t + 1 < |c| ==> FoundIn(u, c, at, unset, t + 1, 0) && at <= t + 1
    ensures !(off == |c[t]| && t + 1 < |c|) ==> at <= t
  {
    hide Newlines, AfterNewlines, Flat, Start, BytesBefore;
    if t + 1 < |c| {
      BeforeNext(c, t);
    }
  }

  lemma {:induction false} FoundIsInside(u: Units, c: seq<seq<Byte>>, at: int, unset: nat, t: nat, off: nat)
    requires FoundIn(u, c, at, unset, t, off)
    ensures t < |c| && off <= |c[t]|
  {
  }

  lemma {:induction false} FoundExactly(u: Units, c: seq<seq<Byte>>, at: int, unset: nat, t: nat, off: nat)
    requires FoundIn(u, c, at, unset, t, off) && at < 0
    ensures t < |c| && off <= |c[t]| && BytesBefore(c, t) + off == Start(u, Flat(c))
  {
  }

  /** When an unneeded first block goes. */
  lemma {:induction false} FoundDropped(u: Units, c: seq<seq<Byte>>, at: int, unset: nat, t: nat, off: nat)
    requires PlacedIn(c, at) && FoundIn(u, c, at, unset, t, off) && 0 < t && at <= t
    requires c[0] == [] || Count(u, Flat(c)) - Count(u, c[0]) > u.n
    requires at >= 0 ==> u.LastLines?
    ensures FoundIn(u, c[1..], at - 1, unset, t - 1, off) && PlacedIn(c[1..], at - 1)
    ensures BytesBefore(c, t) + off == Start(u, Flat(c)) <==>
            BytesBefore(c[1..], t - 1) + off == Start(u, Flat(c[1..]))
    ensures 0 <= at - 1 < |c[1..]| && !SettledIn(u.n, c[1..], at - 1) ==> !SettledIn(u.n, c, at)
  {
    hide Newlines, AfterNewlines, Start, BytesBefore, LinesBefore;
    DroppedCounts(c, t);
    DroppedRetained(u, Flat(c), [], c);
    if at >= 0 {
      NothingBefore(c);
      LinesSplit(c, 0);
      if at == 1 {
        assert c[1..][1..] == c[2..];
        assert Flat(c) == Flat(c[1..]);
      }
    }
  }

  /** The assertion in the search fails. */
  ghost predicate AbortsIn(n: nat, c: seq<seq<Byte>>, at: int, unset: nat, t: nat) {
    0 <= at < |c| && t <= at && LinesBehind(c, at) <= n && Wrap(Newlines(Flat(c)) + unset) > n + Newlines(c[at])
  }

  lemma {:induction false} AbortsLater(n: nat, c: seq<seq<Byte>>, at: int, unset: nat, t: nat, t': nat)
    requires t <= t' && (!SettledIn(n, c, at) && t <= at ==> t' <= at)
    ensures AbortsIn(n, c, at, unset, t') == AbortsIn(n, c, at, unset, t)
  {
  }

  /** How far the skip loop gets from block t when the stray count is not settled. */
  ghost function SkippedIn(n: nat, c: seq<seq<Byte>>, at: int, unset: nat, t: nat): nat {
    if t < at && Wrap(Newlines(Flat(c)) + unset) > n then at else t
  }

  /** The search that begins at block t goes beyond the block with the stray count, which is not settled: it
      has done so before, or the recorded lines make it skip all of that block. */
  ghost predicate MovesOn(n: nat, c: seq<seq<Byte>>, at: int, unset: nat, t: nat)
    requires 0 <= at < |c|
  {
    t > at || (at + 1 < |c| && TailStartIn(n, c[at], Wrap(Newlines(Flat(c)) + unset)) == Some(|c[at]|))
  }

  /** The exact condition for a search that begins at block t to find the tail: there is no stray count or more
      than n lines follow its block; or the search goes beyond that block, and exactly n lines follow it, the
      last one in it being finished; or it does not, and both the true number of lines and the number on record
      are at most n. */
  ghost predicate RightIn(n: nat, c: seq<seq<Byte>>, at: int, unset: nat, t: nat) {
    if at < 0 || at >= |c| || SettledIn(n, c, at) then true
    else if MovesOn(n, c, at, unset, t) then LinesBehind(c, at) == n && c[at] != [] && c[at][|c[at]| - 1] == NEWLINE
    else Newlines(Flat(c)) <= n && Wrap(Newlines(Flat(c)) + unset) <= n
  }

  lemma {:induction false} StrayIsNear(c: seq<seq<Byte>>, at: int)
    requires PlacedIn(c, at)
    ensures at <= 1
  {
  }

  /** Where the search has ended says whether it went beyond that block: t is where it began, t1 where the skip
      loop stopped, t2 where it ended. */
  lemma {:induction false} MovesExactly(u: Units, c: seq<seq<Byte>>, at: int, unset: nat, t: nat, t1: nat, off: nat,
                                        t2: nat)
    requires PlacedIn(c, at) && 0 <= at && !SettledIn(u.n, c, at) && t <= at + 1
    requires forall i | 0 < i < |c| :: c[i] != []
    requires t1 == SkippedIn(u.n, c, at, unset, t) && FoundIn(u, c, at, unset, t1, off)
    requires t2 == if off == |c[t1]| && t1 + 1 < |c| then t1 + 1 else t1
    ensures t2 == at + 1 <==> MovesOn(u.n, c, at, unset, t)
  {
    hide Newlines, AfterNewlines, Flat, Start, BytesBefore, Wrap;
    if t < at {
      NoneToSkip(u.n, c[at], Wrap(Newlines(Flat(c)) + unset));
    }
  }

  lemma {:induction false} NoneToSkip(n: nat, d: seq<Byte>, k: nat)
    ensures k <= n ==> TailStartIn(n, d, k) == Some(0)
  {
  }

  /** Between searches, the tail's block and offset say the same. */
  lemma {:induction false} MovedExactly(u: Units, c: seq<seq<Byte>>, at: int, unset: nat, t: nat, off: nat)
    requires PlacedIn(c, at) && 0 <= at <= t && !SettledIn(u.n, c, at) && FoundIn(u, c, at, unset, t, off)
    requires off == |c[t]| ==> t == |c| - 1
    ensures t == at + 1 <==> MovesOn(u.n, c, at, unset, t)
  {
    hide Newlines, AfterNewlines, Flat, Start, BytesBefore, Wrap;
  }

  lemma {:induction false} AllLines(d: seq<Byte>)
    requires d != []
    ensures AfterNewlines(d, Newlines(d)) == |d| <==> d[|d| - 1] == NEWLINE
  {
    assert d[..|d|] == d;
    AfterNewlinesIsTheCut(d, Newlines(d), |d|);
  }

  lemma {:induction false} StartWithStray(n: nat, c: seq<seq<Byte>>, at: nat)
    requires PlacedIn(c, at) && LinesBehind(c, at) <= n
    ensures Newlines(Flat(c)) == Newlines(c[at]) + LinesBehind(c, at)
    ensures Start(LastLines(n), Flat(c)) ==
            AfterNewlines(c[at], if Newlines(Flat(c)) > n then Newlines(Flat(c)) - n else 0)
  {
    hide Newlines, Flat;
    NothingBeforeStray(c, at, at);
    LinesSplit(c, at);
    if Newlines(Flat(c)) > n {
      hide AfterNewlines, Start;
      SkipLinesInside(n, c, at);
    }
  }

  /** The condition is exact: when the tail begins in the block with the stray count... */
  lemma {:induction false} RightInBlock(n: nat, c: seq<seq<Byte>>, at: nat, unset: nat, off: nat)
    requires PlacedIn(c, at) && LinesBehind(c, at) <= n && |Flat(c)| < WORD_MODULUS && 0 < unset < WORD_MODULUS
    requires TailStartIn(n, c[at], Wrap(Newlines(Flat(c)) + unset)) == Some(off)
    ensures BytesBefore(c, at) + off == Start(LastLines(n), Flat(c)) <==>
            Newlines(Flat(c)) <= n && Wrap(Newlines(Flat(c)) + unset) <= n
  {
    hide Newlines, AfterNewlines, Flat, Start, BytesBefore, Wrap;
    StartWithStray(n, c, at);
    NothingBeforeStray(c, at, at);
    UnsetSpareCount(n, c[at], LinesBehind(c, at), unset);
  }

  /** ...or with the next one... */
  lemma {:induction false} RightBehindBlock(n: nat, c: seq<seq<Byte>>, at: nat)
    requires PlacedIn(c, at) && LinesBehind(c, at) <= n
    ensures BytesBefore(c, at + 1) == Start(LastLines(n), Flat(c)) <==>
            LinesBehind(c, at) == n && c[at][|c[at]| - 1] == NEWLINE
  {
    hide Newlines, AfterNewlines, Flat, Start, BytesBefore, Wrap;
    StartWithStray(n, c, at);
    NothingBeforeStray(c, at, at);
    BeforeNext(c, at);
    var d, lines := c[at], Newlines(Flat(c));
    AllLines(d);
    if lines > n {
      AfterNewlinesMonotone(d, lines - n, Newlines(d));
    } else {
      AfterNone(d);
    }
  }

  lemma {:induction false} AfterNone(d: seq<Byte>)
    ensures AfterNewlines(d, 0) == 0
  {
  }

  /** ...so for the state in which the search begins at block t. */
  lemma {:induction false} RightExactly(n: nat, c: seq<seq<Byte>>, at: int, unset: nat, t: nat, t2: nat, off: nat)
    requires PlacedIn(c, at) && FoundIn(LastLines(n), c, at, unset, t2, off) && at <= t2
    requires |Flat(c)| < WORD_MODULUS && 0 < unset < WORD_MODULUS
    requires 0 <= at && !SettledIn(n, c, at) ==> (t2 == at + 1 <==> MovesOn(n, c, at, unset, t))
    ensures BytesBefore(c, t2) + off == Start(LastLines(n), Flat(c)) <==> RightIn(n, c, at, unset, t)
  {
    hide Newlines, AfterNewlines, Flat, Start, BytesBefore, Wrap, MovesOn;
    if !SettledIn(n, c, at) {
      if t2 == at {
        RightInBlock(n, c, at, unset, off);
      } else {
        RightBehindBlock(n, c, at);
      }
    }
  }

  // ---- the empty first block in front of the stray count ----

  /** The lines between the block with the stray count, which is the second one, and the last one. */
  ghost function LinesBetween(c: seq<seq<Byte>>): nat {
    if |c| > 2 then Newlines(Flat(c[2..|c| - 1])) else 0
  }

  /** Why the empty first block has not been dropped: the lines on record for the second one are at most n, and
      so they were with those that followed whenever a block was added (unless n is as large as the address
      space). */
  ghost predicate StaysIn(n: nat, size: nat, c: seq<seq<Byte>>, unset: nat) {
    && |c| >= 2 && c[0] == []
    && Wrap(Newlines(c[1]) + unset) <= n
    && (n + 2 * size >= WORD_MODULUS || Wrap(Newlines(c[1]) + unset) + LinesBetween(c) <= n)
  }

  lemma {:induction false} StaysFirst(n: nat, size: nat, d: seq<Byte>, unset: nat)
    requires Wrap(Newlines(Flat([[], d])) + unset) <= n
    ensures StaysIn(n, size, [[], d], unset)
  {
    FlatSingle(d);
    FlatFirst([[], d]);
    assert [[], d][1..] == [d];
    assert Flat([[], d]) == d;
  }

  lemma {:induction false} StaysMerged(n: nat, size: nat, c: seq<seq<Byte>>, d: seq<Byte>, unset: nat)
    requires StaysIn(n, size, c, unset) && PairsFull(c, size) && |c[|c| - 1]| + |d| < size
    ensures StaysIn(n, size, Extended(c, d, true), unset)
  {
    assert |c[0]| + |c[0 + 1]| >= size;
    var c' := Extended(c, d, true);
    assert |c| > 2 && c'[1] == c[1];
    assert c'[2..|c'| - 1] == c[2..|c| - 1];
  }

  /** The lines that follow the second block once a block is added. */
  lemma {:induction false} BetweenLinked(c: seq<seq<Byte>>, d: seq<Byte>)
    requires |c| >= 2 && c[0] == []
    ensures Newlines(Flat(c + [d])) == Newlines(c[1]) + LinesBetween(c + [d]) + Newlines(d)
    ensures Newlines(Flat((c + [d])[1..])) == Newlines(Flat(c + [d]))
    ensures LinesBetween(c + [d]) == LinesBetween(c) + (if |c| > 2 then Newlines(c[|c| - 1]) else 0)
  {
    hide Newlines, Flat;
    var c' := c + [d];
    FlatFirst(c');
    FlatFirst(c'[1..]);
    assert c'[1..][1..] == c[2..] + [d] && c'[2..|c'| - 1] == c[2..];
    FlatSnoc(c[2..], d);
    assert Flat(c') == Flat(c'[1..]) == c[1] + Flat(c[2..] + [d]);
    NewlinesConcat(c[1], Flat(c[2..] + [d]));
    NewlinesConcat(Flat(c[2..]), d);
    assert LinesBetween(c') == Newlines(Flat(c[2..]));
    if |c| > 2 {
      var k := |c| - 1;
      assert c[2..] == c[2..k] + [c[k]];
      assert LinesBetween(c) == Newlines(Flat(c[2..k]));
      FlatSnoc(c[2..k], c[k]);
      NewlinesConcat(Flat(c[2..k]), c[k]);
    } else {
      assert c[2..] == [];
      NoLines();
    }
  }

  lemma {:induction false} NoLines()
    ensures Newlines(Flat([])) == 0
  {
  }

  /** If the first block still stays, then few lines follow the second one, or n is as large as that. */
  lemma {:induction false} StaysLinked(n: nat, size: nat, c: seq<seq<Byte>>, d: seq<Byte>, unset: nat)
    requires StaysIn(n, size, c, unset) && |c[|c| - 1]| <= size && |d| <= size
    requires Wrap(Newlines(Flat(c + [d])) + unset) <= n
    ensures StaysIn(n, size, c + [d], unset)
    ensures n + 2 * size >= WORD_MODULUS || Newlines(Flat((c + [d])[1..])) - Newlines(c[1]) <= n
  {
    hide Newlines, Flat, Wrap, LinesBetween;
    BetweenLinked(c, d);
    var x, more := Newlines(c[1]) + unset, LinesBetween(c + [d]) + Newlines(d);
    assert (c + [d])[1] == c[1];
    WrapMore(x, more);
  }

  lemma {:induction false} WrapMore(x: nat, more: nat)
    ensures Wrap(x) + more < WORD_MODULUS ==> Wrap(x + more) == Wrap(x) + more
  {
    var q := x / WORD_MODULUS;
    assert Wrap(x) == x - q * WORD_MODULUS;
    WrapMultiple(x + more, -q);
  }

  lemma {:induction false} OneBehind(d: seq<Byte>)
    ensures [[], d][1..] == [d] && Flat([d]) == d
  {
    FlatSingle(d);
  }

  lemma {:induction false} SecondOf(n: nat, size: nat, c: seq<seq<Byte>>, unset: nat)
    requires StaysIn(n, size, c, unset)
    ensures |c| >= 2 && c[0] == []
  {
  }
}
