/** How few blocks the tail buffer needs: small inputs are merged, and blocks are dropped when they can be. */
module Compaction {
  import opened Arithmetic
  import opened Tails
  import opened Blocks
  import opened TailSearch

  ghost predicate NoEmptyLater(c: seq<seq<Byte>>) {
    forall i | 0 < i < |c| :: c[i] != []
  }

  /** No two neighbours fit into one block, and no block behind the first is empty. */
  ghost predicate CompactIn(size: nat, h: seq<Byte>, c: seq<seq<Byte>>) {
    && PairsFull(c, size)
    && NoEmptyLater(c)
    && (h != [] && |c| == 1 ==> c[0] != [])
  }

  lemma {:induction false} CompactMerged(size: nat, h: seq<Byte>, c: seq<seq<Byte>>, d: seq<Byte>)
    requires |c| > 0 && CompactIn(size, h, c) && d != []
    ensures CompactIn(size, h + d, Extended(c, d, true))
  {
    var c' := Extended(c, d, true);
    forall i | 0 <= i < |c'| - 1
      ensures |c'[i]| + |c'[i + 1]| >= size
    {
      assert |c[i]| + |c[i + 1]| >= size;
    }
  }

  lemma {:induction false} PairsFullLinked(size: nat, c: seq<seq<Byte>>, d: seq<Byte>)
    requires |c| > 0 && PairsFull(c, size)
    requires |c[|c| - 1]| + |d| >= size
    ensures PairsFull(c + [d], size)
  {
    forall i | 0 <= i < |c|
      ensures |(c + [d])[i]| + |(c + [d])[i + 1]| >= size
    {
      assert i < |c| - 1 ==> |c[i]| + |c[i + 1]| >= size;
    }
  }

  /** Linking a block keeps the chain compact, whether the first one is dropped or not. */
  lemma {:induction false} CompactLinked(size: nat, h: seq<Byte>, c: seq<seq<Byte>>, d: seq<Byte>)
    requires |c| > 0 && CompactIn(size, h, c) && d != []
    requires |c[|c| - 1]| + |d| >= size
    ensures CompactIn(size, h + d, c + [d]) && CompactIn(size, h + d, (c + [d])[1..])
  {
    PairsFullLinked(size, c, d);
    PairsFullRest(c + [d], size);
  }

  /** No stretch of h with at most n units has more than b bytes. */
  ghost predicate ShortStretches(u: Units, h: seq<Byte>, b: nat) {
    forall i, j | 0 <= i <= j <= |h| :: Count(u, h[i..j]) <= u.n ==> |h[i..j]| <= b
  }

  /** The number of blocks is bounded by what n units can take up, whatever the length of the history. */
  ghost predicate BoundedIn(u: Units, size: nat, h: seq<Byte>, c: seq<seq<Byte>>, slack: nat)
    requires size > 0
  {
    forall b: nat | ShortStretches(u, h, b) :: |c| <= 2 * (b / size) + 2 + slack
  }

  lemma {:induction false} ShortInPrefix(u: Units, h: seq<Byte>, d: seq<Byte>, b: nat)
    requires ShortStretches(u, h + d, b)
    ensures ShortStretches(u, h, b)
  {
    hide Count;
    forall i, j | 0 <= i <= j <= |h| && Count(u, h[i..j]) <= u.n
      ensures |h[i..j]| <= b
    {
      assert (h + d)[i..j] == h[i..j];
    }
  }

  /** More input without more blocks is no harm... */
  lemma {:induction false} BoundedStays(u: Units, size: nat, h: seq<Byte>, c: seq<seq<Byte>>, d: seq<Byte>,
                                        c': seq<seq<Byte>>, slack: nat)
    requires size > 0 && BoundedIn(u, size, h, c, slack) && |c'| == |c|
    ensures BoundedIn(u, size, h + d, c', slack)
  {
    hide ShortStretches;
    forall b: nat | ShortStretches(u, h + d, b)
      ensures |c'| <= 2 * (b / size) + 2 + slack
    {
      ShortInPrefix(u, h, d, b);
    }
  }

  /** ...and a block is added only when those behind the first hold at most n units... */
  lemma {:induction false} BoundedGrown(u: Units, size: nat, h: seq<Byte>, dropped: seq<Byte>, c: seq<seq<Byte>>,
                                        slack: nat)
    requires size > 0 && |c| > 0 && PairsFull(c, size) && h == dropped + Flat(c)
    requires Count(u, Flat(c)) - Count(u, c[0]) <= u.n
    ensures BoundedIn(u, size, h, c, slack)
  {
    hide Count;
    var i, rest := |dropped| + |c[0]|, Flat(c[1..]);
    CountConcat(u, c[0], rest);
    assert h == (dropped + c[0]) + rest;
    assert h[i..|h|] == rest;
    forall b: nat | ShortStretches(u, h, b)
      ensures |c| <= 2 * (b / size) + 2 + slack
    {
      FewBlocks(c, size, b);
    }
  }

  /** ...or those behind the second, when the first one is empty. */
  lemma {:induction false} BoundedBehind(u: Units, size: nat, h: seq<Byte>, dropped: seq<Byte>, c: seq<seq<Byte>>)
    requires size > 0 && |c| > 1 && PairsFull(c, size) && h == dropped + Flat(c) && c[0] == []
    requires Count(u, Flat(c[1..])) - Count(u, c[1]) <= u.n
    ensures BoundedIn(u, size, h, c, 1)
  {
    hide Count, ShortStretches;
    PairsFullRest(c, size);
    FlatFirst(c);
    BoundedGrown(u, size, h, dropped, c[1..], 0);
    forall b: nat | ShortStretches(u, h, b)
      ensures |c| <= 2 * (b / size) + 3
    {
      assert |c[1..]| <= 2 * (b / size) + 2;
    }
  }

  /** A number of lines close to the size of the address space bounds any chain. */
  lemma {:induction false} BoundedHuge(n: nat, size: nat, h: seq<Byte>, c: seq<seq<Byte>>)
    requires size > 0 && n + 2 * size >= WORD_MODULUS && |c| * size < WORD_MODULUS && Newlines(h) > n
    ensures BoundedIn(LastLines(n), size, h, c, 1)
  {
    forall b: nat | ShortStretches(LastLines(n), h, b)
      ensures |c| <= 2 * (b / size) + 3
    {
      ManyLinesAreLong(n, h, b);
      HugeQuotient(size, |c|, n, b);
    }
  }

  lemma {:induction false} ManyLinesAreLong(n: nat, h: seq<Byte>, b: nat)
    requires Newlines(h) >= n && ShortStretches(LastLines(n), h, b)
    ensures n <= b
  {
    var p := AfterNewlines(h, n);
    AfterNewlinesCutsOff(h, n);
    assert h[..p] == h[0..p];
    assert Count(LastLines(n), h[0..p]) <= n;
  }

  lemma {:induction false} HugeQuotient(size: nat, k: nat, n: nat, b: nat)
    requires size > 0 && n + 2 * size >= WORD_MODULUS && k * size < WORD_MODULUS && n <= b
    ensures k <= 2 * (b / size) + 3
  {
    var q := b / size;
    assert b < size * (q + 1);
    assert (q + 3) * size == size * (q + 1) + 2 * size;
    MulCancel(k, q + 3, size);
  }

  /** In byte mode n bytes take up n bytes. */
  lemma {:induction false} BytesBounded(n: nat, size: nat, h: seq<Byte>, c: seq<seq<Byte>>)
    requires size > 0 && BoundedIn(LastBytes(n), size, h, c, 0)
    ensures |c| <= 2 * (n / size) + 2
  {
    assert ShortStretches(LastBytes(n), h, n);
  }

  lemma {:induction false} LaterInExtended(c: seq<seq<Byte>>, d: seq<Byte>)
    requires |c| > 0 && NoEmptyLater(c) && d != []
    ensures NoEmptyLater(Extended(c, d, true)) && NoEmptyLater(Extended(c, d, false))
  {
  }

  lemma {:induction false} LongChain(c: seq<seq<Byte>>)
    requires |c| > 1 && NoEmptyLater(c)
    ensures Flat(c) != []
  {
    assert c[1..][0] == c[1];
  }

  lemma {:induction false} EmptyChain(c: seq<seq<Byte>>)
    requires |c| > 0 && NoEmptyLater(c) && Flat(c) == []
    ensures c == [[]]
  {
    if |c| > 1 {
      LongChain(c);
    }
    assert c[0] == [];
  }

  /** Blocks of which no more than k are in use hold less than the address space. */
  lemma {:induction false} FlatFits(c: seq<seq<Byte>>, size: nat)
    requires forall i | 0 <= i < |c| :: |c[i]| <= size
    ensures |Flat(c)| <= |c| * size
  {
    if c != [] {
      FlatFits(c[1..], size);
      assert |c| * size == (|c| - 1) * size + size;
    }
  }
}
