/** Sequences of blocks as one byte string, and how many blocks a byte string can be spread over. */
module Blocks {
  import opened Arithmetic
  import opened Tails

  function Flat(c: seq<seq<Byte>>): seq<Byte> {
    if c == [] then [] else c[0] + Flat(c[1..])
  }

  lemma {:induction false} FlatFirst(c: seq<seq<Byte>>)
    ensures c == [] ==> Flat(c) == []
    ensures c != [] ==> Flat(c) == c[0] + Flat(c[1..])
  {
  }

  lemma {:induction false} FlatConcat(a: seq<seq<Byte>>, b: seq<seq<Byte>>)
    ensures Flat(a + b) == Flat(a) + Flat(b)
  {
    hide Flat;
    FlatFirst(a);
    if a == [] {
      assert a + b == b;
    } else {
      FlatConcat(a[1..], b);
      FlatFirst(a + b);
      assert (a + b)[1..] == a[1..] + b;
    }
  }

  lemma {:induction false} FlatSingle(d: seq<Byte>)
    ensures Flat([d]) == d
  {
    assert Flat([d][1..]) == [];
  }

  lemma {:induction false} FlatTake(c: seq<seq<Byte>>, t: nat)
    requires t < |c|
    ensures Flat(c[..t + 1]) == Flat(c[..t]) + c[t]
  {
    hide Flat;
    FlatSnoc(c[..t], c[t]);
    assert c[..t] + [c[t]] == c[..t + 1];
  }

  lemma {:induction false} FlatCut(c: seq<seq<Byte>>, t: nat)
    requires t <= |c|
    ensures Flat(c) == Flat(c[..t]) + Flat(c[t..])
  {
    hide Flat;
    FlatConcat(c[..t], c[t..]);
    assert c[..t] + c[t..] == c;
  }

  lemma {:induction false} FlatDrop(c: seq<seq<Byte>>, t: nat)
    requires t < |c|
    ensures Flat(c[t..]) == c[t] + Flat(c[t + 1..])
  {
    assert c[t..][1..] == c[t + 1..];
  }

  lemma {:induction false} FlatSplit(c: seq<seq<Byte>>, t: nat)
    requires t < |c|
    ensures Flat(c[..t + 1]) == Flat(c[..t]) + c[t]
    ensures Flat(c) == Flat(c[..t]) + Flat(c[t..])
    ensures Flat(c[t..]) == c[t] + Flat(c[t + 1..])
  {
    hide Flat;
    FlatTake(c, t);
    FlatCut(c, t);
    FlatDrop(c, t);
  }

  lemma {:induction false} FlatSnoc(c: seq<seq<Byte>>, d: seq<Byte>)
    ensures Flat(c + [d]) == Flat(c) + d
  {
    hide Flat;
    FlatConcat(c, [d]);
    FlatSingle(d);
  }

  lemma {:induction false} FlatExtendLast(c: seq<seq<Byte>>, d: seq<Byte>)
    requires |c| > 0
    ensures Flat(c[|c| - 1 := c[|c| - 1] + d]) == Flat(c) + d
    ensures Flat(c + [d]) == Flat(c) + d
  {
    var k := |c| - 1;
    var c' := c[k := c[k] + d];
    FlatSplit(c, k);
    FlatSplit(c', k);
    assert c'[..k] == c[..k] && c'[k + 1..] == [] && c[k + 1..] == [];
    FlatSnoc(c, d);
  }

  /** Two neighbours never fit into one block. */
  ghost predicate PairsFull(c: seq<seq<Byte>>, size: nat) {
    forall i | 0 <= i < |c| - 1 :: |c[i]| + |c[i + 1]| >= size
  }

  lemma {:induction false} PairsFullRest(c: seq<seq<Byte>>, size: nat)
    requires PairsFull(c, size) && |c| > 0
    ensures PairsFull(c[1..], size)
  {
    forall i | 0 <= i < |c[1..]| - 1
      ensures |c[1..][i]| + |c[1..][i + 1]| >= size
    {
      assert |c[i + 1]| + |c[i + 1 + 1]| >= size;
    }
  }

  lemma {:induction false} PairsFullHoldMuch(c: seq<seq<Byte>>, size: nat)
    requires PairsFull(c, size)
    ensures |Flat(c)| >= size * (|c| / 2)
    decreases |c|
  {
    if |c| >= 2 {
      var rest := c[1..][1..];
      PairsFullRest(c, size);
      PairsFullRest(c[1..], size);
      PairsFullHoldMuch(rest, size);
      assert Flat(c) == c[0] + (c[1] + Flat(rest));
      assert |c[0]| + |c[1]| >= size;
      assert |c| / 2 == |rest| / 2 + 1;
      assert size * (|c| / 2) == size * (|rest| / 2) + size;
    }
  }

  /** When the blocks behind the first hold at most n bytes, there are at most 2 * (n / size) + 2 blocks. */
  lemma {:induction false} FewBlocks(c: seq<seq<Byte>>, size: nat, n: nat)
    requires size > 0 && |c| > 0
    requires PairsFull(c, size)
    requires |Flat(c)| - |c[0]| <= n
    ensures |c| <= 2 * (n / size) + 2
  {
    var rest := c[1..];
    PairsFullRest(c, size);
    PairsFullHoldMuch(rest, size);
    AtMostQuotient(size, |rest| / 2, n);
  }

  lemma {:induction false} AtMostQuotient(size: nat, k: nat, n: nat)
    requires size > 0 && size * k <= n
    ensures k <= n / size
  {
    var q := n / size;
    assert n < size * (q + 1);
    if q + 1 <= k {
      MulMonotone(q + 1, k, size);
    }
  }

  /** What is left of a chain's bytes from byte off of block t on, piece by piece. */
  function Pieces(c: seq<seq<Byte>>, t: nat, off: nat): (p: seq<seq<Byte>>)
    requires t < |c| && off <= |c[t]|
    ensures |p| == |c| - t
  {
    [c[t][off..]] + c[t + 1..]
  }

  lemma {:induction false} PiecesAreTheRest(c: seq<seq<Byte>>, t: nat, off: nat)
    requires t < |c| && off <= |c[t]|
    ensures |Flat(c[..t])| + off <= |Flat(c)|
    ensures Flat(Pieces(c, t, off)) == Flat(c)[|Flat(c[..t])| + off..]
  {
    var a, rest := Flat(c[..t]), Flat(c[t + 1..]);
    FlatSplit(c, t);
    assert Flat(c) == a + (c[t] + rest);
    assert (a + (c[t] + rest))[|a| + off..] == c[t][off..] + rest;
    assert Pieces(c, t, off)[1..] == c[t + 1..];
  }

  /** The same pieces, as a walk serves them that stops at an empty block. */
  function PartsFrom(c: seq<seq<Byte>>, t: nat, off: nat): seq<seq<Byte>>
    requires t < |c| ==> off <= |c[t]|
  {
    if t >= |c| || c[t] == [] then [] else Pieces(c, t, off)
  }

  lemma {:induction false} PartsStep(c: seq<seq<Byte>>, t: nat, off: nat)
    requires t < |c| && off <= |c[t]| && c[t] != [] && (t + 1 < |c| ==> c[t + 1] != [])
    ensures PartsFrom(c, t, off) == [c[t][off..]] + PartsFrom(c, t + 1, 0)
  {
    if t + 1 < |c| {
      assert c[t + 1][0..] == c[t + 1];
      assert Pieces(c, t + 1, 0) == c[t + 1..];
    }
  }

  /** What a walk still has to serve when it arrives at byte off of block t, or has passed the last block. */
  function Remaining(c: seq<seq<Byte>>, t: nat, off: nat): seq<Byte>
    requires t < |c| ==> off <= |c[t]|
  {
    Flat(PartsFrom(c, t, off))
  }

  lemma {:induction false} RemainingStep(c: seq<seq<Byte>>, t: nat, off: nat)
    requires t < |c| && off <= |c[t]| && c[t] != [] && (t + 1 < |c| ==> c[t + 1] != [])
    ensures Remaining(c, t, off) == c[t][off..] + Remaining(c, t + 1, 0)
  {
    PartsStep(c, t, off);
    FlatFirst(PartsFrom(c, t, off));
    assert ([c[t][off..]] + PartsFrom(c, t + 1, 0))[1..] == PartsFrom(c, t + 1, 0);
  }

  /** A walk that is cut off while it serves the piece d has served a prefix of everything. */
  lemma {:induction false} ServedPrefix(t: seq<Byte>, served: seq<Byte>, d: seq<Byte>, more: seq<Byte>, taken: nat)
    requires t == served + (d + more) && taken <= |d|
    ensures |served| + taken <= |t|
    ensures t[..|served| + taken] == served + d[..taken]
    ensures t == (served + d) + more
  {
  }
}
