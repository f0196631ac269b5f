/** The tail buffer of src/buffer.c: a chain of fixed-size blocks that keeps just enough of the input
    to serve its tail. */
module TailBuffers {
  import opened Options
  import opened Arithmetic
  import opened Tails
  import opened Blocks
  import opened TailSearch
  import opened Compaction
  import opened StrayCounts

  class Block {
    const buffer: array<Byte>
    var nbytes: nat
    var nlines: nat
    var next: Block?

    /** malloc: the counts are whatever the memory held. */
    constructor (size: nat, nbytes: nat, nlines: nat)
      ensures fresh(buffer) && buffer.Length == size
      ensures this.nbytes == nbytes && this.nlines == nlines && next == null
    {
      buffer := new Byte[size];
      this.nbytes, this.nlines, next := nbytes, nlines, null;
    }

    /** The block holds the bytes d and, when lines are counted, has their newlines and a stray count on
        record. */
    ghost predicate Holds(d: seq<Byte>, stray: nat, size: nat, countLines: bool)
      reads this, buffer
    {
      && buffer.Length == size
      && nbytes == |d| <= size
      && buffer[..nbytes] == d
      && (countLines ==> nlines == Wrap(Newlines(d) + stray))
    }
  }

  ghost function ChainObjects(chain: seq<Block>): set<object> {
    (set i | 0 <= i < |chain| :: chain[i] as object) + (set i | 0 <= i < |chain| :: chain[i].buffer as object)
  }

  ghost function SpareObjects(spare: Block?): set<object> {
    if spare == null then {} else {spare, spare.buffer}
  }

  lemma {:induction false} ChainObjectsConcat(a: seq<Block>, b: seq<Block>)
    ensures ChainObjects(a + b) == ChainObjects(a) + ChainObjects(b)
  {
    var c := a + b;
    forall i | 0 <= i < |a|
      ensures a[i] in ChainObjects(c) && a[i].buffer in ChainObjects(c)
    {
      assert c[i] == a[i];
    }
    forall i | 0 <= i < |b|
      ensures b[i] in ChainObjects(c) && b[i].buffer in ChainObjects(c)
    {
      assert c[|a| + i] == b[i];
    }
  }

  /** Linking the spare block and replacing it by the first one, or by a new one, loses no object. */
  lemma {:induction false} NothingLost(c: seq<Block>, a: Block, c': seq<Block>, a': Block?)
    requires |c| > 0
    requires c' == c + [a] || (a' == c[0] && c' == (c + [a])[1..])
    ensures ChainObjects(c') + SpareObjects(a') == ChainObjects(c) + SpareObjects(a) + SpareObjects(a')
  {
    ChainObjectsConcat(c, [a]);
    assert ChainObjects([a]) == SpareObjects(a) by {
      assert [a][0] == a;
    }
    if c' != c + [a] {
      ChainObjectsConcat([c[0]], c');
      assert [c[0]] + c' == c + [a];
      assert ChainObjects([c[0]]) == SpareObjects(c[0]) by {
        assert [c[0]][0] == c[0];
      }
    }
  }

  /** The chain before anything is appended. */
  lemma {:induction false} OneEmptyBlock(u: Units, size: nat)
    requires size > 0
    ensures Flat([[]]) == [] && BytesBefore([[]], 0) == LinesBefore([[]], 0) == Newlines([]) == Start(u, []) == 0
    ensures RetainedIn(u, [], [], [[]]) && CompactIn(size, [], [[]])
    ensures forall slack :: BoundedIn(u, size, [], [[]], slack)
  {
    FlatSingle([]);
  }

  class TailBuffer {
    const bufsiz: nat
    const countLines: bool
    const nUnits: nat

    var first: Block?
    var last: Block
    var append: Block?
    var totalLines: nat
    var totalBytes: nat

    var tailBuffer: Block
    var tailOffset: nat
    var linesUpToTailBuffer: nat
    var bytesUpToTailBuffer: nat

    /** How many blocks malloc has given out: it gives out no more than the address space holds. */
    var inUse: nat

    /** Everything ever appended, what of it is no longer stored, the blocks from first to last, what each
        holds, and the place of the tail's block among them. */
    ghost var history: seq<Byte>
    ghost var dropped: seq<Byte>
    ghost var chain: seq<Block>
    ghost var content: seq<seq<Byte>>
    ghost var tailIndex: nat

    /** The line count left unset in the first spare block, and the block that it went to with the first
        input: none when negative. */
    ghost const unset: nat
    ghost var strayAt: int

    function TheUnits(): Units {
      if countLines then LastLines(nUnits) else LastBytes(nUnits)
    }

    ghost function ChainRepr(): set<object>
      reads this`chain
    {
      ChainObjects(chain)
    }

    /** Every object the buffer owns. */
    ghost function Repr(): set<object>
      reads this`chain, this`append
    {
      {this} + (ChainRepr() + SpareObjects(append))
    }

    /** The blocks are other objects than the buffer. */
    lemma {:induction false} NotOwnBlock()
      ensures this !in ChainRepr()
    {
    }

    /** What block i has on record besides its own lines. */
    ghost function Own(i: int): nat
      reads this`strayAt
    {
      if i == strayAt then unset else 0
    }

    /** The blocks are linked from first to last, and no two are the same. */
    ghost predicate Chained()
      reads this`chain, this`first, this`last, chain`next
    {
      && |chain| >= 1 && first == chain[0] && last == chain[|chain| - 1] && last.next == null
      && (forall i | 0 <= i < |chain| - 1 :: chain[i].next == chain[i + 1])
      && (forall i, j | 0 <= i < j < |chain| :: chain[i] != chain[j] && chain[i].buffer != chain[j].buffer)
    }

    ghost predicate Linked()
      reads this`chain, this`content, this`strayAt, this`first, this`last, ChainRepr()
    {
      && bufsiz >= 1 && |chain| == |content| && Chained()
      && (forall i | 0 <= i < |chain| :: chain[i].Holds(content[i], Own(i), bufsiz, countLines))
    }

    /** The last block is none of the others. */
    lemma {:induction false} LastApart()
      requires Chained()
      ensures |chain| >= 1 && last == chain[|chain| - 1]
      ensures forall i | 0 <= i < |chain| - 1 :: chain[i] != last && chain[i].buffer != last.buffer
    {
    }

    /** The spare block is no part of the chain. */
    ghost predicate SpareBeside()
      reads this`append, this`chain
    {
      append != null ==>
        && append.buffer.Length == bufsiz
        && (forall i | 0 <= i < |chain| :: chain[i] != append && chain[i].buffer != append.buffer)
    }

    ghost predicate SpareApart()
      reads this`append, this`chain, append
    {
      SpareBeside() && (append != null ==> append.next == null)
    }

    /** The stray count that the spare block has. */
    ghost function SpareStray(): nat
      reads this`history
    {
      if countLines && history == [] then unset else 0
    }

    ghost predicate SpareBlank()
      reads this`append, this`history, append
    {
      append != null ==> append.nbytes == 0 && (countLines ==> append.nlines == SpareStray())
    }

    /** The counters are prefix sums over the chain; only those of lines can wrap around, and only because of
        a stray count. */
    ghost predicate Counted()
      reads this`chain, this`content, this`strayAt, this`tailBuffer, this`tailIndex
      reads this`totalBytes, this`totalLines, this`bytesUpToTailBuffer, this`linesUpToTailBuffer
    {
      && |chain| == |content| && unset < WORD_MODULUS
      && tailIndex < |chain| && tailBuffer == chain[tailIndex]
      && totalBytes == |Flat(content)| < WORD_MODULUS
      && bytesUpToTailBuffer == BytesBefore(content, tailIndex)
      && (countLines ==> totalLines == Wrap(Newlines(Flat(content)) + StraysIn(strayAt, unset, |content|)))
      && (countLines ==>
            linesUpToTailBuffer == Wrap(LinesBefore(content, tailIndex) + StraysIn(strayAt, unset, tailIndex)))
    }

    ghost predicate Placed()
      reads this`content, this`strayAt, this`history
    {
      PlacedIn(content, strayAt) && (strayAt >= 0 ==> countLines && unset > 0 && history != [])
    }

    /** The search for the tail may begin at the tail's block. */
    ghost predicate Ready()
      reads this`content, this`strayAt, this`tailIndex
    {
      && tailIndex < |content| && PlacedIn(content, strayAt)
      && ReadyIn(TheUnits(), content, strayAt, tailIndex)
    }

    /** The tail's block and offset are where the search ends. */
    ghost predicate Found()
      reads this`content, this`strayAt, this`tailIndex, this`tailOffset
    {
      FoundIn(TheUnits(), content, strayAt, unset, tailIndex, tailOffset)
    }

    /** The tail's block is exhausted only if it is the last one. */
    ghost predicate Shifted()
      reads this`content, this`strayAt, this`tailIndex, this`tailOffset
    {
      && tailIndex < |content| && strayAt <= tailIndex
      && (tailOffset == |content[tailIndex]| ==> tailIndex == |content| - 1)
    }

    ghost predicate Retained()
      reads this`history, this`dropped, this`content
    {
      RetainedIn(TheUnits(), history, dropped, content)
    }

    ghost predicate Compact()
      reads this`history, this`content
    {
      CompactIn(bufsiz, history, content)
    }

    /** A stray count can cost one block. */
    ghost function Slack(): nat {
      if countLines && unset > 0 then 1 else 0
    }

    /** The blocks c, for the input h and with the stray count in block at, are bounded in number; an empty first
        block in front of the stray count is there for a reason. */
    ghost predicate BoundsIn(h: seq<Byte>, c: seq<seq<Byte>>, at: int) {
      && bufsiz > 0 && BoundedIn(TheUnits(), bufsiz, h, c, Slack())
      && (at == 1 ==> StaysIn(nUnits, bufsiz, c, unset))
    }

    /** Memory is bounded. */
    ghost predicate Bounded()
      reads this`history, this`content, this`strayAt
    {
      BoundsIn(history, content, strayAt)
    }

    /** The address space holds one more. */
    predicate Room()
      reads this`inUse
    {
      (inUse + 1) * bufsiz < WORD_MODULUS
    }

    ghost predicate Fits()
      reads this`chain, this`append, this`inUse
    {
      inUse * bufsiz < WORD_MODULUS && inUse == |chain| + (if append == null then 0 else 1)
    }

    /** What every append keeps, whatever line count was left unset. */
    ghost predicate Sound()
      reads this, ChainRepr()
    {
      Linked() && Counted() && Placed() && Found() && Shifted() && Retained() && Compact() && Bounded() && Fits()
    }

    /** No stray count is left. */
    ghost predicate Exact()
      reads this`strayAt, this`history
    {
      strayAt < 0 && SpareStray() == 0
    }

    /** What readers of the buffer rely on. */
    ghost predicate Readable()
      reads this, ChainRepr()
    {
      Sound() && Exact()
    }

    /** The buffer is ready for the next append. */
    ghost predicate Usable()
      reads this, Repr()
    {
      append != null && Sound() && SpareApart() && SpareBlank()
    }

    ghost predicate Valid()
      reads this, Repr()
    {
      Usable() && Exact()
    }

    lemma {:induction false} InitialChain(b: Block)
      requires bufsiz >= 1 && b.buffer.Length == bufsiz && b.next == null && b.nbytes == b.nlines == 0
      requires first == b == last && chain == [b] && content == [[]] && strayAt == -1
      ensures Linked()
    {
      OneEmptyBlock(TheUnits(), bufsiz);
      assert |chain| == 1;
    }

    lemma {:induction false} InitialCounters(b: Block)
      requires tailBuffer == b && history == dropped == [] && chain == [b] && content == [[]] && tailIndex == 0
      requires totalLines == totalBytes == tailOffset == linesUpToTailBuffer == bytesUpToTailBuffer == 0
      requires strayAt == -1 && unset < WORD_MODULUS && bufsiz >= 1
      ensures Counted() && Placed() && Found() && Shifted() && Retained() && Compact() && Bounded()
    {
      OneEmptyBlock(TheUnits(), bufsiz);
    }

    lemma {:induction false} InitialSpare(b: Block, a: Block)
      requires append == a && chain == [b] && a != b && a.buffer != b.buffer && history == []
      requires a.buffer.Length == bufsiz && a.next == null && a.nbytes == 0 && a.nlines == unset
      ensures SpareApart() && SpareBlank()
    {
    }

    lemma {:induction false} InitialRepr(b: Block, a: Block)
      requires append == a && chain == [b]
      ensures Repr() == {this, a, a.buffer, b, b.buffer}
    {
      assert chain[0] == b;
    }

    lemma {:induction false} InitialState(b: Block, a: Block)
      requires bufsiz >= 1 && 2 * bufsiz < WORD_MODULUS && unset < WORD_MODULUS && inUse == 2
      requires b.buffer.Length == bufsiz && b.next == null && b.nbytes == b.nlines == 0
      requires first == b == last == tailBuffer && chain == [b] && content == [[]] && strayAt == -1
      requires history == dropped == [] && tailIndex == 0
      requires totalLines == totalBytes == tailOffset == linesUpToTailBuffer == bytesUpToTailBuffer == 0
      requires append == a && a != b && a.buffer != b.buffer
      requires a.buffer.Length == bufsiz && a.next == null && a.nbytes == 0 && a.nlines == unset
      ensures Usable() && (Exact() <==> (countLines ==> unset == 0))
      ensures Repr() == {this, a, a.buffer, b, b.buffer}
    {
      hide Linked, Counted, Placed, Found, Shifted, Retained, Compact, Bounded, SpareApart, SpareBlank, ChainObjects;
      InitialChain(b);
      InitialCounters(b);
      InitialSpare(b, a);
      InitialRepr(b, a);
    }

    /** buffer_init, when memory suffices. The line count of the spare block is never set there: it is
        what the memory held. */
    constructor (bufsiz: nat, countLines: bool, nUnits: nat, spareLines: nat)
      requires bufsiz >= 1 && 2 * bufsiz < WORD_MODULUS && spareLines < WORD_MODULUS
      ensures this.bufsiz == bufsiz && this.countLines == countLines && this.nUnits == nUnits
      ensures history == [] && append != null && append.nlines == spareLines == unset
      ensures Usable()
      ensures Valid() <==> (countLines ==> spareLines == 0)
      ensures fresh(Repr())
    {
      hide Usable, Exact, Repr, Wrap, Linked, Counted, Placed, Found, Shifted, Retained, Compact, Bounded, Sound;
      hide CompactIn, PairsFull, BoundedIn, SpareApart, SpareBlank, ChainObjects;
      this.bufsiz, this.countLines, this.nUnits, this.unset := bufsiz, countLines, nUnits, spareLines;
      var b := new Block(bufsiz, 0, 0);
      first, last, tailBuffer := b, b, b;
      var a := new Block(bufsiz, 0, spareLines);
      append := a;
      inUse := 2;
      totalLines, totalBytes, tailOffset, linesUpToTailBuffer, bytesUpToTailBuffer := 0, 0, 0, 0, 0;
      history, dropped, chain, content, tailIndex, strayAt := [], [], [b], [[]], 0, -1;
      new;
      InitialState(b, a);
    }

    /** The loop of keep_track_of_tail_lines over the newlines to skip; None when its assertion fails. */
    static method FindLineStart(block: Block, skip: nat) returns (r: Option<nat>)
      requires block.nbytes <= block.buffer.Length
      ensures r == LineStart(block.buffer[..block.nbytes], skip)
    {
      ghost var s := block.buffer[..block.nbytes];
      var beg, j := 0, skip;
      while j > 0
        invariant 0 <= j <= skip && skip - j <= Newlines(s)
        invariant beg == AfterNewlines(s, skip - j)
      {
        NextNewline(s, skip - j);
        var p := Memchr(block.buffer[..block.nbytes], beg);
        if p == -1 {
          return None;
        }
        beg := p + 1;
        j := j - 1;
      }
      r := Some(beg);
    }

    /** The second half of keep_track_of_tail_lines, whatever is on record. */
    static method FindTailOffset(block: Block, counted: nat, n: nat) returns (r: Option<nat>)
      requires block.nbytes <= block.buffer.Length
      ensures r == TailStartIn(n, block.buffer[..block.nbytes], counted)
    {
      r := Some(0);
      if counted > n {
        r := FindLineStart(block, counted - n);
      }
    }

    /** What the tail's block has on record. */
    lemma {:induction false} TailBlockHolds()
      requires Linked() && Counted()
      ensures tailBuffer.nbytes == |content[tailIndex]| <= tailBuffer.buffer.Length
      ensures tailBuffer.buffer[..tailBuffer.nbytes] == content[tailIndex]
      ensures tailBuffer.next == if tailIndex + 1 < |chain| then chain[tailIndex + 1] else null
      ensures countLines ==> tailBuffer.nlines == Wrap(Newlines(content[tailIndex]) + Own(tailIndex))
      ensures StraysIn(strayAt, unset, tailIndex + 1) == StraysIn(strayAt, unset, tailIndex) + Own(tailIndex)
      ensures tailIndex == 0 ==> tailBuffer == first
    {
      hide Newlines, Flat, BytesBefore, LinesBefore, Wrap;
      assert chain[tailIndex].Holds(content[tailIndex], Own(tailIndex), bufsiz, countLines);
      assert tailIndex + 1 < |chain| ==> chain[tailIndex].next == chain[tailIndex + 1];
    }

    /** What the counters say about the lines from the tail's block on, and behind it. */
    lemma {:induction false} CountersMean()
      requires Linked() && Counted() && countLines
      ensures var lines, strays := Newlines(Flat(content)), StraysIn(strayAt, unset, |content|);
              && SizeSub(totalLines, linesUpToTailBuffer) ==
                 Wrap(lines - LinesBefore(content, tailIndex) + strays - StraysIn(strayAt, unset, tailIndex))
              && SizeSub(SizeSub(totalLines, linesUpToTailBuffer), tailBuffer.nlines) ==
                 Wrap(lines - LinesBefore(content, tailIndex + 1) + strays - StraysIn(strayAt, unset, tailIndex + 1))
    {
      hide Newlines, AfterNewlines, Flat, LinesBefore, BytesBefore, Wrap, StraysIn, Own, SizeSub;
      var lines, strays := Newlines(Flat(content)), StraysIn(strayAt, unset, |content|);
      var before := LinesBefore(content, tailIndex) + StraysIn(strayAt, unset, tailIndex);
      TailBlockHolds();
      hide Linked;
      LinesSplit(content, tailIndex);
      WrapTwice(lines + strays, before);
      WrapTwice(lines + strays - before, Newlines(content[tailIndex]) + Own(tailIndex));
    }

    /** The number of lines behind the tail's block, as the skip loop computes it. */
    lemma {:induction false} SkipMeans()
      requires Linked() && Counted() && Ready() && countLines
      ensures var behind := SizeSub(SizeSub(totalLines, linesUpToTailBuffer), tailBuffer.nlines);
              && (SettledIn(nUnits, content, strayAt) ==>
                    behind == Newlines(Flat(content)) - LinesBefore(content, tailIndex + 1))
              && (!SettledIn(nUnits, content, strayAt) && strayAt <= tailIndex ==> behind <= nUnits)
              && (!SettledIn(nUnits, content, strayAt) && tailIndex < strayAt ==>
                    behind == Wrap(Newlines(Flat(content)) + unset))
    {
      hide Newlines, AfterNewlines, Flat, LinesBefore, BytesBefore, Start, Linked, SettledIn, PlacedIn, ReadyIn;
      hide StraysIn, SizeSub;
      CountersMean();
      BehindMeans(TheUnits(), content, strayAt, unset, tailIndex);
    }

    /** The number of lines from the tail's block on, when the skip loop has stopped. */
    lemma {:induction false} CountedMeans()
      requires Linked() && Counted() && Ready() && countLines
      requires SettledIn(nUnits, content, strayAt) && strayAt >= 0 ==> strayAt < tailIndex
      ensures var counted := SizeSub(totalLines, linesUpToTailBuffer);
              && (SettledIn(nUnits, content, strayAt) ==>
                    counted == Newlines(Flat(content)) - LinesBefore(content, tailIndex))
              && (!SettledIn(nUnits, content, strayAt) && tailIndex <= strayAt ==>
                    counted == Wrap(Newlines(Flat(content)) + unset))
              && (!SettledIn(nUnits, content, strayAt) && strayAt < tailIndex ==>
                    counted == LinesBehind(content, strayAt))
    {
      hide Newlines, AfterNewlines, Flat, LinesBefore, BytesBefore, Start, Linked, SettledIn, PlacedIn, ReadyIn;
      hide StraysIn, SizeSub, LinesBehind;
      CountersMean();
      OnwardMeans(TheUnits(), content, strayAt, unset, tailIndex);
    }

    /** The prefix sums with the tail's block. */
    lemma {:induction false} NextCounts()
      requires Linked() && Counted()
      ensures BytesBefore(content, tailIndex + 1) == bytesUpToTailBuffer + tailBuffer.nbytes <= totalBytes
      ensures countLines ==>
                SizeAdd(linesUpToTailBuffer, tailBuffer.nlines) ==
                Wrap(LinesBefore(content, tailIndex + 1) + StraysIn(strayAt, unset, tailIndex + 1))
    {
      hide Newlines, AfterNewlines, Flat, LinesBefore, BytesBefore, Start, Wrap, StraysIn, Own;
      TailBlockHolds();
      hide Linked;
      BeforeNext(content, tailIndex);
      WrapTwice(LinesBefore(content, tailIndex) + StraysIn(strayAt, unset, tailIndex),
                Newlines(content[tailIndex]) + Own(tailIndex));
    }

    /** Without a stray count, no sum or difference of line counters wraps around. */
    lemma {:induction false} LinesDoNotWrap()
      requires Linked() && Counted() && countLines && strayAt < 0
      ensures linesUpToTailBuffer <= totalLines && linesUpToTailBuffer + tailBuffer.nlines <= totalLines
      ensures SizeSub(SizeSub(totalLines, linesUpToTailBuffer), tailBuffer.nlines) ==
              totalLines - linesUpToTailBuffer - tailBuffer.nlines
      ensures SizeAdd(linesUpToTailBuffer, tailBuffer.nlines) == linesUpToTailBuffer + tailBuffer.nlines
      ensures first != null && first.nlines <= totalLines
      ensures tailIndex > 0 ==> first.nlines <= linesUpToTailBuffer
      ensures SizeSub(totalLines, first.nlines) == totalLines - first.nlines
    {
      hide Newlines, AfterNewlines, Flat, LinesBefore, BytesBefore, Start;
      TailBlockHolds();
      FirstIsCounted();
      hide Linked;
      BeforeNext(content, tailIndex);
      LinesSplit(content, tailIndex);
      LinesFit(content, tailIndex);
      FirstBefore(content, |content|);
      if tailIndex > 0 {
        FirstBefore(content, tailIndex);
      }
    }

    /** As long as the skip loop goes on, there is a next block, and the search may begin there. */
    lemma {:induction false} SkipGoesOn()
      requires Linked() && Counted() && Ready() && countLines
      requires SizeSub(SizeSub(totalLines, linesUpToTailBuffer), tailBuffer.nlines) > nUnits
      ensures tailIndex + 1 < |content| && tailBuffer.next == chain[tailIndex + 1]
      ensures ReadyIn(TheUnits(), content, strayAt, tailIndex + 1)
      ensures !SettledIn(nUnits, content, strayAt) ==>
                tailIndex + 1 == strayAt && Wrap(Newlines(Flat(content)) + unset) > nUnits
    {
      hide Newlines, AfterNewlines, Flat, LinesBefore, BytesBefore, Start, Wrap, StraysIn, Own;
      hide ReadyIn, PlacedIn, SettledIn;
      SkipMeans();
      TailBlockHolds();
      hide Linked;
      ReadyNext(TheUnits(), content, strayAt, unset, tailIndex,
                SizeSub(SizeSub(totalLines, linesUpToTailBuffer), tailBuffer.nlines));
      StrayIsNear(content, strayAt);
    }

    /** The first loop of keep_track_of_tail_lines. */
    method SkipUnneededLines()
      requires Linked() && Counted() && Ready() && countLines
      modifies this`tailBuffer, this`tailIndex
      modifies this`bytesUpToTailBuffer, this`linesUpToTailBuffer
      ensures Counted() && Ready()
      ensures SizeSub(SizeSub(totalLines, linesUpToTailBuffer), tailBuffer.nlines) <= nUnits
      ensures tailIndex >= old(tailIndex)
      ensures !SettledIn(nUnits, content, strayAt) ==>
                tailIndex == SkippedIn(nUnits, content, strayAt, unset, old(tailIndex))
    {
      hide Newlines, AfterNewlines, Flat, BytesBefore, LinesBefore, Start, Wrap, SettledIn, PlacedIn, ReadyIn, StraysIn;
      hide Linked, SizeAdd, SizeSub;
      NotOwnBlock();
      while SizeSub(SizeSub(totalLines, linesUpToTailBuffer), tailBuffer.nlines) > nUnits
        invariant Counted() && Ready() && old(tailIndex) <= tailIndex
        invariant !SettledIn(nUnits, content, strayAt) && tailIndex != old(tailIndex) ==>
                    old(tailIndex) < tailIndex == strayAt && Wrap(Newlines(Flat(content)) + unset) > nUnits
        decreases |chain| - tailIndex
      {
        SkipGoesOn();
        NextCounts();
        bytesUpToTailBuffer := bytesUpToTailBuffer + tailBuffer.nbytes;
        linesUpToTailBuffer := SizeAdd(linesUpToTailBuffer, tailBuffer.nlines);
        tailBuffer := tailBuffer.next;
        tailIndex := tailIndex + 1;
      }
      SkipMeans();
    }

    /** Once the skip loop has stopped, the offset in its block is where the search ends. */
    lemma {:induction false} OffsetIsFound(r: Option<nat>)
      requires Linked() && Counted() && Ready() && countLines
      requires SizeSub(SizeSub(totalLines, linesUpToTailBuffer), tailBuffer.nlines) <= nUnits
      requires r == TailStartIn(nUnits, content[tailIndex], SizeSub(totalLines, linesUpToTailBuffer))
      ensures r.None? <==> AbortsIn(nUnits, content, strayAt, unset, tailIndex)
      ensures r.Some? ==> FoundIn(TheUnits(), content, strayAt, unset, tailIndex, r.value)
    {
      hide Newlines, AfterNewlines, Flat, LinesBefore, BytesBefore, Start, Wrap, Linked, SizeSub, PlacedIn, ReadyIn;
      hide SettledIn, FoundIn, AbortsIn, StraysIn, LinesBehind, TailStartIn;
      SkipMeans();
      StoppedIn(TheUnits(), content, strayAt, unset, tailIndex,
                SizeSub(SizeSub(totalLines, linesUpToTailBuffer), tailBuffer.nlines));
      CountedMeans();
      OffsetFound(TheUnits(), content, strayAt, unset, tailIndex, SizeSub(totalLines, linesUpToTailBuffer), r);
    }

    lemma {:induction false} AllFromFirst()
      requires Linked() && Counted() && countLines && tailIndex == 0
      ensures SizeSub(SizeSub(totalLines, linesUpToTailBuffer), tailBuffer.nlines) == SizeSub(totalLines, first.nlines)
    {
      hide Newlines, Flat, BytesBefore;
      NothingBefore(content);
    }

    method KeepTrackOfTailLines() returns (aborted: bool)
      requires Linked() && Counted() && Ready() && countLines
      modifies this`tailBuffer, this`tailIndex, this`tailOffset
      modifies this`bytesUpToTailBuffer, this`linesUpToTailBuffer
      ensures aborted <==> AbortsIn(nUnits, content, strayAt, unset, old(tailIndex))
      ensures Counted() && (!aborted ==> Found())
      ensures !SettledIn(nUnits, content, strayAt) ==>
                tailIndex == SkippedIn(nUnits, content, strayAt, unset, old(tailIndex))
      ensures tailIndex == 0 ==> SizeSub(totalLines, first.nlines) <= nUnits
    {
      hide Newlines, AfterNewlines, Flat, BytesBefore, LinesBefore, Start, Wrap, SettledIn, ReadyIn, PlacedIn, FoundIn;
      hide AbortsIn, Linked, StraysIn;
      NotOwnBlock();
      SkipUnneededLines();
      AbortsLater(nUnits, content, strayAt, unset, old(tailIndex), tailIndex);
      TailBlockHolds();
      if tailIndex == 0 {
        AllFromFirst();
      }
      var beg := FindTailOffset(tailBuffer, SizeSub(totalLines, linesUpToTailBuffer), nUnits);
      OffsetIsFound(beg);
      if beg == None {
        return true;
      }
      tailOffset := beg.value;
      return false;
    }

    method KeepTrackOfTailBytes()
      requires Linked() && Counted() && Ready() && !countLines && strayAt < 0
      modifies this`tailBuffer, this`tailIndex, this`tailOffset, this`bytesUpToTailBuffer
      ensures Counted() && Found()
      ensures tailIndex == 0 ==> totalBytes - first.nbytes <= nUnits
    {
      hide Newlines, AfterNewlines, Flat, BytesBefore, LinesBefore, StraysIn, Wrap;
      hide Linked;
      NotOwnBlock();
      NextCounts();
      while totalBytes - bytesUpToTailBuffer - tailBuffer.nbytes > nUnits
        invariant Counted() && Ready()
        invariant bytesUpToTailBuffer + tailBuffer.nbytes <= totalBytes
        decreases |chain| - tailIndex
      {
        TailBlockHolds();
        NextCounts();
        BytesAfter(content, tailIndex);
        bytesUpToTailBuffer := bytesUpToTailBuffer + tailBuffer.nbytes;
        tailBuffer := tailBuffer.next;
        tailIndex := tailIndex + 1;
        NextCounts();
      }
      TailBlockHolds();
      NextCounts();
      NothingBefore(content);
      if totalBytes - bytesUpToTailBuffer > nUnits {
        tailOffset := totalBytes - bytesUpToTailBuffer - nUnits;
      } else {
        tailOffset := 0;
      }
    }

    /** No chunk of size zero is served while a later block has bytes. */
    method ShiftPastExhausted()
      requires Linked() && Counted() && Found() && PlacedIn(content, strayAt)
      requires NoEmptyLater(content)
      modifies this`tailBuffer, this`tailIndex, this`tailOffset
      modifies this`bytesUpToTailBuffer, this`linesUpToTailBuffer
      ensures Counted() && Found() && Shifted()
      ensures if old(tailOffset) == |content[old(tailIndex)]| && old(tailIndex) + 1 < |content|
              then tailIndex == old(tailIndex) + 1 && tailOffset == 0
              else tailIndex == old(tailIndex) && tailOffset == old(tailOffset)
    {
      hide Newlines, AfterNewlines, Flat, BytesBefore, LinesBefore, Start, StraysIn, Wrap, FoundIn, PlacedIn;
      TailBlockHolds();
      NextCounts();
      hide Linked;
      FoundNext(TheUnits(), content, strayAt, unset, tailIndex, tailOffset);
      FoundIsInside(TheUnits(), content, strayAt, unset, tailIndex, tailOffset);
      if tailOffset == tailBuffer.nbytes && tailBuffer.next != null {
        bytesUpToTailBuffer := bytesUpToTailBuffer + tailBuffer.nbytes;
        linesUpToTailBuffer := SizeAdd(linesUpToTailBuffer, tailBuffer.nlines);
        tailBuffer := tailBuffer.next;
        tailOffset := 0;
        tailIndex := tailIndex + 1;
      }
    }

    /** What the code tests before it drops the first block. */
    ghost predicate Droppable()
      reads this`first, this`totalLines, this`totalBytes, first
    {
      first != null &&
      (if countLines then SizeSub(totalLines, first.nlines) > nUnits else totalBytes - first.nbytes > nUnits)
    }

    /** Whether a search that began at block t went beyond the block with an unsettled stray count. */
    ghost predicate MovedFrom(t: nat)
      reads this`content, this`strayAt, this`tailIndex
    {
      0 <= strayAt < |content| && !SettledIn(nUnits, content, strayAt) ==>
        (tailIndex == strayAt + 1 <==> MovesOn(nUnits, content, strayAt, unset, t))
    }

    method KeepTrackOfTail() returns (aborted: bool)
      requires Linked() && Counted() && Ready() && (strayAt >= 0 ==> countLines)
      requires NoEmptyLater(content)
      modifies this`tailBuffer, this`tailIndex, this`tailOffset
      modifies this`bytesUpToTailBuffer, this`linesUpToTailBuffer
      ensures aborted <==> AbortsIn(nUnits, content, strayAt, unset, old(tailIndex))
      ensures !aborted ==> Linked() && Counted() && Found() && Shifted() && MovedFrom(old(tailIndex))
      ensures !aborted && Droppable() ==> tailIndex > 0
    {
      hide Newlines, AfterNewlines, Flat, BytesBefore, LinesBefore, Start, StraysIn, Wrap, FoundIn, PlacedIn, ReadyIn;
      hide Linked, Counted, NoEmptyLater;
      NotOwnBlock();
      aborted := false;
      if countLines {
        aborted := KeepTrackOfTailLines();
      } else {
        KeepTrackOfTailBytes();
      }
      if !aborted {
        ghost var t1, off := tailIndex, tailOffset;
        ShiftPastExhausted();
        Moved(old(tailIndex), t1, off);
      }
    }

    lemma {:induction false} Moved(t: nat, t1: nat, off: nat)
      requires t < |content| && PlacedIn(content, strayAt) && ReadyIn(TheUnits(), content, strayAt, t)
      requires NoEmptyLater(content)
      requires FoundIn(TheUnits(), content, strayAt, unset, t1, off)
      requires !SettledIn(nUnits, content, strayAt) ==> t1 == SkippedIn(nUnits, content, strayAt, unset, t)
      requires tailIndex == if off == |content[t1]| && t1 + 1 < |content| then t1 + 1 else t1
      ensures MovedFrom(t)
    {
      hide Newlines, Flat, Start, BytesBefore, Wrap, FoundIn, PlacedIn, MovesOn, SkippedIn;
      if 0 <= strayAt < |content| && !SettledIn(nUnits, content, strayAt) {
        MovesExactly(TheUnits(), content, strayAt, unset, t, t1, off, tailIndex);
      }
    }

    /** The tail's block and offset are where the tail of the chain begins. */
    ghost predicate Right()
      reads this`content, this`tailIndex, this`tailOffset
    {
      tailIndex < |content| && BytesBefore(content, tailIndex) + tailOffset == Start(TheUnits(), Flat(content))
    }

    /** The stray count still matters, and the tail is beyond its block. */
    ghost predicate Unsettled()
      reads this`content, this`strayAt
    {
      0 <= strayAt < |content| && !SettledIn(nUnits, content, strayAt)
    }

    ghost predicate Beyond()
      reads this`strayAt, this`tailIndex
    {
      tailIndex == strayAt + 1
    }

    /** After a search that began at block t. */
    lemma {:induction false} RightAfter(t: nat)
      requires Counted() && Found() && PlacedIn(content, strayAt) && strayAt <= tailIndex && MovedFrom(t)
      requires strayAt >= 0 ==> countLines && unset > 0
      ensures Right() <==> RightIn(nUnits, content, strayAt, unset, t)
    {
      hide Newlines, Flat, Start, BytesBefore, LinesBefore, Wrap, FoundIn, PlacedIn, MovesOn, StraysIn;
      FoundIsInside(TheUnits(), content, strayAt, unset, tailIndex, tailOffset);
      if strayAt >= 0 {
        RightExactly(nUnits, content, strayAt, unset, t, tailIndex, tailOffset);
      } else {
        FoundExactly(TheUnits(), content, strayAt, unset, tailIndex, tailOffset);
      }
    }

    /** Between searches. */
    lemma {:induction false} RightBetween()
      requires Sound()
      ensures Right() <==> RightIn(nUnits, content, strayAt, unset, tailIndex)
      ensures Unsettled() ==> (Beyond() <==> MovesOn(nUnits, content, strayAt, unset, tailIndex))
    {
      hide Linked, Retained, Compact, Bounded, Fits, Newlines, Flat, Start, BytesBefore, LinesBefore, Wrap;
      hide FoundIn, PlacedIn, MovesOn, StraysIn, RightIn;
      FoundIsInside(TheUnits(), content, strayAt, unset, tailIndex, tailOffset);
      if Unsettled() {
        MovedExactly(TheUnits(), content, strayAt, unset, tailIndex, tailOffset);
      }
      RightAfter(tailIndex);
    }

    /** The loop that counts the newlines just read. */
    static method CountNewlines(block: Block)
      requires block.nbytes <= block.buffer.Length && block.nlines < WORD_MODULUS
      modifies block`nlines
      ensures block.nlines == Wrap(old(block.nlines) + Newlines(block.buffer[..block.nbytes]))
    {
      hide Wrap, Newlines, AfterNewlines, Memchr;
      ghost var s := block.buffer[..block.nbytes];
      FromBeginning(s);
      var p, counted := 0, 0;
      var q := Memchr(block.buffer[..block.nbytes], p);
      NextNewline(s, 0);
      while q != -1
        invariant counted <= Newlines(s) && p == AfterNewlines(s, counted) && q == Memchr(s, p)
        invariant block.nlines == Wrap(old(block.nlines) + counted)
        decreases |s| - p
      {
        NextNewline(s, counted);
        WrapTwice(old(block.nlines) + counted, 1);
        p := q + 1;
        counted := counted + 1;
        block.nlines := SizeAdd(block.nlines, 1);
        q := Memchr(block.buffer[..block.nbytes], p);
      }
      NextNewline(s, counted);
    }

    static method Memcpy(dst: array<Byte>, at: nat, src: array<Byte>, n: nat)
      requires at + n <= dst.Length && n <= src.Length && dst != src
      modifies dst
      ensures dst[..at + n] == old(dst[..at]) + src[..n]
      ensures dst[at + n..] == old(dst[at + n..])
    {
      forall i | 0 <= i < n {
        dst[at + i] := src[i];
      }
    }

    /** Where the stray count is when an input with the stray count e has become part of the chain. */
    static ghost function NextStray(c: seq<seq<Byte>>, at: int, e: nat, merge: bool): int {
      if e > 0 then (if merge then |c| - 1 else |c|) else at
    }

    /** Copy the bytes of block src behind those of block dst. */
    static method CopyBehind(dst: Block, src: Block, ghost c: seq<Byte>, ghost o: nat, ghost d: seq<Byte>, ghost e: nat,
                             size: nat, countLines: bool)
      requires dst.Holds(c, o, size, countLines) && src.Holds(d, e, size, countLines)
      requires dst != src && dst.buffer != src.buffer && |c| + |d| < size
      modifies dst`nbytes, dst`nlines, dst.buffer
      ensures dst.Holds(c + d, o + e, size, countLines)
    {
      hide Newlines, Wrap;
      NewlinesConcat(c, d);
      WrapTwice(Newlines(c) + o, Newlines(d) + e);
      Memcpy(dst.buffer, dst.nbytes, src.buffer, src.nbytes);
      dst.nbytes := dst.nbytes + src.nbytes;
      dst.nlines := SizeAdd(dst.nlines, src.nlines);
      assert dst.buffer[..dst.nbytes] == c + d;
    }

    /** Copy the spare block's bytes behind those of the last block. */
    method CopyIntoLast(ghost d: seq<Byte>, ghost e: nat)
      requires Linked() && SpareApart() && append != null && append.Holds(d, e, bufsiz, countLines)
      requires append.nbytes + last.nbytes < bufsiz
      requires e > 0 ==> e == unset && strayAt < 0
      modifies this`content, this`strayAt, last`nbytes, last`nlines, last.buffer
      ensures Linked() && content == Extended(old(content), d, true)
      ensures strayAt == NextStray(old(content), old(strayAt), e, true)
    {
      hide AfterNewlines, Flat, Newlines, Wrap, Chained;
      LastApart();
      ghost var k := |chain| - 1;
      assert last.Holds(content[k], Own(k), bufsiz, countLines);
      CopyBehind(last, append, content[k], Own(k), d, e, bufsiz, countLines);
      strayAt := NextStray(content, strayAt, e, true);
      content := Extended(content, d, true);
    }

    /** Make the spare block the last one of the chain. */
    method LinkAsLast(ghost d: seq<Byte>, ghost e: nat)
      requires Linked() && SpareApart() && append != null && append.Holds(d, e, bufsiz, countLines)
      requires strayAt < |content| && (e > 0 ==> e == unset && strayAt < 0)
      modifies this`content, this`chain, this`strayAt, this`last, last`next
      ensures Linked() && content == Extended(old(content), d, false)
      ensures chain == old(chain) + [append]
      ensures strayAt == NextStray(old(content), old(strayAt), e, false)
    {
      hide AfterNewlines, Flat, Newlines, Wrap;
      last.next := append;
      last := append;
      strayAt := NextStray(content, strayAt, e, false);
      chain := chain + [append];
      content := content + [d];
    }

    method UnlinkFirst()
      requires Linked() && |chain| > 1
      modifies this`first, this`chain, this`content, this`strayAt
      ensures Linked()
      ensures chain == old(chain)[1..] && content == old(content)[1..] && strayAt == old(strayAt) - 1
      ensures old(first) != null && old(first).buffer.Length == bufsiz
      ensures forall i | 0 <= i < |chain| :: chain[i] != old(first) && chain[i].buffer != old(first).buffer
    {
      hide Newlines, Wrap;
      assert first.Holds(content[0], Own(0), bufsiz, countLines);
      assert chain[0].next == chain[0 + 1];
      first := first.next;
      chain := chain[1..];
      content := content[1..];
      strayAt := strayAt - 1;
    }

    /** What the drop subtracts from the counters. */
    lemma {:induction false} FirstIsCounted()
      requires Linked() && Counted()
      ensures first != null && first == chain[0] && first.nbytes == |content[0]| <= totalBytes
      ensures tailIndex > 0 ==> first != tailBuffer && first.nbytes <= bytesUpToTailBuffer
      ensures countLines ==> first.nlines == Wrap(Newlines(content[0]) + Own(0))
    {
      hide Newlines, Wrap, BytesBefore, LinesBefore, StraysIn, Flat;
      assert first.Holds(content[0], Own(0), bufsiz, countLines);
      FirstBefore(content, 1);
      NothingBefore(content);
      BeforeNext(content, 0);
      if tailIndex > 0 {
        FirstBefore(content, tailIndex);
      }
    }

    /** Take the first block off the chain, as the next spare block. */
    method RecycleFirst()
      requires Linked() && |chain| > 1 && tailIndex > 0 && first != null
      requires first.nbytes <= totalBytes && first.nbytes <= bytesUpToTailBuffer
      modifies this`append, this`first, this`chain, this`content, this`strayAt, this`tailIndex
      modifies this`totalBytes, this`totalLines, this`bytesUpToTailBuffer, this`linesUpToTailBuffer
      ensures Linked() && SpareBeside() && append == old(first)
      ensures chain == old(chain)[1..] && content == old(content)[1..] && strayAt == old(strayAt) - 1
      ensures tailIndex == old(tailIndex) - 1
      ensures totalBytes == old(totalBytes - first.nbytes)
      ensures bytesUpToTailBuffer == old(bytesUpToTailBuffer - first.nbytes)
      ensures totalLines == SizeSub(old(totalLines), old(first.nlines))
      ensures linesUpToTailBuffer == SizeSub(old(linesUpToTailBuffer), old(first.nlines))
    {
      hide Linked, AfterNewlines, Flat, BytesBefore, LinesBefore, Start, Newlines, Wrap, SizeSub;
      NotOwnBlock();
      append := first;
      totalBytes := totalBytes - first.nbytes;
      totalLines := SizeSub(totalLines, first.nlines);
      bytesUpToTailBuffer := bytesUpToTailBuffer - first.nbytes;
      linesUpToTailBuffer := SizeSub(linesUpToTailBuffer, first.nlines);
      UnlinkFirst();
      NotOwnBlock();
      tailIndex := tailIndex - 1;
    }

    /** The counters without the first block. */
    lemma {:induction false} DropCounts()
      requires Linked() && Counted() && tailIndex > 0
      ensures totalBytes - first.nbytes == |Flat(content[1..])| < WORD_MODULUS
      ensures bytesUpToTailBuffer - first.nbytes == BytesBefore(content[1..], tailIndex - 1)
      ensures countLines ==>
                SizeSub(totalLines, first.nlines) ==
                Wrap(Newlines(Flat(content[1..])) + StraysIn(strayAt - 1, unset, |content| - 1))
      ensures countLines ==>
                SizeSub(linesUpToTailBuffer, first.nlines) ==
                Wrap(LinesBefore(content[1..], tailIndex - 1) + StraysIn(strayAt - 1, unset, tailIndex - 1))
    {
      hide Newlines, Wrap, BytesBefore, LinesBefore, Flat;
      FirstIsCounted();
      hide Linked;
      DroppedCounts(content, tailIndex);
      WrapTwice(Newlines(Flat(content)) + StraysIn(strayAt, unset, |content|), Newlines(content[0]) + Own(0));
      WrapTwice(LinesBefore(content, tailIndex) + StraysIn(strayAt, unset, tailIndex), Newlines(content[0]) + Own(0));
    }

    method DropFirst()
      requires Linked() && Counted() && Placed() && Found() && Shifted() && Retained()
      requires tailIndex > 0
      requires content[0] == [] || Count(TheUnits(), Flat(content)) - Count(TheUnits(), content[0]) > nUnits
      modifies this`append, this`first, this`chain, this`content, this`strayAt, this`dropped, this`tailIndex
      modifies this`totalBytes, this`totalLines, this`bytesUpToTailBuffer, this`linesUpToTailBuffer
      ensures Linked() && Counted() && Placed() && Found() && Shifted() && Retained()
      ensures SpareBeside() && append == old(first)
      ensures chain == old(chain)[1..] && content == old(content)[1..] && strayAt == old(strayAt) - 1
      ensures Right() == old(Right()) && Beyond() == old(Beyond()) && (Unsettled() ==> old(Unsettled()))
    {
      hide Linked, RetainedIn, Flat, Newlines, Start, FoundIn, PlacedIn, BytesBefore, LinesBefore, StraysIn, Wrap;
      ghost var c := content;
      FirstIsCounted();
      DropCounts();
      FoundIsInside(TheUnits(), content, strayAt, unset, tailIndex, tailOffset);
      FoundDropped(TheUnits(), content, strayAt, unset, tailIndex, tailOffset);
      DroppedRetained(TheUnits(), history, dropped, content);
      RecycleFirst();
      dropped := dropped + c[0];
      NotOwnBlock();
    }

    lemma {:induction false} SpareOutsideChain()
      requires append != null && SpareApart()
      ensures append !in ChainRepr() && append.buffer !in ChainRepr()
      ensures append.buffer.Length == bufsiz
    {
    }

    /** The totals already include d, with the stray count e, which is not yet part of the content c. */
    ghost predicate Ahead(c: seq<seq<Byte>>, at: int, d: seq<Byte>, e: nat)
      reads this`tailIndex, this`totalBytes, this`bytesUpToTailBuffer, this`totalLines, this`linesUpToTailBuffer
    {
      && tailIndex < |c| && d != [] && unset < WORD_MODULUS
      && totalBytes == |Flat(c)| + |d| < WORD_MODULUS
      && bytesUpToTailBuffer == BytesBefore(c, tailIndex)
      && ReadyIn(TheUnits(), c, at, tailIndex) && PlacedIn(c, at) && at <= tailIndex && (at >= 0 ==> countLines)
      && (e > 0 ==> e == unset && at < 0 && c == [[]] && countLines)
      && (countLines ==> totalLines == Wrap(Newlines(Flat(c)) + StraysIn(at, unset, |c|) + (Newlines(d) + e)))
      && (countLines ==> linesUpToTailBuffer == Wrap(LinesBefore(c, tailIndex) + StraysIn(at, unset, tailIndex)))
    }

    /** Once d is part of the chain, the search may begin. */
    lemma {:induction false} ReadyAgain(c: seq<seq<Byte>>, at: int, d: seq<Byte>, e: nat, merge: bool)
      requires Ahead(c, at, d, e)
      ensures var c', at' := Extended(c, d, merge), NextStray(c, at, e, merge);
              && ReadyIn(TheUnits(), c', at', tailIndex) && PlacedIn(c', at') && (at' >= 0 ==> countLines)
    {
      hide Newlines, Flat, Start, BytesBefore, LinesBefore, Wrap;
      if e > 0 {
        FirstReady(TheUnits(), d, merge);
      } else if countLines {
        ReadyExtended(TheUnits(), c, at, tailIndex, d, merge);
      } else {
        ExtendedCounts(TheUnits(), c, d, merge, tailIndex);
      }
    }

    /** ...and the counters fit again. */
    lemma {:induction false} CaughtUp(c: seq<seq<Byte>>, at: int, d: seq<Byte>, e: nat, merge: bool)
      requires Ahead(c, at, d, e) && content == Extended(c, d, merge) && strayAt == NextStray(c, at, e, merge)
      requires |chain| == |content| && tailBuffer == chain[tailIndex]
      ensures Counted() && Ready() && (strayAt >= 0 ==> countLines)
    {
      hide Newlines, Flat, Start, BytesBefore, LinesBefore, Wrap, ReadyIn, PlacedIn;
      ReadyAgain(c, at, d, e, merge);
      ExtendedCounts(TheUnits(), c, d, merge, tailIndex);
      NewlinesConcat(Flat(c), d);
      StraysExtended(c, at, d, e, merge);
    }

    lemma {:induction false} StraysExtended(c: seq<seq<Byte>>, at: int, d: seq<Byte>, e: nat, merge: bool)
      requires Ahead(c, at, d, e)
      ensures var c', at' := Extended(c, d, merge), NextStray(c, at, e, merge);
              && StraysIn(at', unset, |c'|) == StraysIn(at, unset, |c|) + e
              && StraysIn(at', unset, tailIndex) == StraysIn(at, unset, tailIndex)
    {
      hide Newlines, Flat, Start, BytesBefore, LinesBefore, Wrap, ReadyIn;
    }

    /** There is room in the counters for a block more. */
    lemma {:induction false} RoomForInput()
      requires Linked() && Fits() && append != null
      ensures |Flat(content)| + bufsiz < WORD_MODULUS
    {
      hide Flat, Newlines, Wrap;
      forall i | 0 <= i < |content|
        ensures |content[i]| <= bufsiz
      {
        assert chain[i].Holds(content[i], Own(i), bufsiz, countLines);
      }
      FlatFits(content, bufsiz);
      assert inUse * bufsiz == |content| * bufsiz + bufsiz;
    }

    /** As long as nothing has been appended, there is one empty block. */
    lemma {:induction false} FreshContent()
      requires Sound() && history == []
      ensures content == [[]] && strayAt < 0
    {
      hide Linked, Counted, Found, Shifted, Bounded, PairsFull;
      ChainIsContent();
      assert Flat(content) == [];
      EmptyChain(content);
    }

    /** What is needed for the new bytes to be counted in. */
    lemma {:induction false} BeforeCounting()
      requires Usable()
      ensures Linked() && Fits() && Counted() && SpareApart() && SpareBlank() && PlacedIn(content, strayAt)
      ensures ReadyIn(TheUnits(), content, strayAt, tailIndex) && strayAt <= tailIndex && (strayAt >= 0 ==> countLines)
      ensures SpareStray() > 0 ==> SpareStray() == unset && strayAt < 0 && content == [[]] && countLines
    {
      hide Linked, Counted, Fits, SpareApart, SpareBlank, Retained, Compact, Bounded, Flat, Newlines, Start;
      hide BytesBefore;
      if history == [] {
        FreshContent();
      }
    }

    /** Count the new bytes and their newlines. */
    method CountIn(size: nat)
      requires append != null && Linked() && Fits() && SpareApart() && SpareBlank() && Counted()
      requires ReadyIn(TheUnits(), content, strayAt, tailIndex) && PlacedIn(content, strayAt) && strayAt <= tailIndex
      requires strayAt >= 0 ==> countLines
      requires SpareStray() > 0 ==> SpareStray() == unset && strayAt < 0 && content == [[]] && countLines
      requires 0 < size <= bufsiz
      modifies append`nbytes, append`nlines, this`totalBytes, this`totalLines, this`history
      ensures append.buffer[..] == old(append.buffer[..])
      ensures Linked() && SpareApart()
      ensures append.Holds(append.buffer[..size], old(SpareStray()), bufsiz, countLines)
      ensures Ahead(content, strayAt, append.buffer[..size], old(SpareStray()))
      ensures history == old(history) + append.buffer[..size]
    {
      hide AfterNewlines, Flat, BytesBefore, LinesBefore, Start, Newlines, Wrap, ReadyIn, PlacedIn, StraysIn, Linked;
      RoomForInput();
      SpareOutsideChain();
      ghost var e, d := SpareStray(), append.buffer[..size];
      WrapTwice(Newlines(Flat(content)) + StraysIn(strayAt, unset, |content|), Newlines(d) + e);
      append.nbytes := size;
      totalBytes := totalBytes + append.nbytes;
      if countLines {
        CountNewlines(append);
        totalLines := SizeAdd(totalLines, append.nlines);
      }
      history := history + d;
    }

    lemma {:induction false} ChainIsContent()
      requires Linked()
      ensures |chain| == |content| >= 1 && bufsiz >= 1
    {
    }

    method MergeIntoLast(ghost d: seq<Byte>, ghost e: nat)
      requires append != null && Linked() && SpareApart() && append.Holds(d, e, bufsiz, countLines)
      requires Ahead(content, strayAt, d, e) && tailBuffer == chain[tailIndex]
      requires NoEmptyLater(content)
      requires append.nbytes + last.nbytes < bufsiz
      modifies this`content, this`strayAt, last`nbytes, last`nlines, last.buffer
      ensures Linked() && Counted() && Ready() && NoEmptyLater(content) && (strayAt >= 0 ==> countLines)
      ensures content == Extended(old(content), d, true)
      ensures strayAt == NextStray(old(content), old(strayAt), e, true)
    {
      hide AfterNewlines, Flat, BytesBefore, LinesBefore, Start, Newlines, Wrap, ReadyIn, PlacedIn, StraysIn, Linked;
      ghost var c, at := content, strayAt;
      CopyIntoLast(d, e);
      NotOwnBlock();
      ChainIsContent();
      CaughtUp(c, at, d, e, true);
    }

    method LinkSpare(ghost d: seq<Byte>, ghost e: nat)
      requires append != null && Linked() && SpareApart() && append.Holds(d, e, bufsiz, countLines)
      requires Ahead(content, strayAt, d, e) && tailBuffer == chain[tailIndex]
      requires NoEmptyLater(content)
      modifies this`content, this`chain, this`strayAt, this`last, last`next
      ensures Linked() && Counted() && Ready() && NoEmptyLater(content) && (strayAt >= 0 ==> countLines)
      ensures content == Extended(old(content), d, false) && chain == old(chain) + [append]
      ensures strayAt == NextStray(old(content), old(strayAt), e, false)
    {
      hide AfterNewlines, Flat, BytesBefore, LinesBefore, Start, Newlines, Wrap, ReadyIn, PlacedIn, StraysIn, Linked;
      ghost var c, at := content, strayAt;
      ChainIsContent();
      LinkAsLast(d, e);
      ChainIsContent();
      CaughtUp(c, at, d, e, false);
    }

    /** The search for the tail fails once the content c is extended by d. */
    ghost predicate AbortsWith(c: seq<seq<Byte>>, at: int, d: seq<Byte>, e: nat, merge: bool)
      requires |c| > 0
      reads this`tailIndex
    {
      AbortsIn(nUnits, Extended(c, d, merge), NextStray(c, at, e, merge), unset, tailIndex)
    }

    /** The search finds the tail once the content c is extended by d... */
    ghost predicate RightAs(c: seq<seq<Byte>>, at: int, d: seq<Byte>, e: nat, merge: bool)
      requires |c| > 0
      reads this`tailIndex
    {
      RightIn(nUnits, Extended(c, d, merge), NextStray(c, at, e, merge), unset, tailIndex)
    }

    /** ...and goes beyond the block with the stray count. */
    ghost predicate MovesAs(c: seq<seq<Byte>>, at: int, d: seq<Byte>, e: nat, merge: bool)
      requires |c| > 0
      reads this`tailIndex
    {
      var c', at' := Extended(c, d, merge), NextStray(c, at, e, merge);
      0 <= at' < |c'| && MovesOn(nUnits, c', at', unset, tailIndex)
    }

    /** What has been appended, h, fits with the content c; the stray count is in block at. */
    ghost predicate Kept(h: seq<Byte>, c: seq<seq<Byte>>, at: int)
      reads this`dropped
    {
      && RetainedIn(TheUnits(), h, dropped, c) && CompactIn(bufsiz, h, c) && BoundsIn(h, c, at)
      && (at >= 0 ==> unset > 0)
    }

    /** The new bytes d, which follow the history h, are counted in but not yet part of the chain. */
    ghost predicate Pending(h: seq<Byte>, d: seq<Byte>, e: nat)
      reads this, append, if append == null then {} else {append.buffer}, ChainRepr()
    {
      && append != null && Linked() && SpareApart() && append.Holds(d, e, bufsiz, countLines)
      && Ahead(content, strayAt, d, e) && |content| == |chain| > 0 && tailBuffer == chain[tailIndex]
      && history == h + d && Fits() && Kept(h, content, strayAt)
      && last.nbytes == |content[|content| - 1]| && first == chain[0]
      && {first, first.buffer, last, last.buffer} <= ChainRepr()
    }

    lemma {:induction false} KeptMerged(h: seq<Byte>, d: seq<Byte>, e: nat)
      requires |content| > 0 && Kept(h, content, strayAt) && d != []
      requires e > 0 ==> e == unset && content == [[]]
      requires |content[|content| - 1]| + |d| < bufsiz
      ensures Kept(h + d, Extended(content, d, true), NextStray(content, strayAt, e, true))
    {
      hide RetainedIn, BoundedIn, StaysIn, PairsFull;
      RetainedExtended(TheUnits(), h, dropped, content, d, true);
      CompactMerged(bufsiz, h, content, d);
      BoundedStays(TheUnits(), bufsiz, h, content, d, Extended(content, d, true), Slack());
      if strayAt == 1 && e == 0 {
        StaysMerged(nUnits, bufsiz, content, d, unset);
      }
    }

    lemma {:induction false} KeptIsSound()
      requires Kept(history, content, strayAt) && history != []
      requires Linked() && Counted() && Found() && Shifted() && Fits() && PlacedIn(content, strayAt)
      requires strayAt >= 0 ==> countLines
      ensures Sound()
    {
      hide Linked, Counted, Found, Shifted, Fits, PlacedIn, RetainedIn, CompactIn, BoundedIn, StaysIn;
    }

    /** buffer_set_appended when the new bytes fit into the last block. */
    method AppendInPlace(ghost h: seq<Byte>, ghost d: seq<Byte>, ghost e: nat) returns (aborted: bool)
      requires append != null && Linked() && SpareApart() && append.Holds(d, e, bufsiz, countLines)
      requires Ahead(content, strayAt, d, e) && tailBuffer == chain[tailIndex] && |content| > 0
      requires history == h + d && Fits() && Kept(h, content, strayAt)
      requires append.nbytes + last.nbytes < bufsiz
      modifies this`content, this`strayAt, last`nbytes, last`nlines, last.buffer
      modifies this`tailBuffer, this`tailIndex, this`tailOffset
      modifies this`bytesUpToTailBuffer, this`linesUpToTailBuffer
      ensures aborted <==> old(AbortsWith(content, strayAt, d, e, true))
      ensures !aborted ==> Sound() && (e == 0 ==> strayAt <= old(strayAt))
      ensures !aborted ==> (Right() <==> old(RightAs(content, strayAt, d, e, true)))
      ensures !aborted && Unsettled() ==> (Beyond() <==> old(MovesAs(content, strayAt, d, e, true)))
    {
      hide Linked, RetainedIn, BoundedIn, ReadyIn, PlacedIn, SettledIn, StraysIn, AbortsIn, Flat, Newlines, PairsFull;
      hide Start, BytesBefore, LinesBefore, Wrap, FoundIn, Counted, NoEmptyLater, Found, Sound, Extended, Right;
      hide RightIn, MovesOn;
      LastIsHeld();
      KeptMerged(h, d, e);
      MergeIntoLast(d, e);
      aborted := KeepTrackOfTail();
      if !aborted {
        KeptIsSound();
        RightAfter(old(tailIndex));
      }
    }

    /** The first block holds nothing of the tail. */
    ghost predicate FirstUnneeded()
      reads this`content
    {
      |content| > 0 &&
      (content[0] == [] || Count(TheUnits(), Flat(content)) - Count(TheUnits(), content[0]) > nUnits)
    }

    /** What the test before the drop means. */
    lemma {:induction false} DroppableMeans()
      requires Linked() && Counted() && PlacedIn(content, strayAt) && (strayAt >= 0 ==> countLines)
      ensures Droppable() ==> FirstUnneeded()
      ensures !Droppable() && strayAt <= 0 ==>
                Count(TheUnits(), Flat(content)) - Count(TheUnits(), content[0]) <= nUnits
      ensures !Droppable() && strayAt == 1 ==> Wrap(Newlines(Flat(content)) + unset) <= nUnits
    {
      hide Newlines, Flat, BytesBefore, LinesBefore, Wrap;
      FirstIsCounted();
      hide Linked;
      if countLines {
        WrapTwice(Newlines(Flat(content)) + StraysIn(strayAt, unset, |content|), Newlines(content[0]) + Own(0));
        LinesFit(content, 1);
        NothingBefore(content);
        LinesSplit(content, 0);
      }
    }

    /** The chain with the spare block at its end and the tail found, before the next spare block is. */
    ghost predicate Grown()
      reads this, first, ChainRepr()
    {
      && Linked() && Counted() && Placed() && Found() && Shifted() && Retained() && history != []
      && inUse == |chain| && inUse * bufsiz < WORD_MODULUS
      && if Droppable() then tailIndex > 0 && FirstUnneeded() && KeptIn(content[1..], strayAt - 1)
         else KeptIn(content, strayAt)
    }

    /** c is compact and bounded. */
    ghost predicate KeptIn(c: seq<seq<Byte>>, at: int)
      reads this`history
    {
      CompactIn(bufsiz, history, c) && BoundsIn(history, c, at)
    }

    lemma {:induction false} KeptLinked(h: seq<Byte>, d: seq<Byte>, e: nat)
      requires |content| > 0 && Kept(h, content, strayAt) && d != [] && history == h + d
      requires e > 0 ==> e == unset && content == [[]] && countLines
      requires PlacedIn(content, strayAt) && (strayAt >= 0 ==> countLines)
      requires bufsiz - |d| <= |content[|content| - 1]| <= bufsiz && |d| <= bufsiz
      ensures var c, at := Extended(content, d, false), NextStray(content, strayAt, e, false);
              && RetainedIn(TheUnits(), history, dropped, c) && CompactIn(bufsiz, history, c) && at <= 1
              && KeptIn(c[1..], at - 1)
              && (at <= 0 && Count(TheUnits(), Flat(c)) - Count(TheUnits(), c[0]) <= nUnits ==> KeptIn(c, at))
              && (at == 1 && Wrap(Newlines(Flat(c)) + unset) <= nUnits && |c| * bufsiz < WORD_MODULUS ==>
                    KeptIn(c, at))
    {
      hide RetainedIn, BoundedIn, Flat, Count, Newlines, Wrap, StaysIn, PairsFull;
      var c, at := Extended(content, d, false), NextStray(content, strayAt, e, false);
      RetainedExtended(TheUnits(), h, dropped, content, d, false);
      CompactLinked(bufsiz, h, content, d);
      BoundedStays(TheUnits(), bufsiz, h, content, d, c[1..], Slack());
      RetainedIsSuffix(TheUnits(), history, dropped, c);
      if at <= 0 && Count(TheUnits(), Flat(c)) - Count(TheUnits(), c[0]) <= nUnits {
        BoundedGrown(TheUnits(), bufsiz, history, dropped, c, Slack());
      }
      if at == 1 && Wrap(Newlines(Flat(c)) + unset) <= nUnits && |c| * bufsiz < WORD_MODULUS {
        BoundsStay(d, e);
      }
    }

    /** While the empty first block stays. */
    lemma {:induction false} BoundsStay(d: seq<Byte>, e: nat)
      requires |content| > 0 && d != [] && bufsiz > 0 && countLines
      requires strayAt == 1 ==> StaysIn(nUnits, bufsiz, content, unset)
      requires if e > 0 then e == unset && content == [[]] else strayAt == 1 && unset > 0
      requires |content[|content| - 1]| <= bufsiz && |d| <= bufsiz
      requires var c := content + [d];
               && PairsFull(c, bufsiz) && history == dropped + Flat(c)
               && Wrap(Newlines(Flat(c)) + unset) <= nUnits && |c| * bufsiz < WORD_MODULUS
      ensures BoundsIn(history, content + [d], 1)
    {
      hide BoundedIn, Flat, Newlines, Wrap, StaysIn, PairsFull;
      var c := content + [d];
      if e > 0 {
        assert c == [[], d];
        StaysFirst(nUnits, bufsiz, d, unset);
        OneBehind(d);
      } else {
        StaysLinked(nUnits, bufsiz, content, d, unset);
        SecondOf(nUnits, bufsiz, content, unset);
      }
      if Newlines(Flat(c[1..])) - Newlines(c[1]) <= nUnits {
        BoundedBehind(TheUnits(), bufsiz, history, dropped, c);
      } else {
        FlatFirst(c);
        assert Flat(c) == Flat(c[1..]);
        NewlinesConcat(dropped, Flat(c));
        BoundedHuge(nUnits, bufsiz, history, c);
      }
    }

    lemma {:induction false} IsGrown()
      requires Linked() && Counted() && Found() && Shifted() && PlacedIn(content, strayAt)
      requires strayAt >= 0 ==> countLines && unset > 0
      requires RetainedIn(TheUnits(), history, dropped, content) && history != []
      requires inUse == |chain| && inUse * bufsiz < WORD_MODULUS
      requires Droppable() ==> tailIndex > 0
      requires |content| > 0 && strayAt <= 1 && KeptIn(content[1..], strayAt - 1)
      requires strayAt <= 0 && Count(TheUnits(), Flat(content)) - Count(TheUnits(), content[0]) <= nUnits ==>
                 KeptIn(content, strayAt)
      requires strayAt == 1 && Wrap(Newlines(Flat(content)) + unset) <= nUnits && |content| * bufsiz < WORD_MODULUS ==>
                 KeptIn(content, strayAt)
      ensures Grown()
    {
      hide Counted, Found, Shifted, PlacedIn, RetainedIn, KeptIn, Flat, Count, Newlines, Wrap, Droppable;
      hide FirstUnneeded;
      DroppableMeans();
      ChainIsContent();
      hide Linked;
    }

    /** buffer_set_appended when they do not: the spare block becomes the last one. */
    method AppendBlock(ghost h: seq<Byte>, ghost d: seq<Byte>, ghost e: nat) returns (aborted: bool)
      requires append != null && Linked() && SpareApart() && append.Holds(d, e, bufsiz, countLines)
      requires Ahead(content, strayAt, d, e) && tailBuffer == chain[tailIndex] && |content| > 0
      requires history == h + d && Fits() && Kept(h, content, strayAt)
      requires |content[|content| - 1]| + |d| >= bufsiz
      modifies this`content, this`chain, this`strayAt, this`last, last`next
      modifies this`tailBuffer, this`tailIndex, this`tailOffset
      modifies this`bytesUpToTailBuffer, this`linesUpToTailBuffer
      ensures aborted <==> old(AbortsWith(content, strayAt, d, e, false))
      ensures !aborted ==> Grown() && (e == 0 ==> strayAt <= old(strayAt))
      ensures !aborted ==> (Right() <==> old(RightAs(content, strayAt, d, e, false)))
      ensures !aborted && Unsettled() ==> (Beyond() <==> old(MovesAs(content, strayAt, d, e, false)))
      ensures chain == old(chain) + [append]
    {
      hide Linked, RetainedIn, BoundedIn, ReadyIn, PlacedIn, SettledIn, StraysIn, AbortsIn, Flat, Newlines, PairsFull;
      hide Start, BytesBefore, LinesBefore, Wrap, FoundIn, Counted, NoEmptyLater, Found, Extended, Count;
      hide FirstUnneeded, Right, RightIn, MovesOn, KeptIn, BoundsIn, Grown, Droppable;
      LastIsHeld();
      KeptLinked(h, d, e);
      LaterInExtended(content, d);
      LinkSpare(d, e);
      aborted := KeepTrackOfTail();
      if !aborted {
        ChainIsContent();
        IsGrown();
        RightAfter(old(tailIndex));
      }
    }

    method UnlinkSpare()
      requires append != null && Linked() && SpareBeside()
      modifies append`next
      ensures Linked() && SpareApart()
    {
      append.next := null;
    }

    method NewSpare(mallocOk: bool)
      requires Linked()
      modifies this`append, this`inUse
      ensures Linked() && SpareBeside()
      ensures if mallocOk && old(Room())
              then append != null && fresh(append) && fresh(append.buffer) && inUse == old(inUse) + 1
              else append == null && inUse == old(inUse)
    {
      append := null;
      if mallocOk && Room() {
        var junk: nat := *;
        append := new Block(bufsiz, junk, junk);
        inUse := inUse + 1;
      }
    }

    /** Find the next spare block: the oldest block of the chain, or a new one. */
    method ReplaceSpare(mallocOk: bool) returns (ok: bool)
      requires Grown()
      modifies this`append, this`first, this`chain, this`content, this`strayAt, this`dropped, this`tailIndex
      modifies this`totalBytes, this`totalLines, this`bytesUpToTailBuffer, this`linesUpToTailBuffer
      modifies this`inUse, first`next
      ensures Sound() && SpareApart() && strayAt <= old(strayAt)
      ensures Right() == old(Right()) && Beyond() == old(Beyond()) && (Unsettled() ==> old(Unsettled()))
      ensures ok <==> append != null
      ensures ok <==> old(Droppable()) || (mallocOk && old(Room()))
      ensures !ok ==> !Droppable()
      ensures if append == old(first) then chain == old(chain)[1..] else chain == old(chain)
      ensures old(Droppable()) ==> append == old(first)
      ensures append != null && append != old(first) ==> fresh(append) && fresh(append.buffer)
    {
      hide Linked, Retained, KeptIn, Found, Shifted, Placed, Counted, Sound, SizeSub, Right, Unsettled;
      FirstIsCounted();
      ChainIsContent();
      var firstDroppable :=
        if countLines then SizeSub(totalLines, first.nlines) > nUnits else totalBytes - first.nbytes > nUnits;
      if firstDroppable {
        assert first != tailBuffer;
        DropFirst();
      } else {
        NewSpare(mallocOk);
        if append == null {
          SoundAgain();
          return false;
        }
      }
      UnlinkSpare();
      SoundAgain();
      return true;
    }

    lemma {:induction false} SoundAgain()
      requires Linked() && Counted() && Placed() && Found() && Shifted() && Retained() && Fits()
      requires KeptIn(content, strayAt)
      ensures Sound()
    {
      hide Linked, Counted, Placed, Found, Shifted, Retained, Fits, CompactIn, BoundedIn, StaysIn;
    }

    lemma {:induction false} LastIsHeld()
      requires Linked()
      ensures bufsiz > 0 && |content| == |chain| > 0
      ensures first == chain[0] && last.nbytes == |content[|content| - 1]| <= bufsiz
      ensures {first, first.buffer, last, last.buffer} <= ChainRepr()
    {
      assert last.Holds(content[|content| - 1], Own(|content| - 1), bufsiz, countLines);
      assert chain[0] in ChainRepr() && chain[|chain| - 1] in ChainRepr();
    }

    method BlankSpare()
      requires append != null && Sound() && SpareApart() && history != []
      modifies append`nbytes, append`nlines
      ensures Sound() && SpareApart() && SpareBlank()
    {
      hide Linked, Counted, Found, Placed, Retained, Compact, Bounded;
      SpareOutsideChain();
      append.nbytes, append.nlines := 0, 0;
    }

    method CountPending(size: nat)
      requires Usable() && 0 < size <= bufsiz
      modifies append`nbytes, append`nlines, this`totalBytes, this`totalLines, this`history
      ensures append.buffer[..] == old(append.buffer[..])
      ensures Pending(old(history), old(append.buffer[..size]), old(SpareStray()))
      ensures history == old(history) + old(append.buffer[..size])
    {
      hide Linked, RetainedIn, CompactIn, BoundedIn, Flat, Newlines, Start, Count, PlacedIn, FoundIn, ReadyIn;
      hide BytesBefore, LinesBefore, ChainObjects, StraysIn, Wrap;
      SpareOutsideChain();
      BeforeCounting();
      LastIsHeld();
      CountIn(size);
    }

    /** The two branches of buffer_set_appended. */
    method AppendPending(ghost h: seq<Byte>, ghost d: seq<Byte>, ghost e: nat, mallocOk: bool)
      returns (ok: bool, aborted: bool)
      requires Pending(h, d, e)
      modifies this, ChainRepr()
      ensures aborted <==>
                old(AbortsWith(content, strayAt, d, e, |d| + |content[|content| - 1]| < bufsiz))
      ensures !aborted ==> Sound() && SpareApart() && history == old(history)
      ensures !aborted && e == 0 ==> strayAt <= old(strayAt)
      ensures !aborted ==>
                (Right() <==> old(RightAs(content, strayAt, d, e, |d| + |content[|content| - 1]| < bufsiz)))
      ensures !aborted && Unsettled() ==>
                (Beyond() <==> old(MovesAs(content, strayAt, d, e, |d| + |content[|content| - 1]| < bufsiz)))
      ensures !aborted ==> (ok <==> append != null)
      ensures !aborted && !ok ==>
                !Droppable() && |d| + old(|content[|content| - 1]|) >= bufsiz
                && !(mallocOk && old(Room()))
      ensures !aborted && ok && |chain| > |old(chain)| ==> mallocOk && old(Room())
      ensures old(append).buffer[..] == old(append.buffer[..])
      ensures !aborted ==> fresh(SpareObjects(append) - old(Repr()))
      ensures !aborted ==>
                ChainRepr() + SpareObjects(append) ==
                old(ChainRepr() + SpareObjects(append)) + SpareObjects(append)
    {
      hide Linked, Kept, Ahead, Sound, Grown, ChainObjects, AbortsWith, RightAs, MovesAs, Right, Unsettled, Beyond;
      SpareOutsideChain();
      ok := false;
      if append.nbytes + last.nbytes < bufsiz {
        aborted := AppendInPlace(h, d, e);
        ok := true;
      } else {
        aborted := AppendBlock(h, d, e);
        if !aborted {
          ok := ReplaceSpare(mallocOk);
          NothingLost(old(chain), old(append), chain, append);
        }
      }
    }

    /** The assertion in the search for the tail fails when d is appended: only possible as long as the block
        with the stray count, here or about to be, has no more than n lines behind it. */
    ghost predicate Aborts(d: seq<Byte>)
      reads this`content, this`strayAt, this`history, this`tailIndex
    {
      |content| > 0 && d != [] &&
      AbortsWith(content, strayAt, d, SpareStray(), |d| + |content[|content| - 1]| < bufsiz)
    }

    /** The tail is right when d is appended: no stray count matters then, or it does no harm. */
    ghost predicate RightWith(d: seq<Byte>)
      reads this`content, this`strayAt, this`history, this`tailIndex
    {
      |content| > 0 &&
      if d == [] then RightIn(nUnits, content, strayAt, unset, tailIndex)
      else RightAs(content, strayAt, d, SpareStray(), |d| + |content[|content| - 1]| < bufsiz)
    }

    /** The tail is then beyond the block with the stray count. */
    ghost predicate MovesWith(d: seq<Byte>)
      reads this`content, this`strayAt, this`history, this`tailIndex
    {
      |content| > 0 &&
      if d == [] then 0 <= strayAt < |content| && MovesOn(nUnits, content, strayAt, unset, tailIndex)
      else MovesAs(content, strayAt, d, SpareStray(), |d| + |content[|content| - 1]| < bufsiz)
    }

    /** How many bytes the last block holds. */
    ghost function LastSize(): nat
      reads this`content
    {
      if content == [] then 0 else |content[|content| - 1]|
    }

    /** A first block that was not dropped is needed, as far as no stray count matters. */
    lemma {:induction false} KeptFirst()
      requires Readable() && !Droppable()
      ensures |content| > 0 && Count(TheUnits(), Flat(content)) - Count(TheUnits(), content[0]) <= nUnits
    {
      hide Linked, Counted, Found, Shifted, Retained, Compact, Bounded, PlacedIn, Flat, Count, Droppable;
      ChainIsContent();
      DroppableMeans();
    }

    lemma {:induction false} SpareRoom()
      requires Usable()
      ensures append.buffer.Length == bufsiz && |content| > 0
    {
      hide Counted, Placed, Found, Shifted, Retained, Compact, Bounded, ChainObjects;
    }

    method AppendSome(size: nat, mallocOk: bool) returns (ok: bool, aborted: bool)
      requires Usable() && 0 < size <= bufsiz
      modifies Repr()
      ensures aborted <==> old(Aborts(append.buffer[..size]))
      ensures !aborted ==> Sound() && SpareApart() && history == old(history) + old(append.buffer[..size])
      ensures !aborted && old(SpareStray()) == 0 ==> strayAt <= old(strayAt)
      ensures !aborted ==> (Right() <==> old(RightWith(append.buffer[..size])))
      ensures !aborted && Unsettled() ==> (Beyond() <==> old(MovesWith(append.buffer[..size])))
      ensures !aborted ==> (ok <==> append != null)
      ensures !aborted && !ok ==>
                !Droppable() && size + old(LastSize()) >= bufsiz
                && !(mallocOk && old(Room()))
      ensures !aborted && ok && |chain| > |old(chain)| ==> mallocOk && old(Room())
      ensures old(append).buffer[..] == old(append.buffer[..])
      ensures !aborted ==> fresh(SpareObjects(append) - old(Repr()))
      ensures !aborted ==>
                ChainRepr() + SpareObjects(append) ==
                old(ChainRepr() + SpareObjects(append)) + SpareObjects(append)
    {
      hide Pending, Sound, SpareApart, ChainObjects, AbortsWith, RightAs, MovesAs, Right, Unsettled, Beyond;
      SpareRoom();
      ghost var h, d, e := history, append.buffer[..size], SpareStray();
      CountPending(size);
      ok, aborted := AppendPending(h, d, e, mallocOk);
    }

    /** buffer_set_appended, whatever line count was left unset: the first size bytes of the spare block have
        been filled in by the caller. */
    method AppendOrAbort(size: nat, mallocOk: bool) returns (ok: bool, aborted: bool)
      requires Usable() && size <= bufsiz
      modifies Repr()
      ensures aborted <==> old(Aborts(append.buffer[..size]))
      ensures !aborted ==> Sound() && SpareApart() && SpareBlank()
      ensures !aborted ==> (ServesTail() <==> old(RightWith(append.buffer[..size])))
      ensures !aborted && Unsettled() ==> (Beyond() <==> old(MovesWith(append.buffer[..size])))
      ensures !aborted && old(Exact()) ==> Exact()
      ensures !aborted ==> (ok <==> append != null)
      ensures !aborted && !ok ==>
                !Droppable() && size + old(LastSize()) >= bufsiz
                && !(mallocOk && old(Room()))
      ensures !aborted && ok && |chain| > |old(chain)| ==> mallocOk && old(Room())
      ensures !aborted ==> history == old(history) + old(append.buffer[..size])
      ensures old(append).buffer[..] == old(append.buffer[..])
      ensures !aborted ==> fresh(Repr() - old(Repr())) && old(Repr()) <= Repr()
    {
      hide Sound, SpareApart, ChainObjects, AbortsWith, RightAs, MovesAs, Right, Beyond, ServesTail, RightIn, MovesOn;
      SpareRoom();
      if size == 0 {
        RightBetween();
        ServesRight();
        return true, false;
      }
      ok, aborted := AppendSome(size, mallocOk);
      if ok && !aborted {
        BlankSpare();
      }
      if !aborted {
        ServesRight();
      }
    }

    /** Without a stray count nothing fails. */
    lemma {:induction false} ExactNeverAborts(d: seq<Byte>)
      requires Exact()
      ensures !Aborts(d)
    {
    }

    /** buffer_set_appended when no stray count is left: it never fails but for want of memory. */
    method SetAppended(size: nat, mallocOk: bool) returns (ok: bool)
      requires Valid() && size <= bufsiz
      modifies Repr()
      ensures Readable() && SpareApart() && SpareBlank()
      ensures ok <==> append != null
      ensures !ok ==>
                && size + old(LastSize()) >= bufsiz && !(mallocOk && old(Room()))
                && |content| > 0 && Count(TheUnits(), Flat(content)) - Count(TheUnits(), content[0]) <= nUnits
      ensures ok && |chain| > |old(chain)| ==> mallocOk && old(Room())
      ensures history == old(history) + old(append.buffer[..size])
      ensures old(append).buffer[..] == old(append.buffer[..])
      ensures forall o | o in Repr() :: o in old(Repr()) || fresh(o)
      ensures old(Repr()) <= Repr()
    {
      hide Sound, SpareApart, SpareBlank, ChainObjects, Aborts, Exact;
      SpareRoom();
      ghost var d := append.buffer[..size];
      ExactNeverAborts(d);
      var aborted;
      ok, aborted := AppendOrAbort(size, mallocOk);
      if !ok {
        KeptFirst();
      }
    }

    /** The chunks served from the tail's block and offset on are, together, the tail of everything ever
        appended. */
    ghost predicate ServesTail()
      reads this`history, this`content, this`tailIndex, this`tailOffset
    {
      && tailIndex < |content| && tailOffset <= |content[tailIndex]|
      && Flat(Pieces(content, tailIndex, tailOffset)) == Tail(TheUnits(), history)
    }

    /** The chunks that a walk from the tail's block and offset on meets. */
    ghost function TailParts(): seq<seq<Byte>>
      reads this`content, this`tailIndex, this`tailOffset
    {
      if tailIndex < |content| && tailOffset <= |content[tailIndex]| then PartsFrom(content, tailIndex, tailOffset)
      else []
    }

    lemma {:induction false} ServesRight()
      requires Sound()
      ensures tailIndex < |content| && tailOffset <= |content[tailIndex]|
      ensures ServesTail() <==> Right()
    {
      hide Linked, Compact, Bounded, Newlines, AfterNewlines, Start, Flat, LinesBefore, FoundIn, PlacedIn;
      hide Wrap, RetainedIn, CompactIn;
      FoundIsInside(TheUnits(), content, strayAt, unset, tailIndex, tailOffset);
      RetainedTail(TheUnits(), history, dropped, content);
      PiecesAreTheRest(content, tailIndex, tailOffset);
      SameSuffix(Flat(content), BytesBefore(content, tailIndex) + tailOffset, Start(TheUnits(), Flat(content)));
    }

    /** At any time, and whatever line count was left unset, the chunks served are the tail of everything ever
        appended if and only if the stray count is settled or happens to do no harm. */
    lemma {:induction false} RightExactlyWhen()
      requires Sound()
      ensures tailIndex < |content| && tailOffset <= |content[tailIndex]|
      ensures Flat(Pieces(content, tailIndex, tailOffset)) == Tail(TheUnits(), history) <==>
              !countLines || strayAt < 0 || RightIn(nUnits, content, strayAt, unset, tailIndex)
    {
      hide Linked, Compact, Bounded, Newlines, AfterNewlines, Start, Flat, LinesBefore, FoundIn, PlacedIn;
      hide Wrap, RetainedIn, CompactIn, Right, MovesOn;
      ServesRight();
      RightBetween();
    }

    /** The chunks served from the tail's beginning on are, together, the tail of the whole history. */
    lemma {:induction false} ServedIsTail()
      requires Readable()
      ensures tailIndex < |chain| == |content| && tailBuffer == chain[tailIndex]
      ensures tailOffset <= |content[tailIndex]|
      ensures Flat(Pieces(content, tailIndex, tailOffset)) == Tail(TheUnits(), history)
      ensures totalBytes == bytesUpToTailBuffer + tailOffset + |Tail(TheUnits(), history)|
    {
      hide Linked, Compact, Bounded, Newlines, AfterNewlines, Start, Flat, LinesBefore, FoundIn;
      hide RetainedIn, CompactIn;
      RetainedTail(TheUnits(), history, dropped, content);
      FoundExactly(TheUnits(), content, strayAt, unset, tailIndex, tailOffset);
      PiecesAreTheRest(content, tailIndex, tailOffset);
    }

    /** In byte mode the number of blocks is bounded in terms of n alone... */
    lemma {:induction false} BlocksForBytes()
      requires Sound() && !countLines
      ensures |chain| <= 2 * (nUnits / bufsiz) + 2
    {
      hide Linked, Counted, Placed, Found, Shifted, Retained, Compact, BoundedIn, StaysIn;
      ChainIsContent();
      BytesBounded(nUnits, bufsiz, history, content);
    }

    /** ...and in line mode in terms of the bytes that n lines of the input can take up; a line count that was left
        unset can cost one block more. */
    lemma {:induction false} BlocksForLines(b: nat)
      requires Sound() && countLines
      requires forall i, j | 0 <= i <= j <= |history| :: Newlines(history[i..j]) <= nUnits ==> |history[i..j]| <= b
      ensures |chain| <= 2 * (b / bufsiz) + (if unset == 0 then 2 else 3)
    {
      hide Linked, Counted, Placed, Found, Shifted, Retained, Compact, StaysIn;
      ChainIsContent();
      assert ShortStretches(TheUnits(), history, b);
    }

    /** The empty first block stays only in front of a first input of a whole block, with at most n lines on
        record for it. */
    lemma {:induction false} EmptyBlockStays()
      requires Sound() && strayAt == 1
      ensures content[0] == [] && |content[1]| == bufsiz && Wrap(Newlines(content[1]) + unset) <= nUnits
    {
      hide Counted, Found, Shifted, Retained, BoundedIn, Newlines, Wrap, Flat;
      assert |content[0]| + |content[0 + 1]| >= bufsiz;
      assert chain[1].Holds(content[1], Own(1), bufsiz, countLines);
    }

    function TailSize(): (size: nat)
      requires Readable()
      reads this, ChainRepr()
      ensures size == |Tail(TheUnits(), history)|
    {
      ServedIsTail();
      totalBytes - bytesUpToTailBuffer - tailOffset
    }

    function GetTailChunk(): Block
      reads this
    {
      tailBuffer
    }

    function GetTailOffset(): nat
      reads this
    {
      tailOffset
    }

    static function ChunkSize(chunk: Block?): nat
      reads chunk
    {
      if chunk != null then chunk.nbytes else 0
    }

    static function AdvanceChunk(chunk: Block?): Block?
      reads chunk
    {
      if chunk != null then chunk.next else null
    }

    /** Objects of other kinds are no part of the buffer. */
    lemma {:induction false} NotOwned(o: object)
      requires !(o is Block) && !(o is array<Byte>)
      ensures o !in ChainRepr() && o !in SpareObjects(append)
      ensures forall x | x in ChainRepr() :: allocated(x)
    {
    }

    /** What walking over the chunks meets at block i. */
    lemma {:induction false} ChunkAt(i: nat)
      requires Readable() && i < |chain|
      ensures chain[i].nbytes == |content[i]| <= chain[i].buffer.Length
      ensures chain[i].buffer[..chain[i].nbytes] == content[i]
      ensures chain[i].next == if i + 1 < |chain| then chain[i + 1] else null
      ensures chain[i].nbytes == 0 && i >= tailIndex ==> i == 0 && |chain| == 1 && history == []
    {
      hide Newlines, Flat, Counted, FoundIn, Retained, Bounded, PairsFull, Wrap;
      FoundIsInside(TheUnits(), content, strayAt, unset, tailIndex, tailOffset);
      assert chain[i].Holds(content[i], Own(i), bufsiz, countLines);
      if i + 1 < |chain| {
        assert chain[i].next == chain[i + 1];
      }
    }

    /** A walk over the chunks has arrived at byte offset of block i: pos and chunkSize are what the accessors
        give for it. */
    ghost predicate Walking(i: nat, offset: nat, pos: Block?, chunkSize: nat)
      reads this, ChainRepr()
    {
      && Readable() && |chain| == |content| && tailIndex <= i <= |chain|
      && pos == (if i < |chain| then chain[i] else null)
      && if i < |chain| then offset <= |content[i]| == chunkSize else chunkSize == 0
    }

    lemma {:induction false} WalkBegins()
      requires Readable()
      ensures Walking(tailIndex, tailOffset, GetTailChunk(), ChunkSize(GetTailChunk()))
      ensures Remaining(content, tailIndex, tailOffset) == Tail(TheUnits(), history)
    {
      hide Sound, Flat, Tail, Pieces;
      ServedIsTail();
      ChunkAt(tailIndex);
      if content[tailIndex] == [] {
        FlatFirst([]);
        TailOfNothing(TheUnits());
      }
    }

    lemma {:induction false} WalkGoesOn(i: nat, offset: nat, pos: Block?, chunkSize: nat)
      requires Walking(i, offset, pos, chunkSize) && chunkSize > 0
      ensures i < |content| && pos != null && offset <= chunkSize <= pos.buffer.Length
      ensures pos.buffer[offset..chunkSize] == content[i][offset..]
      ensures Walking(i + 1, 0, AdvanceChunk(pos), ChunkSize(AdvanceChunk(pos)))
      ensures PartsFrom(content, i, offset) == [content[i][offset..]] + PartsFrom(content, i + 1, 0)
      ensures Remaining(content, i, offset) == content[i][offset..] + Remaining(content, i + 1, 0)
    {
      hide Sound, Flat, Start, Newlines, AfterNewlines;
      ChunkAt(i);
      assert pos.buffer[offset..chunkSize] == pos.buffer[..chunkSize][offset..];
      if i + 1 < |chain| {
        ChunkAt(i + 1);
      }
      PartsStep(content, i, offset);
      RemainingStep(content, i, offset);
    }

    lemma {:induction false} WalkEnds(i: nat, offset: nat, pos: Block?)
      requires Walking(i, offset, pos, 0)
      ensures (i < |content| ==> offset <= |content[i]|) && PartsFrom(content, i, offset) == []
      ensures Remaining(content, i, offset) == []
    {
      hide Sound;
    }

    /** buffer_final: returns the blocks in the order in which they are freed. */
    method Final() returns (ghost freed: seq<Block>)
      requires Readable() && SpareApart()
      modifies this`first
      ensures first == null
      ensures freed == chain + (if append == null then [] else [append])
      ensures forall i, j | 0 <= i < j < |freed| :: freed[i] != freed[j]
    {
      hide Counted, Placed, Found, Shifted, Retained, Compact, Bounded, Fits, Newlines, Wrap, Flat;
      freed := [];
      ghost var i := 0;
      while first != null
        invariant i <= |chain| && freed == chain[..i]
        invariant first == if i < |chain| then chain[i] else null
        decreases |chain| - i
      {
        assert i + 1 < |chain| ==> chain[i].next == chain[i + 1];
        var tmp := first.next;
        freed := freed + [first];
        first := tmp;
        i := i + 1;
      }
      if append != null {
        freed := freed + [append];
      }
    }
  }
}
