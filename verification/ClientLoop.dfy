/** The client's event-loop callback (src/clientloop.c) with its output (src/clientpipes.c). */
module ClientLoops {
  import opened Arithmetic
  import opened Tails
  import opened Blocks
  import opened Kernel
  import opened Header
  import opened ClientConns
  import opened ClientSpec
  import opened TailBuffers

  class ClientLoop {
    const conn: ClientConn
    const buffer: TailBuffer
    const follow: bool
    /** What the kernel chooses at each write to stdout, and how many writes there have been. */
    const choices: nat -> int
    var writes: nat
    var tailOutput: bool
    var broken: bool
    var looping: bool
    /** Everything read from the socket, and everything printed. */
    ghost var consumed: seq<Byte>
    ghost var printed: seq<Byte>

    function Config(): ClientConfig {
      ClientConfig(buffer.TheUnits(), follow, buffer.bufsiz)
    }

    ghost function View(): Client
      reads this, conn, buffer
    {
      Client(conn.State(), consumed, buffer.history, tailOutput, printed, broken, looping)
    }

    ghost predicate Valid()
      reads this, conn, buffer, buffer.Repr()
    {
      && conn.bufsiz == buffer.bufsiz
      && conn.Valid() && buffer.Readable()
      && (looping ==> buffer.Valid() && conn.connected)
    }

    constructor (conn: ClientConn, buffer: TailBuffer, follow: bool, choices: nat -> int)
      requires conn.State() == ConnState(true, false, 0, 0) && conn.Valid()
      requires buffer.Valid() && buffer.history == [] && conn.bufsiz == buffer.bufsiz
      ensures this.conn == conn && this.buffer == buffer && this.follow == follow && this.choices == choices
      ensures Valid() && View() == InitialClient()
    {
      hide TailBuffer.Sound, TailBuffer.SpareApart, TailBuffer.SpareBlank;
      this.conn, this.buffer, this.follow, this.choices, writes := conn, buffer, follow, choices, 0;
      tailOutput, broken, looping := false, false, true;
      consumed, printed := [], [];
      new;
      buffer.NotOwned(this);
    }

    /** clientpipes_write_blocking */
    method WriteBlocking(data: seq<Byte>) returns (ok: bool, ghost taken: nat)
      modifies this`broken, this`printed, this`writes
      ensures Written(ok, taken) == WrittenOf(|data|, choices(old(writes))) && writes == old(writes) + 1
      ensures taken <= |data| && (ok ==> taken == |data|)
      ensures printed == old(printed) + data[..taken] && broken == (old(broken) || !ok)
    {
      var n := WriteOutcome(|data|, choices(writes));
      writes := writes + 1;
      taken := Taken(n);
      printed := printed + data[..taken];
      if n < |data| {
        broken := true;
        return false, taken;
      }
      ok := true;
    }

    /** What the kernel makes of the tail, written chunk by chunk from the k-th write to stdout on. */
    ghost predicate TailWritten(tail: Written, k: nat)
      reads buffer
    {
      (tail.ok, tail.taken) == WriteEach(buffer.TailParts(), choices, k)
    }

    method OutputBufferedTail() returns (ok: bool, ghost taken: nat)
      requires buffer.Readable()
      modifies this`broken, this`printed, this`writes
      ensures buffer.Readable() && TailWritten(Written(ok, taken), old(writes))
      ensures var t := Tail(buffer.TheUnits(), buffer.history);
              && WriteAllowed(Written(ok, taken), |t|)
              && printed == old(printed) + t[..taken] && broken == (old(broken) || !ok)
    {
      hide TailBuffer.Sound, TailBuffer.SpareApart, TailBuffer.SpareBlank, ChainObjects, Flat, Tail, WriteEach;
      hide PartsFrom;
      ghost var t := Tail(buffer.TheUnits(), buffer.history);
      ghost var c := buffer.content;
      buffer.ServedIsTail();
      buffer.NotOwned(this);
      ghost var all := WriteEach(buffer.TailParts(), choices, writes);
      var pos: Block? := buffer.GetTailChunk();
      var offset: nat := buffer.GetTailOffset();
      var chunkSize: nat := TailBuffer.ChunkSize(pos);
      ghost var i, served := buffer.tailIndex, [];
      buffer.WalkBegins();
      assert [] + Remaining(c, i, offset) == t;
      while chunkSize > 0
        invariant buffer.Walking(i, offset, pos, chunkSize)
        invariant broken == old(broken) && printed == old(printed) + served && t == served + Remaining(c, i, offset)
        invariant all == After(|served|, WriteEach(PartsFrom(c, i, offset), choices, writes))
        decreases |c| - i
      {
        buffer.WalkGoesOn(i, offset, pos, chunkSize);
        ghost var d := c[i][offset..];
        WriteEachNext(d, PartsFrom(c, i + 1, 0), choices, writes);
        ghost var w;
        ok, w := WriteBlocking(pos.buffer[offset..chunkSize]);
        ServedPrefix(t, served, d, Remaining(c, i + 1, 0), w);
        if !ok {
          ConcatAssociative(old(printed), served, d[..w]);
          return false, |served| + w;
        }
        ConcatAssociative(old(printed), served, d);
        served := served + d;
        pos := TailBuffer.AdvanceChunk(pos);
        i := i + 1;
        offset := 0;
        chunkSize := TailBuffer.ChunkSize(pos);
      }
      buffer.WalkEnds(i, offset, pos);
      WriteEachNone(choices, writes);
      assert served == t;
      return true, |t|;
    }

    /** The branch of unix_sock_readable_cb that reads the server's buffer. */
    method ReadTail(avail: seq<Byte>, choice: ReadChoice, junk: int, mallocOk: bool)
      returns (r: ReadResult, error: bool, ghost appendOk: bool)
      requires Valid() && looping && !AllRead(conn.State())
      modifies this`consumed, conn, buffer, buffer.Repr()
      ensures conn.Valid() && buffer.Readable() && (!error ==> buffer.Valid())
      ensures forall o | o in buffer.Repr() :: o in old(buffer.Repr()) || fresh(o)
      ensures r == ReadOutcome(avail, ReadLimit(old(conn.State()), buffer.bufsiz, buffer.bufsiz), choice)
      ensures appendOk <==> buffer.append != null
      ensures !appendOk ==> !(mallocOk && old(buffer.Room()))
      ensures var (state, tail) := ReadServer(old(conn.State()), r, junk);
              && View() == old(View()).(conn := state, consumed := old(consumed) + BytesOf(r),
                                        buffered := old(buffer.history) + tail)
              && error == (tail != [] && !appendOk)
      ensures writes == old(writes)
    {
      hide TailBuffer.Sound, TailBuffer.SpareApart, TailBuffer.SpareBlank, ChainObjects, Tail;
      hide ReadServer, ReadOutcome;
      var res;
      error, appendOk := false, true;
      buffer.NotOwned(conn);
      buffer.NotOwned(this);
      buffer.SpareOutsideChain();
      res, r := conn.ReadServerBuffer(buffer.append.buffer, buffer.bufsiz, avail, choice, junk);
      consumed := consumed + BytesOf(r);
      ghost var tail := ReadServer(old(conn.State()), r, junk).1;
      if !r.Data? {
        NothingDelivered(old(conn.State()), r, junk);
      }
      assert res <= 0 ==> tail == [] && buffer.history + tail == buffer.history;
      if res > 0 {
        var ok := buffer.SetAppended(res, mallocOk);
        error, appendOk := !ok, ok;
      }
    }

    /** The branch that passes on what follows it. */
    method ReadFollow(avail: seq<Byte>, choice: ReadChoice)
      returns (r: ReadResult, error: bool, ghost follow: Written)
      requires Valid() && looping && AllRead(conn.State())
      modifies this`broken, this`consumed, this`printed, this`writes, conn`connected
      ensures conn.Valid() && buffer.Valid()
      ensures r == ReadOutcome(avail, buffer.bufsiz, choice)
      ensures r.Data? ==> follow == WrittenOf(|r.bytes|, choices(old(writes)))
      ensures writes == old(writes) + if r.Data? then 1 else 0
      ensures WriteAllowed(follow, |BytesOf(r)|) && error == !follow.ok && (!r.Data? ==> follow.ok)
      ensures conn.State() == old(conn.State()).(connected := !r.Eof?)
      ensures consumed == old(consumed) + BytesOf(r)
      ensures printed == old(printed) + BytesOf(r)[..follow.taken] && broken == (old(broken) || !follow.ok)
    {
      hide TailBuffer.Sound, TailBuffer.SpareApart, TailBuffer.SpareBlank, ChainObjects, Tail, ReadOutcome;
      buffer.NotOwned(conn);
      buffer.NotOwned(this);
      var buf := new Byte[buffer.bufsiz];
      var res;
      res, r := conn.ReadServerFollow(buf, buffer.bufsiz, avail, choice);
      consumed := consumed + BytesOf(r);
      error, follow := false, Written(true, |BytesOf(r)|);
      if res > 0 {
        ghost var taken;
        var ok;
        ok, taken := WriteBlocking(buf[..res]);
        error, follow := !ok, Written(ok, taken);
      }
    }

    /** The second half of unix_sock_readable_cb. */
    method FinishCallback(error: bool) returns (ghost tail: Written)
      requires conn.Valid() && buffer.Readable() && conn.bufsiz == buffer.bufsiz
      requires !error ==> buffer.Valid()
      modifies this`tailOutput, this`broken, this`looping, this`printed, this`writes, conn`connected
      ensures Valid()
      ensures AllRead(conn.State()) && !old(tailOutput) ==> TailWritten(tail, old(writes))
      ensures WriteAllowed(tail, |Tail(buffer.TheUnits(), buffer.history)|)
      ensures View() == OutputPhase(Config(), old(View()), error, tail)
    {
      hide TailBuffer.Sound, TailBuffer.SpareApart, TailBuffer.SpareBlank, ChainObjects, Tail, TailWritten;
      buffer.NotOwned(conn);
      buffer.NotOwned(this);
      tail := Written(false, 0);
      var failed := error;
      if conn.IsAllServerBufferRead() {
        if !tailOutput {
          ghost var taken;
          var ok;
          ok, taken := OutputBufferedTail();
          tail := Written(ok, taken);
          failed := failed || !ok;
          tailOutput := true;
        }
        if !follow {
          conn.Disconnect();
        }
      }
      looping := true;
      if !conn.connected || failed {
        looping := false;
      }
    }

    /** How many writes to stdout the first half of a callback makes. */
    static function WritesOf(s: ConnState, r: ReadResult): nat {
      if AllRead(s) && r.Data? then 1 else 0
    }

    /** The first half of unix_sock_readable_cb. */
    method BeginCallback(avail: seq<Byte>, choice: ReadChoice, junk: int, mallocOk: bool)
      returns (error: bool, got: nat, ghost e: ClientEvent)
      requires Valid() && looping
      modifies this`broken, this`consumed, this`printed, this`writes, conn, buffer, buffer.Repr()
      ensures conn.Valid() && buffer.Readable() && (!error ==> buffer.Valid())
      ensures forall o | o in buffer.Repr() :: o in old(buffer.Repr()) || fresh(o)
      ensures got == |BytesOf(e.r)| && e.junk == junk
      ensures e.r == ReadOutcome(avail, ReadLimit(old(conn.State()), buffer.bufsiz, buffer.bufsiz), choice)
      ensures e.appendOk <==> buffer.append != null
      ensures !e.appendOk ==> !(mallocOk && old(buffer.Room()))
      ensures AllRead(old(conn.State())) && e.r.Data? ==>
                e.follow == WrittenOf(|e.r.bytes|, choices(old(writes)))
      ensures writes == old(writes) + WritesOf(old(conn.State()), e.r)
      ensures Enabled(Config(), old(View()), e) && e.tail == Written(false, 0)
      ensures View() == ReadPhase(Config(), old(View()), e).0 && error == ReadPhase(Config(), old(View()), e).1
    {
      hide TailBuffer.Sound, TailBuffer.SpareApart, TailBuffer.SpareBlank, ChainObjects, Tail, ReadServer;
      hide ReadOutcome;
      ReadIsAllowed(avail, ReadLimit(conn.State(), buffer.bufsiz, buffer.bufsiz), choice);
      var r: ReadResult;
      ghost var appendOk, follow := true, Written(false, 0);
      if !conn.IsAllServerBufferRead() {
        r, error, appendOk := ReadTail(avail, choice, junk, mallocOk);
      } else {
        r, error, follow := ReadFollow(avail, choice);
      }
      if r.Fail? {
        error := true;
      }
      got := |BytesOf(r)|;
      e := ClientEvent(r, junk, appendOk, follow, Written(false, 0));
    }

    /** unix_sock_readable_cb, when the socket holds the unread bytes avail, of which got are read. The event
        is what the system calls did; all of it is determined by the kernel's choices. */
    method SocketReadable(avail: seq<Byte>, choice: ReadChoice, junk: int, mallocOk: bool)
      returns (got: nat, ghost e: ClientEvent)
      requires Valid() && looping
      modifies this`tailOutput, this`broken, this`looping, this`consumed, this`printed, this`writes
      modifies conn, buffer, buffer.Repr()
      ensures Valid()
      ensures forall o | o in buffer.Repr() :: o in old(buffer.Repr()) || fresh(o)
      ensures got == |BytesOf(e.r)| && e.junk == junk
      ensures e.r == ReadOutcome(avail, ReadLimit(old(conn.State()), buffer.bufsiz, buffer.bufsiz), choice)
      ensures e.appendOk <==> buffer.append != null
      ensures !e.appendOk ==> !(mallocOk && old(buffer.Room()))
      ensures AllRead(old(conn.State())) && e.r.Data? ==>
                e.follow == WrittenOf(|e.r.bytes|, choices(old(writes)))
      ensures AllRead(conn.State()) && !old(tailOutput) ==>
                TailWritten(e.tail, old(writes) + WritesOf(old(conn.State()), e.r))
      ensures Enabled(Config(), old(View()), e)
      ensures View() == ClientStep(Config(), old(View()), e)
    {
      hide TailBuffer.Sound, TailBuffer.SpareApart, TailBuffer.SpareBlank, ChainObjects, Tail, ReadServer;
      hide OutputPhase, AllRead, ReadOutcome, TailWritten, ReadLimit;
      ghost var e0, tail;
      var error;
      error, got, e0 := BeginCallback(avail, choice, junk, mallocOk);
      tail := FinishCallback(error);
      e := e0.(tail := tail);
    }

    /** The i-th of some callbacks reads what the kernel chooses of what has not yet been read of stream. */
    ghost predicate ReadsOf(stream: seq<Byte>, choose: nat -> ReadChoice, c: Client, e: ClientEvent, i: nat) {
      && c.consumed <= stream
      && e.r == ReadOutcome(stream[|c.consumed|..], ReadLimit(c.conn, buffer.bufsiz, buffer.bufsiz), choose(i))
    }

    /** One callback on such a connection, of which pos bytes have been read. */
    method Round(stream: seq<Byte>, pos: nat, ghost t: seq<Byte>, choose: nat -> ReadChoice, mallocOk: bool, i: nat)
      returns (got: nat, ghost e: ClientEvent)
      requires Valid() && looping && ClientInv(Config(), View(), t)
      requires Compatible(stream, Greeting(t)) && |t| < SSIZE_MAX && pos <= |stream| && consumed == stream[..pos]
      modifies this, conn, buffer, buffer.Repr()
      ensures Valid() && ClientInv(Config(), View(), t)
      ensures pos + got <= |stream| && consumed == stream[..pos + got]
      ensures forall o | o in buffer.Repr() :: o in old(buffer.Repr()) || fresh(o)
      ensures Enabled(Config(), old(View()), e) && View() == ClientStep(Config(), old(View()), e)
      ensures ReadsOf(stream, choose, old(View()), e, i)
      ensures looping <==> !Ends(Config(), old(View()), e, t)
    {
      hide Valid, ClientInv, Enabled, ClientStep, Greeting, TailBuffer.Repr, ReadOutcome, ReadLimit, Ends;
      hide TailWritten;
      ghost var c := View();
      var junk: int := *;
      ReadIsAllowed(stream[pos..], ReadLimit(conn.State(), buffer.bufsiz, buffer.bufsiz), choose(i));
      got, e := SocketReadable(stream[pos..], choose(i), junk, mallocOk);
      StepConsumes(Config(), c, e);
      ReadOn(stream, pos, BytesOf(e.r), Greeting(t));
      StepKeepsInv(Config(), c, e, t);
      GoesOn(Config(), c, e, t);
    }

    /** ev_run over a connection on which the server sends stream, a prefix of the greeting for the tail t and
        whatever follows it, for the given number of callbacks: they are all made unless one of them ends the
        loop, and the client's state is always right for what it has read. */
    method Loop(stream: seq<Byte>, ghost t: seq<Byte>, rounds: nat, choose: nat -> ReadChoice, mallocOk: nat -> bool)
      returns (ghost cs: seq<Client>, ghost es: seq<ClientEvent>)
      requires Valid() && View() == InitialClient()
      requires Compatible(stream, Greeting(t)) && |t| < SSIZE_MAX
      modifies this, conn, buffer, buffer.Repr()
      ensures Valid() && ClientInv(Config(), View(), t) && consumed <= stream
      ensures !broken ==> printed == Expected(buffer.TheUnits(), t, consumed)
      ensures IsRun(Config(), cs, es) && cs[|es|] == View()
      ensures |es| == rounds || (0 < |es| < rounds && Ends(Config(), cs[|es| - 1], es[|es| - 1], t))
      ensures forall i | 0 <= i < |es| :: ReadsOf(stream, choose, cs[i], es[i], i)
    {
      hide Valid, ClientInv, Enabled, ClientStep, Greeting, Expected, TailBuffer.Repr, Ends, ReadsOf;
      InitialInv(Config(), t);
      cs, es := [View()], [];
      var pos: nat, round: nat := 0, 0;
      while round < rounds && looping
        invariant Valid() && ClientInv(Config(), View(), t)
        invariant pos <= |stream| && consumed == stream[..pos]
        invariant round == |es| <= rounds && IsRun(Config(), cs, es) && cs[|es|] == View()
        invariant looping || (|es| > 0 && Ends(Config(), cs[|es| - 1], es[|es| - 1], t))
        invariant forall i | 0 <= i < |es| :: ReadsOf(stream, choose, cs[i], es[i], i)
        invariant forall o | o in buffer.Repr() :: o in old(buffer.Repr()) || fresh(o)
        decreases rounds - round
      {
        ghost var e;
        var got;
        got, e := Round(stream, pos, t, choose, mallocOk(round), round);
        RunGoesOn(Config(), cs, es, e);
        cs, es := cs + [View()], es + [e];
        pos, round := pos + got, round + 1;
      }
      PrintedWhenWhole(Config(), View(), t);
    }
  }
}
