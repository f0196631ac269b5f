/** The client's connection state (src/clientconn.c). */
module ClientConns {
  import opened Arithmetic
  import opened Tails
  import opened Kernel
  import opened Header

  /** The static variables of the connection. */
  datatype ConnState = ConnState(connected: bool, known: bool, size: int, remain: int)

  predicate AllRead(s: ConnState) {
    s.known && s.remain == 0
  }

  /** How many bytes the next read may ask for, when the caller has room for room bytes. */
  function ReadLimit(s: ConnState, room: nat, bufsiz: nat): int {
    if AllRead(s) then room
    else if s.known then Min(room, s.remain)
    else Min(s.size + 1, Min(bufsiz, room))
  }

  /** What the parser makes of the outcome r of a read, when it is still at work. */
  function Parsed(s: ConnState, r: ReadResult): Parse {
    if s.known || !r.Data? then Parse(s.known, s.size, 0, false) else ParseFrom(s.size, r.bytes)
  }

  /** How many tail bytes are missing before those just read are subtracted. */
  function RemainBefore(s: ConnState, r: ReadResult): int {
    if Parsed(s, r).known && !s.known then Parsed(s, r).size else s.remain
  }

  /** clientconn_read_server_buffer on the outcome r of its read: the new state and the tail bytes
      delivered. When a read for the length line fails, the number of tail bytes is the value junk of an
      uninitialised variable. */
  function ReadServer(s: ConnState, r: ReadResult, junk: int): (ConnState, seq<Byte>) {
    var p := Parsed(s, r);
    var tail := BytesOf(r)[p.used..];
    var tailDataRes := if !s.known && !r.Data? then junk else |tail|;
    var remain := RemainBefore(s, r);
    (ConnState(s.connected && !p.failed && !r.Eof?, p.known, p.size,
               if remain >= tailDataRes then remain - tailDataRes else 0), tail)
  }

  lemma {:induction false} NothingDelivered(s: ConnState, r: ReadResult, junk: int)
    requires !r.Data?
    ensures ReadServer(s, r, junk).1 == []
  {
  }

  class ClientConn {
    const bufsiz: nat
    var connected: bool
    var serverBufferSizeKnown: bool
    var serverBufferSize: int
    var serverBufferSizeRemain: int

    function State(): ConnState
      reads this
    {
      ConnState(connected, serverBufferSizeKnown, serverBufferSize, serverBufferSizeRemain)
    }

    /** While connected: before the length line is complete, the number so far is not negative; after it,
        the remainder. */
    ghost predicate Valid()
      reads this
    {
      && bufsiz >= 1
      && (connected ==> if serverBufferSizeKnown then serverBufferSizeRemain >= 0 else serverBufferSize >= 0)
    }

    /** clientconn_connect, when the connection is made. */
    constructor (bufsiz: nat)
      requires bufsiz >= 1
      ensures this.bufsiz == bufsiz && Valid() && State() == ConnState(true, false, 0, 0)
    {
      this.bufsiz := bufsiz;
      connected := true;
      serverBufferSizeKnown, serverBufferSize, serverBufferSizeRemain := false, 0, 0;
    }

    method Disconnect()
      modifies this`connected
      ensures !connected
    {
      connected := false;
    }

    predicate IsAllServerBufferRead()
      reads this
    {
      serverBufferSizeKnown && serverBufferSizeRemain == 0
    }

    /** Returns where the tail data starts. */
    method ParseServerBufferSize(buf: array<Byte>, size: nat) returns (p: nat)
      requires size <= buf.Length && !serverBufferSizeKnown
      modifies this
      ensures var q := ParseFrom(old(serverBufferSize), buf[..size]);
              && p == q.used && serverBufferSizeKnown == q.known && serverBufferSize == q.size
              && serverBufferSizeRemain == (if q.known then q.size else old(serverBufferSizeRemain))
              && connected == (old(connected) && !q.failed)
    {
      hide WrapSSize;
      p := 0;
      ghost var s := buf[..size];
      ghost var q := ParseFrom(serverBufferSize, s);
      while !serverBufferSizeKnown && p < size
        invariant p <= size && connected == old(connected)
        invariant !serverBufferSizeKnown ==> serverBufferSizeRemain == old(serverBufferSizeRemain)
        invariant serverBufferSizeKnown ==> serverBufferSizeRemain == serverBufferSize
        invariant q == if serverBufferSizeKnown then Parse(true, serverBufferSize, p, false)
                       else ParseFrom(serverBufferSize, s[p..]).(used := p + ParseFrom(serverBufferSize, s[p..]).used)
        decreases !serverBufferSizeKnown, size - p
      {
        assert s[p] == buf[p] && s[p..][1..] == s[p + 1..];
        if IsDigit(buf[p]) {
          serverBufferSize := WrapSSize(serverBufferSize * 10 + (buf[p] - ZERO));
          if serverBufferSize < 0 {
            Disconnect();
            return size;
          }
        } else if buf[p] == NEWLINE {
          serverBufferSizeKnown := true;
          serverBufferSizeRemain := serverBufferSize;
        } else {
          Disconnect();
          return size;
        }
        p := p + 1;
      }
    }

    /** The branch of clientconn_read_server_buffer that still has to read of the length line. */
    method ReadHeader(buf: array<Byte>, size: nat, avail: seq<Byte>, choice: ReadChoice, unset: int)
      returns (res: int, tailDataRes: int, r: ReadResult)
      requires bufsiz >= 1 && serverBufferSize >= 0 && !serverBufferSizeKnown && 0 < size <= buf.Length
      modifies this, buf
      ensures r == ReadOutcome(avail, Min(old(serverBufferSize) + 1, Min(bufsiz, size)), choice)
      ensures res == if r.Data? then |r.bytes| else if r.Eof? then 0 else -1
      ensures !r.Data? ==> tailDataRes == unset && State() == old(State())
      ensures r.Data? ==>
                var q := ParseFrom(old(serverBufferSize), r.bytes);
                && tailDataRes == |r.bytes| - q.used && buf[..tailDataRes] == r.bytes[q.used..]
                && State() == ConnState(old(connected) && !q.failed, q.known, q.size,
                                        if q.known then q.size else old(serverBufferSizeRemain))
    {
      hide ReadOutcome, ParseFrom;
      var tmpsize := Min(serverBufferSize + 1, Min(bufsiz, size));
      var tmpbuf := new Byte[bufsiz];
      var got := ReadOutcome(avail, tmpsize, choice);
      r := got;
      res := Deliver(got, tmpbuf);
      tailDataRes := unset;
      if res > 0 {
        var p := ParseServerBufferSize(tmpbuf, res);
        tailDataRes := res - p;
        forall i | 0 <= i < tailDataRes {
          buf[i] := tmpbuf[p + i];
        }
      }
    }

    /** clientconn_read_server_buffer into buf, when the socket holds the unread bytes avail and junk is in the
        variable for the number of tail bytes. */
    method ReadServerBuffer(buf: array<Byte>, size: nat, avail: seq<Byte>, choice: ReadChoice, junk: int)
      returns (res: int, r: ReadResult)
      requires Valid() && connected && size <= buf.Length
      modifies this, buf
      ensures Valid()
      ensures size == 0 || AllRead(old(State())) ==> res == 0 && State() == old(State())
      ensures size > 0 && !AllRead(old(State())) ==>
                && r == ReadOutcome(avail, ReadLimit(old(State()), size, bufsiz), choice)
                && State() == ReadServer(old(State()), r, junk).0
                && var tail := ReadServer(old(State()), r, junk).1;
                   && res == (if r.Data? then |tail| else if r.Eof? then 0 else -1)
                   && |tail| <= size && buf[..|tail|] == tail
    {
      hide ParseFrom, ReadOutcome;
      res, r := 0, Again;
      if size == 0 || IsAllServerBufferRead() {
        return;
      }
      var tailDataRes := junk;
      if !serverBufferSizeKnown {
        res, tailDataRes, r := ReadHeader(buf, size, avail, choice, tailDataRes);
      } else {
        var got := ReadOutcome(avail, Min(size, serverBufferSizeRemain), choice);
        r := got;
        res := Deliver(got, buf);
        tailDataRes := if res > 0 then res else 0;
      }
      if res == 0 {
        Disconnect();
      }
      if serverBufferSizeRemain >= tailDataRes {
        serverBufferSizeRemain := serverBufferSizeRemain - tailDataRes;
      } else {
        serverBufferSizeRemain := 0;
      }
      if res > 0 {
        res := tailDataRes;
      }
    }

    /** clientconn_read_server_follow */
    method ReadServerFollow(buf: array<Byte>, size: nat, avail: seq<Byte>, choice: ReadChoice)
      returns (res: int, r: ReadResult)
      requires Valid() && size <= buf.Length
      modifies this`connected, buf
      ensures size == 0 || !AllRead(old(State())) ==> res == 0 && State() == old(State())
      ensures size > 0 && AllRead(old(State())) ==>
                && r == ReadOutcome(avail, size, choice)
                && State() == old(State()).(connected := old(connected) && !r.Eof?)
                && res == (if r.Data? then |r.bytes| else if r.Eof? then 0 else -1)
                && |BytesOf(r)| <= size && buf[..|BytesOf(r)|] == BytesOf(r)
    {
      res, r := 0, Again;
      if size == 0 || !IsAllServerBufferRead() {
        return;
      }
      var got := ReadOutcome(avail, size, choice);
      r := got;
      res := Deliver(got, buf);
      if res == 0 {
        Disconnect();
      }
    }
  }
}
