/** One connection of the client, callback by callback, on values: what src/clientloop.c and
    src/clientconn.c do, and what every run of them keeps. */
module ClientSpec {
  import opened Tails
  import opened Kernel
  import opened Header
  import opened ClientConns

  datatype ClientConfig = ClientConfig(units: Units, follow: bool, bufsiz: nat)

  /** The client's variables, with all bytes it read from the socket, all tail bytes it appended to its
      buffer and everything it printed. */
  datatype Client = Client(conn: ConnState, consumed: seq<Byte>, buffered: seq<Byte>, tailOutput: bool,
                           printed: seq<Byte>, broken: bool, looping: bool)

  /** What a blocking write of some data did: all of it was taken, or only a prefix. */
  datatype Written = Written(ok: bool, taken: nat)

  predicate WriteAllowed(w: Written, size: nat) {
    w.taken <= size && (w.ok ==> w.taken == size)
  }

  /** One blocking write of size bytes, when the kernel makes this choice. */
  function WrittenOf(size: nat, choice: int): Written {
    Written(WriteOutcome(size, choice) >= size, Taken(WriteOutcome(size, choice)))
  }

  /** The outcome of one callback's system calls; appendOk is false when memory ran out. */
  datatype ClientEvent = ClientEvent(r: ReadResult, junk: int, appendOk: bool, follow: Written, tail: Written)

  function InitialClient(): Client {
    Client(ConnState(true, false, 0, 0), [], [], false, [], false, true)
  }

  function Print(c: Client, data: seq<Byte>, w: Written): Client
    requires WriteAllowed(w, |data|)
  {
    c.(printed := c.printed + data[..w.taken], broken := c.broken || !w.ok)
  }

  /** What the client's own buffer has been given when the read is over. */
  function BufferedAfter(c: Client, e: ClientEvent): seq<Byte> {
    if AllRead(c.conn) then c.buffered else c.buffered + ReadServer(c.conn, e.r, e.junk).1
  }

  predicate Enabled(cfg: ClientConfig, c: Client, e: ClientEvent) {
    && c.looping
    && (e.r.Data? ==> 1 <= |e.r.bytes| <= ReadLimit(c.conn, cfg.bufsiz, cfg.bufsiz))
    && (AllRead(c.conn) ==> WriteAllowed(e.follow, |BytesOf(e.r)|))
    && WriteAllowed(e.tail, |Tail(cfg.units, BufferedAfter(c, e))|)
  }

  /** The first half of unix_sock_readable_cb: read the server's buffer, or the data that follows it. The
      second result says whether an error occurred. */
  function ReadPhase(cfg: ClientConfig, c: Client, e: ClientEvent): (r: (Client, bool))
    requires Enabled(cfg, c, e)
    ensures r.0.buffered == BufferedAfter(c, e)
  {
    var c1 := c.(consumed := c.consumed + BytesOf(e.r));
    if !AllRead(c.conn) then
      var (conn, tail) := ReadServer(c.conn, e.r, e.junk);
      (c1.(conn := conn, buffered := c.buffered + tail), e.r.Fail? || (tail != [] && !e.appendOk))
    else
      var c2 := c1.(conn := c.conn.(connected := c.conn.connected && !e.r.Eof?));
      if e.r.Data? then (Print(c2, e.r.bytes, e.follow), !e.follow.ok) else (c2, e.r.Fail?)
  }

  /** The second half: once all of the server's buffer is there, print the tail, and disconnect unless
      following; then leave the loop when the connection is over or an error occurred. */
  function OutputPhase(cfg: ClientConfig, c: Client, error: bool, tail: Written): Client
    requires WriteAllowed(tail, |Tail(cfg.units, c.buffered)|)
  {
    if !AllRead(c.conn) then
      c.(looping := c.conn.connected && !error)
    else
      var c2 := if c.tailOutput then c else Print(c, Tail(cfg.units, c.buffered), tail).(tailOutput := true);
      var error2 := error || (!c.tailOutput && !tail.ok);
      var c3 := if cfg.follow then c2 else c2.(conn := c2.conn.(connected := false));
      c3.(looping := c3.conn.connected && !error2)
  }

  function ClientStep(cfg: ClientConfig, c: Client, e: ClientEvent): Client
    requires Enabled(cfg, c, e)
  {
    var (c1, error) := ReadPhase(cfg, c, e);
    OutputPhase(cfg, c1, error, e.tail)
  }

  /** One byte string continues the other. */
  predicate Compatible(a: seq<Byte>, b: seq<Byte>) {
    a <= b || b <= a
  }

  /** What a client that has read p of a connection greeted with the tail t should have printed. */
  function Expected(units: Units, t: seq<Byte>, p: seq<Byte>): seq<Byte> {
    var n := |Greeting(t)|;
    if |p| < n then [] else Tail(units, t) + p[n..]
  }

  /** The length of the length line, without its newline. */
  function LineLength(t: seq<Byte>): nat {
    |Decimal(|t|)|
  }

  /** Connection state, buffer and consumed bytes fit together. */
  ghost predicate ConnInv(c: Client, t: seq<Byte>) {
    var k, n := |c.consumed|, LineLength(t);
    && Compatible(c.consumed, Greeting(t)) && c.conn.remain >= 0
    && (c.conn.known <==> k > n)
    && (k <= n ==> c.conn.size == ValueOf(Decimal(|t|)[..k]) && c.buffered == [])
    && (k > n ==> c.conn.remain == (if k < n + 1 + |t| then n + 1 + |t| - k else 0))
    && (k > n ==> c.buffered == t[..if k < n + 1 + |t| then k - n - 1 else |t|])
  }

  /** What every callback of a client keeps while the server sends Greeting(t) and then other data. */
  ghost predicate ClientInv(cfg: ClientConfig, c: Client, t: seq<Byte>) {
    && ConnInv(c, t)
    && (c.tailOutput <==> |c.consumed| >= |Greeting(t)|)
    && c.printed <= Expected(cfg.units, t, c.consumed)
    && (!c.broken ==> c.printed == Expected(cfg.units, t, c.consumed))
    && (c.looping ==> c.conn.connected && !c.broken)
    && (!cfg.follow ==> |c.consumed| <= |Greeting(t)| && (c.tailOutput ==> !c.conn.connected))
  }

  lemma {:induction false} InitialInv(cfg: ClientConfig, t: seq<Byte>)
    ensures ClientInv(cfg, InitialClient(), t)
  {
    assert Decimal(|t|)[..0] == [];
  }

  /** "All read" is reached exactly with the last tail byte. */
  lemma {:induction false} AllReadExactly(c: Client, t: seq<Byte>)
    requires ConnInv(c, t)
    ensures AllRead(c.conn) <==> |c.consumed| >= |Greeting(t)|
    ensures AllRead(c.conn) ==> c.buffered == t
  {
  }

  /** Reading never goes past the tail before all of it has been read. */
  lemma {:induction false} NeverOverReads(cfg: ClientConfig, c: Client, t: seq<Byte>)
    requires ConnInv(c, t) && !AllRead(c.conn)
    ensures |c.consumed| + ReadLimit(c.conn, cfg.bufsiz, cfg.bufsiz) <= |Greeting(t)|
    ensures !c.conn.known ==> c.conn.size + 1 <= |t| + 1
    ensures cfg.bufsiz >= 1 ==> ReadLimit(c.conn, cfg.bufsiz, cfg.bufsiz) >= 1
  {
    if !c.conn.known {
      HeaderLowerBound(|t|, |c.consumed|);
    }
  }

  /** What comes next of the length line, of which |p| bytes have been read... */
  lemma {:induction false} NextLineBytes(p: seq<Byte>, d: seq<Byte>, t: seq<Byte>)
    requires p + d <= Greeting(t)
    ensures forall i | 0 <= i < |d| && |p| + i <= LineLength(t) :: d[i] == LineByte(|t|, |p| + i)
  {
    hide Decimal;
    forall i | 0 <= i < |d| && |p| + i <= LineLength(t)
      ensures d[i] == LineByte(|t|, |p| + i)
    {
      assert d[i] == (p + d)[|p| + i] == Greeting(t)[|p| + i];
    }
  }

  /** ...and of the tail behind it. */
  lemma {:induction false} NextTailBytes(p: seq<Byte>, d: seq<Byte>, t: seq<Byte>)
    requires p + d <= Greeting(t) && |p| <= LineLength(t) < |p| + |d|
    ensures d[LineLength(t) - |p| + 1..] == t[..|p| + |d| - LineLength(t) - 1]
  {
    hide Decimal;
    var n := LineLength(t);
    assert d[n - |p| + 1..] == (p + d)[n + 1..] == Greeting(t)[..|p| + |d|][n + 1..];
  }

  lemma {:induction false} MoreTailBytes(p: seq<Byte>, d: seq<Byte>, t: seq<Byte>)
    requires p + d <= Greeting(t) && LineLength(t) < |p|
    ensures t[..|p| - LineLength(t) - 1] + d == t[..|p| + |d| - LineLength(t) - 1]
  {
    hide Decimal;
    var n := LineLength(t);
    assert d == (p + d)[|p|..] == Greeting(t)[|p|..|p| + |d|] == t[|p| - n - 1..|p| + |d| - n - 1];
  }

  /** Reading on through the length line, and perhaps into the tail. */
  lemma {:induction false} HeaderKeepsInv(c: Client, d: seq<Byte>, t: seq<Byte>)
    requires ConnInv(c, t) && |t| < SSIZE_MAX && !c.conn.known
    requires c.consumed + d <= Greeting(t)
    ensures var q := ParseFrom(c.conn.size, d);
            var k := |c.consumed| + |d|;
            && !q.failed
            && (k <= LineLength(t) ==> !q.known && q.size == ValueOf(Decimal(|t|)[..k]) && q.used == |d|)
            && (k > LineLength(t) ==> q.known && q.size == |t| && q.used == LineLength(t) - |c.consumed| + 1)
  {
    hide ValueOf, Decimal, ParseFrom, Greeting;
    NextLineBytes(c.consumed, d, t);
    ParseChunk(|t|, |c.consumed|, d);
  }

  /** Reading on keeps connection state, buffer and consumed bytes together. */
  lemma {:induction false} ServerReadKeepsInv(cfg: ClientConfig, c: Client, r: ReadResult, junk: int, t: seq<Byte>,
                                              c': Client)
    requires ConnInv(c, t) && |t| < SSIZE_MAX && !AllRead(c.conn)
    requires r.Data? ==> 1 <= |r.bytes| <= ReadLimit(c.conn, cfg.bufsiz, cfg.bufsiz)
    requires Compatible(c.consumed + BytesOf(r), Greeting(t))
    requires c'.consumed == c.consumed + BytesOf(r) && c'.conn == ReadServer(c.conn, r, junk).0
    requires c'.buffered == c.buffered + ReadServer(c.conn, r, junk).1
    ensures ConnInv(c', t)
    ensures c'.conn.connected == (c.conn.connected && !r.Eof?)
    ensures |c.consumed| < |Greeting(t)| && |c'.consumed| <= |Greeting(t)|
    ensures r.Data? ==> |ReadServer(c.conn, r, junk).1| <= RemainBefore(c.conn, r)
  {
    hide ValueOf, Decimal, ParseFrom;
    if !r.Data? {
      assert c'.consumed == c.consumed && c'.buffered == c.buffered;
    } else {
      NeverOverReads(cfg, c, t);
      if c.conn.known {
        MoreTailBytes(c.consumed, r.bytes, t);
      } else {
        HeaderKeepsInv(c, r.bytes, t);
        if |c'.consumed| > LineLength(t) {
          NextTailBytes(c.consumed, r.bytes, t);
        }
      }
    }
  }

  /** Data that follows the tail is passed on. */
  lemma {:induction false} FollowKeepsInv(cfg: ClientConfig, c: Client, e: ClientEvent, t: seq<Byte>)
    requires Enabled(cfg, c, e) && ClientInv(cfg, c, t) && AllRead(c.conn)
    ensures ConnInv(ReadPhase(cfg, c, e).0, t)
    ensures Expected(cfg.units, t, c.consumed + BytesOf(e.r)) == Expected(cfg.units, t, c.consumed) + BytesOf(e.r)
  {
    hide Decimal, ValueOf, Tail, Greeting, ReadServer;
    var n, p, d := |Greeting(t)|, c.consumed, BytesOf(e.r);
    AllReadExactly(c, t);
    CutConcat(p, d, n);
    ConcatAssociative(Tail(cfg.units, t), p[n..], d);
    assert Compatible(p + d, Greeting(t)) by {
      assert Greeting(t) <= p <= p + d;
    }
  }

  /** What holds between the two halves of a callback. */
  ghost predicate ReadInv(cfg: ClientConfig, c: Client, error: bool, t: seq<Byte>) {
    && ConnInv(c, t) && (c.broken ==> error)
    && if c.tailOutput then
         && cfg.follow && |c.consumed| >= |Greeting(t)|
         && c.printed <= Expected(cfg.units, t, c.consumed)
         && (!c.broken ==> c.printed == Expected(cfg.units, t, c.consumed))
       else
         |c.consumed| <= |Greeting(t)| && c.printed == [] && !c.broken
  }

  lemma {:induction false} ReadKeepsInv(cfg: ClientConfig, c: Client, e: ClientEvent, t: seq<Byte>)
    requires Enabled(cfg, c, e) && ClientInv(cfg, c, t) && |t| < SSIZE_MAX
    requires Compatible(c.consumed + BytesOf(e.r), Greeting(t))
    ensures var (c1, error) := ReadPhase(cfg, c, e); ReadInv(cfg, c1, error, t)
  {
    hide ConnInv, ReadServer, Greeting, Tail, ReadLimit;
    AllReadExactly(c, t);
    if AllRead(c.conn) {
      FollowKeepsInv(cfg, c, e, t);
    } else {
      ServerReadKeepsInv(cfg, c, e.r, e.junk, t, ReadPhase(cfg, c, e).0);
    }
  }

  lemma {:induction false} OutputKeepsInv(cfg: ClientConfig, c: Client, error: bool, tail: Written, t: seq<Byte>)
    requires ReadInv(cfg, c, error, t) && WriteAllowed(tail, |Tail(cfg.units, c.buffered)|)
    ensures ClientInv(cfg, OutputPhase(cfg, c, error, tail), t)
  {
    hide ConnInv, Greeting, Tail;
    AllReadExactly(c, t);
    assert |c.consumed| == |Greeting(t)| ==> c.consumed[|Greeting(t)|..] == [];
    ConnInvIgnoresOutput(c, OutputPhase(cfg, c, error, tail), t);
  }

  /** Every callback keeps the invariant, however the kernel cuts up the stream. */
  lemma {:induction false} StepKeepsInv(cfg: ClientConfig, c: Client, e: ClientEvent, t: seq<Byte>)
    requires Enabled(cfg, c, e) && ClientInv(cfg, c, t) && |t| < SSIZE_MAX
    requires Compatible(c.consumed + BytesOf(e.r), Greeting(t))
    ensures ClientInv(cfg, ClientStep(cfg, c, e), t)
  {
    hide ClientInv, ReadInv, OutputPhase, Greeting, Tail, AllRead;
    var (c1, error) := ReadPhase(cfg, c, e);
    ReadKeepsInv(cfg, c, e, t);
    OutputKeepsInv(cfg, c1, error, e.tail, t);
  }

  lemma {:induction false} ConnInvIgnoresOutput(c: Client, c': Client, t: seq<Byte>)
    requires ConnInv(c, t) && c'.consumed == c.consumed && c'.buffered == c.buffered
    requires c'.conn == c.conn.(connected := c'.conn.connected)
    ensures ConnInv(c', t)
  {
  }

  lemma {:induction false} StepConsumes(cfg: ClientConfig, c: Client, e: ClientEvent)
    requires Enabled(cfg, c, e)
    ensures ClientStep(cfg, c, e).consumed == c.consumed + BytesOf(e.r)
  {
    hide ReadServer, Tail;
  }

  lemma {:induction false} PrintedWhenWhole(cfg: ClientConfig, c: Client, t: seq<Byte>)
    requires ClientInv(cfg, c, t)
    ensures !c.broken ==> c.printed == Expected(cfg.units, t, c.consumed)
  {
  }

  /** Reading on in a stream. */
  lemma {:induction false} ReadOn(stream: seq<Byte>, pos: nat, d: seq<Byte>, g: seq<Byte>)
    requires pos <= |stream| && d <= stream[pos..] && Compatible(stream, g)
    ensures pos + |d| <= |stream| && stream[..pos] + d == stream[..pos + |d|]
    ensures Compatible(stream[..pos] + d, g)
  {
    assert stream[..pos] + d == stream[..pos + |d|];
  }

  /** The callbacks es lead from the start through the states cs. */
  ghost predicate IsRun(cfg: ClientConfig, cs: seq<Client>, es: seq<ClientEvent>) {
    && |cs| == |es| + 1 && cs[0] == InitialClient()
    && (forall i {:trigger es[i]} | 0 <= i < |es| ::
          Enabled(cfg, cs[i], es[i]) && cs[i + 1] == ClientStep(cfg, cs[i], es[i]))
  }

  lemma {:induction false} RunGoesOn(cfg: ClientConfig, cs: seq<Client>, es: seq<ClientEvent>, e: ClientEvent)
    requires IsRun(cfg, cs, es) && Enabled(cfg, cs[|es|], e)
    ensures IsRun(cfg, cs + [ClientStep(cfg, cs[|es|], e)], es + [e])
  {
    hide Enabled, ClientStep;
  }

  /** What ends the loop, and nothing else: the end of the stream or a hard error; a write to stdout that is
      short; no memory for tail bytes; and, for a client that does not follow, that all of the tail is there. */
  ghost predicate Ends(cfg: ClientConfig, c: Client, e: ClientEvent, t: seq<Byte>) {
    var n, k := |Greeting(t)|, |c.consumed| + |BytesOf(e.r)|;
    || e.r.Eof? || e.r.Fail?
    || (|c.consumed| >= n && e.r.Data? && !e.follow.ok)
    || (|c.consumed| < n && e.r.Data? && k > LineLength(t) + 1 && !e.appendOk)
    || (|c.consumed| < n <= k && !e.tail.ok)
    || (k >= n && !cfg.follow)
  }

  lemma {:induction false} GoesOn(cfg: ClientConfig, c: Client, e: ClientEvent, t: seq<Byte>)
    requires Enabled(cfg, c, e) && ClientInv(cfg, c, t) && |t| < SSIZE_MAX
    requires Compatible(c.consumed + BytesOf(e.r), Greeting(t))
    ensures ClientStep(cfg, c, e).looping <==> !Ends(cfg, c, e, t)
  {
    hide ReadLimit, Tail, ParseFrom, Decimal, ValueOf, Expected;
    AllReadExactly(c, t);
    ReadKeepsInv(cfg, c, e, t);
    AllReadExactly(ReadPhase(cfg, c, e).0, t);
    if !AllRead(c.conn) {
      ServerReadKeepsInv(cfg, c, e.r, e.junk, t, ReadPhase(cfg, c, e).0);
      if e.r.Data? && !c.conn.known {
        NeverOverReads(cfg, c, t);
        HeaderKeepsInv(c, e.r.bytes, t);
      }
    }
  }

  /** Complete writes do not break stdout. */
  lemma {:induction false} StaysWhole(cfg: ClientConfig, c: Client, e: ClientEvent)
    requires Enabled(cfg, c, e) && !c.broken && e.follow.ok && e.tail.ok
    ensures !ClientStep(cfg, c, e).broken
  {
    hide ReadServer, Tail;
  }

  /** A server that breaks the protocol ends the client at once: it prints nothing more, and none of the data
      gets into its buffer. */
  lemma {:induction false} ViolationEnds(cfg: ClientConfig, c: Client, e: ClientEvent)
    requires Enabled(cfg, c, e) && !c.conn.known && e.r.Data? && ParseFrom(c.conn.size, e.r.bytes).failed
    ensures var c' := ClientStep(cfg, c, e);
            !c'.looping && !c'.conn.connected && c'.printed == c.printed && c'.buffered == c.buffered
  {
    hide ParseFrom, Tail;
    assert e.r.bytes[|e.r.bytes|..] == [];
  }
}
