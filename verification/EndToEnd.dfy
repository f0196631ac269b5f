/** Server and client together: a server with any number of clients, one of which is looked at. */
module EndToEnd {
  import opened Tails
  import opened Header
  import opened Kernel
  import opened ClientConns
  import S = ServerSpec
  import C = ClientSpec

  /** The server's units and block size, the client's configuration, and the number of its connection. */
  datatype Setup = Setup(units: Units, bufsiz: nat, client: C.ClientConfig, number: nat)

  datatype World = World(server: S.Server, client: C.Client)

  datatype Event = ServerSide(se: S.ServerEvent) | ClientSide(ce: C.ClientEvent)

  /** c is the connection of the client looked at. */
  ghost predicate IsOurs(p: Setup, w: World, c: S.Conn) {
    c in w.server.listed + w.server.dropped && c.serial == p.number
  }

  /** The client reads what the server wrote to its connection, in any portions. The length of a tail is
      below the largest ssize_t. */
  ghost predicate Enabled(p: Setup, w: World, e: Event) {
    match e
    case ServerSide(se) =>
      && S.Enabled(p.units, p.bufsiz, w.server, se)
      && (se.Accepted? ==> |Tail(p.units, w.server.history)| < SSIZE_MAX)
    case ClientSide(ce) =>
      && C.Enabled(p.client, w.client, ce)
      && (BytesOf(ce.r) != [] ==> exists c :: IsOurs(p, w, c) && w.client.consumed + BytesOf(ce.r) <= c.sent)
  }

  ghost function Step(p: Setup, w: World, e: Event): World
    requires Enabled(p, w, e)
  {
    match e
    case ServerSide(se) => w.(server := S.ServerStep(p.units, p.bufsiz, w.server, se))
    case ClientSide(ce) => w.(client := C.ClientStep(p.client, w.client, ce))
  }

  ghost function Initial(wait: bool): World {
    World(S.InitialServer(wait), C.InitialClient())
  }

  /** From the start, the callbacks es of either program lead through the states ws. */
  ghost predicate IsRun(p: Setup, wait: bool, ws: seq<World>, es: seq<Event>) {
    && |ws| == |es| + 1 && ws[0] == Initial(wait)
    && (forall i {:trigger es[i]} | 0 <= i < |es| :: Enabled(p, ws[i], es[i]) && ws[i + 1] == Step(p, ws[i], es[i]))
  }

  ghost predicate Reachable(p: Setup, wait: bool, w: World) {
    exists ws, es :: IsRun(p, wait, ws, es) && w == ws[|es|]
  }

  /** The client's view of its connection. */
  ghost predicate Agrees(p: Setup, client: C.Client, c: S.Conn) {
    && client.consumed <= c.sent
    && |Tail(p.units, c.accepted)| < SSIZE_MAX
    && C.ClientInv(p.client, client, Tail(p.units, c.accepted))
  }

  /** Before its connection is accepted the client has read nothing; afterwards it agrees with it. */
  ghost predicate WorldInv(p: Setup, wait: bool, w: World) {
    && S.ServerInv(p.units, wait, w.server)
    && S.NoneLost(w.server)
    && (w.server.accepts <= p.number ==>
          w.client.consumed == [] && forall t | |t| < SSIZE_MAX :: C.ClientInv(p.client, w.client, t))
    && (forall c | IsOurs(p, w, c) :: Agrees(p, w.client, c))
  }

  lemma {:induction false} InitialInv(p: Setup, wait: bool)
    ensures WorldInv(p, wait, Initial(wait))
  {
    hide C.ClientInv, S.ServerInv;
    S.InitialInv(p.units, wait);
    forall t | |t| < SSIZE_MAX
      ensures C.ClientInv(p.client, C.InitialClient(), t)
    {
      C.InitialInv(p.client, t);
    }
  }

  /** A server step only adds to what a connection was sent; a new one starts with the client's agreement. */
  lemma {:induction false} OursComesFrom(p: Setup, w: World, se: S.ServerEvent, c: S.Conn)
    requires S.Enabled(p.units, p.bufsiz, w.server, se)
    requires IsOurs(p, w.(server := S.ServerStep(p.units, p.bufsiz, w.server, se)), c)
    ensures (exists d :: IsOurs(p, w, d) && d.accepted == c.accepted && d.sent <= c.sent)
         || (se.Accepted? && p.number == w.server.accepts && c.accepted == w.server.history)
  {
    var s, s' := w.server, S.ServerStep(p.units, p.bufsiz, w.server, se);
    match se
    case StdinData(chunk, _, results) =>
      S.FanOutKeepsAccepted(s.listed, chunk, results);
      if c in s.dropped {
        assert IsOurs(p, w, c);
      } else {
        assert c in S.Kept(s.listed, chunk, results) + S.Lost(s.listed, chunk, results);
        var d :| d in s.listed && d.serial == c.serial && d.accepted == c.accepted && d.sent <= c.sent;
        assert IsOurs(p, w, d);
      }
    case Accepted(_, _) =>
      if c in s.listed + s.dropped {
        assert IsOurs(p, w, c);
      }
    case ClientReadable(i, _) =>
      assert c in s.listed + s.dropped;
      assert IsOurs(p, w, c);
    case _ =>
      assert IsOurs(p, w, c);
  }

  lemma {:induction false} ServerStepKeepsInv(p: Setup, wait: bool, w: World, se: S.ServerEvent)
    requires WorldInv(p, wait, w) && Enabled(p, w, ServerSide(se))
    ensures WorldInv(p, wait, Step(p, w, ServerSide(se)))
  {
    hide S.ServerInv, S.NoneLost, C.ClientInv;
    var w' := Step(p, w, ServerSide(se));
    S.StepKeepsInv(p.units, p.bufsiz, wait, w.server, se);
    S.StepLosesNone(p.units, p.bufsiz, w.server, se);
    forall c | IsOurs(p, w', c)
      ensures Agrees(p, w'.client, c)
    {
      OursComesFrom(p, w, se, c);
    }
  }

  /** Every connection got a prefix of its stream. */
  lemma {:induction false} OursIsIdeal(p: Setup, wait: bool, w: World, c: S.Conn)
    requires S.ServerInv(p.units, wait, w.server) && IsOurs(p, w, c)
    ensures c.sent <= S.Ideal(p.units, c) && c.serial < w.server.accepts
    ensures c.accepted + c.live <= w.server.history
    ensures c in w.server.listed ==> c.sent == S.Ideal(p.units, c)
    ensures c in w.server.listed && !w.server.oom ==> c.accepted + c.live == w.server.history
  {
    hide S.Ideal;
    if c in w.server.listed {
      assert S.ListedInv(p.units, w.server, c);
    } else {
      assert S.DroppedInv(p.units, w.server, c);
    }
  }

  lemma {:induction false} PrefixIsCompatible(a: seq<Byte>, g: seq<Byte>, more: seq<Byte>)
    requires a <= g + more
    ensures C.Compatible(a, g)
  {
  }

  /** Whatever the client reads next continues its greeting. */
  lemma {:induction false} NextIsCompatible(p: Setup, wait: bool, w: World, ce: C.ClientEvent, c: S.Conn)
    requires WorldInv(p, wait, w) && Enabled(p, w, ClientSide(ce)) && IsOurs(p, w, c)
    ensures w.client.consumed + BytesOf(ce.r) <= c.sent
    ensures C.Compatible(w.client.consumed + BytesOf(ce.r), Greeting(Tail(p.units, c.accepted)))
  {
    hide S.ServerInv, S.NoneLost, C.ClientInv, C.Enabled, Greeting, Tail;
    if BytesOf(ce.r) != [] {
      var d :| IsOurs(p, w, d) && w.client.consumed + BytesOf(ce.r) <= d.sent;
      S.NumberIsUnique(w.server, c, d);
    } else {
      assert w.client.consumed + BytesOf(ce.r) == w.client.consumed;
    }
    OursIsIdeal(p, wait, w, c);
    PrefixIsCompatible(w.client.consumed + BytesOf(ce.r), Greeting(Tail(p.units, c.accepted)), c.live);
  }

  lemma {:induction false} ClientStepKeepsInv(p: Setup, wait: bool, w: World, ce: C.ClientEvent)
    requires WorldInv(p, wait, w) && Enabled(p, w, ClientSide(ce))
    ensures WorldInv(p, wait, Step(p, w, ClientSide(ce)))
  {
    hide S.ServerInv, S.NoneLost, C.ClientInv, C.Enabled, C.ClientStep, Tail, Greeting;
    var w' := Step(p, w, ClientSide(ce));
    C.StepConsumes(p.client, w.client, ce);
    if w.server.accepts <= p.number {
      forall c | IsOurs(p, w, c)
        ensures false
      {
        OursIsIdeal(p, wait, w, c);
      }
      forall t | |t| < SSIZE_MAX
        ensures C.ClientInv(p.client, w'.client, t)
      {
        assert [] <= Greeting(t);
        C.StepKeepsInv(p.client, w.client, ce, t);
      }
    }
    forall c | IsOurs(p, w', c)
      ensures Agrees(p, w'.client, c)
    {
      assert IsOurs(p, w, c);
      NextIsCompatible(p, wait, w, ce, c);
      C.StepKeepsInv(p.client, w.client, ce, Tail(p.units, c.accepted));
    }
  }

  lemma {:induction false} StepKeepsInv(p: Setup, wait: bool, w: World, e: Event)
    requires WorldInv(p, wait, w) && Enabled(p, w, e)
    ensures WorldInv(p, wait, Step(p, w, e))
  {
    hide WorldInv;
    match e {
      case ServerSide(se) => ServerStepKeepsInv(p, wait, w, se);
      case ClientSide(ce) => ClientStepKeepsInv(p, wait, w, ce);
    }
  }

  /** Whatever the order of the callbacks, the client's view of its connection stays right. */
  lemma {:induction false} RunKeepsInv(p: Setup, wait: bool, ws: seq<World>, es: seq<Event>, k: nat)
    requires IsRun(p, wait, ws, es) && k <= |es|
    ensures WorldInv(p, wait, ws[k])
  {
    hide WorldInv, Enabled, Step;
    if k == 0 {
      InitialInv(p, wait);
    } else {
      RunKeepsInv(p, wait, ws, es, k - 1);
      StepKeepsInv(p, wait, ws[k - 1], es[k - 1]);
    }
  }

  lemma {:induction false} ReachableInv(p: Setup, wait: bool, w: World)
    requires Reachable(p, wait, w)
    ensures WorldInv(p, wait, w)
  {
    hide WorldInv;
    var ws, es :| IsRun(p, wait, ws, es) && w == ws[|es|];
    RunKeepsInv(p, wait, ws, es, |es|);
  }

  /** What a client that was accepted with the history h should print: the shorter of the server's tail and
      its own. */
  function FirstOutput(p: Setup, h: seq<Byte>): seq<Byte> {
    Shorter(Tail(p.units, h), Tail(p.client.units, h))
  }

  /** The client's expected output in terms of the server's history. */
  lemma {:induction false} ExpectedOfConn(p: Setup, c: S.Conn, consumed: seq<Byte>)
    requires consumed <= S.Ideal(p.units, c)
    ensures var e := C.Expected(p.client.units, Tail(p.units, c.accepted), consumed);
            && e <= FirstOutput(p, c.accepted) + c.live
            && (consumed == S.Ideal(p.units, c) ==> e == FirstOutput(p, c.accepted) + c.live)
            && (consumed == Greeting(Tail(p.units, c.accepted)) ==> e == FirstOutput(p, c.accepted))
  {
    hide Tail, Greeting;
    TailCompose(p.client.units, p.units, c.accepted);
    var g := Greeting(Tail(p.units, c.accepted));
    CutConcat(g, c.live, |g|);
    assert g[|g|..] == [];
    if |consumed| >= |g| {
      assert (g + c.live)[..|consumed|][|g|..] == c.live[..|consumed| - |g|];
      assert consumed == (g + c.live)[..|consumed|];
    }
  }

  /** In every run, whatever a client has printed is a prefix of the shorter of the two tails of the history
      at which it was accepted, followed by everything that arrived since. */
  lemma {:induction false} NothingWrongIsPrinted(p: Setup, wait: bool, w: World, c: S.Conn)
    requires Reachable(p, wait, w) && IsOurs(p, w, c)
    ensures w.client.printed <= FirstOutput(p, c.accepted) + c.live
    ensures c.accepted + c.live <= w.server.history
  {
    hide Reachable, S.ServerInv, S.NoneLost, S.Ideal, FirstOutput, C.Expected, C.ConnInv;
    ReachableInv(p, wait, w);
    OursIsIdeal(p, wait, w, c);
    assert Agrees(p, w.client, c);
    ExpectedOfConn(p, c, w.client.consumed);
  }

  /** A client that is still listed, has not lost its stdout and has read all that was sent to it has printed
      exactly the shorter of the two tails and then everything that arrived since: no gap, no repetition. */
  lemma {:induction false} FollowerPrintsEverything(p: Setup, wait: bool, w: World, c: S.Conn)
    requires Reachable(p, wait, w) && IsOurs(p, w, c)
    requires c in w.server.listed && w.client.consumed == c.sent
    requires !w.server.oom && !w.client.broken
    ensures w.server.history == c.accepted + c.live
    ensures w.client.printed == FirstOutput(p, c.accepted) + c.live
  {
    hide Reachable, S.ServerInv, S.NoneLost, S.Ideal, FirstOutput, C.Expected, C.ConnInv;
    ReachableInv(p, wait, w);
    OursIsIdeal(p, wait, w, c);
    assert Agrees(p, w.client, c);
    ExpectedOfConn(p, c, w.client.consumed);
  }

  /** A client that does not follow reads no further than the tail; once it has all of it, it has printed
      exactly the shorter of the two tails and hung up. */
  lemma {:induction false} OneShotPrintsTail(p: Setup, wait: bool, w: World, c: S.Conn)
    requires Reachable(p, wait, w) && IsOurs(p, w, c)
    requires !p.client.follow && !w.client.broken
    ensures var client, n := w.client, |Greeting(Tail(p.units, c.accepted))|;
            && |client.consumed| <= n
            && (|client.consumed| < n ==> client.printed == [])
            && (|client.consumed| == n ==>
                  client.printed == FirstOutput(p, c.accepted) && !client.conn.connected && !client.looping)
  {
    hide Reachable, S.ServerInv, S.NoneLost, FirstOutput, C.ConnInv, Greeting, Tail;
    ReachableInv(p, wait, w);
    OursIsIdeal(p, wait, w, c);
    assert Agrees(p, w.client, c);
    ExpectedOfConn(p, c, w.client.consumed);
  }

  // ---- clients do get there ----

  lemma {:induction false} ReachableStep(p: Setup, wait: bool, w: World, e: Event)
    requires Reachable(p, wait, w) && Enabled(p, w, e)
    ensures Reachable(p, wait, Step(p, w, e))
  {
    hide Enabled, Step;
    var ws, es :| IsRun(p, wait, ws, es) && w == ws[|es|];
    var ws', es' := ws + [Step(p, w, e)], es + [e];
    assert IsRun(p, wait, ws', es');
    assert ws'[|es'|] == Step(p, w, e);
  }

  /** The callback in which the client reads one byte more, with memory and a stdout that takes everything. */
  function ReadOne(p: Setup, client: C.Client, b: Byte): C.ClientEvent {
    var e := C.ClientEvent(Data([b]), 0, true, C.Written(true, 1), C.Written(true, 0));
    e.(tail := C.Written(true, |Tail(p.client.units, C.BufferedAfter(client, e))|))
  }

  lemma {:induction false} ReadOneIsEnabled(p: Setup, client: C.Client, c: S.Conn)
    requires Agrees(p, client, c) && client.looping && p.client.bufsiz >= 1 && |client.consumed| < |c.sent|
    ensures C.Enabled(p.client, client, ReadOne(p, client, c.sent[|client.consumed|]))
    ensures client.consumed + [c.sent[|client.consumed|]] <= c.sent
  {
    hide Tail, Greeting, C.Expected, ReadServer, Decimal, ValueOf;
    var k := |client.consumed|;
    assert c.sent[..k + 1] == c.sent[..k] + [c.sent[k]];
    if !AllRead(client.conn) {
      C.NeverOverReads(p.client, client, Tail(p.units, c.accepted));
    }
  }

  lemma {:induction false} InvAgrees(p: Setup, wait: bool, w: World, c: S.Conn)
    requires WorldInv(p, wait, w) && IsOurs(p, w, c)
    ensures Agrees(p, w.client, c)
  {
    hide Agrees, S.ServerInv, S.NoneLost;
  }

  lemma {:induction false} ReadOneEnds(p: Setup, wait: bool, w: World, c: S.Conn, e: C.ClientEvent)
    requires WorldInv(p, wait, w) && IsOurs(p, w, c) && Agrees(p, w.client, c) && Enabled(p, w, ClientSide(e))
    requires |w.client.consumed| < |c.sent| && e == ReadOne(p, w.client, c.sent[|w.client.consumed|])
    ensures var client := C.ClientStep(p.client, w.client, e);
            && client.consumed == w.client.consumed + [c.sent[|w.client.consumed|]] && !client.broken
            && (p.client.follow || |client.consumed| < |Greeting(Tail(p.units, c.accepted))| ==> client.looping)
  {
    hide WorldInv, Tail, Greeting, C.Expected, C.ConnInv, C.BufferedAfter, C.ClientStep;
    NextIsCompatible(p, wait, w, e, c);
    C.StepConsumes(p.client, w.client, e);
    C.GoesOn(p.client, w.client, e, Tail(p.units, c.accepted));
    C.StaysWhole(p.client, w.client, e);
  }

  /** The client goes on with it, unless it does not follow and has all of its greeting. */
  lemma {:induction false} ReadOneGoesOn(p: Setup, wait: bool, w: World, c: S.Conn) returns (w': World)
    requires Reachable(p, wait, w) && IsOurs(p, w, c) && p.client.bufsiz >= 1
    requires w.client.looping && |w.client.consumed| < |c.sent|
    ensures Reachable(p, wait, w') && w'.server == w.server && !w'.client.broken
    ensures |w'.client.consumed| == |w.client.consumed| + 1 && w'.client.consumed <= c.sent
    ensures p.client.follow || |w'.client.consumed| < |Greeting(Tail(p.units, c.accepted))| ==> w'.client.looping
  {
    hide Reachable, WorldInv, Agrees, C.Enabled, C.ClientStep, Tail, Greeting, C.BufferedAfter;
    ReachableInv(p, wait, w);
    InvAgrees(p, wait, w, c);
    ReadOneIsEnabled(p, w.client, c);
    var e := ReadOne(p, w.client, c.sent[|w.client.consumed|]);
    ReachableStep(p, wait, w, ClientSide(e));
    w' := Step(p, w, ClientSide(e));
    ReadOneEnds(p, wait, w, c, e);
  }

  /** From every reachable state, a client that is still in its loop can get to the point where it has read the
      first m bytes of what it was sent, if it follows or m is no more than its greeting: nothing but the kernel
      keeps it from there. */
  lemma {:induction false} CanCatchUp(p: Setup, wait: bool, w: World, c: S.Conn, m: nat) returns (w': World)
    requires Reachable(p, wait, w) && IsOurs(p, w, c) && p.client.bufsiz >= 1 && w.client.looping
    requires |w.client.consumed| <= m <= |c.sent|
    requires p.client.follow || m <= |Greeting(Tail(p.units, c.accepted))|
    ensures Reachable(p, wait, w') && w'.server == w.server && !w'.client.broken
    ensures w'.client.consumed == c.sent[..m]
    ensures p.client.follow ==> w'.client.looping
    decreases m - |w.client.consumed|
  {
    hide Reachable, WorldInv, Tail, Greeting, C.ConnInv, C.Expected;
    w' := w;
    ReachableInv(p, wait, w);
    InvAgrees(p, wait, w, c);
    if |w.client.consumed| < m {
      w' := ReadOneGoesOn(p, wait, w, c);
      if |w'.client.consumed| < m {
        w' := CanCatchUp(p, wait, w', c, m);
      }
    }
  }

  /** So a client that is in its loop and was sent all of its stream can still print what it should... */
  lemma {:induction false} FollowerCanFinish(p: Setup, wait: bool, w: World, c: S.Conn) returns (w': World)
    requires Reachable(p, wait, w) && IsOurs(p, w, c) && p.client.bufsiz >= 1 && w.client.looping
    requires c in w.server.listed && !w.server.oom && p.client.follow
    ensures Reachable(p, wait, w') && w'.server == w.server && w'.client.looping
    ensures w'.client.printed == FirstOutput(p, c.accepted) + c.live
  {
    hide Reachable, FirstOutput, S.Ideal, C.ClientInv;
    ReachableInv(p, wait, w);
    InvAgrees(p, wait, w, c);
    w' := CanCatchUp(p, wait, w, c, |c.sent|);
    FollowerPrintsEverything(p, wait, w', c);
  }

  /** ...and so can one that does not follow. */
  lemma {:induction false} OneShotCanFinish(p: Setup, wait: bool, w: World, c: S.Conn) returns (w': World)
    requires Reachable(p, wait, w) && IsOurs(p, w, c) && p.client.bufsiz >= 1 && w.client.looping
    requires c in w.server.listed && !p.client.follow
    ensures Reachable(p, wait, w') && w'.server == w.server
    ensures w'.client.printed == FirstOutput(p, c.accepted) && !w'.client.conn.connected
  {
    hide Reachable, FirstOutput, Greeting, Tail, C.ConnInv, C.Expected, S.ServerInv, S.NoneLost;
    ReachableInv(p, wait, w);
    InvAgrees(p, wait, w, c);
    OursIsIdeal(p, wait, w, c);
    OneShotPrintsTail(p, wait, w, c);
    w' := CanCatchUp(p, wait, w, c, |Greeting(Tail(p.units, c.accepted))|);
    OneShotPrintsTail(p, wait, w', c);
  }
}
