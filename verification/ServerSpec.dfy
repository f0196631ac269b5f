/** The server, callback by callback, on values: what src/pipes.c and src/sockets.c do with the history,
    the listed clients and the watchers, and what every run of them keeps. */
module ServerSpec {
  import opened Tails
  import opened Header
  import opened Kernel

  /** A connection: its number, the history when it was accepted, what has been handed to its writes since,
      and what was delivered to it. */
  datatype Conn = Conn(serial: nat, accepted: seq<Byte>, live: seq<Byte>, sent: seq<Byte>)

  /** The server's variables, with everything ever read from stdin, everything written to stdout and the
      connections that are over. */
  datatype Server = Server(history: seq<Byte>, stdout: seq<Byte>, listed: seq<Conn>, dropped: seq<Conn>,
                           accepts: nat, waiting: bool, watching: bool, running: bool, oom: bool)

  /** One callback and the outcome of its system calls. */
  datatype ServerEvent =
    | StdinData(chunk: seq<Byte>, stdoutTaken: nat, results: seq<int>)
    | StdinDataOom(lost: seq<Byte>)
    | StdinEnd
    | StdinAgain
    | AcceptFailed
    | Accepted(ok: bool, delivered: nat)
    | ClientReadable(index: nat, ends: bool)

  function InitialServer(wait: bool): Server {
    Server([], [], [], [], 0, wait, !wait, true, false)
  }

  /** The stream a client should see. */
  function Ideal(u: Units, c: Conn): seq<Byte> {
    Greeting(Tail(u, c.accepted)) + c.live
  }

  function Handed(c: Conn, data: seq<Byte>, result: int): Conn
    requires -1 <= result <= |data|
  {
    c.(live := c.live + data, sent := c.sent + data[..Taken(result)])
  }

  ghost predicate ResultsAllowed(results: seq<int>, n: nat, size: nat) {
    |results| == n && forall i | 0 <= i < n :: -1 <= results[i] <= size
  }

  /** The connections to which the whole of data was written, in their old order. */
  function Kept(conns: seq<Conn>, data: seq<Byte>, results: seq<int>): seq<Conn>
    requires |results| == |conns| && forall i | 0 <= i < |conns| :: -1 <= results[i] <= |data|
  {
    if conns == [] then []
    else
      var k := |conns| - 1;
      Kept(conns[..k], data, results[..k]) + (if results[k] == |data| then [Handed(conns[k], data, results[k])] else [])
  }

  /** The others. */
  function Lost(conns: seq<Conn>, data: seq<Byte>, results: seq<int>): seq<Conn>
    requires |results| == |conns| && forall i | 0 <= i < |conns| :: -1 <= results[i] <= |data|
  {
    if conns == [] then []
    else
      var k := |conns| - 1;
      Lost(conns[..k], data, results[..k]) + (if results[k] == |data| then [] else [Handed(conns[k], data, results[k])])
  }

  ghost predicate Enabled(u: Units, bufsiz: nat, s: Server, e: ServerEvent) {
    match e
    case StdinData(chunk, stdoutTaken, results) =>
      && s.watching && s.running && 1 <= |chunk| <= bufsiz && stdoutTaken <= |chunk|
      && ResultsAllowed(results, |s.listed|, |chunk|)
    case StdinDataOom(lost) => s.watching && s.running && 1 <= |lost| <= bufsiz
    case StdinEnd => s.watching && s.running
    case StdinAgain => s.watching && s.running
    case AcceptFailed => true
    case Accepted(ok, delivered) =>
      var n := |Greeting(Tail(u, s.history))|;
      delivered <= n && (ok ==> delivered == n)
    case ClientReadable(index, ends) => index < |s.listed|
  }

  ghost function ServerStep(u: Units, bufsiz: nat, s: Server, e: ServerEvent): Server
    requires Enabled(u, bufsiz, s, e)
  {
    match e
    case StdinData(chunk, stdoutTaken, results) =>
      s.(history := s.history + chunk,
         stdout := s.stdout + chunk[..stdoutTaken],
         running := stdoutTaken == |chunk|,
         listed := Kept(s.listed, chunk, results),
         dropped := s.dropped + Lost(s.listed, chunk, results))
    case StdinDataOom(lost) => s.(history := s.history + lost, running := false, oom := true)
    case StdinEnd => s.(running := false)
    case StdinAgain => s
    case AcceptFailed => s
    case Accepted(ok, delivered) =>
      var c := Conn(s.accepts, s.history, [], Greeting(Tail(u, s.history))[..delivered]);
      s.(listed := if ok then [c] + s.listed else s.listed,
         dropped := if ok then s.dropped else s.dropped + [c],
         accepts := s.accepts + 1,
         waiting := false,
         watching := s.watching || s.waiting)
    case ClientReadable(index, ends) =>
      if ends then
        s.(listed := s.listed[..index] + s.listed[index + 1..], dropped := s.dropped + [s.listed[index]])
      else s
  }

  /** The state after new data has been passed on... */
  lemma {:induction false} DataStep(u: Units, bufsiz: nat, s: Server, data: seq<Byte>, taken: nat, results: seq<int>)
    requires s.watching && s.running && 1 <= |data| <= bufsiz && taken <= |data|
    requires ResultsAllowed(results, |s.listed|, |data|)
    ensures Enabled(u, bufsiz, s, StdinData(data, taken, results))
    ensures ServerStep(u, bufsiz, s, StdinData(data, taken, results)) ==
            Server(s.history + data, s.stdout + data[..taken], Kept(s.listed, data, results),
                   s.dropped + Lost(s.listed, data, results), s.accepts, s.waiting, s.watching, taken == |data|, s.oom)
    ensures Enabled(u, bufsiz, s, StdinDataOom(data))
    ensures ServerStep(u, bufsiz, s, StdinDataOom(data)) ==
            Server(s.history + data, s.stdout, s.listed, s.dropped, s.accepts, s.waiting, s.watching, false, true)
  {
  }

  /** ...or a connection c has been accepted... */
  lemma {:induction false} AcceptedStep(u: Units, bufsiz: nat, s: Server, ok: bool, c: Conn)
    requires var g := Greeting(Tail(u, s.history));
             && |c.sent| <= |g| && (ok ==> |c.sent| == |g|)
             && c == Conn(s.accepts, s.history, [], g[..|c.sent|])
    ensures Enabled(u, bufsiz, s, Accepted(ok, |c.sent|))
    ensures ServerStep(u, bufsiz, s, Accepted(ok, |c.sent|)) ==
            Server(s.history, s.stdout, (if ok then [c] else []) + s.listed, s.dropped + (if ok then [] else [c]),
                   s.accepts + 1, false, s.watching || s.waiting, s.running, s.oom)
  {
    hide Greeting, Tail;
    assert [] + s.listed == s.listed && s.dropped + [] == s.dropped;
  }

  lemma {:induction false} NoAccept(u: Units, bufsiz: nat, s: Server)
    ensures Enabled(u, bufsiz, s, AcceptFailed) && ServerStep(u, bufsiz, s, AcceptFailed) == s
  {
  }

  /** ...and after the k-th one is over. */
  lemma {:induction false} GoneStep(u: Units, bufsiz: nat, s: Server, k: nat)
    requires k < |s.listed|
    ensures Enabled(u, bufsiz, s, ClientReadable(k, true))
    ensures ServerStep(u, bufsiz, s, ClientReadable(k, true)) ==
            Server(s.history, s.stdout, s.listed[..k] + s.listed[k + 1..], s.dropped + [s.listed[k]],
                   s.accepts, s.waiting, s.watching, s.running, s.oom)
    ensures Enabled(u, bufsiz, s, ClientReadable(k, false)) && ServerStep(u, bufsiz, s, ClientReadable(k, false)) == s
  {
  }

  /** A listed connection has been sent exactly its stream so far; nothing is missing from it unless
      memory ran out. */
  ghost predicate ListedInv(u: Units, s: Server, c: Conn) {
    && c.sent == Ideal(u, c)
    && c.accepted + c.live <= s.history
    && (!s.oom ==> c.accepted + c.live == s.history)
    && c.serial < s.accepts
  }

  /** A connection that is over got a prefix of its stream. */
  ghost predicate DroppedInv(u: Units, s: Server, c: Conn) {
    && c.sent <= Ideal(u, c)
    && c.accepted + c.live <= s.history
    && c.serial < s.accepts
  }

  /** What every callback keeps; wait says whether the server was told to wait for a client. */
  ghost predicate ServerInv(u: Units, wait: bool, s: Server) {
    && (forall c | c in s.listed :: ListedInv(u, s, c))
    && (forall c | c in s.dropped :: DroppedInv(u, s, c))
    && WaitInv(wait, s)
    && (s.running ==> s.stdout == s.history && !s.oom)
    && s.stdout <= s.history
  }

  /** Stdin is watched exactly when the waiting is over, and nothing is read before; so the first client is
      accepted with an empty history. */
  ghost predicate WaitInv(wait: bool, s: Server) {
    && s.watching == !s.waiting
    && (s.waiting <==> wait && s.accepts == 0)
    && (s.waiting ==> s.history == [])
    && (wait ==> forall c | c in s.listed + s.dropped && c.serial == 0 :: c.accepted == [])
  }

  lemma {:induction false} HandedKeepsInv(u: Units, s: Server, c: Conn, data: seq<Byte>, result: int, s': Server)
    requires ListedInv(u, s, c) && !s.oom && -1 <= result <= |data|
    requires s'.history == s.history + data && !s'.oom && s'.accepts == s.accepts
    ensures result == |data| ==> ListedInv(u, s', Handed(c, data, result))
    ensures DroppedInv(u, s', Handed(c, data, result))
  {
    hide Greeting, Tail;
    var g, c' := Greeting(Tail(u, c.accepted)), Handed(c, data, result);
    ConcatAssociative(c.accepted, c.live, data);
    ConcatAssociative(g, c.live, data);
    assert c'.sent == g + c.live + data[..Taken(result)];
    assert g + c.live + data[..Taken(result)] <= g + c.live + data;
    if result == |data| {
      assert data[..Taken(result)] == data;
    }
  }

  lemma {:induction false} FanOutKeepsInv(u: Units, s: Server, conns: seq<Conn>, data: seq<Byte>, results: seq<int>,
                                          s': Server)
    requires forall c | c in conns :: ListedInv(u, s, c)
    requires !s.oom && ResultsAllowed(results, |conns|, |data|)
    requires s'.history == s.history + data && !s'.oom && s'.accepts == s.accepts
    ensures forall c | c in Kept(conns, data, results) :: ListedInv(u, s', c)
    ensures forall c | c in Lost(conns, data, results) :: DroppedInv(u, s', c)
    decreases |conns|
  {
    hide ListedInv, DroppedInv;
    if conns != [] {
      var k := |conns| - 1;
      FanOutKeepsInv(u, s, conns[..k], data, results[..k], s');
      assert conns[k] in conns;
      HandedKeepsInv(u, s, conns[k], data, results[k], s');
    }
  }

  lemma {:induction false} FanOutKeepsAccepted(conns: seq<Conn>, data: seq<Byte>, results: seq<int>)
    requires ResultsAllowed(results, |conns|, |data|)
    ensures forall c | c in Kept(conns, data, results) + Lost(conns, data, results) ::
              exists d :: d in conns && d.serial == c.serial && d.accepted == c.accepted && d.sent <= c.sent
    decreases |conns|
  {
    if conns != [] {
      var k := |conns| - 1;
      FanOutKeepsAccepted(conns[..k], data, results[..k]);
      assert conns[k] in conns;
    }
  }

  /** More history does no harm to a connection that is over. */
  lemma {:induction false} DroppedStays(u: Units, s: Server, c: Conn, s': Server)
    requires DroppedInv(u, s, c) && s.history <= s'.history && s.accepts <= s'.accepts
    ensures DroppedInv(u, s', c)
  {
  }

  lemma {:induction false} GoneKeepsOthers(u: Units, s: Server, s': Server)
    requires s'.history == s.history && s'.accepts == s.accepts && s'.oom == s.oom
    ensures forall x :: ListedInv(u, s, x) ==> ListedInv(u, s', x)
    ensures forall x :: DroppedInv(u, s, x) ==> DroppedInv(u, s', x)
  {
  }

  lemma {:induction false} AcceptedInv(u: Units, s: Server, delivered: nat, s': Server)
    requires delivered <= |Greeting(Tail(u, s.history))|
    requires s'.history == s.history && s'.accepts == s.accepts + 1
    ensures var c := Conn(s.accepts, s.history, [], Greeting(Tail(u, s.history))[..delivered]);
            && DroppedInv(u, s', c)
            && (delivered == |Greeting(Tail(u, s.history))| ==> ListedInv(u, s', c))
  {
    hide Greeting, Tail;
    assert s.history + [] == s.history;
    assert Greeting(Tail(u, s.history)) + [] == Greeting(Tail(u, s.history));
  }

  lemma {:induction false} ListedIsDropped(u: Units, s: Server, c: Conn)
    requires ListedInv(u, s, c)
    ensures DroppedInv(u, s, c)
  {
  }

  lemma {:induction false} InitialInv(u: Units, wait: bool)
    ensures ServerInv(u, wait, InitialServer(wait)) && NoneLost(InitialServer(wait))
  {
  }

  lemma {:induction false} DataKeepsInv(u: Units, bufsiz: nat, wait: bool, s: Server, e: ServerEvent)
    requires ServerInv(u, wait, s) && e.StdinData? && Enabled(u, bufsiz, s, e)
    ensures ServerInv(u, wait, ServerStep(u, bufsiz, s, e))
  {
    hide ListedInv, DroppedInv;
    var s' := ServerStep(u, bufsiz, s, e);
    FanOutKeepsInv(u, s, s.listed, e.chunk, e.results, s');
    FanOutKeepsAccepted(s.listed, e.chunk, e.results);
    forall c | c in s.dropped
      ensures DroppedInv(u, s', c)
    {
      DroppedStays(u, s, c, s');
    }
    assert e.stdoutTaken == |e.chunk| ==> e.chunk[..e.stdoutTaken] == e.chunk;
  }

  lemma {:induction false} OomKeepsInv(u: Units, bufsiz: nat, wait: bool, s: Server, e: ServerEvent)
    requires ServerInv(u, wait, s) && e.StdinDataOom? && Enabled(u, bufsiz, s, e)
    ensures ServerInv(u, wait, ServerStep(u, bufsiz, s, e))
  {
    hide Ideal;
  }

  lemma {:induction false} AcceptKeepsInv(u: Units, bufsiz: nat, wait: bool, s: Server, e: ServerEvent)
    requires ServerInv(u, wait, s) && e.Accepted? && Enabled(u, bufsiz, s, e)
    ensures ServerInv(u, wait, ServerStep(u, bufsiz, s, e))
  {
    hide Ideal, Greeting, Tail;
    var s' := ServerStep(u, bufsiz, s, e);
    AcceptedInv(u, s, e.delivered, s');
  }

  lemma {:induction false} GoneKeepsInv(u: Units, bufsiz: nat, wait: bool, s: Server, e: ServerEvent)
    requires ServerInv(u, wait, s) && e.ClientReadable? && Enabled(u, bufsiz, s, e)
    ensures ServerInv(u, wait, ServerStep(u, bufsiz, s, e))
  {
    hide Ideal;
    hide ListedInv, DroppedInv;
    if e.ends {
      var c, s' := s.listed[e.index], ServerStep(u, bufsiz, s, e);
      assert c in s.listed && c in s'.dropped;
      ListedIsDropped(u, s, c);
      GoneKeepsOthers(u, s, s');
      assert forall x | x in s'.listed + s'.dropped :: x in s.listed || x in s.dropped;
      assert forall x | x in s'.listed :: x in s.listed;
      assert forall x | x in s'.dropped :: x == c || x in s.dropped;
    }
  }

  /** Every callback of the server keeps the invariant. */
  lemma {:induction false} StepKeepsInv(u: Units, bufsiz: nat, wait: bool, s: Server, e: ServerEvent)
    requires ServerInv(u, wait, s) && Enabled(u, bufsiz, s, e)
    ensures ServerInv(u, wait, ServerStep(u, bufsiz, s, e))
  {
    match e
    case StdinData(_, _, _) => DataKeepsInv(u, bufsiz, wait, s, e);
    case StdinDataOom(_) => OomKeepsInv(u, bufsiz, wait, s, e);
    case Accepted(_, _) => AcceptKeepsInv(u, bufsiz, wait, s, e);
    case ClientReadable(_, _) => GoneKeepsInv(u, bufsiz, wait, s, e);
    case StdinEnd =>
    case StdinAgain =>
    case AcceptFailed =>
  }

  /** How often number n occurs among some connections. */
  ghost function Occurs(conns: seq<Conn>, n: nat): nat {
    if conns == [] then 0
    else Occurs(conns[..|conns| - 1], n) + (if conns[|conns| - 1].serial == n then 1 else 0)
  }

  /** Every connection that was ever accepted is listed or over, exactly once. */
  ghost predicate NoneLost(s: Server) {
    forall n: nat :: Occurs(s.listed, n) + Occurs(s.dropped, n) == if n < s.accepts then 1 else 0
  }

  lemma {:induction false} OccursSnoc(conns: seq<Conn>, c: Conn, n: nat)
    ensures Occurs(conns + [c], n) == Occurs(conns, n) + (if c.serial == n then 1 else 0)
  {
    assert (conns + [c])[..|conns|] == conns;
  }

  lemma {:induction false} OccursConcat(a: seq<Conn>, b: seq<Conn>, n: nat)
    ensures Occurs(a + b, n) == Occurs(a, n) + Occurs(b, n)
    decreases |b|
  {
    if b == [] {
      assert a + b == a;
    } else {
      var k := |b| - 1;
      OccursConcat(a, b[..k], n);
      OccursSnoc(a + b[..k], b[k], n);
      assert a + b == (a + b[..k]) + [b[k]];
    }
  }

  lemma {:induction false} OccursCons(c: Conn, conns: seq<Conn>, n: nat)
    ensures Occurs([c] + conns, n) == Occurs(conns, n) + (if c.serial == n then 1 else 0)
  {
    OccursConcat([c], conns, n);
    OccursSnoc([], c, n);
    assert [] + [c] == [c];
  }

  /** What becomes of the last connection. */
  lemma {:induction false} FanOutLast(conns: seq<Conn>, data: seq<Byte>, results: seq<int>)
    requires ResultsAllowed(results, |conns|, |data|) && conns != []
    ensures var k := |conns| - 1;
            var c, stays := Handed(conns[k], data, results[k]), results[k] == |data|;
            && Kept(conns, data, results) == Kept(conns[..k], data, results[..k]) + (if stays then [c] else [])
            && Lost(conns, data, results) == Lost(conns[..k], data, results[..k]) + (if stays then [] else [c])
            && c.serial == conns[k].serial
  {
  }

  lemma {:induction false} FanOutNone(data: seq<Byte>, results: seq<int>, n: nat)
    requires ResultsAllowed(results, 0, |data|)
    ensures Kept([], data, results) == Lost([], data, results) == [] && Occurs([], n) == 0
  {
  }

  lemma {:induction false} FanOutLosesNone(conns: seq<Conn>, data: seq<Byte>, results: seq<int>, n: nat)
    requires ResultsAllowed(results, |conns|, |data|)
    ensures Occurs(Kept(conns, data, results), n) + Occurs(Lost(conns, data, results), n) == Occurs(conns, n)
    decreases |conns|
  {
    hide Occurs, Kept, Lost, Handed;
    if conns == [] {
      FanOutNone(data, results, n);
    } else {
      var k := |conns| - 1;
      var c := Handed(conns[k], data, results[k]);
      var kept, lost := Kept(conns[..k], data, results[..k]), Lost(conns[..k], data, results[..k]);
      FanOutLosesNone(conns[..k], data, results[..k], n);
      FanOutLast(conns, data, results);
      OccursSnoc(conns[..k], conns[k], n);
      assert conns == conns[..k] + [conns[k]];
      if results[k] == |data| {
        OccursSnoc(kept, c, n);
        assert lost + [] == lost;
      } else {
        OccursSnoc(lost, c, n);
        assert kept + [] == kept;
      }
    }
  }

  lemma {:induction false} OccursWithout(conns: seq<Conn>, i: nat, n: nat)
    requires i < |conns|
    ensures Occurs(conns, n) == Occurs(conns[..i] + conns[i + 1..], n) + (if conns[i].serial == n then 1 else 0)
  {
    hide Occurs;
    OccursConcat(conns[..i], [conns[i]] + conns[i + 1..], n);
    OccursCons(conns[i], conns[i + 1..], n);
    OccursConcat(conns[..i], conns[i + 1..], n);
    assert conns[..i] + ([conns[i]] + conns[i + 1..]) == conns;
  }

  lemma {:induction false} StepLosesNone(u: Units, bufsiz: nat, s: Server, e: ServerEvent)
    requires NoneLost(s) && Enabled(u, bufsiz, s, e)
    ensures NoneLost(ServerStep(u, bufsiz, s, e))
  {
    hide Occurs, Tail, Greeting;
    var s' := ServerStep(u, bufsiz, s, e);
    forall n: nat
      ensures Occurs(s'.listed, n) + Occurs(s'.dropped, n) == if n < s'.accepts then 1 else 0
    {
      match e
      case StdinData(chunk, _, results) =>
        FanOutLosesNone(s.listed, chunk, results, n);
        OccursConcat(s.dropped, Lost(s.listed, chunk, results), n);
      case Accepted(ok, delivered) =>
        var c := Conn(s.accepts, s.history, [], Greeting(Tail(u, s.history))[..delivered]);
        OccursCons(c, s.listed, n);
        OccursSnoc(s.dropped, c, n);
      case ClientReadable(i, ends) =>
        OccursWithout(s.listed, i, n);
        OccursSnoc(s.dropped, s.listed[i], n);
      case _ =>
    }
  }

  lemma {:induction false} MemberOccurs(conns: seq<Conn>, c: Conn)
    requires c in conns
    ensures Occurs(conns, c.serial) >= 1
    decreases |conns|
  {
    var k := |conns| - 1;
    assert conns == conns[..k] + [conns[k]];
    if conns[k] != c {
      MemberOccurs(conns[..k], c);
    }
  }

  lemma {:induction false} TwoOccur(conns: seq<Conn>, c: Conn, d: Conn)
    requires c in conns && d in conns && c != d && c.serial == d.serial
    ensures Occurs(conns, c.serial) >= 2
    decreases |conns|
  {
    var k := |conns| - 1;
    assert conns == conns[..k] + [conns[k]];
    if conns[k] == c {
      MemberOccurs(conns[..k], d);
    } else if conns[k] == d {
      MemberOccurs(conns[..k], c);
    } else {
      TwoOccur(conns[..k], c, d);
    }
  }

  /** A number names one connection. */
  lemma {:induction false} NumberIsUnique(s: Server, c: Conn, d: Conn)
    requires NoneLost(s) && c in s.listed + s.dropped && d in s.listed + s.dropped && c.serial == d.serial
    ensures c == d
  {
    OccursConcat(s.listed, s.dropped, c.serial);
    if c != d {
      TwoOccur(s.listed + s.dropped, c, d);
    }
  }

  /** From the start, the callbacks es lead through the states ss. */
  ghost predicate IsRun(u: Units, bufsiz: nat, wait: bool, ss: seq<Server>, es: seq<ServerEvent>) {
    && |ss| == |es| + 1 && ss[0] == InitialServer(wait)
    && (forall i {:trigger es[i]} | 0 <= i < |es| ::
          Enabled(u, bufsiz, ss[i], es[i]) && ss[i + 1] == ServerStep(u, bufsiz, ss[i], es[i]))
  }

  ghost predicate Reachable(u: Units, bufsiz: nat, wait: bool, s: Server) {
    exists ss, es :: IsRun(u, bufsiz, wait, ss, es) && s == ss[|es|]
  }

  lemma {:induction false} RunGoesOn(u: Units, bufsiz: nat, wait: bool, ss: seq<Server>, es: seq<ServerEvent>,
                                     e: ServerEvent)
    requires IsRun(u, bufsiz, wait, ss, es) && Enabled(u, bufsiz, ss[|es|], e)
    ensures IsRun(u, bufsiz, wait, ss + [ServerStep(u, bufsiz, ss[|es|], e)], es + [e])
  {
    hide Enabled, ServerStep;
  }

  lemma {:induction false} RunReaches(u: Units, bufsiz: nat, wait: bool, ss: seq<Server>, es: seq<ServerEvent>)
    requires IsRun(u, bufsiz, wait, ss, es)
    ensures Reachable(u, bufsiz, wait, ss[|es|])
  {
    hide IsRun;
  }

  lemma {:induction false} RunKeepsInv(u: Units, bufsiz: nat, wait: bool, ss: seq<Server>, es: seq<ServerEvent>, k: nat)
    requires IsRun(u, bufsiz, wait, ss, es) && k <= |es|
    ensures ServerInv(u, wait, ss[k]) && NoneLost(ss[k])
  {
    hide ServerInv, NoneLost, Enabled, ServerStep;
    if k == 0 {
      InitialInv(u, wait);
    } else {
      RunKeepsInv(u, bufsiz, wait, ss, es, k - 1);
      StepKeepsInv(u, bufsiz, wait, ss[k - 1], es[k - 1]);
      StepLosesNone(u, bufsiz, ss[k - 1], es[k - 1]);
    }
  }

  lemma {:induction false} ReachableInv(u: Units, bufsiz: nat, wait: bool, s: Server)
    requires Reachable(u, bufsiz, wait, s)
    ensures ServerInv(u, wait, s) && NoneLost(s)
  {
    hide ServerInv, NoneLost;
    var ss, es :| IsRun(u, bufsiz, wait, ss, es) && s == ss[|es|];
    RunKeepsInv(u, bufsiz, wait, ss, es, |es|);
  }

  /** In every reachable state, each listed client has been sent exactly its length line, its tail and
      everything since, each dropped client a prefix of that, and nobody is missing. */
  lemma {:induction false} StreamsInEveryRun(u: Units, bufsiz: nat, wait: bool, s: Server)
    requires Reachable(u, bufsiz, wait, s)
    ensures forall c | c in s.listed ::
              c.sent == Decimal(|Tail(u, c.accepted)|) + [NEWLINE] + Tail(u, c.accepted) + c.live
    ensures forall c | c in s.dropped ::
              c.sent <= Decimal(|Tail(u, c.accepted)|) + [NEWLINE] + Tail(u, c.accepted) + c.live
    ensures !s.oom ==> forall c | c in s.listed :: c.accepted + c.live == s.history
    ensures s.running ==> s.stdout == s.history
    ensures forall n: nat :: Occurs(s.listed, n) + Occurs(s.dropped, n) == if n < s.accepts then 1 else 0
  {
    hide Reachable, Tail, Decimal, Occurs;
    ReachableInv(u, bufsiz, wait, s);
  }

  lemma {:induction false} GreetingOfNothing(u: Units)
    ensures Greeting(Tail(u, [])) == [ZERO, NEWLINE]
  {
    hide Tail;
    TailOfNothing(u);
    assert Decimal(0) == [ZERO];
  }

  /** A server that waits for a client loses nothing: it reads no input before the first client is accepted,
      and that client, while listed, has been sent "0", a newline and the whole input. */
  lemma {:induction false} WaitLosesNothing(u: Units, bufsiz: nat, s: Server)
    requires Reachable(u, bufsiz, true, s)
    ensures s.watching <==> s.accepts > 0
    ensures s.accepts == 0 ==> s.history == []
    ensures !s.oom ==> forall c | c in s.listed && c.serial == 0 :: c.sent == [ZERO, NEWLINE] + s.history
  {
    hide Reachable, Tail, Greeting;
    ReachableInv(u, bufsiz, true, s);
    forall c | c in s.listed && c.serial == 0 && !s.oom
      ensures c.sent == [ZERO, NEWLINE] + s.history
    {
      assert c in s.listed + s.dropped;
      assert c.live == s.history;
      GreetingOfNothing(u);
    }
  }

  // ---- what keeps the server and its clients going ----

  /** What a callback reads from stdin. */
  function InputOf(e: ServerEvent): seq<Byte> {
    if e.StdinData? then e.chunk else if e.StdinDataOom? then e.lost else []
  }

  function AllInput(es: seq<ServerEvent>): seq<Byte> {
    if es == [] then [] else AllInput(es[..|es| - 1]) + InputOf(es[|es| - 1])
  }

  /** What ends the server's loop: the end of stdin or an error on it, no memory, or a short write to stdout. */
  predicate Stops(e: ServerEvent) {
    e.StdinEnd? || e.StdinDataOom? || (e.StdinData? && e.stdoutTaken < |e.chunk|)
  }

  lemma {:induction false} RunTakesAllInput(u: Units, bufsiz: nat, wait: bool, ss: seq<Server>, es: seq<ServerEvent>,
                                            k: nat)
    requires IsRun(u, bufsiz, wait, ss, es) && k <= |es|
    ensures ss[k].history == AllInput(es[..k])
    ensures ss[k].running <==> forall i | 0 <= i < k :: !Stops(es[i])
    ensures ss[k].oom <==> exists i :: 0 <= i < k && es[i].StdinDataOom?
  {
    if k > 0 {
      RunTakesAllInput(u, bufsiz, wait, ss, es, k - 1);
      assert es[..k][..k - 1] == es[..k - 1];
      var s, e := ss[k - 1], es[k - 1];
      assert ss[k - 1 + 1] == ServerStep(u, bufsiz, s, e);
      OneStep(u, bufsiz, s, e);
    }
  }

  lemma {:induction false} OneStep(u: Units, bufsiz: nat, s: Server, e: ServerEvent)
    requires Enabled(u, bufsiz, s, e)
    ensures var s' := ServerStep(u, bufsiz, s, e);
            && s'.history == s.history + InputOf(e)
            && (s'.running <==> s.running && !Stops(e))
            && (s'.oom <==> s.oom || e.StdinDataOom?)
  {
    hide Kept, Lost, Greeting, Tail;
  }

  /** Connection n is among conns. */
  ghost predicate Listed(conns: seq<Conn>, n: nat) {
    exists i :: 0 <= i < |conns| && conns[i].serial == n
  }

  ghost predicate NewestFirst(conns: seq<Conn>) {
    forall i, j | 0 <= i < j < |conns| :: conns[i].serial > conns[j].serial
  }

  lemma {:induction false} ListedSnoc(conns: seq<Conn>, c: Conn, n: nat)
    ensures Listed(conns + [c], n) <==> Listed(conns, n) || c.serial == n
  {
    var all := conns + [c];
    if Listed(conns, n) {
      var i :| 0 <= i < |conns| && conns[i].serial == n;
      assert all[i].serial == n;
    }
    assert all[|conns|] == c;
  }

  /** Kept are exactly those whose write was complete... */
  lemma {:induction false} KeptWho(conns: seq<Conn>, data: seq<Byte>, results: seq<int>, n: nat)
    requires ResultsAllowed(results, |conns|, |data|)
    ensures Listed(Kept(conns, data, results), n) <==>
            exists i :: 0 <= i < |conns| && conns[i].serial == n && results[i] == |data|
    decreases |conns|
  {
    if conns != [] {
      var k := |conns| - 1;
      KeptWho(conns[..k], data, results[..k], n);
      FanOutLast(conns, data, results);
      hide Kept, Lost, Handed, Listed;
      var kept := Kept(conns[..k], data, results[..k]);
      ListedSnoc(kept, Handed(conns[k], data, results[k]), n);
      assert kept + [] == kept;
      WhoseLast(conns, results, |data|, n);
    } else {
      assert Kept(conns, data, results) == [];
    }
  }

  /** The last one, or one before it. */
  lemma {:induction false} WhoseLast(conns: seq<Conn>, results: seq<int>, size: nat, n: nat)
    requires |conns| == |results| > 0
    ensures var k := |conns| - 1;
            (exists i :: 0 <= i < |conns| && conns[i].serial == n && results[i] == size) <==>
            (exists i :: 0 <= i < k && conns[..k][i].serial == n && results[..k][i] == size)
            || (conns[k].serial == n && results[k] == size)
  {
    var k := |conns| - 1;
    if i :| 0 <= i < |conns| && conns[i].serial == n && results[i] == size {
      assert i < k ==> conns[..k][i].serial == n && results[..k][i] == size;
    }
    if i :| 0 <= i < k && conns[..k][i].serial == n && results[..k][i] == size {
      assert conns[i].serial == n && results[i] == size;
    }
    if conns[k].serial == n && results[k] == size {
      assert exists i :: 0 <= i < |conns| && conns[i].serial == n && results[i] == size;
    }
  }

  /** ...in their old order. */
  lemma {:induction false} KeptOrder(conns: seq<Conn>, data: seq<Byte>, results: seq<int>)
    requires ResultsAllowed(results, |conns|, |data|) && NewestFirst(conns)
    ensures NewestFirst(Kept(conns, data, results))
    decreases |conns|
  {
    if conns != [] {
      var k := |conns| - 1;
      KeptOrder(conns[..k], data, results[..k]);
      FanOutLast(conns, data, results);
      hide Kept, Lost, Handed;
      var kept := Kept(conns[..k], data, results[..k]);
      forall i | 0 <= i < |kept|
        ensures kept[i].serial > conns[k].serial
      {
        KeptWho(conns[..k], data, results[..k], kept[i].serial);
        assert Listed(kept, kept[i].serial);
        var j :| 0 <= j < k && conns[..k][j].serial == kept[i].serial && results[..k][j] == |data|;
        assert conns[j].serial > conns[k].serial;
      }
    }
  }

  /** What takes the i-th client off the list: a short write to it, or anything that it sends, its end included. */
  predicate Leaves(e: ServerEvent, i: nat) {
    || (e.StdinData? && i < |e.results| && e.results[i] != |e.chunk|)
    || (e.ClientReadable? && e.index == i && e.ends)
  }

  ghost predicate InOrder(s: Server) {
    NewestFirst(s.listed) && forall c | c in s.listed :: c.serial < s.accepts
  }

  lemma {:induction false} OthersRemain(conns: seq<Conn>, k: nat, i: nat)
    requires k < |conns| && i < |conns| && NewestFirst(conns)
    ensures var rest := conns[..k] + conns[k + 1..];
            NewestFirst(rest) && (Listed(rest, conns[i].serial) <==> i != k)
  {
    var rest := conns[..k] + conns[k + 1..];
    assert forall j | 0 <= j < |rest| :: rest[j] == conns[if j < k then j else j + 1];
    if i != k {
      assert rest[if i < k then i else i - 1] == conns[i];
    }
  }

  lemma {:induction false} WhoseIs(conns: seq<Conn>, results: seq<int>, size: nat, i: nat)
    requires NewestFirst(conns) && |conns| == |results| && i < |conns|
    ensures (exists j :: 0 <= j < |conns| && conns[j].serial == conns[i].serial && results[j] == size) <==>
            results[i] == size
  {
  }

  /** Exactly those clients stay, and they stay in order. */
  lemma {:induction false} WhoStays(u: Units, bufsiz: nat, s: Server, e: ServerEvent, i: nat)
    requires Enabled(u, bufsiz, s, e) && InOrder(s) && i < |s.listed|
    ensures Listed(ServerStep(u, bufsiz, s, e).listed, s.listed[i].serial) <==> !Leaves(e, i)
  {
    hide Kept, Lost, Greeting, Tail, NewestFirst;
    var n, after := s.listed[i].serial, ServerStep(u, bufsiz, s, e).listed;
    match e {
      case StdinData(chunk, _, results) =>
        KeptWho(s.listed, chunk, results, n);
        WhoseIs(s.listed, results, |chunk|, i);
        hide Listed;
      case Accepted(ok, _) =>
        assert after[if ok then i + 1 else i] == s.listed[i];
      case ClientReadable(k, ends) =>
        OthersRemain(s.listed, k, i);
        assert !ends ==> after[i] == s.listed[i];
      case _ =>
        assert after[i] == s.listed[i];
    }
  }

  /** A new client is listed exactly when it took its whole greeting. */
  lemma {:induction false} WhoComes(u: Units, bufsiz: nat, s: Server, e: ServerEvent)
    requires Enabled(u, bufsiz, s, e) && InOrder(s)
    ensures Listed(ServerStep(u, bufsiz, s, e).listed, s.accepts) <==> e.Accepted? && e.ok
  {
    hide Kept, Lost, Greeting, Tail;
    var after := ServerStep(u, bufsiz, s, e).listed;
    match e
    case StdinData(chunk, _, results) =>
      KeptWho(s.listed, chunk, results, s.accepts);
    case Accepted(ok, _) =>
      if ok {
        assert after[0].serial == s.accepts;
      }
    case ClientReadable(k, ends) =>
      if ends {
        assert forall j | 0 <= j < |after| :: after[j] == s.listed[if j < k then j else j + 1];
      }
    case _ =>
  }

  lemma {:induction false} StepKeepsOrder(u: Units, bufsiz: nat, s: Server, e: ServerEvent)
    requires Enabled(u, bufsiz, s, e) && InOrder(s)
    ensures InOrder(ServerStep(u, bufsiz, s, e))
  {
    hide Kept, Lost, Greeting, Tail;
    var s' := ServerStep(u, bufsiz, s, e);
    match e
    case StdinData(chunk, _, results) =>
      KeptOrder(s.listed, chunk, results);
      FanOutKeepsAccepted(s.listed, chunk, results);
    case ClientReadable(k, ends) =>
      if ends {
        OthersRemain(s.listed, k, k);
        assert forall j | 0 <= j < |s'.listed| :: s'.listed[j] == s.listed[if j < k then j else j + 1];
      }
    case _ =>
  }

  /** In every reachable state the clients are listed newest first. */
  lemma {:induction false} AlwaysInOrder(u: Units, bufsiz: nat, wait: bool, ss: seq<Server>, es: seq<ServerEvent>,
                                         k: nat)
    requires IsRun(u, bufsiz, wait, ss, es) && k <= |es|
    ensures InOrder(ss[k])
  {
    hide Enabled, ServerStep;
    if k > 0 {
      AlwaysInOrder(u, bufsiz, wait, ss, es, k - 1);
      StepKeepsOrder(u, bufsiz, ss[k - 1], es[k - 1]);
      assert ss[k - 1 + 1] == ServerStep(u, bufsiz, ss[k - 1], es[k - 1]);
    }
  }
}
