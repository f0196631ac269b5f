/** The server's event-loop callbacks (src/pipes.c and src/sockets.c) over the buffer and the list of
    clients. */
module ServerLoops {
  import opened Arithmetic
  import opened Tails
  import opened Blocks
  import opened Header
  import opened Kernel
  import opened ServerSpec
  import opened TailBuffers
  import opened Tailers

  const INVALID_SOCKET := -1

  class ServerLoop {
    const buffer: TailBuffer
    const list: TailerList
    /** What the kernel chooses at each write to stdout, and how many writes there have been. */
    const choices: nat -> int
    var writes: nat
    var waitingForClient: bool
    var watching: bool
    var running: bool
    /** Everything written to stdout, the connections that are over, how many connections were accepted,
        and whether the buffer could not be extended. */
    ghost var stdout: seq<Byte>
    ghost var dropped: seq<Conn>
    ghost var accepts: nat
    ghost var oom: bool

    ghost function View(): Server
      reads this, buffer, list, list.tailers
    {
      Server(buffer.history, stdout, list.Views(), dropped, accepts, waitingForClient, watching, running, oom)
    }

    ghost predicate Valid()
      reads this, buffer, buffer.Repr(), list, list.tailers
    {
      buffer.Readable() && list.Valid() && (running ==> buffer.Valid())
    }

    /** pipes_init */
    constructor (buffer: TailBuffer, list: TailerList, wait: bool, choices: nat -> int)
      requires buffer.Valid() && buffer.history == [] && list.Valid() && list.tailers == []
      ensures this.buffer == buffer && this.list == list && this.choices == choices
      ensures Valid() && View() == InitialServer(wait)
    {
      hide TailBuffer.Sound, TailBuffer.SpareApart, TailBuffer.SpareBlank, TailerList.Valid;
      this.buffer, this.list, this.choices, writes := buffer, list, choices, 0;
      waitingForClient, watching, running := wait, !wait, true;
      stdout, dropped, accepts, oom := [], [], 0, false;
      new;
      buffer.NotOwned(this);
    }

    /** The buffer's blocks are other objects than the rest. */
    lemma {:induction false} OthersNotOwned()
      ensures this !in buffer.Repr() && list !in buffer.Repr() && buffer in buffer.Repr()
      ensures forall i | 0 <= i < |list.tailers| :: list.tailers[i] !in buffer.Repr()
      ensures forall t | t in list.tailers :: t as object != this
      ensures forall x | x in buffer.Repr() :: allocated(x)
      ensures buffer.append != null ==> {buffer.append, buffer.append.buffer} <= buffer.Repr()
      ensures buffer.ChainRepr() <= buffer.Repr()
    {
      buffer.NotOwned(this);
      buffer.NotOwned(list);
      list.OthersNotOwned(buffer);
    }

    /** tailer_readable_cb on the k-th client: whatever it sends, or its end, ends the connection. */
    method TailerReadable(t: Tailer, ghost k: nat, avail: seq<Byte>, choice: ReadChoice) returns (ghost e: ServerEvent)
      requires Valid() && k < |list.tailers| && list.tailers[k] == t
      modifies this`dropped, list, list.tailers`prev, list.tailers`next
      ensures Valid() && buffer.Repr() == old(buffer.Repr())
      ensures forall t | t in list.tailers :: t in old(list.tailers)
      ensures e == ClientReadable(k, !ReadOutcome(avail, 1024, choice).Again?)
      ensures Enabled(buffer.TheUnits(), buffer.bufsiz, old(View()), e)
      ensures View() == ServerStep(buffer.TheUnits(), buffer.bufsiz, old(View()), e)
    {
      hide TailBuffer.Sound, TailBuffer.SpareApart, TailBuffer.SpareBlank, TailBuffer.Repr, ChainObjects;
      hide Tail, Greeting, ViewsOf, TailerList.Valid, Enabled, ServerStep, ReadOutcome;
      OthersNotOwned();
      list.ViewAt(k);
      GoneStep(buffer.TheUnits(), buffer.bufsiz, View(), k);
      var r := ReadOutcome(avail, 1024, choice);
      e := ClientReadable(k, !r.Again?);
      if !r.Again? {
        list.Final(t, k);
        dropped := dropped + [t.View()];
      }
    }

    /** pipes_on_new_client */
    method OnNewClient()
      modifies this`waitingForClient, this`watching
      ensures !waitingForClient && watching == (old(watching) || old(waitingForClient))
    {
      if waitingForClient {
        waitingForClient := false;
        watching := true;
      }
    }

    /** The accept step of unix_sock_cb: newSock is what accept returned, nameOk whether the new socket has a
        name, mallocOk whether there is memory for the new client, and choices what the kernel will choose at the
        writes to it. */
    method Accept(newSock: int, nameOk: bool, mallocOk: bool, choices: nat -> int) returns (ghost e: ServerEvent)
      requires Valid()
      modifies this, list, list.tailers
      ensures Valid() && buffer.Repr() == old(buffer.Repr())
      ensures forall t | t in list.tailers :: t in old(list.tailers) || fresh(t)
      ensures e == if newSock == INVALID_SOCKET || !nameOk || !mallocOk then AcceptFailed
                   else Greeted(old(GreetingParts(buffer)), choices)
      ensures Enabled(buffer.TheUnits(), buffer.bufsiz, old(View()), e)
      ensures View() == ServerStep(buffer.TheUnits(), buffer.bufsiz, old(View()), e)
    {
      hide TailBuffer.Sound, TailBuffer.SpareApart, TailBuffer.SpareBlank, TailBuffer.Repr, ChainObjects;
      hide Tail, Greeting, ViewsOf, TailerList.Valid, Enabled, ServerStep, WriteEach, GreetingParts;
      ghost var s := View();
      if newSock == INVALID_SOCKET || !nameOk || !mallocOk {
        NoAccept(buffer.TheUnits(), buffer.bufsiz, s);
        return AcceptFailed;
      }
      OthersNotOwned();
      ghost var c;
      var ok;
      ok, c := list.Admit(newSock, choices, accepts, buffer);
      e := Accepted(ok, |c.sent|);
      AcceptedStep(buffer.TheUnits(), buffer.bufsiz, s, ok, c);
      dropped := dropped + (if ok then [] else [c]);
      accepts := accepts + 1;
      OnNewClient();
    }

    /** The event of a new client that is sent some parts. */
    static ghost function Greeted(parts: seq<seq<Byte>>, choices: nat -> int): ServerEvent {
      Accepted(WriteEach(parts, choices, 0).0, WriteEach(parts, choices, 0).1)
    }

    /** The event of new data: what stdout and the clients take of it, unless there is no memory for it. */
    ghost function DataEvent(data: seq<Byte>, lost: bool): ServerEvent
      reads this`writes, list, list.tailers
    {
      if lost then StdinDataOom(data)
      else StdinData(data, Taken(WriteOutcome(|data|, choices(writes))), list.Verdicts(|data|))
    }

    /** The part of stdin_cb that passes new data on: to stdout first, then to every client. */
    method PassOn(data: seq<Byte>) returns (ghost taken: nat, ghost results: seq<int>)
      requires list.Valid() && buffer.Valid() && data != []
      modifies this`running, this`stdout, this`dropped, this`writes, list, list.tailers
      ensures list.Valid() && buffer.Valid() && buffer.Repr() == old(buffer.Repr())
      ensures forall t | t in list.tailers :: t in old(list.tailers)
      ensures taken == Taken(WriteOutcome(|data|, choices(old(writes)))) && results == old(list.Verdicts(|data|))
      ensures taken <= |data| && stdout == old(stdout) + data[..taken]
      ensures running == (old(running) && taken == |data|)
      ensures ResultsAllowed(results, |old(list.tailers)|, |data|)
      ensures list.Views() == Kept(old(list.Views()), data, results)
      ensures dropped == old(dropped) + Lost(old(list.Views()), data, results)
    {
      hide TailBuffer.Sound, TailBuffer.SpareApart, TailBuffer.SpareBlank, TailBuffer.Repr, ChainObjects;
      hide Tail, Greeting, ViewsOf;
      hide TailerList.Valid, Kept, Lost, Handed, Survivors, Failures;
      OthersNotOwned();
      var n := WriteOutcome(|data|, choices(writes));
      writes := writes + 1;
      taken := Taken(n);
      stdout := stdout + data[..taken];
      if n < |data| {
        running := false;
      }
      ghost var gone;
      results, gone := list.WriteAll(data);
      dropped := dropped + ViewsOf(gone);
    }

    /** The branch of stdin_cb for data: the first size bytes behind newDataStart have just been read. */
    method TakeIn(newDataStart: array<Byte>, size: nat, ghost data: seq<Byte>, mallocOk: bool)
      returns (ghost e: ServerEvent)
      requires Valid() && running && watching && 0 < size <= buffer.bufsiz
      requires newDataStart == buffer.append.buffer && newDataStart.Length == buffer.bufsiz
      requires data == newDataStart[..size]
      modifies this, buffer, buffer.Repr(), list, list.tailers
      ensures Valid()
      ensures forall o | o in buffer.Repr() :: o in old(buffer.Repr()) || fresh(o)
      ensures forall t | t in list.tailers :: t in old(list.tailers)
      ensures e == old(DataEvent(data, false)) || e == old(DataEvent(data, true))
      ensures e.StdinDataOom? <==> buffer.append == null
      ensures e.StdinDataOom? ==>
                && size + old(buffer.LastSize()) >= buffer.bufsiz
                && !(mallocOk && old(buffer.Room()))
      ensures Enabled(buffer.TheUnits(), buffer.bufsiz, old(View()), e)
      ensures View() == ServerStep(buffer.TheUnits(), buffer.bufsiz, old(View()), e)
    {
      hide TailBuffer.Sound, TailBuffer.SpareApart, TailBuffer.SpareBlank, TailBuffer.Repr, ChainObjects;
      hide Tail, Greeting, ViewsOf, Enabled, ServerStep, Kept, Lost, TailerList.Valid, TailerList.Verdicts;
      OthersNotOwned();
      ghost var s := View();
      var ok := buffer.SetAppended(size, mallocOk);
      if !ok {
        DataStep(buffer.TheUnits(), buffer.bufsiz, s, data, 0, seq(|s.listed|, _ => 0));
        OthersNotOwned();
        running, oom := false, true;
        return StdinDataOom(data);
      }
      ghost var taken, results;
      taken, results := PassOn(newDataStart[..size]);
      DataStep(buffer.TheUnits(), buffer.bufsiz, s, data, taken, results);
      e := StdinData(data, taken, results);
    }

    /** stdin_cb, when stdin holds the unread bytes avail. */
    method StdinReadable(avail: seq<Byte>, choice: ReadChoice, mallocOk: bool) returns (ghost e: ServerEvent)
      requires Valid() && running && watching
      modifies this, buffer, buffer.Repr(), list, list.tailers
      ensures Valid()
      ensures forall o | o in buffer.Repr() :: o in old(buffer.Repr()) || fresh(o)
      ensures forall t | t in list.tailers :: t in old(list.tailers)
      ensures Enabled(buffer.TheUnits(), buffer.bufsiz, old(View()), e)
      ensures View() == ServerStep(buffer.TheUnits(), buffer.bufsiz, old(View()), e)
      ensures var r := ReadOutcome(avail, buffer.bufsiz, choice);
              if r.Data? then e == old(DataEvent(r.bytes, false)) || e == old(DataEvent(r.bytes, true))
              else e == if r.Again? then StdinAgain else StdinEnd
      ensures e.StdinDataOom? <==> buffer.append == null
      ensures e.StdinDataOom? ==> !(mallocOk && old(buffer.Room()))
    {
      hide TailBuffer.Sound, TailBuffer.SpareApart, TailBuffer.SpareBlank, TailBuffer.Repr, ChainObjects;
      hide Tail, Greeting, ViewsOf;
      hide Kept, Lost, TailerList.Valid;
      ghost var before := buffer.Repr();
      OthersNotOwned();
      buffer.SpareOutsideChain();
      var newDataStart := buffer.append.buffer;
      ReadIsAllowed(avail, buffer.bufsiz, choice);
      var r := ReadOutcome(avail, buffer.bufsiz, choice);
      var res := Deliver(r, newDataStart);
      assert buffer.Repr() == before;
      if res > 0 {
        e := TakeIn(newDataStart, res, r.bytes, mallocOk);
      } else if r.Again? {
        e := StdinAgain;
      } else {
        running := false;
        e := StdinEnd;
      }
    }

    /** One callback of libev: any of those that are being watched, with any choices of the kernel. */
    method Callback() returns (ghost e: ServerEvent)
      requires Valid()
      modifies this, buffer, buffer.Repr(), list, list.tailers
      ensures Valid()
      ensures forall o | o in buffer.Repr() :: o in old(buffer.Repr()) || fresh(o)
      ensures forall t | t in list.tailers :: t in old(list.tailers) || fresh(t)
      ensures Enabled(buffer.TheUnits(), buffer.bufsiz, old(View()), e)
      ensures View() == ServerStep(buffer.TheUnits(), buffer.bufsiz, old(View()), e)
    {
      hide Enabled, ServerStep, ViewsOf, TailBuffer.Sound, TailerList.Valid, DataEvent, Greeted, ReadOutcome;
      var which: int, avail: seq<Byte>, choice: ReadChoice, ok: bool := *, *, *, *;
      if which == 0 && running && watching {
        e := StdinReadable(avail, choice, ok);
      } else if which == 1 && list.firstTailer != null {
        ghost var k;
        var t;
        t, k := list.Any();
        e := TailerReadable(t, k, avail, choice);
      } else {
        var newSock: int, nameOk: bool, choices: nat -> int := *, *, *;
        e := Accept(newSock, nameOk, ok, choices);
      }
    }

    /** ev_run, for any number of callbacks: they are steps of a run on values, one by one. */
    method Loop(wait: bool, rounds: nat) returns (ghost ss: seq<Server>, ghost es: seq<ServerEvent>)
      requires Valid() && View() == InitialServer(wait)
      modifies this, buffer, buffer.Repr(), list, list.tailers
      ensures Valid() && |es| == rounds
      ensures IsRun(buffer.TheUnits(), buffer.bufsiz, wait, ss, es) && ss[rounds] == View()
      ensures Reachable(buffer.TheUnits(), buffer.bufsiz, wait, View())
    {
      hide Valid, View, Reachable, Enabled, ServerStep, TailBuffer.Repr, ChainObjects, InitialServer;
      ss, es := [View()], [];
      var round: nat := 0;
      while round < rounds
        invariant Valid() && round == |es| <= rounds
        invariant IsRun(buffer.TheUnits(), buffer.bufsiz, wait, ss, es) && ss[|es|] == View()
        invariant forall o | o in buffer.Repr() :: o in old(buffer.Repr()) || fresh(o)
        invariant forall t | t in list.tailers :: t in old(list.tailers) || fresh(t)
        decreases rounds - round
      {
        assert forall i | 0 <= i < |list.tailers| :: list.tailers[i] in list.tailers;
        ghost var s := View();
        ghost var e := Callback();
        RunGoesOn(buffer.TheUnits(), buffer.bufsiz, wait, ss, es, e);
        ss, es := ss + [View()], es + [e];
        round := round + 1;
      }
      RunReaches(buffer.TheUnits(), buffer.bufsiz, wait, ss, es);
    }
  }
}
