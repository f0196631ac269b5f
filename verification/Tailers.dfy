/** The server's list of clients (src/sockets.c): a doubly linked list that clients are removed from while
    it is being traversed. */
module Tailers {
  import opened Tails
  import opened Blocks
  import opened Header
  import opened Kernel
  import opened ServerSpec
  import opened TailBuffers

  class Tailer {
    const socket: int
    /** What the kernel chooses at each write to this client, and how many writes there have been. */
    const choices: nat -> int
    var writes: nat
    var prev: Tailer?
    var next: Tailer?
    /** The connection's number, the history when it was accepted, what its writes were given since, and
        what they delivered. */
    ghost const serial: nat
    ghost const accepted: seq<Byte>
    ghost var live: seq<Byte>
    ghost var sent: seq<Byte>

    constructor (socket: int, choices: nat -> int, ghost serial: nat, ghost accepted: seq<Byte>)
      ensures this.socket == socket && this.serial == serial && this.accepted == accepted
      ensures this.choices == choices && writes == 0
      ensures prev == null && next == null && live == [] && sent == []
    {
      this.socket, this.serial, this.accepted := socket, serial, accepted;
      this.choices, writes := choices, 0;
      prev, next := null, null;
      live, sent := [], [];
    }

    ghost function View(): Conn
      reads this`live, this`sent
    {
      Conn(serial, accepted, live, sent)
    }

    /** What the next write gives. */
    function Verdict(size: nat): int
      reads this`writes
    {
      WriteOutcome(size, choices(writes))
    }

    /** tailer_write_blocking: the kernel takes a prefix of the data, or nothing. */
    method WriteBlocking(data: seq<Byte>) returns (n: int)
      modifies this`sent, this`writes
      ensures n == old(Verdict(|data|)) && writes == old(writes) + 1
      ensures sent == old(sent) + data[..Taken(n)]
    {
      n := Verdict(|data|);
      writes := writes + 1;
      sent := sent + data[..Taken(n)];
    }
  }

  /** The elements whose write was complete. */
  function Survivors<T>(ts: seq<T>, results: seq<int>, size: nat): seq<T>
    requires |results| == |ts|
  {
    if ts == [] then []
    else
      var k := |ts| - 1;
      Survivors(ts[..k], results[..k], size) + (if results[k] == size then [ts[k]] else [])
  }

  lemma {:induction false} SurvivorsNext<T>(ts: seq<T>, results: seq<int>, size: nat, i: nat, r: int)
    requires i < |ts| && |results| == i
    ensures Survivors(ts[..i + 1], results + [r], size) ==
            Survivors(ts[..i], results, size) + (if r == size then [ts[i]] else [])
  {
    assert ts[..i + 1][..i] == ts[..i];
    assert (results + [r])[..i] == results;
  }

  predicate Distinct<T(==)>(ts: seq<T>) {
    forall j, k | 0 <= j < k < |ts| :: ts[j] != ts[k]
  }

  lemma {:induction false} DistinctFrom<T>(ts: seq<T>, i: nat)
    requires Distinct(ts) && i < |ts|
    ensures forall j | 0 <= j < |ts| && j != i :: ts[j] != ts[i]
  {
  }

  /** Survivors are among the elements. */
  lemma {:induction false} SurvivorsAmong<T>(ts: seq<T>, results: seq<int>, size: nat)
    requires |results| == |ts|
    ensures forall t | t in Survivors(ts, results, size) :: t in ts
  {
    if ts != [] {
      SurvivorsAmong(ts[..|ts| - 1], results[..|ts| - 1], size);
    }
  }

  lemma {:induction false} LeftAreOld<T>(all: seq<T>, results: seq<int>, size: nat, i: nat)
    requires i == |results| <= |all|
    ensures var left := Survivors(all[..i], results, size) + all[i..];
            && (forall t | t in left :: t in all)
            && (forall j | 0 <= j < |left| :: left[j] in all)
  {
    SurvivorsAmong(all[..i], results, size);
    var left := Survivors(all[..i], results, size) + all[i..];
    forall j | 0 <= j < |left|
      ensures left[j] in all
    {
      assert left[j] in left;
    }
  }

  ghost function ViewsOf(ts: seq<Tailer>): (v: seq<Conn>)
    reads ts
    ensures |v| == |ts|
  {
    seq(|ts|, i requires 0 <= i < |ts| reads ts => ts[i].View())
  }

  lemma {:induction false} ViewOf(ts: seq<Tailer>, i: nat)
    requires i < |ts|
    ensures ViewsOf(ts)[i] == ts[i].View()
  {
  }

  /** What the next write to each client gives. */
  ghost function VerdictsOf(ts: seq<Tailer>, size: nat): (v: seq<int>)
    reads ts
    ensures |v| == |ts| && forall i | 0 <= i < |v| :: -1 <= v[i] <= size
  {
    seq(|ts|, i requires 0 <= i < |ts| reads ts => ts[i].Verdict(size))
  }

  /** The results say how the writes to the first clients went, whose connections were before and are now; the
      others are as before. */
  ghost predicate WrittenIn(now: seq<Conn>, before: seq<Conn>, data: seq<Byte>, results: seq<int>) {
    && |results| <= |now| == |before|
    && (forall j | 0 <= j < |results| :: -1 <= results[j] <= |data| && now[j] == Handed(before[j], data, results[j]))
    && now[|results|..] == before[|results|..]
  }

  lemma {:induction false} WrittenNext(now: seq<Conn>, before: seq<Conn>, data: seq<Byte>, results: seq<int>, n: int)
    requires WrittenIn(now, before, data, results) && |results| < |now| && -1 <= n <= |data|
    ensures WrittenIn(now[|results| := Handed(now[|results|], data, n)], before, data, results + [n])
  {
    hide Handed;
    var i := |results|;
    assert now[i] == now[i..][0] == before[i..][0] == before[i];
    var after := now[i := Handed(now[i], data, n)];
    assert after[i + 1..] == now[i..][1..] == before[i..][1..] == before[i + 1..];
  }

  /** The results are the verdicts on the first clients; those on the others are still to come. */
  ghost predicate JudgedIn(now: seq<int>, verdicts: seq<int>, results: seq<int>) {
    && |results| <= |now| == |verdicts| && results == verdicts[..|results|]
    && now[|results|..] == verdicts[|results|..]
  }

  lemma {:induction false} JudgedNext(now: seq<int>, verdicts: seq<int>, results: seq<int>, after: seq<int>)
    requires JudgedIn(now, verdicts, results) && |results| < |now| == |after|
    requires after[|results| + 1..] == now[|results| + 1..]
    ensures JudgedIn(after, verdicts, results + [now[|results|]])
  {
    var i := |results|;
    assert now[i] == now[i..][0] == verdicts[i..][0] == verdicts[i];
    assert now[i + 1..] == now[i..][1..] == verdicts[i..][1..] == verdicts[i + 1..];
  }

  /** The survivors of a fan-out are, as connections, those kept by the specification. */
  lemma {:induction false} KeptViews(ts: seq<Tailer>, before: seq<Conn>, data: seq<Byte>, results: seq<int>)
    requires |ts| == |before| == |results|
    requires forall i | 0 <= i < |ts| ::
               -1 <= results[i] <= |data| && ts[i].View() == Handed(before[i], data, results[i])
    ensures ViewsOf(Survivors(ts, results, |data|)) == Kept(before, data, results)
    decreases |ts|
  {
    hide Handed;
    if ts != [] {
      var k := |ts| - 1;
      KeptViews(ts[..k], before[..k], data, results[..k]);
      var more := if results[k] == |data| then [ts[k]] else [];
      assert ViewsOf(Survivors(ts[..k], results[..k], |data|) + more)
          == ViewsOf(Survivors(ts[..k], results[..k], |data|)) + ViewsOf(more);
    }
  }

  /** The elements whose write was not. */
  function Failures<T>(ts: seq<T>, results: seq<int>, size: nat): seq<T>
    requires |results| == |ts|
  {
    if ts == [] then []
    else
      var k := |ts| - 1;
      Failures(ts[..k], results[..k], size) + (if results[k] == size then [] else [ts[k]])
  }

  lemma {:induction false} FailuresNext<T>(ts: seq<T>, results: seq<int>, size: nat, i: nat, r: int)
    requires i < |ts| && |results| == i
    ensures Failures(ts[..i + 1], results + [r], size) ==
            Failures(ts[..i], results, size) + (if r == size then [] else [ts[i]])
  {
    assert ts[..i + 1][..i] == ts[..i];
    assert (results + [r])[..i] == results;
  }

  /** The others are, as connections, those lost by the specification. */
  lemma {:induction false} LostViews(ts: seq<Tailer>, before: seq<Conn>, data: seq<Byte>, results: seq<int>)
    requires |ts| == |before| == |results|
    requires forall i | 0 <= i < |ts| ::
               -1 <= results[i] <= |data| && ts[i].View() == Handed(before[i], data, results[i])
    ensures ViewsOf(Failures(ts, results, |data|)) == Lost(before, data, results)
    decreases |ts|
  {
    hide Handed;
    if ts != [] {
      var k := |ts| - 1;
      LostViews(ts[..k], before[..k], data, results[..k]);
      var more := if results[k] == |data| then [] else [ts[k]];
      assert ViewsOf(Failures(ts[..k], results[..k], |data|) + more)
          == ViewsOf(Failures(ts[..k], results[..k], |data|)) + ViewsOf(more);
    }
  }

  lemma {:induction false} NoSurvivors<T>(ts: seq<T>, size: nat)
    ensures Survivors(ts[..0], [], size) == []
  {
  }

  lemma {:induction false} NoFailures<T>(ts: seq<T>, size: nat)
    ensures Failures(ts[..0], [], size) == []
  {
  }

  /** What a new client is to be sent, part by part. */
  ghost function GreetingParts(buffer: TailBuffer): seq<seq<Byte>>
    reads buffer
  {
    [Decimal(|Tail(buffer.TheUnits(), buffer.history)|) + [NEWLINE]] + buffer.TailParts()
  }

  /** The list after a visit to the client behind the kept ones. */
  lemma {:induction false} Visited<T>(kept: seq<T>, rest: seq<T>, after: seq<T>, stays: bool)
    requires rest != []
    requires after == if stays then kept + rest else (kept + rest)[..|kept|] + (kept + rest)[|kept| + 1..]
    ensures after == kept + (if stays then [rest[0]] else []) + rest[1..]
    ensures forall x | x in after :: x in kept + rest
  {
  }

  class TailerList {
    var firstTailer: Tailer?
    ghost var tailers: seq<Tailer>

    ghost predicate Valid()
      reads this, tailers
    {
      && firstTailer == (if tailers == [] then null else tailers[0])
      && (forall i {:trigger tailers[i].prev} | 0 <= i < |tailers| ::
            tailers[i].prev == if i == 0 then null else tailers[i - 1])
      && (forall i {:trigger tailers[i].next} | 0 <= i < |tailers| ::
            tailers[i].next == if i == |tailers| - 1 then null else tailers[i + 1])
      && (forall i, j | 0 <= i < j < |tailers| :: tailers[i] != tailers[j])
    }

    ghost function Views(): (v: seq<Conn>)
      reads this, tailers
      ensures |v| == |tailers|
    {
      ViewsOf(tailers)
    }

    lemma {:induction false} ViewAt(k: nat)
      requires k < |tailers|
      ensures Views()[k] == tailers[k].View()
    {
    }

    constructor ()
      ensures Valid() && tailers == []
    {
      firstTailer := null;
      tailers := [];
    }

    /** tailer_init, when memory suffices: the new client becomes the first one. */
    method Init(socket: int, choices: nat -> int, ghost serial: nat, ghost accepted: seq<Byte>) returns (t: Tailer)
      requires Valid()
      modifies this, tailers`prev
      ensures Valid() && fresh(t) && tailers == [t] + old(tailers)
      ensures t.View() == Conn(serial, accepted, [], []) && t.choices == choices && t.writes == 0
      ensures Views() == [Conn(serial, accepted, [], [])] + old(Views())
    {
      t := new Tailer(socket, choices, serial, accepted);
      t.prev := null;
      t.next := firstTailer;
      if firstTailer != null {
        firstTailer.prev := t;
      }
      firstTailer := t;
      tailers := [t] + tailers;
    }

    method Unlink(t: Tailer, ghost k: nat)
      requires Valid() && k < |tailers| && tailers[k] == t
      modifies this, tailers`prev, tailers`next
      ensures Valid() && tailers == old(tailers[..k] + tailers[k + 1..])
    {
      if t.prev != null {
        t.prev.next := t.next;
      } else {
        firstTailer := t.next;
      }
      if t.next != null {
        t.next.prev := t.prev;
      }
      tailers := tailers[..k] + tailers[k + 1..];
    }

    /** tailer_final on the k-th client. */
    method Final(t: Tailer, ghost k: nat)
      requires Valid() && k < |tailers| && tailers[k] == t
      modifies this, tailers`prev, tailers`next
      ensures Valid() && tailers == old(tailers[..k] + tailers[k + 1..])
      ensures Views() == old(Views()[..k] + Views()[k + 1..])
    {
      hide Valid;
      ghost var all, views := tailers, Views();
      Unlink(t, k);
      assert forall i | 0 <= i < |all| :: all[i].View() == views[i];
    }

    /** A client that libev may report on. */
    method Any() returns (t: Tailer, ghost k: nat)
      requires Valid() && firstTailer != null
      ensures k < |tailers| && t == tailers[k]
    {
      t, k := firstTailer, 0;
      var steps: nat := *;
      while steps > 0 && t.next != null
        invariant k < |tailers| && t == tailers[k]
        decreases steps
      {
        t, k := t.next, k + 1;
        steps := steps - 1;
      }
    }

    /** The part of sockets_final that drops all clients. */
    method FinalAll()
      requires Valid()
      modifies this, tailers`prev, tailers`next
      ensures Valid() && tailers == [] && firstTailer == null
    {
      while firstTailer != null
        invariant Valid() && (forall i | 0 <= i < |tailers| :: tailers[i] in old(tailers))
        decreases |tailers|
      {
        Final(firstTailer, 0);
      }
    }

    /** One round of the loop in sockets_write_blocking, on the k-th client. */
    method Visit(tailer: Tailer, data: seq<Byte>, ghost k: nat) returns (sizeWritten: int, next: Tailer?)
      requires Valid() && k < |tailers| && tailers[k] == tailer
      modifies this, tailers`prev, tailers`next, tailer`sent, tailer`live, tailer`writes
      ensures Valid() && sizeWritten == old(tailer.Verdict(|data|)) && -1 <= sizeWritten <= |data|
      ensures tailers == if sizeWritten == |data| then old(tailers) else old(tailers[..k] + tailers[k + 1..])
      ensures next == if k + 1 < old(|tailers|) then old(tailers)[k + 1] else null
      ensures tailer.View() == Handed(old(tailer.View()), data, sizeWritten)
    {
      sizeWritten := tailer.WriteBlocking(data);
      tailer.live := tailer.live + data;
      next := tailer.next;
      if sizeWritten < |data| {
        Final(tailer, k);
      }
    }

    ghost function Verdicts(size: nat): (v: seq<int>)
      reads this, tailers
    {
      VerdictsOf(tailers, size)
    }

    /** The clients in front of the i-th have been visited: of those, the ones with complete writes are left. */
    ghost predicate Progress(all: seq<Tailer>, size: nat, results: seq<int>, i: nat)
      reads this
    {
      && i == |results| <= |all| && Distinct(all)
      && tailers == Survivors(all[..i], results, size) + all[i..]
    }

    /** A visit leaves the other clients' connections as they are. */
    method VisitOne(tailer: Tailer, data: seq<Byte>, ghost k: nat, ghost all: seq<Tailer>, ghost i: nat)
      returns (sizeWritten: int, next: Tailer?)
      requires Valid() && k < |tailers| && tailers[k] == tailer
      requires i < |all| && all[i] == tailer && (forall j | 0 <= j < |all| && j != i :: all[j] != tailer)
      modifies this, tailers`prev, tailers`next, tailer`sent, tailer`live, tailer`writes
      ensures Valid() && sizeWritten == old(VerdictsOf(all, |data|)[i]) && -1 <= sizeWritten <= |data|
      ensures tailers == if sizeWritten == |data| then old(tailers) else old(tailers[..k] + tailers[k + 1..])
      ensures next == if k + 1 < old(|tailers|) then old(tailers)[k + 1] else null
      ensures ViewsOf(all) == old(ViewsOf(all)[i := Handed(all[i].View(), data, VerdictsOf(all, |data|)[i])])
      ensures VerdictsOf(all, |data|)[i + 1..] == old(VerdictsOf(all, |data|)[i + 1..])
    {
      hide Valid, Handed, WriteOutcome;
      ghost var views, verdicts := ViewsOf(all), VerdictsOf(all, |data|);
      sizeWritten, next := Visit(tailer, data, k);
      assert forall j | 0 <= j < |all| && j != i :: all[j].View() == views[j];
      assert forall j | i < j < |all| :: all[j].Verdict(|data|) == verdicts[j];
    }

    method VisitNext(tailer: Tailer, data: seq<Byte>, ghost all: seq<Tailer>, ghost before: seq<Conn>,
                     ghost verdicts: seq<int>, ghost results: seq<int>, ghost i: nat)
      returns (next: Tailer?, ghost n: int)
      requires Valid() && Progress(all, |data|, results, i)
      requires WrittenIn(ViewsOf(all), before, data, results)
      requires JudgedIn(VerdictsOf(all, |data|), verdicts, results)
      requires i < |all| && tailer == all[i]
      modifies this, all
      ensures Valid() && Progress(all, |data|, results + [n], i + 1)
      ensures WrittenIn(ViewsOf(all), before, data, results + [n])
      ensures JudgedIn(VerdictsOf(all, |data|), verdicts, results + [n])
      ensures next == if i + 1 < |all| then all[i + 1] else null
    {
      hide Survivors, Handed, WriteOutcome, Distinct, Valid, ViewsOf, VerdictsOf, WrittenIn, JudgedIn;
      ghost var kept, views, now := Survivors(all[..i], results, |data|), ViewsOf(all), VerdictsOf(all, |data|);
      var sizeWritten;
      LeftAreOld(all, results, |data|, i);
      DistinctFrom(all, i);
      ViewOf(all, i);
      assert tailers[|kept|] == all[i];
      assert forall j | 0 <= j < |tailers| :: tailers[j] in all;
      sizeWritten, next := VisitOne(tailer, data, |kept|, all, i);
      n := sizeWritten;
      WrittenNext(views, before, data, results, n);
      JudgedNext(now, verdicts, results, VerdictsOf(all, |data|));
      SurvivorsNext(all, results, |data|, i, n);
      Visited(kept, all[i..], tailers, n == |data|);
    }

    lemma {:induction false} NothingVisited(data: seq<Byte>)
      requires Valid()
      ensures Progress(tailers, |data|, [], 0)
      ensures WrittenIn(Views(), Views(), data, []) && JudgedIn(Verdicts(|data|), Verdicts(|data|), [])
    {
      NoSurvivors(tailers, |data|);
      assert [] + tailers[0..] == tailers;
    }

    lemma {:induction false} AllVisited(all: seq<Tailer>, before: seq<Conn>, data: seq<Byte>, verdicts: seq<int>,
                                        results: seq<int>)
      requires Progress(all, |data|, results, |all|)
      requires WrittenIn(ViewsOf(all), before, data, results)
      requires JudgedIn(VerdictsOf(all, |data|), verdicts, results)
      ensures results == verdicts
      ensures forall i | 0 <= i < |results| :: -1 <= results[i] <= |data|
      ensures forall i | 0 <= i < |results| :: all[i].View() == Handed(before[i], data, results[i])
      ensures all[..|all|] == all
      ensures tailers == Survivors(all, results, |data|)
      ensures Views() == Kept(before, data, results)
      ensures ViewsOf(Failures(all, results, |data|)) == Lost(before, data, results)
    {
      hide Handed;
      assert all[..|all|] == all && all[|all|..] == [];
      KeptViews(all, before, data, results);
      LostViews(all, before, data, results);
    }

    /** sockets_write_blocking: every client is written to once; those that do not take everything go. */
    method WriteAll(data: seq<Byte>) returns (ghost results: seq<int>, ghost gone: seq<Tailer>)
      requires Valid()
      modifies this, tailers
      ensures Valid() && |results| == |old(tailers)| && results == old(Verdicts(|data|))
      ensures forall i | 0 <= i < |results| :: -1 <= results[i] <= |data|
      ensures forall i | 0 <= i < |results| ::
                old(tailers)[i].View() == Handed(old(Views())[i], data, results[i])
      ensures tailers == Survivors(old(tailers), results, |data|)
      ensures gone == Failures(old(tailers), results, |data|)
      ensures forall t | t in tailers :: t in old(tailers)
      ensures Views() == Kept(old(Views()), data, results)
      ensures ViewsOf(gone) == Lost(old(Views()), data, results)
    {
      hide Survivors, Failures, ViewsOf, VerdictsOf, Kept, Lost, Handed;
      ghost var all, before, verdicts, i := tailers, Views(), Verdicts(|data|), 0;
      results, gone := [], [];
      NothingVisited(data);
      NoFailures(tailers, |data|);
      var tailer := firstTailer;
      while tailer != null
        invariant Valid() && Progress(all, |data|, results, i)
        invariant WrittenIn(ViewsOf(all), before, data, results)
        invariant JudgedIn(VerdictsOf(all, |data|), verdicts, results)
        invariant tailer == if i < |all| then all[i] else null
        invariant gone == Failures(all[..i], results, |data|)
        decreases |all| - i
      {
        ghost var n;
        ghost var visited := tailer;
        tailer, n := VisitNext(tailer, data, all, before, verdicts, results, i);
        FailuresNext(all, results, |data|, i, n);
        if n != |data| {
          gone := gone + [visited];
        }
        results := results + [n];
        i := i + 1;
      }
      AllVisited(all, before, data, verdicts, results);
      LeftAreOld(all, results, |data|, i);
    }

    /** Sending to the first client changes its connection only. */
    method SendToFirst(t: Tailer, buffer: TailBuffer) returns (ok: bool)
      requires Valid() && tailers != [] && tailers[0] == t && t.sent == []
      requires buffer.Readable()
      modifies t`sent, t`writes
      ensures Valid() && buffer.Readable()
      ensures t.sent <= Greeting(Tail(buffer.TheUnits(), buffer.history))
      ensures (ok, |t.sent|) == WriteEach(GreetingParts(buffer), t.choices, old(t.writes))
      ensures ok ==> t.sent == Greeting(Tail(buffer.TheUnits(), buffer.history))
      ensures Views() == [t.View()] + old(Views())[1..]
      ensures t.View() == old(t.View()).(sent := t.sent)
    {
      hide TailBuffer.Sound, ChainObjects, Tail, Greeting, WriteEach, GreetingParts, Decimal;
      buffer.NotOwned(t);
      ghost var all, views := tailers, Views();
      ok := SendTail(t, buffer);
      assert forall i | 1 <= i < |all| :: all[i] != t && all[i].View() == views[i];
    }

    /** tailer_send_buffered_tail, for the client that was just put first: the length line, then the tail
        chunk by chunk. A client that does not take everything goes. */
    method SendBufferedTail(t: Tailer, buffer: TailBuffer) returns (ok: bool)
      requires Valid() && tailers != [] && tailers[0] == t && t.sent == []
      requires buffer.Readable()
      modifies this, t`sent, t`writes, tailers`prev, tailers`next
      ensures Valid() && buffer.Readable()
      ensures t.sent <= Greeting(Tail(buffer.TheUnits(), buffer.history))
      ensures (ok, |t.sent|) == WriteEach(GreetingParts(buffer), t.choices, old(t.writes))
      ensures ok ==> t.sent == Greeting(Tail(buffer.TheUnits(), buffer.history))
      ensures tailers == if ok then old(tailers) else old(tailers)[1..]
      ensures Views() == (if ok then [t.View()] else []) + old(Views())[1..]
      ensures t.View() == old(t.View()).(sent := t.sent)
    {
      hide TailBuffer.Sound, ChainObjects, Tail, Greeting, WriteEach, GreetingParts, Decimal, ViewsOf, Valid;
      buffer.NotOwned(this);
      OthersNotOwned(buffer);
      ok := SendToFirst(t, buffer);
      if !ok {
        Final(t, 0);
      }
    }

    /** The end of unix_sock_cb: a new client is listed and sent the tail. */
    method Admit(socket: int, choices: nat -> int, ghost serial: nat, buffer: TailBuffer)
      returns (ok: bool, ghost c: Conn)
      requires Valid() && buffer.Readable()
      modifies this, tailers`prev, tailers`next
      ensures Valid() && buffer.Readable()
      ensures var g := Greeting(Tail(buffer.TheUnits(), buffer.history));
              && |c.sent| <= |g| && (ok ==> |c.sent| == |g|)
              && c == Conn(serial, buffer.history, [], g[..|c.sent|])
      ensures (ok, |c.sent|) == WriteEach(GreetingParts(buffer), choices, 0)
      ensures Views() == (if ok then [c] else []) + old(Views())
      ensures forall t | t in tailers :: t in old(tailers) || fresh(t)
    {
      hide TailBuffer.Sound, ChainObjects, Tail, Greeting, ViewsOf;
      buffer.NotOwned(this);
      OthersNotOwned(buffer);
      var t := Init(socket, choices, serial, buffer.history);
      assert Views()[1..] == old(Views());
      ok := SendBufferedTail(t, buffer);
      c := t.View();
    }

    lemma {:induction false} OthersNotOwned(buffer: TailBuffer)
      ensures forall i | 0 <= i < |tailers| ::
                tailers[i] !in buffer.ChainRepr() && tailers[i] !in SpareObjects(buffer.append)
      ensures forall x | x in buffer.ChainRepr() :: allocated(x)
    {
      buffer.NotOwned(this);
      forall i | 0 <= i < |tailers|
        ensures tailers[i] !in buffer.ChainRepr() && tailers[i] !in SpareObjects(buffer.append)
      {
        buffer.NotOwned(tailers[i]);
      }
    }

    /** The loop of tailer_send_buffered_tail over the chunks of the tail. */
    static method SendChunks(t: Tailer, buffer: TailBuffer) returns (ok: bool, ghost taken: nat)
      requires buffer.Readable()
      modifies t`sent, t`writes
      ensures buffer.Readable() && (ok, taken) == WriteEach(buffer.TailParts(), t.choices, old(t.writes))
      ensures var tail := Tail(buffer.TheUnits(), buffer.history);
              taken <= |tail| && (ok ==> taken == |tail|) && t.sent == old(t.sent) + tail[..taken]
    {
      hide TailBuffer.Sound, TailBuffer.SpareApart, TailBuffer.SpareBlank, ChainObjects, Flat, Tail, WriteEach;
      hide PartsFrom, WriteOutcome;
      ghost var tail, c := Tail(buffer.TheUnits(), buffer.history), buffer.content;
      buffer.ServedIsTail();
      buffer.NotOwned(t);
      ghost var all := WriteEach(buffer.TailParts(), t.choices, t.writes);
      var pos: Block? := buffer.GetTailChunk();
      var offset: nat := buffer.GetTailOffset();
      var chunkSize: nat := TailBuffer.ChunkSize(pos);
      ghost var i, served := buffer.tailIndex, [];
      buffer.WalkBegins();
      assert [] + Remaining(c, i, offset) == tail;
      while chunkSize > 0
        invariant buffer.Walking(i, offset, pos, chunkSize)
        invariant t.sent == old(t.sent) + served && tail == served + Remaining(c, i, offset)
        invariant all == After(|served|, WriteEach(PartsFrom(c, i, offset), t.choices, t.writes))
        decreases |c| - i
      {
        buffer.WalkGoesOn(i, offset, pos, chunkSize);
        ghost var d := c[i][offset..];
        WriteEachNext(d, PartsFrom(c, i + 1, 0), t.choices, t.writes);
        var sizeWritten := t.WriteBlocking(pos.buffer[offset..chunkSize]);
        ServedPrefix(tail, served, d, Remaining(c, i + 1, 0), Taken(sizeWritten));
        if sizeWritten < chunkSize - offset {
          ConcatAssociative(old(t.sent), served, d[..Taken(sizeWritten)]);
          return false, |served| + Taken(sizeWritten);
        }
        ConcatAssociative(old(t.sent), served, d);
        served := served + d;
        pos := TailBuffer.AdvanceChunk(pos);
        i := i + 1;
        offset := 0;
        chunkSize := TailBuffer.ChunkSize(pos);
      }
      buffer.WalkEnds(i, offset, pos);
      WriteEachNone(t.choices, t.writes);
      assert served == tail;
      return true, |tail|;
    }

    /** The writes of tailer_send_buffered_tail. */
    static method SendTail(t: Tailer, buffer: TailBuffer) returns (ok: bool)
      requires t.sent == [] && buffer.Readable()
      modifies t`sent, t`writes
      ensures buffer.Readable()
      ensures t.sent <= Greeting(Tail(buffer.TheUnits(), buffer.history))
      ensures (ok, |t.sent|) == WriteEach(GreetingParts(buffer), t.choices, old(t.writes))
      ensures ok ==> t.sent == Greeting(Tail(buffer.TheUnits(), buffer.history))
    {
      hide TailBuffer.Sound, ChainObjects, Tail, Decimal, WriteEach, WriteOutcome, TailBuffer.TailParts;
      buffer.NotOwned(t);
      ghost var tail := Tail(buffer.TheUnits(), buffer.history);
      var s := Decimal(buffer.TailSize()) + [NEWLINE];
      WriteEachNext(s, buffer.TailParts(), t.choices, t.writes);
      var sizeWritten := t.WriteBlocking(s);
      if sizeWritten < |s| {
        return false;
      }
      ghost var taken;
      ok, taken := SendChunks(t, buffer);
    }
  }
}
