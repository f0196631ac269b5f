/** The kernel's side of read and write. What it chooses is an argument, so that every result is determined by
    what was asked for and by the choice. */
module Kernel {
  import opened Arithmetic
  import opened Tails

  /** read: some of the bytes that are there, end of file, try again later, or a hard error. */
  datatype ReadResult = Data(bytes: seq<Byte>) | Eof | Again | Fail

  /** At most so many bytes more than one, the end of the file, EAGAIN and its like, or another error. */
  datatype ReadChoice = Ready(more: nat) | AtEnd | NotNow | Broken

  function BytesOf(r: ReadResult): seq<Byte> {
    if r.Data? then r.bytes else []
  }

  predicate ReadAllowed(r: ReadResult, avail: seq<Byte>, limit: int) {
    r.Data? ==> 1 <= |r.bytes| <= limit && r.bytes <= avail
  }

  /** read, asked for limit bytes when avail is there. To be asked for none gives 0, as at the end of a file. */
  function ReadOutcome(avail: seq<Byte>, limit: int, choice: ReadChoice): (r: ReadResult)
    ensures ReadAllowed(r, avail, limit)
    ensures choice.Ready? && avail != [] && limit >= 1 ==> r.Data?
  {
    match choice
    case Ready(more) =>
      if limit <= 0 then Eof
      else if avail == [] then Again
      else Data(avail[..Min(1 + more, Min(limit, |avail|))])
    case AtEnd => Eof
    case NotNow => Again
    case Broken => Fail
  }

  lemma {:induction false} ReadIsAllowed(avail: seq<Byte>, limit: int, choice: ReadChoice)
    ensures ReadAllowed(ReadOutcome(avail, limit, choice), avail, limit)
    ensures ReadOutcome(avail, limit, choice) != Data([])
  {
  }

  /** The bytes are in buf when it returns. */
  method Deliver(r: ReadResult, buf: array<Byte>) returns (res: int)
    requires |BytesOf(r)| <= buf.Length && r != Data([])
    modifies buf
    ensures res == if r.Data? then |r.bytes| else if r.Eof? then 0 else -1
    ensures buf[..|BytesOf(r)|] == BytesOf(r)
  {
    if r.Data? {
      forall i | 0 <= i < |r.bytes| {
        buf[i] := r.bytes[i];
      }
    }
    res := if r.Data? then |r.bytes| else if r.Eof? then 0 else -1;
  }

  /** write: how many of size bytes are taken, or -1. */
  function WriteOutcome(size: nat, choice: int): (n: int)
    ensures -1 <= n <= size
    ensures choice >= size ==> n == size
  {
    if choice < 0 then -1 else Min(choice, size)
  }

  function Taken(n: int): nat {
    if n < 0 then 0 else n
  }

  /** Writing some parts one after the other until a write is short, when choices says what the kernel chooses
      from the k-th write on: whether all were taken whole, and how many bytes were taken in all. */
  function WriteEach(parts: seq<seq<Byte>>, choices: nat -> int, k: nat): (bool, nat) {
    if parts == [] then (true, 0)
    else
      var n := WriteOutcome(|parts[0]|, choices(k));
      if n < |parts[0]| then (false, Taken(n))
      else
        var (ok, more) := WriteEach(parts[1..], choices, k + 1);
        (ok, n + more)
  }

  /** A kernel that takes everything. */
  lemma {:induction false} WriteEachWhole(parts: seq<seq<Byte>>, choices: nat -> int, k: nat, most: nat)
    requires forall i: nat | i >= k :: choices(i) >= most
    requires forall p | p in parts :: |p| <= most
    ensures WriteEach(parts, choices, k).0
  {
    if parts != [] {
      assert parts[0] in parts;
      WriteEachWhole(parts[1..], choices, k + 1, most);
    }
  }

  /** n bytes have been taken before. */
  function After(n: nat, r: (bool, nat)): (bool, nat) {
    (r.0, n + r.1)
  }

  lemma {:induction false} WriteEachNone(choices: nat -> int, k: nat)
    ensures WriteEach([], choices, k) == (true, 0)
  {
  }

  /** One step of it. */
  lemma {:induction false} WriteEachNext(part: seq<Byte>, parts: seq<seq<Byte>>, choices: nat -> int, k: nat)
    ensures var n := WriteOutcome(|part|, choices(k));
            WriteEach([part] + parts, choices, k) ==
            if n < |part| then (false, Taken(n)) else After(n, WriteEach(parts, choices, k + 1))
  {
    assert ([part] + parts)[1..] == parts;
  }
}
