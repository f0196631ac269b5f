# Verified model of tailserver and tailclient

`tailserver` copies its stdin to stdout and serves the tail of it on a UNIX socket; `tailclient` connects,
prints a tail of that tail and, when following, everything that arrives later. This project models the parts
that decide which bytes are printed, and proves that they are the right ones:

* the **tail buffer** (`TailBuffer.dfy`): the chain of fixed-size blocks in its imperative form, with its
  pointers, counters, merging, recycling and the incremental search for the beginning of the tail; the search,
  the memory bound and the effect of a line count that the program leaves unset are worked out on values in
  `TailSearch.dfy`, `Compaction.dfy` and `StrayCount.dfy`;
* the **server** (`Tailers.dfy`, `Server.dfy`): the doubly linked list of clients and the event-loop callbacks
  over it and the buffer;
* the **client** (`ClientConn.dfy`, `ClientLoop.dfy`): the parser of the length line, the two reading
  functions and the event-loop callback;
* **checked arithmetic** (`Xstrtol.dfy`, `Suffixes.dfy`, `Flagged.dfy`, `Intprops.dfy`, `Strlen.dfy`): numbers with multiplier suffixes, the
  range-overflow macros and the bound on the length of a printed integer.

The reference for the buffer is `Tails.dfy`. `Tail(LastBytes(n), h)` is the last n bytes of h.
`Tail(LastLines(n), h)` is h without everything up to and including its (L-n)-th newline, where L is the number
of newlines, and all of h when L is at most n; an unfinished last line is not counted, as in the code.

The classes follow the C functions. Every callback of the server (`Server.dfy`) and of the client
(`ClientLoop.dfy`) is proved to do to the program's state exactly what a step function on values does
(`ServerSpec.ServerStep`, `ClientSpec.ClientStep`), for some outcome of its system calls that the step's guard
allows. That outcome is fixed by the choices of the kernel, which are arguments; so any sequence of callbacks
leads to states that sequences of steps reach (`ServerLoops.ServerLoop.Loop`, `ClientLoops.ClientLoop.Loop`).
What every run of these steps keeps is then proved on values, first for each program (`ServerSpec.dfy`,
`ClientSpec.dfy`), then for both together (`EndToEnd.dfy`). The chain is

1. `TailBuffers.TailBuffer.SetAppended` keeps the chain's invariants, and they imply
   (`TailBuffers.TailBuffer.ServedIsTail`) that the chunks served are the tail of everything ever appended;
2. `ServerSpec.StreamsInEveryRun`: each listed client has been sent its length line, that tail and everything
   since;
3. `ClientSpec.StepKeepsInv`: a client recovers exactly those parts from any segmentation of the stream;
4. `Tails.TailCompose`: a tail of a tail is the shorter of the two;
5. `EndToEnd.FollowerPrintsEverything` puts these together, and `EndToEnd.FollowerCanFinish` says that a client
   does get there unless the kernel keeps it from it.

What the kernel chooses at a system call is an argument (`Kernel.dfy`): a read gives any number of the available
bytes up to its limit, end of file, a temporary or a hard error; a write takes any prefix or fails; an allocation
succeeds or fails.
BUFSIZ is a parameter of at least 1. Blocks come and go on the heap: ownership, recycling and freeing are part
of what is proved. `dafny verify dfyconfig.toml` checks the whole project.

## Model

| member | source | states |
|---|---|---|
| Tails.AfterNewlinesIsTheCut | src/buffer.c:102-112 | the place behind the k-th newline, as the skip loop finds it, is the one and only offset at which a line begins after exactly k newlines |
| Tails.LastLinesMeaning | src/buffer.c:87-114 | when there are more than n lines, the tail is exactly the suffix that follows a newline and holds n newlines |
| Tails.FewLinesMeaning | src/buffer.c:102-111 | when there are at most n lines, the tail is everything |
| Tails.LastBytesLength | src/buffer.c:129-133 | the byte tail is the suffix of min(n, length) bytes, including n = 0 |
| Tails.StartMonotone | src/buffer.c:88-136 | appending never moves the beginning of the tail backwards, in either mode, so searching on from the old block is enough |
| Tails.TailOfLargeSuffix | src/buffer.c:214-228 | a suffix that holds more than n units has the same tail as the whole, so what precedes it may be dropped |
| Tails.TailCompose | src/clientloop.c:82-88 | a client tail of a server tail is the shorter of the two tails of the whole input, for all four combinations of lines and bytes |
| Tails.TailComposeLines | src/clientloop.c:114-117 | for lines on both sides the composition is the tail of the smaller number of lines |
| Tails.TailComposeBytes | src/clientloop.c:114-117 | likewise for bytes |
| Blocks.FewBlocks | src/buffer.c:200-240 | blocks of which no two neighbours fit into one, with at most n bytes behind the first, are at most 2 * (n / BUFSIZ) + 2 |
| Blocks.PiecesAreTheRest | src/buffer.c:246-287 | the pieces a walk over the chunks serves are together everything from the starting offset on |
| TailSearch.NextNewline | src/buffer.c:106-110 | from behind the k-th newline, memchr finds the (k+1)-th exactly when there is one |
| TailSearch.UnsetSpareCount | src/buffer.c:88-114 | what the line count left unset at src/buffer.c:312 does to the block that the first input went to, while no more than n lines follow it, with size_t arithmetic: the offset is right if and only if the count was 0 or the lines on record, modulo 2^64, and the true lines are both at most n; the assertion fails if and only if more newlines are to be skipped than the block has |
| TailSearch.UnsetSpareCountAtFirst | src/buffer.c:88-114 | for the first input alone: the assertion fails if and only if the unset count exceeds n and the sum does not wrap around |
| TailSearch.UnsetSpareCountAborts | src/buffer.c:312 | a concrete input for which the unset count makes the assertion fail |
| TailSearch.UnsetSpareCountMisleads | src/buffer.c:312 | a concrete input for which nothing fails but the tail is wrong |
| TailSearch.SkipLinesStep | src/buffer.c:91-95 | whenever the skip loop goes on there is a next block, and the tail does not begin before it |
| TailSearch.SkipLinesInside | src/buffer.c:97-112 | when it stops with newlines to skip, the tail begins in its block, behind that many of its newlines |
| Compaction.CompactLinked | src/buffer.c:205-236 | linking a block, and dropping the first one or not, keeps it true that no two neighbours fit into one block and none behind the first is empty |
| Compaction.BoundedGrown | src/buffer.c:205-236 | a block is added without a drop only when those behind the first hold at most n units, which bounds the number of blocks by what n units of the input can take up |
| StrayCounts.ReadyExtended | src/buffer.c:88-95 | more input leaves the stray count in its block; once more than n lines follow that block they always do, and the search is right from then on |
| StrayCounts.BehindMeans | src/buffer.c:91 | in the skip loop's guard the stray count cancels out, so it can mislead only the search within its own block |
| StrayCounts.MovesExactly | src/buffer.c:88-156 | which block the search ends in, from the state in which it begins: it goes beyond the block with the stray count if and only if it was there before or the lines on record make it skip all of that block |
| StrayCounts.RightExactly | src/buffer.c:88-156 | from the state in which the search begins: its result is right if and only if more than n lines follow the block with the stray count; or it goes beyond that block, which ends a line, and exactly n lines follow; or it does not, and true and recorded lines are at most n |
| TailSearch.DroppedRetained | src/buffer.c:214-228 | when the first block goes, what is left still has the whole tail |
| TailBuffers.NothingLost | src/buffer.c:212-236 | no block is lost or freed twice by linking the spare one and recycling the first |
| TailBuffers.TailBuffer.constructor | src/buffer.c:290-316 | an empty history, usable whatever line count was left unset, and without a stray count exactly when it happens to be 0 or lines are not counted |
| TailBuffers.TailBuffer.FindLineStart | src/buffer.c:100-112 | the offset behind the newlines to skip; the failing assertion exactly when the block has fewer |
| TailBuffers.TailBuffer.FindTailOffset | src/buffer.c:97-113 | the offset found in a block for whatever newline count is on record, the value that UnsetSpareCount is about |
| TailBuffers.TailBuffer.SkipUnneededLines | src/buffer.c:90-95 | whatever count was left unset, never runs off the chain, keeps the prefix-sum counters exact modulo the stray count, and does not pass the tail |
| TailBuffers.TailBuffer.KeepTrackOfTailLines | src/buffer.c:88-114 | the assertion on memchr fails exactly under the stated condition on the stray count; otherwise block and offset are where the last n lines of the chain begin or, while the stray count is unsettled, exactly where the recorded lines lead from the block at which the search began; a first block that can be dropped is not the tail's |
| TailBuffers.TailBuffer.KeepTrackOfTailBytes | src/buffer.c:116-136 | block and offset are where the last n bytes of the chain begin; a first block that can be dropped is not the tail's |
| TailBuffers.TailBuffer.ShiftPastExhausted | src/buffer.c:146-155 | moves to the start of the next block exactly when the tail's block is exhausted and there is a next one, and changes nothing otherwise; the tail's place stays the same |
| TailBuffers.TailBuffer.KeepTrackOfTail | src/buffer.c:138-156 | all of this in both modes, with the block in which the search ends fixed by the state before the call |
| TailBuffers.TailBuffer.CountNewlines | src/buffer.c:186-193 | adds exactly the number of newlines in the block, in size_t arithmetic |
| TailBuffers.TailBuffer.CopyIntoLast | src/buffer.c:200-203 | the last block holds its old bytes and the new ones, with their newlines counted; all other blocks stay as they are |
| TailBuffers.TailBuffer.LinkAsLast | src/buffer.c:212 | the chain stays linked from first to last, with the spare block at its end |
| TailBuffers.TailBuffer.RecycleFirst | src/buffer.c:220-228 | the first block leaves the chain and becomes the spare block, and its counts are subtracted |
| TailBuffers.TailBuffer.DropFirst | src/buffer.c:218-228 | the counters stay prefix sums, those of bytes do not wrap, and the tail is still all there; a stray count goes with its block |
| TailBuffers.TailBuffer.ReplaceSpare | src/buffer.c:214-237 | assert(first != tail_buffer) holds; the spare block is then the old first one, if that can be dropped, or else a new one, if malloc gives one; there is none exactly when neither is so |
| TailBuffers.TailBuffer.AppendOrAbort | src/buffer.c:173-244 | for any unset line count, by conditions on the state before the call and the new bytes alone: the assertion in the search fails if and only if `Aborts`; otherwise the chunks served are then the tail of everything appended if and only if `RightWith`; all invariants hold again, and a buffer without a stray count stays without one |
| TailBuffers.TailBuffer.RightExactlyWhen | src/buffer.c:88-156 | the same condition on the state at any time between appends, for any unset line count |
| TailBuffers.TailBuffer.SetAppended | src/buffer.c:173-244 | without a stray count: the history grows by exactly the bytes in the spare block, all invariants of the chain hold again (contents, counters, place of the tail, memory bound, spare block apart and blank), the caller's pointer still shows the new bytes, no block is lost, no assertion fails; it fails only when the bytes do not fit into the last block, the first one is still needed and malloc gives none, and the chain grows only by what malloc gave |
| TailBuffers.TailBuffer.BlocksForBytes | src/buffer.c:200-240 | in byte mode there are never more than 2 * (n / BUFSIZ) + 2 blocks, for input of any length |
| TailBuffers.TailBuffer.BlocksForLines | src/buffer.c:200-240 | in line mode never more than 2 * (b / BUFSIZ) + 2, when no stretch of the input with at most n newlines has more than b bytes; one block more if a line count other than 0 was left unset |
| TailBuffers.TailBuffer.EmptyBlockStays | src/buffer.c:205-237 | that block is the empty first one: it stays only in front of a first input of a whole block with at most n lines on record |
| StrayCounts.StaysLinked | src/buffer.c:205-237 | as long as it stays, at most n lines follow the second block whenever a block is added, unless n is as large as the address space |
| TailBuffers.TailBuffer.LinesDoNotWrap | src/buffer.c:91-102 | without a stray count no sum or difference of line counters wraps around, in the skip loop, in the test for the drop and in the drop |
| TailBuffers.TailBuffer.ServedIsTail | src/buffer.c:246-261 | the chunks from the tail's block and offset on are together the tail of everything ever appended |
| TailBuffers.TailBuffer.TailSize | src/buffer.c:246-250 | the length of the tail of the whole history; the subtraction never wraps |
| TailBuffers.TailBuffer.ChunkAt | src/buffer.c:263-287 | what a walk over the chunks meets, and that from the tail on a chunk of size zero means that nothing was ever appended |
| TailBuffers.TailBuffer.WalkGoesOn | src/buffer.c:263-287 | one step of a walk over the chunks: the bytes served, and that the walk is then at the next block, with the rest still to be served |
| TailBuffers.TailBuffer.Final | src/buffer.c:318-329 | every block of the chain and the spare one are freed, each exactly once |
| Header.HeaderLowerBound | src/clientconn.c:200-202 | no prefix of the printed length has a value above it, so reading value + 1 bytes stays within line and tail |
| Header.ValueOfDecimal | src/sockets.c:133 | parsing the printed length gives it back |
| Header.ParseChunk | src/clientconn.c:166-191 | whatever part of a well-formed stream comes next, the parser ends with the value of the line so far, or with the printed length exactly behind the newline; no overflow and no protocol error |
| Header.BadByteFails | src/clientconn.c:173-187 | a byte that is neither digit nor newline, behind digits only, is a protocol error and makes all of the data junk |
| Kernel.Deliver | src/clientconn.c:206 | the buffer holds the bytes read, and the result is their number |
| Kernel.WriteEachWhole | src/sockets.c:147-166 | writing some parts one after the other until a write is short is a success when the kernel takes everything |
| ClientConns.NothingDelivered | src/clientconn.c:208-241 | a read that fails or ends delivers no tail byte, whatever the uninitialised count holds |
| ClientConns.ClientConn.ParseServerBufferSize | src/clientconn.c:166-191 | the loop computes the recursive parser's result in the connection's variables; a protocol error disconnects and uses up the data |
| ClientConns.ClientConn.ReadHeader | src/clientconn.c:199-217 | the branch that reads the length line asks for at most min(value + 1, BUFSIZ, size) bytes and copies out what follows the line |
| ClientConns.ClientConn.ReadServerBuffer | src/clientconn.c:193-241 | asks the socket for exactly MIN(size, remain), or for the lower bound while the length line is being read; new state, result and delivered bytes are determined by what was asked for and by the kernel's choice; nothing happens once all is read |
| ClientConns.ClientConn.ReadServerFollow | src/clientconn.c:243-256 | asks for exactly the caller's size, only when all of the server's buffer has been read, and disconnects exactly at the end of the stream |
| ClientSpec.NeverOverReads | src/clientconn.c:199-221 | no read of line or tail can consume a byte that follows the tail, none asks for 0 bytes (whose result would be taken for the end of the stream), and value + 1 is at most the tail's length + 1 |
| ClientSpec.AllReadExactly | src/clientconn.c:154-157 | "all read" is reached exactly with the last tail byte, and then the client's buffer was given exactly the tail |
| ClientSpec.HeaderKeepsInv | src/clientconn.c:199-217 | reading on through the length line, however it is cut up, keeps the number so far and finds the tail's first byte |
| ClientSpec.ServerReadKeepsInv | src/clientconn.c:193-241 | every read of line or tail keeps variables, delivered bytes and consumed bytes together; whenever data was read, no more tail bytes are subtracted than are missing, so the clamp to 0 is not taken |
| ClientSpec.FollowKeepsInv | src/clientloop.c:89-97 | data behind the tail is passed on as it is |
| ClientSpec.StepKeepsInv | src/clientloop.c:77-130 | every callback keeps: what was printed is a prefix of (and, unless stdout broke, equal to) the client's tail of the server's tail followed by the data read since; the tail is printed once, before any other data; a client that does not follow reads no further and hangs up |
| ClientSpec.GoesOn | src/clientloop.c:124-129 | after a callback the client goes on if and only if there was no end of file or hard error, no short write to stdout, memory for the tail bytes that were read, and, if it does not follow, not yet all of the tail |
| ClientSpec.ViolationEnds | src/clientconn.c:159-164 | a protocol error ends the client at once, with nothing more printed or buffered |
| ClientLoops.ClientLoop.WriteBlocking | src/clientpipes.c:43-51 | what the kernel takes is printed; stdout is broken if and only if that is less than everything |
| ClientLoops.ClientLoop.OutputBufferedTail | src/clientloop.c:55-74 | prints a prefix of the tail of everything buffered, and all of it unless a write failed; how far it gets is what the kernel makes of writing the chunks one by one |
| ClientLoops.ClientLoop.ReadTail | src/clientloop.c:82-88 | the tail bytes just read are appended to the client's buffer |
| ClientLoops.ClientLoop.SocketReadable | src/clientloop.c:77-130 | the callback, on the heap, is one step of the client on values, for an event fixed by the kernel's choices: what the read gives, whether there was memory, and what the writes took |
| ClientLoops.ClientLoop.Loop | src/clientloop.c:152-158 | over any stream of a greeting and what follows, and any cutting up of it: all callbacks asked for are made unless one of them ends the loop for one of the reasons of `GoesOn`; what was printed is a prefix of what should be, and exactly that unless stdout broke |
| ServerSpec.FanOutKeepsInv | src/sockets.c:169-185 | after a chunk has been written to every client, those that remain have had exactly their stream, those removed a prefix of it |
| ServerSpec.FanOutLosesNone | src/sockets.c:169-185 | every client is afterwards either still listed or removed, not both |
| ServerSpec.StepKeepsInv | src/pipes.c:68-129 | every callback of the server keeps the streams of listed and removed clients, the wait condition, and that stdout has had everything read |
| ServerSpec.NumberIsUnique | src/sockets.c:221-240 | a connection's number identifies it among all connections ever accepted |
| ServerSpec.StreamsInEveryRun | src/sockets.c:124-185 | in every reachable state each listed client has been sent exactly the decimal length of its tail, a newline, the tail and everything since; each removed one a prefix; none is missing or listed twice |
| ServerSpec.WaitLosesNothing | src/pipes.c:118-150 | with waiting configured, stdin is watched exactly when a client has been accepted, nothing is read before, and the first client, while listed, has been sent "0", a newline and the whole input |
| ServerSpec.RunTakesAllInput | src/pipes.c:92-115 | in every run the history is everything read from stdin, and the server is in its loop if and only if there was no end of stdin, no lack of memory and no short write to stdout |
| ServerSpec.WhoStays | src/sockets.c:169-219 | after any callback a client is still listed if and only if it did not cut a write short and did not send anything or end |
| ServerSpec.WhoComes | src/sockets.c:318-334 | a new client is listed if and only if it took its whole greeting |
| ServerSpec.AlwaysInOrder | src/sockets.c:228-233 | in every run the clients are listed newest first |
| Tailers.Tailer.WriteBlocking | src/sockets.c:96-122 | the client receives a prefix, of the length returned, which is what the kernel chose for this write |
| Tailers.TailerList.Init | src/sockets.c:221-240 | the new client is put first and the list stays well formed |
| Tailers.TailerList.Final | src/sockets.c:242-257 | exactly this client is taken out, order and links of the others stay |
| Tailers.TailerList.FinalAll | src/sockets.c:423-425 | terminates with an empty list |
| Tailers.TailerList.WriteAll | src/sockets.c:169-185 | although clients are removed during the traversal, each of the old clients, removed or not, has been written the data exactly once with what the kernel chose for it, and those that took everything remain, in their order |
| Tailers.TailerList.SendTail | src/sockets.c:124-167 | length line and chunks are written one by one until a write is short: what the client received and whether all went well are exactly what the kernel's choices make of that |
| Tailers.TailerList.SendBufferedTail | src/sockets.c:124-167 | likewise, and the client is removed if and only if one of those writes was short |
| Tailers.KeptViews | src/sockets.c:169-185 | the clients left in the list are, in order, the connections that the specification keeps |
| Tailers.LostViews | src/sockets.c:169-185 | the clients removed are, as they were left, the connections that the specification loses |
| ServerLoops.ServerLoop.constructor | src/pipes.c:131-151 | stdin is watched from the start exactly when the server need not wait |
| ServerLoops.ServerLoop.TailerReadable | src/sockets.c:188-219 | one step of the server on values: this client is removed if and only if its read gives anything but EAGAIN and its like |
| ServerLoops.ServerLoop.OnNewClient | src/pipes.c:123-129 | the wait is over and stdin watched |
| ServerLoops.ServerLoop.Accept | src/sockets.c:260-337 | one step of the server on values: nothing happens if and only if there is no socket, no name or no memory; otherwise the new client is greeted, and listed if it took everything |
| ServerLoops.ServerLoop.TakeIn | src/pipes.c:95-105 | one step on values for the bytes just read: buffer first, then stdout, then every client, all from the block that has meanwhile been linked or merged, with what the kernel chose for each; nothing is passed on if and only if there is no memory |
| ServerLoops.ServerLoop.StdinReadable | src/pipes.c:68-116 | one step of the server on values, for an event fixed by what the read gives: data is taken in, EAGAIN and its like change nothing, everything else ends the loop |
| ServerLoops.ServerLoop.Loop | src/tailserver.c:186 | any number of callbacks of any kind, in any order and with any choices of the kernel, are one by one the steps of a run on values |
| EndToEnd.RunKeepsInv | src/pipes.c:92-105 | whatever the order of server and client callbacks, the client's view of its connection stays right |
| EndToEnd.NothingWrongIsPrinted | src/clientloop.c:77-130 | in every run, also after failures, a client has printed a prefix of the shorter of the two tails at its acceptance followed by what arrived since |
| EndToEnd.FollowerPrintsEverything | src/sockets.c:124-185 | a client that is still listed, has read all it was sent and still has its stdout has printed exactly the shorter of the server's tail and its own tail of the history at its acceptance, and then every byte since |
| EndToEnd.OneShotPrintsTail | src/clientloop.c:113-122 | a client that does not follow prints nothing before it has the whole tail, then exactly the shorter of the two tails, and hangs up |
| EndToEnd.CanCatchUp | src/clientloop.c:77-130 | from every reachable state a client that is in its loop can read on to any point of what it was sent (one that does not follow, to the end of its greeting) |
| EndToEnd.FollowerCanFinish | src/sockets.c:124-185 | so a follower that is listed can always get to where it has printed exactly what it should |
| EndToEnd.OneShotCanFinish | src/clientloop.c:113-122 | and so can a client that does not follow |
| Xstrtol.QuotientBelow | src/coreutils/xstrtol.c:67 | the comparison with the quotient is true exactly when the product exceeds the maximum |
| Xstrtol.BkmScale | src/coreutils/xstrtol.c:59-74 | min(x * factor, max), and overflow exactly when the product exceeds max |
| Xstrtol.BkmScaleByPower | src/coreutils/xstrtol.c:76-83 | min(x * base^power, max), and overflow exactly when the true product exceeds max, although scaling goes on after saturation |
| Xstrtol.ScaleByLetter | src/coreutils/xstrtol.c:172-233 | scaling by what the letter stands for, or nothing for a letter the switch does not know |
| Xstrtol.SelectBase | src/coreutils/xstrtol.c:148-170 | base and length of the suffix with its optional second part |
| Xstrtol.XStrtol | src/coreutils/xstrtol.c:87-243 | value stored and flags returned, for every text, maximum and set of suffixes, as a function of the text that `Flagged` and `Suffixes` say the meaning of for every text |
| Suffixes.NumberIsRead | src/coreutils/xstrtol.c:112 | strtoumax reads exactly the number that stands in front of a multiplier |
| Suffixes.DenotedIsStored | src/coreutils/xstrtol.c:112-243 | a text of the grammar is stored at its true value or at the maximum, and only overflow is flagged |
| Suffixes.UnflaggedIsDenoted | src/coreutils/xstrtol.c:114-243 | a text that is not flagged as invalid is in the grammar |
| Suffixes.ValueIsUnique | src/coreutils/xstrtol.c:88-243 | a text has at most one value |
| Suffixes.AcceptsExactly | src/tailserver.c:218 | with the programs' suffixes, xstrtoumax returns LONGINT_OK exactly for the texts of the grammar whose value fits, and then stores it; it returns overflow alone exactly for those whose value does not fit |
| Flagged.NumberThenRest | src/coreutils/xstrtol.c:112-145 | for any valid suffixes and maximum: the number in front is read to its last digit, and what is behind it decides the rest |
| Flagged.RestAlone | src/coreutils/xstrtol.c:114-122 | without a number, but with a valid first character, the number is 1 |
| Flagged.Rejected | src/coreutils/xstrtol.c:100-122 | a minus sign, or neither a number nor a valid first character: LONGINT_INVALID, and nothing is stored |
| Flagged.SuffixScales | src/coreutils/xstrtol.c:147-239 | a known valid letter with its mark scales the number, and only text behind them is flagged |
| Flagged.OtherTextIsFlagged | src/coreutils/xstrtol.c:152-156 | any other text behind the number is flagged, and the number is stored as it is |
| Flagged.SuffixSplits | src/coreutils/xstrtol.c:158-239 | a known letter always has a mark and a factor, so these are all the cases |
| Flagged.NumberOrNot | src/coreutils/xstrtol.c:112-126 | every text has a longest number in front or none at all |
| Flagged.InvalidSuffixIsFlagged | src/tailserver.c:218 | with the programs' suffixes, "12x" stores 12 and flags the suffix |
| Intprops.MultiplyIsExact | src/coreutils/intprops.h:188-199 | with C's truncating division the check is true exactly when a * b leaves [min, max], for unsigned, two's and ones' complement types, and none of its own quotients leaves the range |
| Intprops.AddIsExact | src/coreutils/intprops.h:165-182 | the checks for sum, difference and negation are exact and do not overflow themselves |
| Intprops.DivideIsExact | src/coreutils/intprops.h:203-204 | the quotient leaves the range exactly when the check says so |
| Intprops.LeftShiftIsExact | src/coreutils/intprops.h:221-224 | the shift check is exact for every shift count below the width, for unsigned, two's and ones' complement types, and does not overflow itself |
| Strlen.BoundCovers | src/coreutils/intprops.h:107-110 | 2^b is at most 10 to the bound, for every b |
| Strlen.BoundIsTight | src/coreutils/intprops.h:107-110 | for 1 <= b < 2621 one digit less would not do |
| Strlen.StrlenBoundIsExact | src/coreutils/intprops.h:107-110 | no number of b bits has more digits than the bound, and the largest one has exactly that many when b is below 2621 |
| Strlen.NotTightAt2621 | src/coreutils/intprops.h:107-110 | at 2621 bits the bound is too large for every number, so 2621 is the smallest such width, as the comment claims |
| Strlen.LengthLineFits | src/sockets.c:129-134 | the length line of any tail fits into the server's buffer with its terminating NUL |

## Left out

- TailBuffers.TailBuffer.constructor: takes the spare block's initial line count as a parameter. src/buffer.c:312 sets `first->nlines` where `append->nlines` is meant, so the real value is whatever the memory held. `AppendOrAbort` and `RightExactlyWhen` cover every value; server and client start from the intended 0.
- TailBuffers.TailBuffer.SetAppended: malloc gives out no more blocks than an address space of 2^64 bytes holds, which is why the byte counters do not wrap. In byte mode the line counters are tracked without use and no claim is made about them. The comment at src/buffer.c:67 says that `total_bytes` is tracked conditionally; the code tracks it always, and so does the model.
- TailBuffers.TailBuffer.TailSize: this and the other accessors of the buffer are functions, since they change nothing; a chunk is represented by its block.
- EndToEnd.FollowerPrintsEverything: is about one connection. Reconnecting with -F is left out: `tail_output` and the buffer survive it, so what should be printed is not clear from the code.
- EndToEnd.NothingWrongIsPrinted: the length of a tail is taken to be below the largest ssize_t. The overflow at src/clientconn.c:175 is modelled as wrap-around, and is shown not to happen then.
- ClientConns.ClientConn.ReadHeader: `server_buffer_size + 1` at src/clientconn.c:202 is computed without overflow. It would overflow only for a server that announces exactly the largest ssize_t, which is undefined behaviour in C; `ClientSpec.NeverOverReads` rules it out below that.
- Kernel.Deliver: what read, write and accept choose is arbitrary; no order of arrival, timing or fairness. `safe_write` and `safe_write_forever` are one operation, since both end with the result of one write.
- Callbacks that libev still delivers after the loop was asked to end are allowed for accepts and client sockets.
- Xstrtol.XStrtol: the unsigned instance in base 10 only; strtoumax itself is a function, and texts are in the C locale.
- Intprops.LeftShiftIsExact: the right shift of a negative number is implementation-defined; the model takes the one that keeps the sign bit in each representation.
- Intprops.DivideIsExact: the remainder macro is the same expression; the `_GL_*_OVERFLOW` and `INT_*_OVERFLOW` wrappers and the TYPE_* macros are left out.
- Libev, signals, options, socket creation, messages, usage texts, xstrtod and sleeping.
- The server's initialisation when memory runs out, and running without a socket file.
