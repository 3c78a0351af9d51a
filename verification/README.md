# A verified model of NSCA-ng

NSCA-ng forwards monitoring commands from clients to a server over TLS. Both programs
are single-threaded and event-driven; they bring along an event loop (libev), a hash
table (uthash), a printf engine and a PID-file library. This project models the parts
whose correctness depends on long runs, interleavings or pointer manipulation, and
proves what these parts are for. `dafny verify dfyconfig.toml` verifies all of it.

| file | models |
|---|---|
| `TimerHeap.dfy`, `Pending.dfy`, `EventLoop.dfy`, `TimerTable.dfy` | the 4-ary timer heap, the pending queues under re-entrant callbacks, the timer operations of the event loop, and any sequence of these as operations on a plain table |
| `FdPoll.dfy` | descriptor watchers, the list of descriptor changes, and the dense array of the poll() backend |
| `Wakeup.dfy` | the fences between senders (signal handlers, other threads) and the loop, as steps over total-store-order memory |
| `MergeRuns.dfy`, `HashList.dfy`, `HashTable.dfy`, `Bits.dfy` | uthash: the in-place list merge sort, bucket expansion, and the table as a finite map |
| `ByteBuffer.dfy` | the block buffer, as a queue of bytes |
| `CommandLog.dfy`, `CommandFifo.dfy` | the command-file writer, with an account of where each command is |
| `TlsStream.dfy` | ordered partial writes, shutdown, and reading by lines or by a number of bytes |
| `Protocol.dfy`, `ProtocolLaws.dfy`, `ServerReader.dfy` | client and server joined by two byte channels; what either does with any line at all; the server's end reading through the TLS stream |
| `ClientInput.dfy`, `CheckResult.dfy` | reading standard input piece by piece, escaping, formatting, and the server's checks of form |
| `EndToEnd.dfy` | the last three together: from standard input to the server's log |
| `Printf.dfy`, `PrintfLaws.dfy`, `Text.dfy` | the printf state machine (section 7.19.6.1 of ISO/IEC 9899:1999), what each conversion promises for its arguments, numbers and words |
| `PidFile.dfy` | the PID-file lock among any number of processes |

Objects whose callbacks change them step by step are classes; their methods follow the
branches of the C functions, and their contracts tie the new state to the old one. What
happens concurrently, or between two programs, is a state machine with one step for each
atomic action, and its theorems speak of every run. Time stamps are integers. Outcomes of
system calls (how many bytes `read()` returns, whether `write()` fails, whether `mkstemp()`
succeeds, when a signal arrives) are parameters. A C `char` is a `char`, and a C string is
a sequence without NULs. The number of priorities is a parameter. Signal handlers are
senders of their own, interleaved with the loop, each with its own store buffer.

Some properties that one might expect do not hold of the code, and are stated with the
condition under which they do:

- A callback for every `ev_async_send()`: not on a machine that lets a store wait in a buffer
  after a release fence. `Wakeup.UnsyncedRunLosesASend` is a run that ends with the loop
  asleep and a send unanswered. `Wakeup.SendLostIffMarkWiped` says exactly when this
  happens: the loop's store of 0 to `sent`, which it issued for an earlier send, reaches
  memory on top of a new 1 while no callback is due, and no later 1 arrives. What the loop's
  own bookkeeping promises, no flag or mark left set while it sleeps, does hold of all runs:
  `Wakeup.NoLostWakeup`.
- `fmtint` prints "0" for a zero with precision zero, where the C standard asks for no
  characters: `Printf.DigitsAsInStandard` says that this is the only difference in the digits.
- The c conversion ignores the width and the `-` flag: `Printf.CharAsInStandard` says that
  this is as the standard asks exactly if the width is at most 1.
- Splitting an escaped check result equals escaping its fields unless the delimiter is a
  backslash, a newline or `n`: `CheckResult.DelimiterMatters`.
- A command that the client passes through has a form the server accepts unless it starts
  with a bracket that is never closed: `CheckResult.CommandAccepted`.
- Reading a number of bytes ignores what is in the line buffer. Whatever is read next stays
  in order if and only if that buffer is empty when the bytes are asked for
  (`TlsStream.OrderKeptIffBufferEmpty`, `TlsStream.InputStream.Run`); a client that sends its
  data together with its request line breaks the order (`TlsStream.PipelinedPush`).
  `Protocol.LogIsPrefix` and `ServerReader.Serve` show that this project's client, which waits
  for an answer, never does.
- After a failed asynchronous dump the dump file stays open: the invariant of
  `CommandFifo.Fifo.Run` counts one descriptor for each failure.
- In `write_cb` of the command-file writer, `continue` after `EINTR` does not write again: it
  leaves the loop, and the watcher, which stays active, brings the writer back.

## Model

| member | source | states |
|---|---|---|
| `TimerHeap.Parent` | lib/ev/ev.c:2584-2587 | the parent of a slot lies below it, except that the first slot is its own parent (C division truncates) |
| `TimerHeap.ChildrenOf` | lib/ev/ev.c:2584-2631 | the slots whose parent is k are exactly the four that the sift-down loop looks at |
| `TimerHeap.RootIsMinimum` | lib/ev/ev.c:3579-3593 | in an ordered heap the first slot holds a minimum |
| `TimerHeap.UpHeap` | lib/ev/ev.c:2669-2689 | a heap that is in order except for one element that may be too small ends up in order, with every `active` equal to its index and every cached key equal to `at` |
| `TimerHeap.DownHeap` | lib/ev/ev.c:2589-2631 | the same for one element that may be too large |
| `TimerHeap.MinChild` | lib/ev/ev.c:2600-2624 | the child chosen is a smallest one, also when fewer than four exist |
| `TimerHeap.AdjustHeap` | lib/ev/ev.c:2691-2699 | an element whose key has changed in either direction finds its place |
| `EventLoop.Loop.FeedEvent` | lib/ev/ev.c:2311-2329 | a pending watcher's slot then holds its old events and the new ones, any other watcher gets the next slot of its priority with the new ones; every other slot is as before; slots and `pending` keep pointing at each other |
| `EventLoop.Loop.ClearPending` | lib/ev/ev.c:4276-4302 | the slot goes to the dummy, every other slot is as before |
| `EventLoop.Loop.TimerStart` | lib/ev/ev.c:4383-4406 | the heap stays valid and holds one timer more, due at `mn_now` plus its delay; an active timer is left alone |
| `EventLoop.Loop.TimerStop` | lib/ev/ev.c:4408-4437 | the heap stays valid without the timer, which is not pending any more and keeps in `at` what was left until `mn_now` |
| `EventLoop.Loop.TimerAgain` | lib/ev/ev.c:4439-4465 | an active timer is set anew or stopped, an inactive one started, by `repeat` |
| `EventLoop.Loop.TimersReschedule` | lib/ev/ev.c:3934-3947 | every active timer is shifted alike and the heap stays valid |
| `EventLoop.Loop.CollectDue` | lib/ev/ev.c:3807-3834 | the loop takes each due timer once, in order of expiry, and no other, whatever repeats |
| `EventLoop.Loop.FeedReverseDone` | lib/ev/ev.c:2338-2344 | the collected timers are fed from the last to the first |
| `EventLoop.Loop.TimersReify` | lib/ev/ev.c:3802-3838 | no active timer is due afterwards; the due ones are pending, once each, queued backwards if none of them was pending before; all others are untouched |
| `EventLoop.Loop.InvokePending` | lib/ev/ev.c:3754-3775 | for callbacks that feed, clear and re-enter in any way: each callback run was for the newest slot of the highest nonempty queue at that moment, each callback has done what the script it took says, all of it, in order, and nothing else, all queues are empty on return, and each callback is told what was fed to its watcher since it was last called or cleared, all of it and nothing else |
| `EventLoop.Loop.ExpireAndInvoke` | lib/ev/ev.c:3754-3838 | expired timers of equal priority run once each in nondecreasing order of expiry, before what was queued earlier |
| `TimerTable.Run` | lib/ev/ev.c:3802-3947 | over any sequence of setting, starting, stopping and restarting timers, expiring, shifting and invoking, the heap stays valid and the active timers with all expiry and repeat times are what the operations make of a plain table |
| `TimerTable.RunFromNew` | lib/ev/ev.c:4383-4465 | the same from a new loop with any watchers |
| `TimerTable.NoneDue` | lib/ev/ev.c:3802-3838 | in the table, no active timer is due after timers_reify, and a timer that was not due keeps its time |
| `Pending.CallbacksAreTold` | lib/ev/ev.c:2311-2329 | in any run of feeding, clearing and invoking, each callback is told the union of what was fed to its watcher since it was last called or cleared |
| `Pending.InertRunDrains` | lib/ev/ev.c:3754-3775 | a run in which no callback interferes invokes exactly what was queued, highest priority and newest first |
| `Pending.FedBackwardsRunsForwards` | lib/ev/ev.c:2331-2344 | feeding backwards and invoking newest first runs the watchers in their original order |
| `Pending.TimersRunInOrderOfExpiry` | lib/ev/ev.c:3802-3838 | together: nondecreasing order of expiry at each priority |
| `FdPoll.Poll.Modify` | lib/ev/ev_poll.c:54-89 | the array and its index mirror the registered events after any change, also when the last entry moves into a gap |
| `FdPoll.OneEntryEach` | lib/ev/ev_poll.c:54-89 | then each descriptor with events has exactly one entry, with these events, and the index finds it |
| `FdPoll.FdLoop.FdChange` | lib/ev/ev.c:2470-2484 | the change list names the descriptors with a reify flag, each once |
| `FdPoll.FdLoop.WlistAdd` | lib/ev/ev.c:4253-4259 | the watcher becomes the first of its list, all lists stay well formed |
| `FdPoll.FdLoop.WlistDel` | lib/ev/ev.c:4261-4274 | the watcher is taken out of its list, the others keep their order |
| `FdPoll.FdLoop.IoStart` | lib/ev/ev.c:4330-4358 | the watcher is in the list of its descriptor, which is noted for reification |
| `FdPoll.FdLoop.IoStop` | lib/ev/ev.c:4360-4381 | the watcher is in no list, and its descriptor is noted |
| `FdPoll.FdLoop.FdReify` | lib/ev/ev.c:2390-2468 | every descriptor is registered for the union of what its watchers want, and no change is left |
| `FdPoll.FdLoop.PolledIsWanted` | lib/ev/ev.c:2390-2468 | poll() gets one entry for each descriptor that an active watcher wants something of, asking for an event if and only if some active watcher wants it |
| `Wakeup.StepKeepsInv` | lib/ev/ev.c:2777-2890 | every atomic step of a sender or of the loop, and every draining of a store buffer, keeps the invariant of the protocol |
| `Wakeup.NoLostWakeup` | lib/ev/ev.c:4088-4167 | in every run, if the loop sleeps, the pipe is empty and all senders have returned, then no flag is set and no started watcher is marked as sent |
| `Wakeup.SendLostIffMarkWiped` | lib/ev/ev.c:2777-2890 | in any run, when the loop sleeps with an empty pipe and no sender under way, a send to a started watcher is unanswered if and only if a late store of 0 to `sent` has wiped out a 1 while no callback was due, and since then no 1 has reached memory and the watcher was not started again |
| `Wakeup.SyncedRunsServeEverySend` | lib/ev/ev.c:5437-5442 | it is enough that the loop's store of 0 to `sent` drains before the next send |
| `Wakeup.UnsyncedRunLosesASend` | lib/ev/ev.c:2828-2890 | a concrete run in which a send is never answered |
| `MergeRuns.MergeSorted` | perl/uthash.h:860-905 | merging two stably sorted runs, the first before the second, gives a stably sorted run |
| `MergeRuns.PassDoublesRuns` | perl/uthash.h:852-929 | one pass turns sorted runs of length k into sorted runs of length 2k |
| `MergeRuns.SortIsStable` | perl/uthash.h:844-929 | the sort ends with a stable sorted permutation, for any total preorder |
| `MergeRuns.StableSortUnique` | perl/uthash.h:844-929 | there is only one stable sorted permutation |
| `HashList.MergeTwoRuns` | perl/uthash.h:872-912 | relinking the elements merges the run and its successor behind what has been merged, and leaves the rest linked |
| `HashList.AdvanceRun` | perl/uthash.h:860-871 | the second run begins where the first has its full length, or the list ends |
| `HashList.SortPass` | perl/uthash.h:852-929 | one pass over the links computes one pass over the values, with `prev` and `next` inverse to each other, and tells whether it was the last |
| `HashList.SortList` | perl/uthash.h:844-929 | the linked list ends up as the sorted sequence, with head and tail |
| `Bits.ShiftMaskCeiling` | perl/uthash.h:785-789 | shift and mask compute the ceiling of a division by a power of two |
| `Bits.MaskIsMod` | perl/uthash.h:320-323 | masking is reduction modulo a power of two |
| `Bits.ModDoubles` | perl/uthash.h:791-837 | an element of bucket i goes to bucket i or i + n when n buckets become 2n |
| `HashTable.Table.MakeTable` | perl/uthash.h:172-189 | a consistent empty table |
| `HashTable.Table.Add` | perl/uthash.h:284-305 | the element is last in application order and the map has one key more, for any hash function; the buckets are the same array or a new one |
| `HashTable.Table.AddToBkt` | perl/uthash.h:736-747 | the bucket expands exactly at its threshold; otherwise only its chain changes |
| `HashTable.Table.Delete` | perl/uthash.h:337-370 | the element is out of the list and of the map, the rest keeps its order, and so does the array of buckets |
| `HashTable.Table.ListDelete` | perl/uthash.h:345-360 | unlinking from the list, also at either end |
| `HashTable.Table.BucketDelete` | perl/uthash.h:750-760 | unlinking from the chain, with its count |
| `HashTable.Table.Find` | perl/uthash.h:119-136 | finding agrees with the finite map |
| `HashTable.Table.Run` | perl/uthash.h:119-370 | over any sequence of adding an absent key, deleting a present one, finding and sorting, with any expansions in between, the table stays consistent, the map and the application order are what the operations make of them, and each find returned what the map held at that moment |
| `HashTable.RunFromEmpty` | perl/uthash.h:172-370 | the same from an empty table |
| `HashTable.FindInBucket` | perl/uthash.h:714-733 | the chain is searched completely |
| `HashTable.Table.ExpandBuckets` | perl/uthash.h:791-837 | each chain is redistributed, the ideal length is the ceiling of items by buckets and at least 1, each multiplier is count by ideal length on a bucket that exceeds it and 0 elsewhere, the excess is counted, and a second expansion in a row that does not help ends expanding |
| `HashTable.Redistribute` | perl/uthash.h:799-829 | the loops over buckets and chains move each element once |
| `HashTable.MoveOne` | perl/uthash.h:808-824 | one element is moved with the statistics kept up to date |
| `HashTable.DoubledPartition` | perl/uthash.h:791-837 | after doubling every element is in the bucket its hash selects |
| `HashTable.ChainSplitsInTwo` | perl/uthash.h:791-837 | old chain i is exactly the new chains i and i + n |
| `HashTable.Table.Sort` | perl/uthash.h:844-929 | sorting changes the application order only; chains and map stay |
| `HashTable.SortKeepsModel` | perl/uthash.h:844-929 | the sorted list has the same keys and elements |
| `HashTable.Table.Fsck` | perl/uthash.h:400-450 | if the forward links it follows come to an end, HASH_FSCK objects exactly if a back link, a bucket count or one of the totals is wrong |
| `HashTable.Table.ValidPassesFsck` | perl/uthash.h:400-450 | it never objects to a consistent table |
| `HashTable.CountChain` | perl/uthash.h:410-422 | walking a chain finds a wrong back link if and only if there is one, and otherwise its length |
| `ByteBuffer.Buffer.Append` | src/common/buffer.c:85-107 | the bytes go behind those in the buffer, whatever blocks they need |
| `ByteBuffer.Buffer.Read` | src/common/buffer.c:109-140 | the first bytes are copied and gone, the rest is kept |
| `ByteBuffer.Buffer.BlockDetach` | src/common/buffer.c:276-298 | a block is handed out only if it holds exactly what is asked for, from its start |
| `ByteBuffer.Buffer.ReadAlloc` | src/common/buffer.c:142-152 | as Read, into memory the buffer has no access to any more |
| `ByteBuffer.Buffer.ReadLine` | src/common/buffer.c:154-170 | the text up to the first newline, without a carriage return before it; nothing happens if there is none |
| `ByteBuffer.Buffer.ReadChunk` | src/common/buffer.c:172-185 | the text up to the first terminator |
| `ByteBuffer.Buffer.Slurp` | src/common/buffer.c:187-193 | everything |
| `ByteBuffer.Buffer.FindChar` | src/common/buffer.c:221-239 | the position of the first occurrence across blocks, or 0 |
| `ByteBuffer.WindowFill` | src/common/buffer.c:85-107 | copying to the end of the last block appends to the queue |
| `ByteBuffer.WindowTake` | src/common/buffer.c:109-140 | advancing in the first block takes from the front of the queue |
| `CommandLog.GatherJoin` | src/server/fifo.c:580-607 | what waits in the buffer comes after what waits in the output block |
| `CommandLog.Write` | src/server/fifo.c:298-312 | a write() moves whole commands to the pipe and keeps the order |
| `CommandLog.Drop` | src/server/fifo.c:181-188 | what is thrown away is accounted for |
| `CommandLog.PipeCarriesWholeCommands` | src/server/fifo.c:272-316 | the stream in the pipe is the concatenation of whole commands, each once, in the order in which they were accepted |
| `CommandFifo.Fifo.constructor` | src/server/fifo.c:119-169 | the writer starts in a valid state, whether or not the pipe can be opened |
| `CommandFifo.Fifo.FifoWrite` | src/server/fifo.c:171-196 | the command is accepted; if a dump can be requested, nothing is thrown away as long as buffer and command are within the limit, or there is none, or the command is taken over without copying, and otherwise exactly what was in the buffer; an outstanding request is not touched |
| `CommandFifo.Fifo.OpenCb` | src/server/fifo.c:231-270 | either the pipe is open and waiting data is dispatched, or the timer runs again with nothing changed |
| `CommandFifo.Fifo.WriteCb` | src/server/fifo.c:272-316 | the first write() is given the output block, or else the buffer, and is repeated as long as it succeeds and the buffer is not empty; EAGAIN and EINTR leave the watcher active, any other failure closes the pipe; nothing is lost, and if all writes succeed nothing is left |
| `CommandFifo.Fifo.AsyncDumpData` | src/server/fifo.c:341-377 | output and buffer together become the request, or are given up if that fails |
| `CommandFifo.Fifo.DispatchData` | src/server/fifo.c:484-524 | from any consistent state, waiting data has an active watcher or an outstanding request afterwards; within PIPE_BUF it is written at once, above it becomes the request; nothing happens if the pipe is not open, or the watcher or a request is at work |
| `CommandFifo.Fifo.AsyncCb` | src/server/fifo.c:391-422 | only a complete dump that could be closed is announced; a failed one is accounted for |
| `CommandFifo.Fifo.JoinBuffers` | src/server/fifo.c:580-607 | the buffer goes behind the output block |
| `CommandFifo.Fifo.Handle` | src/server/fifo.c:171-607 | one event: nothing is thrown away unless the queue has a limit that is exceeded, a dump cannot be requested, or a request ends badly; only the latter counts as a failure; exactly the command, or the announcement of a complete dump, is entered; an outstanding request is untouched by anything but its own end, and only a complete one becomes a dump |
| `CommandFifo.Fifo.Run` | src/server/fifo.c:171-607 | over any run: every command is accepted, in order, and besides these only announcements; conservation, atomicity, at most one request, and a timer, watcher or request for data that waits; nothing is thrown away if the queue has no limit and all dumps succeed, and no more requests fail than events say |
| `TlsStream.OutputStream.Write` | src/common/tls.c:303-324 | the bytes are queued, by reference or by copy, and the watcher is active |
| `TlsStream.OutputStream.WriteLine` | src/common/tls.c:326-331 | the line and its terminator are queued |
| `TlsStream.OutputStream.SslWrite` | src/common/tls.c:680-686 | may only be called with the buffer and length of a call that wants to be repeated |
| `TlsStream.OutputStream.WriteCb` | src/common/tls.c:666-711 | what has been taken, the rest of the block and the buffer are everything queued, in order; the first SSL_write() takes what it says from the block, or else from the buffer; if each call takes something, all is sent; the watcher stops only when all is taken, and then the shutdown starts if it was waiting for that |
| `TlsStream.OutputStream.StartShutdown` | src/common/tls.c:782-790 | is called only when everything queued has been taken |
| `TlsStream.OutputStream.Shutdown` | src/common/tls.c:333-344 | the shutdown starts at once or when the output has drained |
| `TlsStream.OutputStream.TimeoutCb` | src/common/tls.c:738-768 | stopping all watchers does not cut off what was being sent before the server's farewell |
| `TlsStream.OutputStream.Handle` | src/server/server.c:227-310 | one event queues exactly the bytes it stands for and keeps the order; the stream sends when it can, starts a shutdown that was asked for exactly when everything queued has been taken, and ends on failure or on a timeout without a farewell |
| `TlsStream.OutputStream.Run` | src/server/server.c:154-310 | over any use the server makes of a connection, each event has queued just its bytes, what has been taken, the rest of the block and the buffer are everything queued, in order; what is queued and what has been taken only grow; and the shutdown starts at a moment at which everything queued has been taken |
| `TlsStream.InputStream.StartRead` | src/common/tls.c:274-295 | a line or so many bytes are asked for; it is noted if the latter happens with bytes in the line buffer |
| `TlsStream.InputStream.ReadLine` | src/common/tls.c:792-829 | takes from SSL_read() just what it needs; a line is handed out if and only if a newline has arrived before the limit, the rest stays buffered, and no byte is lost; may be called again until then |
| `TlsStream.InputStream.ReadBytes` | src/common/tls.c:831-864 | takes from SSL_read() just what it needs, over several calls, for exactly so many bytes; they are in order if the line buffer is empty, and otherwise if and only if they commute with what is in it |
| `TlsStream.OrderKeptIffBufferEmpty` | src/common/tls.c:831-864 | for a request that lacks any number of bytes, what SSL_read() can still hand out for it is in order, whatever it is, if and only if the line buffer is empty |
| `TlsStream.PipelinedDataIsOvertaken` | src/common/tls.c:792-864 | for any request line with data behind it in one record, the line is handed out, the data stays in the line buffer, and the byte read next overtakes it |
| `TlsStream.PipelinedPush` | src/common/tls.c:792-864 | a concrete run that ends out of order |
| `TlsStream.InputStream.ReadCb` | src/common/tls.c:648-664 | the handler gets one piece once it is complete, computed from what SSL_read() returns; otherwise the watcher stays active, or the line is too long |
| `TlsStream.InputStream.Run` | src/common/tls.c:274-295 | over any run of requests and readable events each request is answered by one piece that fits it, in order, and if no bytes were asked for with bytes in the line buffer, then pieces, unfinished block and buffer are everything received |
| `Protocol.LogIsPrefix` | src/server/server.c:188-248 | in every run the server's log is a prefix of the client's commands, with acked <= logged <= acked + 1, and the line buffer is empty when the server reads a number of bytes |
| `Protocol.StepKeepsInv` | src/client/client.c:122-258 | every step of either side, every delivery of any number of bytes and every timeout keeps the invariant |
| `Protocol.CommandDecided` | src/server/server.c:227-248 | when the last bytes of a command have come in, it is logged and answered OKAY if it is authorized, and otherwise refused and not logged |
| `Protocol.WhatIsLogged` | src/server/server.c:188-248 | in every run, what is logged is authorized and within the limit, and if the server does not time out, the client stops at the end of the commands or at the first one that is not authorized or exceeds the limit, with all commands before it logged |
| `Protocol.EverythingIsLogged` | src/server/server.c:188-248 | so if there is nothing to object to, everything has been logged when the client stops |
| `Protocol.EveryStepIsNearer` | src/client/client.c:122-258 | every step of either side, whatever the sizes of the pieces, brings the end of the session nearer, so that no run goes on for ever |
| `Protocol.Completes` | src/client/client.c:122-258 | every reachable state has a run without a timeout that ends with the client stopped |
| `Protocol.OnlyAuthorized` | src/server/server.c:227-248 | in every run, whatever the client sends, each command in the log has been authorized |
| `Protocol.NoDeadlock` | src/server/server.c:188-248 | until the client stops, something can happen without a timeout |
| `Protocol.NeverTooLong` | src/common/tls.c:808-815 | neither side ever sees a line that is too long |
| `Protocol.MoinText` | src/server/server.c:154-171 | the client's greeting is understood |
| `Protocol.PushText` | src/server/server.c:199-218 | the client's request with its size in decimal is understood, and refused exactly if the size exceeds the limit |
| `Protocol.ServeRequest` | src/server/server.c:154-224 | the answer to each regular request |
| `Protocol.ReactToAnswer` | src/client/client.c:179-258 | the client's reaction to each regular answer |
| `Protocol.LineArrived` | src/common/tls.c:792-829 | whoever sees a newline in part of a line has all of it and nothing else |
| `ProtocolLaws.AnyHandshake` | src/server/server.c:154-186 | for any line: exactly which greeting is accepted, which lines close the connection, and the answers; anything else is refused and leaves the state |
| `ProtocolLaws.AnyRequest` | src/server/server.c:188-224 | the same for any line after the greeting |
| `ProtocolLaws.AnyGreeting` | src/client/client.c:179-210 | for any answer to the greeting: exactly when the client goes on; otherwise it gives up, and says so unless the server has refused |
| `ProtocolLaws.AnyAnswer` | src/client/client.c:210-258 | the same for the other answers |
| `ServerReader.ServedRuns` | src/common/tls.c:648-664 | one call of read_cb, with the handler it calls, is a sequence of the protocol's events, each possible at its time, for any bytes that SSL_read() hands out of the channel |
| `ServerReader.AfterLine` | src/common/tls.c:792-829 | read_line hands out a line exactly if the protocol's server handles one, and it is that line; it is too long exactly if it is for the protocol |
| `ServerReader.AfterBytes` | src/common/tls.c:831-864 | read_bytes hands out a command exactly if the protocol's server handles one, and it is that command |
| `ServerReader.WhatCanHappen` | src/common/tls.c:648-664 | the server reads exactly while it expects a line or a command, and whatever has been sent can arrive |
| `ServerReader.ServeReadable` | src/common/tls.c:648-664 | the stream, with the handler's next request, ends up where the protocol's server is |
| `ServerReader.Serve` | src/server/server.c:154-248 | whatever arrives at a connection, the stream and the server's handlers do a run of the protocol; everything received is handed out in order, as bytes are never asked for with bytes in the line buffer |
| `ClientInput.Input.ReadChunk` | src/client/input.c:77-92 | at most one piece is delivered for a request; after the end of the input the EOF handler is called |
| `ClientInput.Input.ReadCb` | src/client/input.c:116-164 | whatever read() returns, the next piece is delivered once, or the watcher stays active |
| `ClientInput.Input.Run` | src/client/input.c:77-164 | over any run the pieces of the input are delivered once each, in order, and then the EOF handler is called once |
| `CheckResult.EscapeText` | src/client/parse.c:131-160 | the room computed is exactly what the escaped text needs |
| `CheckResult.UnescapeEscape` | src/client/parse.c:131-160 | escaping can be undone |
| `CheckResult.EscapeIsInjective` | src/client/parse.c:131-160 | no two texts are escaped alike |
| `CheckResult.EscapeHasNoNewline` | src/client/parse.c:131-160 | an escaped text has no newline |
| `CheckResult.SplitEscape` | src/client/parse.c:75-95 | splitting what has been escaped equals escaping the fields, for a harmless delimiter |
| `CheckResult.DelimiterMatters` | src/client/parse.c:75-95 | and for every input exactly if the delimiter is harmless |
| `CheckResult.ParseCheckResult` | src/client/parse.c:65-125 | three or four fields make a command, anything else is refused |
| `CheckResult.CheckCommandAccepted` | src/server/auth.c:96-112 | a command made of a check result always has the form the server asks for |
| `CheckResult.CommandAccepted` | src/client/parse.c:48-63 | any other command has, unless it opens a bracket that is never closed |
| `CheckResult.CommandText` | src/client/parse.c:48-63 | a command is passed on without the blanks before it, with the time in brackets before it unless it starts with a bracket |
| `CheckResult.HostResult` | src/client/parse.c:97-107 | three fields are escaped and passed on in order behind the name for hosts |
| `CheckResult.ServiceResult` | src/client/parse.c:108-117 | four fields are escaped and passed on in order behind the name for services; the last one may contain delimiters |
| `CheckResult.TooFewFields` | src/client/parse.c:118-121 | fewer fields are refused |
| `CheckResult.MatchableMeans` | src/server/auth.c:96-112 | a command has the form the server asks for if and only if its only newline is at its end and there is a bracket |
| `CheckResult.MatchedText` | src/server/auth.c:108-112 | what is matched against the patterns follows the first bracket and the blanks behind it |
| `EndToEnd.ChunkForm` | src/client/client.c:122-152 | whatever piece of input is handled, the command pushed has its only newline at the end and no NUL, and one made of a check result has the form the server asks for |
| `EndToEnd.ChunkText` | src/client/client.c:122-152 | a piece is skipped exactly if there are only newlines in it; otherwise what follows them becomes a command, or must be a check result with the right number of fields |
| `EndToEnd.PushedFirst` | src/client/client.c:122-152 | the pieces are handled one after another: each gives one command or none, or ends the client |
| `EndToEnd.PushedGrows` | src/client/client.c:122-152 | the commands made of the first pieces are the first of all commands |
| `EndToEnd.InputReachesLog` | src/client/client.c:122-152 | for any input, separator, mode, times and run of the protocol: the server's log is a prefix of the commands made of the pieces of standard input, all of them when the client says goodbye, and each has the form above; if the server authorizes only what has the form it asks for, so does everything logged, in either mode; if the server objects to nothing and does not time out, all commands have been logged when the client stops |
| `Printf.Sink.Put` | lib/xprintf.c:256-261 | a character is counted always and stored only if room for the NUL remains |
| `Printf.FmtStr` | lib/xprintf.c:679-711 | the string, cut at the precision, in a field of the given width |
| `Printf.Convert` | lib/xprintf.c:1157-1170 | the digits in reverse order; the buffer is big enough for any word |
| `Printf.FmtInt` | lib/xprintf.c:713-812 | sign, prefix, zeros and digits in a field of the given width |
| `Printf.IntLength` | lib/xprintf.c:767-778 | the field is as long as the width, or as sign, prefix and the larger of precision and digits need |
| `Printf.IntReadsBack` | lib/xprintf.c:713-812 | strtol() reads the number back, for every width, precision and combination of flags |
| `Printf.DigitsAsInStandard` | lib/xprintf.c:713-812 | the number of digits is that of the standard except for a zero with precision zero |
| `Printf.Directive` | lib/xprintf.c:312-665 | the state machine gives a directive, its flags, width, precision, modifier and specifier, the meaning it has as a whole; a width or precision may be an asterisk, with a negative width meaning left and a negative precision none |
| `Printf.PartRead` | lib/xprintf.c:312-665 | any part of a format, ordinary text or a directive, prints what it stands for as a whole and leaves the arguments it does not use to what follows |
| `Printf.FormatMeaning` | lib/xprintf.c:276-677 | so a whole format, any sequence of such parts, prints what they print, one after another, each with the arguments that those before it have left |
| `PrintfLaws.FlagLetters` | lib/xprintf.c:319-348 | which letters are flags |
| `PrintfLaws.ConversionLetters` | lib/xprintf.c:441-660 | which letters are conversion specifiers, and which of these take an argument |
| `PrintfLaws.FlagsMean` | lib/xprintf.c:319-348 | a flag is set if and only if its letter is there |
| `PrintfLaws.ArgumentsUsed` | lib/xprintf.c:312-665 | asterisks take one argument each, from the first on, and so does every conversion but that of the percent sign |
| `PrintfLaws.ArgumentAs` | lib/xprintf.c:443-520 | for every length modifier, what is converted is in the range of the type and congruent to the argument |
| `PrintfLaws.SignedPrinted` | lib/xprintf.c:443-476 | d and i print a number that the type can hold so that strtol() reads it back, whatever flags, width and precision |
| `PrintfLaws.UnsignedPrinted` | lib/xprintf.c:477-520 | so do u, o, x and X in their bases |
| `PrintfLaws.PointerPrinted` | lib/xprintf.c:583-618 | p prints an address in hexadecimal with a prefix |
| `PrintfLaws.OthersPrinted` | lib/xprintf.c:575-650 | s, c, n, the percent sign and floating-point conversions print their argument |
| `PrintfLaws.IntShape` | lib/xprintf.c:713-812 | an integer field is spaces, sign, prefix, zeros, digits, spaces, each as the flags, the width and the precision ask, without superfluous digits and in the right case |
| `PrintfLaws.StrShape` | lib/xprintf.c:679-711 | a string field is the string or its first characters, with spaces on the side asked for |
| `PrintfLaws.TooBigIsAnError` | lib/xprintf.c:350-373 | a width that no int can hold makes the output an error |
| `PrintfLaws.TooPrecise` | lib/xprintf.c:381-405 | so does such a precision |
| `PrintfLaws.NumbersPrinted` | lib/xprintf.c:276-677 | snprintf() with one plain directive prints a number that can be read back, for every length modifier |
| `Printf.CharAsInStandard` | lib/xprintf.c:575-578 | the c conversion fills a field of the given width if and only if that is at most 1 |
| `Printf.Vsnprintf` | lib/xprintf.c:276-677 | for every size the buffer gets exactly the prefix that fits and a NUL, nothing else is written, and the length of the whole output is returned |
| `Printf.Vasprintf` | lib/xprintf.c:1236-1249 | the buffer allocated after measuring holds exactly the whole output |
| `Text.CStringMeans` | lib/xprintf.c:679-711 | a C string ends at the first NUL |
| `Text.StartsWithMeans` | src/server/server.c:154-224 | keywords are compared without regard to case |
| `Text.BlanksSeparate` | src/server/server.c:154-224 | words are separated by blanks and tabs |
| `Text.NumeralReadsBack` | lib/xprintf.c:1157-1170 | the digits of a number have its value |
| `PidFile.StepKeepsInv` | lib/pidfile/flopen.c:73-113 | every call of every process keeps the invariant |
| `PidFile.Exclusion` | lib/pidfile/flopen.c:73-113 | at most one process is past the inode check and not past its unlink or close, and the path names its file |
| `PidFile.UnlinkRemovesOwnFile` | lib/pidfile/pidfile.c:244-270 | an owner's unlink removes its own file, and only such an unlink changes what the path names |
| `PidFile.OnlyOwnerChangesFile` | lib/pidfile/pidfile.c:183-221 | no process truncates or writes a file that another one owns |
| `PidFile.FlockDecides` | lib/pidfile/flopen.c:80-86 | the lock is given if and only if no process holds it |
| `PidFile.UndisturbedOwns` | lib/pidfile/flopen.c:73-113 | a process that is not disturbed becomes the owner, with its number in the file, if no process holds the lock of the file that the path names |
| `PidFile.OwnerReleases` | lib/pidfile/pidfile.c:244-270 | an owner can always unlink and close its file, and then nothing else has changed |
| `PidFile.PathTellsOwner` | lib/pidfile/pidfile.c:183-221 | after its owner has written it, the file at the path holds the owner's number |

## Left out

- Loop.InvokePending: what callbacks do to timers and other watchers is reduced to feeding, clearing and re-entering, which is all that touches the queues.
- TimerTable.Run: which timers are queued for invocation, and in what order they run, is said by `TimersReify`, `InvokePending` and `ExpireAndInvoke` for one call, not by the table; callbacks do not touch timers.
- Loop.NeedSize: growth by doubling, without the rounding of array_nextsize for malloc; only that room is made and the old elements are kept.
- Loop.FeedEvent: watcher priorities are given within range; pri_adjust, which clamps them, is not modelled.
- FdLoop.IoStart: a watcher's descriptor and events are fixed; ev_io_set and ev_io_modify on an inactive watcher are not modelled.
- FdLoop.IoStop: the call of clear_pending is modelled in `EventLoop`, not here.
- Table.Add: the key is not in the table yet, as uthash asks of its callers; HASH_REPLACE, HASH_SELECT, the INORDER variants, the Bloom filter and the hash functions are not modelled.
- Table.Fsck: HASH_FSCK does not look at hash values or keys, so a table that passes need not be consistent; on links that never end it would not return.
- Poll.Modify: poll() itself, its error handling and fd_kill are not modelled.
- OutputStream.Handle: SSL_write() and SSL_read() are parameters; handshakes, the TLS shutdown exchange and the switching of watcher directions after WANT_READ or WANT_WRITE are not modelled.
- LogIsPrefix: a client that dies or a connection that breaks ends the run; PING, NOOP and other requests are in the handlers but never sent by this client. After NOOP the server waits for nothing (mode Deaf).
- Serve: after the server has closed the connection nothing more is read, and SSL_read() hands out bytes only in the order in which they were sent.
- Fifo.Run: fifo_stop and the variant without POSIX AIO are not modelled; buffer_free followed by buffer_new is one operation in place; POSIX guarantees that a write of at most PIPE_BUF bytes to a pipe is complete or not done.
- FormatMeaning: unknown specifiers, which are undefined, are no parts of a format.
- Vsnprintf: floating-point conversions take their text as an argument; there are no group separators, as in the C locale; the pointer argument of the n conversion is skipped; a missing argument, which is undefined, is taken as 0.
- InputStream.Run: a request while one is outstanding ends the program (die), and after a line that is too long nothing more is asked for; neither is a step here.
- InputReachesLog: input that is not a check result ends the client, so that no further command is made; what reads and what sends are joined by the commands, not interleaved.
- FmtInt: the most negative intmax_t, whose negation overflows, is printed as if it did not.
- PidFile.Exclusion: whether a process that others disturb ever gets the lock, pidfile_read, and the emulation of flock() by fcntl() are not modelled; descriptors are not inherited.
- NoLostWakeup: system calls are full barriers, wake-ups by descriptors other than the pipe only end a poll, and writes to a full pipe leave it readable; eventfd and Windows are not modelled.
- The periodic watchers with reheap, the stat, child, fork, embed and idle watchers, and the backends other than poll are not modelled.
- Allocation never fails, and counters and sizes do not wrap around.
- Configuration, command lines, logging, PSK callbacks, regular expressions and the bindings for Perl and Python are not modelled; a pattern match is an arbitrary predicate.
