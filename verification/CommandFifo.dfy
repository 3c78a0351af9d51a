/**
  The command-file writer: callbacks on one descriptor, an output block, an overflow
  buffer, at most one asynchronous dump, and three watchers. System calls take their
  outcome from parameters; what reaches the pipe and the dump files is recorded.
 */
module CommandFifo {
  import opened ByteBuffer
  import opened CommandLog
  import opened Options

  /** write(): everything (guaranteed up to PIPE_BUF bytes), EAGAIN, EINTR, or another error. */
  datatype WriteResult = Done | Again | Interrupted | Failed

  /** open() and fstat(): a descriptor of a named pipe, or anything else. */
  datatype OpenResult = Opened(fd: nat) | NotOpened

  /** mkstemp() and aio_write(). */
  datatype DumpResult = NoFile | NoRequest(fd: nat) | Requested(fd: nat)

  /** What the asynchronous request came to, and whether closing its file succeeds. */
  datatype AioResult = Error | Short | Complete(closed: bool)

  /** The outcomes for the system calls that one event can lead to. */
  datatype System = System(write: nat -> WriteResult, dump: DumpResult, dumpFile: seq<char>)

  ghost predicate AllSmooth(events: seq<Event>) {
    forall i | 0 <= i < |events| :: Smooth(events[i])
  }

  /**
    What has happened since the writer had the log `log0`, the writes `writes0`, and
    `failures0` requests had ended badly.
   */
  ghost predicate Since(log0: Log, writes0: seq<seq<char>>, failures0: nat, events: seq<Event>,
                        log: Log, writes: seq<seq<char>>, failures: nat, limit: nat)
  {
    && writes0 <= writes
    && (limit == 0 && AllSmooth(events) ==> NothingDropped(log0, log))
    && failures0 <= failures <= failures0 + BadEnds(events)
  }

  /** What one event may have entered. */
  ghost predicate Entering(e: Event, texts: seq<seq<char>>) {
    match e
    case Command(data, _, _) => texts == [data]
    case AioDone(aio, stamp, _, _) =>
      texts == [] || (aio == Complete(true)
                      && exists file: seq<char> :: texts == ["[" + stamp + "] PROCESS_FILE;" + file + ";1\n"])
    case _ => texts == []
  }

  ghost function Joined(texts: seq<seq<seq<char>>>): seq<seq<char>>
    decreases |texts|
  {
    if texts == [] then [] else Joined(texts[..|texts| - 1]) + texts[|texts| - 1]
  }

  /** What the events have entered, one after another: every command, and announcements. */
  ghost predicate Entered(texts0: seq<seq<char>>, events: seq<Event>, added: seq<seq<seq<char>>>, texts: seq<seq<char>>)
  {
    && |added| == |events| && texts == texts0 + Joined(added)
    && forall i | 0 <= i < |events| :: Entering(events[i], added[i])
  }

  lemma NothingEntered(texts: seq<seq<char>>, events: seq<Event>)
    ensures Entered(texts, events[..0], [], texts)
  {
    assert texts + [] == texts;
  }

  lemma OneMoreEntered(texts0: seq<seq<char>>, events: seq<Event>, i: nat, added: seq<seq<seq<char>>>,
                       texts1: seq<seq<char>>, more: seq<seq<char>>, texts: seq<seq<char>>)
    requires i < |events| && Entered(texts0, events[..i], added, texts1)
    requires Entering(events[i], more) && texts == texts1 + more
    ensures Entered(texts0, events[..i + 1], added + [more], texts)
  {
    assert (added + [more])[..|added|] == added;
    assert texts0 + Joined(added) + more == texts0 + (Joined(added) + more);
    assert events[..i + 1] == events[..i] + [events[i]];
    hide Entering;
  }

  lemma AllEntered(texts0: seq<seq<char>>, events: seq<Event>, added: seq<seq<seq<char>>>, texts: seq<seq<char>>)
    requires Entered(texts0, events[..|events|], added, texts)
    ensures Entered(texts0, events, added, texts)
  {
    assert events[..|events|] == events;
  }

  lemma NoEvents(events: seq<Event>, log: Log, writes: seq<seq<char>>, failures: nat, limit: nat)
    ensures Since(log, writes, failures, events[..0], log, writes, failures, limit)
  {
    NothingYet(log);
    assert events[..0] == [];
  }

  lemma SinceAll(log0: Log, writes0: seq<seq<char>>, failures0: nat, events: seq<Event>,
                 log: Log, writes: seq<seq<char>>, failures: nat, limit: nat)
    requires Since(log0, writes0, failures0, events[..|events|], log, writes, failures, limit)
    ensures writes0 <= writes
    ensures limit == 0 && AllSmooth(events) ==> NothingDropped(log0, log)
    ensures failures0 <= failures <= failures0 + BadEnds(events)
  {
    assert events[..|events|] == events;
    hide Texts, AllSmooth, NothingDropped, BadEnds;
  }

  lemma OneMoreEvent(log0: Log, writes0: seq<seq<char>>, failures0: nat, events: seq<Event>, i: nat,
                     log1: Log, writes1: seq<seq<char>>, failures1: nat,
                     log: Log, writes: seq<seq<char>>, failures: nat, limit: nat)
    requires i < |events| && Since(log0, writes0, failures0, events[..i], log1, writes1, failures1, limit)
    requires writes1 <= writes
    requires (Smooth(events[i]) && limit == 0 ==> NothingDropped(log1, log))
    requires failures1 <= failures <= failures1 + if EndsBadly(events[i]) then 1 else 0
    ensures Since(log0, writes0, failures0, events[..i + 1], log, writes, failures, limit)
  {
    NextEvent(events, i);
    if NothingDropped(log0, log1) && NothingDropped(log1, log) {
      StillNothing(log0, log1, log);
    }
    hide Texts, AllSmooth, NothingDropped, BadEnds, Smooth, EndsBadly;
  }

  lemma NextEvent(events: seq<Event>, i: nat)
    requires i < |events|
    ensures AllSmooth(events[..i + 1]) ==> AllSmooth(events[..i]) && Smooth(events[i])
    ensures BadEnds(events[..i + 1]) == BadEnds(events[..i]) + if EndsBadly(events[i]) then 1 else 0
  {
    assert events[..i + 1][..i] == events[..i];
    if AllSmooth(events[..i + 1]) {
      assert Smooth(events[..i + 1][i]);
      forall j | 0 <= j < i ensures Smooth(events[..i][j]) { assert Smooth(events[..i + 1][j]); }
    }
  }

  lemma NothingYet(log: Log)
    ensures NothingDropped(log, log)
  {
  }

  lemma JustOf(command: Option<seq<char>>)
    ensures Just(command) == if command.Some? then [command.value] else []
  {
  }

  lemma AnnouncementSize(result: AioResult, command: seq<char>)
    ensures Announcement(result, command).Some? ==> Announcement(result, command).value == command
  {
  }

  lemma StillNothing(a: Log, b: Log, c: Log)
    requires NothingDropped(a, b) && NothingDropped(b, c)
    ensures NothingDropped(a, c)
  {
  }

  lemma BothNothing(a: Log, b: Log, c: Log)
    ensures NothingDropped(a, b) && NothingDropped(b, c) ==> NothingDropped(a, c)
  {
    if NothingDropped(a, b) && NothingDropped(b, c) { StillNothing(a, b, c); }
  }

  lemma AfterDropping(a: Log, b: Log, c: Log)
    ensures BufferDropped(a, b) && NothingDropped(b, c) ==> BufferDropped(a, c)
  {
  }

  datatype Event =
    | Command(data: seq<char>, owned: bool, sys: System)
    | OpenTimer(result: OpenResult, sys: System)
    | Writable(write: nat -> WriteResult)
    | AioDone(aio: AioResult, stamp: seq<char>, sys: System, sys': System)

  ghost predicate AllDone(write: nat -> WriteResult) {
    forall k :: write(k) == Done
  }

  /** Every dump that the event may lead to can be requested, and one that has ended is complete. */
  predicate Smooth(e: Event) {
    match e
    case Command(_, _, sys) => sys.dump.Requested?
    case OpenTimer(_, sys) => sys.dump.Requested?
    case Writable(_) => true
    case AioDone(aio, _, sys, sys') => aio.Complete? && sys.dump.Requested? && sys'.dump.Requested?
  }

  predicate EndsBadly(e: Event) {
    e.AioDone? && !e.aio.Complete?
  }

  /** How many requests end badly. */
  ghost function BadEnds(events: seq<Event>): nat
    decreases |events|
  {
    if events == [] then 0 else BadEnds(events[..|events| - 1]) + if EndsBadly(events[|events| - 1]) then 1 else 0
  }

  function Bytes(output: Option<seq<char>>): seq<char> {
    if output.Some? then output.value else []
  }

  /** Only a complete dump that could be closed is announced. */
  function Announcement(result: AioResult, command: seq<char>): Option<seq<char>> {
    if result == Complete(true) then Some(command) else None
  }

  ghost function Just(command: Option<seq<char>>): seq<seq<char>> {
    if command.Some? then [command.value] else []
  }

  /** make_process_file_command, with the time given as digits */
  function ProcessFileCommand(stamp: seq<char>, file: seq<char>): seq<char> {
    "[" + stamp + "] PROCESS_FILE;" + file + ";1\n"
  }

  class Fifo {
    const pipeBuf: nat
    const maxQueueSize: nat

    var fd: int
    var output: Option<seq<char>>
    const outputBuffer: Buffer
    var dumpFd: int
    var dumpFile: Option<seq<char>>
    var aioBuf: Option<seq<char>>      // what the outstanding request is to write
    var openActive: bool
    var writeActive: bool
    var asyncActive: bool

    ghost var writes: seq<seq<char>>   // what the pipe got, by call of write()
    ghost var dumps: seq<seq<char>>    // the contents of the complete dump files
    ghost var openDumps: nat           // number of open descriptors of dump files
    ghost var failures: nat            // asynchronous requests that failed
    ghost var log: Log

    predicate BuffersEmpty()
      reads this`output, outputBuffer`size
    {
      output == None && outputBuffer.size == 0
    }

    predicate ExceedPipeSize()
      reads this`output, outputBuffer`size
    {
      |Bytes(output)| > pipeBuf || outputBuffer.size > pipeBuf
    }

    ghost predicate Owns()
      reads outputBuffer, outputBuffer.repr
    {
      && outputBuffer.Valid() && outputBuffer.OffsetsOk() && outputBuffer.size == |outputBuffer.Contents()|
      && this !in outputBuffer.repr
    }

    /** Conservation: every command ever accepted is in exactly one place, and the bytes there are its bytes. */
    ghost predicate Accounts()
      requires outputBuffer.OffsetsOk()
      reads this`log, this`writes, this`dumps, this`output, this`aioBuf,
        outputBuffer`bytes, outputBuffer`startOffset, outputBuffer`endOffset
    {
      Books(log, writes, dumps, Bytes(output), outputBuffer.Contents(), aioBuf)
    }

    /** Atomicity, and one asynchronous request at a time. */
    ghost predicate Requests()
      reads this`writes, this`asyncActive, this`aioBuf, this`dumpFd, this`dumpFile, this`openDumps, this`failures
    {
      && (forall k | 0 <= k < |writes| :: |writes[k]| <= pipeBuf)
      && (asyncActive <==> aioBuf.Some?)
      && (asyncActive ==> dumpFile.Some?)
      && openDumps == failures + if asyncActive then 1 else 0
    }

    /** What holds of the watchers even before dispatch_data has been called. */
    ghost predicate Undispatched()
      reads this`fd, this`openActive, this`writeActive, this`output, outputBuffer`size
    {
      && fd >= -1
      && (fd == -1 <==> openActive)
      && (writeActive ==> fd != -1)
    }

    /** Never stuck: data that is waiting has a watcher that will get it out. */
    ghost predicate NeverStuck()
      reads this`fd, this`openActive, this`writeActive, this`asyncActive, this`output, outputBuffer`size
    {
      && WriterOk()
      && (fd != -1 && ExceedPipeSize() ==> asyncActive)
    }

    /** The write watcher is active when there is something to write directly, and not when there is too much of it. */
    ghost predicate WriterOk()
      reads this`fd, this`openActive, this`writeActive, this`output, outputBuffer`size
    {
      && Undispatched()
      && (writeActive ==> !ExceedPipeSize())
      && (fd != -1 && !BuffersEmpty() && !ExceedPipeSize() ==> writeActive)
    }

    ghost predicate Consistent()
      reads this, outputBuffer, outputBuffer.repr
    {
      Owns() && Accounts() && Requests() && Undispatched()
    }

    ghost predicate Valid()
      reads this, outputBuffer, outputBuffer.repr
    {
      Owns() && Accounts() && Requests() && NeverStuck()
    }

    /** fifo_start */
    constructor (pipeBuf: nat, maxQueueSize: nat, result: OpenResult, sys: System)
      ensures Valid() && log == [] && outputBuffer.repr == {} && fresh(outputBuffer)
      ensures this.pipeBuf == pipeBuf && this.maxQueueSize == maxQueueSize
      ensures fd == (if result.Opened? then result.fd else -1) && writes == [] && dumps == [] && failures == 0
    {
      this.pipeBuf, this.maxQueueSize := pipeBuf, maxQueueSize;
      var buffer := new Buffer();
      outputBuffer := buffer;
      fd, output, dumpFd, dumpFile, aioBuf := -1, None, -1, None, None;
      openActive, writeActive, asyncActive := false, false, false;
      writes, dumps, openDumps, failures, log := [], [], 0, 0, [];
      new;
      outputBuffer.Sized();
      EmptyIsOk();
      hide *;
      OpenCb(result, sys);
    }

    lemma EmptyIsOk()
      requires outputBuffer.Valid() && outputBuffer.OffsetsOk() && outputBuffer.Contents() == []
      requires outputBuffer.size == 0 && this !in outputBuffer.repr
      requires fd == -1 && output == None && aioBuf == None && !writeActive && !asyncActive
      requires writes == [] && dumps == [] && openDumps == 0 && failures == 0 && log == []
      ensures Owns() && Accounts() && Requests() && !ExceedPipeSize()
    {
      EmptyBooks();
      hide Books, Buffer.Valid, Buffer.Contents, Buffer.OffsetsOk;
    }

    // ----- The output block -----

    /** free_output after a successful write() */
    method OutputWritten()
      requires Owns() && Accounts() && Requests() && |Bytes(output)| <= pipeBuf
      modifies this`output, this`writes, this`log
      ensures Owns() && Accounts() && Requests() && output == None
      ensures writes == old(writes) + [Bytes(old(output))]
      ensures Texts(log) == Texts(old(log)) && NothingDropped(old(log), log)
    {
      hide Books, Gather, Buffer.Valid, Buffer.Contents, Buffer.OffsetsOk, Texts, NothingDropped;
      Write(log, writes, dumps, Bytes(output), outputBuffer.Contents(), aioBuf);
      log := Move(log, Output, Piped(|writes|));
      writes := writes + [Bytes(output)];
      output := None;
    }

    /** free_output of what could not be dumped */
    method OutputDropped()
      requires Owns() && Accounts()
      modifies this`output, this`log
      ensures Owns() && Accounts() && output == None
      ensures Texts(log) == Texts(old(log))
    {
      hide Books, Gather, Buffer.Valid, Buffer.Contents, Buffer.OffsetsOk, Texts, NothingDropped;
      Drop(log, writes, dumps, Bytes(output), outputBuffer.Contents(), aioBuf, Output);
      log := Move(log, Output, Dropped);
      output := None;
    }

    /** The slurp in write_cb. */
    method TakeBuffer()
      requires Owns() && Accounts() && output == None
      modifies this`output, this`log, outputBuffer
      ensures Owns() && Accounts() && output.Some? && outputBuffer.size == 0 && |output.value| == old(outputBuffer.size)
      ensures output.value == old(outputBuffer.Contents())
      ensures Texts(log) == Texts(old(log)) && NothingDropped(old(log), log)
      ensures outputBuffer.repr <= old(outputBuffer.repr)
    {
      hide Books, Gather, Buffer.Valid, Buffer.Contents, Buffer.OffsetsOk, Texts, NothingDropped;
      Join(log, writes, dumps, Bytes(output), outputBuffer.Contents(), aioBuf);
      var data, got := outputBuffer.Slurp();
      outputBuffer.Sized();
      output := Some(data[..got]);
      log := Move(log, Buffered, Output);
      assert [] + data[..got] == data[..got];
    }

    /** buffer_read of everything into memory of its own */
    method DrainBuffer() returns (data: seq<char>)
      requires Owns()
      modifies outputBuffer
      ensures Owns() && outputBuffer.size == 0 && outputBuffer.Contents() == []
      ensures data == old(outputBuffer.Contents()) && outputBuffer.repr <= old(outputBuffer.repr)
    {
      hide Buffer.Valid, Buffer.Contents, Buffer.OffsetsOk;
      var space := new char[outputBuffer.size];
      var got := outputBuffer.Read(space, outputBuffer.size);
      outputBuffer.Sized();
      data := space[..got];
    }

    /** join_buffers */
    method JoinBuffers()
      requires Owns() && Accounts()
      modifies this`output, this`log, outputBuffer
      ensures Owns() && Accounts() && outputBuffer.size == 0
      ensures Bytes(output) == old(Bytes(output) + outputBuffer.Contents())
      ensures old(!BuffersEmpty()) ==> output.Some?
      ensures Texts(log) == Texts(old(log)) && NothingDropped(old(log), log)
      ensures outputBuffer.repr <= old(outputBuffer.repr)
    {
      NothingYet(log);
      if outputBuffer.size == 0 {
        return;
      }
      hide Books, Gather, Buffer.Valid, Buffer.Contents, Buffer.OffsetsOk, Texts, NothingDropped;
      Join(log, writes, dumps, Bytes(output), outputBuffer.Contents(), aioBuf);
      var data := DrainBuffer();
      output := Some(Bytes(output) + data);
      log := Move(log, Buffered, Output);
    }

    // ----- Callbacks -----

    /** What the next write() will be called with: the output block, or what is in the buffer. */
    ghost function First(): seq<char>
      requires outputBuffer.OffsetsOk()
      reads this`output, outputBuffer`bytes, outputBuffer`startOffset, outputBuffer`endOffset
    {
      if output.Some? then output.value else outputBuffer.Contents()
    }

    /** write_cb */
    method WriteCb(write: nat -> WriteResult)
      requires Consistent() && fd != -1 && writeActive && !ExceedPipeSize()
      modifies this`fd, this`output, this`openActive, this`writeActive, this`writes, this`log, outputBuffer
      ensures Valid() && outputBuffer.repr <= old(outputBuffer.repr)
      ensures old(writes) <= writes && Texts(log) == Texts(old(log)) && NothingDropped(old(log), log)
      ensures write(0) == Done ==> old(writes) + [old(First())] <= writes
      ensures write(0) == Again || write(0) == Interrupted ==> writes == old(writes) && fd == old(fd) && writeActive
      ensures write(0) == Failed ==> writes == old(writes) && fd == -1 && openActive && !writeActive
      ensures AllDone(write) && old(output) != Some([]) ==>
        output == None && outputBuffer.size == 0 && !writeActive
      ensures fd == old(fd) || (fd == -1 && exists k :: write(k) == Failed)
    {
      var i: nat, more := 0, true;
      NothingYet(log);
      hide Books, Gather, Buffer.Valid, Buffer.Contents, Buffer.OffsetsOk, Texts, NothingDropped, Consistent,
        NeverStuck, Undispatched, Accounts, Requests;
      while more
        invariant if more then Consistent() && fd != -1 && writeActive && !ExceedPipeSize() else Valid()
        invariant outputBuffer.repr <= old(outputBuffer.repr)
        invariant old(writes) <= writes && Texts(log) == Texts(old(log)) && NothingDropped(old(log), log)
        invariant i == 0 ==> more && writes == old(writes) && output == old(output) && First() == old(First())
        invariant if more then fd == old(fd) else fd == old(fd) || (fd == -1 && exists k :: write(k) == Failed)
        invariant i > 0 && write(0) == Done ==> old(writes) + [old(First())] <= writes
        invariant i > 0 && write(0) != Done ==> !more && writes == old(writes)
        invariant i > 0 && (write(0) == Again || write(0) == Interrupted) ==> fd == old(fd) && writeActive
        invariant i > 0 && write(0) == Failed ==> fd == -1 && openActive && !writeActive
        invariant AllDone(write) && i > 0 ==> output == None
        invariant AllDone(write) && old(output) != Some([]) ==> more || (outputBuffer.size == 0 && !writeActive)
        decreases more, outputBuffer.size + if output.Some? then 1 else 0
      {
        ghost var before := log;
        more := WriteOnce(write(i));
        StillNothing(old(log), before, log);
        i := i + 1;
      }
    }

    /** One turn of the loop in write_cb; `more` is its condition. */
    method WriteOnce(result: WriteResult) returns (more: bool)
      requires Consistent() && fd != -1 && writeActive && !ExceedPipeSize()
      modifies this`fd, this`output, this`openActive, this`writeActive, this`writes, this`log, outputBuffer
      ensures if more then Consistent() && fd != -1 && writeActive && !ExceedPipeSize() else Valid()
      ensures outputBuffer.repr <= old(outputBuffer.repr)
      ensures old(writes) <= writes && Texts(log) == Texts(old(log)) && NothingDropped(old(log), log)
      ensures match result
              case Done =>
                && writes == old(writes) + [old(First())] && output == None && fd == old(fd)
                && (more <==> |old(First())| > 0 && outputBuffer.size > 0)
                && (outputBuffer.size == 0 ==> !writeActive)
              case Failed => !more && writes == old(writes) && fd == -1 && openActive && !writeActive
              case _ => !more && writes == old(writes) && fd == old(fd) && writeActive
      ensures old(output) == None && old(outputBuffer.size) == 0 ==> outputBuffer.size == 0
      ensures more ==>
        outputBuffer.size + (if output.Some? then 1 else 0) < old(outputBuffer.size + if output.Some? then 1 else 0)
    {
      hide Books, Gather, Buffer.Valid, Buffer.Contents, Buffer.OffsetsOk, Texts, NothingDropped, Accounts, Requests;
      FillOutput();
      more := false;
      match result {
        case Again =>
        case Interrupted =>
        case Failed =>
          fd, writeActive, openActive := -1, false, true;
        case Done =>
          ghost var before := log;
          var n := |output.value|;
          OutputWritten();
          StillNothing(old(log), before, log);
          if outputBuffer.size == 0 {
            writeActive := false;
          }
          more := n > 0 && outputBuffer.size > 0;
      }
    }

    /** The output block is taken from the buffer if there is none. */
    method FillOutput()
      requires Owns() && Accounts() && !ExceedPipeSize()
      modifies this`output, this`log, outputBuffer
      ensures Owns() && Accounts() && !ExceedPipeSize() && output.Some?
      ensures Texts(log) == Texts(old(log)) && NothingDropped(old(log), log)
      ensures outputBuffer.repr <= old(outputBuffer.repr)
      ensures old(output.Some?) ==> output == old(output) && outputBuffer.size == old(outputBuffer.size)
      ensures old(output.None?) ==> outputBuffer.size == 0
      ensures output.value == old(First())
    {
      NothingYet(log);
      hide Books, Gather, Buffer.Valid, Buffer.Contents, Buffer.OffsetsOk, Texts, NothingDropped;
      if output == None {
        TakeBuffer();
      }
    }

    /** async_dump_data */
    method AsyncDumpData(dump: DumpResult, file: seq<char>)
      requires Consistent() && !asyncActive && !writeActive && !BuffersEmpty()
      modifies this`output, this`dumpFd, this`dumpFile, this`aioBuf, this`asyncActive, this`openDumps, this`log,
        outputBuffer
      ensures Consistent() && BuffersEmpty() && !writeActive
      ensures asyncActive <==> dump.Requested?
      ensures outputBuffer.repr <= old(outputBuffer.repr)
      ensures asyncActive ==>
        aioBuf == Some(old(Bytes(output) + outputBuffer.Contents())) && dumpFile == Some(file) && dumpFd == dump.fd
      ensures Texts(log) == Texts(old(log)) && (dump.Requested? ==> NothingDropped(old(log), log))
    {
      hide Books, Gather, Buffer.Valid, Buffer.Contents, Buffer.OffsetsOk, Texts, NothingDropped, Accounts, Requests;
      JoinBuffers();
      ghost var before := log;
      DumpOutput(dump, file);
      if dump.Requested? {
        StillNothing(old(log), before, log);
      }
    }

    /** What async_dump_data does with the joined output. */
    method DumpOutput(dump: DumpResult, file: seq<char>)
      requires Owns() && Accounts() && Requests() && !asyncActive && output.Some?
      modifies this`output, this`dumpFd, this`dumpFile, this`aioBuf, this`asyncActive, this`openDumps, this`log
      ensures Owns() && Accounts() && Requests() && output == None
      ensures asyncActive <==> dump.Requested?
      ensures asyncActive ==> aioBuf == old(output) && dumpFile == Some(file) && dumpFd == dump.fd
      ensures Texts(log) == Texts(old(log)) && (dump.Requested? ==> NothingDropped(old(log), log))
    {
      hide Books, Gather, Buffer.Valid, Buffer.Contents, Buffer.OffsetsOk, Texts, NothingDropped, Accounts, Requests,
        DumpFileOpen;
      var ok := OpenDumpFile(dump, file);
      if !ok {
        OutputDropped();
      } else if dump.NoRequest? {
        CloseDumpFile();
        OutputDropped();
      } else {
        OutputRequested();
      }
    }

    /** No request is outstanding, and the dump file is open. */
    ghost predicate DumpFileOpen()
      reads this`writes, this`asyncActive, this`aioBuf, this`dumpFd, this`dumpFile, this`openDumps, this`failures
    {
      && (forall k | 0 <= k < |writes| :: |writes[k]| <= pipeBuf)
      && !asyncActive && aioBuf == None && dumpFile.Some? && openDumps == failures + 1
    }

    /** open_dump_file */
    method OpenDumpFile(dump: DumpResult, file: seq<char>) returns (ok: bool)
      requires Requests() && !asyncActive
      modifies this`dumpFd, this`dumpFile, this`openDumps
      ensures ok <==> !dump.NoFile?
      ensures ok ==> DumpFileOpen() && dumpFile == Some(file) && dumpFd == dump.fd && openDumps == old(openDumps) + 1
      ensures !ok ==> Requests() && openDumps == old(openDumps) && dumpFd == -1 && dumpFile == None
    {
      ok := !dump.NoFile?;
      if ok {
        dumpFd, dumpFile, openDumps := dump.fd, Some(file), openDumps + 1;
      } else {
        dumpFd, dumpFile := -1, None;
      }
    }

    /** close_dump_file */
    method CloseDumpFile()
      requires DumpFileOpen()
      modifies this`dumpFile, this`openDumps
      ensures Requests() && !asyncActive && openDumps == old(openDumps) - 1 && dumpFile == None
    {
      openDumps := openDumps - 1;
      dumpFile := None;
    }

    /** aio_write(): the output block now belongs to the request. */
    method OutputRequested()
      requires Owns() && Accounts() && DumpFileOpen() && output.Some?
      modifies this`output, this`aioBuf, this`asyncActive, this`log
      ensures Owns() && Accounts() && Requests() && asyncActive && output == None && aioBuf == old(output)
      ensures Texts(log) == Texts(old(log)) && NothingDropped(old(log), log)
    {
      hide Books, Gather, Buffer.Valid, Buffer.Contents, Buffer.OffsetsOk, Texts, NothingDropped;
      Request(log, writes, dumps, Bytes(output), outputBuffer.Contents());
      log := Move(log, Output, InAio);
      aioBuf, asyncActive := output, true;
      output := None;
    }

    /** dispatch_data */
    method DispatchData(sys: System)
      requires Consistent()
      modifies this`fd, this`output, this`dumpFd, this`dumpFile, this`aioBuf, this`openActive, this`writeActive,
        this`asyncActive, this`writes, this`openDumps, this`log, outputBuffer
      ensures Valid() && outputBuffer.repr <= old(outputBuffer.repr)
      ensures old(asyncActive) ==> RequestUntouched(old(aioBuf), old(dumpFd), old(dumpFile))
      ensures old(writes) <= writes && Texts(log) == Texts(old(log))
      ensures sys.dump.Requested? || old(asyncActive || !ExceedPipeSize()) ==> NothingDropped(old(log), log)
      ensures fd == old(fd) || (fd == -1 && exists k :: sys.write(k) == Failed)
      ensures old(fd == -1 || (ExceedPipeSize() && asyncActive) || (!ExceedPipeSize() && writeActive)) ==>
        writes == old(writes) && log == old(log) && output == old(output) && asyncActive == old(asyncActive)
      ensures old(fd != -1 && |Bytes(output)| <= pipeBuf && outputBuffer.size <= pipeBuf && !writeActive)
              && old(output) != Some([]) && AllDone(sys.write) ==>
        output == None && outputBuffer.size == 0
      ensures old(fd != -1 && (|Bytes(output)| > pipeBuf || outputBuffer.size > pipeBuf) && !asyncActive)
              && sys.dump.Requested? ==>
        && asyncActive && aioBuf == Some(old(Bytes(output) + outputBuffer.Contents()))
        && output == None && outputBuffer.size == 0 && dumpFile == Some(sys.dumpFile) && dumpFd == sys.dump.fd
    {
      NothingYet(log);
      hide Books, Gather, Buffer.Valid, Buffer.Contents, Buffer.OffsetsOk, Texts, NothingDropped, Accounts, Requests;
      if fd == -1 {
        return;
      }
      if !ExceedPipeSize() {
        if !writeActive {
          writeActive := true;
          WriteCb(sys.write);
        }
      } else {
        writeActive := false;
        if !asyncActive {
          AsyncDumpData(sys.dump, sys.dumpFile);
        }
      }
    }

    ghost predicate RequestUntouched(buf: Option<seq<char>>, file: int, name: Option<seq<char>>)
      reads this`asyncActive, this`aioBuf, this`dumpFd, this`dumpFile
    {
      asyncActive && aioBuf == buf && dumpFd == file && dumpFile == name
    }

    /** The command goes to the output block, without being copied. */
    method AcceptOutput(data: seq<char>)
      requires Owns() && Accounts() && BuffersEmpty()
      modifies this`output, this`log
      ensures Owns() && Accounts() && output == Some(data)
      ensures Texts(log) == Texts(old(log)) + [data] && NothingDropped(old(log), log)
    {
      Join(log, writes, dumps, Bytes(output), outputBuffer.Contents(), aioBuf);
      ghost var joined := Move(log, Buffered, Output);
      Accept(joined, writes, dumps, [], [], aioBuf, data);
      TextsAccept(joined, data);
      log := joined + [Entry(data, Output)];
      output := Some(data);
      assert [] + data == data;
    }

    /** The command goes to the buffer. */
    method AcceptBuffered(data: seq<char>)
      requires Owns() && Accounts()
      modifies this`log, outputBuffer, outputBuffer.repr
      ensures Owns() && Accounts() && fresh(outputBuffer.repr - old(outputBuffer.repr))
      ensures Texts(log) == Texts(old(log)) + [data] && NothingDropped(old(log), log)
    {
      Accept(log, writes, dumps, Bytes(output), outputBuffer.Contents(), aioBuf, data);
      TextsAccept(log, data);
      hide Books, Gather, Buffer.Valid, Buffer.Contents, Buffer.OffsetsOk, Texts, NothingDropped;
      outputBuffer.Append(data);
      outputBuffer.Sized();
      log := log + [Entry(data, Buffered)];
    }

    /** Too much is queued: the buffer is replaced by an empty one. */
    method DropBuffer()
      requires Owns() && Accounts()
      modifies this`log, outputBuffer
      ensures Owns() && Accounts() && outputBuffer.repr == {} && outputBuffer.size == 0
      ensures Texts(log) == Texts(old(log)) && BufferDropped(old(log), log)
    {
      Drop(log, writes, dumps, Bytes(output), outputBuffer.Contents(), aioBuf, Buffered);
      hide Books, Gather, Buffer.Valid, Buffer.Contents, Buffer.OffsetsOk, Texts, NothingDropped;
      log := Move(log, Buffered, Dropped);
      outputBuffer.Renew();
      outputBuffer.Sized();
    }

    /** fifo_write; `owned` says that the caller gives the memory away. */
    method FifoWrite(data: seq<char>, owned: bool, sys: System)
      requires Consistent()
      modifies this`fd, this`output, this`dumpFd, this`dumpFile, this`aioBuf, this`openActive, this`writeActive,
        this`asyncActive, this`writes, this`openDumps, this`log, outputBuffer, outputBuffer.repr
      ensures Valid() && fresh(outputBuffer.repr - old(outputBuffer.repr))
      ensures old(asyncActive) ==> RequestUntouched(old(aioBuf), old(dumpFd), old(dumpFile))
      ensures old(writes) <= writes && Texts(log) == Texts(old(log)) + [data]
      ensures sys.dump.Requested? ==>
        if maxQueueSize == 0 || old(outputBuffer.size) + |data| <= maxQueueSize
           || (owned && old(output) == None && old(outputBuffer.size) == 0)
        then NothingDropped(old(log), log) else BufferDropped(old(log), log)
    {
      NothingYet(log);
      hide Books, Gather, Buffer.Valid, Buffer.Contents, Buffer.OffsetsOk, Texts, NothingDropped, Accounts, Requests,
        BufferDropped;
      ghost var log0, log1, log2 := log, log, log;
      if BuffersEmpty() && owned {
        AcceptOutput(data);
      } else {
        if maxQueueSize > 0 && outputBuffer.size + |data| > maxQueueSize {
          DropBuffer();
        }
        log1 := log;
        AcceptBuffered(data);
      }
      log2 := log;
      DispatchData(sys);
      BothNothing(log1, log2, log);
      AfterDropping(log0, log1, log);
    }

    /** open_cb: the one-shot timer that led here has been stopped by the event loop. */
    method OpenCb(result: OpenResult, sys: System)
      requires Owns() && Accounts() && Requests() && fd == -1 && !openActive && !writeActive
      modifies this`fd, this`output, this`dumpFd, this`dumpFile, this`aioBuf, this`openActive, this`writeActive,
        this`asyncActive, this`writes, this`openDumps, this`log, outputBuffer
      ensures Valid() && outputBuffer.repr <= old(outputBuffer.repr)
      ensures old(asyncActive) ==> RequestUntouched(old(aioBuf), old(dumpFd), old(dumpFile))
      ensures old(writes) <= writes && Texts(log) == Texts(old(log))
      ensures sys.dump.Requested? || old(asyncActive || !ExceedPipeSize()) ==> NothingDropped(old(log), log)
      ensures result.NotOpened? ==> fd == -1 && writes == old(writes) && log == old(log)
      ensures result.Opened? ==> fd == result.fd || (fd == -1 && exists k :: sys.write(k) == Failed)
      ensures old(output == None && outputBuffer.size == 0) ==>
        writes == old(writes) && log == old(log) && fd == if result.Opened? then result.fd else -1
      ensures result.Opened? && old(!ExceedPipeSize() && output != Some([])) && AllDone(sys.write) ==>
        output == None && outputBuffer.size == 0
    {
      NothingYet(log);
      hide Books, Gather, Buffer.Valid, Buffer.Contents, Buffer.OffsetsOk, Texts, NothingDropped, Accounts, Requests;
      match result {
        case Opened(n) =>
          fd := n;
          if !BuffersEmpty() {
            DispatchData(sys);
          }
        case NotOpened =>
      }
      if fd == -1 {
        openActive := true;
      }
    }

    /** The request is over: its memory is freed, and the file of a complete dump is closed. */
    method RequestOver(result: AioResult)
      requires Owns() && Accounts() && Requests() && asyncActive
      modifies this`aioBuf, this`asyncActive, this`dumpFile, this`openDumps, this`dumps, this`failures, this`log
      ensures Owns() && Accounts() && Requests() && !asyncActive
      ensures failures == old(failures) + if result.Complete? then 0 else 1
      ensures dumps == old(dumps) + if result.Complete? then [old(aioBuf).value] else []
      ensures Texts(log) == Texts(old(log)) && (result.Complete? ==> NothingDropped(old(log), log))
    {
      hide Books, Gather, Buffer.Valid, Buffer.Contents, Buffer.OffsetsOk, Texts, NothingDropped;
      if result.Complete? {
        CommandLog.Complete(log, writes, dumps, Bytes(output), outputBuffer.Contents(), aioBuf.value);
        log := Move(log, InAio, Dumped(|dumps|));
        dumps := dumps + [aioBuf.value];
        asyncActive, aioBuf := false, None;
        CloseDumpFile();
      } else {
        Drop(log, writes, dumps, Bytes(output), outputBuffer.Contents(), aioBuf, InAio);
        log := Move(log, InAio, Dropped);
        failures := failures + 1;
        asyncActive, aioBuf := false, None;
      }
    }

    /**
      async_cb. Only a complete dump is announced, with a command naming its file. After
      a failed request the dump file is not closed: `Requests` counts one descriptor
      left open for every failure.
     */
    method AsyncCb(result: AioResult, stamp: seq<char>, sys: System, sys': System)
      requires Valid() && asyncActive
      modifies this`fd, this`output, this`dumpFd, this`dumpFile, this`aioBuf, this`openActive, this`writeActive,
        this`asyncActive, this`writes, this`dumps, this`openDumps, this`failures, this`log, outputBuffer,
        outputBuffer.repr
      ensures Valid() && fresh(outputBuffer.repr - old(outputBuffer.repr)) && old(writes) <= writes
      ensures failures == old(failures) + if result.Complete? then 0 else 1
      ensures dumps == old(dumps) + if result.Complete? then [old(aioBuf).value] else []
      ensures old(dumpFile).Some? && Texts(log) == Texts(old(log)) +
        if result == Complete(true) then ["[" + stamp + "] PROCESS_FILE;" + old(dumpFile).value + ";1\n"] else []
      ensures result.Complete? && sys.dump.Requested? && sys'.dump.Requested? && !old(AnnouncementTooBig(stamp)) ==>
        NothingDropped(old(log), log)
    {
      BeforeEnd();
      WhatIsAnnounced(result, stamp, dumpFile.value);
      hide *;
      Conclude(result, ProcessFileCommand(stamp, dumpFile.value), sys, sys');
    }

    /** The request is over, and is announced by the command if it was successful. */
    method Conclude(result: AioResult, command: seq<char>, sys: System, sys': System)
      requires Owns() && Accounts() && Requests() && WriterOk() && asyncActive
      modifies this`fd, this`output, this`dumpFd, this`dumpFile, this`aioBuf, this`openActive, this`writeActive,
        this`asyncActive, this`writes, this`dumps, this`openDumps, this`failures, this`log, outputBuffer,
        outputBuffer.repr
      ensures Valid() && fresh(outputBuffer.repr - old(outputBuffer.repr)) && old(writes) <= writes
      ensures failures == old(failures) + if result.Complete? then 0 else 1
      ensures dumps == old(dumps) + if result.Complete? then [old(aioBuf).value] else []
      ensures Texts(log) == Texts(old(log)) + Just(Announcement(result, command))
      ensures result.Complete? && sys.dump.Requested? && sys'.dump.Requested?
              && (maxQueueSize == 0 || old(outputBuffer.size) + |command| <= maxQueueSize) ==>
        NothingDropped(old(log), log)
    {
      hide *;
      NotInside();
      AnnouncementSize(result, command);
      ghost var log0 := log;
      RequestOver(result);
      ghost var log1 := log;
      EndRequest(Announcement(result, command), sys, sys');
      BothNothing(log0, log1, log);
    }

    lemma NotInside()
      requires Owns()
      ensures this !in outputBuffer.repr
    {
    }

    lemma WhatIsAnnounced(result: AioResult, stamp: seq<char>, file: seq<char>)
      ensures Just(Announcement(result, ProcessFileCommand(stamp, file)))
           == if result == Complete(true) then ["[" + stamp + "] PROCESS_FILE;" + file + ";1\n"] else []
      ensures |ProcessFileCommand(stamp, file)| == |stamp| + |file| + 19
    {
    }

    lemma BeforeEnd()
      requires Valid() && asyncActive
      ensures Owns() && Accounts() && Requests() && WriterOk() && dumpFile.Some?
    {
    }

    lemma WithoutAsync()
      requires Owns() && Accounts() && Requests() && WriterOk()
      ensures Consistent() && (!ExceedPipeSize() ==> Valid())
    {
    }

    lemma ValidIsConsistent()
      requires Valid()
      ensures Consistent() && WriterOk() && Owns() && Accounts() && Requests()
    {
    }

    /** The announcement, and what is dispatched at the end of async_cb. */
    method EndRequest(command: Option<seq<char>>, sys: System, sys': System)
      requires Owns() && Accounts() && Requests() && WriterOk() && !asyncActive
      modifies this`fd, this`output, this`dumpFd, this`dumpFile, this`aioBuf, this`openActive, this`writeActive,
        this`asyncActive, this`writes, this`openDumps, this`log, outputBuffer, outputBuffer.repr
      ensures Valid() && fresh(outputBuffer.repr - old(outputBuffer.repr)) && old(writes) <= writes
      ensures Texts(log) == Texts(old(log)) + Just(command)
      ensures command.None? && old(!ExceedPipeSize()) ==> writes == old(writes) && log == old(log)
      ensures sys.dump.Requested? && sys'.dump.Requested?
              && (command.None? || maxQueueSize == 0
                  || old(outputBuffer.size) + |command.value| <= maxQueueSize) ==>
        NothingDropped(old(log), log)
    {
      ghost var log0 := log;
      WithoutAsync();
      NothingYet(log);
      assert Texts(log) + [] == Texts(log);
      hide *;
      JustOf(command);
      if command.Some? {
        FifoWrite(command.value, true, sys);
        ValidIsConsistent();
      }
      ghost var log1 := log;
      WithoutAsync();
      if ExceedPipeSize() {
        DispatchData(sys');
        BothNothing(log0, log1, log);
      }
    }

    /** The queue has a limit that the announcement would exceed: 19 characters besides stamp and name. */
    ghost predicate AnnouncementTooBig(stamp: seq<char>)
      reads this`dumpFile, outputBuffer`size
    {
      dumpFile.Some? && maxQueueSize > 0 && outputBuffer.size + |stamp| + |dumpFile.value| + 19 > maxQueueSize
    }

    // ----- Runs -----

    /** What can happen next: the timer has to be running, the descriptor watched, the request outstanding. */
    predicate Enabled(e: Event)
      reads this`openActive, this`writeActive, this`asyncActive
    {
      match e
      case Command(_, _, _) => true
      case OpenTimer(_, _) => openActive
      case Writable(_) => writeActive
      case AioDone(_, _, _, _) => asyncActive
    }

    /** The queue has a limit that the event would exceed. */
    ghost predicate TooMuch(e: Event)
      reads this`dumpFile, outputBuffer`size
    {
      match e
      case Command(data, _, _) => maxQueueSize > 0 && outputBuffer.size + |data| > maxQueueSize
      case AioDone(_, stamp, _, _) => AnnouncementTooBig(stamp)
      case _ => false
    }

    /** What an event enters: a command, or the announcement of a complete dump that could be closed. */
    ghost function Adds(e: Event): seq<seq<char>>
      reads this`asyncActive, this`dumpFile
    {
      match e
      case Command(data, _, _) => [data]
      case AioDone(aio, stamp, _, _) =>
        if asyncActive && dumpFile.Some? && aio == Complete(true)
        then ["[" + stamp + "] PROCESS_FILE;" + dumpFile.value + ";1\n"] else []
      case _ => []
    }

    lemma WhatIsAdded(e: Event)
      ensures Entering(e, Adds(e))
      ensures !e.AioDone? ==> Adds(e) == if e.Command? then [e.data] else []
      ensures e.AioDone? && asyncActive && dumpFile.Some? ==>
        Adds(e) == if e.aio == Complete(true) then ["[" + e.stamp + "] PROCESS_FILE;" + dumpFile.value + ";1\n"] else []
      ensures e.AioDone? && !asyncActive ==> Adds(e) == [] && Texts(log) + Adds(e) == Texts(log)
    {
    }

    /** One event, if it can happen. */
    method Handle(e: Event)
      requires Valid()
      modifies this`fd, this`output, this`dumpFd, this`dumpFile, this`aioBuf, this`openActive, this`writeActive,
        this`asyncActive, this`writes, this`dumps, this`openDumps, this`failures, this`log, outputBuffer,
        outputBuffer.repr
      ensures Valid() && fresh(outputBuffer.repr - old(outputBuffer.repr))
      ensures old(writes) <= writes && Texts(log) == Texts(old(log)) + old(Adds(e))
      ensures Smooth(e) && !old(TooMuch(e)) ==> NothingDropped(old(log), log)
      ensures e.Command? && e.sys.dump.Requested? ==>
        if maxQueueSize == 0 || old(outputBuffer.size) + |e.data| <= maxQueueSize
           || (e.owned && old(output) == None && old(outputBuffer.size) == 0)
        then NothingDropped(old(log), log) else BufferDropped(old(log), log)
      ensures e.Writable? && old(writeActive) && e.write(0) == Done ==> |writes| > |old(writes)|
      ensures e.Writable? && old(writeActive) && AllDone(e.write) && old(output) != Some([]) ==>
        output == None && outputBuffer.size == 0
      ensures e.OpenTimer? && old(openActive) ==>
        if e.result.NotOpened? then fd == -1 && log == old(log) && writes == old(writes)
        else fd == e.result.fd || (fd == -1 && exists k :: e.sys.write(k) == Failed)
      ensures failures == old(failures) + if old(Enabled(e)) && EndsBadly(e) then 1 else 0
      ensures old(asyncActive) && !e.AioDone? ==> RequestUntouched(old(aioBuf), old(dumpFd), old(dumpFile))
      ensures dumps == old(dumps) + if e.AioDone? && e.aio.Complete? then Just(old(aioBuf)) else []
    {
      NothingYet(log);
      BeforeHandle();
      WhatEnabledMeans(e);
      WhatIsAdded(e);
      JustOf(aioBuf);
      hide *;
      if e.AioDone? && asyncActive {
        AsyncCb(e.aio, e.stamp, e.sys, e.sys');
      } else if !e.AioDone? {
        HandleOther(e);
      }
    }

    /** Any event but the end of the asynchronous request, which all of them leave alone. */
    method HandleOther(e: Event)
      requires Valid() && !e.AioDone?
      modifies this`fd, this`output, this`dumpFd, this`dumpFile, this`aioBuf, this`openActive, this`writeActive,
        this`asyncActive, this`writes, this`openDumps, this`log, outputBuffer, outputBuffer.repr
      ensures Valid() && fresh(outputBuffer.repr - old(outputBuffer.repr))
      ensures old(asyncActive) ==> RequestUntouched(old(aioBuf), old(dumpFd), old(dumpFile))
      ensures old(writes) <= writes
      ensures Texts(log) == Texts(old(log)) + if e.Command? then [e.data] else []
      ensures Smooth(e) && !old(TooMuch(e)) ==> NothingDropped(old(log), log)
      ensures e.Command? && e.sys.dump.Requested? ==>
        if maxQueueSize == 0 || old(outputBuffer.size) + |e.data| <= maxQueueSize
           || (e.owned && old(output) == None && old(outputBuffer.size) == 0)
        then NothingDropped(old(log), log) else BufferDropped(old(log), log)
      ensures e.Writable? && old(writeActive) && e.write(0) == Done ==> |writes| > |old(writes)|
      ensures e.Writable? && old(writeActive) && AllDone(e.write) && old(output) != Some([]) ==>
        output == None && outputBuffer.size == 0
      ensures e.OpenTimer? && old(openActive) ==>
        if e.result.NotOpened? then fd == -1 && log == old(log) && writes == old(writes)
        else fd == e.result.fd || (fd == -1 && exists k :: e.sys.write(k) == Failed)
    {
      NothingYet(log);
      BeforeHandle();
      WhatEnabledMeans(e);
      Untouched();
      hide *;
      match e {
        case Command(data, owned, sys) =>
          FifoWrite(data, owned, sys);
        case OpenTimer(result, sys) =>
          if openActive {
            TimerFired(result, sys);
          }
        case Writable(write) =>
          if writeActive {
            WriteCb(write);
            Untouched();
          }
      }
    }

    lemma Untouched()
      ensures asyncActive ==> RequestUntouched(aioBuf, dumpFd, dumpFile)
    {
    }

    lemma BeforeHandle()
      requires Valid()
      ensures Consistent() && Owns() && Accounts() && Requests() && (writeActive ==> fd != -1 && !ExceedPipeSize())
      ensures asyncActive <==> aioBuf.Some?
    {
    }

    lemma WhatEnabledMeans(e: Event)
      ensures e.OpenTimer? ==> (Enabled(e) <==> openActive)
      ensures e.Writable? ==> (Enabled(e) <==> writeActive)
      ensures e.AioDone? ==> (Enabled(e) <==> asyncActive)
      ensures e.Command? ==> Enabled(e)
      ensures EndsBadly(e) <==> e.AioDone? && !e.aio.Complete?
      ensures e.Command? && !TooMuch(e) ==> maxQueueSize == 0 || outputBuffer.size + |e.data| <= maxQueueSize
      ensures e.AioDone? && !TooMuch(e) ==> !AnnouncementTooBig(e.stamp)
      ensures Smooth(e) && !e.Writable? ==> e.sys.dump.Requested?
      ensures Smooth(e) && e.AioDone? ==> e.aio.Complete? && e.sys'.dump.Requested?
    {
    }

    /** The timer of open_cb. */
    method TimerFired(result: OpenResult, sys: System)
      requires Valid() && openActive
      modifies this`fd, this`output, this`dumpFd, this`dumpFile, this`aioBuf, this`openActive, this`writeActive,
        this`asyncActive, this`writes, this`openDumps, this`log, outputBuffer
      ensures Valid() && outputBuffer.repr <= old(outputBuffer.repr)
      ensures old(asyncActive) ==> RequestUntouched(old(aioBuf), old(dumpFd), old(dumpFile))
      ensures old(writes) <= writes && Texts(log) == Texts(old(log))
      ensures sys.dump.Requested? ==> NothingDropped(old(log), log)
      ensures if result.NotOpened? then fd == -1 && log == old(log) && writes == old(writes)
              else fd == result.fd || (fd == -1 && exists k :: sys.write(k) == Failed)
    {
      hide *;
      TimerStopped();
      OpenCb(result, sys);
    }

    /** The event loop stops a one-shot timer before its callback. */
    method TimerStopped()
      requires Valid() && openActive
      modifies this`openActive
      ensures Owns() && Accounts() && Requests() && fd == -1 && !openActive && !writeActive
    {
      hide Accounts, Requests, Buffer.Valid, Buffer.Contents;
      openActive := false;
    }

    /**
      Any run: whatever happens in whatever order, every command is accepted, and so are
      the announcements of complete dumps; nothing is lost or duplicated, writes are
      atomic, nothing gets stuck, and the pipe carries whole commands in order.
     */
    method Run(events: seq<Event>) returns (ghost added: seq<seq<seq<char>>>)
      requires Valid()
      modifies this`fd, this`output, this`dumpFd, this`dumpFile, this`aioBuf, this`openActive, this`writeActive,
        this`asyncActive, this`writes, this`dumps, this`openDumps, this`failures, this`log, outputBuffer,
        outputBuffer.repr
      ensures Valid()
      ensures old(writes) <= writes && Entered(Texts(old(log)), events, added, Texts(log))
      ensures Stream(writes) == Written(log, |writes|)
      ensures maxQueueSize == 0 && AllSmooth(events) ==> NothingDropped(old(log), log)
      ensures old(failures) <= failures <= old(failures) + BadEnds(events)
    {
      ghost var log0, writes0, failures0 := log, writes, failures;
      added := [];
      NoEvents(events, log, writes, failures, maxQueueSize);
      NothingEntered(Texts(log), events);
      hide *;
      for i := 0 to |events|
        invariant Valid() && fresh(outputBuffer.repr - old(outputBuffer.repr))
        invariant Since(log0, writes0, failures0, events[..i], log, writes, failures, maxQueueSize)
        invariant Entered(Texts(log0), events[..i], added, Texts(log))
      {
        added := HandleNext(log0, writes0, failures0, events, i, added);
      }
      SinceAll(log0, writes0, failures0, events, log, writes, failures, maxQueueSize);
      AllEntered(Texts(log0), events, added, Texts(log));
      PipeIsOrdered();
    }

    method HandleNext(ghost log0: Log, ghost writes0: seq<seq<char>>, ghost failures0: nat, events: seq<Event>, i: nat,
                      ghost added: seq<seq<seq<char>>>)
      returns (ghost added': seq<seq<seq<char>>>)
      requires Valid() && i < |events|
      requires Since(log0, writes0, failures0, events[..i], log, writes, failures, maxQueueSize)
      requires Entered(Texts(log0), events[..i], added, Texts(log))
      modifies this`fd, this`output, this`dumpFd, this`dumpFile, this`aioBuf, this`openActive, this`writeActive,
        this`asyncActive, this`writes, this`dumps, this`openDumps, this`failures, this`log, outputBuffer,
        outputBuffer.repr
      ensures Valid() && fresh(outputBuffer.repr - old(outputBuffer.repr))
      ensures Since(log0, writes0, failures0, events[..i + 1], log, writes, failures, maxQueueSize)
      ensures Entered(Texts(log0), events[..i + 1], added', Texts(log))
    {
      ghost var log1, writes1, failures1, more := log, writes, failures, Adds(events[i]);
      NoLimit(events[i]);
      WhatIsAdded(events[i]);
      hide *;
      Handle(events[i]);
      OneMoreEvent(log0, writes0, failures0, events, i, log1, writes1, failures1, log, writes, failures, maxQueueSize);
      OneMoreEntered(Texts(log0), events, i, added, Texts(log1), more, Texts(log));
      added' := added + [more];
    }

    lemma NoLimit(e: Event)
      ensures maxQueueSize == 0 ==> !TooMuch(e)
    {
    }

    lemma PipeIsOrdered()
      requires Valid()
      ensures Stream(writes) == Written(log, |writes|)
    {
      PipeCarriesWholeCommands(log, writes, dumps, Bytes(output), outputBuffer.Contents(), aioBuf);
    }
  }

  lemma EmptyBooks()
    ensures Books([], [], [], [], [], None) && Texts([]) == []
  {
  }

  lemma TextsAccept(log: Log, data: seq<char>)
    ensures forall p | p != Dropped ::
      Texts(log + [Entry(data, p)]) == Texts(log) + [data] && NothingDropped(log, log + [Entry(data, p)])
  {
  }
}
