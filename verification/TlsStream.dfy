/**
  The stream layer on top of the TLS library: order-preserving partial writes and the
  shutdown that waits for them, and reading by lines or by a number of bytes.
 */
module TlsStream {
  import opened ByteBuffer
  import opened Options
  import opened Sequences
  import opened Text

  /** SSL_write(): it took at most so many bytes, it wants to be called again, or the connection failed. */
  datatype WriteResult = Took(n: nat) | WriteAgain | WriteFailed

  /** The arguments of a call that has to be repeated. */
  datatype Call = Call(a: array<char>, offset: nat, n: nat)

  /** handle_timeout of the server, or default_timeout_handler */
  datatype TimeoutHandler = Bail | Free

  /** What the server does to the sending half of a connection. */
  datatype OutputEvent =
    | Respond(text: seq<char>)
    | SendOwned(data: array<char>, size: nat)
    | Leave                                     // tls_shutdown after the client's QUIT or BAIL
    | Reject(message: seq<char>)                // bail
    | Writable(results: nat -> WriteResult)
    | TimedOut(expired: bool)

  /** What has been queued and taken so far, and whether the TLS shutdown has been started. */
  datatype Moment = Moment(queued: seq<char>, accepted: seq<char>, started: bool)

  /** Both only grow; the shutdown, once started, stays so, and starts when all that is queued has been taken. */
  ghost predicate Follows(a: Moment, b: Moment) {
    && a.queued <= b.queued && a.accepted <= b.accepted && b.accepted <= b.queued
    && (a.started ==> b.started) && (b.started && !a.started ==> b.accepted == b.queued)
  }

  /** What has been queued before and after an event. */
  ghost predicate Queues(e: OutputEvent, before: seq<char>, after: seq<char>)
    reads if e.SendOwned? then {e.data} else {}
  {
    match e
    case Respond(text) => after == before + (text + "\r\n")
    case SendOwned(data, size) => size <= data.Length && after == before + data[..size]
    case Reject(message) => after == before + ("BAIL " + message + "\r\n")
    case TimedOut(expired) => after == before || (expired && after == before + "BAIL Connection timed out\r\n")
    case _ => after == before
  }

  ghost predicate Orderly(moments: seq<Moment>) {
    |moments| > 0 && forall i | 0 < i < |moments| :: Follows(moments[i - 1], moments[i])
  }

  lemma OneMoreMoment(moments: seq<Moment>, b: Moment)
    requires Orderly(moments) && Follows(moments[|moments| - 1], b)
    ensures Orderly(moments + [b]) && (moments + [b])[0] == moments[0]
  {
    hide Follows;
  }

  /** The memory that is given away is not part of the buffer. */
  ghost predicate Given(e: OutputEvent, repr: set<object>) {
    e.SendOwned? ==> e.size <= e.data.Length && e.data !in repr
  }

  ghost predicate AllGiven(events: seq<OutputEvent>, repr: set<object>) {
    forall i | 0 <= i < |events| :: Given(events[i], repr)
  }

  const TIMEOUT_MESSAGE := "Connection timed out"

  ghost function BailLine(message: seq<char>): seq<char> {
    "BAIL " + message + LINE_TERMINATOR
  }

  lemma FarewellText()
    ensures BailLine(TIMEOUT_MESSAGE) == "BAIL Connection timed out\r\n"
  {
  }

  lemma BailText(before: seq<char>, message: seq<char>)
    ensures before + "BAIL " + message + LINE_TERMINATOR == before + BailLine(message)
  {
    Flattened(before, "BAIL ", message, LINE_TERMINATOR);
  }

  lemma Flattened(a: seq<char>, b: seq<char>, c: seq<char>, d: seq<char>)
    ensures a + b + c + d == a + (b + c + d)
  {
  }

  /** Taking n bytes from the front of the block keeps everything in order. */
  lemma Advanced(accepted: seq<char>, block: seq<char>, n: nat, rest: seq<char>)
    requires n <= |block|
    ensures accepted + block + rest == accepted + block[..n] + block[n..] + rest
  {
    assert block == block[..n] + block[n..];
  }

  /** SSL_write() takes something whenever it is called. */
  ghost predicate AllTaken(results: nat -> WriteResult) {
    forall i :: Takes(results(i))
  }

  ghost predicate Takes(result: WriteResult) {
    result.Took? && result.n > 0
  }

  /** What the first call with a block of data has done. */
  ghost predicate FirstSent(result: WriteResult, block: seq<char>, accepted0: seq<char>, accepted: seq<char>) {
    if result.Took? && result.n > 0 then accepted0 + block[..Min(result.n, |block|)] <= accepted
    else accepted == accepted0
  }

  lemma StillSent(result: WriteResult, block: seq<char>, accepted0: seq<char>, accepted1: seq<char>,
                  accepted: seq<char>)
    requires FirstSent(result, block, accepted0, accepted1) && accepted1 <= accepted
    requires accepted == accepted1 || (result.Took? && result.n > 0)
    ensures FirstSent(result, block, accepted0, accepted)
  {
  }

  lemma FirstIsSent(result: WriteResult, block: seq<char>, accepted0: seq<char>, accepted: seq<char>, n: int)
    requires n == if result.Took? then Min(result.n, |block|) else -1
    requires accepted == if n > 0 then accepted0 + block[..n] else accepted0
    ensures FirstSent(result, block, accepted0, accepted)
  {
  }

  lemma TakenNow(results: nat -> WriteResult, k: nat)
    requires AllTaken(results)
    ensures results(k).Took? && results(k).n > 0
  {
  }

  class OutputStream {
    var output: array?<char>
    var outputSize: nat
    var outputOffset: nat
    const outputBuffer: Buffer
    var writeActive: bool
    var onDrain: bool                 // the drain handler is start_shutdown
    var timeoutHandler: TimeoutHandler
    var shutdownStarted: bool
    var freed: bool

    ghost var queued: seq<char>       // everything ever passed in for sending
    ghost var accepted: seq<char>     // everything SSL_write() has taken
    ghost var again: Option<Call>     // the call SSL_write() wants repeated

    ghost predicate Owns()
      reads this`output, this`outputSize, this`outputOffset, outputBuffer, outputBuffer.repr
    {
      && outputBuffer.Valid() && outputBuffer.OffsetsOk() && outputBuffer.size == |outputBuffer.Contents()|
      && this !in outputBuffer.repr
      && (if output == null then outputSize == 0 == outputOffset
          else output !in outputBuffer.repr && outputOffset <= outputSize <= output.Length)
    }

    /** What is left of the current block. */
    ghost function Block(): seq<char>
      requires output != null ==> outputOffset <= outputSize <= output.Length
      reads this`output, this`outputSize, this`outputOffset, output
    {
      if output == null then [] else output[outputOffset..outputSize]
    }

    /** Order: what has been taken, the rest of the block, and the buffer are everything queued. */
    ghost predicate InOrder()
      requires output != null ==> outputOffset <= outputSize <= output.Length
      requires outputBuffer.OffsetsOk()
      reads this`output, this`outputSize, this`outputOffset, this`queued, this`accepted, output, outputBuffer`bytes,
        outputBuffer`startOffset, outputBuffer`endOffset
    {
      queued == accepted + Block() + outputBuffer.Contents()
    }

    /** SSL_write() has to be called again with the same buffer and length. */
    ghost predicate Repeats()
      reads this`again, this`output, this`outputOffset, this`outputSize
    {
      again.Some? ==> outputOffset <= outputSize && output == again.value.a
                      && outputOffset == again.value.offset && outputSize - outputOffset == again.value.n
    }

    ghost predicate Streaming()
      reads this`output, this`outputSize, this`outputOffset, this`queued, this`accepted, this`again,
        outputBuffer, outputBuffer.repr, output
    {
      Owns() && InOrder() && Repeats()
    }

    /** While there is something to send, the write watcher is active. */
    ghost predicate Valid()
      reads this, outputBuffer, outputBuffer.repr, output
    {
      && Streaming()
      && (output != null || outputBuffer.size > 0 ==> writeActive)
    }

    constructor ()
      ensures Valid() && !freed && queued == [] && fresh(outputBuffer) && outputBuffer.repr == {} && output == null
    {
      var buffer := new Buffer();
      outputBuffer := buffer;
      output, outputSize, outputOffset := null, 0, 0;
      writeActive, onDrain, timeoutHandler, shutdownStarted, freed := false, false, Bail, false, false;
      queued, accepted, again := [], [], None;
    }

    /** write_buffered */
    method WriteBuffered(data: seq<char>)
      requires Streaming()
      modifies this`writeActive, this`queued, outputBuffer, outputBuffer.repr
      ensures Valid() && writeActive && queued == old(queued) + data
      ensures accepted == old(accepted) && shutdownStarted == old(shutdownStarted) && freed == old(freed)
      ensures fresh(outputBuffer.repr - old(outputBuffer.repr))
    {
      hide Buffer.Valid, Buffer.Contents, Buffer.OffsetsOk;
      outputBuffer.Append(data);
      outputBuffer.Sized();
      queued := queued + data;
      writeActive := true;
    }

    /** tls_write; `owned` says that the caller gives the memory away. */
    method Write(data: array<char>, size: nat, owned: bool)
      requires Streaming() && size <= data.Length && data !in outputBuffer.repr
      modifies this`output, this`outputSize, this`outputOffset, this`writeActive, this`queued, outputBuffer,
        outputBuffer.repr
      ensures Valid() && writeActive && queued == old(queued) + old(data[..size])
      ensures accepted == old(accepted) && shutdownStarted == old(shutdownStarted) && freed == old(freed)
      ensures fresh(outputBuffer.repr - old(outputBuffer.repr))
      ensures output == old(output) || output == data
      ensures owned && old(output) == null && old(outputBuffer.size) == 0 ==> output == data && outputBuffer.size == 0
    {
      hide Buffer.Valid, Buffer.Contents, Buffer.OffsetsOk;
      if output == null && outputBuffer.size == 0 && owned {
        output, outputSize, outputOffset := data, size, 0;
        queued := queued + data[..size];
        writeActive := true;
      } else {
        WriteBuffered(data[..size]);
      }
    }

    /** tls_write_line */
    method WriteLine(text: seq<char>)
      requires Streaming()
      modifies this`writeActive, this`queued, outputBuffer, outputBuffer.repr
      ensures Valid() && writeActive && queued == old(queued) + text + LINE_TERMINATOR
      ensures accepted == old(accepted) && shutdownStarted == old(shutdownStarted) && freed == old(freed)
      ensures fresh(outputBuffer.repr - old(outputBuffer.repr))
    {
      hide Streaming;
      WriteBuffered(text);
      ValidStreams();
      WriteBuffered(LINE_TERMINATOR);
    }

    lemma ValidStreams()
      requires Valid()
      ensures Streaming()
    {
    }

    /** SSL_write(): after a call that wants to be repeated, only the same buffer and length will do. */
    method SslWrite(a: array<char>, offset: nat, n: nat, result: WriteResult) returns (taken: int)
      requires offset + n <= a.Length && (again.Some? ==> again.value == Call(a, offset, n))
      modifies this`accepted, this`again
      ensures taken == if result.Took? then Min(result.n, n) else -1
      ensures taken > 0 ==> accepted == old(accepted) + a[offset..offset + taken] && again == None
      ensures taken <= 0 ==> accepted == old(accepted) && (result.WriteAgain? || again == Some(Call(a, offset, n)))
      ensures taken <= 0 && again.Some? ==> again == Some(Call(a, offset, n))
    {
      taken := if result.Took? then Min(result.n, n) else -1;
      if taken > 0 {
        accepted, again := accepted + a[offset..offset + taken], None;
      } else {
        again := Some(Call(a, offset, n));
      }
    }

    /** One turn of the inner loop of write_cb; `n` is the result of SSL_write(). */
    method SendSome(result: WriteResult) returns (n: int, nTodo: nat)
      requires Streaming() && output != null && writeActive
      modifies this`output, this`outputSize, this`outputOffset, this`writeActive, this`accepted, this`again,
        this`shutdownStarted, this`freed
      ensures nTodo == old(|Block()|) && n == if result.Took? then Min(result.n, nTodo) else -1
      ensures Streaming() && (freed <==> old(freed) || (n <= 0 && result == WriteFailed))
      ensures n <= 0 ==> accepted == old(accepted) && output == old(output) && writeActive
      ensures 0 < n < nTodo ==>
        output == old(output) && writeActive && |Block()| == nTodo - n && accepted == old(accepted) + old(Block())[..n]
      ensures n > 0 && n == nTodo ==> output == null && accepted == old(accepted) + old(Block())
      ensures n > 0 && n == nTodo ==> (writeActive <==> outputBuffer.size > 0)
      ensures n > 0 && n == nTodo && outputBuffer.size == 0 && onDrain ==> shutdownStarted
      ensures n > 0 ==> |accepted| > |old(accepted)|
      ensures shutdownStarted != old(shutdownStarted) ==> shutdownStarted && onDrain && Drained()
    {
      hide Buffer.Valid, Buffer.Contents, Buffer.OffsetsOk, InOrder;
      nTodo := outputSize - outputOffset;
      n := Attempt(result);
      if n <= 0 {
        if result == WriteFailed {
          freed := true;
        }
      } else if n == nTodo {
        BlockSent();
      }
    }

    /** SSL_write() for what is left of the block; the offset moves by what it took. */
    method Attempt(result: WriteResult) returns (n: int)
      requires Streaming() && output != null
      modifies this`outputOffset, this`accepted, this`again
      ensures Streaming() && n == if result.Took? then Min(result.n, old(|Block()|)) else -1
      ensures n <= 0 ==> accepted == old(accepted) && outputOffset == old(outputOffset)
      ensures n > 0 ==>
        accepted == old(accepted) + old(Block())[..n] && outputOffset == old(outputOffset) + n && again == None
    {
      hide Buffer.Valid, Buffer.Contents, Buffer.OffsetsOk;
      ghost var block, before := Block(), accepted;
      n := SslWrite(output, outputOffset, outputSize - outputOffset, result);
      if n > 0 {
        Advanced(before, block, n, outputBuffer.Contents());
        assert block[..n] == output[outputOffset..outputSize][..n] == output[outputOffset..outputOffset + n];
        outputOffset := outputOffset + n;
        assert Block() == block[n..];
      }
    }

    /** The block has been taken completely. */
    method BlockSent()
      requires Streaming() && output != null && outputOffset == outputSize && again == None
      modifies this`output, this`outputSize, this`outputOffset, this`writeActive, this`shutdownStarted
      ensures Streaming() && output == null
      ensures writeActive <==> old(writeActive) && outputBuffer.size > 0
      ensures outputBuffer.size == 0 && onDrain ==> shutdownStarted
      ensures shutdownStarted != old(shutdownStarted) ==> shutdownStarted && onDrain && Drained()
    {
      hide Buffer.Valid, Buffer.Contents, Buffer.OffsetsOk;
      assert Block() == [];
      output, outputSize, outputOffset := null, 0, 0;
      if outputBuffer.size == 0 {
        writeActive := false;
        if onDrain {
          StartShutdown();
        }
      }
    }

    /** Nothing is left to send: everything queued has been taken. */
    ghost predicate Drained()
      reads this`output, outputBuffer`size, this`queued, this`accepted
    {
      output == null && outputBuffer.size == 0 && queued == accepted
    }

    /** start_shutdown */
    method StartShutdown()
      requires Streaming() && Drained()
      modifies this`shutdownStarted
      ensures shutdownStarted
    {
      shutdownStarted := true;
    }

    /** The slurp in write_cb. */
    method TakeBlock()
      requires Streaming() && output == null
      modifies this`output, this`outputSize, this`outputOffset, outputBuffer
      ensures Streaming() && output != null && outputBuffer.size == 0 && outputBuffer.repr <= old(outputBuffer.repr)
      ensures Block() == old(outputBuffer.Contents())
      ensures fresh(output) || output in old(outputBuffer.repr)
    {
      hide Buffer.Valid, Buffer.Contents, Buffer.OffsetsOk;
      var size;
      output, size := outputBuffer.Slurp();
      outputBuffer.Sized();
      outputSize, outputOffset := size, 0;
      assert output[0..size] == output[..size];
    }

    /** What every callback leaves unchanged or only lets grow. */
    ghost predicate Progress(queued0: seq<char>, accepted0: seq<char>, started0: bool)
      reads this`queued, this`accepted, this`shutdownStarted, this`onDrain, this`output, outputBuffer`size
    {
      && queued == queued0 && |accepted0| <= |accepted|
      && (shutdownStarted != started0 ==> shutdownStarted && onDrain && Drained())
    }

    lemma NoMoreThanQueued()
      requires Streaming()
      ensures |accepted| <= |queued|
    {
    }

    /** The inner loop of write_cb; afterwards the block has been sent, or has to wait. */
    method SendBlock(results: nat -> WriteResult, k0: nat) returns (k: nat, sent: bool)
      requires Streaming() && output != null && writeActive
      modifies this`output, this`outputSize, this`outputOffset, this`writeActive, this`accepted, this`again,
        this`shutdownStarted, this`freed
      ensures Streaming() && Progress(queued, old(accepted), old(shutdownStarted)) && old(accepted) <= accepted
      ensures k > k0 && Went(sent, old(onDrain)) && (sent ==> |accepted| > |old(accepted)|)
      ensures !sent ==> shutdownStarted == old(shutdownStarted)
      ensures AllTaken(results) && old(Block()) != [] ==> sent
      ensures FirstSent(results(k0), old(Block()), old(accepted), accepted)
      ensures sent ==> Takes(results(k0))
      ensures freed && !old(freed) ==> exists i :: results(i) == WriteFailed
      ensures results(k0) == WriteFailed ==> freed
    {
      var more := true;
      k, sent := k0, false;
      NoMoreThanQueued();
      ghost var block, accepted0 := Block(), accepted;
      while more
        invariant Streaming() && accepted0 <= accepted && |accepted| <= |queued| && k >= k0
        invariant if more then output != null && writeActive && !sent else Went(sent, old(onDrain))
        invariant shutdownStarted != old(shutdownStarted) ==> sent && shutdownStarted && onDrain && Drained()
        invariant sent ==> |accepted| > |accepted0|
        invariant if k == k0 then more && Block() == block && accepted == accepted0
                  else FirstSent(results(k0), block, accepted0, accepted)
        invariant k > k0 && (more || sent) ==> Takes(results(k0))
        invariant AllTaken(results) && block != [] ==> sent || (more && Block() != [])
        invariant freed && !old(freed) ==> exists i :: results(i) == WriteFailed
        invariant k > k0 && results(k0) == WriteFailed ==> freed
        decreases more, |queued| - |accepted|
      {
        hide *;
        more, sent := SendTurn(results, k0, k, block, accepted0);
        k := k + 1;
      }
    }

    /** After the inner loop: the block is gone, or waits. */
    ghost predicate Went(sent: bool, shut: bool)
      reads this`output, this`writeActive, this`onDrain, this`shutdownStarted, outputBuffer`size
    {
      if sent then
        output == null && (writeActive <==> outputBuffer.size > 0)
        && (outputBuffer.size == 0 && shut ==> shutdownStarted)
      else output != null && writeActive
    }

    method SendTurn(results: nat -> WriteResult, k0: nat, k: nat, ghost block: seq<char>, ghost accepted0: seq<char>)
      returns (more: bool, sent: bool)
      requires Streaming() && output != null && writeActive && k >= k0 && accepted0 <= accepted
      requires if k == k0 then Block() == block && accepted == accepted0
               else FirstSent(results(k0), block, accepted0, accepted) && Takes(results(k0))
      modifies this`output, this`outputSize, this`outputOffset, this`writeActive, this`accepted, this`again,
        this`shutdownStarted, this`freed
      ensures Streaming() && old(accepted) <= accepted && |accepted| <= |queued| && accepted0 <= accepted
      ensures if more then output != null && writeActive && !sent else Went(sent, onDrain)
      ensures more || sent ==> |accepted| > |old(accepted)| && Takes(results(k))
      ensures shutdownStarted != old(shutdownStarted) ==> sent && shutdownStarted && onDrain && Drained()
      ensures FirstSent(results(k0), block, accepted0, accepted)
      ensures AllTaken(results) && old(Block()) != [] ==> sent || (more && Block() != [])
      ensures freed <==> old(freed) || results(k) == WriteFailed
    {
      ghost var left, was := Block(), accepted;
      hide Streaming, FirstSent, AllTaken;
      var n, nTodo := SendSome(results(k));
      NoMoreThanQueued();
      if k == k0 {
        FirstIsSent(results(k0), block, accepted0, accepted, n);
      } else {
        StillSent(results(k0), block, accepted0, was, accepted);
      }
      if AllTaken(results) { TakenNow(results, k); }
      more := n > 0 && n < nTodo;
      sent := n > 0 && !more;
    }

    /** What write_cb tries to send first. */
    ghost function Outgoing(): seq<char>
      requires output != null ==> outputOffset <= outputSize <= output.Length
      requires outputBuffer.OffsetsOk()
      reads this`output, this`outputSize, this`outputOffset, output, outputBuffer`bytes, outputBuffer`startOffset,
        outputBuffer`endOffset
    {
      if output != null then Block() else outputBuffer.Contents()
    }

    /** write_cb */
    method WriteCb(results: nat -> WriteResult)
      requires Valid() && writeActive && !freed
      modifies this`output, this`outputSize, this`outputOffset, this`writeActive, this`accepted, this`again,
        this`shutdownStarted, this`freed, outputBuffer
      ensures Valid() && Progress(queued, old(accepted), old(shutdownStarted)) && old(accepted) <= accepted
      ensures outputBuffer.repr <= old(outputBuffer.repr)
      ensures !writeActive ==> Drained()
      ensures Takes(results(0)) ==>
        old(accepted) + old(Outgoing())[..Min(results(0).n, |old(Outgoing())|)] <= accepted
      ensures !Takes(results(0)) ==> accepted == old(accepted) && writeActive
      ensures AllTaken(results) && old(Outgoing()) != [] ==> Drained() && !writeActive
      ensures onDrain && Drained() ==> shutdownStarted
      ensures results(0) == WriteFailed ==> freed
      ensures freed ==> exists i :: results(i) == WriteFailed
    {
      var k: nat, more := 0, true;
      NoMoreThanQueued();
      ghost var first, accepted0 := Outgoing(), accepted;
      while more
        invariant Streaming() && accepted0 <= accepted && |accepted| <= |queued|
        invariant outputBuffer.repr <= old(outputBuffer.repr)
        invariant more ==> writeActive && shutdownStarted == old(shutdownStarted)
        invariant shutdownStarted == old(shutdownStarted) || (shutdownStarted && onDrain && Drained())
        invariant if k == 0 then more && Outgoing() == first && accepted == accepted0
                  else FirstSent(results(0), first, accepted0, accepted) && (more ==> Takes(results(0)))
        invariant k > 0 && !more ==> Rests()
        invariant k > 0 && !Takes(results(0)) ==> !more && writeActive
        invariant AllTaken(results) && first != [] ==> if more then Outgoing() != [] else output == null
        invariant k > 0 && results(0) == WriteFailed ==> freed
        invariant freed ==> exists i :: results(i) == WriteFailed
        decreases more, |queued| - |accepted|
      {
        hide *;
        k, more := WriteTurn(results, k, first, accepted0);
      }
    }

    /** After write_cb: nothing is left, and the drain handler has been called, or the watcher is still active. */
    ghost predicate Rests()
      reads this`output, this`writeActive, this`onDrain, this`shutdownStarted, outputBuffer`size
    {
      if output == null then outputBuffer.size == 0 && !writeActive && (onDrain ==> shutdownStarted)
      else writeActive
    }

    /** One turn of the outer loop of write_cb. */
    method WriteTurn(results: nat -> WriteResult, k0: nat, ghost first: seq<char>, ghost accepted0: seq<char>)
      returns (k: nat, more: bool)
      requires Streaming() && writeActive && accepted0 <= accepted
      requires if k0 == 0 then Outgoing() == first && accepted == accepted0
               else FirstSent(results(0), first, accepted0, accepted) && Takes(results(0))
      modifies this`output, this`outputSize, this`outputOffset, this`writeActive, this`accepted, this`again,
        this`shutdownStarted, this`freed, outputBuffer
      ensures k > k0 && Streaming() && accepted0 <= accepted && |accepted| <= |queued|
      ensures outputBuffer.repr <= old(outputBuffer.repr)
      ensures more ==> writeActive && shutdownStarted == old(shutdownStarted) && |accepted| > |old(accepted)|
      ensures shutdownStarted == old(shutdownStarted) || (shutdownStarted && onDrain && Drained())
      ensures FirstSent(results(0), first, accepted0, accepted) && (more ==> Takes(results(0)))
      ensures !more ==> Rests()
      ensures !Takes(results(0)) ==> !more && writeActive
      ensures AllTaken(results) && old(Outgoing()) != [] ==> if more then Outgoing() != [] else output == null
      ensures results(k0) == WriteFailed ==> freed
      ensures freed ==> old(freed) || exists i :: results(i) == WriteFailed
    {
      ghost var outgoing, was := Outgoing(), accepted;
      hide Buffer.Valid, Buffer.Contents, Buffer.OffsetsOk, InOrder, FirstSent, AllTaken;
      if output == null {
        TakeBlock();
      }
      assert Block() == outgoing;
      var sent;
      k, sent := SendBlock(results, k0);
      NoMoreThanQueued();
      if k0 > 0 {
        StillSent(results(0), first, accepted0, was, accepted);
      }
      more := sent && outputBuffer.size > 0;
    }

    // ----- Shutdown -----

    /** tls_shutdown, which calls tls_on_drain with start_shutdown */
    method Shutdown()
      requires Valid()
      modifies this`timeoutHandler, this`onDrain, this`shutdownStarted
      ensures Valid() && onDrain && timeoutHandler == Free
      ensures shutdownStarted != old(shutdownStarted) ==> shutdownStarted && Drained()
      ensures if writeActive then shutdownStarted == old(shutdownStarted) else shutdownStarted && Drained()
    {
      hide Buffer.Valid, Buffer.Contents, Buffer.OffsetsOk;
      timeoutHandler := Free;
      onDrain := true;
      if !writeActive {
        StartShutdown();
      }
    }

    /** bail of the server: even if the write watcher has been stopped, what was being sent comes first. */
    method BailOut(message: seq<char>)
      requires Streaming()
      modifies this`writeActive, this`queued, this`timeoutHandler, this`onDrain, this`shutdownStarted, outputBuffer,
        outputBuffer.repr
      ensures Valid() && onDrain && writeActive && timeoutHandler == Free && queued == old(queued) + BailLine(message)
      ensures accepted == old(accepted) && freed == old(freed)
      ensures fresh(outputBuffer.repr - old(outputBuffer.repr)) && shutdownStarted == old(shutdownStarted)
    {
      assert this !in outputBuffer.repr;
      ghost var before := queued;
      BailText(before, message);
      hide Streaming, BailLine;
      WriteBuffered("BAIL ");
      ValidStreams();
      WriteLine(message);
      Shutdown();
    }

    /** timeout_cb: all watchers are stopped before the handler runs. */
    method TimeoutCb(expired: bool)
      requires Valid() && !freed
      modifies this`writeActive, this`queued, this`timeoutHandler, this`onDrain, this`shutdownStarted, this`freed,
        outputBuffer, outputBuffer.repr
      ensures Streaming() && (freed || Valid())
      ensures freed <==> expired && old(timeoutHandler) == Free
      ensures accepted == old(accepted)
      ensures fresh(outputBuffer.repr - old(outputBuffer.repr)) && shutdownStarted == old(shutdownStarted)
      ensures queued == old(queued) + if expired && !freed then "BAIL Connection timed out\r\n" else []
      ensures expired && !freed ==> onDrain && writeActive && timeoutHandler == Free
      ensures freed ==> !writeActive
      ensures !expired ==> writeActive == old(writeActive) && onDrain == old(onDrain)
    {
      FarewellText();
      assert this !in outputBuffer.repr && Streaming();
      hide Streaming, BailLine;
      if expired {
        writeActive := false;
        if timeoutHandler == Bail {
          BailOut(TIMEOUT_MESSAGE);
        } else {
          freed := true;
        }
      }
    }

    lemma WhatProgressIs(queued0: seq<char>, accepted0: seq<char>, started0: bool)
      requires Progress(queued0, accepted0, started0)
      ensures queued == queued0 && |accepted0| <= |accepted|
      ensures shutdownStarted != started0 ==> shutdownStarted && onDrain && Drained()
    {
    }

    /** What write_cb has done: sent all that could be sent, and then called the drain handler. */
    ghost predicate Served(results: nat -> WriteResult, accepted0: seq<char>, outgoing: seq<char>)
      reads this`accepted, this`queued, this`output, this`writeActive, this`onDrain, this`shutdownStarted, this`freed,
        outputBuffer`size
    {
      && (Takes(results(0)) ==> accepted0 + outgoing[..Min(results(0).n, |outgoing|)] <= accepted)
      && (!Takes(results(0)) ==> accepted == accepted0 && writeActive)
      && (AllTaken(results) && outgoing != [] ==> Drained() && !writeActive)
      && (onDrain && Drained() ==> shutdownStarted)
      && (results(0) == WriteFailed ==> freed) && (freed ==> exists i :: results(i) == WriteFailed)
    }

    lemma WasServed(results: nat -> WriteResult, accepted0: seq<char>, outgoing: seq<char>)
      requires Takes(results(0)) ==> accepted0 + outgoing[..Min(results(0).n, |outgoing|)] <= accepted
      requires !Takes(results(0)) ==> accepted == accepted0 && writeActive
      requires AllTaken(results) && outgoing != [] ==> Drained() && !writeActive
      requires onDrain && Drained() ==> shutdownStarted
      requires results(0) == WriteFailed ==> freed
      requires freed ==> exists i :: results(i) == WriteFailed
      ensures Served(results, accepted0, outgoing)
    {
    }

    /** What an event queues. */
    ghost function Adds(e: OutputEvent): seq<char>
      requires e.SendOwned? ==> e.size <= e.data.Length
      reads this`timeoutHandler, if e.SendOwned? then {e.data} else {}
    {
      match e
      case Respond(text) => text + LINE_TERMINATOR
      case SendOwned(data, size) => data[..size]
      case Reject(message) => BailLine(message)
      case TimedOut(expired) => if expired && timeoutHandler == Bail then BailLine(TIMEOUT_MESSAGE) else []
      case _ => []
    }

    /** One thing that the server does, or that happens to it. */
    method Handle(e: OutputEvent)
      requires Valid() && !freed
      requires e.SendOwned? ==> e.size <= e.data.Length && e.data !in outputBuffer.repr
      modifies this, outputBuffer, outputBuffer.repr
      ensures Streaming() && (freed || Valid()) && fresh(outputBuffer.repr - old(outputBuffer.repr))
      ensures queued == old(queued) + old(Adds(e)) && |old(accepted)| <= |accepted|
      ensures shutdownStarted != old(shutdownStarted) ==> shutdownStarted && onDrain && Drained()
      ensures e.Writable? && old(writeActive) ==> Served(e.results, old(accepted), old(Outgoing()))
      ensures !e.Writable? ==> accepted == old(accepted)
      ensures e.Respond? || e.SendOwned? || e.Reject? ==> writeActive
      ensures e.Leave? || e.Reject? || (e.TimedOut? && e.expired && old(timeoutHandler) == Bail) ==> onDrain
      ensures e.Leave? && !old(writeActive) ==> shutdownStarted
      ensures e.TimedOut? ==> (freed <==> e.expired && old(timeoutHandler) == Free)
      ensures freed ==> e.TimedOut? || e.Writable?
    {
      assert this !in outputBuffer.repr;
      ValidStreams();
      if e.Writable? || e.TimedOut? { AddsByItself(e); }
      hide *;
      if e.Writable? {
        WritableNow(e.results);
      } else if e.TimedOut? {
        TimeoutCb(e.expired);
      } else {
        Use(e);
      }
      if !freed { ValidStreams(); }
    }

    /** The event loop calls write_cb if its watcher is active. */
    method WritableNow(results: nat -> WriteResult)
      requires Valid() && !freed
      modifies this`output, this`outputSize, this`outputOffset, this`writeActive, this`accepted, this`again,
        this`shutdownStarted, this`freed, outputBuffer
      ensures Valid() && outputBuffer.repr <= old(outputBuffer.repr) && |old(accepted)| <= |accepted|
      ensures shutdownStarted != old(shutdownStarted) ==> shutdownStarted && onDrain && Drained()
      ensures old(writeActive) ==> Served(results, old(accepted), old(Outgoing()))
    {
      ghost var accepted0, started0, queued0, outgoing0 := accepted, shutdownStarted, queued, Outgoing();
      hide *;
      if writeActive {
        WriteCb(results);
        WhatProgressIs(queued0, accepted0, started0);
        WasServed(results, accepted0, outgoing0);
      }
    }

    lemma AddsByItself(e: OutputEvent)
      requires e.Writable? || e.TimedOut?
      ensures e.Writable? ==> Adds(e) == [] && queued + Adds(e) == queued
      ensures e.TimedOut? ==>
        Adds(e) == if e.expired && timeoutHandler == Bail then "BAIL Connection timed out\r\n" else []
    {
      FarewellText();
      hide BailLine;
    }

    /** What the server does. */
    method Use(e: OutputEvent)
      requires Valid() && !freed && !e.Writable? && !e.TimedOut?
      requires e.SendOwned? ==> e.size <= e.data.Length && e.data !in outputBuffer.repr
      modifies this`output, this`outputSize, this`outputOffset, this`writeActive, this`queued, this`timeoutHandler,
        this`onDrain, this`shutdownStarted, outputBuffer, outputBuffer.repr
      ensures Valid() && fresh(outputBuffer.repr - old(outputBuffer.repr))
      ensures queued == old(queued) + old(Adds(e))
      ensures shutdownStarted != old(shutdownStarted) ==> shutdownStarted && onDrain && Drained()
      ensures e.Respond? || e.SendOwned? || e.Reject? ==> writeActive
      ensures e.Leave? || e.Reject? ==> onDrain
      ensures e.Leave? && !old(writeActive) ==> shutdownStarted
    {
      assert this !in outputBuffer.repr;
      ValidStreams();
      ghost var before, added := queued, Adds(e);
      assert e.Respond? ==> added == e.text + LINE_TERMINATOR;
      assert e.SendOwned? ==> added == e.data[..e.size];
      assert e.Reject? ==> added == BailLine(e.message);
      assert e.Leave? ==> before + added == before;
      hide *;
      match e {
        case Respond(text) =>
          Regroup(before, text, LINE_TERMINATOR);
          WriteLine(text);
        case SendOwned(data, size) => Write(data, size, true);
        case Leave => Shutdown();
        case Reject(message) => BailOut(message);
      }
    }

    /**
      Any use the server makes of a connection: everything queued is sent in order, and
      the TLS shutdown starts at a moment at which all of it has been taken. An event for
      a connection that has been freed does not happen.
     */
    method Run(events: seq<OutputEvent>) returns (ghost moments: seq<Moment>)
      requires Valid() && !freed
      requires AllGiven(events, outputBuffer.repr)
      modifies this, outputBuffer, outputBuffer.repr
      ensures Owns() && Repeats() && (freed || Valid())
      ensures queued == accepted + Block() + outputBuffer.Contents()
      ensures Orderly(moments) && moments[0] == old(Moment(queued, accepted, shutdownStarted))
      ensures moments[|moments| - 1] == Moment(queued, accepted, shutdownStarted)
      ensures |moments| <= |events| + 1 && (!freed ==> |moments| == |events| + 1)
      ensures forall i | 0 < i < |moments| :: Queues(events[i - 1], moments[i - 1].queued, moments[i].queued)
    {
      ValidStreams();
      moments := [Moment(queued, accepted, shutdownStarted)];
      hide *;
      for i := 0 to |events|
        invariant Streaming() && (freed || Valid()) && fresh(outputBuffer.repr - old(outputBuffer.repr))
        invariant AllGiven(events, outputBuffer.repr)
        invariant Orderly(moments) && |moments| > 0 && moments[0] == old(Moment(queued, accepted, shutdownStarted))
        invariant moments[|moments| - 1] == Moment(queued, accepted, shutdownStarted)
        invariant |moments| <= i + 1 && (!freed ==> |moments| == i + 1)
        invariant forall j | 0 < j < |moments| :: Queues(events[j - 1], moments[j - 1].queued, moments[j].queued)
      {
        if !freed {
          moments := RunNext(events, i, moments);
        }
      }
      StreamsInOrder();
    }

    method RunNext(events: seq<OutputEvent>, i: nat, ghost moments: seq<Moment>) returns (ghost moments': seq<Moment>)
      requires Valid() && !freed && i < |events| && |moments| == i + 1
      requires AllGiven(events, outputBuffer.repr)
      requires Orderly(moments) && moments[i] == Moment(queued, accepted, shutdownStarted)
      requires forall j | 0 < j < |moments| :: Queues(events[j - 1], moments[j - 1].queued, moments[j].queued)
      modifies this, outputBuffer, outputBuffer.repr
      ensures Streaming() && (freed || Valid()) && fresh(outputBuffer.repr - old(outputBuffer.repr))
      ensures AllGiven(events, outputBuffer.repr)
      ensures Orderly(moments') && |moments'| == i + 2 && moments'[0] == moments[0]
      ensures moments'[i + 1] == Moment(queued, accepted, shutdownStarted)
      ensures forall j | 0 < j < |moments'| :: Queues(events[j - 1], moments'[j - 1].queued, moments'[j].queued)
    {
      assert forall j | 0 <= j < |events| && events[j].SendOwned? :: events[j].data !in outputBuffer.repr;
      hide Valid, Streaming, Follows, Queues;
      ghost var now := HandleNext(events[i]);
      OneMoreMoment(moments, now);
      moments' := moments + [now];
    }

    method HandleNext(e: OutputEvent) returns (ghost now: Moment)
      requires Valid() && !freed && Given(e, outputBuffer.repr)
      modifies this, outputBuffer, outputBuffer.repr
      ensures Streaming() && (freed || Valid()) && fresh(outputBuffer.repr - old(outputBuffer.repr))
      ensures now == Moment(queued, accepted, shutdownStarted)
      ensures Follows(old(Moment(queued, accepted, shutdownStarted)), now)
      ensures Queues(e, old(queued), now.queued)
    {
      ValidStreams();
      StreamsInOrder();
      ghost var before, added := Moment(queued, accepted, shutdownStarted), Adds(e);
      AddsQueues(e);
      hide Valid, Streaming, Adds, Queues;
      Handle(e);
      StreamsInOrder();
      now := Moment(queued, accepted, shutdownStarted);
      Prefixes(before.queued, added, before.accepted, accepted);
    }

    lemma AddsQueues(e: OutputEvent)
      requires e.SendOwned? ==> e.size <= e.data.Length
      ensures Queues(e, queued, queued + Adds(e))
    {
      FarewellText();
      if e.Reject? { assert BailLine(e.message) == "BAIL " + e.message + "\r\n"; }
      hide BailLine;
      assert queued + [] == queued;
    }

    lemma StreamsInOrder()
      requires Streaming()
      ensures Owns() && Repeats() && queued == accepted + Block() + outputBuffer.Contents() && accepted <= queued
    {
    }
  }

  lemma Prefixes(queued: seq<char>, added: seq<char>, accepted: seq<char>, accepted': seq<char>)
    requires accepted <= queued && accepted' <= queued + added && |accepted| <= |accepted'|
    ensures accepted <= accepted' && queued <= queued + added
  {
    assert accepted == (queued + added)[..|accepted|] && accepted' == (queued + added)[..|accepted'|];
  }

  // ----- Reading -----

  /** SSL_read(): some bytes, it wants to be called again, or the connection failed. */
  datatype ReadResult = Got(bytes: seq<char>) | ReadAgain | ReadFailed

  /** What the library hands out of `r` when asked for n bytes: a nonempty prefix, or nothing. */
  function Chunk(r: ReadResult, n: nat): (s: seq<char>)
    ensures |s| <= n
  {
    if r.Got? then r.bytes[..Min(|r.bytes|, n)] else []
  }

  /** There is no line yet, and room for more. */
  predicate Asks(buffered: seq<char>) {
    '\n' !in buffered && |buffered| + LINE_BUFFER_SIZE <= LINE_MAX_SIZE
  }

  /** The bytes read_line gets from SSL_read() before there is a line, it is too long, or there are none. */
  function LineInput(buffered: seq<char>, results: nat -> ReadResult, k: nat): seq<char>
    decreases LINE_MAX_SIZE - |buffered|
  {
    if !Asks(buffered) then []
    else
      var chunk := Chunk(results(k), LINE_BUFFER_SIZE);
      if chunk == [] then [] else chunk + LineInput(buffered + chunk, results, k + 1)
  }

  /** The bytes read_bytes gets from SSL_read() before it has them all, or there are none. */
  function BytesInput(results: nat -> ReadResult, k: nat, todo: nat): seq<char>
    decreases todo
  {
    if todo == 0 then []
    else
      var chunk := Chunk(results(k), todo);
      if chunk == [] then [] else chunk + BytesInput(results, k + 1, todo - |chunk|)
  }

  /** `got` is all of `total` but for `due`. */
  ghost predicate Lacks(total: seq<char>, got: seq<char>, due: seq<char>) {
    got + due == total
  }

  lemma LacksLess(total: seq<char>, got: seq<char>, due: seq<char>, chunk: seq<char>, due': seq<char>)
    requires Lacks(total, got, due) && due == chunk + due'
    ensures Lacks(total, got + chunk, due')
  {
    Regroup(got, chunk, due');
  }

  lemma LacksAll(got: seq<char>, due: seq<char>)
    ensures Lacks(got + due, got, due)
  {
  }

  lemma LacksNothing(total: seq<char>, got: seq<char>)
    requires Lacks(total, got, [])
    ensures got == total
  {
    assert got + [] == got;
  }

  lemma LineInputStep(buffered: seq<char>, results: nat -> ReadResult, k: nat)
    ensures var chunk := if Asks(buffered) then Chunk(results(k), LINE_BUFFER_SIZE) else [];
      LineInput(buffered, results, k) == chunk + if chunk == [] then [] else LineInput(buffered + chunk, results, k + 1)
  {
  }

  lemma BytesInputStep(results: nat -> ReadResult, k: nat, todo: nat, chunk: seq<char>, more: bool, todo': nat)
    returns (rest: seq<char>)
    requires chunk == Chunk(results(k), todo) && (more <==> chunk != [] && |chunk| < todo) && todo' == todo - |chunk|
    ensures BytesInput(results, k, todo) == chunk + rest
    ensures rest == if more then BytesInput(results, k + 1, todo') else []
  {
    rest := if more then BytesInput(results, k + 1, todo') else [];
  }

  datatype LineResult = Line(text: array<char>) | LineTooLong | NoLineYet

  /** What happens to the reading half of a connection: tls_read, or read_cb. */
  datatype InputEvent = Ask(size: nat) | Readable(results: nat -> ReadResult)

  /** A piece is what a request asked for; 0 stands for a line. */
  ghost predicate Fits(size: nat, piece: seq<char>) {
    if size == 0 then FirstAfter(piece, '\n') == |piece| > 0 else |piece| == size
  }

  /** With what has come in, the buffer holds a line, which is handed out; or there is none, or it is too long. */
  ghost predicate LineOutcome(buffered: seq<char>, got: seq<char>, given: seq<seq<char>>, left: seq<char>,
                              gaveUp: bool) {
    if given == [] then
      left == buffered + got && '\n' !in left && (gaveUp <==> |left| + LINE_BUFFER_SIZE > LINE_MAX_SIZE)
    else
      |given| == 1 && given[0] + left == buffered + got && Fits(0, given[0]) && !gaveUp
  }

  /** With what has come in, the block is full and handed out, or it is not and kept. */
  ghost predicate BytesOutcome(partial: seq<char>, got: seq<char>, size: nat, given: seq<seq<char>>, left: seq<char>) {
    if |partial + got| == size then given == [partial + got] && left == [] else given == [] && left == partial + got
  }

  /** All requests but the last have been answered; `piece` has been counted as delivered and could answer it. */
  ghost predicate Answering(asked: seq<nat>, pieces: seq<seq<char>>, delivered: seq<char>, piece: seq<char>) {
    && |asked| == |pieces| + 1 && (forall i | 0 <= i < |pieces| :: Fits(asked[i], pieces[i]))
    && delivered == Flat(pieces) + piece
  }

  lemma Delivered(asked: seq<nat>, pieces: seq<seq<char>>, delivered: seq<char>, piece: seq<char>)
    requires Answering(asked, pieces, delivered, [])
    ensures Answering(asked, pieces, delivered + piece, piece)
  {
    hide Fits, Flat;
    assert Flat(pieces) + [] == Flat(pieces);
  }

  /** What can be seen of the reading half; `partial` is an unfinished piece. */
  datatype InputMoment =
    InputMoment(asked: seq<nat>, pieces: seq<seq<char>>, received: seq<char>, buffered: seq<char>, partial: seq<char>,
                reading: bool, gaveUp: bool)

  /** What an event makes of it. */
  ghost predicate InputStep(e: InputEvent, a: InputMoment, b: InputMoment) {
    match e
    case Ask(size) => b == if a.reading || a.gaveUp then a else a.(asked := a.asked + [size], reading := true)
    case Readable(results) =>
      if !a.reading then b == a
      else
        && |a.asked| > 0 && |a.pieces| <= |b.pieces| && b.asked == a.asked
        && var size, given := a.asked[|a.asked| - 1], b.pieces[|a.pieces|..];
           && b.pieces == a.pieces + given && (b.reading <==> given == [] && !b.gaveUp)
           && if size == 0 then
                var got := LineInput(a.buffered, results, 0);
                && b.received == a.received + got && LineOutcome(a.buffered, got, given, b.buffered, b.gaveUp)
                && (!b.gaveUp ==> b.partial == [])
              else
                && |a.partial| < size && !b.gaveUp && b.buffered == a.buffered
                && var got := BytesInput(results, 0, size - |a.partial|);
                   b.received == a.received + got && BytesOutcome(a.partial, got, size, given, b.partial)
  }

  ghost predicate InputSteps(events: seq<InputEvent>, moments: seq<InputMoment>) {
    |moments| == |events| + 1 && forall i | 0 <= i < |events| :: InputStep(events[i], moments[i], moments[i + 1])
  }

  lemma NoSteps(moments: seq<InputMoment>)
    requires |moments| == 1
    ensures InputSteps([], moments)
  {
  }

  lemma OneMoreStep(events: seq<InputEvent>, i: nat, moments: seq<InputMoment>, b: InputMoment)
    requires i < |events| && InputSteps(events[..i], moments) && InputStep(events[i], moments[i], b)
    ensures InputSteps(events[..i + 1], moments + [b])
  {
    assert events[..i + 1] == events[..i] + [events[i]];
    hide InputStep;
  }

  lemma IsAsked(a: InputMoment, b: InputMoment, size: nat)
    requires !a.reading && !a.gaveUp && b == a.(asked := a.asked + [size], reading := true)
    ensures InputStep(Ask(size), a, b)
  {
  }

  lemma NothingAsked(a: InputMoment, size: nat)
    requires a.reading || a.gaveUp
    ensures InputStep(Ask(size), a, a)
  {
  }

  lemma NothingRead(a: InputMoment, results: nat -> ReadResult)
    requires !a.reading
    ensures InputStep(Readable(results), a, a)
  {
  }

  class InputStream {
    const inputBuffer: Buffer
    var input: array?<char>
    var inputSize: nat
    var inputOffset: nat
    var lineMode: bool                // read_mode
    var reading: bool                 // read_watcher is active
    var gaveUp: bool                  // the handler for lines that are too long has been called

    ghost var received: seq<char>     // everything SSL_read() has handed out
    ghost var delivered: seq<char>    // everything passed on, with the line terminators
    ghost var asked: seq<nat>         // the sizes asked for, 0 for a line
    ghost var pieces: seq<seq<char>>  // what the read handlers have been given
    ghost var bypassed: bool          // a number of bytes was asked for with bytes in the line buffer

    ghost predicate Owns()
      reads this`input, this`inputSize, this`inputOffset, inputBuffer, inputBuffer.repr
    {
      && inputBuffer.Valid() && inputBuffer.OffsetsOk() && inputBuffer.size == |inputBuffer.Contents()|
      && this !in inputBuffer.repr
      && (input == null ==> inputOffset == 0)
      && (input != null ==> input !in inputBuffer.repr && inputOffset <= inputSize <= input.Length)
    }

    /** The bytes of an unfinished tls_read of so many bytes. */
    ghost function Partial(): seq<char>
      requires input != null ==> inputOffset <= input.Length
      reads this`input, this`inputOffset, input
    {
      if input == null then [] else input[..inputOffset]
    }

    /** Nothing is lost, duplicated or reordered. */
    ghost predicate InOrder()
      requires inputBuffer.OffsetsOk() && (input != null ==> inputOffset <= input.Length)
      reads this`received, this`delivered, this`input, this`inputOffset, input, inputBuffer`bytes,
        inputBuffer`startOffset, inputBuffer`endOffset
    {
      received == delivered + Partial() + inputBuffer.Contents()
    }

    /** The block, its size and its offset suit what is being read. */
    ghost predicate Positioned()
      reads this`input, this`inputSize, this`inputOffset, this`lineMode, this`reading, this`gaveUp
    {
      && (reading && lineMode ==> inputOffset == 0 && inputSize == LINE_BUFFER_SIZE)
      && (reading && !lineMode ==> inputOffset < inputSize && (input != null ==> inputSize < input.Length))
      && (reading ==> !gaveUp) && (!reading && !gaveUp ==> input == null)
    }

    /** Each request but the one that is open has been answered by a piece that fits it. */
    ghost predicate Answered()
      reads this`lineMode, this`reading, this`gaveUp, this`inputSize, this`asked, this`pieces, this`delivered
    {
      && |asked| == |pieces| + (if reading || gaveUp then 1 else 0)
      && (forall i | 0 <= i < |pieces| :: Fits(asked[i], pieces[i]))
      && (reading ==> asked[|asked| - 1] == if lineMode then 0 else inputSize)
      && delivered == Flat(pieces)
    }

    ghost predicate Ready()
      reads this, input, inputBuffer, inputBuffer.repr
    {
      && Owns() && Positioned() && Answered()
      && (!bypassed ==> InOrder() && (reading && !lineMode ==> inputBuffer.size == 0))
    }

    constructor ()
      ensures Ready() && InOrder() && received == [] && delivered == [] && fresh(inputBuffer) && inputBuffer.repr == {}
      ensures asked == [] && pieces == [] && !reading && !gaveUp && !bypassed
    {
      var buffer := new Buffer();
      inputBuffer := buffer;
      input, inputSize, inputOffset := null, 0, 0;
      received, delivered := [], [];
      lineMode, reading, gaveUp := false, false, false;
      asked, pieces, bypassed := [], [], false;
    }

    /** One SSL_read() of read_line. */
    method FillBuffer(result: ReadResult) returns (n: nat)
      requires Owns() && Partial() == [] && inputSize > 0
      modifies this`received, inputBuffer, inputBuffer.repr
      ensures Owns() && Partial() == [] && n == |Chunk(result, inputSize)|
      ensures fresh(inputBuffer.repr - old(inputBuffer.repr))
      ensures inputBuffer.Contents() == old(inputBuffer.Contents()) + Chunk(result, inputSize)
      ensures received == old(received) + Chunk(result, inputSize)
    {
      hide Buffer.Valid, Buffer.Contents, Buffer.OffsetsOk, Chunk;
      var chunk := Chunk(result, inputSize);
      n := |chunk|;
      inputBuffer.Append(chunk);
      inputBuffer.Sized();
      received := received + chunk;
    }

    /** buffer_read_line */
    method BufferedLine() returns (text: array?<char>, ghost pos: nat)
      requires Owns() && Partial() == []
      modifies this`delivered, inputBuffer, inputBuffer.repr
      ensures Owns() && Partial() == [] && inputBuffer.repr <= old(inputBuffer.repr)
      ensures pos == FirstAfter(old(inputBuffer.Contents()), '\n')
      ensures inputBuffer.Contents() == old(inputBuffer.Contents())[pos..]
      ensures delivered == old(delivered) + old(inputBuffer.Contents())[..pos]
      ensures pos == 0 ==> text == null
      ensures pos > 0 ==> text != null && HoldsString(text, Chomped(old(inputBuffer.Contents())[..pos - 1]))
    {
      hide Buffer.Valid, Buffer.Contents, Buffer.OffsetsOk, FirstAfter, HoldsString, Chomped;
      ghost var before := inputBuffer.Contents();
      text := inputBuffer.ReadLine();
      inputBuffer.Sized();
      pos := FirstAfter(before, '\n');
      delivered := delivered + before[..pos];
    }

    /** The line that is in the buffer, if there is one. */
    method TakeLine() returns (text: array?<char>, ghost line: seq<char>)
      requires Owns() && Partial() == []
      modifies this`delivered, inputBuffer, inputBuffer.repr
      ensures Owns() && Partial() == [] && inputBuffer.repr <= old(inputBuffer.repr)
      ensures delivered == old(delivered) + line
      ensures text == null ==>
        line == [] && '\n' !in inputBuffer.Contents() && inputBuffer.Contents() == old(inputBuffer.Contents())
      ensures text != null ==> '\n' in old(inputBuffer.Contents()) && LineRead(Line(text), line)
      ensures text != null ==> line + inputBuffer.Contents() == old(inputBuffer.Contents())
    {
      assert inputBuffer.OffsetsOk() && this !in inputBuffer.repr;
      hide *;
      ghost var before, pos := inputBuffer.Contents(), 0;
      text, pos := BufferedLine();
      line := before[..pos];
      if pos > 0 { LineOf(before, pos); }
      CutAt(before, pos);
      if text != null {
        LineIsRead(text, line);
      }
    }

    lemma LineIsRead(text: array<char>, line: seq<char>)
      requires inputBuffer.OffsetsOk() && FirstAfter(line, '\n') == |line| > 0
      requires HoldsString(text, Chomped(line[..|line| - 1]))
      ensures LineRead(Line(text), line)
    {
    }

    /** tls_read: 0 stands for a line. */
    method StartRead(size: nat)
      requires Ready() && !reading && !gaveUp
      modifies this`inputSize, this`lineMode, this`reading, this`asked, this`bypassed
      ensures Ready() && reading && asked == old(asked) + [size] && input == null && Partial() == []
      ensures (lineMode <==> size == 0) && inputSize == if size == 0 then LINE_BUFFER_SIZE else size
      ensures bypassed <==> old(bypassed) || (size > 0 && inputBuffer.size > 0)
    {
      hide Buffer.Valid, Buffer.Contents, Buffer.OffsetsOk, InOrder, Fits;
      inputSize := if size == 0 then LINE_BUFFER_SIZE else size;
      lineMode := size == 0;
      reading := true;
      asked := asked + [size];
      bypassed := bypassed || (size > 0 && inputBuffer.size > 0);
    }

    /** What read_line returns, given what is buffered afterwards and the line handed out. */
    ghost predicate LineRead(r: LineResult, line: seq<char>)
      requires inputBuffer.OffsetsOk()
      reads inputBuffer`bytes, inputBuffer`startOffset, inputBuffer`endOffset, inputBuffer`size,
        if r.Line? then {r.text} else {}
    {
      match r
      case Line(text) => FirstAfter(line, '\n') == |line| > 0 && HoldsString(text, Chomped(line[..|line| - 1]))
      case LineTooLong =>
        line == [] && '\n' !in inputBuffer.Contents() && inputBuffer.size + LINE_BUFFER_SIZE > LINE_MAX_SIZE
      case NoLineYet =>
        line == [] && '\n' !in inputBuffer.Contents() && inputBuffer.size + LINE_BUFFER_SIZE <= LINE_MAX_SIZE
    }

    /** How read_line leaves the block it reads into. */
    ghost predicate Ended(r: LineResult, line: seq<char>)
      requires inputBuffer.OffsetsOk()
      reads inputBuffer`bytes, inputBuffer`startOffset, inputBuffer`endOffset, inputBuffer`size, this`input,
        this`inputSize,
        if r.Line? then {r.text} else {}
    {
      LineRead(r, line) && if r.Line? then input == null else input != null && inputSize == LINE_BUFFER_SIZE
    }

    /** read_line: the bytes up to the first newline, however they came in; the rest stays buffered. */
    method ReadLine(results: nat -> ReadResult) returns (r: LineResult, ghost line: seq<char>)
      requires Owns() && inputOffset == 0 && inputSize == LINE_BUFFER_SIZE
      modifies this`input, this`inputSize, this`received, this`delivered, inputBuffer, inputBuffer.repr
      ensures Owns() && inputOffset == 0 && LineRead(r, line) && (old(InOrder()) ==> InOrder())
      ensures if r.Line? then input == null else input != null && inputSize == LINE_BUFFER_SIZE
      ensures old(input) != null ==> input == old(input) || input == null
      ensures input == old(input) || input == null || fresh(input)
      ensures delivered == old(delivered) + line
      ensures var got := LineInput(old(inputBuffer.Contents()), results, 0);
        received == old(received) + got && line + inputBuffer.Contents() == old(inputBuffer.Contents()) + got
      ensures fresh(inputBuffer.repr - old(inputBuffer.repr))
    {
      ghost var buffered, got := inputBuffer.Contents(), LineInput(inputBuffer.Contents(), results, 0);
      if input == null {
        input := new char[inputSize];
      }
      hide Buffer.Valid, Buffer.Contents, Buffer.OffsetsOk, LineRead, LineInput;
      r, line := LineLoop(results);
      LineOrder(old(received), old(delivered), buffered, got, line, inputBuffer.Contents());
    }

    /** The loop of read_line. */
    method LineLoop(results: nat -> ReadResult) returns (r: LineResult, ghost line: seq<char>)
      requires Owns() && inputOffset == 0 && inputSize == LINE_BUFFER_SIZE && input != null
      modifies this`input, this`inputSize, this`received, this`delivered, inputBuffer, inputBuffer.repr
      ensures Owns() && inputOffset == 0 && Ended(r, line) && (input == old(input) || input == null)
      ensures delivered == old(delivered) + line
      ensures var got := LineInput(old(inputBuffer.Contents()), results, 0);
        received == old(received) + got && line + inputBuffer.Contents() == old(inputBuffer.Contents()) + got
      ensures fresh(inputBuffer.repr - old(inputBuffer.repr))
    {
      r, line := NoLineYet, [];
      var k: nat, more := 0, true;
      ghost var due := LineInput(inputBuffer.Contents(), results, 0);
      ghost var total, whole := received + due, inputBuffer.Contents() + due;
      LacksAll(received, due);
      LacksAll(inputBuffer.Contents(), due);
      hide Buffer.Valid, Buffer.Contents, Buffer.OffsetsOk, InOrder, Ended, LineInput, Asks, Chunk, Lacks;
      while more
        invariant Owns() && inputOffset == 0 && fresh(inputBuffer.repr - old(inputBuffer.repr))
        invariant more ==> input != null && inputSize == LINE_BUFFER_SIZE && delivered == old(delivered)
        invariant input == old(input) || input == null
        invariant more ==>
          due == LineInput(inputBuffer.Contents(), results, k) && Lacks(whole, inputBuffer.Contents(), due)
        invariant !more ==> Ended(r, line) && delivered == old(delivered) + line
        invariant !more ==> due == [] && Lacks(whole, line + inputBuffer.Contents(), due)
        invariant Lacks(total, received, due)
        decreases more, LINE_MAX_SIZE - inputBuffer.size
      {
        r, line, more, due := LineTurn(results, k, total, whole, due);
        k := k + 1;
      }
      LacksNothing(total, received);
      LacksNothing(whole, line + inputBuffer.Contents());
    }

    method LineTurn(results: nat -> ReadResult, k: nat, ghost total: seq<char>, ghost whole: seq<char>,
                    ghost due: seq<char>)
      returns (r: LineResult, ghost line: seq<char>, more: bool, ghost rest: seq<char>)
      requires Owns() && inputOffset == 0 && input != null && inputSize == LINE_BUFFER_SIZE
      requires due == LineInput(inputBuffer.Contents(), results, k)
      requires Lacks(total, received, due) && Lacks(whole, inputBuffer.Contents(), due)
      modifies this`input, this`inputSize, this`received, this`delivered, inputBuffer, inputBuffer.repr
      ensures Owns() && inputOffset == 0 && fresh(inputBuffer.repr - old(inputBuffer.repr))
      ensures input == old(input) || input == null
      ensures more ==> input != null && inputSize == LINE_BUFFER_SIZE && delivered == old(delivered)
      ensures more ==> old(inputBuffer.size) < inputBuffer.size <= LINE_MAX_SIZE
      ensures more ==>
        rest == LineInput(inputBuffer.Contents(), results, k + 1) && Lacks(whole, inputBuffer.Contents(), rest)
      ensures !more ==> Ended(r, line) && delivered == old(delivered) + line
      ensures !more ==> rest == [] && Lacks(whole, line + inputBuffer.Contents(), rest)
      ensures Lacks(total, received, rest)
    {
      hide Buffer.Valid, Buffer.Contents, Buffer.OffsetsOk, InOrder, Ended, LineInput, Asks, Chunk, Lacks;
      ghost var got, buffered, chunk := received, inputBuffer.Contents(), [];
      LineInputStep(buffered, results, k);
      r, line, more, chunk := LineStep(results(k));
      rest := if more then LineInput(inputBuffer.Contents(), results, k + 1) else [];
      LacksLess(total, got, due, chunk, rest);
      LacksLess(whole, buffered, due, chunk, rest);
    }

    /** One turn of the loop in read_line. */
    method LineStep(result: ReadResult)
      returns (r: LineResult, ghost line: seq<char>, more: bool, ghost chunk: seq<char>)
      requires Owns() && inputOffset == 0 && input != null && inputSize == LINE_BUFFER_SIZE
      modifies this`input, this`inputSize, this`received, this`delivered, inputBuffer, inputBuffer.repr
      ensures Owns() && inputOffset == 0 && fresh(inputBuffer.repr - old(inputBuffer.repr))
      ensures input == old(input) || input == null
      ensures more ==> input != null && inputSize == LINE_BUFFER_SIZE && delivered == old(delivered)
      ensures more ==> old(inputBuffer.size) < inputBuffer.size <= LINE_MAX_SIZE
      ensures chunk == if Asks(old(inputBuffer.Contents())) then Chunk(result, LINE_BUFFER_SIZE) else []
      ensures received == old(received) + chunk && (more <==> chunk != [])
      ensures more ==> inputBuffer.Contents() == old(inputBuffer.Contents()) + chunk
      ensures !more ==> line + inputBuffer.Contents() == old(inputBuffer.Contents()) + chunk
      ensures !more ==> Ended(r, line) && delivered == old(delivered) + line
    {
      hide Buffer.Valid, Buffer.Contents, Buffer.OffsetsOk, InOrder, Chunk;
      var text;
      text, line := TakeLine();
      r, more, chunk := NoLineYet, false, [];
      if text != null {
        r := Line(text);
        FinishLine();
      } else if inputBuffer.size + inputSize > LINE_MAX_SIZE {
        r := LineTooLong;
      } else {
        chunk := Chunk(result, inputSize);
        var n := FillBuffer(result);
        more := n > 0;
      }
    }

    method FinishLine()
      requires Owns() && inputOffset == 0
      modifies this`input, this`inputSize
      ensures Owns() && input == null
    {
      input, inputSize := null, 0;
    }

    /** read_bytes: exactly so many bytes of the connection, in one piece; the buffer is not looked at. */
    method ReadBytes(results: nat -> ReadResult) returns (bytes: array?<char>, ghost read: seq<char>)
      requires Owns() && inputOffset < inputSize && (input != null ==> inputSize < input.Length)
      modifies this`input, this`inputSize, this`inputOffset, this`received, this`delivered, input
      ensures Owns() && inputBuffer.Contents() == old(inputBuffer.Contents())
      ensures received == old(received) + read && read == BytesInput(results, 0, old(inputSize - inputOffset))
      ensures BytesRead(bytes, old(Partial()), read, old(inputSize), old(delivered))
      ensures old(InOrder()) ==> (InOrder() <==> Commute(read, inputBuffer.Contents()))
      ensures old(InOrder()) && inputBuffer.size == 0 ==> InOrder()
      ensures input == old(input) || input == null || fresh(input)
    {
      hide *;
      ghost var size, offset := inputSize, inputOffset;
      AllocateBlock();
      assert inputSize == size && inputOffset == offset;
      bytes, read := ReadBlock(results);
      EmptyCommutes(read);
    }

    method AllocateBlock()
      requires Owns() && inputOffset < inputSize && (input != null ==> inputSize < input.Length)
      modifies this`input
      ensures Owns() && input != null && inputSize < input.Length && Partial() == old(Partial())
      ensures (old(InOrder()) ==> InOrder()) && (input == old(input) || fresh(input))
    {
      hide Buffer.Valid, Buffer.Contents, Buffer.OffsetsOk;
      if input == null {
        input := new char[inputSize + 1];
        assert Partial() == [];
      }
    }

    lemma EmptyCommutes(read: seq<char>)
      requires Owns()
      ensures inputBuffer.size == 0 ==> Commute(read, inputBuffer.Contents())
    {
      hide Buffer.Valid, Buffer.Contents, Buffer.OffsetsOk;
      CommutesWithNone(read);
    }

    /** Either all of the bytes are there, or those that are have been kept. */
    ghost predicate BytesRead(bytes: array?<char>, partial: seq<char>, read: seq<char>, size: nat,
                              delivered0: seq<char>)
      requires input != null ==> inputOffset <= input.Length
      reads this`input, this`inputSize, this`inputOffset, this`delivered, input, bytes
    {
      if bytes != null then
        && input == null && |partial + read| == size < bytes.Length
        && HoldsString(bytes, partial + read) && delivered == delivered0 + (partial + read)
      else
        && input != null && inputSize == size < input.Length && |Partial()| < size
        && Partial() == partial + read && delivered == delivered0
    }

    method ReadBlock(results: nat -> ReadResult) returns (bytes: array?<char>, ghost read: seq<char>)
      requires Owns() && input != null && inputOffset < inputSize < input.Length
      modifies this`input, this`inputSize, this`inputOffset, this`received, this`delivered, input
      ensures Owns() && inputBuffer.Contents() == old(inputBuffer.Contents())
      ensures received == old(received) + read && read == BytesInput(results, 0, old(inputSize - inputOffset))
      ensures BytesRead(bytes, old(Partial()), read, old(inputSize), old(delivered))
      ensures old(InOrder()) ==> (InOrder() <==> Commute(read, inputBuffer.Contents()))
      ensures input == old(input) || input == null
    {
      ghost var before, partial, buffered := delivered, Partial(), inputBuffer.Contents();
      ghost var got := before + partial + buffered;
      assert InOrder() ==> received == got;
      hide Buffer.Valid, Buffer.Contents, Buffer.OffsetsOk, HoldsString, InOrder, Commute;
      bytes := null;
      read := ReadRest(results);
      if inputOffset == inputSize {
        bytes := FinishBytes();
      }
      if received == got + read {
        ByteOrder(got, before, partial, buffered, read, delivered, Partial());
        OrderIs(got + read);
      }
    }

    lemma OrderIs(got: seq<char>)
      requires Owns() && received == got
      ensures InOrder() <==> got == delivered + Partial() + inputBuffer.Contents()
    {
    }

    /** The loop of read_bytes. */
    method ReadRest(results: nat -> ReadResult) returns (ghost read: seq<char>)
      requires Owns() && input != null && inputOffset < inputSize < input.Length
      modifies this`inputOffset, this`received, input
      ensures Owns() && Partial() == old(Partial()) + read && received == old(received) + read
      ensures read == BytesInput(results, 0, old(inputSize - inputOffset)) && input == old(input)
    {
      var k: nat, more := 0, true;
      read := BytesInput(results, 0, inputSize - inputOffset);
      ghost var due, partial, got := read, Partial() + read, received + read;
      LacksAll(Partial(), due);
      LacksAll(received, due);
      hide Owns, Partial, Chunk, Lacks, BytesInput;
      while more
        invariant Owns() && input == old(input) && inputSize == old(inputSize)
        invariant inputOffset <= inputSize < input.Length
        invariant more ==> inputOffset < inputSize
        invariant due == if more then BytesInput(results, k, inputSize - inputOffset) else []
        invariant Lacks(partial, Partial(), due) && Lacks(got, received, due)
        decreases more, inputSize - inputOffset
      {
        more, due := BytesTurn(results, k, inputSize - inputOffset, partial, got, due);
        k := k + 1;
      }
      LacksNothing(partial, Partial());
      LacksNothing(got, received);
    }

    method BytesTurn(results: nat -> ReadResult, k: nat, ghost todo: nat,
                     ghost partial: seq<char>, ghost got: seq<char>, ghost due: seq<char>)
      returns (more: bool, ghost rest: seq<char>)
      requires Owns() && input != null && inputOffset + todo == inputSize < input.Length && todo > 0
      requires due == BytesInput(results, k, todo)
      requires Lacks(partial, Partial(), due) && Lacks(got, received, due)
      modifies this`inputOffset, this`received, input
      ensures Owns() && old(inputOffset) <= inputOffset <= inputSize
      ensures (more ==> old(inputOffset) < inputOffset < inputSize)
      ensures rest == if more then BytesInput(results, k + 1, inputSize - inputOffset) else []
      ensures Lacks(partial, Partial(), rest) && Lacks(got, received, rest)
    {
      ghost var before, was, chunk, left := Partial(), received, [], todo;
      hide *;
      more, chunk, left := ReadSome(results(k), todo);
      rest := BytesInputStep(results, k, todo, chunk, more, left);
      LacksLess(partial, before, due, chunk, rest);
      LacksLess(got, was, due, chunk, rest);
      assert left == inputSize - inputOffset;
    }

    /** One turn of the loop of read_bytes. */
    method ReadSome(result: ReadResult, ghost todo: nat) returns (more: bool, ghost chunk: seq<char>, ghost left: nat)
      requires Owns() && input != null && inputOffset + todo == inputSize < input.Length && todo > 0
      modifies this`inputOffset, this`received, input
      ensures Owns() && Partial() == old(Partial()) + chunk && received == old(received) + chunk
      ensures chunk == Chunk(result, todo) && left == todo - |chunk| && inputOffset + left == inputSize
      ensures more <==> chunk != [] && |chunk| < todo
    {
      hide Buffer.Valid, Buffer.Contents, Buffer.OffsetsOk, Chunk;
      var nTodo := inputSize - inputOffset;
      chunk := Chunk(result, nTodo);
      var n := ReadInto(result, nTodo);
      inputOffset := inputOffset + n;
      more, left := 0 < n < nTodo, nTodo - n;
    }

    method FinishBytes() returns (bytes: array<char>)
      requires Owns() && input != null && inputOffset == inputSize < input.Length
      modifies this`input, this`inputSize, this`inputOffset, this`delivered, input
      ensures Owns() && input == null && bytes == old(input) && HoldsString(bytes, old(Partial()))
      ensures delivered == old(delivered) + old(Partial())
    {
      hide Buffer.Valid, Buffer.Contents, Buffer.OffsetsOk;
      bytes := input;
      delivered := delivered + Partial();
      bytes[inputSize] := '\0';
      input, inputSize, inputOffset := null, 0, 0;
    }

    /** SSL_read() into what is left of the input block. */
    method ReadInto(result: ReadResult, nTodo: nat) returns (n: nat)
      requires Owns() && input != null && inputOffset + nTodo == inputSize < input.Length
      modifies this`received, input
      ensures n == |Chunk(result, nTodo)| && received == old(received) + Chunk(result, nTodo)
      ensures input[..inputOffset + n] == old(input[..inputOffset]) + Chunk(result, nTodo)
    {
      var chunk := Chunk(result, nTodo);
      n := |chunk|;
      hide *;
      forall i | 0 <= i < n {
        input[inputOffset + i] := chunk[i];
      }
      received := received + chunk;
      assert input[inputOffset..inputOffset + n] == chunk;
      assert input[..inputOffset] == old(input[..inputOffset]);
      assert input[..inputOffset + n] == input[..inputOffset] + input[inputOffset..inputOffset + n];
    }

    /** read_cb: one piece for the read handler, if it is complete. */
    method ReadCb(results: nat -> ReadResult) returns (ghost given: seq<seq<char>>)
      requires Ready() && reading
      modifies this, input, inputBuffer, inputBuffer.repr
      ensures Ready() && fresh(inputBuffer.repr - old(inputBuffer.repr))
      ensures (input == old(input) || input == null || fresh(input))
      ensures asked == old(asked) && bypassed == old(bypassed) && lineMode == old(lineMode) && old(received) <= received
      ensures pieces == old(pieces) + given && |given| == if reading || gaveUp then 0 else 1
      ensures old(lineMode) ==> LineTaken(old(received), old(inputBuffer.Contents()), results, given)
      ensures !old(lineMode) ==> inputBuffer.Contents() == old(inputBuffer.Contents()) && !gaveUp
      ensures !old(lineMode) ==> BytesTaken(old(received), old(Partial()), old(inputSize), results, given)
    {
      assert this !in inputBuffer.repr;
      hide Owns, InOrder, Fits;
      if lineMode {
        given := LinesCb(results);
      } else {
        given := BytesCb(results);
      }
    }

    ghost predicate LineTaken(received0: seq<char>, buffered: seq<char>, results: nat -> ReadResult,
                              given: seq<seq<char>>)
      requires inputBuffer.OffsetsOk()
      reads this`received, this`gaveUp, inputBuffer`bytes, inputBuffer`startOffset, inputBuffer`endOffset
    {
      var got := LineInput(buffered, results, 0);
      received == received0 + got && LineOutcome(buffered, got, given, inputBuffer.Contents(), gaveUp)
    }

    ghost predicate BytesTaken(received0: seq<char>, partial: seq<char>, size: nat, results: nat -> ReadResult,
                               given: seq<seq<char>>)
      requires |partial| <= size && (input != null ==> inputOffset <= input.Length)
      reads this`received, this`input, this`inputOffset, input
    {
      var got := BytesInput(results, 0, size - |partial|);
      received == received0 + got && BytesOutcome(partial, got, size, given, Partial())
    }

    /** The read handler is called. */
    method Give(ghost piece: seq<char>)
      requires Answering(asked, pieces, delivered, piece) && Fits(asked[|asked| - 1], piece) && !gaveUp && input == null
      modifies this`reading, this`pieces
      ensures Answered() && Positioned() && !reading && pieces == old(pieces) + [piece]
    {
      hide Fits;
      reading := false;
      FlatSnoc(pieces, piece);
      pieces := pieces + [piece];
    }

    lemma StillOpen(piece: seq<char>)
      requires Answering(asked, pieces, delivered, piece) && piece == [] && (reading || gaveUp)
      requires reading ==> asked[|asked| - 1] == if lineMode then 0 else inputSize
      ensures Answered()
    {
      hide Fits;
      assert Flat(pieces) + [] == Flat(pieces);
    }

    lemma Open()
      requires Answered() && reading
      ensures Answering(asked, pieces, delivered, []) && |asked| > 0
      ensures asked[|asked| - 1] == if lineMode then 0 else inputSize
    {
      hide Fits;
      assert Flat(pieces) + [] == Flat(pieces);
    }

    method LinesCb(results: nat -> ReadResult) returns (ghost given: seq<seq<char>>)
      requires Ready() && reading && lineMode
      modifies this`input, this`inputSize, this`received, this`delivered, this`reading, this`gaveUp, this`pieces,
        inputBuffer, inputBuffer.repr
      ensures Ready() && fresh(inputBuffer.repr - old(inputBuffer.repr))
      ensures old(received) <= received && (input == old(input) || input == null || fresh(input))
      ensures pieces == old(pieces) + given && |given| == if reading || gaveUp then 0 else 1
      ensures LineTaken(old(received), old(inputBuffer.Contents()), results, given)
    {
      Open();
      assert this !in inputBuffer.repr && Positioned() && (!bypassed ==> InOrder());
      assert inputBuffer.OffsetsOk();
      hide *;
      var r;
      ghost var line, received0, buffered := [], received, inputBuffer.Contents();
      r, line := FetchLine(results);
      given := EndLine(r, line, received0, buffered, results);
    }

    method EndLine(r: LineResult, ghost line: seq<char>, ghost received0: seq<char>, ghost buffered: seq<char>,
                   ghost results: nat -> ReadResult) returns (ghost given: seq<seq<char>>)
      requires Owns() && inputOffset == 0 && this !in inputBuffer.repr && (!bypassed ==> InOrder())
      requires reading && lineMode && !gaveUp && Answering(asked, pieces, delivered, line)
      requires |asked| > 0 && asked[|asked| - 1] == 0
      requires LineRead(r, line) && if r.Line? then input == null else inputSize == LINE_BUFFER_SIZE
      requires var got := LineInput(buffered, results, 0);
        received == received0 + got && line + inputBuffer.Contents() == buffered + got
      modifies this`reading, this`gaveUp, this`pieces
      ensures Ready() && pieces == old(pieces) + given && |given| == if reading || gaveUp then 0 else 1
      ensures LineTaken(received0, buffered, results, given)
    {
      LineFits(r, line);
      OutcomeOf(r, line, buffered, LineInput(buffered, results, 0));
      hide Owns, InOrder, Answered, Answering, Fits, LineInput, LineOutcome, LineRead;
      given := if r.Line? then [line] else [];
      match r {
        case Line(_) =>
          Give(line);
        case LineTooLong =>
          reading, gaveUp := false, true;
          StillOpen(line);
        case NoLineYet =>
          StillOpen(line);
      }
    }

    lemma OutcomeOf(r: LineResult, line: seq<char>, buffered: seq<char>, got: seq<char>)
      requires Owns() && LineRead(r, line) && line + inputBuffer.Contents() == buffered + got
      ensures LineOutcome(buffered, got, if r.Line? then [line] else [], inputBuffer.Contents(), r.LineTooLong?)
    {
      hide Buffer.Valid, Buffer.Contents, Buffer.OffsetsOk;
      assert [] + inputBuffer.Contents() == inputBuffer.Contents();
    }

    method FetchLine(results: nat -> ReadResult) returns (r: LineResult, ghost line: seq<char>)
      requires Owns() && this !in inputBuffer.repr && (!bypassed ==> InOrder()) && !gaveUp
      requires inputOffset == 0 && inputSize == LINE_BUFFER_SIZE
      requires Answering(asked, pieces, delivered, []) && |asked| > 0 && asked[|asked| - 1] == 0
      modifies this`input, this`inputSize, this`received, this`delivered, inputBuffer, inputBuffer.repr
      ensures Owns() && inputOffset == 0 && fresh(inputBuffer.repr - old(inputBuffer.repr)) && (!bypassed ==> InOrder())
      ensures old(received) <= received && (input == old(input) || input == null || fresh(input))
      ensures Answering(asked, pieces, delivered, line) && |asked| > 0 && asked[|asked| - 1] == 0
      ensures this !in inputBuffer.repr && !gaveUp
      ensures LineRead(r, line) && if r.Line? then input == null else inputSize == LINE_BUFFER_SIZE
      ensures var got := LineInput(old(inputBuffer.Contents()), results, 0);
        received == old(received) + got && line + inputBuffer.Contents() == old(inputBuffer.Contents()) + got
    {
      assert inputBuffer.OffsetsOk();
      ghost var before := delivered;
      hide *;
      r, line := ReadLine(results);
      Delivered(asked, pieces, before, line);
    }

    lemma LineFits(r: LineResult, line: seq<char>)
      requires inputBuffer.OffsetsOk() && LineRead(r, line)
      ensures if r.Line? then Fits(0, line) else line == []
    {
    }

    method BytesCb(results: nat -> ReadResult) returns (ghost given: seq<seq<char>>)
      requires Ready() && reading && !lineMode
      modifies this`input, this`inputSize, this`inputOffset, this`received, this`delivered, this`reading, this`pieces,
        input
      ensures Ready() && old(received) <= received && (input == old(input) || input == null || fresh(input))
      ensures pieces == old(pieces) + given && |given| == (if reading then 0 else 1) && !gaveUp
      ensures inputBuffer.Contents() == old(inputBuffer.Contents())
      ensures BytesTaken(old(received), old(Partial()), old(inputSize), results, given)
    {
      Open();
      assert |Partial()| == inputOffset && Positioned() && this !in inputBuffer.repr
        && (!bypassed ==> InOrder() && inputBuffer.size == 0);
      hide *;
      var bytes;
      ghost var piece;
      bytes, piece := FetchBytes(results);
      EndBytes(bytes, piece);
      given := if bytes != null then [piece] else [];
    }

    method EndBytes(bytes: array?<char>, ghost piece: seq<char>)
      requires Owns() && this !in inputBuffer.repr && (!bypassed ==> InOrder() && inputBuffer.size == 0)
      requires reading && !lineMode && !gaveUp && Answering(asked, pieces, delivered, piece) && |asked| > 0
      requires if bytes != null then Fits(asked[|asked| - 1], piece) && input == null
        else piece == [] && inputOffset < inputSize == asked[|asked| - 1] && input != null && inputSize < input.Length
      modifies this`reading, this`pieces
      ensures Ready() && (reading <==> bytes == null)
      ensures pieces == old(pieces) + if bytes != null then [piece] else []
    {
      hide Owns, InOrder, Answered, Answering, Fits;
      if bytes != null {
        Give(piece);
      } else {
        StillOpen(piece);
      }
    }

    method FetchBytes(results: nat -> ReadResult) returns (bytes: array?<char>, ghost piece: seq<char>)
      requires Owns() && this !in inputBuffer.repr && |Partial()| == inputOffset < inputSize
      requires (input != null ==> inputSize < input.Length)
      requires !bypassed ==> InOrder() && inputBuffer.size == 0
      requires Answering(asked, pieces, delivered, []) && |asked| > 0 && asked[|asked| - 1] == inputSize
      modifies this`input, this`inputSize, this`inputOffset, this`received, this`delivered, input
      ensures Owns() && (!bypassed ==> InOrder() && inputBuffer.size == 0) && this !in inputBuffer.repr
      ensures old(received) <= received && (input == old(input) || input == null || fresh(input))
      ensures Answering(asked, pieces, delivered, piece) && |asked| > 0
      ensures inputBuffer.Contents() == old(inputBuffer.Contents())
      ensures BytesTaken(old(received), old(Partial()), old(inputSize), results, if bytes != null then [piece] else [])
      ensures if bytes != null then Fits(asked[|asked| - 1], piece) && input == null
        else piece == [] && inputOffset < inputSize == asked[|asked| - 1] && input != null && inputSize < input.Length
    {
      hide *;
      ghost var received0, delivered0, partial, size, read := received, delivered, Partial(), inputSize, [];
      bytes, read := ReadBytes(results);
      piece := Taken(bytes, received0, delivered0, partial, size, results, read);
      Delivered(asked, pieces, delivered0, piece);
    }

    lemma Taken(bytes: array?<char>, received0: seq<char>, delivered0: seq<char>, partial: seq<char>, size: nat,
                results: nat -> ReadResult, read: seq<char>) returns (piece: seq<char>)
      requires Owns() && |partial| <= size && size > 0
      requires received == received0 + read && read == BytesInput(results, 0, size - |partial|)
      requires BytesRead(bytes, partial, read, size, delivered0)
      ensures BytesTaken(received0, partial, size, results, if bytes != null then [piece] else [])
      ensures delivered == delivered0 + piece
      ensures if bytes != null then Fits(size, piece) && input == null
        else piece == [] && inputOffset < inputSize == size && input != null && inputSize < input.Length
    {
      piece := if bytes != null then partial + read else [];
      hide BytesInput, HoldsString;
    }

    ghost function Now(): InputMoment
      requires Ready()
      reads this, input, inputBuffer, inputBuffer.repr
    {
      InputMoment(asked, pieces, received, inputBuffer.Contents(), Partial(), reading, gaveUp)
    }

    lemma WhatIsNow()
      requires Ready()
      ensures inputBuffer.OffsetsOk() && (input != null ==> inputOffset <= input.Length)
      ensures Now() == InputMoment(asked, pieces, received, inputBuffer.Contents(), Partial(), reading, gaveUp)
      ensures reading ==> |asked| > 0 && asked[|asked| - 1] == (if lineMode then 0 else inputSize) && !gaveUp
      ensures reading && lineMode ==> Partial() == []
      ensures reading && !lineMode ==> |Partial()| < inputSize
      ensures !reading && !gaveUp ==> input == null && Partial() == []
      ensures gaveUp ==> !reading && this !in inputBuffer.repr
      ensures this !in inputBuffer.repr
    {
      hide Buffer.Valid, Buffer.Contents, Buffer.OffsetsOk, InOrder, Fits;
    }

    /** One request, if none is open, or one readable event, if the watcher is active. */
    method Handle(e: InputEvent)
      requires Ready()
      modifies this, input, inputBuffer, inputBuffer.repr
      ensures Ready() && fresh(inputBuffer.repr - old(inputBuffer.repr))
      ensures input == old(input) || input == null || fresh(input)
      ensures InputStep(e, old(Now()), Now()) && (old(bypassed) ==> bypassed)
    {
      WhatIsNow();
      ghost var a := Now();
      hide *;
      match e {
        case Ask(size) =>
          if !reading && !gaveUp {
            StartRead(size);
            WhatIsNow();
            IsAsked(a, Now(), size);
          } else {
            NothingAsked(a, size);
          }
        case Readable(results) =>
          if reading {
            HandleReadable(a, results);
          } else {
            NothingRead(a, results);
          }
      }
    }

    method HandleReadable(ghost a: InputMoment, results: nat -> ReadResult)
      requires Ready() && reading && a == Now()
      modifies this, input, inputBuffer, inputBuffer.repr
      ensures Ready() && fresh(inputBuffer.repr - old(inputBuffer.repr)) && bypassed == old(bypassed)
      ensures input == old(input) || input == null || fresh(input)
      ensures InputStep(Readable(results), a, Now())
    {
      WhatIsNow();
      ghost var lines, size := lineMode, inputSize;
      hide *;
      ghost var given := ReadCb(results);
      WhatIsNow();
      if lines {
        LineIsStep(a, results, given);
      } else {
        BytesAreStep(a, results, given, size);
      }
    }

    lemma LineIsStep(a: InputMoment, results: nat -> ReadResult, given: seq<seq<char>>)
      requires Ready() && lineMode && a.reading && |a.asked| > 0 && a.asked[|a.asked| - 1] == 0 && a.partial == []
      requires asked == a.asked && pieces == a.pieces + given && |given| == if reading || gaveUp then 0 else 1
      requires LineTaken(a.received, a.buffered, results, given)
      ensures InputStep(Readable(results), a, Now())
    {
      WhatIsNow();
      assert pieces[|a.pieces|..] == given;
      hide Buffer.Contents, Buffer.Valid, Buffer.OffsetsOk, LineInput, LineOutcome, Ready;
    }

    lemma BytesAreStep(a: InputMoment, results: nat -> ReadResult, given: seq<seq<char>>, size: nat)
      requires Ready() && !lineMode && a.reading && |a.asked| > 0 && a.asked[|a.asked| - 1] == size > 0
      requires |a.partial| < size && !gaveUp && inputBuffer.Contents() == a.buffered
      requires asked == a.asked && pieces == a.pieces + given && |given| == if reading then 0 else 1
      requires BytesTaken(a.received, a.partial, size, results, given)
      ensures InputStep(Readable(results), a, Now())
    {
      WhatIsNow();
      assert pieces[|a.pieces|..] == given;
      hide Buffer.Contents, Buffer.Valid, Buffer.OffsetsOk, BytesInput, BytesOutcome, Ready;
    }

    /**
      Any run of requests and readable events: each request is recorded if none is open,
      each readable event takes what SSL_read() returns and answers the request if it is
      complete. The read handlers get one piece for each request, as asked for, and if no
      request for a number of bytes was made with bytes in the line buffer, then what has
      been handed out, the unfinished piece and the buffer are everything received, in
      order.
     */
    method Run(events: seq<InputEvent>) returns (ghost moments: seq<InputMoment>)
      requires Ready()
      modifies this, input, inputBuffer, inputBuffer.repr
      ensures Ready() && (old(bypassed) ==> bypassed)
      ensures InputSteps(events, moments) && moments[0] == old(Now()) && moments[|events|] == Now()
      ensures !bypassed ==> received == Flat(pieces) + Partial() + inputBuffer.Contents()
    {
      moments := [Now()];
      assert events[..0] == [];
      NoSteps(moments);
      hide *;
      for i := 0 to |events|
        invariant Ready() && fresh(inputBuffer.repr - old(inputBuffer.repr))
        invariant (input == old(input) || input == null || fresh(input)) && (old(bypassed) ==> bypassed)
        invariant |moments| == i + 1 && moments[0] == old(Now()) && moments[i] == Now()
        invariant InputSteps(events[..i], moments)
      {
        Handle(events[i]);
        OneMoreStep(events, i, moments, Now());
        moments := moments + [Now()];
      }
      assert events[..|events|] == events;
      WhenReady();
    }

    lemma Empty()
      requires Ready() && received == delivered == [] && !bypassed
      ensures inputBuffer.OffsetsOk() && inputBuffer.Contents() == []
    {
      assert |received| == |delivered| + |Partial()| + |inputBuffer.Contents()|;
    }

    lemma LineGiven(received0: seq<char>, buffered: seq<char>, results: nat -> ReadResult, given: seq<seq<char>>)
      requires Ready() && LineTaken(received0, buffered, results, given)
      ensures inputBuffer.OffsetsOk()
      ensures received == received0 + LineInput(buffered, results, 0)
      ensures LineOutcome(buffered, LineInput(buffered, results, 0), given, inputBuffer.Contents(), gaveUp)
    {
    }

    lemma ByteGiven(received0: seq<char>, results: nat -> ReadResult, given: seq<seq<char>>, next: char)
      requires Ready() && BytesTaken(received0, [], 1, results, given)
      requires BytesInput(results, 0, 1) == [next]
      ensures received == received0 + [next] && given == [[next]] && Partial() == []
    {
      assert [] + [next] == [next];
    }

    lemma OutOfOrder(handed: seq<char>)
      requires Ready() && Flat(pieces) == handed && received != handed + Partial() + inputBuffer.Contents()
      ensures !InOrder()
    {
    }

    method TakeRequest(results: nat -> ReadResult, ghost request: seq<char>, ghost surplus: seq<char>)
      requires Ready() && reading && lineMode && input == null && !bypassed
      requires received == [] && pieces == [] && inputBuffer.Contents() == []
      requires LineInput([], results, 0) == request + surplus
      requires FirstAfter(request, '\n') == |request| > 0
      modifies this, inputBuffer, inputBuffer.repr
      ensures Ready() && !reading && !gaveUp && !bypassed && fresh(inputBuffer.repr - old(inputBuffer.repr))
      ensures received == request + surplus && pieces == [request]
      ensures inputBuffer.Contents() == surplus && inputBuffer.size == |surplus|
    {
      hide *;
      ghost var given := ReadCb(results);
      LineGiven([], [], results, given);
      TakesFirstLine(request, surplus, given, inputBuffer.Contents(), gaveUp);
      AtRest();
      assert [] + (request + surplus) == request + surplus && [] + [request] == [request];
    }

    method TakeByte(results: nat -> ReadResult, ghost next: char)
      requires Ready() && reading && !lineMode && input == null && inputSize == 1 && Partial() == []
      requires BytesInput(results, 0, 1) == [next]
      modifies this, inputBuffer, inputBuffer.repr
      ensures Ready() && bypassed == old(bypassed) && inputBuffer.Contents() == old(inputBuffer.Contents())
      ensures Partial() == []
      ensures received == old(received) + [next] && pieces == old(pieces) + [[next]]
    {
      hide *;
      ghost var given := ReadCb(results);
      ByteGiven(old(received), results, given, next);
    }

    lemma AtRest()
      requires Ready() && !reading && !gaveUp
      ensures input == null && inputBuffer.OffsetsOk() && inputBuffer.size == |inputBuffer.Contents()|
    {
    }

    lemma WhenReady()
      requires Ready()
      ensures Owns() && Answered()
      ensures !bypassed ==> received == Flat(pieces) + Partial() + inputBuffer.Contents()
    {
    }
  }

  function Always(r: ReadResult): nat -> ReadResult {
    k => r
  }

  /** A client that does not wait: what it sends behind its request line stays in the line buffer. */
  method PipelinedRequest(request: seq<char>, surplus: seq<char>) returns (s: InputStream)
    requires FirstAfter(request, '\n') == |request| > 0 && |request + surplus| <= LINE_BUFFER_SIZE
    ensures s.Ready() && !s.reading && !s.gaveUp && !s.bypassed
    ensures fresh(s) && fresh(s.inputBuffer) && fresh(s.inputBuffer.repr)
    ensures s.received == request + surplus && s.pieces == [request]
    ensures s.inputBuffer.Contents() == surplus && s.inputBuffer.size == |surplus|
  {
    hide *;
    s := NewRequest();
    TextComes(request, surplus);
    s.TakeRequest(Always(Got(request + surplus)), request, surplus);
  }

  lemma TextComes(request: seq<char>, surplus: seq<char>)
    requires FirstAfter(request, '\n') > 0 && |request + surplus| <= LINE_BUFFER_SIZE
    ensures LineInput([], Always(Got(request + surplus)), 0) == request + surplus
  {
    FirstOfBoth(request, surplus, '\n');
    LineComes(Always(Got(request + surplus)), request + surplus);
    hide LineInput, FirstAfter;
  }

  method NewRequest() returns (s: InputStream)
    ensures s.Ready() && s.reading && s.lineMode && s.input == null && !s.bypassed
    ensures fresh(s) && fresh(s.inputBuffer) && fresh(s.inputBuffer.repr)
    ensures s.received == [] && s.pieces == [] && s.inputBuffer.Contents() == []
  {
    hide *;
    s := new InputStream();
    s.Empty();
    s.StartRead(0);
  }

  /** The bytes read next overtake it. */
  method PipelinedDataIsOvertaken(request: seq<char>, surplus: seq<char>, next: char) returns (s: InputStream)
    requires FirstAfter(request, '\n') == |request| > 0 && |surplus| > 0 && |request + surplus| <= LINE_BUFFER_SIZE
    requires next != surplus[0]
    ensures s.Ready() && s.bypassed && !s.InOrder()
    ensures s.received == request + surplus + [next] && s.pieces == [request, [next]]
    ensures s.inputBuffer.Contents() == surplus
  {
    OneByteComes(Always(Got([next])), next);
    Overtakes(request, surplus, next);
    assert [request] + [[next]] == [request, [next]];
    hide *;
    s := PipelinedRequest(request, surplus);
    s.StartRead(1);
    s.TakeByte(Always(Got([next])), next);
    s.OutOfOrder(request + [next]);
  }

  function PushOne(): seq<char> {
    "PUSH 1\r" + ['\n']
  }

  /** The request for one byte, with two bytes behind it: the second is taken for the first. */
  method PipelinedPush() returns (s: InputStream)
    ensures s.Ready() && !s.InOrder() && s.received == PushOne() + ['A'] + ['B'] && s.pieces == [PushOne(), ['B']]
  {
    LineEnds("PUSH 1\r");
    assert |PushOne()| == 8;
    hide FirstAfter, PushOne;
    s := PipelinedDataIsOvertaken(PushOne(), ['A'], 'B');
  }

  lemma LineEnds(text: seq<char>)
    requires '\n' !in text
    ensures FirstAfter(text + ['\n'], '\n') == |text| + 1
  {
    var line := text + ['\n'];
    assert line[|text|] == '\n';
    var pos := FirstAfter(line, '\n');
    assert line[pos - 1] !in text;
  }

  lemma OneByteComes(results: nat -> ReadResult, next: char)
    requires results(0) == Got([next])
    ensures BytesInput(results, 0, 1) == [next]
  {
  }

  lemma Overtakes(request: seq<char>, surplus: seq<char>, next: char)
    requires |surplus| > 0 && next != surplus[0]
    ensures Flat([request, [next]]) == request + [next] && request + surplus + [next] != request + [next] + [] + surplus
  {
    assert [request, [next]] == [request] + [[next]];
    FlatSnoc([], request);
    FlatSnoc([request], [next]);
    assert [] + [request] == [request];
    assert (request + surplus + [next])[|request|] == surplus[0];
    assert (request + [next] + [] + surplus)[|request|] == next;
  }

  lemma LineComes(results: nat -> ReadResult, text: seq<char>)
    requires results(0) == Got(text) && '\n' in text && |text| <= LINE_BUFFER_SIZE
    ensures LineInput([], results, 0) == text
  {
    assert text[..|text|] == text && [] + text == text;
    assert !Asks(text) && LineInput(text, results, 1) == [];
  }

  lemma TakesFirstLine(request: seq<char>, surplus: seq<char>, given: seq<seq<char>>, left: seq<char>, gaveUp: bool)
    requires FirstAfter(request, '\n') == |request| > 0 && LineOutcome([], request + surplus, given, left, gaveUp)
    ensures given == [request] && left == surplus && !gaveUp
  {
    assert [] + (request + surplus) == request + surplus;
    FirstOfBoth(request, surplus, '\n');
    if given != [] {
      FirstOfBoth(given[0], left, '\n');
      SplitAlike(request, surplus, given[0], left);
    }
  }

  lemma SplitAlike(a: seq<char>, b: seq<char>, c: seq<char>, d: seq<char>)
    requires a + b == c + d && |a| == |c|
    ensures a == c && b == d
  {
    assert (a + b)[..|a|] == a && (c + d)[..|a|] == c;
    assert (a + b)[|a|..] == b && (c + d)[|a|..] == d;
  }

  ghost predicate Commute(a: seq<char>, b: seq<char>) {
    a + b == b + a
  }

  /** Bytes that overtake what is buffered do no harm only if the two commute. */
  lemma Reordered(a: seq<char>, buffered: seq<char>, read: seq<char>)
    ensures a + buffered + read == a + read + buffered <==> Commute(read, buffered)
  {
    assert (a + buffered + read)[|a|..] == buffered + read;
    assert (a + read + buffered)[|a|..] == read + buffered;
  }

  /**
    What read_bytes can still get of a request that lacks `todo` bytes stays in order,
    whatever it is, if and only if the line buffer is empty.
   */
  lemma OrderKeptIffBufferEmpty(buffered: seq<char>, todo: nat)
    requires todo > 0
    ensures (forall results: nat -> ReadResult :: Commute(BytesInput(results, 0, todo), buffered)) <==> buffered == []
  {
    if buffered == [] {
      forall results: nat -> ReadResult
        ensures Commute(BytesInput(results, 0, todo), buffered)
      {
        CommutesWithNone(BytesInput(results, 0, todo));
      }
    } else {
      var other := if buffered[0] == 'A' then 'B' else 'A';
      var results := (k: nat) => if k == 0 then Got([other]) else ReadAgain;
      assert BytesInput(results, 1, todo - 1) == [];
      assert BytesInput(results, 0, todo) == [other];
      assert ([other] + buffered)[0] == other && (buffered + [other])[0] == buffered[0];
    }
  }

  lemma CommutesWithNone(read: seq<char>)
    ensures Commute(read, [])
  {
    assert read + [] == read && [] + read == read;
  }

  lemma ByteOrder(received: seq<char>, delivered: seq<char>, partial: seq<char>, buffered: seq<char>, read: seq<char>,
                  delivered': seq<char>, partial': seq<char>)
    requires (delivered' == delivered && partial' == partial + read)
      || (delivered' == delivered + (partial + read) && partial' == [])
    requires received == delivered + partial + buffered
    ensures received + read == delivered' + partial' + buffered <==> Commute(read, buffered)
  {
    Reordered(delivered + partial, buffered, read);
    Regroup(delivered, partial, read);
    assert delivered + (partial + read) + [] == delivered + (partial + read);
  }

  lemma LineOrder(received: seq<char>, delivered: seq<char>, buffered: seq<char>, got: seq<char>, line: seq<char>,
                  left: seq<char>)
    requires line + left == buffered + got
    ensures received == delivered + [] + buffered ==> received + got == delivered + line + [] + left
  {
    Regroup(delivered, buffered, got);
    Regroup(delivered, line, left);
    assert delivered + [] == delivered && delivered + line + [] == delivered + line;
  }

  lemma CutAt(s: seq<char>, k: nat)
    requires k <= |s|
    ensures s[..k] + s[k..] == s && s[0..] == s
  {
  }

  lemma LineOf(s: seq<char>, pos: nat)
    requires pos == FirstAfter(s, '\n') > 0
    ensures FirstAfter(s[..pos], '\n') == |s[..pos]| == pos && s[..pos][..pos - 1] == s[..pos - 1]
  {
    FirstOfPrefix(s, '\n');
  }

  lemma FirstOfPrefix(s: seq<char>, c: char)
    requires FirstAfter(s, c) > 0
    ensures FirstAfter(s[..FirstAfter(s, c)], c) == FirstAfter(s, c)
  {
    var pos := FirstAfter(s, c);
    assert s[..pos][..pos - 1] == s[..pos - 1];
    assert NotBefore(s[..pos], pos, c);
    OneMore(s[..pos], pos, c);
  }
}
