/**
  The server's end of the protocol reads through the TLS stream: each call of read_cb,
  with the handler that it calls and the handler's next request, is a sequence of the
  protocol's events.
 */
module ServerReader {
  import opened ByteBuffer
  import opened Protocol
  import opened Sequences
  import opened Text
  import TlsStream

  type Stream = TlsStream.InputStream
  type Results = nat -> TlsStream.ReadResult

  predicate Reads(m: ServerMode) {
    LineMode(m) || m.Bytes?
  }

  /** What SSL_read() hands out during one call of read_cb. */
  function Input(s: State, results: Results): string {
    if s.server.Bytes? then
      if |s.part| < s.server.n then TlsStream.BytesInput(results, 0, s.server.n - |s.part|) else ""
    else TlsStream.LineInput(s.serverBuf, results, 0)
  }

  /** The channel hands out what has been sent. */
  predicate Deliverable(s: State, results: Results) {
    Input(s, results) <= s.toServer
  }

  /** The bytes have come in, into the line buffer or the block. */
  function Filled(s: State, got: string): State
    requires |got| <= |s.toServer|
  {
    if s.server.Bytes? then s.(part := s.part + got, toServer := s.toServer[|got|..])
    else s.(serverBuf := s.serverBuf + got, toServer := s.toServer[|got|..])
  }

  /** The bytes have come in, and what is not to be handled yet is left in the line buffer. */
  function Left(s: State, got: string, left: string): State
    requires |got| <= |s.toServer|
  {
    if s.server.Bytes? then Filled(s, got) else s.(serverBuf := left, toServer := s.toServer[|got|..])
  }

  /** handle_handshake or handle_connection */
  function LineHandled(cfg: Config, s: State, line: string): State {
    var r := if s.server.Handshake? then HandleHandshake(line) else HandleConnection(line, cfg.maxSize);
    s.(server := r.next, toClient := s.toClient + r.reply)
  }

  /** What the server's read handler makes of a piece. */
  function Handled(cfg: Config, s: State, piece: string): State {
    if s.server.Bytes? then Pushed(cfg, s, piece)
    else LineHandled(cfg, s, CString(Chomped(if piece == "" then "" else piece[..|piece| - 1])))
  }

  function Complete(cfg: Config, s: State): State {
    if s.server.Bytes? && |s.part| == s.server.n then Pushed(cfg, s, s.part) else s
  }

  /** The protocol's state after one call of read_cb. */
  function Served(cfg: Config, s: State, results: Results): State
    requires Deliverable(s, results)
  {
    var t := Filled(s, Input(s, results));
    if s.server.Bytes? then Complete(cfg, t)
    else if Enabled(cfg, t, ServerLine) then Next(cfg, t, ServerLine)
    else if Enabled(cfg, t, ServerLineTooLong) then Next(cfg, t, ServerLineTooLong)
    else t
  }

  // ----- One call of read_cb is a sequence of events -----

  lemma {:induction false} RunsOn(cfg: Config, s: State, events: seq<Event>, t: State, more: seq<Event>, s': State)
    requires Runs(cfg, s, events, t) && Runs(cfg, t, more, s')
    ensures Runs(cfg, s, events + more, s')
    decreases |events|
  {
    hide Next, Enabled;
    if events == [] {
      assert events + more == more;
    } else {
      RunsOn(cfg, Next(cfg, s, events[0]), events[1..], t, more, s');
      assert (events + more)[1..] == events[1..] + more;
    }
  }

  lemma RunsFirst(cfg: Config, s: State, e: Event, more: seq<Event>, s': State)
    requires Enabled(cfg, s, e) && Runs(cfg, Next(cfg, s, e), more, s')
    ensures Runs(cfg, s, [e] + more, s')
  {
    hide Next, Enabled;
    assert ([e] + more)[1..] == more;
  }

  lemma {:induction false} LineReads(cfg: Config, s: State, results: Results, k: nat) returns (events: seq<Event>)
    requires LineMode(s.server) && TlsStream.LineInput(s.serverBuf, results, k) <= s.toServer
    ensures Runs(cfg, s, events, Filled(s, TlsStream.LineInput(s.serverBuf, results, k)))
    decreases LINE_MAX_SIZE - |s.serverBuf|
  {
    var got := TlsStream.LineInput(s.serverBuf, results, k);
    if got == "" {
      events := [];
      assert s.serverBuf + "" == s.serverBuf;
    } else {
      var chunk := TlsStream.Chunk(results(k), LINE_BUFFER_SIZE);
      var rest := TlsStream.LineInput(s.serverBuf + chunk, results, k + 1);
      FilledTwice(s, chunk, rest);
      var t := Next(cfg, s, ServerRead(|chunk|));
      assert t == Filled(s, chunk);
      var more := LineReads(cfg, t, results, k + 1);
      RunsFirst(cfg, s, ServerRead(|chunk|), more, Filled(s, got));
      events := [ServerRead(|chunk|)] + more;
    }
  }

  lemma {:induction false} BytesReads(cfg: Config, s: State, results: Results, k: nat) returns (events: seq<Event>)
    requires s.server.Bytes? && |s.part| < s.server.n
    requires TlsStream.BytesInput(results, k, s.server.n - |s.part|) <= s.toServer
    ensures var got := TlsStream.BytesInput(results, k, s.server.n - |s.part|);
      Runs(cfg, s, events, Complete(cfg, Filled(s, got)))
    decreases if s.server.Bytes? then s.server.n - |s.part| else 0
  {
    var todo := s.server.n - |s.part|;
    var got, chunk := TlsStream.BytesInput(results, k, todo), TlsStream.Chunk(results(k), todo);
    if chunk == "" {
      events := [];
      assert s.part + "" == s.part;
    } else {
      var rest := TlsStream.BytesInput(results, k + 1, todo - |chunk|);
      var t, end := Filled(s, chunk), Complete(cfg, Filled(s, got));
      FilledTwice(s, chunk, rest);
      BytesComeIn(cfg, s, chunk);
      hide Filled, Complete, Next, Enabled, Runs;
      var more := [];
      if |chunk| < todo {
        assert t.server.n - |t.part| == todo - |chunk|;
        more := BytesReads(cfg, t, results, k + 1);
      } else {
        assert chunk + rest == chunk && got == chunk;
      }
      RunsFirst(cfg, s, ServerBytes(|chunk|), more, end);
      events := [ServerBytes(|chunk|)] + more;
    }
  }

  lemma BytesComeIn(cfg: Config, s: State, chunk: string)
    requires s.server.Bytes? && chunk <= s.toServer && 0 < |chunk| <= s.server.n - |s.part|
    ensures Enabled(cfg, s, ServerBytes(|chunk|)) && Filled(s, chunk).part == s.part + chunk
    ensures Filled(s, chunk).server == s.server && Filled(s, chunk).toServer == s.toServer[|chunk|..]
    ensures var t := Next(cfg, s, ServerBytes(|chunk|));
      if |s.part + chunk| == s.server.n then t == Complete(cfg, Filled(s, chunk)) else t == Filled(s, chunk)
  {
    assert s.toServer[..|chunk|] == chunk;
    hide Pushed;
  }

  /** The events of one call of read_cb and of the handler that it calls. */
  lemma ServedRuns(cfg: Config, s: State, results: Results) returns (events: seq<Event>)
    requires Reads(s.server) && (s.server.Bytes? ==> |s.part| < s.server.n) && Deliverable(s, results)
    ensures Runs(cfg, s, events, Served(cfg, s, results))
  {
    if s.server.Bytes? {
      events := BytesReads(cfg, s, results, 0);
    } else {
      events := LineReads(cfg, s, results, 0);
      var t := Filled(s, Input(s, results));
      hide Next, Filled, Input, Runs;
      if Enabled(cfg, t, ServerLine) {
        RunsLast(cfg, s, events, t, ServerLine);
        events := events + [ServerLine];
      } else if Enabled(cfg, t, ServerLineTooLong) {
        RunsLast(cfg, s, events, t, ServerLineTooLong);
        events := events + [ServerLineTooLong];
      }
    }
  }

  lemma RunsLast(cfg: Config, s: State, events: seq<Event>, t: State, e: Event)
    requires Runs(cfg, s, events, t) && Enabled(cfg, t, e)
    ensures Runs(cfg, s, events + [e], Next(cfg, t, e))
  {
    hide Next, Enabled;
    RunsFirst(cfg, t, e, [], Next(cfg, t, e));
    RunsOn(cfg, s, events, t, [e], Next(cfg, t, e));
  }

  lemma FilledTwice(s: State, chunk: string, rest: string)
    requires chunk + rest <= s.toServer
    ensures chunk == s.toServer[..|chunk|] && rest <= Filled(s, chunk).toServer
    ensures Filled(Filled(s, chunk), rest) == Filled(s, chunk + rest)
  {
    var all := s.toServer;
    assert (chunk + rest)[..|chunk|] == chunk && (chunk + rest)[|chunk|..] == rest;
    assert all[|chunk|..][|rest|..] == all[|chunk + rest|..];
    Regroup(s.part, chunk, rest);
    Regroup(s.serverBuf, chunk, rest);
  }

  // ----- What the handler is given -----

  /** The event ServerLine: its line is taken from the buffer and handled. */
  lemma LineIsHandled(cfg: Config, t: State, line: string, left: string)
    requires LineMode(t.server) && t.serverBuf == line + left && FirstAfter(line, '\n') == |line| > 0
    ensures Enabled(cfg, t, ServerLine) && Next(cfg, t, ServerLine) == Handled(cfg, t.(serverBuf := left), line)
  {
    TakenIs(t.serverBuf, line, left);
    hide FirstAfter;
    NextLine(cfg, t);
    hide *;
    HandledLine(cfg, t.(serverBuf := left), line);
  }

  lemma NextLine(cfg: Config, t: State)
    requires LineMode(t.server) && FirstAfter(t.serverBuf, '\n') > 0
    ensures Enabled(cfg, t, ServerLine)
    ensures var rest := t.serverBuf[FirstAfter(t.serverBuf, '\n')..];
      Next(cfg, t, ServerLine) == LineHandled(cfg, t.(serverBuf := rest), Taken(t.serverBuf))
  {
    hide FirstAfter, HandleHandshake, HandleConnection, Taken;
  }

  lemma HandledLine(cfg: Config, s: State, line: string)
    requires LineMode(s.server) && line != ""
    ensures Handled(cfg, s, line) == LineHandled(cfg, s, CString(Chomped(line[..|line| - 1])))
  {
    hide CString, Chomped, LineHandled;
  }

  lemma TakenIs(buf: string, line: string, left: string)
    requires buf == line + left && FirstAfter(line, '\n') == |line| > 0
    ensures FirstAfter(buf, '\n') == |line| && buf[|line|..] == left
    ensures Taken(buf) == CString(Chomped(line[..|line| - 1]))
  {
    FirstOfBoth(line, left, '\n');
    var n := |line|;
    hide *;
    assert buf[..n] == line && buf[n..] == left;
    WhatIsTaken(buf, n);
    Shorter(buf, line, n);
  }

  lemma WhatIsTaken(buf: string, n: nat)
    requires FirstAfter(buf, '\n') == n > 0
    ensures Taken(buf) == CString(Chomped(buf[..n - 1]))
  {
    hide FirstAfter, CString, Chomped;
  }

  lemma Shorter(s: string, t: string, n: nat)
    requires 0 < n <= |s| && s[..n] == t
    ensures s[..n - 1] == t[..n - 1]
  {
    assert s[..n][..n - 1] == s[..n - 1];
  }

  /** A line is handed out exactly if the protocol's server handles one, and it is that line. */
  lemma AfterLine(cfg: Config, s: State, results: Results, given: seq<string>, left: string, gaveUp: bool)
    requires LineMode(s.server) && Deliverable(s, results) && s.part == ""
    requires TlsStream.LineOutcome(s.serverBuf, Input(s, results), given, left, gaveUp)
    ensures var s', got := Served(cfg, s, results), Input(s, results);
      && (given != [] ==> s' == Handled(cfg, Left(s, got, left), given[0]) && Asking(s') && !gaveUp)
      && s'.serverBuf == left && s'.part == ""
      && (given == [] ==> if gaveUp then s'.server.Closed? else s'.server == s.server)
  {
    var t := Filled(s, Input(s, results));
    assert t.serverBuf == s.serverBuf + Input(s, results) && t.server == s.server;
    hide Handled, FirstAfter, Input;
    if given == [] {
      NoneBefore(left);
    } else {
      assert t.(serverBuf := left) == Left(s, Input(s, results), left);
      assert Left(s, Input(s, results), left).part == "";
      hide Filled, Enabled, Left, Next, Asking;
      LineIsHandled(cfg, t, given[0], left);
      NextMode(cfg, t.(serverBuf := left), given[0]);
    }
  }

  /** The bytes asked for are more than none. */
  predicate Asking(s: State) {
    s.part == "" && (s.server.Bytes? ==> s.server.n > 0)
  }

  /** The handler leaves the buffer alone, and asks for more than no bytes. */
  lemma NextMode(cfg: Config, s: State, piece: string)
    requires s.server.Bytes? || s.part == ""
    ensures Handled(cfg, s, piece).serverBuf == s.serverBuf && Asking(Handled(cfg, s, piece))
  {
    hide CString, Chomped, StartsWith, Words, Atoi, Line;
  }

  lemma NoneBefore(s: string)
    requires '\n' !in s
    ensures FirstAfter(s, '\n') == 0
  {
  }

  lemma AfterBytes(cfg: Config, s: State, results: Results, given: seq<string>, left: string)
    requires s.server.Bytes? && |s.part| < s.server.n && Deliverable(s, results)
    requires TlsStream.BytesOutcome(s.part, Input(s, results), s.server.n, given, left)
    ensures var s', got := Served(cfg, s, results), Input(s, results);
      && (given != [] ==> s' == Handled(cfg, Left(s, got, s.serverBuf), given[0]) && Asking(s'))
      && s'.serverBuf == s.serverBuf && (given == [] ==> s'.part == left && s'.server == s.server)
  {
    hide Pushed;
    if given != [] {
      NextMode(cfg, Filled(s, Input(s, results)), given[0]);
    }
  }

  // ----- The stream and the server together -----

  /** The reading half of the connection is where the protocol's server is. */
  ghost predicate Shows(stream: Stream, s: State)
    reads stream, stream.input, stream.inputBuffer, stream.inputBuffer.repr
  {
    && stream.Ready()
    && (!s.server.Closed? ==>
          stream.inputBuffer.Contents() == s.serverBuf && stream.Partial() == s.part && !stream.gaveUp)
    && (LineMode(s.server) ==> stream.reading && stream.lineMode)
    && (s.server.Bytes? ==> stream.reading && !stream.lineMode && stream.inputSize == s.server.n)
    && (s.server.Deaf? ==> !stream.reading)
  }

  /** The handler has been called, and has not asked for anything yet. */
  ghost predicate Halted(stream: Stream, s: State)
    reads stream, stream.input, stream.inputBuffer, stream.inputBuffer.repr
  {
    && stream.Ready() && !stream.reading && !stream.gaveUp
    && stream.inputBuffer.Contents() == s.serverBuf && Asking(s)
  }

  lemma WhileReading(stream: Stream, s: State)
    requires Shows(stream, s) && Reads(s.server)
    ensures stream.Ready() && stream.reading && (stream.lineMode <==> LineMode(s.server))
    ensures stream.inputBuffer.OffsetsOk()
    ensures (stream.input != null ==> stream.inputOffset <= stream.input.Length)
    ensures |stream.asked| > 0 && stream.asked[|stream.asked| - 1] == if LineMode(s.server) then 0 else s.server.n
    ensures stream.inputBuffer.Contents() == s.serverBuf && stream.Partial() == s.part
    ensures if LineMode(s.server) then s.part == "" else |s.part| < s.server.n == stream.inputSize
    ensures stream !in stream.inputBuffer.repr
  {
    hide Buffer.Valid, Buffer.Contents, Buffer.OffsetsOk, TlsStream.Fits;
  }

  /** The handler asks for a line, for the bytes of a command, or for nothing. */
  method Resume(stream: Stream, s: State)
    requires Halted(stream, s)
    modifies stream`inputSize, stream`lineMode, stream`reading, stream`asked, stream`bypassed
    ensures Shows(stream, s) && (s.server.Closed? ==> !stream.reading)
    ensures stream.bypassed ==> old(stream.bypassed) || (s.server.Bytes? && s.serverBuf != "")
  {
    hide Buffer.Valid, Buffer.Contents, Buffer.OffsetsOk, TlsStream.Fits;
    if LineMode(s.server) {
      stream.StartRead(0);
    } else if s.server.Bytes? {
      stream.StartRead(s.server.n);
    }
  }

  /**
    read_cb, and the handler that it calls: the stream does what the protocol's events
    do, and the handler has been given what the protocol's server handles.
   */
  method ServeReadable(stream: Stream, cfg: Config, s: State, results: Results)
    returns (s': State, ghost given: seq<string>)
    requires Shows(stream, s) && Reads(s.server) && Deliverable(s, results)
    modifies stream, stream.input, stream.inputBuffer, stream.inputBuffer.repr
    ensures Shows(stream, s') && s' == Served(cfg, s, results)
    ensures fresh(stream.inputBuffer.repr - old(stream.inputBuffer.repr))
    ensures stream.input == old(stream.input) || stream.input == null || fresh(stream.input)
    ensures stream.received == old(stream.received) + Input(s, results)
    ensures stream.pieces == old(stream.pieces) + given && |given| <= 1
    ensures given != [] ==> s' == Handled(cfg, Left(s, Input(s, results), s'.serverBuf), given[0])
    ensures stream.bypassed ==> old(stream.bypassed) || (s'.server.Bytes? && s'.serverBuf != "")
  {
    hide *;
    given := ReadAndHandle(stream, cfg, s, results);
    s' := Served(cfg, s, results);
    if !stream.reading && !stream.gaveUp {
      Resume(stream, s');
    }
  }

  method ReadAndHandle(stream: Stream, cfg: Config, s: State, results: Results) returns (ghost given: seq<string>)
    requires Shows(stream, s) && Reads(s.server) && Deliverable(s, results)
    modifies stream, stream.input, stream.inputBuffer, stream.inputBuffer.repr
    ensures fresh(stream.inputBuffer.repr - old(stream.inputBuffer.repr))
    ensures stream.input == old(stream.input) || stream.input == null || fresh(stream.input)
    ensures stream.received == old(stream.received) + Input(s, results)
    ensures stream.pieces == old(stream.pieces) + given && |given| <= 1 && stream.bypassed == old(stream.bypassed)
    ensures var s' := Served(cfg, s, results);
      && (if stream.reading || stream.gaveUp then Shows(stream, s') else Halted(stream, s'))
      && (given != [] ==> s' == Handled(cfg, Left(s, Input(s, results), s'.serverBuf), given[0]))
  {
    WhileReading(stream, s);
    ghost var received0, lines := stream.received, LineMode(s.server);
    hide *;
    given := stream.ReadCb(results);
    if lines {
      AfterLineCb(stream, cfg, s, results, received0, given);
    } else {
      AfterBytesCb(stream, cfg, s, results, received0, given);
    }
  }

  lemma AfterLineCb(stream: Stream, cfg: Config, s: State, results: Results, received0: string, given: seq<string>)
    requires stream.Ready() && LineMode(s.server) && Deliverable(s, results) && s.part == "" && stream.lineMode
    requires |given| == (if stream.reading || stream.gaveUp then 0 else 1)
    requires stream.LineTaken(received0, s.serverBuf, results, given)
    ensures stream.received == received0 + Input(s, results)
    ensures var s' := Served(cfg, s, results);
      && (if stream.reading || stream.gaveUp then Shows(stream, s') else Halted(stream, s'))
      && (given != [] ==> s' == Handled(cfg, Left(s, Input(s, results), s'.serverBuf), given[0]))
  {
    AfterLine(cfg, s, results, given, stream.inputBuffer.Contents(), stream.gaveUp);
    hide Buffer.Valid, Buffer.Contents, Buffer.OffsetsOk, TlsStream.Fits, Served, Handled, Left, Asking,
      TlsStream.LineOutcome, TlsStream.LineInput;
  }

  lemma AfterBytesCb(stream: Stream, cfg: Config, s: State, results: Results, received0: string, given: seq<string>)
    requires stream.Ready() && s.server.Bytes? && |s.part| < s.server.n && Deliverable(s, results) && !stream.lineMode
    requires |given| == (if stream.reading then 0 else 1) && !stream.gaveUp
    requires stream.inputBuffer.Contents() == s.serverBuf
    requires |stream.asked| > 0 && stream.asked[|stream.asked| - 1] == s.server.n
    requires stream.BytesTaken(received0, s.part, s.server.n, results, given)
    ensures stream.received == received0 + Input(s, results)
    ensures var s' := Served(cfg, s, results);
      && (if stream.reading then Shows(stream, s') else Halted(stream, s'))
      && (given != [] ==> s' == Handled(cfg, Left(s, Input(s, results), s'.serverBuf), given[0]))
  {
    AfterBytes(cfg, s, results, given, stream.Partial());
    hide Buffer.Valid, Buffer.Contents, Buffer.OffsetsOk, TlsStream.Fits, Served, Handled, Left, Asking,
      TlsStream.BytesInput;
  }

  // ----- A connection from its beginning -----

  /** Some bytes can be read, or something else happens: at the client, or the server's timeout. */
  datatype Arrival = Readable(results: Results) | Elsewhere(e: Event)

  predicate Happens(cfg: Config, s: State, a: Arrival) {
    match a
    case Readable(results) => Reads(s.server) && Deliverable(s, results)
    case Elsewhere(e) =>
      !e.ServerRead? && !e.ServerLine? && !e.ServerLineTooLong? && !e.ServerBytes? && Enabled(cfg, s, e)
  }

  /** The server reads unless it is closed or deaf, and whatever has been sent can arrive. */
  lemma WhatCanHappen(cfg: Config, s: State, results: Results)
    requires s.server.Bytes? ==> |s.part| < s.server.n
    ensures s.server == Closed || s.server == Deaf ==> !Happens(cfg, s, Readable(results))
    ensures s.server == Handshake || s.server == Commands ==>
      (Happens(cfg, s, Readable(results)) <==> TlsStream.LineInput(s.serverBuf, results, 0) <= s.toServer)
    ensures s.server.Bytes? ==>
      (Happens(cfg, s, Readable(results)) <==>
         TlsStream.BytesInput(results, 0, s.server.n - |s.part|) <= s.toServer)
  {
  }

  /** What an arrival makes of the protocol's state. */
  function StateAfter(cfg: Config, s: State, a: Arrival): State {
    if !Happens(cfg, s, a) then s
    else match a case Readable(results) => Served(cfg, s, results) case Elsewhere(e) => Next(cfg, s, e)
  }

  function StateAfterAll(cfg: Config, arrivals: seq<Arrival>): State
    decreases |arrivals|
  {
    if arrivals == [] then Init(cfg)
    else StateAfter(cfg, StateAfterAll(cfg, arrivals[..|arrivals| - 1]), arrivals[|arrivals| - 1])
  }

  lemma OneMoreArrival(cfg: Config, arrivals: seq<Arrival>, i: nat)
    requires i < |arrivals|
    ensures StateAfterAll(cfg, arrivals[..i + 1]) == StateAfter(cfg, StateAfterAll(cfg, arrivals[..i]), arrivals[i])
  {
    assert arrivals[..i + 1][..i] == arrivals[..i];
  }

  lemma WhatHappens(cfg: Config, s: State, a: Arrival)
    requires Happens(cfg, s, a)
    ensures a.Readable? ==> Deliverable(s, a.results) && StateAfter(cfg, s, a) == Served(cfg, s, a.results)
    ensures a.Elsewhere? ==> Enabled(cfg, s, a.e) && StateAfter(cfg, s, a) == Next(cfg, s, a.e)
  {
    hide Served, Next, Enabled, Input;
  }

  lemma ElsewhereShows(stream: Stream, cfg: Config, s: State, e: Event)
    requires Shows(stream, s) && Happens(cfg, s, Elsewhere(e))
    ensures Enabled(cfg, s, e) && Shows(stream, Next(cfg, s, e))
  {
    hide CanFill, FirstAfter, TooLong, React, Line, PushLine;
  }

  method Step(stream: Stream, cfg: Config, s: State, a: Arrival) returns (s': State, ghost events: seq<Event>)
    requires Shows(stream, s) && Happens(cfg, s, a)
    modifies stream, stream.input, stream.inputBuffer, stream.inputBuffer.repr
    ensures Shows(stream, s') && Runs(cfg, s, events, s') && s' == StateAfter(cfg, s, a)
    ensures fresh(stream.inputBuffer.repr - old(stream.inputBuffer.repr))
    ensures stream.input == old(stream.input) || stream.input == null || fresh(stream.input)
    ensures stream.bypassed ==> old(stream.bypassed) || (s'.server.Bytes? && s'.serverBuf != "")
  {
    WhatHappens(cfg, s, a);
    match a {
      case Readable(results) =>
        WhileReading(stream, s);
        events := ServedRuns(cfg, s, results);
        hide *;
        ghost var given;
        s', given := ServeReadable(stream, cfg, s, results);
      case Elsewhere(e) =>
        ElsewhereShows(stream, cfg, s, e);
        s' := Next(cfg, s, e);
        hide Next, Shows, Enabled, StateAfter, Happens;
        events := [e];
        assert Runs(cfg, s', [], s');
    }
  }

  /**
    Any connection: with the server reading through the stream, what happens is a run of
    the protocol, in which everything happens that can. So the server's log is a prefix
    of what its client has sent, and the client's data never overtakes what is in the
    line buffer: everything received is handed out in order.
   */
  method Serve(cfg: Config, arrivals: seq<Arrival>) returns (stream: Stream, s: State, ghost events: seq<Event>)
    requires cfg.Valid()
    ensures Shows(stream, s) && Runs(cfg, Init(cfg), events, s) && s.log <= cfg.commands && !stream.bypassed
    ensures s == StateAfterAll(cfg, arrivals)
    ensures stream.received == Flat(stream.pieces) + stream.Partial() + stream.inputBuffer.Contents()
  {
    s, events := Init(cfg), [];
    assert Runs(cfg, s, [], s) && arrivals[..0] == [] && StateAfterAll(cfg, []) == s;
    hide *;
    stream := Begin(cfg);
    for i := 0 to |arrivals|
      invariant Shows(stream, s) && Runs(cfg, Init(cfg), events, s) && !stream.bypassed
      invariant fresh(stream) && fresh(stream.inputBuffer) && fresh(stream.inputBuffer.repr)
      invariant stream.input == null || fresh(stream.input)
      invariant s == StateAfterAll(cfg, arrivals[..i])
    {
      OneMoreArrival(cfg, arrivals, i);
      NothingHappens(cfg, s, arrivals[i]);
      if Happens(cfg, s, arrivals[i]) {
        ghost var t, more := s, [];
        s, more := Step(stream, cfg, s, arrivals[i]);
        RunsOn(cfg, Init(cfg), events, t, more, s);
        events := events + more;
        LogIsPrefix(cfg, events, s);
      }
    }
    LogIsPrefix(cfg, events, s);
    WhatIsShown(stream, s);
    assert arrivals[..|arrivals|] == arrivals;
  }

  lemma NothingHappens(cfg: Config, s: State, a: Arrival)
    ensures !Happens(cfg, s, a) ==> StateAfter(cfg, s, a) == s
  {
    hide Served, Next, Happens;
  }

  lemma WhatIsShown(stream: Stream, s: State)
    requires Shows(stream, s) && !stream.bypassed
    ensures stream.Owns() && stream.received == Flat(stream.pieces) + stream.Partial() + stream.inputBuffer.Contents()
  {
    stream.WhenReady();
  }

  /** A new connection: the server waits for a line. */
  method Begin(cfg: Config) returns (stream: Stream)
    ensures Shows(stream, Init(cfg)) && !stream.bypassed && stream.input == null
    ensures fresh(stream) && fresh(stream.inputBuffer) && fresh(stream.inputBuffer.repr)
  {
    stream := new TlsStream.InputStream();
    stream.Empty();
    hide Buffer.Valid, Buffer.Contents, Buffer.OffsetsOk;
    stream.StartRead(0);
  }
}
