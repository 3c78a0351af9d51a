/**
  The NSCA-ng protocol: a client that pushes commands one by one and a server that logs
  those it accepts, over two byte channels that deliver in order but in pieces of any
  size. The server may time out at any moment.
 */
module Protocol {
  import opened ByteBuffer
  import opened Text

  function Line(text: string): string {
    text + LINE_TERMINATOR
  }

  function TimeoutText(): string {
    "BAIL Connection timed out"
  }

  function TooLargeText(): string {
    "FAIL PUSH data size too large"
  }

  function DeniedText(): string {
    "FAIL You're not authorized"
  }

  // ----- What the handlers do with a line -----

  /** What the server expects next; after NOOP it waits for nothing at all. */
  datatype ServerMode = Handshake | Commands | Bytes(n: nat) | Deaf | Closed

  datatype Response = Response(reply: string, next: ServerMode)

  /** client_exited */
  function Exit(s: string, otherwise: Response): Response {
    if StartsWith(s, "QUIT") then Response(Line("OKAY"), Closed)
    else if StartsWith(s, "BAIL") then Response("", Closed)
    else otherwise
  }

  /** handle_handshake */
  function HandleHandshake(s: string): Response {
    if StartsWith(s, "MOIN") then
      var args := Words(s);
      if |args| != 3 then Response(Line("FAIL Cannot parse MOIN request"), Handshake)
      else if Atoi(args[1]) <= 0 then Response(Line("FAIL Expected protocol version"), Handshake)
      else Response(Line("MOIN 1"), Commands)
    else if StartsWith(s, "PING") then Response(Line("PONG 1"), Closed)
    else Exit(s, Response(Line("FAIL Expected MOIN or PING or BAIL"), Handshake))
  }

  /** handle_connection */
  function HandleConnection(s: string, maxSize: nat): Response {
    if StartsWith(s, "NOOP") then Response(Line("OKAY"), Deaf)
    else if StartsWith(s, "PUSH") then
      var args := Words(s);
      if |args| != 2 then Response(Line("FAIL Cannot parse PUSH request"), Commands)
      else if Atoi(args[1]) <= 0 then Response(Line("FAIL Expected number of bytes"), Commands)
      else if maxSize > 0 && Atoi(args[1]) > maxSize then Response(Line(TooLargeText()), Commands)
      else Response(Line("OKAY"), Bytes(Atoi(args[1])))
    else Exit(s, Response(Line("FAIL Expected PUSH or NOOP or QUIT"), Commands))
  }

  /** What the client waits for. */
  datatype ClientState = WaitMoin | Idle | WaitPush | WaitCommand | WaitQuit | Stopped

  datatype Reaction = Reaction(send: string, next: ClientState)

  /** bail of the client */
  function BailOut(message: string): Reaction {
    Reaction(Line("BAIL " + message), Stopped)
  }

  /** server_is_grumpy, or else bail */
  function Grumpy(s: string, otherwise: string): Reaction {
    if StartsWith(s, "FAIL") || StartsWith(s, "BAIL") then Reaction("", Stopped) else BailOut(otherwise)
  }

  /** handle_tls_moin_response */
  function HandleMoin(s: string): Reaction {
    if StartsWith(s, "MOIN") then
      var args := Words(s);
      if |args| != 2 then BailOut("Cannot parse MOIN response")
      else if Atoi(args[1]) <= 0 then BailOut("Expected protocol version")
      else if Atoi(args[1]) != 1 then BailOut("Protocol version not supported")
      else Reaction("", Idle)
    else Grumpy(s, "Received unexpected MOIN response")
  }

  /** handle_tls_push_response, handle_tls_command_response and handle_tls_quit_response */
  function HandleOkay(s: string, send: string, next: ClientState): Reaction {
    if EqualIgnoringCase("OKAY", s) then Reaction(send, next) else Grumpy(s, "Received unexpected response")
  }

  // ----- Both ends and the channels between them -----

  datatype Config = Config(commands: seq<string>, session: string, maxSize: nat, authorized: string -> bool) {
    /** A session ID is one word; a command has at least its newline, and its size is an int. */
    ghost predicate Valid() {
      && IsWord(session) && |session| <= 64 && '\n' !in session && '\0' !in session
      && forall i | 0 <= i < |commands| :: 0 < |commands[i]| <= INT_MAX
    }
  }

  datatype State = State(client: ClientState, acked: nat, server: ServerMode, log: seq<string>, timedOut: bool,
                         serverBuf: string, part: string, toServer: string, toClient: string, clientBuf: string)

  function PushLine(command: string): string {
    Line("PUSH " + Numeral(|command|, 10))
  }

  function Init(cfg: Config): State {
    State(WaitMoin, 0, Handshake, [], false, "", "", Line("MOIN 1 " + cfg.session), "", "")
  }

  datatype Event =
    | Proceed                  // the client has its next command, or the end of its input
    | ServerRead(k: nat)       // SSL_read() hands out k bytes
    | ServerLine
    | ServerLineTooLong
    | ServerBytes(k: nat)
    | ServerTimeout
    | ClientRead(k: nat)
    | ClientLine
    | ClientLineTooLong

  predicate Waiting(c: ClientState) {
    !c.Idle? && !c.Stopped?
  }

  predicate LineMode(m: ServerMode) {
    m.Handshake? || m.Commands?
  }

  predicate CanFill(buf: string, k: nat, channel: string) {
    && FirstAfter(buf, '\n') == 0 && |buf| + LINE_BUFFER_SIZE <= LINE_MAX_SIZE
    && 0 < k <= LINE_BUFFER_SIZE && k <= |channel|
  }

  predicate TooLong(buf: string) {
    FirstAfter(buf, '\n') == 0 && |buf| + LINE_BUFFER_SIZE > LINE_MAX_SIZE
  }

  predicate Enabled(cfg: Config, s: State, e: Event) {
    match e
    case Proceed => s.client.Idle?
    case ServerRead(k) => LineMode(s.server) && CanFill(s.serverBuf, k, s.toServer)
    case ServerLine => LineMode(s.server) && FirstAfter(s.serverBuf, '\n') > 0
    case ServerLineTooLong => LineMode(s.server) && TooLong(s.serverBuf)
    case ServerBytes(k) => s.server.Bytes? && 0 < k <= |s.toServer| && |s.part| + k <= s.server.n
    case ServerTimeout => !s.server.Closed?
    case ClientRead(k) => Waiting(s.client) && CanFill(s.clientBuf, k, s.toClient)
    case ClientLine => Waiting(s.client) && FirstAfter(s.clientBuf, '\n') > 0
    case ClientLineTooLong => Waiting(s.client) && TooLong(s.clientBuf)
  }

  /** The line at the start of a buffer, as the handler sees it. */
  function Taken(buf: string): string
    requires FirstAfter(buf, '\n') > 0
  {
    CString(Chomped(buf[..FirstAfter(buf, '\n') - 1]))
  }

  function React(cfg: Config, s: State, line: string): Reaction
    requires Waiting(s.client)
  {
    match s.client
    case WaitMoin => HandleMoin(line)
    case WaitPush => HandleOkay(line, if s.acked < |cfg.commands| then cfg.commands[s.acked] else "", WaitCommand)
    case WaitCommand => HandleOkay(line, "", Idle)
    case WaitQuit => HandleOkay(line, "", Stopped)
  }

  /** handle_push */
  function Pushed(cfg: Config, s: State, data: string): State {
    if cfg.authorized(CString(data)) then
      s.(server := Commands, part := "", log := s.log + [data], toClient := s.toClient + Line("OKAY"))
    else
      s.(server := Commands, part := "", toClient := s.toClient + Line(DeniedText()))
  }

  /** handle_timeout */
  function TimedOut(s: State): State {
    s.(server := Closed, timedOut := true, toClient := s.toClient + Line(TimeoutText()))
  }

  function Reacted(s: State, r: Reaction, rest: string): State {
    s.(clientBuf := rest, toServer := s.toServer + r.send, client := r.next,
       acked := if s.client.WaitCommand? && r.next.Idle? then s.acked + 1 else s.acked)
  }

  function Next(cfg: Config, s: State, e: Event): State
    requires Enabled(cfg, s, e)
  {
    match e
    case Proceed =>
      if s.acked < |cfg.commands| then s.(client := WaitPush, toServer := s.toServer + PushLine(cfg.commands[s.acked]))
      else s.(client := WaitQuit, toServer := s.toServer + Line("QUIT"))
    case ServerRead(k) => s.(serverBuf := s.serverBuf + s.toServer[..k], toServer := s.toServer[k..])
    case ServerLine =>
      var line := Taken(s.serverBuf);
      var r := if s.server.Handshake? then HandleHandshake(line) else HandleConnection(line, cfg.maxSize);
      s.(serverBuf := s.serverBuf[FirstAfter(s.serverBuf, '\n')..], server := r.next, toClient := s.toClient + r.reply)
    case ServerLineTooLong => s.(server := Closed, timedOut := true,
      toClient := s.toClient + Line("BAIL Request line too long"))
    case ServerBytes(k) =>
      var t := s.(part := s.part + s.toServer[..k], toServer := s.toServer[k..]);
      if |t.part| == s.server.n then Pushed(cfg, t, t.part) else t
    case ServerTimeout => TimedOut(s)
    case ClientRead(k) => s.(clientBuf := s.clientBuf + s.toClient[..k], toClient := s.toClient[k..])
    case ClientLine =>
      Reacted(s, React(cfg, s, Taken(s.clientBuf)), s.clientBuf[FirstAfter(s.clientBuf, '\n')..])
    case ClientLineTooLong => s.(client := Stopped)
  }

  // ----- What is on the way -----

  ghost function Unread(s: State): string {
    s.serverBuf + s.part + s.toServer
  }

  ghost function Unanswered(s: State): string {
    s.clientBuf + s.toClient
  }

  ghost function TimeoutLine(s: State): string {
    if s.timedOut then Line(TimeoutText()) else ""
  }

  /** What the client has sent in this state, how the server answers, and where it waits before and after. */
  ghost function Request(cfg: Config, c: ClientState, i: nat): string {
    match c
    case WaitMoin => Line("MOIN 1 " + cfg.session)
    case WaitPush => if i < |cfg.commands| then PushLine(cfg.commands[i]) else ""
    case WaitCommand => if i < |cfg.commands| then cfg.commands[i] else ""
    case _ => Line("QUIT")
  }

  ghost predicate Fits(cfg: Config, i: nat) {
    i < |cfg.commands| && (cfg.maxSize == 0 || |cfg.commands[i]| <= cfg.maxSize)
  }

  ghost predicate Allowed(cfg: Config, i: nat) {
    i < |cfg.commands| && cfg.authorized(CString(cfg.commands[i]))
  }

  ghost function Answer(cfg: Config, c: ClientState, i: nat): string {
    match c
    case WaitMoin => "MOIN 1"
    case WaitPush => if Fits(cfg, i) then "OKAY" else TooLargeText()
    case WaitCommand => if Allowed(cfg, i) then "OKAY" else DeniedText()
    case _ => "OKAY"
  }

  ghost function Before(cfg: Config, c: ClientState, i: nat): ServerMode {
    match c
    case WaitMoin => Handshake
    case WaitCommand => if i < |cfg.commands| then Bytes(|cfg.commands[i]|) else Commands
    case _ => Commands
  }

  ghost function After(cfg: Config, c: ClientState, i: nat): ServerMode {
    match c
    case WaitPush => if Fits(cfg, i) then Bytes(|cfg.commands[i]|) else Commands
    case WaitQuit => Closed
    case _ => Commands
  }

  ghost predicate Quiet(s: State) {
    s.serverBuf == "" && s.part == "" && s.toServer == ""
  }

  /** The request is on its way, or the server has part of it. */
  ghost predicate Requesting(cfg: Config, s: State)
    requires s.acked <= |cfg.commands|
  {
    && s.log == cfg.commands[..s.acked] && Unanswered(s) == TimeoutLine(s)
    && (!s.timedOut ==>
          && s.server == Before(cfg, s.client, s.acked) && Unread(s) == Request(cfg, s.client, s.acked)
          && if s.server.Bytes? then s.serverBuf == "" && |s.part| < s.server.n else s.part == "")
  }

  /** The answer is on its way, or the client has part of it. */
  ghost predicate Answering(cfg: Config, s: State)
    requires s.acked <= |cfg.commands|
  {
    && s.log == cfg.commands[..if s.client.WaitCommand? && Allowed(cfg, s.acked) then s.acked + 1 else s.acked]
    && Unanswered(s) == Line(Answer(cfg, s.client, s.acked)) + TimeoutLine(s)
    && (!s.timedOut ==> s.server == After(cfg, s.client, s.acked) && Quiet(s))
  }

  ghost predicate LogOk(cfg: Config, s: State) {
    && s.acked <= |s.log| <= s.acked + 1 && |s.log| <= |cfg.commands| && s.log == cfg.commands[..|s.log|]
  }

  ghost predicate Inv(cfg: Config, s: State) {
    && s.acked <= |cfg.commands| && (s.timedOut ==> s.server.Closed?)
    && (s.client == WaitPush || s.client == WaitCommand ==> s.acked < |cfg.commands|)
    && (s.client == WaitQuit ==> s.acked == |cfg.commands|)
    && match s.client
       case Stopped => LogOk(cfg, s) && (!s.timedOut ==> Quiet(s) && (s.server == Commands || s.server == Closed))
       case Idle =>
         && s.log == cfg.commands[..s.acked] && Unanswered(s) == TimeoutLine(s)
         && (!s.timedOut ==> s.server == Commands && Quiet(s))
       case _ => Requesting(cfg, s) || Answering(cfg, s)
  }

  // ----- Lines on the way -----

  /** A line has its newline at the very end. */
  ghost predicate OneLine(t: string) {
    FirstAfter(t, '\n') == |t| > 0
  }

  lemma LineIsOne(text: string)
    requires '\n' !in text
    ensures OneLine(Line(text)) && Chomped(Line(text)[..|Line(text)| - 1]) == text
  {
    var t := Line(text);
    assert NotBefore(t, |t|, '\n');
    OneMore(t, |t|, '\n');
    assert t[..|t| - 1] == text + "\r";
  }

  /** Whoever sees a newline in the part of a line that has arrived has all of the line. */
  lemma LineArrived(buf: string, rest: string, t: string, tail: string)
    requires OneLine(t) && buf + rest == t + tail && FirstAfter(buf, '\n') > 0
    ensures FirstAfter(buf, '\n') == |t| <= |buf| && buf[..|t|] == t && buf[|t|..] + rest == tail
  {
    FirstOfBoth(buf, rest, '\n');
    FirstOfBoth(t, tail, '\n');
    hide FirstAfter;
    Halves(buf, rest, t, tail);
  }

  lemma Halves(a: string, b: string, c: string, d: string)
    requires a + b == c + d && |c| <= |a|
    ensures a[..|c|] == c && a[|c|..] + b == d
  {
    var all := a + b;
    assert all[..|c|] == a[..|c|] && all[|c|..] == a[|c|..] + b;
    assert (c + d)[..|c|] == c && (c + d)[|c|..] == d;
  }

  lemma LineTaken(buf: string, text: string)
    requires '\n' !in text && '\0' !in text
    requires FirstAfter(buf, '\n') == |Line(text)| && buf[..|Line(text)|] == Line(text)
    ensures Taken(buf) == text
  {
    var t := Line(text);
    LineIsOne(text);
    assert buf[..|t| - 1] == buf[..|t|][..|t| - 1];
    WholeCString(text);
  }

  // ----- Requests and answers -----

  ghost function RequestText(cfg: Config, c: ClientState, i: nat): string
    requires !c.WaitCommand?
  {
    match c
    case WaitMoin => "MOIN 1 " + cfg.session
    case WaitPush => if i < |cfg.commands| then "PUSH " + Numeral(|cfg.commands[i]|, 10) else ""
    case _ => "QUIT"
  }

  lemma AtoiOne()
    ensures Atoi("1") == 1
  {
    AtoiOfDigits("1");
    assert Value("1", 10) == 1 by { assert "1"[..0] == ""; }
  }

  lemma StartsWithMoin(rest: string)
    ensures StartsWith("MOIN " + rest, "MOIN")
  {
    assert ("MOIN " + rest)[..4] == "MOIN";
  }

  lemma MoinWords(rest: string)
    ensures Words("MOIN " + rest) == ["MOIN"] + Words(rest)
  {
    assert "MOIN " + rest == "MOIN" + " " + rest;
    FirstWord("MOIN", rest);
  }

  lemma MoinText(session: string)
    requires IsWord(session)
    ensures HandleHandshake("MOIN 1 " + session) == Response(Line("MOIN 1"), Commands)
  {
    var rest := "1" + " " + session;
    assert "MOIN 1 " + session == "MOIN " + rest;
    StartsWithMoin(rest);
    MoinWords(rest);
    FirstWord("1", session);
    OneWord(session);
    AtoiOne();
    hide StartsWith, Words, Atoi, Line;
    assert Words("MOIN " + rest) == ["MOIN", "1", session];
  }

  lemma StartsWithPush(rest: string)
    ensures StartsWith("PUSH " + rest, "PUSH") && !StartsWith("PUSH " + rest, "NOOP")
  {
    var s := "PUSH " + rest;
    assert s[..4] == "PUSH";
    assert Lower("PUSH"[0]) != Lower("NOOP"[0]);
  }

  lemma PushWords(rest: string)
    requires IsWord(rest)
    ensures Words("PUSH " + rest) == ["PUSH", rest]
  {
    assert "PUSH " + rest == "PUSH" + " " + rest;
    FirstWord("PUSH", rest);
    OneWord(rest);
  }

  lemma PushText(n: nat, maxSize: nat)
    requires n > 0
    ensures HandleConnection("PUSH " + Numeral(n, 10), maxSize) ==
      if maxSize == 0 || n <= maxSize then Response(Line("OKAY"), Bytes(n))
      else Response(Line(TooLargeText()), Commands)
  {
    NumeralIsWord(n);
    AtoiOfNumeral(n);
    StartsWithPush(Numeral(n, 10));
    PushWords(Numeral(n, 10));
    hide Numeral, Atoi, StartsWith, Words, Line, TooLargeText;
  }

  lemma QuitText(maxSize: nat)
    ensures HandleConnection("QUIT", maxSize) == Response(Line("OKAY"), Closed)
  {
    assert "QUIT"[..4] == "QUIT";
    assert "QUIT"[..4][0] == 'Q' && "QUIT"[..4][0] == 'Q';
  }

  lemma MoinAnswer()
    ensures HandleMoin("MOIN 1") == Reaction("", Idle)
  {
    assert "MOIN 1" == "MOIN " + "1";
    StartsWithMoin("1");
    MoinWords("1");
    OneWord("1");
    AtoiOne();
    hide StartsWith, Words, Atoi;
    assert Words("MOIN 1") == ["MOIN", "1"];
  }

  lemma Refused(s: string, send: string, next: ClientState)
    requires Refusal(s)
    ensures HandleOkay(s, send, next) == HandleMoin(s) == Reaction("", Stopped)
  {
    assert s[..4][0] == s[0];
    assert !StartsWith(s, "MOIN");
  }

  predicate Refusal(t: string) {
    |t| > 4 && (t[..4] == "FAIL" || t[..4] == "BAIL")
  }

  lemma TooLargeRefuses()
    ensures Refusal(TooLargeText())
  {
    assert TooLargeText()[..4] == "FAIL";
  }

  lemma DeniedRefuses()
    ensures Refusal(DeniedText())
  {
    assert DeniedText()[..4] == "FAIL";
  }

  lemma TimeoutRefuses()
    ensures Refusal(TimeoutText())
  {
    assert TimeoutText()[..4] == "BAIL";
  }

  /** How the client reacts to the regular answer. */
  lemma ReactToAnswer(cfg: Config, s: State)
    requires Waiting(s.client)
    ensures React(cfg, s, Answer(cfg, s.client, s.acked)) ==
      match s.client
      case WaitMoin => Reaction("", Idle)
      case WaitPush =>
        if Fits(cfg, s.acked) then Reaction(cfg.commands[s.acked], WaitCommand) else Reaction("", Stopped)
      case WaitCommand => Reaction("", if Allowed(cfg, s.acked) then Idle else Stopped)
      case _ => Reaction("", Stopped)
  {
    MoinAnswer();
    TooLargeRefuses();
    DeniedRefuses();
    OkayIsOkay();
    hide Refusal, HandleMoin, HandleOkay, TooLargeText, DeniedText, TimeoutText;
    Refused(TooLargeText(), if s.acked < |cfg.commands| then cfg.commands[s.acked] else "", WaitCommand);
    Refused(DeniedText(), "", Idle);
  }

  lemma OkayIsOkay()
    ensures forall send, next :: HandleOkay("OKAY", send, next) == Reaction(send, next)
  {
  }

  lemma ReactToTimeout(cfg: Config, s: State)
    requires Waiting(s.client)
    ensures React(cfg, s, TimeoutText()) == Reaction("", Stopped)
  {
    TimeoutRefuses();
    hide Refusal, HandleMoin, HandleOkay, TimeoutText;
    Refused(TimeoutText(), if s.acked < |cfg.commands| then cfg.commands[s.acked] else "", WaitCommand);
    Refused(TimeoutText(), "", Idle);
    Refused(TimeoutText(), "", Stopped);
  }

  predicate IsText(s: string) {
    '\n' !in s && '\0' !in s
  }

  lemma TooLargeIsText()
    ensures IsText(TooLargeText())
  {
  }

  lemma DeniedIsText()
    ensures IsText(DeniedText())
  {
  }

  lemma ShortAreText()
    ensures IsText("MOIN 1") && IsText("OKAY")
  {
  }

  lemma AnswerIsText(cfg: Config, c: ClientState, i: nat)
    ensures IsText(Answer(cfg, c, i))
  {
    TooLargeIsText();
    DeniedIsText();
    ShortAreText();
    hide IsText, TooLargeText, DeniedText;
  }

  lemma TimeoutIsText()
    ensures IsText(TimeoutText())
  {
  }

  lemma RequestIsText(cfg: Config, c: ClientState, i: nat)
    requires cfg.Valid() && !c.WaitCommand?
    ensures '\n' !in RequestText(cfg, c, i) && '\0' !in RequestText(cfg, c, i)
    ensures (c == WaitPush ==> i < |cfg.commands|) ==> Request(cfg, c, i) == Line(RequestText(cfg, c, i))
  {
    if c.WaitPush? && i < |cfg.commands| { NumeralIsWord(|cfg.commands[i]|); }
  }

  /** How the server reacts to the regular request. */
  lemma ServeRequest(cfg: Config, c: ClientState, i: nat)
    requires cfg.Valid() && c in {WaitMoin, WaitPush, WaitQuit} && (c == WaitPush ==> i < |cfg.commands|)
    ensures
      var text := RequestText(cfg, c, i);
      (if c.WaitMoin? then HandleHandshake(text) else HandleConnection(text, cfg.maxSize))
        == Response(Line(Answer(cfg, c, i)), After(cfg, c, i))
  {
    match c
    case WaitMoin => MoinText(cfg.session);
    case WaitPush => PushText(|cfg.commands[i]|, cfg.maxSize);
    case WaitQuit => QuitText(cfg.maxSize);
  }

  // ----- Every step keeps the invariant -----

  /** Bytes on their way are the same bytes before and after one is received. */
  lemma Received(buf: string, channel: string, k: nat)
    requires k <= |channel|
    ensures buf + channel[..k] + channel[k..] == buf + channel
  {
  }

  lemma NoLine()
    ensures FirstAfter("", '\n') == 0
  {
  }

  lemma ServerReadKeeps(cfg: Config, s: State, k: nat)
    requires cfg.Valid() && Inv(cfg, s) && Enabled(cfg, s, ServerRead(k))
    ensures Inv(cfg, Next(cfg, s, ServerRead(k)))
  {
    var s' := Next(cfg, s, ServerRead(k));
    Received(s.serverBuf, s.toServer, k);
    hide Line, Answer, Request, TimeoutText;
    assert s.toServer != "" && s.part == "" && Requesting(cfg, s);
    assert Unread(s') == s.serverBuf + s.toServer[..k] + s.toServer[k..];
    assert Unread(s) == s.serverBuf + s.toServer;
    assert Unanswered(s') == Unanswered(s);
    hide Unanswered;
    assert Requesting(cfg, s');
  }

  lemma ClientReadKeeps(cfg: Config, s: State, k: nat)
    requires cfg.Valid() && Inv(cfg, s) && Enabled(cfg, s, ClientRead(k))
    ensures Inv(cfg, Next(cfg, s, ClientRead(k)))
  {
    var s' := Next(cfg, s, ClientRead(k));
    Received(s.clientBuf, s.toClient, k);
    assert Unanswered(s') == Unanswered(s);
    hide Unanswered, Line, Request, Answer, Before, After;
    assert Requesting(cfg, s) ==> Requesting(cfg, s');
    assert Answering(cfg, s) ==> Answering(cfg, s');
  }

  /** When a line has arrived at the server, it is the whole request and nothing else. */
  lemma RequestArrived(cfg: Config, s: State)
    requires cfg.Valid() && s.acked <= |cfg.commands| && s.client in {WaitMoin, WaitPush, WaitQuit}
    requires s.client == WaitPush ==> s.acked < |cfg.commands|
    requires FirstAfter(s.serverBuf, '\n') > 0 && s.serverBuf + s.toServer == Request(cfg, s.client, s.acked)
    ensures s.serverBuf[FirstAfter(s.serverBuf, '\n')..] == "" && s.toServer == ""
    ensures var line := Taken(s.serverBuf);
      (if s.client.WaitMoin? then HandleHandshake(line) else HandleConnection(line, cfg.maxSize))
        == Response(Line(Answer(cfg, s.client, s.acked)), After(cfg, s.client, s.acked))
  {
    var text := RequestText(cfg, s.client, s.acked);
    RequestIsText(cfg, s.client, s.acked);
    LineIsOne(text);
    hide TimeoutText, Line, Numeral, FirstAfter, HandleHandshake, HandleConnection, Answer, After;
    assert Line(text) == Line(text) + "";
    LineArrived(s.serverBuf, s.toServer, Line(text), "");
    LineTaken(s.serverBuf, text);
    ServeRequest(cfg, s.client, s.acked);
  }

  /** Nothing is on the way to the client, and the server has not timed out. */
  ghost predicate Serving(cfg: Config, s: State) {
    && Waiting(s.client) && s.acked <= |cfg.commands| && !s.timedOut
    && (s.client == WaitPush || s.client == WaitCommand ==> s.acked < |cfg.commands|)
    && (s.client == WaitQuit ==> s.acked == |cfg.commands|)
    && s.log == cfg.commands[..s.acked] && s.clientBuf == "" && s.toClient == ""
  }

  /** The state after the whole request has been answered. */
  ghost function Answered(cfg: Config, s: State): State {
    s.(serverBuf := "", part := "", toServer := "", server := After(cfg, s.client, s.acked),
       toClient := Line(Answer(cfg, s.client, s.acked)),
       log := if s.client.WaitCommand? && Allowed(cfg, s.acked) then s.log + [cfg.commands[s.acked]] else s.log)
  }

  lemma AnsweredKeeps(cfg: Config, s: State)
    requires Serving(cfg, s)
    ensures Inv(cfg, Answered(cfg, s))
  {
    hide TimeoutText, Line, Answer;
    assert Answering(cfg, Answered(cfg, s));
  }

  /** A server that has part of a line is serving a request. */
  lemma ServesLine(cfg: Config, s: State)
    requires Inv(cfg, s) && LineMode(s.server) && s.serverBuf != ""
    ensures Serving(cfg, s) && s.client in {WaitMoin, WaitPush, WaitQuit} && s.part == ""
    ensures (s.server == Handshake <==> s.client == WaitMoin)
    ensures s.serverBuf + s.toServer == Request(cfg, s.client, s.acked)
  {
    hide TimeoutText, Line, Answer, Request;
    assert Requesting(cfg, s);
    assert s.serverBuf + s.toServer == Unread(s);
  }

  /** The server has the whole request line and answers it. */
  lemma LineIsAnswered(cfg: Config, s: State)
    requires cfg.Valid() && Inv(cfg, s) && Enabled(cfg, s, ServerLine)
    ensures Next(cfg, s, ServerLine) == Answered(cfg, s) && Serving(cfg, s)
    ensures s.serverBuf != "" && s.part == "" && s.client in {WaitMoin, WaitPush, WaitQuit}
  {
    NoLine();
    ServesLine(cfg, s);
    hide Inv, Line, Numeral, FirstAfter, HandleHandshake, HandleConnection, Answer, After, Taken, Request;
    RequestArrived(cfg, s);
  }

  lemma ServerLineKeeps(cfg: Config, s: State)
    requires cfg.Valid() && Inv(cfg, s) && Enabled(cfg, s, ServerLine)
    ensures Inv(cfg, Next(cfg, s, ServerLine))
  {
    hide *;
    LineIsAnswered(cfg, s);
    AnsweredKeeps(cfg, s);
  }

  /** A server that waits for bytes gets them from the command only. */
  lemma ServesBytes(cfg: Config, s: State)
    requires Inv(cfg, s) && s.server.Bytes? && s.toServer != ""
    ensures Serving(cfg, s) && s.client == WaitCommand && s.serverBuf == ""
    ensures s.part + s.toServer == cfg.commands[s.acked] && s.server.n == |cfg.commands[s.acked]| > |s.part|
  {
    hide TimeoutText, Line, Answer;
    assert Requesting(cfg, s);
    assert s.part + s.toServer == Unread(s);
  }

  lemma ServerBytesKeeps(cfg: Config, s: State, k: nat)
    requires cfg.Valid() && Inv(cfg, s) && Enabled(cfg, s, ServerBytes(k))
    ensures Inv(cfg, Next(cfg, s, ServerBytes(k)))
  {
    ServesBytes(cfg, s);
    Received(s.part, s.toServer, k);
    var t := s.(part := s.part + s.toServer[..k], toServer := s.toServer[k..]);
    if |t.part| == s.server.n {
      assert t.toServer == "" && t.part == cfg.commands[s.acked];
      hide Inv, Line, Answer, After, CString;
      AnsweredKeeps(cfg, s);
      PushedIsAnswered(cfg, s, t);
    } else {
      hide TimeoutText, Line, Answer;
      assert Unread(t) == t.part + t.toServer;
      assert Requesting(cfg, t);
    }
  }

  lemma PushedIsAnswered(cfg: Config, s: State, t: State)
    requires Serving(cfg, s) && s.client == WaitCommand
    requires t == s.(part := cfg.commands[s.acked], toServer := "") && s.serverBuf == ""
    ensures Pushed(cfg, t, t.part) == Answered(cfg, s)
  {
  }

  /** The farewell of a server that times out comes after whatever it has sent before. */
  lemma FarewellLast(s: State)
    requires !s.timedOut
    ensures TimeoutLine(s) == "" && Unanswered(TimedOut(s)) == Unanswered(s) + TimeoutLine(TimedOut(s))
    ensures Unanswered(s) + TimeoutLine(s) == Unanswered(s)
  {
  }

  lemma RequestingTimesOut(cfg: Config, s: State)
    requires s.acked <= |cfg.commands| && Requesting(cfg, s) && !s.timedOut
    ensures Requesting(cfg, TimedOut(s))
  {
    FarewellLast(s);
    hide Answer, Request, Line, Before, After, Unanswered, Unread, TimeoutText, TimeoutLine;
  }

  lemma AnsweringTimesOut(cfg: Config, s: State)
    requires s.acked <= |cfg.commands| && Answering(cfg, s) && !s.timedOut
    ensures Answering(cfg, TimedOut(s))
  {
    FarewellLast(s);
    assert Line(Answer(cfg, s.client, s.acked)) + "" == Line(Answer(cfg, s.client, s.acked));
    hide Answer, Request, Line, Before, After, Unanswered, Unread, TimeoutText, TimeoutLine;
  }

  lemma TimeoutKeeps(cfg: Config, s: State)
    requires Inv(cfg, s) && Enabled(cfg, s, ServerTimeout)
    ensures Inv(cfg, Next(cfg, s, ServerTimeout))
  {
    FarewellLast(s);
    hide Answer, Request, Line, Before, After, Unanswered, Unread, TimeoutText, TimeoutLine, Requesting, Answering;
    if Waiting(s.client) && Requesting(cfg, s) {
      RequestingTimesOut(cfg, s);
    } else if Waiting(s.client) {
      AnsweringTimesOut(cfg, s);
    }
  }

  lemma ProceedKeeps(cfg: Config, s: State)
    requires Inv(cfg, s) && Enabled(cfg, s, Proceed)
    ensures Inv(cfg, Next(cfg, s, Proceed))
  {
    var s' := Next(cfg, s, Proceed);
    hide TimeoutText, Line, PushLine;
    assert s.acked < |cfg.commands| ==> "" + PushLine(cfg.commands[s.acked]) == PushLine(cfg.commands[s.acked]);
    assert Requesting(cfg, s');
  }

  /** What the client reads is the answer it waits for or, after a timeout, the server's farewell. */
  lemma ClientGets(cfg: Config, s: State)
    requires Inv(cfg, s) && Enabled(cfg, s, ClientLine)
    ensures var line, rest := Taken(s.clientBuf), s.clientBuf[FirstAfter(s.clientBuf, '\n')..] + s.toClient;
      || (Answering(cfg, s) && line == Answer(cfg, s.client, s.acked) && rest == TimeoutLine(s))
      || (Requesting(cfg, s) && s.timedOut && line == TimeoutText() && rest == "")
  {
    var bail := TimeoutText();
    NoLine();
    TimeoutIsText();
    LineIsOne(bail);
    AnswerIsText(cfg, s.client, s.acked);
    LineIsOne(Answer(cfg, s.client, s.acked));
    hide TimeoutText, Line, FirstAfter, Answer, Taken;
    if Answering(cfg, s) {
      LineArrived(s.clientBuf, s.toClient, Line(Answer(cfg, s.client, s.acked)), TimeoutLine(s));
      LineTaken(s.clientBuf, Answer(cfg, s.client, s.acked));
    } else {
      assert s.timedOut;
      assert s.clientBuf + s.toClient == Line(bail) + "";
      LineArrived(s.clientBuf, s.toClient, Line(bail), "");
      LineTaken(s.clientBuf, bail);
    }
  }

  lemma AnswerKeeps(cfg: Config, s: State)
    requires cfg.Valid() && Inv(cfg, s) && Enabled(cfg, s, ClientLine) && Answering(cfg, s)
    requires Taken(s.clientBuf) == Answer(cfg, s.client, s.acked)
    requires s.clientBuf[FirstAfter(s.clientBuf, '\n')..] + s.toClient == TimeoutLine(s)
    ensures Inv(cfg, Next(cfg, s, ClientLine))
  {
    ReactToAnswer(cfg, s);
    AnswerFacts(cfg, s);
    assert s.client == WaitPush && Fits(cfg, s.acked) ==> |cfg.commands[s.acked]| > 0;
    ghost var r, rest := React(cfg, s, Taken(s.clientBuf)), s.clientBuf[FirstAfter(s.clientBuf, '\n')..];
    assert Next(cfg, s, ClientLine) == Reacted(s, r, rest);
    AnswerDone(cfg, s, r, rest);
  }

  lemma AnswerDone(cfg: Config, s: State, r: Reaction, rest: string)
    requires s.acked <= |cfg.commands| && (s.timedOut ==> s.server.Closed?) && Waiting(s.client)
    requires s.client == WaitPush || s.client == WaitCommand ==> s.acked < |cfg.commands|
    requires s.client == WaitPush ==> |cfg.commands[s.acked]| > 0
    requires s.log == cfg.commands[..if s.client.WaitCommand? && Allowed(cfg, s.acked) then s.acked + 1 else s.acked]
    requires !s.timedOut ==> s.server == After(cfg, s.client, s.acked) && Quiet(s)
    requires r == match s.client
      case WaitMoin => Reaction("", Idle)
      case WaitPush =>
        if Fits(cfg, s.acked) then Reaction(cfg.commands[s.acked], WaitCommand) else Reaction("", Stopped)
      case WaitCommand => Reaction("", if Allowed(cfg, s.acked) then Idle else Stopped)
      case _ => Reaction("", Stopped)
    requires rest + s.toClient == TimeoutLine(s)
    ensures Inv(cfg, Reacted(s, r, rest))
  {
    var s' := Reacted(s, r, rest);
    assert Unanswered(s') == TimeoutLine(s);
    assert s.toServer + "" == s.toServer;
    hide TimeoutLine, Unanswered, After, Inv, Allowed;
    if s'.client == WaitCommand {
      CommandSent(cfg, s, s');
    } else {
      Settled(cfg, s, s');
    }
  }

  lemma AnswerFacts(cfg: Config, s: State)
    requires Inv(cfg, s) && Waiting(s.client) && Answering(cfg, s)
    ensures s.acked <= |cfg.commands| && (s.timedOut ==> s.server.Closed?)
    ensures s.client == WaitPush || s.client == WaitCommand ==> s.acked < |cfg.commands|
    ensures s.log == cfg.commands[..if s.client.WaitCommand? && Allowed(cfg, s.acked) then s.acked + 1 else s.acked]
    ensures !s.timedOut ==> s.server == After(cfg, s.client, s.acked) && Quiet(s)
  {
    hide TimeoutText, Line, Answer;
  }

  /** The client has been allowed to push, and has sent the command. */
  lemma CommandSent(cfg: Config, s: State, s': State)
    requires s.client == WaitPush && Fits(cfg, s.acked) && (s.timedOut ==> s.server.Closed?)
    requires s.log == cfg.commands[..s.acked]
    requires !s.timedOut ==> s.server == After(cfg, s.client, s.acked) && Quiet(s)
    requires s' == s.(clientBuf := s'.clientBuf, toServer := s.toServer + cfg.commands[s.acked], client := WaitCommand)
    requires Unanswered(s') == TimeoutLine(s)
    requires |cfg.commands[s.acked]| > 0
    ensures Inv(cfg, s')
  {
    hide TimeoutText, Line, Answer;
    assert "" + cfg.commands[s.acked] == cfg.commands[s.acked];
    assert Requesting(cfg, s');
  }

  /** The exchange is over: the client goes on to the next one or stops. */
  lemma Settled(cfg: Config, s: State, s': State)
    requires s.acked <= |cfg.commands| && (s.timedOut ==> s.server.Closed?) && Waiting(s.client)
    requires s.client == WaitPush || s.client == WaitCommand ==> s.acked < |cfg.commands|
    requires s.log == cfg.commands[..if s.client.WaitCommand? && Allowed(cfg, s.acked) then s.acked + 1 else s.acked]
    requires !s.timedOut ==> s.server == After(cfg, s.client, s.acked) && Quiet(s)
    requires s' == s.(clientBuf := s'.clientBuf, client := s'.client, acked := s'.acked)
    requires s'.client == match s.client
      case WaitMoin => Idle
      case WaitCommand => if Allowed(cfg, s.acked) then Idle else Stopped
      case _ => Stopped
    requires s'.client == Stopped && s.client == WaitPush ==> !Fits(cfg, s.acked)
    requires s'.acked == if s.client == WaitCommand && s'.client == Idle then s.acked + 1 else s.acked
    requires Unanswered(s') == TimeoutLine(s)
    ensures Inv(cfg, s')
  {
    hide TimeoutText, Line, Answer;
  }

  lemma ClientLineKeeps(cfg: Config, s: State)
    requires cfg.Valid() && Inv(cfg, s) && Enabled(cfg, s, ClientLine)
    ensures Inv(cfg, Next(cfg, s, ClientLine))
  {
    ClientGets(cfg, s);
    hide *;
    if Answering(cfg, s) && Taken(s.clientBuf) == Answer(cfg, s.client, s.acked)
      && s.clientBuf[FirstAfter(s.clientBuf, '\n')..] + s.toClient == TimeoutLine(s)
    {
      AnswerKeeps(cfg, s);
    } else {
      FarewellKeeps(cfg, s);
    }
  }

  lemma FarewellKeeps(cfg: Config, s: State)
    requires Inv(cfg, s) && Enabled(cfg, s, ClientLine) && s.timedOut && Requesting(cfg, s)
    requires Taken(s.clientBuf) == TimeoutText()
    ensures Inv(cfg, Next(cfg, s, ClientLine))
  {
    ReactToTimeout(cfg, s);
    ghost var rest := s.clientBuf[FirstAfter(s.clientBuf, '\n')..];
    assert Next(cfg, s, ClientLine) == Reacted(s, Reaction("", Stopped), rest);
    GivesUp(cfg, s, rest);
  }

  lemma GivesUp(cfg: Config, s: State, rest: string)
    requires Inv(cfg, s) && s.timedOut && Requesting(cfg, s)
    ensures Inv(cfg, Reacted(s, Reaction("", Stopped), rest))
  {
  }

  // ----- Nothing is ever too long -----

  lemma IntHasTenDigits(n: nat)
    requires n <= INT_MAX
    ensures |Numeral(n, 10)| <= 10
  {
    assert Power(10, 10) == 10000000000 by {
      assert Power(10, 2) == 100 && Power(10, 4) == 10000 && Power(10, 6) == 1000000 && Power(10, 8) == 100000000;
    }
    NumeralLength(n, 10, 10);
  }

  /** Neither end ever sees a line that is too long. */
  lemma NeverTooLong(cfg: Config, s: State, e: Event)
    requires cfg.Valid() && Inv(cfg, s) && (e.ServerLineTooLong? || e.ClientLineTooLong?)
    ensures !Enabled(cfg, s, e)
  {
    if e.ServerLineTooLong? && LineMode(s.server) && s.serverBuf != "" {
      ServesLine(cfg, s);
      if s.client == WaitPush { IntHasTenDigits(|cfg.commands[s.acked]|); }
      assert |s.serverBuf| <= |Request(cfg, s.client, s.acked)| <= 100;
    }
    if e.ClientLineTooLong? && Waiting(s.client) {
      assert |s.clientBuf| <= |Unanswered(s)| <= 100;
    }
  }

  // ----- Nobody waits in vain -----

  lemma ServerCanGoOn(cfg: Config, s: State) returns (e: Event)
    requires cfg.Valid() && Inv(cfg, s) && Waiting(s.client) && Requesting(cfg, s) && !s.timedOut
    ensures !e.ServerTimeout? && Enabled(cfg, s, e)
  {
    if s.server.Bytes? {
      hide Line, Answer, TimeoutText;
      assert s.part + s.toServer == Unread(s);
      e := ServerBytes(1);
    } else {
      NeverTooLong(cfg, s, ServerLineTooLong);
      AskedSomething(cfg, s);
      hide Answer, Request, FirstAfter, Unread, Unanswered, TimeoutText;
      assert LineMode(s.server);
      e := if FirstAfter(s.serverBuf, '\n') > 0 then ServerLine else ServerRead(1);
    }
  }

  lemma AskedSomething(cfg: Config, s: State)
    requires cfg.Valid() && Inv(cfg, s) && Waiting(s.client) && Requesting(cfg, s) && !s.timedOut && !s.server.Bytes?
    ensures s.toServer == "" ==> FirstAfter(s.serverBuf, '\n') > 0
  {
    hide Answer, TimeoutText;
    RequestIsText(cfg, s.client, s.acked);
    LineIsOne(RequestText(cfg, s.client, s.acked));
    hide Line, FirstAfter, RequestText, Numeral;
    assert s.toServer == "" ==> s.serverBuf == Unread(s);
  }

  lemma ClientCanGoOn(cfg: Config, s: State) returns (e: Event)
    requires cfg.Valid() && Inv(cfg, s) && Waiting(s.client) && (Answering(cfg, s) || s.timedOut)
    ensures !e.ServerTimeout? && Enabled(cfg, s, e)
  {
    NeverTooLong(cfg, s, ClientLineTooLong);
    ToldSomething(cfg, s);
    hide Inv, Answering, Answer;
    e := if FirstAfter(s.clientBuf, '\n') > 0 then ClientLine else ClientRead(1);
  }

  lemma ToldSomething(cfg: Config, s: State)
    requires Inv(cfg, s) && Waiting(s.client) && (Answering(cfg, s) || s.timedOut)
    ensures s.toClient == "" ==> FirstAfter(s.clientBuf, '\n') > 0
  {
    var answered := Answering(cfg, s);
    var text := if answered then Answer(cfg, s.client, s.acked) else TimeoutText();
    var rest := if answered then TimeoutLine(s) else "";
    AnswerIsText(cfg, s.client, s.acked);
    TimeoutIsText();
    LineIsOne(text);
    hide TimeoutText, Line, Answer, FirstAfter;
    FirstOfBoth(Line(text), rest, '\n');
    assert Line(text) + "" == Line(text);
    assert Unanswered(s) == Line(text) + rest;
    assert s.toClient == "" ==> s.clientBuf == Unanswered(s);
  }

  /** Until the client stops, something can happen without waiting for a timeout. */
  lemma NoDeadlock(cfg: Config, s: State) returns (e: Event)
    requires cfg.Valid() && Inv(cfg, s) && s.client != Stopped
    ensures !e.ServerTimeout? && Enabled(cfg, s, e)
  {
    hide TimeoutText, Line, Answer, Request;
    if s.client == Idle {
      e := Proceed;
    } else if Answering(cfg, s) || s.timedOut {
      e := ClientCanGoOn(cfg, s);
    } else {
      e := ServerCanGoOn(cfg, s);
    }
  }

  // ----- Runs -----

  /** The invariant holds at the start and after every step. */
  lemma StepKeepsInv(cfg: Config, s: State, e: Event)
    requires cfg.Valid() && Inv(cfg, s) && Enabled(cfg, s, e)
    ensures Inv(cfg, Next(cfg, s, e))
  {
    hide Inv, Enabled, Next;
    match e
    case Proceed => ProceedKeeps(cfg, s);
    case ServerRead(k) => ServerReadKeeps(cfg, s, k);
    case ServerLine => ServerLineKeeps(cfg, s);
    case ServerLineTooLong => NeverTooLong(cfg, s, e);
    case ServerBytes(k) => ServerBytesKeeps(cfg, s, k);
    case ServerTimeout => TimeoutKeeps(cfg, s);
    case ClientRead(k) => ClientReadKeeps(cfg, s, k);
    case ClientLine => ClientLineKeeps(cfg, s);
    case ClientLineTooLong => NeverTooLong(cfg, s, e);
  }

  /** From s, the events can happen one after another and lead to s'. */
  ghost predicate Runs(cfg: Config, s: State, events: seq<Event>, s': State)
    decreases |events|
  {
    if events == [] then s' == s
    else Enabled(cfg, s, events[0]) && Runs(cfg, Next(cfg, s, events[0]), events[1..], s')
  }

  lemma {:induction false} RunKeepsInv(cfg: Config, s: State, events: seq<Event>, s': State)
    requires cfg.Valid() && Inv(cfg, s) && Runs(cfg, s, events, s')
    ensures Inv(cfg, s')
    decreases |events|
  {
    if events != [] {
      StepKeepsInv(cfg, s, events[0]);
      RunKeepsInv(cfg, Next(cfg, s, events[0]), events[1..], s');
    }
  }

  /** Whatever the client sends, nothing is logged that the server has not authorized. */
  lemma {:induction false} OnlyAuthorized(cfg: Config, s: State, events: seq<Event>, s': State)
    requires Runs(cfg, s, events, s') && AllAuthorized(cfg, s.log)
    ensures AllAuthorized(cfg, s'.log)
    decreases |events|
  {
    if events != [] {
      OnlyAuthorizedAdded(cfg, s, events[0]);
      OnlyAuthorized(cfg, Next(cfg, s, events[0]), events[1..], s');
    }
  }

  lemma OnlyAuthorizedAdded(cfg: Config, s: State, e: Event)
    requires Enabled(cfg, s, e) && AllAuthorized(cfg, s.log)
    ensures AllAuthorized(cfg, Next(cfg, s, e).log)
  {
    hide HandleHandshake, HandleConnection, Taken, React, FirstAfter, PushLine, CString;
  }

  ghost predicate AllAuthorized(cfg: Config, log: seq<string>) {
    forall i | 0 <= i < |log| :: cfg.authorized(CString(log[i]))
  }

  lemma InitInv(cfg: Config)
    ensures Inv(cfg, Init(cfg))
  {
    var s := Init(cfg);
    assert Unread(s) == Line("MOIN 1 " + cfg.session);
    assert Requesting(cfg, s);
  }

  /**
    However the bytes are split up and whenever the server gives up: the server's log is
    a prefix of the client's commands, every command the client has seen acknowledged is
    in it and at most one more, and when the server switches to counting bytes nothing
    is left in its line buffer.
   */
  lemma LogIsPrefix(cfg: Config, events: seq<Event>, s: State)
    requires cfg.Valid() && Runs(cfg, Init(cfg), events, s)
    ensures s.log <= cfg.commands && s.acked <= |s.log| <= s.acked + 1
    ensures s.server.Bytes? ==> s.serverBuf == ""
    ensures s.server != Deaf
    ensures s.client == Idle ==> s.log == cfg.commands[..s.acked]
    ensures s.client == WaitQuit ==> s.log == cfg.commands
  {
    InitInv(cfg);
    RunKeepsInv(cfg, Init(cfg), events, s);
    hide Runs, Line, Numeral, Answer, Request, Unanswered, Unread, TimeoutLine;
  }

  // ----- What is logged -----

  /**
    handle_push, when the last bytes of a command have come in: an authorized command is
    logged and acknowledged, any other is refused, and the server waits for a line again.
   */
  lemma CommandDecided(cfg: Config, s: State, k: nat)
    requires Enabled(cfg, s, ServerBytes(k)) && |s.part| + k == s.server.n
    ensures var data, s' := s.part + s.toServer[..k], Next(cfg, s, ServerBytes(k));
      && s'.server == Commands && s'.part == "" && s'.toServer == s.toServer[k..]
      && (if cfg.authorized(CString(data)) then s'.log == s.log + [data] && s'.toClient == s.toClient + "OKAY\r\n"
          else s'.log == s.log && s'.toClient == s.toClient + "FAIL You're not authorized\r\n")
  {
    assert Line("OKAY") == "OKAY\r\n";
    assert Line(DeniedText()) == "FAIL You're not authorized\r\n";
    hide CString, Line;
  }

  /** Nothing but the end of a command changes the log. */
  lemma OnlyCommandsAreLogged(cfg: Config, s: State, e: Event)
    requires Enabled(cfg, s, e) && (e.ServerBytes? ==> |s.part| + e.k < s.server.n)
    ensures Next(cfg, s, e).log == s.log
  {
    hide HandleHandshake, HandleConnection, Taken, React, FirstAfter, PushLine;
  }

  ghost predicate Passes(cfg: Config, command: string) {
    cfg.authorized(CString(command)) && (cfg.maxSize == 0 || |command| <= cfg.maxSize)
  }

  /** What has been logged passes, and the client stops in front of a command that does not, or at the end. */
  ghost predicate Decided(cfg: Config, s: State) {
    && (forall i | 0 <= i < |s.log| :: Passes(cfg, s.log[i]))
    && (s.client.WaitCommand? && s.acked < |cfg.commands| ==>
          cfg.maxSize == 0 || |cfg.commands[s.acked]| <= cfg.maxSize)
    && (s.client.Stopped? && !s.timedOut && |s.log| < |cfg.commands| ==> !Passes(cfg, cfg.commands[|s.log|]))
  }

  lemma ElsewhereDecided(cfg: Config, s: State, e: Event)
    requires Enabled(cfg, s, e) && Decided(cfg, s) && !e.ClientLine? && !e.ServerBytes? && !e.ClientLineTooLong?
    ensures Decided(cfg, Next(cfg, s, e))
  {
    OnlyCommandsAreLogged(cfg, s, e);
    hide HandleHandshake, HandleConnection, Taken, FirstAfter, PushLine, Passes;
  }

  lemma BytesDecided(cfg: Config, s: State, k: nat)
    requires cfg.Valid() && Inv(cfg, s) && Enabled(cfg, s, ServerBytes(k)) && Decided(cfg, s)
    ensures Decided(cfg, Next(cfg, s, ServerBytes(k)))
  {
    ServesBytes(cfg, s);
    Received(s.part, s.toServer, k);
    if |s.part| + k == s.server.n {
      assert s.part + s.toServer[..k] == cfg.commands[s.acked];
      hide Inv, CString;
    }
  }

  lemma AnswerDecided(cfg: Config, s: State)
    requires cfg.Valid() && Inv(cfg, s) && Enabled(cfg, s, ClientLine) && Decided(cfg, s)
    ensures Decided(cfg, Next(cfg, s, ClientLine))
  {
    ClientGets(cfg, s);
    ReadIsReacted(cfg, s);
    hide Inv, Answering, Requesting, Answer, React, Taken, FirstAfter, Decided, Reacted, Next;
    var r, rest := React(cfg, s, Taken(s.clientBuf)), s.clientBuf[FirstAfter(s.clientBuf, '\n')..];
    if Answering(cfg, s) && Taken(s.clientBuf) == Answer(cfg, s.client, s.acked) {
      AnswerFacts(cfg, s);
      ReactToAnswer(cfg, s);
      ReactionDecided(cfg, s, r, rest);
    } else {
      AfterTimeoutDecided(cfg, s, r, rest);
    }
  }

  lemma ReadIsReacted(cfg: Config, s: State)
    requires Enabled(cfg, s, ClientLine)
    ensures Next(cfg, s, ClientLine)
         == Reacted(s, React(cfg, s, Taken(s.clientBuf)), s.clientBuf[FirstAfter(s.clientBuf, '\n')..])
  {
    hide Reacted, React, Taken, FirstAfter;
  }

  lemma AfterTimeoutDecided(cfg: Config, s: State, r: Reaction, rest: string)
    requires Decided(cfg, s) && Waiting(s.client) && s.timedOut
    requires r == React(cfg, s, TimeoutText())
    ensures Decided(cfg, Reacted(s, r, rest))
  {
    ReactToTimeout(cfg, s);
    hide React, Taken, Passes, TimeoutText;
  }

  lemma ReactionDecided(cfg: Config, s: State, r: Reaction, rest: string)
    requires Decided(cfg, s) && Waiting(s.client) && s.acked <= |cfg.commands|
    requires s.client == WaitPush || s.client == WaitCommand ==> s.acked < |cfg.commands|
    requires s.client == WaitQuit ==> s.acked == |cfg.commands|
    requires s.log == cfg.commands[..if s.client.WaitCommand? && Allowed(cfg, s.acked) then s.acked + 1 else s.acked]
    requires r == match s.client
      case WaitMoin => Reaction("", Idle)
      case WaitPush =>
        if Fits(cfg, s.acked) then Reaction(cfg.commands[s.acked], WaitCommand) else Reaction("", Stopped)
      case WaitCommand => Reaction("", if Allowed(cfg, s.acked) then Idle else Stopped)
      case _ => Reaction("", Stopped)
    ensures Decided(cfg, Reacted(s, r, rest))
  {
    hide CString;
  }

  lemma {:induction false} RunIsDecided(cfg: Config, s: State, events: seq<Event>, s': State)
    requires cfg.Valid() && Inv(cfg, s) && Decided(cfg, s) && Runs(cfg, s, events, s')
    ensures Decided(cfg, s')
    decreases |events|
  {
    if events != [] {
      var e := events[0];
      StepKeepsInv(cfg, s, e);
      match e {
        case ServerBytes(k) => BytesDecided(cfg, s, k);
        case ClientLine => AnswerDecided(cfg, s);
        case ClientLineTooLong => NeverTooLong(cfg, s, e);
        case _ => ElsewhereDecided(cfg, s, e);
      }
      hide Inv, Decided, Enabled, Next;
      RunIsDecided(cfg, Next(cfg, s, e), events[1..], s');
    }
  }

  lemma StillInTime(cfg: Config, s: State, e: Event)
    requires Enabled(cfg, s, e) && !e.ServerTimeout? && !e.ServerLineTooLong?
    ensures Next(cfg, s, e).timedOut == s.timedOut
  {
    hide HandleHandshake, HandleConnection, FirstAfter, React, Taken, PushLine, CString;
  }

  lemma {:induction false} NoTimeout(cfg: Config, s: State, events: seq<Event>, s': State)
    requires cfg.Valid() && Inv(cfg, s) && Runs(cfg, s, events, s') && !s.timedOut
    requires forall i | 0 <= i < |events| :: !events[i].ServerTimeout?
    ensures !s'.timedOut
    decreases |events|
  {
    if events != [] {
      StepKeepsInv(cfg, s, events[0]);
      if events[0].ServerLineTooLong? { NeverTooLong(cfg, s, events[0]); }
      StillInTime(cfg, s, events[0]);
      hide Inv, Enabled, Next;
      NoTimeout(cfg, Next(cfg, s, events[0]), events[1..], s');
    }
  }

  /**
    In every run, what is logged has been authorized and is within the limit; and if the
    server does not time out, the client stops when all commands have been logged that
    come before the first one that is not authorized or exceeds the limit.
   */
  lemma WhatIsLogged(cfg: Config, events: seq<Event>, s: State)
    requires cfg.Valid() && Runs(cfg, Init(cfg), events, s)
    ensures s.log <= cfg.commands
    ensures forall i | 0 <= i < |s.log| ::
      cfg.authorized(CString(s.log[i])) && (cfg.maxSize == 0 || |s.log[i]| <= cfg.maxSize)
    ensures
      (forall i | 0 <= i < |events| :: !events[i].ServerTimeout?) && s.client == Stopped && s.log != cfg.commands ==>
      var next := cfg.commands[|s.log|];
      !cfg.authorized(CString(next)) || (cfg.maxSize > 0 && |next| > cfg.maxSize)
  {
    InitInv(cfg);
    LogIsPrefix(cfg, events, s);
    RunIsDecided(cfg, Init(cfg), events, s);
    if forall i | 0 <= i < |events| :: !events[i].ServerTimeout? {
      NoTimeout(cfg, Init(cfg), events, s);
    }
    hide Runs, Inv, Init, CString;
    forall i | 0 <= i < |s.log|
      ensures cfg.authorized(CString(s.log[i])) && (cfg.maxSize == 0 || |s.log[i]| <= cfg.maxSize)
    {
      assert Passes(cfg, s.log[i]);
    }
  }

  /** If there is nothing to object to, everything is logged. */
  lemma EverythingIsLogged(cfg: Config, events: seq<Event>, s: State)
    requires cfg.Valid() && Runs(cfg, Init(cfg), events, s) && s.client == Stopped
    requires forall i | 0 <= i < |events| :: !events[i].ServerTimeout?
    requires forall i | 0 <= i < |cfg.commands| ::
      cfg.authorized(CString(cfg.commands[i])) && (cfg.maxSize == 0 || |cfg.commands[i]| <= cfg.maxSize)
    ensures s.log == cfg.commands
  {
    WhatIsLogged(cfg, events, s);
    hide Runs, Init, CString;
  }

  // ----- Every session ends -----

  /** How far the client's session has still to go, whatever happens with the bytes on the way. */
  ghost function Phase(s: State): nat {
    var unread := if Unread(s) == "" then 0 else 1;
    match s.client
    case WaitMoin => 7 + unread
    case Idle => 5 + unread
    case WaitPush => 3 + unread
    case WaitQuit => 3 + unread
    case WaitCommand => 1 + unread
    case Stopped => 0
  }

  ghost predicate Nearer(s: State, s': State) {
    if s'.timedOut != s.timedOut then s'.timedOut
    else if s'.acked != s.acked then s.acked < s'.acked
    else if Phase(s') != Phase(s) then Phase(s') < Phase(s)
    else |s'.toServer| + |s'.toClient| < |s.toServer| + |s.toClient|
  }

  lemma ReadIsNearer(cfg: Config, s: State, e: Event)
    requires Enabled(cfg, s, e) && (e.ServerRead? || e.ClientRead?)
    ensures Nearer(s, Next(cfg, s, e))
  {
    var s' := Next(cfg, s, e);
    if e.ServerRead? {
      Received(s.serverBuf, s.toServer, e.k);
    }
    assert |Unread(s')| == |Unread(s)|;
    hide Unread, CanFill;
  }

  lemma LineIsNearer(cfg: Config, s: State)
    requires cfg.Valid() && Inv(cfg, s) && Enabled(cfg, s, ServerLine)
    ensures Nearer(s, Next(cfg, s, ServerLine))
  {
    hide *;
    LineIsAnswered(cfg, s);
    AnsweredIsNearer(cfg, s);
  }

  lemma AnsweredIsNearer(cfg: Config, s: State)
    requires s.serverBuf != "" && s.part == "" && s.client in {WaitMoin, WaitPush, WaitQuit}
    ensures Nearer(s, Answered(cfg, s))
  {
    assert |Unread(s)| > 0;
    hide Line, Answer, After;
  }

  lemma BytesAreNearer(cfg: Config, s: State, k: nat)
    requires cfg.Valid() && Inv(cfg, s) && Enabled(cfg, s, ServerBytes(k))
    ensures Nearer(s, Next(cfg, s, ServerBytes(k)))
  {
    ServesBytes(cfg, s);
    Received(s.part, s.toServer, k);
    assert |Unread(s)| > 0;
    hide Inv, CString, Line;
    assert |s.part| + k == s.server.n ==> s.toServer[k..] == "";
  }

  lemma ProceedIsNearer(cfg: Config, s: State)
    requires Enabled(cfg, s, Proceed)
    ensures Nearer(s, Next(cfg, s, Proceed))
  {
    hide PushLine, Line, Unread;
  }

  lemma AnswerIsNearer(cfg: Config, s: State)
    requires cfg.Valid() && Inv(cfg, s) && Enabled(cfg, s, ClientLine)
    ensures Nearer(s, Next(cfg, s, ClientLine))
  {
    ClientGets(cfg, s);
    ReactToAnswer(cfg, s);
    ReactToTimeout(cfg, s);
    ReadIsReacted(cfg, s);
    hide *;
    assert Waiting(s.client) by { ClientWaits(cfg, s); }
    ReactionIsNearer(s, React(cfg, s, Taken(s.clientBuf)), s.clientBuf[FirstAfter(s.clientBuf, '\n')..]);
  }

  lemma ClientWaits(cfg: Config, s: State)
    requires Enabled(cfg, s, ClientLine)
    ensures Waiting(s.client)
  {
  }

  lemma ReactionIsNearer(s: State, r: Reaction, rest: string)
    requires Waiting(s.client)
    requires r.next == Stopped || r.next == match s.client
      case WaitPush => WaitCommand
      case WaitQuit => Stopped
      case _ => Idle
    ensures Nearer(s, Reacted(s, r, rest))
  {
    hide Unread;
  }

  lemma TimeoutIsNearer(cfg: Config, s: State)
    requires Inv(cfg, s) && Enabled(cfg, s, ServerTimeout)
    ensures s.timedOut || Nearer(s, Next(cfg, s, ServerTimeout))
  {
    hide Inv, Line, Phase;
  }

  /** Every step brings the end of the session nearer, so that no run goes on for ever. */
  lemma EveryStepIsNearer(cfg: Config, s: State, e: Event)
    requires cfg.Valid() && Inv(cfg, s) && Enabled(cfg, s, e)
    ensures Nearer(s, Next(cfg, s, e))
  {
    match e {
      case ServerLine => LineIsNearer(cfg, s);
      case ServerBytes(k) => BytesAreNearer(cfg, s, k);
      case ServerTimeout =>
        TimeoutIsNearer(cfg, s);
        hide Nearer, Requesting, Answering, LogOk, Next;
      case ServerLineTooLong => NeverTooLong(cfg, s, e);
      case ClientLineTooLong => NeverTooLong(cfg, s, e);
      case ServerRead(_) => ReadIsNearer(cfg, s, e);
      case ClientRead(_) => ReadIsNearer(cfg, s, e);
      case Proceed => ProceedIsNearer(cfg, s);
      case ClientLine => AnswerIsNearer(cfg, s);
    }
  }

  /** From every state that can be reached the session can be completed without a timeout. */
  lemma {:induction false} Completes(cfg: Config, s: State) returns (events: seq<Event>, s': State)
    requires cfg.Valid() && Inv(cfg, s)
    ensures Runs(cfg, s, events, s') && s'.client == Stopped
    ensures forall i | 0 <= i < |events| :: !events[i].ServerTimeout?
    decreases !s.timedOut, |cfg.commands| - s.acked, Phase(s), |s.toServer| + |s.toClient|
  {
    if s.client == Stopped {
      events, s' := [], s;
    } else {
      var e := NoDeadlock(cfg, s);
      StepKeepsInv(cfg, s, e);
      EveryStepIsNearer(cfg, s, e);
      var t := Next(cfg, s, e);
      AckedBound(cfg, s);
      AckedBound(cfg, t);
      hide Inv, Enabled, Next, Phase;
      events, s' := Completes(cfg, t);
      assert ([e] + events)[1..] == events;
      events := [e] + events;
    }
  }

  lemma AckedBound(cfg: Config, s: State)
    requires Inv(cfg, s)
    ensures s.acked <= |cfg.commands|
  {
  }
}
