/**
  From the client's standard input to the server's log: what handle_input_chunk makes of
  each piece of input, joined with the reader of these pieces, the protocol, and the
  server's checks of form.
 */
module EndToEnd {
  import opened ByteBuffer
  import opened CheckResult
  import opened ClientInput
  import opened Options
  import opened Protocol
  import opened Text

  /** What the client is asked to submit: check results, or commands, one a line. */
  datatype Mode = Results(delimiter: char) | Lines

  datatype Outcome = Skipped | Dies | Pushes(command: string)

  function SkipNewlines(s: string): string {
    if s != "" && (s[0] == '\r' || s[0] == '\n') then SkipNewlines(s[1..]) else s
  }

  function Chomp(s: string): string {
    if s != "" && s[|s| - 1] == '\n' then s[..|s| - 1] else s
  }

  /** handle_input_chunk; the NUL at the end of the command becomes a newline. */
  function HandleChunk(piece: string, mode: Mode, time: nat): Outcome {
    var data := SkipNewlines(CString(piece));
    if data == "" then Skipped
    else
      match mode
      case Results(delimiter) =>
        var command := CheckCommand(Chomp(data), delimiter, Numeral(time, 10));
        if command.None? then Dies else Pushes(command.value + "\n")
      case Lines => Pushes(ParseCommand(data, time) + "\n")
  }

  /** The commands made of the pieces; `clock` says when piece k is handled. */
  function Pushed(pieces: seq<string>, mode: Mode, clock: nat -> nat, k: nat): seq<string>
    decreases |pieces|
  {
    if pieces == [] then []
    else
      match HandleChunk(pieces[0], mode, clock(k))
      case Skipped => Pushed(pieces[1..], mode, clock, k + 1)
      case Dies => []
      case Pushes(command) => [command] + Pushed(pieces[1..], mode, clock, k + 1)
  }

  /** One newline, at the end, and no NUL: the server sees all of it, and only asks for a bracket. */
  ghost predicate WellFormed(command: string) {
    && command != "" && command[|command| - 1] == '\n' && IsForm(command[..|command| - 1])
    && (Matchable(command).Some? <==> ']' in command)
  }

  lemma {:induction false} CStringHasNoNul(s: string)
    ensures '\0' !in CString(s) && forall c | c in CString(s) :: c in s
  {
    if s != "" && s[0] != '\0' { CStringHasNoNul(s[1..]); }
  }

  lemma {:induction false} SkipNewlinesWithin(s: string)
    ensures forall c | c in SkipNewlines(s) :: c in s
  {
    if s != "" && (s[0] == '\r' || s[0] == '\n') { SkipNewlinesWithin(s[1..]); }
  }

  lemma TerminatedForm(command: string)
    requires IsForm(command)
    ensures WellFormed(command + "\n")
  {
    FormAccepted(command);
    assert (command + "\n")[..|command|] == command;
    hide Matchable;
  }

  lemma ResultForm(data: string, delimiter: char, time: nat)
    requires '\0' !in data && CheckCommand(Chomp(data), delimiter, Numeral(time, 10)).Some?
    ensures var command := CheckCommand(Chomp(data), delimiter, Numeral(time, 10)).value + "\n";
      WellFormed(command) && Matchable(command).Some?
  {
    CheckCommandForm(Chomp(data), delimiter, time);
    CheckCommandAccepted(Chomp(data), delimiter, time);
    TerminatedForm(CheckCommand(Chomp(data), delimiter, Numeral(time, 10)).value);
  }

  lemma LineForm(data: string, time: nat)
    requires IsForm(data)
    ensures WellFormed(ParseCommand(data, time) + "\n")
  {
    ParseCommandForm(data, time);
    TerminatedForm(ParseCommand(data, time));
  }

  /**
    Whatever the piece: the command pushed is well formed, and one made of a check
    result is accepted as to its form.
   */
  lemma ChunkForm(piece: string, mode: Mode, time: nat)
    requires mode.Lines? ==> '\n' !in piece
    ensures var r := HandleChunk(piece, mode, time);
      r.Pushes? ==> WellFormed(r.command) && (mode.Results? ==> Matchable(r.command).Some?)
  {
    var data := SkipNewlines(CString(piece));
    CStringHasNoNul(piece);
    SkipNewlinesWithin(CString(piece));
    hide CheckCommand, ParseCommand, WellFormed, Matchable, CString, SkipNewlines, Chomp, Numeral;
    match mode {
      case Results(delimiter) =>
        if CheckCommand(Chomp(data), delimiter, Numeral(time, 10)).Some? { ResultForm(data, delimiter, time); }
      case Lines => LineForm(data, time);
    }
  }

  lemma {:induction false} SkipsNewlines(newlines: string, data: string)
    requires forall c | c in newlines :: c == '\r' || c == '\n'
    requires data == "" || (data[0] != '\r' && data[0] != '\n')
    ensures SkipNewlines(newlines + data) == data
    decreases |newlines|
  {
    if newlines == "" {
      assert newlines + data == data;
    } else {
      assert (newlines + data)[1..] == newlines[1..] + data;
      assert newlines[0] in newlines && forall c | c in newlines[1..] :: c in newlines;
      SkipsNewlines(newlines[1..], data);
    }
  }

  /**
    A piece of input is skipped if there are only newlines in it. Otherwise a command is
    pushed that is made of what follows them: of all of it, or of a check result, with or
    without a newline behind it, that has the right number of fields.
   */
  lemma ChunkText(newlines: string, data: string, mode: Mode, time: nat)
    requires (forall c | c in newlines :: c == '\r' || c == '\n') && '\0' !in data
    requires data == "" || (data[0] != '\r' && data[0] != '\n')
    ensures var r := HandleChunk(newlines + data, mode, time);
      && (r == Skipped <==> data == "")
      && (data != "" && mode.Lines? ==> r == Pushes(ParseCommand(data, time) + "\n"))
      && (data != "" && mode.Results? ==>
            var result := if data[|data| - 1] == '\n' then data[..|data| - 1] else data;
            var command := CheckCommand(result, mode.delimiter, Numeral(time, 10));
            r == if command.None? then Dies else Pushes(command.value + "\n"))
  {
    var piece := newlines + data;
    assert '\0' !in piece;
    WholeCString(piece);
    SkipsNewlines(newlines, data);
    hide ParseCommand, CheckCommand, SkipNewlines, CString, Numeral;
  }

  /** The pieces are handled one after another: each gives one command or none, or ends the client. */
  lemma PushedFirst(piece: string, pieces: seq<string>, mode: Mode, clock: nat -> nat, k: nat)
    ensures var r, rest := HandleChunk(piece, mode, clock(k)), Pushed(pieces, mode, clock, k + 1);
      Pushed([piece] + pieces, mode, clock, k)
        == if r.Pushes? then [r.command] + rest else if r == Skipped then rest else []
    ensures Pushed([], mode, clock, k) == []
  {
    hide HandleChunk;
    assert ([piece] + pieces)[1..] == pieces;
  }

  ghost predicate AllForm(commands: seq<string>, mode: Mode) {
    forall i | 0 <= i < |commands| :: WellFormed(commands[i]) && (mode.Results? ==> Matchable(commands[i]).Some?)
  }

  lemma {:induction false} PushedForm(pieces: seq<string>, mode: Mode, clock: nat -> nat, k: nat)
    requires mode.Lines? ==> forall i | 0 <= i < |pieces| :: '\n' !in pieces[i]
    ensures AllForm(Pushed(pieces, mode, clock, k), mode)
    decreases |pieces|
  {
    if pieces != [] {
      ChunkForm(pieces[0], mode, clock(k));
      PushedForm(pieces[1..], mode, clock, k + 1);
      var r, rest := HandleChunk(pieces[0], mode, clock(k)), Pushed(pieces[1..], mode, clock, k + 1);
      hide HandleChunk, WellFormed, Matchable, AllForm;
      OneMoreForm(r, rest, mode);
    } else {
      assert AllForm([], mode);
    }
  }

  lemma OneMoreForm(r: Outcome, rest: seq<string>, mode: Mode)
    requires AllForm(rest, mode)
    requires (r.Pushes? ==> WellFormed(r.command) && (mode.Results? ==> Matchable(r.command).Some?))
    ensures AllForm([], mode) && (r.Pushes? ==> AllForm([r.command] + rest, mode))
  {
    hide WellFormed, Matchable;
  }

  lemma PrefixForm(some: seq<string>, all: seq<string>, mode: Mode)
    requires AllForm(all, mode) && some <= all
    ensures AllForm(some, mode)
  {
    hide WellFormed, Matchable;
  }

  lemma FormIsNotEmpty(commands: seq<string>, mode: Mode)
    requires AllForm(commands, mode)
    ensures forall i | 0 <= i < |commands| :: 0 < |commands[i]|
  {
    hide Matchable, IsForm;
  }

  lemma {:induction false} PiecesHaveNoSeparator(s: string, separator: char)
    ensures forall i | 0 <= i < |Pieces(s, separator)| :: separator !in Pieces(s, separator)[i]
    decreases |s|
  {
    var pos := FirstAfter(s, separator);
    if pos > 0 { PiecesHaveNoSeparator(s[pos..], separator); }
  }

  /** What has been pushed after some of the pieces is the beginning of what is pushed in the end. */
  lemma {:induction false} PushedGrows(some: seq<string>, all: seq<string>, mode: Mode, clock: nat -> nat, k: nat)
    requires some <= all
    ensures Pushed(some, mode, clock, k) <= Pushed(all, mode, clock, k)
    decreases |some|
  {
    if some != [] {
      PushedGrows(some[1..], all[1..], mode, clock, k + 1);
      hide HandleChunk;
    }
  }

  /** A client with this input, mode and session ID, and a server with this limit and these authorizations. */
  function ConfigOf(all: string, separator: char, mode: Mode, clock: nat -> nat,
                    session: string, maxSize: nat, authorized: string -> bool): Config {
    Config(Pushed(Pieces(all, separator), mode, clock, 0), session, maxSize, authorized)
  }

  /** The session ID is a word, and each command's size is an int. */
  ghost predicate Sendable(cfg: Config) {
    && IsWord(cfg.session) && |cfg.session| <= 64 && '\n' !in cfg.session && '\0' !in cfg.session
    && forall i | 0 <= i < |cfg.commands| :: |cfg.commands[i]| <= INT_MAX
  }

  /**
    Whatever is on standard input, however it is read, and however the channels hand out
    what is sent: the server's log is a prefix of the commands made of the pieces of the
    input, each once and in order, with at most one that is not yet acknowledged. When
    the client says goodbye, it is all of them. Every command has its only newline at the
    end, and a check result has the form that the server asks for; so has every logged
    command, if a server that demands this form does the authorizing. If the server
    objects to nothing and does not time out, all commands have been logged when the
    client stops.
   */
  lemma InputReachesLog(all: string, separator: char, mode: Mode, clock: nat -> nat,
                        session: string, maxSize: nat, authorized: string -> bool,
                        events: seq<Protocol.Event>, s: State)
    requires mode.Lines? ==> separator == '\n'
    requires Sendable(ConfigOf(all, separator, mode, clock, session, maxSize, authorized))
    requires var cfg := ConfigOf(all, separator, mode, clock, session, maxSize, authorized);
      Protocol.Runs(cfg, Init(cfg), events, s)
    ensures var commands := Pushed(Pieces(all, separator), mode, clock, 0);
      && s.log <= commands && s.acked <= |s.log| <= s.acked + 1
      && (s.client == WaitQuit ==> s.log == commands)
    ensures AllForm(s.log, mode)
    ensures (forall c | authorized(c) :: Matchable(c).Some?) ==> AllMatchable(s.log)
    ensures var commands := Pushed(Pieces(all, separator), mode, clock, 0);
      s.client == Stopped && (forall i | 0 <= i < |events| :: !events[i].ServerTimeout?)
      && (forall i | 0 <= i < |commands| ::
            authorized(commands[i]) && (maxSize == 0 || |commands[i]| <= maxSize)) ==>
        s.log == commands
  {
    var cfg := ConfigOf(all, separator, mode, clock, session, maxSize, authorized);
    PiecesHaveNoSeparator(all, separator);
    PushedForm(Pieces(all, separator), mode, clock, 0);
    hide Pushed, Pieces, Protocol.Runs, AllForm;
    FormIsNotEmpty(cfg.commands, mode);
    LogIsPrefix(cfg, events, s);
    PrefixForm(s.log, cfg.commands, mode);
    OnlyAuthorized(cfg, Init(cfg), events, s);
    AuthorizedForm(cfg, s.log, mode);
    hide Sendable, Config.Valid;
    FormIsWhole(cfg.commands, mode);
    if s.client == Stopped && (forall i | 0 <= i < |events| :: !events[i].ServerTimeout?)
      && forall i | 0 <= i < |cfg.commands| ::
        cfg.authorized(cfg.commands[i]) && (maxSize == 0 || |cfg.commands[i]| <= maxSize)
    {
      EverythingIsLogged(cfg, events, s);
    }
  }

  lemma FormIsWhole(commands: seq<string>, mode: Mode)
    requires AllForm(commands, mode)
    ensures forall i | 0 <= i < |commands| :: CString(commands[i]) == commands[i]
  {
    hide Matchable, CString;
    forall i | 0 <= i < |commands|
      ensures CString(commands[i]) == commands[i]
    {
      assert WellFormed(commands[i]);
      WholeCString(commands[i]);
    }
  }

  ghost predicate AllMatchable(commands: seq<string>) {
    forall i | 0 <= i < |commands| :: Matchable(commands[i]).Some?
  }

  lemma AuthorizedForm(cfg: Config, log: seq<string>, mode: Mode)
    requires AllAuthorized(cfg, log) && AllForm(log, mode)
    ensures (forall c | cfg.authorized(c) :: Matchable(c).Some?) ==> AllMatchable(log)
  {
    FormIsWhole(log, mode);
    hide Matchable, CString, AllForm;
  }
}
