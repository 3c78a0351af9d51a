/**
  What the handlers of both ends do with any line at all: exactly which requests the
  server accepts, what it answers, and exactly when the client goes on.
 */
module ProtocolLaws {
  import opened Protocol
  import opened Text

  /** The line begins with the keyword, in capital letters or not. */
  ghost predicate Begins(s: string, keyword: string) {
    |s| >= |keyword| && forall i | 0 <= i < |keyword| :: Alike(s[i], keyword[i])
  }

  lemma FirstLetters(s: string)
    ensures Begins(s, "MOIN") ==> s[0] in {'M', 'm'}
    ensures Begins(s, "PING") ==> s[0] in {'P', 'p'} && s[1] in {'I', 'i'}
    ensures Begins(s, "PUSH") ==> s[0] in {'P', 'p'} && s[1] in {'U', 'u'}
    ensures Begins(s, "NOOP") ==> s[0] in {'N', 'n'}
    ensures Begins(s, "QUIT") ==> s[0] in {'Q', 'q'}
    ensures Begins(s, "BAIL") ==> s[0] in {'B', 'b'}
    ensures Begins(s, "FAIL") ==> s[0] in {'F', 'f'}
  {
    assert "MOIN"[0] == 'M' && "PING"[0] == 'P' && "PING"[1] == 'I' && "PUSH"[0] == 'P' && "PUSH"[1] == 'U';
    assert "NOOP"[0] == 'N' && "QUIT"[0] == 'Q' && "BAIL"[0] == 'B' && "FAIL"[0] == 'F';
  }

  lemma Keywords(s: string)
    ensures forall k | k in {"MOIN", "PING", "PUSH", "NOOP", "QUIT", "BAIL", "FAIL"} ::
      StartsWith(s, k) <==> Begins(s, k)
  {
    forall k | k in {"MOIN", "PING", "PUSH", "NOOP", "QUIT", "BAIL", "FAIL"}
      ensures StartsWith(s, k) <==> Begins(s, k)
    {
      StartsWithMeans(s, k);
    }
  }

  /** A refusal, which leaves the server waiting for another request. */
  ghost predicate Refuses(reply: string) {
    |reply| > 7 && reply[..5] == "FAIL " && reply[|reply| - 2..] == "\r\n"
  }

  lemma RefusalLine(text: string)
    requires |text| > 5 && text[..5] == "FAIL "
    ensures Refuses(Line(text))
  {
    assert Line(text)[..5] == text[..5];
    assert Line(text)[|Line(text)| - 2..] == "\r\n";
  }

  lemma Refusals()
    ensures Refuses(Line("FAIL Cannot parse MOIN request")) && Refuses(Line("FAIL Expected protocol version"))
    ensures Refuses(Line("FAIL Expected MOIN or PING or BAIL")) && Refuses(Line("FAIL Cannot parse PUSH request"))
    ensures Refuses(Line("FAIL Expected number of bytes")) && Refuses(Line("FAIL PUSH data size too large"))
    ensures Refuses(Line("FAIL Expected PUSH or NOOP or QUIT"))
  {
    hide Line, Refuses;
    RefusalLine("FAIL Cannot parse MOIN request");
    RefusalLine("FAIL Expected protocol version");
    RefusalLine("FAIL Expected MOIN or PING or BAIL");
    RefusalLine("FAIL Cannot parse PUSH request");
    RefusalLine("FAIL Expected number of bytes");
    RefusalLine("FAIL PUSH data size too large");
    RefusalLine("FAIL Expected PUSH or NOOP or QUIT");
  }

  lemma ShortReplies()
    ensures Line("OKAY") == "OKAY\r\n" && Line("MOIN 1") == "MOIN 1\r\n" && Line("PONG 1") == "PONG 1\r\n"
  {
  }

  /** handle_handshake, for any line. */
  lemma AnyHandshake(s: string)
    ensures var r, words := HandleHandshake(s), Words(s);
      && (r.next == Commands <==> Begins(s, "MOIN") && |words| == 3 && Atoi(words[1]) > 0)
      && (r.next == Closed <==> Begins(s, "PING") || Begins(s, "QUIT") || Begins(s, "BAIL"))
      && (r.next == Commands || r.next == Closed || (r.next == Handshake && Refuses(r.reply)))
      && (r.next == Commands ==> r.reply == "MOIN 1\r\n") && (Begins(s, "PING") ==> r.reply == "PONG 1\r\n")
      && (Begins(s, "QUIT") ==> r.reply == "OKAY\r\n") && (Begins(s, "BAIL") ==> r.reply == "")
  {
    Keywords(s);
    FirstLetters(s);
    Refusals();
    ShortReplies();
    hide StartsWith, Begins, Words, Atoi, Line, Refuses;
  }

  /** handle_connection, for any line. */
  lemma AnyRequest(s: string, maxSize: nat)
    ensures var r, words := HandleConnection(s, maxSize), Words(s);
      && (r.next.Bytes? <==>
            Begins(s, "PUSH") && |words| == 2 && Atoi(words[1]) > 0 && (maxSize == 0 || Atoi(words[1]) <= maxSize))
      && (r.next.Bytes? ==> r.next.n == Atoi(words[1]) && r.reply == "OKAY\r\n")
      && (r.next == Deaf <==> Begins(s, "NOOP")) && (r.next == Deaf ==> r.reply == "OKAY\r\n")
      && (r.next == Closed <==> Begins(s, "QUIT") || Begins(s, "BAIL"))
      && (Begins(s, "QUIT") ==> r.reply == "OKAY\r\n") && (Begins(s, "BAIL") ==> r.reply == "")
      && (r.next.Bytes? || r.next == Deaf || r.next == Closed || (r.next == Commands && Refuses(r.reply)))
  {
    Keywords(s);
    FirstLetters(s);
    Refusals();
    ShortReplies();
    hide StartsWith, Begins, Words, Atoi, Line, Refuses;
  }

  /** A client that gives up says so, unless the server has refused or given up itself. */
  ghost predicate GivesUp(s: string, r: Reaction) {
    && r.next == Stopped
    && if Begins(s, "FAIL") || Begins(s, "BAIL") then r.send == ""
       else IsBail(r.send)
  }

  ghost predicate IsBail(t: string) {
    |t| > 7 && t[..5] == "BAIL " && t[|t| - 2..] == "\r\n"
  }

  lemma GrumpyGivesUp(s: string, text: string)
    requires text != ""
    ensures GivesUp(s, Grumpy(s, text))
  {
    Keywords(s);
    BailLine(text);
    hide StartsWith, Begins, Line;
  }

  lemma BailLine(text: string)
    requires text != ""
    ensures IsBail(Line("BAIL " + text))
  {
    var t := Line("BAIL " + text);
    assert t[..5] == "BAIL " && t[|t| - 2..] == "\r\n";
  }

  lemma Farewell(text: string, whole: string)
    requires text != "" && whole == "BAIL " + text
    ensures BailOut(text) == Reaction(Line(whole), Stopped) && IsBail(Line(whole))
  {
    BailLine(text);
    hide Line, IsBail;
  }

  lemma CannotParse()
    ensures BailOut("Cannot parse MOIN response") == Reaction(Line("BAIL Cannot parse MOIN response"), Stopped)
    ensures IsBail(Line("BAIL Cannot parse MOIN response"))
  {
    hide *;
    Farewell("Cannot parse MOIN response", "BAIL Cannot parse MOIN response");
  }

  lemma ExpectedVersion()
    ensures BailOut("Expected protocol version") == Reaction(Line("BAIL Expected protocol version"), Stopped)
    ensures IsBail(Line("BAIL Expected protocol version"))
  {
    hide *;
    Farewell("Expected protocol version", "BAIL Expected protocol version");
  }

  lemma VersionNotSupported()
    ensures BailOut("Protocol version not supported") == Reaction(Line("BAIL Protocol version not supported"), Stopped)
    ensures IsBail(Line("BAIL Protocol version not supported"))
  {
    hide *;
    Farewell("Protocol version not supported", "BAIL Protocol version not supported");
  }

  /** handle_tls_moin_response, for any line. */
  lemma AnyGreeting(s: string)
    ensures var r, words := HandleMoin(s), Words(s);
      if Begins(s, "MOIN") && |words| == 2 && Atoi(words[1]) == 1 then r == Reaction("", Idle) else GivesUp(s, r)
    ensures var r, words := HandleMoin(s), Words(s);
      Begins(s, "MOIN") && (|words| != 2 || Atoi(words[1]) != 1) ==>
        r.send == if |words| != 2 then Line("BAIL Cannot parse MOIN response")
                  else if Atoi(words[1]) <= 0 then Line("BAIL Expected protocol version")
                  else Line("BAIL Protocol version not supported")
  {
    Keywords(s);
    FirstLetters(s);
    GrumpyGivesUp(s, "Received unexpected MOIN response");
    CannotParse();
    ExpectedVersion();
    VersionNotSupported();
    hide StartsWith, Begins, Words, Atoi, Line, Grumpy, BailOut;
  }

  /** The other handlers of the client, for any line. */
  lemma AnyAnswer(s: string, send: string, next: ClientState)
    ensures var r := HandleOkay(s, send, next);
      if |s| == 4 && Begins(s, "OKAY") then r == Reaction(send, next) else GivesUp(s, r)
  {
    EqualMeans("OKAY", s);
    GrumpyGivesUp(s, "Received unexpected response");
    assert (|s| == 4 && forall i | 0 <= i < 4 :: Alike("OKAY"[i], s[i])) <==> |s| == 4 && Begins(s, "OKAY");
    hide EqualIgnoringCase, Begins, Grumpy;
  }
}
