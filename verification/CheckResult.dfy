/**
  Turning the client's input into monitoring commands, and what the server checks about
  the form of a command before it looks at its patterns.
 */
module CheckResult {
  import opened ByteBuffer
  import opened Options
  import opened Sequences
  import opened Text

  // ----- Escaping -----

  function EscapeChar(c: char): string {
    if c == '\\' then "\\\\" else if c == '\n' then "\\n" else [c]
  }

  function Escape(s: string): string {
    if s == "" then "" else EscapeChar(s[0]) + Escape(s[1..])
  }

  /** What a reader of the command makes of it. */
  function Unescape(s: string): string {
    if s == "" then ""
    else if s[0] == '\\' && |s| > 1 then [if s[1] == 'n' then '\n' else s[1]] + Unescape(s[2..])
    else [s[0]] + Unescape(s[1..])
  }

  lemma {:induction false} UnescapeEscape(s: string)
    ensures Unescape(Escape(s)) == s
  {
    if s != "" {
      UnescapeEscape(s[1..]);
      var e, t := EscapeChar(s[0]), Escape(s[1..]);
      assert (e + t)[|e|..] == t;
    }
  }

  /** No two texts are escaped alike. */
  lemma EscapeIsInjective(a: string, b: string)
    requires Escape(a) == Escape(b)
    ensures a == b
  {
    UnescapeEscape(a);
    UnescapeEscape(b);
  }

  lemma {:induction false} EscapeHasNoNewline(s: string)
    ensures '\n' !in Escape(s)
  {
    if s != "" { EscapeHasNoNewline(s[1..]); }
  }

  lemma {:induction false} NothingToEscape(s: string)
    requires '\\' !in s && '\n' !in s
    ensures Escape(s) == s
  {
    if s != "" { NothingToEscape(s[1..]); }
  }

  lemma {:induction false} EscapeOf(a: string, b: string)
    ensures Escape(a + b) == Escape(a) + Escape(b)
    decreases |a|
  {
    if a == "" {
      assert a + b == b;
    } else {
      assert (a + b)[1..] == a[1..] + b;
      EscapeOf(a[1..], b);
    }
  }

  /** escape: the first loop finds out how much room the second one needs. */
  method EscapeText(input: string) returns (escaped: array<char>)
    ensures fresh(escaped) && escaped.Length == |Escape(input)| + 1 && HoldsString(escaped, Escape(input))
  {
    var size := EscapedSize(input);
    escaped := new char[size];
    var n: nat := 0;
    EscapeSplit(input, 0);
    hide Escape, EscapeChar, HoldsString;
    for i := 0 to |input|
      invariant n == |Escape(input[..i])| && n + |Escape(input[i..])| + 1 == escaped.Length
      invariant escaped[..n] == Escape(input[..i])
    {
      EscapeSplit(input, i);
      n := PutEscaped(escaped, n, input[i]);
    }
    EscapeEnd(input);
    PutNul(escaped, n, Escape(input));
  }

  method EscapedSize(input: string) returns (size: nat)
    ensures size == |Escape(input)| + 1
  {
    size := |input| + 1;
    EscapeEnd(input);
    for i := 0 to |input|
      invariant size == |input| - i + |Escape(input[..i])| + 1
    {
      EscapeSplit(input, i);
      if input[i] == '\\' || input[i] == '\n' {
        size := size + 1;
      }
    }
  }

  method PutEscaped(escaped: array<char>, n0: nat, c: char) returns (n: nat)
    requires n0 + |EscapeChar(c)| <= escaped.Length
    modifies escaped
    ensures n == n0 + |EscapeChar(c)| && escaped[..n] == old(escaped[..n0]) + EscapeChar(c)
  {
    n := n0;
    if c == '\\' {
      escaped[n], escaped[n + 1] := '\\', '\\';
      n := n + 2;
    } else if c == '\n' {
      escaped[n], escaped[n + 1] := '\\', 'n';
      n := n + 2;
    } else {
      escaped[n] := c;
      n := n + 1;
    }
  }

  method PutNul(a: array<char>, n: nat, ghost text: string)
    requires n < a.Length && a[..n] == text
    modifies a
    ensures HoldsString(a, text)
  {
    a[n] := '\0';
  }

  lemma EscapeEnd(s: string)
    ensures s[..|s|] == s && s[..0] == "" && s[|s|..] == "" && Escape("") == ""
  {
  }

  lemma EscapeSplit(s: string, i: nat)
    requires i <= |s|
    ensures s[0..] == s && Escape("") == "" && s[..0] == ""
    ensures i < |s| ==> Escape(s[..i + 1]) == Escape(s[..i]) + EscapeChar(s[i])
    ensures i < |s| ==> |Escape(s[i..])| == |EscapeChar(s[i])| + |Escape(s[i + 1..])|
  {
    if i < |s| {
      EscapeOneMore(s, i);
      assert s[i..][1..] == s[i + 1..];
    }
  }

  lemma EscapeOneMore(s: string, i: nat)
    requires i < |s|
    ensures Escape(s[..i + 1]) == Escape(s[..i]) + EscapeChar(s[i])
  {
    assert s[..i + 1] == s[..i] + [s[i]];
    EscapeOf(s[..i], [s[i]]);
    assert Escape([s[i]]) == EscapeChar(s[i]) + "";
  }

  // ----- Fields -----

  /** At most n fields; the last one takes the rest. */
  function Split(s: string, d: char, n: nat): (fields: seq<string>)
    ensures 0 < |fields| && (n > 0 ==> |fields| <= n)
    decreases n
  {
    var pos := FirstAfter(s, d);
    if n <= 1 || pos == 0 then [s] else [s[..pos - 1]] + Split(s[pos..], d, n - 1)
  }

  function Escaped(fields: seq<string>): seq<string> {
    seq(|fields|, i requires 0 <= i < |fields| => Escape(fields[i]))
  }

  predicate Harmless(d: char) {
    d != '\\' && d != '\n' && d != 'n'
  }

  lemma {:induction false} DelimiterKept(s: string, d: char)
    requires Harmless(d)
    ensures d in Escape(s) <==> d in s
  {
    if s != "" { DelimiterKept(s[1..], d); }
  }

  lemma FirstIs(a: string, d: char, b: string)
    requires d !in a
    ensures FirstAfter(a + [d] + b, d) == |a| + 1
  {
    var s := a + [d] + b;
    assert s[..|a|] == a;
    OneMore(s, |a| + 1, d);
  }

  lemma SplitFirst(a: string, d: char, b: string, n: nat)
    requires d !in a && n > 1
    ensures Split(a + [d] + b, d, n) == [a] + Split(b, d, n - 1)
  {
    var s := a + [d] + b;
    FirstIs(a, d, b);
    assert s[..|a|] == a && s[|a| + 1..] == b;
  }

  lemma EscapedFirst(a: string, rest: seq<string>)
    ensures Escaped([a] + rest) == [Escape(a)] + Escaped(rest)
  {
  }

  lemma FirstFieldEscaped(a: string, d: char, b: string, n: nat)
    requires Harmless(d) && d !in a && n > 1 && SplitsWell(b, d, n - 1)
    ensures SplitsWell(a + [d] + b, d, n)
  {
    DelimiterKept(a, d);
    EscapeAround(a, d, b);
    SplitFirst(a, d, b, n);
    SplitFirst(Escape(a), d, Escape(b), n);
    EscapedFirst(a, Split(b, d, n - 1));
    hide Split, Escaped, Escape;
  }

  lemma OneField(s: string, d: char, n: nat)
    requires Harmless(d) && (n <= 1 || d !in s)
    ensures SplitsWell(s, d, n)
  {
    DelimiterKept(s, d);
  }

  /** Splitting what has been escaped gives the same as escaping the fields. */
  lemma {:induction false} SplitEscape(s: string, d: char, n: nat)
    requires Harmless(d)
    ensures SplitsWell(s, d, n)
    decreases n
  {
    var pos := FirstAfter(s, d);
    hide SplitsWell, FirstAfter;
    if n <= 1 || pos == 0 {
      OneField(s, d, n);
    } else {
      assert s == s[..pos - 1] + [d] + s[pos..];
      SplitEscape(s[pos..], d, n - 1);
      FirstFieldEscaped(s[..pos - 1], d, s[pos..], n);
    }
  }

  lemma EscapeAround(a: string, d: char, b: string)
    requires Harmless(d)
    ensures Escape(a + [d] + b) == Escape(a) + [d] + Escape(b)
  {
    EscapeOf(a + [d], b);
    EscapeOf(a, [d]);
    assert Escape([d]) == [d] + "" == [d];
    hide Escape;
  }

  predicate SplitsWell(s: string, d: char, n: nat) {
    Split(Escape(s), d, n) == Escaped(Split(s, d, n))
  }

  /** That is so for every input exactly if the delimiter is none of the characters escaping brings in or takes away. */
  lemma DelimiterMatters(d: char)
    ensures (forall s :: SplitsWell(s, d, 4)) <==> Harmless(d)
  {
    if Harmless(d) {
      forall s ensures SplitsWell(s, d, 4) { SplitEscape(s, d, 4); }
    } else {
      SplitUnlike(d);
      assert !SplitsWell(if d == '\\' then "\\" else "\n", d, 4);
    }
  }

  lemma SplitUnlike(d: char)
    requires !Harmless(d)
    ensures var s := if d == '\\' then "\\" else "\n"; |Split(Escape(s), d, 4)| != |Split(s, d, 4)|
  {
    hide Split, Escape;
    if d == '\\' {
      BackslashSplits();
    } else if d == 'n' {
      LetterSplits();
    } else {
      NewlineSplits();
    }
  }

  lemma BackslashSplits()
    ensures |Split(Escape("\\"), '\\', 4)| != |Split("\\", '\\', 4)|
  {
    FirstIs("", '\\', "");
    FirstIs("", '\\', "\\");
    assert "\\" == "" + ['\\'] + "" && "\\\\" == "" + ['\\'] + "\\";
    assert Escape("\\") == "\\\\" + "";
    assert "\\"[1..] == "" && "\\\\"[1..] == "\\";
  }

  lemma LetterSplits()
    ensures |Split(Escape("\n"), 'n', 4)| != |Split("\n", 'n', 4)|
  {
    FirstIs("\\", 'n', "");
    assert "\\n" == "\\" + ['n'] + "";
    assert Escape("\n") == "\\n" + "";
    assert FirstAfter("\n", 'n') == 0;
  }

  lemma NewlineSplits()
    ensures |Split(Escape("\n"), '\n', 4)| != |Split("\n", '\n', 4)|
  {
    FirstIs("", '\n', "");
    assert "\n" == "" + ['\n'] + "";
    assert Escape("\n") == "\\n" + "";
    assert FirstAfter("\\n", '\n') == 0;
  }

  // ----- Commands -----

  function HostCommand(stamp: string, f: seq<string>): string
    requires |f| == 3
  {
    "[" + stamp + "] PROCESS_HOST_CHECK_RESULT;" + f[0] + ";" + f[1] + ";" + f[2]
  }

  function ServiceCommand(stamp: string, f: seq<string>): string
    requires |f| == 4
  {
    "[" + stamp + "] PROCESS_SERVICE_CHECK_RESULT;" + f[0] + ";" + f[1] + ";" + f[2] + ";" + f[3]
  }

  /** What a check result means: three or four fields, escaped one by one; anything else is refused. */
  function CheckCommand(input: string, delimiter: char, stamp: string): Option<string> {
    var f := Split(Escape(input), delimiter, 4);
    if |f| == 3 then Some(HostCommand(stamp, f))
    else if |f| == 4 then Some(ServiceCommand(stamp, f))
    else None
  }

  /** parse_check_result; without a result the program would end. */
  method ParseCheckResult(input0: string, delimiter: char, time: nat) returns (command: Option<string>)
    requires '\0' !in input0
    ensures command == CheckCommand(input0, delimiter, Numeral(time, 10))
  {
    var input := input0;
    if '\\' in input || '\n' in input {
      var escaped := EscapeText(input);
      input := escaped[..escaped.Length - 1];
    } else {
      NothingToEscape(input);
    }
    var fields := FieldsOf(input, delimiter);
    hide Split, Numeral, Escape;
    if |fields| == 3 {
      command := Some(HostCommand(Numeral(time, 10), fields));
    } else if |fields| == 4 {
      command := Some(ServiceCommand(Numeral(time, 10), fields));
    } else {
      command := None;
    }
  }

  /** The loop that looks for up to three delimiters. */
  method FieldsOf(input: string, delimiter: char) returns (fields: seq<string>)
    ensures fields == Split(input, delimiter, 4)
  {
    var start: nat, pos: nat, n: nat := 0, 0, 1;
    fields := [];
    FirstTurn(input, delimiter);
    hide *;
    while n < 4 && pos < |input|
      invariant start <= pos <= |input| && n <= 4 && Parsing(input, delimiter, fields, start, pos, n)
      decreases |input| - pos
    {
      NextTurn(input, delimiter, fields, start, pos, n);
      if input[pos] == delimiter {
        fields := fields + [input[start..pos]];
        start := pos + 1;
        n := n + 1;
      }
      pos := pos + 1;
    }
    LastTurn(input, delimiter, fields, start, pos, n);
    fields := fields + [input[start..]];
  }

  /** n - 1 fields have been found, the n-th begins at `start`, and there is no delimiter in it up to `pos`. */
  ghost predicate Parsing(s: string, d: char, fields: seq<string>, start: nat, pos: nat, n: nat) {
    && start <= pos <= |s| && 1 <= n <= 4 && d !in s[start..pos]
    && Found(s, d, fields, s[start..], 5 - n)
  }

  /** What has been found so far; at most `left` more fields are in the rest. */
  ghost predicate Found(s: string, d: char, fields: seq<string>, rest: string, left: nat) {
    Split(s, d, 4) == fields + Split(rest, d, left)
  }

  lemma FirstTurn(s: string, d: char)
    ensures Parsing(s, d, [], 0, 0, 1)
  {
    assert s[0..] == s;
  }

  lemma NextTurn(s: string, d: char, fields: seq<string>, start: nat, pos: nat, n: nat)
    requires Parsing(s, d, fields, start, pos, n) && n < 4 && pos < |s|
    ensures s[pos] != d ==> Parsing(s, d, fields, start, pos + 1, n)
    ensures s[pos] == d ==> Parsing(s, d, fields + [s[start..pos]], pos + 1, pos + 1, n + 1)
  {
    hide Found;
    if s[pos] == d {
      assert s[start..] == s[start..pos] + [d] + s[pos + 1..];
      FoundOneMore(s, d, fields, s[start..pos], s[pos + 1..], 5 - n);
    } else {
      assert s[start..pos + 1] == s[start..pos] + [s[pos]];
    }
  }

  lemma FoundOneMore(s: string, d: char, fields: seq<string>, field: string, rest: string, left: nat)
    requires d !in field && left > 1 && Found(s, d, fields, field + [d] + rest, left)
    ensures Found(s, d, fields + [field], rest, left - 1)
  {
    SplitFirst(field, d, rest, left);
    hide Split;
    Regroup(fields, [field], Split(rest, d, left - 1));
  }

  lemma LastTurn(s: string, d: char, fields: seq<string>, start: nat, pos: nat, n: nat)
    requires Parsing(s, d, fields, start, pos, n) && (n == 4 || pos == |s|)
    ensures start <= |s| && fields + [s[start..]] == Split(s, d, 4)
  {
    assert pos == |s| ==> s[start..pos] == s[start..];
  }

  function SkipWhitespace(s: string): string {
    if s != "" && IsBlank(s[0]) then SkipWhitespace(s[1..]) else s
  }

  /** parse_command */
  function ParseCommand(line: string, time: nat): string {
    var s := SkipWhitespace(line);
    if s != "" && s[0] == '[' then s else "[" + Numeral(time, 10) + "] " + s
  }

  lemma {:induction false} SkipsBlanks(s: string) returns (n: nat)
    ensures n <= |s| && SkipWhitespace(s) == s[n..] && (forall i | 0 <= i < n :: s[i] == ' ' || s[i] == '\t')
    ensures n < |s| ==> s[n] != ' ' && s[n] != '\t'
  {
    if s != "" && IsBlank(s[0]) {
      n := SkipsBlanks(s[1..]);
      n := n + 1;
    } else {
      n := 0;
    }
  }

  /** A command is passed on without the blanks before it, behind the time unless it has one already. */
  lemma CommandText(line: string, time: nat) returns (n: nat, stamp: string)
    ensures n <= |line| && (forall i | 0 <= i < n :: line[i] == ' ' || line[i] == '\t')
    ensures n < |line| ==> line[n] != ' ' && line[n] != '\t'
    ensures ParseCommand(line, time)
         == if n < |line| && line[n] == '[' then line[n..] else "[" + stamp + "] " + line[n..]
    ensures AllDigits(stamp, 10) && Atoi(stamp) == time
  {
    n := SkipsBlanks(line);
    stamp := Numeral(time, 10);
    NumeralReadsBack(time, 10);
    AtoiOfNumeral(time);
    hide Numeral, Atoi;
  }

  /** A host check result: its fields are escaped and passed on in order. */
  lemma HostResult(f0: string, f1: string, f2: string, d: char, stamp: string)
    requires Harmless(d) && d !in f0 && d !in f1 && d !in f2
    ensures CheckCommand(f0 + [d] + (f1 + [d] + f2), d, stamp)
         == Some("[" + stamp + "] PROCESS_HOST_CHECK_RESULT;" + Escape(f0) + ";" + Escape(f1) + ";" + Escape(f2))
  {
    SplitFirst(f0, d, f1 + [d] + f2, 4);
    SplitFirst(f1, d, f2, 3);
    NoFieldMore(f2, d, 2);
    SplitEscape(f0 + [d] + (f1 + [d] + f2), d, 4);
    hide Split, Escape;
  }

  /** A service check result; what follows the third delimiter is the last field. */
  lemma ServiceResult(f0: string, f1: string, f2: string, f3: string, d: char, stamp: string)
    requires Harmless(d) && d !in f0 && d !in f1 && d !in f2
    ensures CheckCommand(f0 + [d] + (f1 + [d] + (f2 + [d] + f3)), d, stamp)
         == Some("[" + stamp + "] PROCESS_SERVICE_CHECK_RESULT;" + Escape(f0) + ";" + Escape(f1) + ";" + Escape(f2)
                 + ";" + Escape(f3))
  {
    hide *;
    var input := f0 + [d] + (f1 + [d] + (f2 + [d] + f3));
    FourFields(f0, f1, f2, f3, d);
    SplitEscape(input, d, 4);
    FourEscaped(input, f0, f1, f2, f3, d, stamp);
  }

  lemma FourFields(f0: string, f1: string, f2: string, f3: string, d: char)
    requires d !in f0 && d !in f1 && d !in f2
    ensures Split(f0 + [d] + (f1 + [d] + (f2 + [d] + f3)), d, 4) == [f0, f1, f2, f3]
  {
    hide *;
    SplitFirst(f0, d, f1 + [d] + (f2 + [d] + f3), 4);
    SplitFirst(f1, d, f2 + [d] + f3, 3);
    SplitFirst(f2, d, f3, 2);
    NoFieldMore(f3, d, 1);
  }

  lemma FourEscaped(input: string, f0: string, f1: string, f2: string, f3: string, d: char, stamp: string)
    requires SplitsWell(input, d, 4) && Split(input, d, 4) == [f0, f1, f2, f3]
    ensures CheckCommand(input, d, stamp)
         == Some("[" + stamp + "] PROCESS_SERVICE_CHECK_RESULT;" + Escape(f0) + ";" + Escape(f1) + ";" + Escape(f2)
                 + ";" + Escape(f3))
  {
    assert Split(Escape(input), d, 4) == Escaped([f0, f1, f2, f3]);
    hide *;
    EscapedFour(f0, f1, f2, f3);
    FourInText(input, d, stamp, Escape(f0), Escape(f1), Escape(f2), Escape(f3));
  }

  lemma EscapedFour(f0: string, f1: string, f2: string, f3: string)
    ensures Escaped([f0, f1, f2, f3]) == [Escape(f0), Escape(f1), Escape(f2), Escape(f3)]
  {
    hide Escape;
  }

  lemma FourInText(input: string, d: char, stamp: string, e0: string, e1: string, e2: string, e3: string)
    requires Split(Escape(input), d, 4) == [e0, e1, e2, e3]
    ensures CheckCommand(input, d, stamp)
         == Some("[" + stamp + "] PROCESS_SERVICE_CHECK_RESULT;" + e0 + ";" + e1 + ";" + e2 + ";" + e3)
  {
    hide Split, Escape;
  }

  /** Fewer fields are refused. */
  lemma TooFewFields(f0: string, f1: string, d: char, stamp: string)
    requires Harmless(d) && d !in f0 && d !in f1
    ensures CheckCommand(f0, d, stamp) == None && CheckCommand(f0 + [d] + f1, d, stamp) == None
  {
    NoFieldMore(f0, d, 4);
    SplitEscape(f0, d, 4);
    SplitFirst(f0, d, f1, 4);
    NoFieldMore(f1, d, 3);
    SplitEscape(f0 + [d] + f1, d, 4);
    hide Split, Escape;
  }

  lemma NoFieldMore(f: string, d: char, n: nat)
    requires n <= 1 || d !in f
    ensures Split(f, d, n) == [f]
  {
  }

  // ----- What the server checks -----

  /** is_authorized up to the patterns: one newline, at the end, and a bracketed timestamp. */
  function Matchable(data: string): Option<string> {
    var s := CString(data);
    var newline := FirstAfter(s, '\n');
    if newline == 0 then None
    else if newline != |s| then None
    else
      var bracket := FirstAfter(s, ']');
      if bracket == 0 then None else Some(SkipWhitespace(s[bracket..]))
  }

  /** The command has to end in its only newline, and to have a bracket. */
  lemma MatchableMeans(data: string)
    ensures var s := CString(data);
      Matchable(data).Some? <==> s != "" && s[|s| - 1] == '\n' && '\n' !in s[..|s| - 1] && ']' in s
  {
    var s := CString(data);
    hide CString, SkipWhitespace, FirstAfter;
    var newline := FirstAfter(s, '\n');
    if 0 < newline < |s| {
      assert s[newline - 1] == s[..|s| - 1][newline - 1];
    }
  }

  /** What is matched against the patterns follows the bracket and the blanks behind it. */
  lemma MatchedText(data: string) returns (before: string, blanks: string, text: string)
    requires Matchable(data).Some?
    ensures CString(data) == before + "]" + blanks + text && ']' !in before && Matchable(data) == Some(text)
    ensures forall c | c in blanks :: c == ' ' || c == '\t'
    ensures text != "" ==> text[0] != ' ' && text[0] != '\t'
  {
    var s := CString(data);
    var k := FirstAfter(s, ']');
    var n := SkipsBlanks(s[k..]);
    before, blanks, text := s[..k - 1], s[k..][..n], s[k..][n..];
    hide *;
    CutThere(s, k, n);
  }

  lemma CutThere(s: string, k: nat, n: nat)
    requires 0 < k <= |s| && n <= |s[k..]|
    ensures s == s[..k - 1] + [s[k - 1]] + s[k..][..n] + s[k..][n..]
  {
  }

  predicate IsForm(s: string) {
    '\n' !in s && '\0' !in s
  }

  /**
    A text without newlines or NULs, sent with a newline, is accepted as to its form if
    and only if it has a bracket.
   */
  lemma FormAccepted(command: string)
    requires IsForm(command)
    ensures Matchable(command + "\n").Some? <==> ']' in command
  {
    var s := command + "\n";
    WholeCString(s);
    FirstIs(command, '\n', "");
    assert command + ['\n'] + "" == s;
    hide FirstAfter, CString, SkipWhitespace;
    assert ']' in command ==> ']' in s;
  }

  lemma CheckCommandForm(input: string, delimiter: char, time: nat)
    requires '\0' !in input && CheckCommand(input, delimiter, Numeral(time, 10)).Some?
    ensures IsForm(CheckCommand(input, delimiter, Numeral(time, 10)).value)
  {
    var stamp, text := Numeral(time, 10), Escape(input);
    NumeralIsWord(time);
    EscapeHasNoNewline(input);
    EscapeHasNoNul(input);
    SplitWithin(text, delimiter, 4);
    hide Split, Numeral, Escape;
    FormOfCommand(stamp, Split(text, delimiter, 4));
  }

  /** Every command made of a check result passes. */
  lemma CheckCommandAccepted(input: string, delimiter: char, time: nat)
    requires '\0' !in input && CheckCommand(input, delimiter, Numeral(time, 10)).Some?
    ensures Matchable(CheckCommand(input, delimiter, Numeral(time, 10)).value + "\n").Some?
  {
    BracketCloses(input, delimiter, Numeral(time, 10));
    CheckCommandForm(input, delimiter, time);
    hide *;
    FormAccepted(CheckCommand(input, delimiter, Numeral(time, 10)).value);
  }

  lemma BracketCloses(input: string, delimiter: char, stamp: string)
    requires CheckCommand(input, delimiter, stamp).Some?
    ensures ']' in CheckCommand(input, delimiter, stamp).value
  {
    hide Split, Escape;
    assert CheckCommand(input, delimiter, stamp).value[1 + |stamp|] == ']';
  }

  lemma {:induction false} EscapeHasNoNul(s: string)
    requires '\0' !in s
    ensures '\0' !in Escape(s)
  {
    if s != "" { EscapeHasNoNul(s[1..]); }
  }

  lemma {:induction false} SplitWithin(s: string, d: char, n: nat)
    requires IsForm(s)
    ensures forall i | 0 <= i < |Split(s, d, n)| :: IsForm(Split(s, d, n)[i])
    decreases n
  {
    var pos := FirstAfter(s, d);
    if !(n <= 1 || pos == 0) {
      SplitWithin(s[pos..], d, n - 1);
    }
  }

  lemma FormOfBoth(a: string, b: string)
    ensures IsForm(a) && IsForm(b) ==> IsForm(a + b)
  {
  }

  lemma FormOfHostName()
    ensures IsForm("] PROCESS_HOST_CHECK_RESULT;")
  {
  }

  lemma FormOfServiceName()
    ensures IsForm("] PROCESS_SERVICE_CHECK_RESULT;")
  {
  }

  lemma FormOfCommand(stamp: string, f: seq<string>)
    requires IsForm(stamp) && forall i | 0 <= i < |f| :: IsForm(f[i])
    ensures |f| == 3 ==> IsForm(HostCommand(stamp, f))
    ensures |f| == 4 ==> IsForm(ServiceCommand(stamp, f))
  {
    FormOfHostName();
    FormOfServiceName();
    assert IsForm("[") && IsForm(";");
    if |f| == 3 {
      var head := "[" + stamp + "] PROCESS_HOST_CHECK_RESULT;";
      hide IsForm;
      FormOfBoth("[", stamp);
      FormOfBoth("[" + stamp, "] PROCESS_HOST_CHECK_RESULT;");
      FormOfFields(head, f[0], f[1]);
      FormOfBoth(head + f[0] + ";" + f[1], ";");
      FormOfBoth(head + f[0] + ";" + f[1] + ";", f[2]);
    } else if |f| == 4 {
      var head := "[" + stamp + "] PROCESS_SERVICE_CHECK_RESULT;";
      hide IsForm;
      FormOfBoth("[", stamp);
      FormOfBoth("[" + stamp, "] PROCESS_SERVICE_CHECK_RESULT;");
      FormOfFields(head, f[0], f[1]);
      FormOfFields(head + f[0] + ";" + f[1] + ";", f[2], f[3]);
      FormOfBoth(head + f[0] + ";" + f[1], ";");
    }
  }

  lemma FormOfFields(a: string, b: string, c: string)
    requires IsForm(a) && IsForm(b) && IsForm(c)
    ensures IsForm(a + b + ";" + c)
  {
  }

  /** A command passed through as it is passes unless it starts with a bracket that is never closed. */
  lemma CommandAccepted(line: string, time: nat)
    requires IsForm(line)
    ensures Matchable(ParseCommand(line, time) + "\n").Some? <==>
      var s := SkipWhitespace(line); s == "" || s[0] != '[' || ']' in s
  {
    BracketParsed(line, time);
    ParseCommandForm(line, time);
    hide *;
    FormAccepted(ParseCommand(line, time));
  }

  lemma BracketParsed(line: string, time: nat)
    ensures ']' in ParseCommand(line, time) <==> var s := SkipWhitespace(line); s == "" || s[0] != '[' || ']' in s
  {
    var s, stamp := SkipWhitespace(line), Numeral(time, 10);
    hide SkipWhitespace, Numeral;
    if s == "" || s[0] != '[' { assert ParseCommand(line, time)[1 + |stamp|] == ']'; }
  }

  lemma ParseCommandForm(line: string, time: nat)
    requires IsForm(line)
    ensures IsForm(ParseCommand(line, time))
  {
    SkippedWithin(line);
    NumeralIsWord(time);
  }

  lemma {:induction false} SkippedWithin(s: string)
    requires IsForm(s)
    ensures IsForm(SkipWhitespace(s))
  {
    if s != "" && IsBlank(s[0]) { SkippedWithin(s[1..]); }
  }
}
