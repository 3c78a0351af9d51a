/** Numbers and words in text, as the C library reads and prints them. */
module Text {

  // ----- Lines of the stream layer -----

  const LINE_MAX_SIZE: nat := 2048
  const LINE_BUFFER_SIZE: nat := 128
  const LINE_TERMINATOR := "\r\n"

  // ----- Numbers -----

  const INT_MAX: nat := 0x7FFF_FFFF

  function Digit(d: nat): char
    requires d < 16
  {
    if d < 10 then ('0' as nat + d) as char else ('a' as nat + d - 10) as char
  }

  /** Printing without a sign: most significant digit first, "0" for zero. */
  function Numeral(n: nat, base: nat): (s: string)
    requires 2 <= base <= 16
    ensures |s| > 0
  {
    if n < base then [Digit(n)] else Numeral(n / base, base) + [Digit(n % base)]
  }

  function DigitValue(c: char): nat {
    if '0' <= c <= '9' then c as nat - '0' as nat
    else if 'a' <= c <= 'f' then c as nat - 'a' as nat + 10
    else if 'A' <= c <= 'F' then c as nat - 'A' as nat + 10
    else 16
  }

  predicate AllDigits(s: string, base: nat) {
    forall i | 0 <= i < |s| :: DigitValue(s[i]) < base
  }

  /** Reading a string of digits. */
  function Value(s: string, base: nat): nat {
    if s == [] then 0 else Value(s[..|s| - 1], base) * base + DigitValue(s[|s| - 1])
  }

  lemma DigitReadsBack(d: nat)
    requires d < 16
    ensures DigitValue(Digit(d)) == d
  {
  }

  lemma LastDigit(n: nat, base: nat) returns (q: nat, r: nat)
    requires 2 <= base <= 16 && n >= base
    ensures q < n && r < base && q * base + r == n && q == n / base && r == n % base
    ensures Numeral(n, base) == Numeral(q, base) + [Digit(r)]
  {
    q, r := n / base, n % base;
  }

  lemma OneDigitMore(s: string, c: char, base: nat)
    ensures Value(s + [c], base) == Value(s, base) * base + DigitValue(c)
    ensures AllDigits(s, base) && DigitValue(c) < base ==> AllDigits(s + [c], base)
  {
    assert (s + [c])[..|s + [c]| - 1] == s;
  }

  lemma {:induction false} NumeralReadsBack(n: nat, base: nat)
    requires 2 <= base <= 16
    ensures AllDigits(Numeral(n, base), base) && Value(Numeral(n, base), base) == n
  {
    if n < base {
      DigitReadsBack(n);
      OneDigitMore([], Digit(n), base);
      assert [] + [Digit(n)] == [Digit(n)];
    } else {
      var q, r := LastDigit(n, base);
      hide Value, AllDigits, DigitValue, Numeral;
      NumeralReadsBack(q, base);
      DigitReadsBack(r);
      OneDigitMore(Numeral(q, base), Digit(r), base);
    }
  }

  function Power(base: nat, k: nat): nat {
    if k == 0 then 1 else base * Power(base, k - 1)
  }

  lemma {:induction false} PowerGrows(a: nat, b: nat, k: nat)
    requires a <= b
    ensures Power(a, k) <= Power(b, k)
  {
    if k > 0 {
      PowerGrows(a, b, k - 1);
      ProductGrows(a, b, Power(a, k - 1), Power(b, k - 1));
    }
  }

  lemma ProductGrows(a: nat, b: nat, c: nat, d: nat)
    requires a <= b && c <= d
    ensures a * c <= b * d
  {
    assert a * c <= b * c;
    assert c * b <= d * b;
  }

  lemma QuotientBelow(q: nat, r: nat, base: nat, bound: nat)
    requires q * base + r < base * bound
    ensures q < bound
  {
    ProductGrows(base, base, bound, if q >= bound then q else bound);
  }

  /** Numbers below the k-th power of the base have at most k digits. */
  lemma {:induction false} NumeralLength(n: nat, k: nat, base: nat)
    requires 2 <= base <= 16 && k > 0 && n < Power(base, k)
    ensures |Numeral(n, base)| <= k
    decreases k
  {
    assert Power(base, k) == base * Power(base, k - 1) && Power(base, 0) == 1;
    if n >= base {
      var q, r := LastDigit(n, base);
      QuotientBelow(q, r, base, Power(base, k - 1));
      if k > 1 {
        NumeralLength(q, k - 1, base);
      }
    }
  }

  predicate IsSpace(c: char) {
    c == ' ' || ('\t' <= c <= '\r')
  }

  /** How many characters at the start are digits. */
  function LeadingDigits(s: string, base: nat): (n: nat)
    ensures n <= |s| && AllDigits(s[..n], base)
  {
    if s == [] || DigitValue(s[0]) >= base then 0 else 1 + LeadingDigits(s[1..], base)
  }

  /** The digits after an optional prefix "0x", in hexadecimal. */
  function ReadUnsigned(s: string, base: nat): nat {
    var t := if base == 16 && |s| >= 2 && s[0] == '0' && (s[1] == 'x' || s[1] == 'X') then s[2..] else s;
    Value(t[..LeadingDigits(t, base)], base)
  }

  /** strtol() and, with base 10, atoi(), for numbers in range */
  function Strtol(s: string, base: nat): int {
    if s != [] && IsSpace(s[0]) then Strtol(s[1..], base)
    else if s != [] && s[0] == '-' then -(ReadUnsigned(s[1..], base) as int)
    else if s != [] && s[0] == '+' then ReadUnsigned(s[1..], base)
    else ReadUnsigned(s, base)
  }

  function Atoi(s: string): int {
    Strtol(s, 10)
  }

  lemma {:induction false} AllAreLeading(s: string, rest: string, base: nat)
    requires AllDigits(s, base) && (rest == "" || DigitValue(rest[0]) >= base)
    ensures LeadingDigits(s + rest, base) == |s|
  {
    if s == [] {
      assert s + rest == rest;
    } else {
      assert AllDigits(s[1..], base);
      assert (s + rest)[1..] == s[1..] + rest;
      AllAreLeading(s[1..], rest, base);
    }
  }

  lemma AtoiOfDigits(s: string)
    requires AllDigits(s, 10) && s != []
    ensures Atoi(s) == Value(s, 10)
  {
    AllAreLeading(s, "", 10);
    assert s + "" == s;
    assert DigitValue(s[0]) < 10;
    assert s[..|s|] == s;
    hide Value;
  }

  lemma AtoiOfNumeral(n: nat)
    ensures Atoi(Numeral(n, 10)) == n
  {
    NumeralReadsBack(n, 10);
    AtoiOfDigits(Numeral(n, 10));
  }

  // ----- Words -----

  function Lower(c: char): char {
    if 'A' <= c <= 'Z' then (c as int - 'A' as int + 'a' as int) as char else c
  }

  /** The C string in `s`: what precedes the first NUL. */
  function CString(s: string): string {
    if s == [] || s[0] == '\0' then [] else [s[0]] + CString(s[1..])
  }

  /** strcasecmp() == 0 */
  predicate EqualIgnoringCase(a: string, b: string) {
    |a| == |b| && forall i | 0 <= i < |a| :: Lower(a[i]) == Lower(b[i])
  }

  /** strncasecmp(keyword, s, |keyword|) == 0 */
  predicate StartsWith(s: string, keyword: string) {
    |s| >= |keyword| && EqualIgnoringCase(s[..|keyword|], keyword)
  }

  predicate IsBlank(c: char) {
    c == ' ' || c == '\t'
  }

  function WordLength(s: string): (n: nat)
    ensures n <= |s| && (forall i | 0 <= i < n :: !IsBlank(s[i])) && (n < |s| ==> IsBlank(s[n]))
  {
    if s == [] || IsBlank(s[0]) then 0 else 1 + WordLength(s[1..])
  }

  /** The words strtok() finds. */
  function Words(s: string): seq<string>
    decreases |s|
  {
    if s == [] then []
    else if IsBlank(s[0]) then Words(s[1..])
    else [s[..WordLength(s)]] + Words(s[WordLength(s)..])
  }

  predicate IsWord(s: string) {
    s != [] && forall i | 0 <= i < |s| :: !IsBlank(s[i])
  }

  lemma OneWord(w: string)
    requires IsWord(w)
    ensures Words(w) == [w]
  {
    assert WordLength(w) == |w|;
    assert w[..|w|] == w && w[|w|..] == [];
  }

  lemma FirstWord(w: string, rest: string)
    requires IsWord(w)
    ensures Words(w + " " + rest) == [w] + Words(rest)
  {
    var s := w + " " + rest;
    assert s[|w|] == ' ' && forall i | 0 <= i < |w| :: s[i] == w[i];
    assert WordLength(s) == |w|;
    assert s[..|w|] == w && s[|w|..] == " " + rest;
    assert (" " + rest)[1..] == rest;
  }

  lemma NumeralIsWord(n: nat)
    ensures IsWord(Numeral(n, 10)) && '\n' !in Numeral(n, 10) && '\0' !in Numeral(n, 10) && '\r' !in Numeral(n, 10)
  {
    var s := Numeral(n, 10);
    NumeralReadsBack(n, 10);
    forall i | 0 <= i < |s|
      ensures !IsBlank(s[i]) && s[i] != '\n' && s[i] != '\0' && s[i] != '\r'
    {
      assert DigitValue(s[i]) < 10;
    }
  }

  lemma {:induction false} WholeCString(s: string)
    requires '\0' !in s
    ensures CString(s) == s
  {
    if s != [] { WholeCString(s[1..]); }
  }

  /** A C string goes up to the first NUL, or to the end. */
  lemma {:induction false} CStringMeans(s: string)
    ensures CString(s) <= s && '\0' !in CString(s) && (CString(s) != s ==> s[|CString(s)|] == '\0')
  {
    if s != "" && s[0] != '\0' {
      CStringMeans(s[1..]);
      assert s == [s[0]] + s[1..];
    }
  }

  /** The same letter, be it a capital one or not, or the same character. */
  ghost predicate Alike(a: char, b: char) {
    a == b || ('a' <= a <= 'z' && b as int == a as int - 0x20) || ('A' <= a <= 'Z' && b as int == a as int + 0x20)
  }

  lemma StartsWithMeans(s: string, keyword: string)
    ensures StartsWith(s, keyword) <==> |s| >= |keyword| && forall i | 0 <= i < |keyword| :: Alike(s[i], keyword[i])
  {
    forall i | 0 <= i < |keyword| <= |s|
      ensures Lower(s[..|keyword|][i]) == Lower(keyword[i]) <==> Alike(s[i], keyword[i])
    {
    }
  }

  lemma EqualMeans(a: string, b: string)
    ensures EqualIgnoringCase(a, b) <==> |a| == |b| && forall i | 0 <= i < |a| :: Alike(a[i], b[i])
  {
    forall i | 0 <= i < |a| == |b|
      ensures Lower(a[i]) == Lower(b[i]) <==> Alike(a[i], b[i])
    {
    }
  }

  /** Blanks and tabs separate words, however many there are. */
  lemma BlanksSeparate(c: char, w: string, rest: string)
    requires c == ' ' || c == '\t'
    ensures Words([c] + rest) == Words(rest)
    ensures w != "" && ' ' !in w && '\t' !in w ==> Words(w + [c] + rest) == [w] + Words(rest)
  {
    assert ([c] + rest)[1..] == rest;
    var s := w + [c] + rest;
    if w != "" && ' ' !in w && '\t' !in w {
      assert s[|w|] == c && forall i | 0 <= i < |w| :: s[i] == w[i] && s[i] in w;
      assert WordLength(s) == |w|;
      assert s[..|w|] == w && s[|w|..] == [c] + rest;
    }
  }
}
