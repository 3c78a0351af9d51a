/**
  The bundled vsnprintf(), without floating-point conversions: a state machine over the
  format that always measures the whole output and writes as much of it as fits.
 */
module Printf {
  import opened Options
  import opened Text

  // ----- Where the output goes -----

  function Fits(size: nat, n: nat): nat {
    if size == 0 then 0 else if n < size then n else size - 1
  }

  lemma FitsMeans(size: nat, n: nat)
    ensures size > 0 ==> Fits(size, n) == if n < size then n else size - 1
  {
  }

  /** The buffer, its size and the length of the output so far, which may exceed the size. */
  class Sink {
    const str: array?<char>
    const size: nat
    var len: nat
    ghost var out: string            // all of the output so far
    ghost const before: seq<char>    // what was in the buffer at the start

    ghost predicate Valid()
      reads this, str
    {
      && len == |out|
      && (str == null ==> size == 0)
      && (str != null ==> size <= str.Length == |before| && (size == 0 ==> str[..] == before))
      && (str != null && size > 0 ==>
            str[..Fits(size, len)] == out[..Fits(size, len)] && str[Fits(size, len)..] == before[Fits(size, len)..])
    }

    constructor (str: array?<char>, size: nat)
      requires str != null ==> size <= str.Length
      ensures Valid() && out == "" && this.str == str && this.size == (if str == null then 0 else size)
      ensures str != null ==> before == str[..]
    {
      this.str, this.size := str, if str == null then 0 else size;
      len, out := 0, "";
      before := if str == null then [] else str[..];
    }

    /** OUTCHAR */
    method Put(ch: char)
      requires Valid()
      modifies this`len, this`out, str
      ensures Valid() && out == old(out) + [ch]
    {
      if len + 1 < size {
        str[len] := ch;
      }
      len := len + 1;
      out := out + [ch];
    }

    /** The loops that pad. */
    method Pad(n: nat, ch: char)
      requires Valid()
      modifies this`len, this`out, str
      ensures Valid() && out == old(out) + Repeat(n, ch)
    {
      var k: nat := n;
      hide Valid;
      while k > 0
        invariant k <= n && Valid() && out == old(out) + Repeat(n - k, ch)
      {
        Put(ch);
        RepeatOnce(n - k, ch);
        k := k - 1;
      }
    }

    /** The end of rpl_vsnprintf. */
    method Terminate()
      requires Valid()
      modifies str
      ensures str != null && size > 0 ==>
        var n := Fits(size, |out|);
        && n < str.Length && str[n] == '\0' && str[..n] == out[..n] && str[n + 1..] == before[n + 1..]
      ensures str != null && size == 0 ==> str[..] == before
    {
      if len < size {
        str[len] := '\0';
      } else if size > 0 {
        str[size - 1] := '\0';
      }
    }
  }

  function Repeat(n: nat, ch: char): (s: string)
    ensures |s| == n && forall i | 0 <= i < n :: s[i] == ch
  {
    seq(n, _ => ch)
  }

  lemma RepeatOnce(n: nat, ch: char)
    ensures Repeat(n, ch) + [ch] == Repeat(n + 1, ch)
  {
  }

  // ----- Strings -----

  datatype Flags =
    Flags(minus: bool, plus: bool, space: bool, num: bool, zero: bool, quote: bool, up: bool, unsigned: bool)

  const NO_FLAGS := Flags(false, false, false, false, false, false, false, false)

  /** The part of a string that a precision, if there is one, allows to be printed. */
  function Cut(s: string, precision: int): string {
    if 0 <= precision < |s| then s[..precision] else s
  }

  /** Spaces on one side make up the field width. */
  function Field(s: string, width: nat, left: bool): string {
    var pad := if |s| < width then Repeat(width - |s|, ' ') else "";
    if left then s + pad else pad + s
  }

  function StrText(value: Option<string>, width: nat, precision: int, flags: Flags): string {
    Field(Cut(if value.Some? then CString(value.value) else "(null)", precision), width, flags.minus)
  }

  /** fmtstr */
  method FmtStr(sink: Sink, value: Option<string>, width: nat, precision: int, flags: Flags)
    requires sink.Valid() && precision >= -1
    modifies sink`len, sink`out, sink.str
    ensures sink.Valid() && sink.out == old(sink.out) + StrText(value, width, precision, flags)
  {
    var text := if value.Some? then CString(value.value) else "(null)";
    var strln := CountChars(text, precision);
    ghost var cut := Cut(text, precision);
    assert cut == text[..strln];
    var padlen: nat := if width - strln < 0 then 0 else width - strln;
    ghost var start := sink.out;
    FieldPieces(start, cut, width, padlen, flags.minus);
    hide Sink.Valid, Field, Repeat, Cut, CString;
    if !flags.minus {
      sink.Pad(padlen, ' ');
    }
    PutAll(sink, text[..strln]);
    if flags.minus {
      sink.Pad(padlen, ' ');
    }
  }

  /** If there is a precision, the string is not read past it. */
  method CountChars(text: string, precision: int) returns (strln: nat)
    requires precision >= -1
    ensures strln == |Cut(text, precision)| <= |text|
  {
    strln := 0;
    while strln < |text| && (precision == -1 || strln < precision)
      invariant strln <= |text| && (precision == -1 || strln <= precision)
    {
      strln := strln + 1;
    }
  }

  lemma FieldPieces(start: string, s: string, width: nat, pad: nat, left: bool)
    requires pad == if |s| < width then width - |s| else 0
    ensures left ==> start + s + Repeat(pad, ' ') == start + Field(s, width, left)
    ensures !left ==> start + Repeat(pad, ' ') + s == start + Field(s, width, left)
  {
    assert pad == 0 ==> Repeat(pad, ' ') == "";
  }

  /** The loop that copies characters. */
  method PutAll(sink: Sink, s: string)
    requires sink.Valid()
    modifies sink`len, sink`out, sink.str
    ensures sink.Valid() && sink.out == old(sink.out) + s
  {
    hide Sink.Valid;
    for i := 0 to |s|
      invariant sink.Valid() && sink.out == old(sink.out) + s[..i]
    {
      sink.Put(s[i]);
      assert s[..i + 1] == s[..i] + [s[i]];
    }
    assert s[..|s|] == s;
  }

  // ----- Integers -----

  const MAX_CONVERT_LENGTH: nat := 43
  const WORD: nat := 0x1_0000_0000_0000_0000    // one more than the largest UINTMAX_T

  function Upper(c: char): char {
    if 'a' <= c <= 'z' then (c as int - 'a' as int + 'A' as int) as char else c
  }

  function Cased(s: string, up: bool): (t: string)
    ensures |t| == |s|
  {
    if up then seq(|s|, i requires 0 <= i < |s| => Upper(s[i])) else s
  }

  function Magnitude(value: int, flags: Flags): nat
    requires flags.unsigned ==> value >= 0
  {
    if value < 0 then -value else value
  }

  function Sign(value: int, flags: Flags): string {
    if flags.unsigned then ""
    else if value < 0 then "-"
    else if flags.plus then "+"
    else if flags.space then " "
    else ""
  }

  function Prefix(u: nat, base: nat, flags: Flags): string {
    if flags.num && u != 0 && base == 16 then if flags.up then "0X" else "0x" else ""
  }

  /** The number of digits asked for; the alternative form of an octal number starts with a zero. */
  function MinDigits(u: nat, base: nat, precision: int, flags: Flags): int
    requires 2 <= base <= 16
  {
    if flags.num && u != 0 && base == 8 && precision <= |Numeral(u, base)| then |Numeral(u, base)| + 1 else precision
  }

  function ZeroFilled(s: string, n: int): string {
    if |s| < n then Repeat(n - |s|, '0') + s else s
  }

  /** Sign, prefix and at least p digits in a field that is filled with zeros or spaces. */
  function Layout(sign: string, prefix: string, digits: string, p: int, width: nat, zeros: bool, left: bool): string {
    var head := sign + prefix;
    if zeros then head + ZeroFilled(ZeroFilled(digits, p), width - |head|)
    else Field(head + ZeroFilled(digits, p), width, left)
  }

  /** What an integer conversion prints. */
  function IntText(value: int, base: nat, width: nat, precision: int, flags: Flags): string
    requires 2 <= base <= 16 && (flags.unsigned ==> value >= 0)
  {
    var u := Magnitude(value, flags);
    Layout(Sign(value, flags), Prefix(u, base, flags), Cased(Numeral(u, base), flags.up),
           MinDigits(u, base, precision, flags),
           width, flags.zero && !flags.minus && precision == -1, flags.minus)
  }

  /** The digits of a number in reverse order. */
  ghost predicate Backwards(buf: array<char>, pos: nat, digits: string)
    requires pos <= buf.Length
    reads buf
  {
    pos == |digits| && forall i | 0 <= i < pos :: buf[i] == digits[pos - 1 - i]
  }

  lemma Backward(buf: array<char>, pos: nat, digits: string, more: string)
    requires pos < buf.Length && |more| == |digits| + 1 && more[1..] == digits && Backwards(buf, pos, digits)
    requires buf[pos] == more[0]
    ensures Backwards(buf, pos + 1, more)
  {
    forall i | 0 <= i < pos + 1
      ensures buf[i] == more[pos - i]
    {
      if i < pos { assert more[pos - i] == more[1..][pos - i - 1]; }
    }
  }

  /** convert: the digits in reverse order; the buffer is always big enough. */
  method Convert(value: nat, base: nat, caps: bool) returns (buf: array<char>, pos: nat)
    requires 8 <= base <= 16 && value < WORD
    ensures fresh(buf) && pos <= buf.Length && Backwards(buf, pos, Cased(Numeral(value, base), caps))
  {
    buf := new char[MAX_CONVERT_LENGTH];
    pos := 0;
    var v: nat := value;
    var more := true;
    ghost var tail, whole := "", Numeral(value, base);
    WordLength(value, base);
    assert whole + "" == whole;
    hide Numeral, Digit, Cased, Backwards;
    while more
      invariant pos == |tail| <= |whole| <= 22
      invariant whole == (if more then Numeral(v, base) else "") + tail
      invariant Backwards(buf, pos, Cased(tail, caps))
      decreases more, v
    {
      var q, r := Divide(v, base);
      NextDigit(v, base, q, r, tail);
      PutDigit(buf, pos, r, caps, tail);
      tail := [Digit(r)] + tail;
      pos := pos + 1;
      v := q;
      more := v != 0 && pos < buf.Length;
    }
    assert "" + tail == tail;
  }

  method PutDigit(buf: array<char>, pos: nat, r: nat, caps: bool, ghost tail: string)
    requires r < 16 && pos == |tail| < buf.Length && Backwards(buf, pos, Cased(tail, caps))
    modifies buf
    ensures Backwards(buf, pos + 1, Cased([Digit(r)] + tail, caps))
  {
    buf[pos] := if caps then Upper(Digit(r)) else Digit(r);
    CasedMore(Digit(r), tail, caps);
    Backward(buf, pos, Cased(tail, caps), Cased([Digit(r)] + tail, caps));
  }

  method Divide(v: nat, base: nat) returns (q: nat, r: nat)
    requires 2 <= base <= 16
    ensures q == v / base && r == v % base && r < base && (v > 0 ==> q < v)
  {
    q, r := v / base, v % base;
    if v >= base { var _, _ := LastDigit(v, base); } else { SmallQuotient(v, base); }
  }

  lemma SmallQuotient(v: nat, base: nat)
    requires v < base
    ensures v / base == 0
  {
  }

  lemma NextDigit(v: nat, base: nat, q: nat, r: nat, tail: string)
    requires 2 <= base <= 16 && q == v / base && r == v % base && r < base
    ensures Numeral(v, base) + tail == (if q != 0 then Numeral(q, base) else "") + ([Digit(r)] + tail)
  {
    if q == 0 {
      assert v < base && r == v;
    } else {
      assert v >= base;
    }
    assert (if q != 0 then Numeral(q, base) else "") + ([Digit(r)] + tail)
        == (if q != 0 then Numeral(q, base) else "") + [Digit(r)] + tail;
  }

  lemma CasedMore(c: char, s: string, up: bool)
    ensures Cased([c] + s, up) == [if up then Upper(c) else c] + Cased(s, up)
    ensures Cased([c] + s, up)[1..] == Cased(s, up)
  {
  }

  /** A word has at most 22 digits, in octal. */
  lemma WordLength(value: nat, base: nat)
    requires 8 <= base <= 16 && value < WORD
    ensures |Numeral(value, base)| <= 22
  {
    PowerGrows(8, base, 22);
    assert Power(8, 22) >= WORD by {
      assert Power(8, 4) == 4096;
      assert Power(8, 8) == 4096 * Power(8, 4);
      assert Power(8, 12) == 4096 * Power(8, 8);
      assert Power(8, 16) == 4096 * Power(8, 12);
      assert Power(8, 20) == 4096 * Power(8, 16);
    }
    NumeralLength(value, 22, base);
  }

  /** The loop that copies the digits out of the conversion buffer. */
  method PutDigits(sink: Sink, buf: array<char>, pos0: nat, ghost digits: string)
    requires sink.Valid() && pos0 <= buf.Length && Backwards(buf, pos0, digits) && buf != sink.str
    modifies sink`len, sink`out, sink.str
    ensures sink.Valid() && sink.out == old(sink.out) + digits
  {
    var pos: nat := pos0;
    hide Sink.Valid;
    while pos > 0
      invariant pos <= pos0 && sink.Valid() && Backwards(buf, pos0, digits)
      invariant sink.out == old(sink.out) + digits[..pos0 - pos]
    {
      pos := pos - 1;
      sink.Put(buf[pos]);
      assert digits[..pos0 - pos] == digits[..pos0 - pos - 1] + [buf[pos]];
    }
    assert digits[..pos0] == digits;
  }

  /** fmtint; in the C locale there are no group separators. */
  method FmtInt(sink: Sink, value: int, base: nat, width: nat, precision0: int, flags: Flags)
    requires sink.Valid() && base in {8, 10, 16} && precision0 >= -1
    requires 0 - WORD < value < WORD && (flags.unsigned ==> value >= 0)
    modifies sink`len, sink`out, sink.str
    ensures sink.Valid() && sink.out == old(sink.out) + IntText(value, base, width, precision0, flags)
  {
    var uvalue: nat := if value >= 0 then value else -value;
    var sign := GetSign(value, flags);
    hide Sink.Valid, Numeral, Layout, Cased, Pieces, Sign, Prefix, MinDigits, Backwards;
    var buf, pos := Convert(uvalue, base, flags.up);
    ghost var digits := Cased(Numeral(uvalue, base), flags.up);
    DigitCount(buf, pos, digits);
    var precision, hexprefix := AlternativeForm(uvalue, base, pos, precision0, flags);
    var zeros := flags.zero && !flags.minus && precision0 == -1;
    var zpadlen, spadlen := Padding(|sign| + |hexprefix|, pos, width, precision, zeros);
    LayoutPieces(sign, hexprefix, digits, precision, width, zeros, flags.minus, zpadlen, spadlen);
    PutPieces(sink, sign, hexprefix, zpadlen, buf, pos, digits, spadlen, flags.minus);
  }

  lemma DigitCount(buf: array<char>, pos: nat, digits: string)
    requires pos <= buf.Length && Backwards(buf, pos, digits)
    ensures pos == |digits|
  {
  }

  method GetSign(value: int, flags: Flags) returns (sign: string)
    ensures sign == Sign(value, flags)
  {
    sign := "";
    if !flags.unsigned {
      if value < 0 {
        sign := "-";
      } else if flags.plus {
        sign := "+";
      } else if flags.space {
        sign := " ";
      }
    }
  }

  method AlternativeForm(uvalue: nat, base: nat, pos: nat, precision0: int, flags: Flags)
    returns (precision: int, hexprefix: string)
    requires 2 <= base <= 16 && pos == |Numeral(uvalue, base)|
    ensures precision == MinDigits(uvalue, base, precision0, flags) && hexprefix == Prefix(uvalue, base, flags)
  {
    precision, hexprefix := precision0, "";
    if flags.num && uvalue != 0 {
      if base == 8 {
        if precision <= pos {
          precision := pos + 1;
        }
      } else if base == 16 {
        hexprefix := if flags.up then "0X" else "0x";
      }
    }
  }

  method PutPieces(sink: Sink, sign: string, prefix: string, zeros: nat, buf: array<char>, pos: nat,
                   ghost digits: string,
                   spaces: nat, left: bool)
    requires sink.Valid() && pos <= buf.Length && Backwards(buf, pos, digits) && buf != sink.str
    modifies sink`len, sink`out, sink.str
    ensures sink.Valid() && sink.out == old(sink.out) + Pieces(sign, prefix, zeros, digits, spaces, left)
  {
    ghost var start := sink.out;
    hide Sink.Valid, Repeat;
    if !left {
      sink.Pad(spaces, ' ');
    }
    PutAll(sink, sign);
    PutAll(sink, prefix);
    sink.Pad(zeros, '0');
    PutDigits(sink, buf, pos, digits);
    if left {
      sink.Pad(spaces, ' ');
    }
    PaddingMoves(start, Repeat(spaces, ' '), sign, prefix, Repeat(zeros, '0'), digits);
  }

  lemma PaddingMoves(a: string, s: string, b: string, c: string, d: string, e: string)
    ensures a + b + c + d + e + s == a + ("" + b + c + d + e + s)
    ensures a + s + b + c + d + e == a + (s + b + c + d + e + "")
  {
  }

  /** The numbers of padding characters. */
  method Padding(head: nat, pos: nat, width: nat, precision: int, zeros: bool) returns (zpadlen: nat, spadlen: nat)
    ensures
      var z := if precision > pos then precision - pos else 0;
      var rest := width - (if precision >= pos then precision else pos) - head;
      var s := if rest > 0 then rest else 0;
      if zeros then zpadlen == z + s && spadlen == 0 else zpadlen == z && spadlen == s
  {
    zpadlen := if precision - pos < 0 then 0 else precision - pos;
    var rest := width - (if precision >= pos then precision else pos) - head;
    spadlen := if rest < 0 then 0 else rest;
    if zeros {
      zpadlen := zpadlen + spadlen;
      spadlen := 0;
    }
  }

  /** The pieces of an integer conversion, from left to right. */
  ghost function Pieces(sign: string, prefix: string, zeros: nat, digits: string, spaces: nat, left: bool): string {
    (if left then "" else Repeat(spaces, ' '))
      + sign + prefix + Repeat(zeros, '0') + digits + (if left then Repeat(spaces, ' ') else "")
  }

  lemma LayoutPieces(sign: string, prefix: string, digits: string, p: int, width: nat, zeros: bool, left: bool, z: nat,
                     s: nat)
    requires zeros ==> !left
    requires
      var more := if p > |digits| then p - |digits| else 0;
      var rest := width - (if p >= |digits| then p else |digits|) - |sign| - |prefix|;
      var fill := if rest > 0 then rest else 0;
      if zeros then z == more + fill && s == 0 else z == more && s == fill
    ensures Layout(sign, prefix, digits, p, width, zeros, left) == Pieces(sign, prefix, z, digits, s, left)
  {
    var head, filled := sign + prefix, ZeroFilled(digits, p);
    var more := if p > |digits| then p - |digits| else 0;
    assert filled == Repeat(more, '0') + digits;
    assert Repeat(0, ' ') == "";
    if zeros {
      assert ZeroFilled(filled, width - |head|) == Repeat(z - more, '0') + filled;
      RepeatSum(z - more, more, '0');
      hide Repeat, ZeroFilled, Field;
      Join4(sign, prefix, Repeat(z - more, '0'), Repeat(more, '0'), digits);
    } else {
      assert Field(head + filled, width, left)
        == if left then head + filled + Repeat(s, ' ') else Repeat(s, ' ') + (head + filled);
      hide Repeat, ZeroFilled, Field;
      Join5(Repeat(s, ' '), sign, prefix, Repeat(z, '0'), digits);
    }
  }

  lemma RepeatSum(a: nat, b: nat, ch: char)
    ensures Repeat(a, ch) + Repeat(b, ch) == Repeat(a + b, ch)
  {
  }

  lemma Join4(a: string, b: string, c: string, d: string, e: string)
    ensures (a + b) + (c + (d + e)) == "" + a + b + (c + d) + e + ""
  {
  }

  lemma Join5(s: string, a: string, b: string, c: string, d: string)
    ensures (a + b) + (c + d) + s == "" + a + b + c + d + s
    ensures s + ((a + b) + (c + d)) == s + a + b + c + d + ""
  {
  }

  // ----- What an integer conversion means -----

  function Max(a: int, b: int): int {
    if a >= b then a else b
  }

  /** The field is as wide as asked for, or as the sign, the prefix and the digits need. */
  lemma IntLength(value: int, base: nat, width: nat, precision: int, flags: Flags)
    requires base in {8, 10, 16} && precision >= -1 && (flags.unsigned ==> value >= 0)
    ensures
      var u := Magnitude(value, flags);
      |IntText(value, base, width, precision, flags)| ==
        Max(width, |Sign(value, flags)| + |Prefix(u, base, flags)|
                     + Max(MinDigits(u, base, precision, flags), |Numeral(u, base)|))
  {
    hide Numeral, Cased, MinDigits, Sign, Prefix;
  }

  /** The number of digits section 7.19.6.1 of ISO/IEC 9899:1999 asks for: none for zero with precision zero. */
  function StandardDigits(u: nat, base: nat, precision: int, flags: Flags): int
    requires 2 <= base <= 16
  {
    if u == 0 && precision == 0 then if flags.num && base == 8 then 1 else 0
    else if flags.num && base == 8 && u != 0 then Max(precision, |Numeral(u, base)| + 1)
    else Max(precision, |Numeral(u, base)|)
  }

  /** fmtint always prints a digit, so it meets the standard except for a zero with precision zero. */
  lemma DigitsAsInStandard(u: nat, base: nat, precision: int, flags: Flags)
    requires base in {8, 10, 16} && precision >= -1
    ensures Max(MinDigits(u, base, precision, flags), |Numeral(u, base)|) == StandardDigits(u, base, precision, flags)
      <==> !(u == 0 && precision == 0 && !(flags.num && base == 8))
  {
    assert u == 0 ==> |Numeral(u, base)| == 1;
    hide Numeral;
  }

  lemma {:induction false} SpacesSkipped(n: nat, s: string, base: nat)
    ensures Strtol(Repeat(n, ' ') + s, base) == Strtol(s, base)
  {
    if n == 0 {
      assert Repeat(n, ' ') + s == s;
    } else {
      assert (Repeat(n, ' ') + s)[1..] == Repeat(n - 1, ' ') + s;
      SpacesSkipped(n - 1, s, base);
    }
  }

  lemma {:induction false} ZerosDoNotCount(z: nat, s: string, base: nat)
    ensures Value(Repeat(z, '0') + s, base) == Value(s, base)
    decreases |s|, z
  {
    var t := Repeat(z, '0') + s;
    if s == "" {
      if z > 0 {
        assert t[..|t| - 1] == Repeat(z - 1, '0') + "";
        ZerosDoNotCount(z - 1, "", base);
      }
    } else {
      assert t[..|t| - 1] == Repeat(z, '0') + s[..|s| - 1];
      ZerosDoNotCount(z, s[..|s| - 1], base);
    }
  }

  lemma {:induction false} CaseDoesNotCount(s: string, up: bool, base: nat)
    ensures Value(Cased(s, up), base) == Value(s, base) && (AllDigits(s, base) ==> AllDigits(Cased(s, up), base))
  {
    if s != "" {
      CaseDoesNotCount(s[..|s| - 1], up, base);
      assert Cased(s, up)[..|s| - 1] == Cased(s[..|s| - 1], up);
    }
  }

  /** Digits, with or without the prefix, and then nothing or spaces. */
  lemma UnsignedReadsBack(prefix: string, digits: string, trail: nat, base: nat)
    requires base in {8, 10, 16} && AllDigits(digits, base) && digits != ""
    requires prefix == "" || (base == 16 && (prefix == "0x" || prefix == "0X"))
    ensures ReadUnsigned(prefix + (digits + Repeat(trail, ' ')), base) == Value(digits, base)
  {
    var t := digits + Repeat(trail, ' ');
    DigitsEnd(digits, trail, base);
    hide Value, AllDigits, LeadingDigits, Repeat, DigitValue;
    if prefix == "" { assert prefix + t == t; } else { assert (prefix + t)[2..] == t; }
  }

  lemma DigitsEnd(digits: string, trail: nat, base: nat)
    requires base in {8, 10, 16} && AllDigits(digits, base) && digits != ""
    ensures var t := digits + Repeat(trail, ' ');
      && LeadingDigits(t, base) == |digits| && t[..|digits|] == digits
      && (|t| >= 2 ==> t[1] != 'x' && t[1] != 'X')
  {
    var spaces := Repeat(trail, ' ');
    assert trail > 0 ==> DigitValue(spaces[0]) >= base;
    AllAreLeading(digits, spaces, base);
    assert |digits| > 1 ==> DigitValue(digits[1]) < base;
  }

  /** strtol() reads the number back from what an integer conversion prints. */
  lemma IntReadsBack(value: int, base: nat, width: nat, precision: int, flags: Flags)
    requires base in {8, 10, 16} && precision >= -1 && (flags.unsigned ==> value >= 0)
    ensures Strtol(IntText(value, base, width, precision, flags), base) == value
  {
    var u := Magnitude(value, flags);
    var sign, prefix := Sign(value, flags), Prefix(u, base, flags);
    var digits := Cased(Numeral(u, base), flags.up);
    NumeralReadsBack(u, base);
    CaseDoesNotCount(Numeral(u, base), flags.up, base);
    var p := MinDigits(u, base, precision, flags);
    var zeros := flags.zero && !flags.minus && precision == -1;
    var more := if p > |digits| then p - |digits| else 0;
    var rest := width - (if p >= |digits| then p else |digits|) - |sign| - |prefix|;
    var fill := if rest > 0 then rest else 0;
    var z, s := if zeros then more + fill else more, if zeros then 0 else fill;
    hide Numeral, Cased, MinDigits, Value, Strtol, ReadUnsigned, Layout;
    LayoutPieces(sign, prefix, digits, p, width, zeros, flags.minus, z, s);
    PiecesReadBack(value, flags, sign, prefix, z, digits, s, base);
  }

  lemma PiecesReadBack(value: int, flags: Flags, sign: string, prefix: string, z: nat, digits: string, s: nat,
                       base: nat)
    requires base in {8, 10, 16} && AllDigits(digits, base) && digits != "" && sign == Sign(value, flags)
    requires (flags.unsigned ==> value >= 0) && Value(digits, base) == (if value < 0 then -value else value)
    requires prefix == "" || (base == 16 && (prefix == "0x" || prefix == "0X"))
    ensures Strtol(Pieces(sign, prefix, z, digits, s, flags.minus), base) == value
  {
    var lead, trail := if flags.minus then 0 else s, if flags.minus then s else 0;
    var all := Repeat(z, '0') + digits;
    var body := prefix + (all + Repeat(trail, ' '));
    ZerosDoNotCount(z, digits, base);
    assert AllDigits(all, base) && DigitValue(all[0]) < base;
    assert body[0] == if prefix == "" then all[0] else '0';
    UnsignedReadsBack(prefix, all, trail, base);
    hide Value, ReadUnsigned, AllDigits;
    SignReadsBack(sign, body, base);
    SpacesSkipped(lead, sign + body, base);
    assert Repeat(0, ' ') == "";
    hide Repeat, Strtol, DigitValue;
    PiecesInOrder(Repeat(s, ' '), sign, prefix, Repeat(z, '0'), digits);
  }

  lemma SignReadsBack(sign: string, body: string, base: nat)
    requires body != "" && DigitValue(body[0]) < 16 && sign in {"", "+", "-", " "}
    ensures Strtol(sign + body, base) == if sign == "-" then 0 - ReadUnsigned(body, base) else ReadUnsigned(body, base)
  {
    hide ReadUnsigned;
    assert sign == "" ==> sign + body == body;
    assert sign != "" ==> (sign + body)[1..] == body;
  }

  lemma PiecesInOrder(s: string, a: string, b: string, c: string, d: string)
    ensures "" + a + b + c + d + s == "" + (a + (b + (c + d + s)))
    ensures s + a + b + c + d + "" == s + (a + (b + (c + d + "")))
  {
  }

  // ----- Formats -----

  datatype Mod = NoMod | Char | Short | Long | LongLong | LongDouble | SizeT | PtrDiff | IntMaxT

  /** An argument; of a floating-point number we are given the text that fmtflt makes of it. */
  datatype Arg = Int(v: int) | Str(s: Option<string>) | Flt(text: string)

  datatype Output = Output(text: string, overflow: bool) {
    function After(s: string): Output {
      Output(s + text, overflow)
    }
  }

  lemma AfterAfter(o: Output, a: string, b: string)
    ensures o.After(a).After(b) == o.After(b + a)
  {
  }

  const NOTHING := Output("", false)

  /** va_arg(); what a missing argument gives is undefined. */
  function NextInt(args: seq<Arg>): int {
    if args != [] && args[0].Int? then args[0].v else 0
  }

  function NextStr(args: seq<Arg>): Option<string> {
    if args != [] && args[0].Str? then args[0].s else None
  }

  function NextFlt(args: seq<Arg>): string {
    if args != [] && args[0].Flt? then args[0].text else ""
  }

  function Rest(args: seq<Arg>): seq<Arg> {
    if args == [] then [] else args[1..]
  }

  /** One more than the largest value of the unsigned type that a length modifier stands for. */
  function Modulus(mod: Mod): nat {
    match mod
    case Char => 0x100
    case Short => 0x1_0000
    case NoMod => 0x1_0000_0000
    case LongDouble => 0x1_0000_0000
    case _ => WORD
  }

  function AsUnsigned(v: int, mod: Mod): (u: nat)
    ensures u < WORD
  {
    v % Modulus(mod)
  }

  function AsSigned(v: int, mod: Mod): (i: int)
    ensures 0 - WORD < i < WORD
  {
    var u := AsUnsigned(v, mod);
    if u >= Modulus(mod) / 2 then u - Modulus(mod) else u
  }

  predicate IsFlag(c: char) {
    c == '-' || c == '+' || c == ' ' || c == '#' || c == '0' || c == '\''
  }

  function WithFlag(f: Flags, c: char): Flags {
    match c
    case '-' => f.(minus := true)
    case '+' => f.(plus := true)
    case ' ' => f.(space := true)
    case '#' => f.(num := true)
    case '0' => f.(zero := true)
    case _ => f.(quote := true)
  }

  predicate IsDecimal(c: char) {
    '0' <= c <= '9'
  }

  predicate IsFloat(c: char) {
    c in "aAeEfFgG"
  }

  function BaseOf(c: char): nat {
    if c == 'o' then 8 else if c == 'u' then 10 else 16
  }

  /** What a conversion prints, and how many arguments it takes. */
  function Converted(c: char, args: seq<Arg>, flags: Flags, width: nat, precision: int, mod: Mod): string {
    if c == 'd' || c == 'i' then IntText(AsSigned(NextInt(args), mod), 10, width, precision, flags.(unsigned := false))
    else if c in "xXou" then
      IntText(AsUnsigned(NextInt(args), mod), BaseOf(c), width, precision, flags.(unsigned := true, up := c == 'X'))
    else if IsFloat(c) then NextFlt(args)
    else if c == 'c' then [(NextInt(args) % 0x100) as char]
    else if c == 's' then StrText(NextStr(args), width, precision, flags)
    else if c == 'p' then
      if NextInt(args) % WORD == 0 then StrText(Some("(nil)"), width, -1, flags)
      else IntText(NextInt(args) % WORD, 16, width, precision, flags.(num := true, unsigned := true, up := false))
    else if c == '%' then "%"
    else ""
  }

  /** The c conversion ignores the width, which is as the standard wants it exactly if there is nothing to fill. */
  lemma CharAsInStandard(args: seq<Arg>, flags: Flags, width: nat, precision: int, mod: Mod)
    ensures var text := Converted('c', args, flags, width, precision, mod);
      text == Field(text, width, flags.minus) <==> width <= 1
  {
    var text := Converted('c', args, flags, width, precision, mod);
    assert |text| == 1 && (width > 1 ==> |Field(text, width, flags.minus)| == width);
  }

  predicate TakesArg(c: char) {
    c in "dixXoucspn" || IsFloat(c)
  }

  datatype S = S_DEFAULT | S_FLAGS | S_WIDTH | S_DOT | S_PRECISION | S_MOD | S_CONV

  function Rank(state: S): nat {
    match state
    case S_DEFAULT => 0
    case S_CONV => 1
    case S_MOD => 2
    case S_PRECISION => 3
    case S_DOT => 4
    case S_WIDTH => 5
    case S_FLAGS => 6
  }

  /** The length modifier at the start of s, and how long it is. */
  function Modifier(s: string): (Mod, nat) {
    if s == "" then (NoMod, 0)
    else if s[0] == 'h' then if |s| > 1 && s[1] == 'h' then (Char, 2) else (Short, 1)
    else if s[0] == 'l' then if |s| > 1 && s[1] == 'l' then (LongLong, 2) else (Long, 1)
    else if s[0] == 'L' then (LongDouble, 1)
    else if s[0] == 'j' then (IntMaxT, 1)
    else if s[0] == 't' then (PtrDiff, 1)
    else if s[0] == 'z' then (SizeT, 1)
    else (NoMod, 0)
  }

  lemma NoModifier(s: string)
    ensures Modifier(s).1 <= |s| && (Modifier(s).1 == 0 ==> Modifier(s).0 == NoMod)
  {
  }

  lemma Skipped(s: string, i: nat, j: nat)
    requires i <= j <= |s|
    ensures s[i..][j - i..] == s[j..]
  {
  }

  predicate TooBig(n: int, c: char)
    requires IsDecimal(c)
  {
    n > (INT_MAX - (c as int - '0' as int)) / 10
  }

  function Times10(n: nat, c: char): nat
    requires IsDecimal(c)
  {
    10 * n + (c as int - '0' as int)
  }

  /** What the rest of the format prints, from a state of the machine. */
  function From(state: S, s: string, args: seq<Arg>, flags: Flags, width: nat, precision: int, mod: Mod): Output
    requires precision >= -1
    decreases |s|, Rank(state)
  {
    if s == "" then NOTHING
    else
      var c, rest := s[0], s[1..];
      match state
      case S_DEFAULT =>
        if c == '%' then From(S_FLAGS, rest, args, NO_FLAGS, 0, -1, NoMod)
        else From(S_DEFAULT, rest, args, NO_FLAGS, 0, -1, NoMod).After([c])
      case S_FLAGS =>
        if IsFlag(c) then From(S_FLAGS, rest, args, WithFlag(flags, c), width, precision, mod)
        else From(S_WIDTH, s, args, flags, width, precision, mod)
      case S_WIDTH =>
        if IsDecimal(c) then
          if TooBig(width, c) then Output("", true)
          else From(S_WIDTH, rest, args, flags, Times10(width, c), precision, mod)
        else if c == '*' then
          var w := NextInt(args);
          From(S_DOT, rest, Rest(args), if w < 0 then flags.(minus := true) else flags,
               if w < 0 then -w else w, precision, mod)
        else From(S_DOT, s, args, flags, width, precision, mod)
      case S_DOT =>
        if c == '.' then From(S_PRECISION, rest, args, flags, width, precision, mod)
        else From(S_MOD, s, args, flags, width, precision, mod)
      case S_PRECISION =>
        var p := if precision == -1 then 0 else precision;
        if IsDecimal(c) then
          if TooBig(p, c) then Output("", true) else From(S_PRECISION, rest, args, flags, width, Times10(p, c), mod)
        else if c == '*' then
          From(S_MOD, rest, Rest(args), flags, width, if NextInt(args) < 0 then -1 else NextInt(args), mod)
        else From(S_MOD, s, args, flags, width, p, mod)
      case S_MOD =>
        var m := Modifier(s);
        From(S_CONV, s[m.1..], args, flags, width, precision, m.0)
      case S_CONV =>
        From(S_DEFAULT, rest, if TakesArg(c) then Rest(args) else args, NO_FLAGS, 0, -1, NoMod)
          .After(Converted(c, args, flags, width, precision, mod))
  }

  /** All that a format prints. */
  function Formatted(format: string, args: seq<Arg>): Output {
    From(S_DEFAULT, CString(format), args, NO_FLAGS, 0, -1, NoMod)
  }

  // ----- The machine -----

  class Machine {
    const format: string
    const sink: Sink
    var i: nat                  // index of the character being looked at
    var args: seq<Arg>
    var flags: Flags
    var width: nat
    var precision: int
    var cflags: Mod
    var state: S
    var overflow: bool

    constructor (format: string, args: seq<Arg>, sink: Sink)
      ensures this.format == format && this.sink == sink && this.args == args && i == 0 && !overflow
      ensures state == S_DEFAULT && flags == NO_FLAGS && width == 0 && precision == -1 && cflags == NoMod
    {
      this.format, this.args, this.sink := format, args, sink;
      i, flags, width, precision, cflags, state, overflow := 0, NO_FLAGS, 0, -1, NoMod, S_DEFAULT, false;
    }

    /** What is still to be printed. */
    ghost function Todo(): Output
      requires precision >= -1 && i <= |format|
      reads this
    {
      if overflow then Output("", true) else From(state, format[i..], args, flags, width, precision, cflags)
    }

    ghost predicate Valid()
      reads this, sink, sink.str
    {
      && sink.Valid() && precision >= -1 && i <= |format|
      && (state == S_DEFAULT ==> flags == NO_FLAGS && width == 0 && precision == -1)
      && (state != S_CONV ==> cflags == NoMod)
    }

    /** Together with what has been printed, this is all of the output. */
    ghost predicate Towards(all: Output)
      requires precision >= -1 && i <= |format|
      reads this, sink`out
    {
      all == Todo().After(sink.out)
    }

    ghost function Left(): int
      reads this`i, this`state
    {
      (|format| - i) * 8 + Rank(state)
    }

    lemma Unfold()
      requires i < |format|
      ensures format[i..] != "" && format[i..][0] == format[i] && format[i..][1..] == format[i + 1..]
    {
    }

    /** One turn of the loop. */
    method Step(ghost all: Output)
      requires Valid() && Towards(all) && i < |format| && !overflow
      modifies this, sink`len, sink`out, sink.str
      ensures Valid() && Towards(all) && Left() < old(Left())
    {
      Unfold();
      var ch := format[i];
      match state {
        case S_DEFAULT => StepDefault(ch, all);
        case S_FLAGS =>
          if IsFlag(ch) {
            flags := WithFlag(flags, ch);
            i := i + 1;
          } else {
            state := S_WIDTH;
          }
        case S_WIDTH => StepWidth(ch, all);
        case S_DOT =>
          if ch == '.' {
            state := S_PRECISION;
            i := i + 1;
          } else {
            state := S_MOD;
          }
        case S_PRECISION => StepPrecision(ch, all);
        case S_MOD => StepMod(all);
        case S_CONV => StepConv(ch, all);
      }
    }

    method StepDefault(ch: char, ghost all: Output)
      requires Valid() && Towards(all) && i < |format| && !overflow && ch == format[i] && state == S_DEFAULT
      modifies this, sink`len, sink`out, sink.str
      ensures Valid() && Towards(all) && Left() < old(Left())
    {
      Unfold();
      if ch == '%' {
        state := S_FLAGS;
      } else {
        sink.Put(ch);
      }
      i := i + 1;
    }

    method StepWidth(ch: char, ghost all: Output)
      requires Valid() && Towards(all) && i < |format| && !overflow && ch == format[i] && state == S_WIDTH
      modifies this
      ensures Valid() && Towards(all) && Left() < old(Left())
    {
      Unfold();
      if IsDecimal(ch) {
        if TooBig(width, ch) {
          overflow := true;
        } else {
          width := Times10(width, ch);
        }
        i := i + 1;
      } else if ch == '*' {
        var w := NextInt(args);
        args := Rest(args);
        if w < 0 {
          flags := flags.(minus := true);
          w := -w;
        }
        width := w;
        i := i + 1;
        state := S_DOT;
      } else {
        state := S_DOT;
      }
    }

    method StepPrecision(ch: char, ghost all: Output)
      requires Valid() && Towards(all) && i < |format| && !overflow && ch == format[i] && state == S_PRECISION
      modifies this
      ensures Valid() && Towards(all) && Left() < old(Left())
    {
      Unfold();
      if precision == -1 {
        precision := 0;
      }
      if IsDecimal(ch) {
        if TooBig(precision, ch) {
          overflow := true;
        } else {
          precision := Times10(precision, ch);
        }
        i := i + 1;
      } else if ch == '*' {
        precision := NextInt(args);
        args := Rest(args);
        if precision < 0 {
          precision := -1;
        }
        i := i + 1;
        state := S_MOD;
      } else {
        state := S_MOD;
      }
    }

    method StepMod(ghost all: Output)
      requires Valid() && Towards(all) && i < |format| && !overflow && state == S_MOD
      modifies this
      ensures Valid() && Towards(all) && Left() < old(Left())
    {
      ghost var i0 := i;
      Unfold();
      NoModifier(format[i..]);
      hide Modifier;
      ReadModifier();
      state := S_CONV;
      Skipped(format, i0, i);
    }

    /** The length modifier at the current character, if there is one. */
    method ReadModifier()
      requires i < |format|
      modifies this`i, this`cflags
      ensures old(i) <= i <= |format|
      ensures var m := Modifier(format[old(i)..]); i == old(i) + m.1 && cflags == if m.1 > 0 then m.0 else old(cflags)
    {
      Unfold();
      ghost var s, n := format[i..], |format|;
      assert |s| == n - i && (|s| > 1 ==> s[1] == format[i + 1]);
      var next := if i + 1 < |format| then format[i + 1] else '\0';
      match format[i] {
        case 'h' =>
          i := i + 1;
          if next == 'h' {
            i := i + 1;
            cflags := Char;
          } else {
            cflags := Short;
          }
        case 'l' =>
          i := i + 1;
          if next == 'l' {
            i := i + 1;
            cflags := LongLong;
          } else {
            cflags := Long;
          }
        case 'L' => i, cflags := i + 1, LongDouble;
        case 'j' => i, cflags := i + 1, IntMaxT;
        case 't' => i, cflags := i + 1, PtrDiff;
        case 'z' => i, cflags := i + 1, SizeT;
        case _ =>
      }
    }

    method StepConv(ch: char, ghost all: Output)
      requires Valid() && Towards(all) && i < |format| && !overflow && ch == format[i] && state == S_CONV
      modifies this, sink`len, sink`out, sink.str
      ensures Valid() && Towards(all) && Left() < old(Left())
    {
      ConvTodo(ch, all);
      assert sink.Valid();
      hide *;
      Convert(ch);
      Reset(ch, all);
    }

    /** What is to be printed behind the directive. */
    ghost function Behind(ch: char): Output
      requires i < |format|
      reads this`i, this`args
    {
      From(S_DEFAULT, format[i + 1..], if TakesArg(ch) then Rest(args) else args, NO_FLAGS, 0, -1, NoMod)
    }

    /** Back to the default state, behind the directive. */
    method Reset(ch: char, ghost all: Output)
      requires Valid() && i < |format| && !overflow && state == S_CONV && all == Behind(ch).After(sink.out)
      modifies this
      ensures Valid() && Towards(all) && Left() < old(Left())
    {
      hide Sink.Valid, TakesArg, From, Output.After;
      if TakesArg(ch) {
        args := Rest(args);
      }
      i := i + 1;
      state := S_DEFAULT;
      flags, width, precision, cflags := NO_FLAGS, 0, -1, NoMod;
    }

    lemma ConvTodo(ch: char, all: Output)
      requires Valid() && Towards(all) && i < |format| && !overflow && ch == format[i] && state == S_CONV
      ensures all == Behind(ch).After(sink.out + Converted(ch, args, flags, width, precision, cflags))
    {
      Unfold();
      ghost var converted, next := Converted(ch, args, flags, width, precision, cflags), Behind(ch);
      assert all == next.After(converted).After(sink.out);
      hide *;
      AfterAfter(next, converted, sink.out);
    }

    lemma Finished(all: Output)
      requires Valid() && Towards(all) && (overflow || i == |format|)
      ensures all == Output(sink.out, overflow)
    {
    }

    /** The switch over the conversion specifiers. */
    method Convert(ch: char)
      requires Valid()
      modifies sink`len, sink`out, sink.str
      ensures Valid() && sink.out == old(sink.out) + Converted(ch, args, flags, width, precision, cflags)
    {
      hide Sink.Valid, IntText, StrText;
      match ch {
        case 'd' => FmtInt(sink, AsSigned(NextInt(args), cflags), 10, width, precision, flags.(unsigned := false));
        case 'i' => FmtInt(sink, AsSigned(NextInt(args), cflags), 10, width, precision, flags.(unsigned := false));
        case 'X' =>
          FmtInt(sink, AsUnsigned(NextInt(args), cflags), 16, width, precision, flags.(unsigned := true, up := true));
        case 'x' =>
          FmtInt(sink, AsUnsigned(NextInt(args), cflags), 16, width, precision, flags.(unsigned := true, up := false));
        case 'o' =>
          FmtInt(sink, AsUnsigned(NextInt(args), cflags), 8, width, precision, flags.(unsigned := true, up := false));
        case 'u' =>
          FmtInt(sink, AsUnsigned(NextInt(args), cflags), 10, width, precision, flags.(unsigned := true, up := false));
        case 'c' => sink.Put((NextInt(args) % 0x100) as char);
        case 's' => FmtStr(sink, NextStr(args), width, precision, flags);
        case 'p' =>
          if NextInt(args) % WORD == 0 {
            FmtStr(sink, Some("(nil)"), width, -1, flags);
          } else {
            FmtInt(sink, NextInt(args) % WORD, 16, width, precision,
                   flags.(num := true, unsigned := true, up := false));
          }
        case '%' => sink.Put('%');
        case _ =>
          if IsFloat(ch) {
            PutAll(sink, NextFlt(args));
          }
      }
    }
  }

  /**
    rpl_vsnprintf: whatever the size of the buffer, the output is measured in full, and
    the buffer gets as much of it as fits before a terminating NUL, and nothing else.
   */
  method Vsnprintf(str: array?<char>, size: nat, format: string, args: seq<Arg>) returns (r: int)
    requires str != null ==> size <= str.Length
    modifies str
    ensures r == var all := Formatted(format, args); if all.overflow || |all.text| >= INT_MAX then -1 else |all.text|
    ensures str != null && size > 0 ==>
      var text := Formatted(format, args).text;
      var n := if |text| < size then |text| else size - 1;
      str[..n] == text[..n] && str[n] == '\0' && str[n + 1..] == old(str[n + 1..])
    ensures str != null && size == 0 ==> str[..] == old(str[..])
  {
    ghost var all := Formatted(format, args);
    hide *;
    var sink, overflow := PrintAll(str, size, format, args);
    FitsMeans(sink.size, |all.text|);
    sink.Terminate();
    r := if overflow || sink.len >= INT_MAX then -1 else sink.len;
  }

  /** The loop of rpl_vsnprintf. */
  method PrintAll(str: array?<char>, size: nat, format: string, args: seq<Arg>) returns (sink: Sink, overflow: bool)
    requires str != null ==> size <= str.Length
    modifies str
    ensures sink.Valid() && sink.len == |sink.out| && Formatted(format, args) == Output(sink.out, overflow)
    ensures sink.str == str && sink.size == (if str == null then 0 else size)
    ensures str != null ==> sink.before == old(str[..])
  {
    sink := new Sink(str, size);
    var machine := new Machine(CString(format), args, sink);
    ghost var all := Formatted(format, args);
    assert machine.format[0..] == machine.format;
    hide From, Machine.Todo;
    while machine.i < |machine.format| && !machine.overflow
      invariant machine.Valid() && machine.Towards(all)
      invariant sink.str == str && sink.size == (if str == null then 0 else size)
      invariant (str != null ==> sink.before == old(str[..]))
      decreases machine.Left()
    {
      machine.Step(all);
    }
    machine.Finished(all);
    overflow := machine.overflow;
  }

  /** rpl_vasprintf: the buffer allocated after measuring holds exactly the whole output. */
  method Vasprintf(format: string, args: seq<Arg>) returns (ret: array?<char>, r: int)
    ensures r == var all := Formatted(format, args); if all.overflow || |all.text| >= INT_MAX then -1 else |all.text|
    ensures r >= 0 ==>
      var text := Formatted(format, args).text;
      ret != null && fresh(ret) && ret.Length == |text| + 1 && ret[..|text|] == text && ret[|text|] == '\0'
    ensures r < 0 ==> ret == null
  {
    ret := null;
    var len := Vsnprintf(null, 0, format, args);
    if len < 0 {
      return null, -1;
    }
    var size := len + 1;
    ret := new char[size];
    r := Vsnprintf(ret, size, format, args);
    assert r >= 0;
  }

  // ----- What a directive means -----

  ghost predicate AllFlags(s: string) {
    forall i | 0 <= i < |s| :: IsFlag(s[i])
  }

  ghost function WithFlags(f: Flags, s: string): Flags
    decreases |s|
  {
    if s == "" then f else WithFlags(WithFlag(f, s[0]), s[1..])
  }

  lemma {:induction false} FlagsRead(f: string, s: string, args: seq<Arg>, flags: Flags)
    requires AllFlags(f)
    ensures From(S_FLAGS, f + s, args, flags, 0, -1, NoMod) == From(S_FLAGS, s, args, WithFlags(flags, f), 0, -1, NoMod)
    decreases |f|
  {
    if f == "" {
      assert f + s == s;
    } else {
      assert (f + s)[1..] == f[1..] + s;
      FlagsRead(f[1..], s, args, WithFlag(flags, f[0]));
    }
  }

  /** A number as the machine collects it: the value of its first k digits, for each k. */
  lemma {:induction false} PrefixValue(w: string, k: nat)
    requires AllDigits(w, 10) && k < |w|
    ensures IsDecimal(w[k]) && Times10(Value(w[..k], 10), w[k]) == Value(w[..k + 1], 10) <= Value(w, 10)
    decreases |w| - k
  {
    assert DigitValue(w[k]) < 10;
    assert w[..k + 1][..k] == w[..k];
    if k + 1 < |w| {
      PrefixValue(w, k + 1);
    } else {
      assert w[..k + 1] == w;
    }
  }

  lemma Shift(w: string, k: nat, s: string)
    requires k < |w|
    ensures var t := w[k..] + s; t != "" && t[0] == w[k] && t[1..] == w[k + 1..] + s
  {
    assert w[k..] == [w[k]] + w[k + 1..];
    assert w[k..] + s == [w[k]] + (w[k + 1..] + s);
  }

  lemma {:induction false} WidthRead(w: string, k: nat, s: string, args: seq<Arg>, flags: Flags)
    requires AllDigits(w, 10) && k <= |w| && Value(w, 10) <= INT_MAX
    ensures From(S_WIDTH, w[k..] + s, args, flags, Value(w[..k], 10), -1, NoMod)
         == From(S_WIDTH, s, args, flags, Value(w, 10), -1, NoMod)
    decreases |w| - k
  {
    if k == |w| {
      assert w[k..] + s == s && w[..k] == w;
    } else {
      PrefixValue(w, k);
      Shift(w, k, s);
      hide Value;
      WidthRead(w, k + 1, s, args, flags);
    }
  }

  lemma {:induction false} PrecisionRead(p: string, k: nat, s: string, args: seq<Arg>, flags: Flags, width: nat)
    requires AllDigits(p, 10) && k <= |p| && Value(p, 10) <= INT_MAX
    ensures From(S_PRECISION, p[k..] + s, args, flags, width, Value(p[..k], 10), NoMod)
         == From(S_PRECISION, s, args, flags, width, Value(p, 10), NoMod)
    decreases |p| - k
  {
    if k == |p| {
      assert p[k..] + s == s && p[..k] == p;
    } else {
      PrefixValue(p, k);
      Shift(p, k, s);
      hide Value;
      PrecisionRead(p, k + 1, s, args, flags, width);
    }
  }

  ghost predicate IsConversion(c: char) {
    TakesArg(c) || c == '%'
  }

  ghost predicate IsModifier(m: string) {
    m in {"", "h", "hh", "l", "ll", "L", "j", "t", "z"}
  }

  /** A width or a precision: digits, or an asterisk, which stands for the next argument. */
  datatype Number = Digits(text: string) | Star

  ghost predicate WidthOk(w: Number) {
    w.Digits? ==> AllDigits(w.text, 10) && (w.text == "" || w.text[0] != '0') && Value(w.text, 10) <= INT_MAX
  }

  /** Nothing, or a point and a number. */
  ghost predicate PrecisionOk(p: Option<Number>) {
    p.Some? && p.value.Digits? ==> AllDigits(p.value.text, 10) && Value(p.value.text, 10) <= INT_MAX
  }

  ghost function NumberText(n: Number): string {
    if n.Star? then "*" else n.text
  }

  ghost function PrecisionText(p: Option<Number>): string {
    if p.Some? then "." + NumberText(p.value) else ""
  }

  ghost function NumberOf(n: Number, args: seq<Arg>): int {
    if n.Star? then NextInt(args) else Value(n.text, 10)
  }

  ghost function ArgsAfter(n: Number, args: seq<Arg>): seq<Arg> {
    if n.Star? then Rest(args) else args
  }

  /** A negative width stands for a '-' flag and a positive width. */
  ghost function FlagsOf(flags: Flags, width: int): Flags {
    if width < 0 then flags.(minus := true) else flags
  }

  ghost function Absolute(width: int): nat {
    if width < 0 then -width else width
  }

  /** A negative precision is taken as if it were omitted. */
  ghost function PrecisionOf(p: Option<Number>, args: seq<Arg>): int {
    if p.None? || NumberOf(p.value, args) < 0 then -1 else NumberOf(p.value, args)
  }

  lemma ModifierRead(m: string, c: char, rest: string)
    requires IsModifier(m) && IsConversion(c)
    ensures Modifier(m + [c] + rest) == (Modifier(m).0, |m|)
    ensures (m + [c] + rest)[|m|..] == [c] + rest
    ensures var d := (m + [c] + rest)[0]; !IsDecimal(d) && d != '.' && d != '*' && !IsFlag(d)
  {
    ConversionChar(c);
    assert |m| <= 2;
    var s := m + [c] + rest;
    assert s[0] == if m == "" then c else m[0];
    assert |m| == 1 ==> s[1] == c;
    assert |m| == 2 ==> s[1] == m[1];
  }

  /** No conversion specifier could be taken for anything that may precede it. */
  lemma ConversionChar(c: char)
    requires IsConversion(c)
    ensures !IsDecimal(c) && c != '.' && c != '*' && !IsFlag(c)
    ensures c != 'h' && c != 'l' && c != 'L' && c != 'j' && c != 't' && c != 'z'
  {
  }

  /**
    Section 7.19.6.1 of ISO/IEC 9899:1999: after the percent sign flags, a width, a
    precision and a length modifier, each of which may be missing, and a conversion
    specifier; arguments for the width and the precision come before the one that is
    converted. The state machine prints what the directive as a whole stands for, and
    goes on behind it.
   */
  lemma Directive(f: string, w: Number, p: Option<Number>, m: string, c: char, rest: string, args: seq<Arg>)
    requires AllFlags(f) && WidthOk(w) && PrecisionOk(p) && IsModifier(m) && IsConversion(c)
    ensures
      var width, left := NumberOf(w, args), ArgsAfter(w, args);
      var precision, values := PrecisionOf(p, left), if p.Some? then ArgsAfter(p.value, left) else left;
      From(S_DEFAULT, "%" + (f + (NumberText(w) + (PrecisionText(p) + (m + [c] + rest)))), args, NO_FLAGS, 0, -1, NoMod)
        == From(S_DEFAULT, rest, if TakesArg(c) then Rest(values) else values, NO_FLAGS, 0, -1, NoMod)
             .After(Converted(c, values, FlagsOf(WithFlags(NO_FLAGS, f), width), Absolute(width),
                              precision, Modifier(m).0))
  {
    var s3 := m + [c] + rest;
    var s2 := PrecisionText(p) + s3;
    var s1 := NumberText(w) + s2;
    var flags, width, left := WithFlags(NO_FLAGS, f), NumberOf(w, args), ArgsAfter(w, args);
    assert ("%" + (f + s1))[1..] == f + s1;
    FlagsRead(f, s1, args, NO_FLAGS);
    ModifierRead(m, c, rest);
    PrecisionBegins(p, s3);
    AfterFlags(w, s2, args, flags);
    AfterWidth(p, s3, left, FlagsOf(flags, width), Absolute(width));
    AfterPrecision(m, c, rest, if p.Some? then ArgsAfter(p.value, left) else left,
                   FlagsOf(flags, width), Absolute(width), PrecisionOf(p, left));
  }

  lemma PrecisionBegins(p: Option<Number>, s: string)
    requires s != "" && !IsFlag(s[0]) && !IsDecimal(s[0]) && s[0] != '*'
    ensures var t := PrecisionText(p) + s; t != "" && !IsFlag(t[0]) && !IsDecimal(t[0]) && t[0] != '*'
  {
  }

  lemma AfterFlags(w: Number, s: string, args: seq<Arg>, flags: Flags)
    requires WidthOk(w) && s != "" && !IsFlag(s[0]) && !IsDecimal(s[0]) && s[0] != '*'
    ensures var width := NumberOf(w, args);
      From(S_FLAGS, NumberText(w) + s, args, flags, 0, -1, NoMod)
        == From(S_DOT, s, ArgsAfter(w, args), FlagsOf(flags, width), Absolute(width), -1, NoMod)
  {
    match w {
      case Digits(text) => DigitsRead(text, s, args, flags);
      case Star => assert ("*" + s)[1..] == s && ("*" + s)[0] == '*';
    }
  }

  lemma DigitsRead(w: string, s: string, args: seq<Arg>, flags: Flags)
    requires AllDigits(w, 10) && (w == "" || w[0] != '0') && Value(w, 10) <= INT_MAX
    requires s != "" && !IsFlag(s[0]) && !IsDecimal(s[0]) && s[0] != '*'
    ensures From(S_FLAGS, w + s, args, flags, 0, -1, NoMod) == From(S_DOT, s, args, flags, Value(w, 10), -1, NoMod)
  {
    assert w != "" ==> DigitValue(w[0]) < 10;
    assert (w + s)[0] == if w == "" then s[0] else w[0];
    assert w[0..] == w && Value(w[..0], 10) == 0;
    WidthRead(w, 0, s, args, flags);
  }

  lemma AfterWidth(p: Option<Number>, s: string, args: seq<Arg>, flags: Flags, width: nat)
    requires PrecisionOk(p) && s != "" && s[0] != '.' && !IsDecimal(s[0]) && s[0] != '*'
    ensures From(S_DOT, PrecisionText(p) + s, args, flags, width, -1, NoMod)
         == From(S_MOD, s, if p.Some? then ArgsAfter(p.value, args) else args,
                 flags, width, PrecisionOf(p, args), NoMod)
  {
    match p {
      case None => assert PrecisionText(p) + s == s;
      case Some(Digits(text)) => PointRead(text, s, args, flags, width);
      case Some(Star) => StarRead(s, args, flags, width);
    }
  }

  lemma StarRead(s: string, args: seq<Arg>, flags: Flags, width: nat)
    ensures From(S_DOT, "." + "*" + s, args, flags, width, -1, NoMod)
         == From(S_MOD, s, Rest(args), flags, width, if NextInt(args) < 0 then -1 else NextInt(args), NoMod)
  {
    var t := "*" + s;
    assert ("." + "*" + s)[1..] == t && ("." + "*" + s)[0] == '.';
    assert t[1..] == s && t[0] == '*';
  }

  lemma PointRead(p: string, s: string, args: seq<Arg>, flags: Flags, width: nat)
    requires s != "" && s[0] != '.' && !IsDecimal(s[0]) && s[0] != '*'
    requires AllDigits(p, 10) && Value(p, 10) <= INT_MAX
    ensures From(S_DOT, "." + p + s, args, flags, width, -1, NoMod)
      == From(S_MOD, s, args, flags, width, Value(p, 10), NoMod)
  {
    var t := p + s;
    assert ("." + p + s)[1..] == t && ("." + p + s)[0] == '.';
    PrecisionStart(t, args, flags, width);
    assert p[0..] == p && Value(p[..0], 10) == 0;
    PrecisionRead(p, 0, s, args, flags, width);
    hide Value;
  }

  lemma PrecisionStart(t: string, args: seq<Arg>, flags: Flags, width: nat)
    ensures From(S_PRECISION, t, args, flags, width, -1, NoMod) == From(S_PRECISION, t, args, flags, width, 0, NoMod)
  {
  }

  lemma AfterPrecision(m: string, c: char, rest: string, args: seq<Arg>, flags: Flags, width: nat, precision: int)
    requires IsModifier(m) && IsConversion(c) && precision >= -1
    ensures From(S_MOD, m + [c] + rest, args, flags, width, precision, NoMod)
         == From(S_DEFAULT, rest, if TakesArg(c) then Rest(args) else args, NO_FLAGS, 0, -1, NoMod)
              .After(Converted(c, args, flags, width, precision, Modifier(m).0))
  {
    ModifierRead(m, c, rest);
    hide Converted;
    assert ([c] + rest)[1..] == rest;
  }

  // ----- What a whole format means -----

  /** A format as section 7.19.6.1 of ISO/IEC 9899:1999 describes it: ordinary text and directives. */
  datatype Part =
    | Ordinary(text: string)
    | Spec(flags: string, width: Number, precision: Option<Number>, modifier: string, conversion: char)

  ghost predicate PartOk(p: Part) {
    match p
    case Ordinary(text) => '%' !in text && '\0' !in text
    case Spec(f, w, q, m, c) => AllFlags(f) && WidthOk(w) && PrecisionOk(q) && IsModifier(m) && IsConversion(c)
  }

  ghost predicate PartsOk(parts: seq<Part>) {
    forall i | 0 <= i < |parts| :: PartOk(parts[i])
  }

  ghost function PartText(p: Part): string {
    match p
    case Ordinary(text) => text
    case Spec(f, w, q, m, c) => "%" + (f + (NumberText(w) + (PrecisionText(q) + (m + [c]))))
  }

  ghost function FormatText(parts: seq<Part>): string {
    if parts == [] then "" else PartText(parts[0]) + FormatText(parts[1..])
  }

  /** The arguments behind those for the width and the precision. */
  ghost function Values(p: Part, args: seq<Arg>): seq<Arg>
    requires p.Spec?
  {
    var left := ArgsAfter(p.width, args);
    if p.precision.Some? then ArgsAfter(p.precision.value, left) else left
  }

  /** The arguments that a part leaves for those behind it. */
  ghost function ArgsBehind(p: Part, args: seq<Arg>): seq<Arg> {
    if p.Ordinary? then args
    else if TakesArg(p.conversion) then Rest(Values(p, args))
    else Values(p, args)
  }

  ghost function Printed(p: Part, args: seq<Arg>): string {
    match p
    case Ordinary(text) => text
    case Spec(f, w, q, m, c) =>
      var width, left := NumberOf(w, args), ArgsAfter(w, args);
      Converted(c, Values(p, args), FlagsOf(WithFlags(NO_FLAGS, f), width), Absolute(width), PrecisionOf(q, left),
                Modifier(m).0)
  }

  ghost function AllPrinted(parts: seq<Part>, args: seq<Arg>): string {
    if parts == [] then "" else Printed(parts[0], args) + AllPrinted(parts[1..], ArgsBehind(parts[0], args))
  }

  /** What the state machine makes of the rest of a format, with the next directive not yet begun. */
  ghost function Remainder(s: string, args: seq<Arg>): Output {
    From(S_DEFAULT, s, args, NO_FLAGS, 0, -1, NoMod)
  }

  lemma {:induction false} OrdinaryRead(text: string, s: string, args: seq<Arg>)
    requires '%' !in text
    ensures Remainder(text + s, args) == Remainder(s, args).After(text)
    decreases |text|
  {
    if text == "" {
      assert text + s == s;
    } else {
      assert (text + s)[1..] == text[1..] + s;
      OrdinaryRead(text[1..], s, args);
      AfterAfter(Remainder(s, args), text[1..], [text[0]]);
      assert [text[0]] + text[1..] == text;
    }
  }

  lemma PartRead(p: Part, s: string, args: seq<Arg>)
    requires PartOk(p)
    ensures Remainder(PartText(p) + s, args) == Remainder(s, ArgsBehind(p, args)).After(Printed(p, args))
  {
    match p {
      case Ordinary(text) => OrdinaryRead(text, s, args);
      case Spec(f, w, q, m, c) =>
        Directive(f, w, q, m, c, s, args);
        SpecText(f, NumberText(w), PrecisionText(q), m, c, s);
        hide From, Converted, WithFlags, Modifier, NumberOf, NumberText, PrecisionText;
    }
  }

  lemma SpecText(f: string, w: string, q: string, m: string, c: char, s: string)
    ensures "%" + (f + (w + (q + (m + [c])))) + s == "%" + (f + (w + (q + (m + [c] + s))))
  {
  }

  /** The arguments that the parts of a format leave. */
  ghost function ArgsLeft(parts: seq<Part>, args: seq<Arg>): seq<Arg>
    decreases |parts|
  {
    if parts == [] then args else ArgsLeft(parts[1..], ArgsBehind(parts[0], args))
  }

  /**
    The parts of a format are read as they are meant: the output is that of each part,
    one after another, with the arguments that those before it have left, and then that
    of the rest.
   */
  lemma {:induction false} WholeFormat(parts: seq<Part>, s: string, args: seq<Arg>)
    requires PartsOk(parts)
    ensures Remainder(FormatText(parts) + s, args) == Remainder(s, ArgsLeft(parts, args)).After(AllPrinted(parts, args))
    decreases |parts|
  {
    if parts == [] {
      assert FormatText(parts) + s == s;
    } else {
      assert PartOk(parts[0]);
      var rest, behind := parts[1..], ArgsBehind(parts[0], args);
      PartRead(parts[0], FormatText(rest) + s, args);
      WholeFormat(rest, s, behind);
      AfterAfter(Remainder(s, ArgsLeft(rest, behind)), AllPrinted(rest, behind), Printed(parts[0], args));
      assert FormatText(parts) + s == PartText(parts[0]) + (FormatText(rest) + s);
      hide From, PartText, Printed, ArgsBehind, PartOk, Output.After;
    }
  }

  lemma PartHasNoNul(p: Part)
    requires PartOk(p)
    ensures '\0' !in PartText(p)
  {
    if p.Spec? {
      var w, q, m, c := NumberText(p.width), PrecisionText(p.precision), p.modifier, p.conversion;
      assert '\0' !in p.flags by { assert !IsFlag('\0'); }
      assert '\0' !in w by { NumberHasNoNul(p.width); }
      assert '\0' !in q by { if p.precision.Some? { NumberHasNoNul(p.precision.value); } }
      assert '\0' !in m + [c] by { ModifierHasNoNul(m, c); }
      hide *;
      assert '\0' !in q + (m + [c]);
      assert '\0' !in w + (q + (m + [c]));
      assert '\0' !in "%" + (p.flags + (w + (q + (m + [c]))));
    }
  }

  lemma NumberHasNoNul(n: Number)
    requires n.Digits? ==> AllDigits(n.text, 10)
    ensures '\0' !in NumberText(n)
  {
    assert DigitValue('\0') >= 10;
  }

  lemma ModifierHasNoNul(m: string, c: char)
    requires IsModifier(m) && IsConversion(c)
    ensures '\0' !in m + [c]
  {
    assert |m| <= 2;
  }

  lemma {:induction false} FormatHasNoNul(parts: seq<Part>)
    requires PartsOk(parts)
    ensures '\0' !in FormatText(parts)
    decreases |parts|
  {
    if parts != [] {
      assert PartOk(parts[0]);
      PartHasNoNul(parts[0]);
      FormatHasNoNul(parts[1..]);
      hide PartText, PartOk;
    }
  }

  /** What rpl_vsnprintf prints for a format of such parts. */
  lemma FormatMeaning(parts: seq<Part>, args: seq<Arg>)
    requires PartsOk(parts)
    ensures Formatted(FormatText(parts), args) == Output(AllPrinted(parts, args), false)
  {
    FormatHasNoNul(parts);
    WholeCString(FormatText(parts));
    WholeFormat(parts, "", args);
    assert FormatText(parts) + "" == FormatText(parts);
    hide PartsOk;
  }
}
