/**
  What the conversions of the printf engine promise for their arguments, whatever the
  flags, the width and the precision: numbers can be read back, strings are there, and
  the field is laid out as section 7.19.6.1 of ISO/IEC 9899:1999 asks for.
 */
module PrintfLaws {
  import opened Options
  import opened Printf
  import opened Sequences
  import opened Text

  // ----- Letters -----

  lemma FlagLetters(c: char)
    ensures IsFlag(c) <==> c in {'-', '+', ' ', '#', '0', '\''}
  {
  }

  /** A flag is set if and only if its letter is there. */
  lemma {:induction false} FlagsAdd(flags: Flags, f: string)
    requires AllFlags(f)
    ensures var r := WithFlags(flags, f);
      && (r.minus <==> flags.minus || '-' in f) && (r.plus <==> flags.plus || '+' in f)
      && (r.space <==> flags.space || ' ' in f) && (r.num <==> flags.num || '#' in f)
      && (r.zero <==> flags.zero || '0' in f) && r.up == flags.up && r.unsigned == flags.unsigned
    decreases |f|
  {
    if f != "" {
      FlagAdds(flags, f[0]);
      FirstOrRest(f);
      hide WithFlag;
      FlagsAdd(WithFlag(flags, f[0]), f[1..]);
    }
  }

  lemma FlagAdds(f: Flags, c: char)
    requires IsFlag(c)
    ensures WithFlag(f, c) == Flags(f.minus || c == '-', f.plus || c == '+', f.space || c == ' ', f.num || c == '#',
                                    f.zero || c == '0', f.quote || c == '\'', f.up, f.unsigned)
  {
    if
    case c == '-' =>
    case c == '+' =>
    case c == ' ' =>
    case c == '#' =>
    case c == '0' =>
    case c == '\'' =>
  }

  lemma FirstOrRest(f: string)
    requires f != ""
    ensures forall c :: c in f <==> c == f[0] || c in f[1..]
  {
    assert f == [f[0]] + f[1..];
  }

  lemma FlagsMean(f: string)
    requires AllFlags(f)
    ensures var r := WithFlags(NO_FLAGS, f);
      && (r.minus <==> '-' in f) && (r.plus <==> '+' in f) && (r.space <==> ' ' in f) && (r.num <==> '#' in f)
      && (r.zero <==> '0' in f) && !r.up && !r.unsigned
  {
    FlagsAdd(NO_FLAGS, f);
  }

  lemma ConversionLetters(c: char)
    ensures IsConversion(c) <==> c in {'d', 'i', 'x', 'X', 'o', 'u', 'c', 's', 'p', 'n', '%',
                                       'a', 'A', 'e', 'E', 'f', 'F', 'g', 'G'}
    ensures TakesArg(c) <==> IsConversion(c) && c != '%'
  {
  }

  // ----- Arguments as the types of C -----

  /** Half the number of values of the integer type that a length modifier stands for. */
  ghost function Half(m: string): nat {
    if m == "hh" then 0x80 else if m == "h" then 0x8000 else if m == "" || m == "L" then 0x8000_0000
    else 0x8000_0000_0000_0000
  }

  /** What is converted is in range, and differs from the argument by a multiple of the number of values. */
  lemma ArgumentAs(v: int, m: string) returns (j: int, k: int)
    requires IsModifier(m)
    ensures 0 - Half(m) <= AsSigned(v, Modifier(m).0) < Half(m) && v == AsSigned(v, Modifier(m).0) + j * (2 * Half(m))
    ensures 0 <= AsUnsigned(v, Modifier(m).0) < 2 * Half(m) && v == AsUnsigned(v, Modifier(m).0) + k * (2 * Half(m))
  {
    var n := 2 * Half(m);
    assert Modulus(Modifier(m).0) == n;
    k := v / n;
    j := if v % n >= n / 2 then k + 1 else k;
  }

  lemma InRange(v: int, m: string)
    requires IsModifier(m)
    ensures 0 - Half(m) <= v < Half(m) ==> AsSigned(v, Modifier(m).0) == v
    ensures 0 <= v < 2 * Half(m) ==> AsUnsigned(v, Modifier(m).0) == v
  {
    assert Modulus(Modifier(m).0) == 2 * Half(m);
    if 0 - Half(m) <= v < 0 {
      assert v % (2 * Half(m)) == v + 2 * Half(m);
    }
  }

  // ----- Strings -----

  /**
    A string conversion prints the C string, or its first characters if there is a
    precision, with spaces on one side to make up the width.
   */
  lemma StrShape(value: Option<string>, width: nat, precision: int, flags: Flags)
    returns (lead: nat, text: string, trail: nat)
    requires precision >= -1
    ensures StrText(value, width, precision, flags) == Repeat(lead, ' ') + text + Repeat(trail, ' ')
    ensures text <= if value.Some? then CString(value.value) else "(null)"
    ensures var n := if value.Some? then |CString(value.value)| else 6;
      |text| == if precision == -1 then n else Min(precision, n)
    ensures (if flags.minus then lead == 0 else trail == 0) && lead + |text| + trail == Max(width, |text|)
  {
    text := Cut(if value.Some? then CString(value.value) else "(null)", precision);
    var fill := if |text| < width then width - |text| else 0;
    lead, trail := if flags.minus then 0 else fill, if flags.minus then fill else 0;
    hide CString;
    assert Repeat(0, ' ') == "";
  }

  // ----- Integers -----

  lemma {:induction false} NoLeadingZero(n: nat, base: nat)
    requires 2 <= base <= 16
    ensures n > 0 ==> Numeral(n, base)[0] != '0'
  {
    if n >= base {
      var q, r := LastDigit(n, base);
      NoLeadingZero(q, base);
    }
  }

  /** A letter among the digits is a capital one, or is not. */
  ghost predicate InCase(s: string, up: bool) {
    forall c | c in s :: if up then !('a' <= c <= 'z') else !('A' <= c <= 'Z')
  }

  lemma {:induction false} SmallLetters(n: nat, base: nat)
    requires 2 <= base <= 16
    ensures InCase(Numeral(n, base), false)
  {
    if n >= base {
      var q, r := LastDigit(n, base);
      SmallLetters(q, base);
    }
  }

  lemma InItsCase(s: string, up: bool)
    requires InCase(s, false)
    ensures InCase(Cased(s, up), up)
  {
    forall c | c in Cased(s, up)
      ensures if up then !('a' <= c <= 'z') else !('A' <= c <= 'Z')
    {
      var i :| 0 <= i < |s| && Cased(s, up)[i] == c;
      assert s[i] in s;
    }
  }

  /** The digits of a number: nothing superfluous, in the right case. */
  ghost predicate IsNumeral(digits: string, u: nat, base: nat, up: bool) {
    && digits != "" && AllDigits(digits, base) && Value(digits, base) == u && InCase(digits, up)
    && (|digits| > 1 ==> digits[0] != '0')
  }

  lemma CasedNumeral(u: nat, base: nat, up: bool)
    requires base in {8, 10, 16}
    ensures IsNumeral(Cased(Numeral(u, base), up), u, base, up)
  {
    NumeralReadsBack(u, base);
    CaseDoesNotCount(Numeral(u, base), up, base);
    SmallLetters(u, base);
    InItsCase(Numeral(u, base), up);
    NoLeadingZero(u, base);
    assert u == 0 ==> |Numeral(u, base)| == 1;
    hide Value, AllDigits, InCase;
  }

  /** How many digits have to be there, if the number itself has `own`; the alternative octal form has a zero more. */
  ghost function Least(own: nat, u: nat, base: nat, precision: int, alternative: bool): nat {
    if alternative && base == 8 && u != 0 && precision <= own then own + 1 else Max(own, precision)
  }

  /**
    What an integer conversion prints: spaces, the sign, the prefix of the alternative
    form, zeros, the digits of the number, spaces. Zeros fill the field only if there is
    neither a precision nor a '-' flag.
   */
  lemma IntShape(value: int, base: nat, width: nat, precision: int, flags: Flags)
    returns (lead: nat, sign: string, prefix: string, zeros: nat, digits: string, trail: nat)
    requires base in {8, 10, 16} && precision >= -1 && (flags.unsigned ==> value >= 0)
    ensures IntText(value, base, width, precision, flags)
         == Repeat(lead, ' ') + sign + prefix + Repeat(zeros, '0') + digits + Repeat(trail, ' ')
    ensures sign == if flags.unsigned then "" else if value < 0 then "-" else if flags.plus then "+"
                    else if flags.space then " " else ""
    ensures prefix == if flags.num && value != 0 && base == 16 then if flags.up then "0X" else "0x" else ""
    ensures IsNumeral(digits, if value < 0 then -value else value, base, flags.up)
    ensures if flags.minus then lead == 0 else trail == 0
    ensures
      var least := Least(|digits|, if value < 0 then -value else value, base, precision, flags.num);
      && lead + |sign| + |prefix| + zeros + |digits| + trail == Max(width, |sign| + |prefix| + least)
      && if flags.zero && !flags.minus && precision == -1 then lead == 0 else zeros + |digits| == least
  {
    var u := Magnitude(value, flags);
    CasedNumeral(u, base, flags.up);
    ShapeOfHead(value, base, flags);
    sign, prefix, digits := Sign(value, flags), Prefix(u, base, flags), Cased(Numeral(u, base), flags.up);
    var p := MinDigits(u, base, precision, flags);
    var fills := flags.zero && !flags.minus && precision == -1;
    assert IntText(value, base, width, precision, flags) == Layout(sign, prefix, digits, p, width, fills, flags.minus);
    assert p == if flags.num && u != 0 && base == 8 && precision <= |digits| then |digits| + 1 else precision;
    assert Repeat(0, ' ') == "";
    hide *;
    var spaces;
    lead, zeros, trail, spaces :=
      Fill(p, |digits|, u, base, precision, flags.num, |sign|, |prefix|, width, fills, flags.minus);
    LayoutPieces(sign, prefix, digits, p, width, fills, flags.minus, zeros, spaces);
    SpacesOnOneSide(sign, prefix, zeros, digits, spaces, flags.minus, lead, trail);
  }

  lemma SpacesOnOneSide(sign: string, prefix: string, zeros: nat, digits: string, spaces: nat, left: bool, lead: nat,
                        trail: nat)
    requires lead == (if left then 0 else spaces) && trail == if left then spaces else 0
    ensures Pieces(sign, prefix, zeros, digits, spaces, left)
         == Repeat(lead, ' ') + sign + prefix + Repeat(zeros, '0') + digits + Repeat(trail, ' ')
  {
    assert Repeat(0, ' ') == "";
  }

  lemma Fill(p: int, own: nat, u: nat, base: nat, precision: int, num: bool, sign: nat, prefix: nat, width: nat,
             fills: bool, left: bool)
    returns (lead: nat, zeros: nat, trail: nat, spaces: nat)
    requires p == if num && u != 0 && base == 8 && precision <= own then own + 1 else precision
    requires precision >= -1 && (fills ==> precision == -1 && !left)
    ensures
      var more := if p > own then p - own else 0;
      var rest := width - (if p >= own then p else own) - sign - prefix;
      var fill := if rest > 0 then rest else 0;
      if fills then zeros == more + fill && spaces == 0 else zeros == more && spaces == fill
    ensures lead == (if left then 0 else spaces) && trail == if left then spaces else 0
    ensures
      var least := Least(own, u, base, precision, num);
      && lead + sign + prefix + zeros + own + trail == Max(width, sign + prefix + least)
      && (fills ==> lead == 0) && (!fills ==> zeros + own == least)
  {
    var more := if p > own then p - own else 0;
    var rest := width - (if p >= own then p else own) - sign - prefix;
    var fill := if rest > 0 then rest else 0;
    spaces, zeros := if fills then 0 else fill, if fills then more + fill else more;
    lead, trail := if left then 0 else spaces, if left then spaces else 0;
  }

  lemma ShapeOfHead(value: int, base: nat, flags: Flags)
    requires flags.unsigned ==> value >= 0
    ensures Sign(value, flags) == if flags.unsigned then "" else if value < 0 then "-" else if flags.plus then "+"
                                  else if flags.space then " " else ""
    ensures Prefix(Magnitude(value, flags), base, flags)
         == if flags.num && value != 0 && base == 16 then if flags.up then "0X" else "0x" else ""
    ensures Magnitude(value, flags) == if value < 0 then -value else value
  {
  }

  // ----- Directives -----

  /** The width and the precision take an argument each if they are asterisks, and so does the conversion. */
  lemma ArgumentsUsed(p: Part, args: seq<Arg>)
    requires p.Spec?
    ensures
      var stars := (if p.width.Star? then 1 else 0) + if p.precision == Some(Star) then 1 else 0;
      && (|args| >= stars ==> Values(p, args) == args[stars..])
      && (|args| > stars ==> ArgsBehind(p, args) == if p.conversion == '%' || !IsConversion(p.conversion)
                                                    then args[stars..] else args[stars + 1..])
      && (p.width.Star? && args != [] && args[0].Int? ==> NumberOf(p.width, args) == args[0].v)
  {
    ConversionLetters(p.conversion);
    assert args[0..] == args;
    assert |args| >= 2 ==> args[1..][1..] == args[2..];
    assert |args| >= 3 ==> args[2..][1..] == args[3..];
  }

  /** The flags of a directive; a negative width is a '-' flag. */
  ghost function FlagsFor(p: Part, args: seq<Arg>): Flags
    requires p.Spec?
  {
    FlagsOf(WithFlags(NO_FLAGS, p.flags), NumberOf(p.width, args))
  }

  ghost function WidthFor(p: Part, args: seq<Arg>): nat
    requires p.Spec?
  {
    var width := NumberOf(p.width, args);
    if width < 0 then -width else width
  }

  ghost function PrecisionFor(p: Part, args: seq<Arg>): (precision: int)
    requires p.Spec?
    ensures precision >= -1
  {
    PrecisionOf(p.precision, ArgsAfter(p.width, args))
  }

  lemma FlagsForMean(p: Part, args: seq<Arg>)
    requires p.Spec? && PartOk(p)
    ensures var f := FlagsFor(p, args);
      && (f.minus <==> '-' in p.flags || NumberOf(p.width, args) < 0) && (f.plus <==> '+' in p.flags)
      && (f.space <==> ' ' in p.flags) && (f.num <==> '#' in p.flags) && (f.zero <==> '0' in p.flags)
      && !f.up && !f.unsigned
  {
    FlagsMean(p.flags);
    hide WithFlags;
  }

  /** d and i: a number that the type has room for is printed, and can be read back. */
  lemma SignedPrinted(p: Part, args: seq<Arg>, v: int)
    requires p.Spec? && PartOk(p) && p.conversion in {'d', 'i'}
    requires Values(p, args) != [] && Values(p, args)[0] == Int(v) && 0 - Half(p.modifier) <= v < Half(p.modifier)
    ensures Printed(p, args) == IntText(v, 10, WidthFor(p, args), PrecisionFor(p, args),
                                        FlagsFor(p, args).(unsigned := false))
    ensures Strtol(Printed(p, args), 10) == v
  {
    InRange(v, p.modifier);
    FlagsForMean(p, args);
    var flags := FlagsFor(p, args);
    assert flags.(unsigned := false) == flags;
    hide IntText, Values, Modifier, AsSigned, WithFlags, Strtol;
    IntReadsBack(v, 10, WidthFor(p, args), PrecisionFor(p, args), flags);
  }

  /** The base that a conversion of an unsigned number stands for. */
  ghost function Base(c: char): nat {
    if c == 'o' then 8 else if c == 'u' then 10 else 16
  }

  /** u, o, x and X */
  lemma UnsignedPrinted(p: Part, args: seq<Arg>, v: int)
    requires p.Spec? && PartOk(p) && p.conversion in {'u', 'o', 'x', 'X'}
    requires Values(p, args) != [] && Values(p, args)[0] == Int(v) && 0 <= v < 2 * Half(p.modifier)
    ensures Printed(p, args) == IntText(v, Base(p.conversion), WidthFor(p, args), PrecisionFor(p, args),
                                        FlagsFor(p, args).(unsigned := true, up := p.conversion == 'X'))
    ensures Strtol(Printed(p, args), Base(p.conversion)) == v
  {
    InRange(v, p.modifier);
    var flags := FlagsFor(p, args).(unsigned := true, up := p.conversion == 'X');
    hide IntText, Values, Modifier, AsUnsigned, WithFlags, Strtol;
    IntReadsBack(v, Base(p.conversion), WidthFor(p, args), PrecisionFor(p, args), flags);
  }

  /** s, c, p, n and the percent sign */
  lemma OthersPrinted(p: Part, args: seq<Arg>)
    requires p.Spec? && PartOk(p) && Values(p, args) != []
    ensures var arg, text := Values(p, args)[0], Printed(p, args);
      && (p.conversion == 's' && arg.Str? ==>
            text == StrText(arg.s, WidthFor(p, args), PrecisionFor(p, args), FlagsFor(p, args)))
      && (p.conversion == 'c' && arg.Int? && 0 <= arg.v < 0x100 ==> text == [arg.v as char])
      && (p.conversion == 'p' && arg == Int(0) ==>
            text == StrText(Some("(nil)"), WidthFor(p, args), -1, FlagsFor(p, args)))
      && (p.conversion == 'n' ==> text == "") && (p.conversion == '%' ==> text == "%")
      && (p.conversion in {'a', 'A', 'e', 'E', 'f', 'F', 'g', 'G'} && arg.Flt? ==> text == arg.text)
  {
    hide IntText, StrText, Values, Modifier, AsSigned, AsUnsigned, WithFlags;
  }

  lemma PointerPrinted(p: Part, args: seq<Arg>, v: int)
    requires p.Spec? && PartOk(p) && p.conversion == 'p'
    requires Values(p, args) != [] && Values(p, args)[0] == Int(v) && 0 < v < 0x1_0000_0000_0000_0000
    ensures Strtol(Printed(p, args), 16) == v
    ensures Printed(p, args) == IntText(v, 16, WidthFor(p, args), PrecisionFor(p, args),
                                        FlagsFor(p, args).(num := true, unsigned := true, up := false))
  {
    var flags := FlagsFor(p, args).(num := true, unsigned := true, up := false);
    assert v % WORD == v;
    hide IntText, Values, WithFlags, Strtol, Modifier;
    IntReadsBack(v, 16, WidthFor(p, args), PrecisionFor(p, args), flags);
  }

  // ----- Widths and precisions that are too big -----

  lemma TooBigMeans(w: string, k: nat)
    requires AllDigits(w, 10) && k < |w|
    ensures IsDecimal(w[k]) && Times10(Value(w[..k], 10), w[k]) == Value(w[..k + 1], 10)
    ensures TooBig(Value(w[..k], 10), w[k]) <==> Value(w[..k + 1], 10) > INT_MAX
  {
    assert DigitValue(w[k]) < 10;
    assert w[..k + 1][..k] == w[..k];
  }

  lemma {:induction false} WidthTooBig(w: string, k: nat, s: string, args: seq<Arg>, flags: Flags)
    requires AllDigits(w, 10) && k < |w| && Value(w[..k], 10) <= INT_MAX < Value(w, 10)
    ensures From(S_WIDTH, w[k..] + s, args, flags, Value(w[..k], 10), -1, NoMod).overflow
    decreases |w| - k
  {
    assert w[..|w|] == w;
    TooBigMeans(w, k);
    Shift(w, k, s);
    hide Value, TooBig, Times10;
    if !TooBig(Value(w[..k], 10), w[k]) {
      WidthTooBig(w, k + 1, s, args, flags);
    }
  }

  lemma {:induction false} PrecisionTooBig(p: string, k: nat, s: string, args: seq<Arg>, flags: Flags, width: nat)
    requires AllDigits(p, 10) && k < |p| && Value(p[..k], 10) <= INT_MAX < Value(p, 10)
    ensures From(S_PRECISION, p[k..] + s, args, flags, width, Value(p[..k], 10), NoMod).overflow
    decreases |p| - k
  {
    assert p[..|p|] == p;
    TooBigMeans(p, k);
    Shift(p, k, s);
    hide Value, TooBig, Times10;
    if !TooBig(Value(p[..k], 10), p[k]) {
      PrecisionTooBig(p, k + 1, s, args, flags, width);
    }
  }

  /** A directive with a width that no int can hold ends the output. */
  lemma TooWide(f: string, w: string, s: string, args: seq<Arg>)
    requires AllFlags(f) && AllDigits(w, 10) && w != "" && w[0] != '0' && Value(w, 10) > INT_MAX
    ensures Remainder("%" + (f + (w + s)), args).overflow
  {
    assert ("%" + (f + (w + s)))[1..] == f + (w + s);
    FlagsRead(f, w + s, args, NO_FLAGS);
    assert DigitValue(w[0]) < 10 && (w + s)[0] == w[0];
    assert w[0..] == w && Value(w[..0], 10) == 0;
    WidthTooBig(w, 0, s, args, WithFlags(NO_FLAGS, f));
    hide Value;
  }

  /** So does one with such a precision. */
  lemma TooPrecise(f: string, w: Number, p: string, s: string, args: seq<Arg>)
    requires AllFlags(f) && WidthOk(w) && AllDigits(p, 10) && Value(p, 10) > INT_MAX
    ensures Remainder("%" + (f + (NumberText(w) + ("." + p + s))), args).overflow
  {
    var t := "." + p + s;
    var width, left := NumberOf(w, args), ArgsAfter(w, args);
    var flags := FlagsOf(WithFlags(NO_FLAGS, f), width);
    assert ("%" + (f + (NumberText(w) + t)))[1..] == f + (NumberText(w) + t);
    FlagsRead(f, NumberText(w) + t, args, NO_FLAGS);
    AfterFlags(w, t, args, WithFlags(NO_FLAGS, f));
    PointFirst(p, s, left, flags, Absolute(width));
    hide Value, WithFlags, NumberText;
  }

  lemma PointFirst(p: string, s: string, args: seq<Arg>, flags: Flags, width: nat)
    requires AllDigits(p, 10) && Value(p, 10) > INT_MAX
    ensures From(S_DOT, "." + p + s, args, flags, width, -1, NoMod).overflow
  {
    var t := p + s;
    assert ("." + p + s)[1..] == t && ("." + p + s)[0] == '.';
    PrecisionStart(t, args, flags, width);
    assert p[0..] == p && Value(p[..0], 10) == 0;
    PrecisionTooBig(p, 0, s, args, flags, width);
    hide Value;
  }

  /** Whatever comes before and after, the whole output is then an error. */
  lemma TooBigIsAnError(parts: seq<Part>, f: string, w: string, s: string, args: seq<Arg>)
    requires PartsOk(parts) && AllFlags(f) && AllDigits(w, 10) && w != "" && w[0] != '0' && Value(w, 10) > INT_MAX
    requires '\0' !in FormatText(parts) + ("%" + (f + (w + s)))
    ensures Formatted(FormatText(parts) + ("%" + (f + (w + s))), args).overflow
  {
    var t := "%" + (f + (w + s));
    WholeCString(FormatText(parts) + t);
    WholeFormat(parts, t, args);
    TooWide(f, w, s, ArgsLeft(parts, args));
    hide From, Value, PartsOk;
  }

  /** A format that is one plain directive. */
  ghost function Plain(m: string, c: char): Part {
    Spec("", Digits(""), None, m, c)
  }

  lemma PlainText(m: string, c: char, args: seq<Arg>)
    requires IsModifier(m) && IsConversion(c)
    ensures PartOk(Plain(m, c)) && Values(Plain(m, c), args) == args && PartText(Plain(m, c)) == "%" + m + [c]
  {
    hide IsModifier, IsConversion;
    assert Value("", 10) == 0;
  }

  lemma OnePart(p: Part, args: seq<Arg>)
    requires PartOk(p)
    ensures Formatted(PartText(p), args) == Output(Printed(p, args), false)
  {
    hide PartText, Printed, From, PartOk, Formatted, ArgsBehind;
    assert [p][1..] == [];
    assert FormatText([p]) == PartText(p) + "" == PartText(p);
    assert AllPrinted([p], args) == Printed(p, args) + "" == Printed(p, args);
    FormatMeaning([p], args);
  }

  lemma OneDirective(m: string, c: char, args: seq<Arg>)
    requires IsModifier(m) && IsConversion(c)
    ensures PartOk(Plain(m, c)) && Values(Plain(m, c), args) == args
    ensures Formatted("%" + m + [c], args) == Output(Printed(Plain(m, c), args), false)
  {
    PlainText(m, c, args);
    hide *;
    OnePart(Plain(m, c), args);
  }

  /** What snprintf() makes of a number with a plain directive, for every length modifier and specifier. */
  lemma NumbersPrinted(m: string, c: char, v: int)
    requires IsModifier(m)
    ensures c in {'d', 'i'} && 0 - Half(m) <= v < Half(m) ==>
      var r := Formatted("%" + m + [c], [Int(v)]); !r.overflow && Strtol(r.text, 10) == v
    ensures c in {'u', 'o', 'x', 'X'} && 0 <= v < 2 * Half(m) ==>
      var r := Formatted("%" + m + [c], [Int(v)]); !r.overflow && Strtol(r.text, Base(c)) == v
  {
    ConversionLetters(c);
    if c in {'d', 'i', 'u', 'o', 'x', 'X'} { OneDirective(m, c, [Int(v)]); }
    hide Formatted, Printed, Strtol, Half, IsConversion, PartOk, Values, Base;
    var p := Plain(m, c);
    if c in {'d', 'i'} && 0 - Half(m) <= v < Half(m) { SignedPrinted(p, [Int(v)], v); }
    if c in {'u', 'o', 'x', 'X'} && 0 <= v < 2 * Half(m) { UnsignedPrinted(p, [Int(v)], v); }
  }
}
