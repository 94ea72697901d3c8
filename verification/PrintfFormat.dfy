/**
 What a whole format prints (src/printf.c, _vsnprintf): the directives, their arguments, and
 the text of a format without any bound on its length.
 */
module PrintfFormat {
  import opened CInts
  import opened Numerals
  import opened PrintfModel

  datatype Arg = Int(v: int) | Str(s: string)

  /** A directive read up to its conversion character, with what is left of arguments and format. */
  datatype Parsed = Bad | Good(flags: Flags, width: int, precision: int, args: seq<Arg>, rest: string)

  // ---- Reading a directive --------------------------------------------------------------------

  predicate IsDigit(c: char) { '0' <= c <= '9' }

  function ParseFlags(p: string, f: Flags): (r: (Flags, string))
    ensures |r.1| <= |p|
  {
    if p == "" then (f, p)
    else if p[0] == '0' then ParseFlags(p[1..], f.(zeropad := true))
    else if p[0] == '-' then ParseFlags(p[1..], f.(left := true))
    else if p[0] == '+' then ParseFlags(p[1..], f.(plus := true))
    else if p[0] == ' ' then ParseFlags(p[1..], f.(space := true))
    else if p[0] == '#' then ParseFlags(p[1..], f.(hash := true))
    else (f, p)
  }

  /** _atoi: an unsigned int that wraps around. */
  function ParseNumber(p: string, i: int): (r: (int, string))
    requires 0 <= i < U32
    ensures 0 <= r.0 < U32 && |r.1| <= |p|
  {
    if p != "" && IsDigit(p[0]) then ParseNumber(p[1..], (i * 10 + (p[0] as int - '0' as int)) % U32) else (i, p)
  }

  /** What a number i becomes when these digits are appended to it, as an unsigned int. */
  function Continued(i: int, digits: string): (n: int) {
    (i * Power(10, |digits|) + Value(digits, 10)) % U32
  }

  /** A decimal numeral is read as its value modulo 2^32, up to the first character that is no digit. */
  lemma NumeralIsRead(digits: string, rest: string)
    requires IsNumeral(digits) && (rest == "" || !IsDigit(rest[0]))
    ensures ParseNumber(digits + rest, 0) == (Value(digits, 10) % U32, rest)
  {
    ParseContinues(digits, rest, 0);
  }

  lemma {:induction false} ParseContinues(digits: string, rest: string, i: int)
    requires 0 <= i < U32 && IsNumeral(digits) && (rest == "" || !IsDigit(rest[0]))
    ensures ParseNumber(digits + rest, i) == (Continued(i, digits), rest)
    decreases |digits|
  {
    hide Continued;
    if digits == "" {
      assert digits + rest == rest;
      ContinuedByNothing(i);
    } else {
      assert (digits + rest)[1..] == digits[1..] + rest;
      ContinuedByOne(i, digits);
      ParseContinues(digits[1..], rest, (i * 10 + (digits[0] as int - '0' as int)) % U32);
    }
  }

  lemma ContinuedByNothing(i: int)
    requires 0 <= i < U32
    ensures Continued(i, "") == i
  {
    EmptyNumeral(10);
    assert i * Power(10, 0) == i;
  }

  lemma ContinuedByOne(i: int, digits: string)
    requires IsNumeral(digits) && digits != ""
    ensures Continued(i, digits) == Continued((i * 10 + (digits[0] as int - '0' as int)) % U32, digits[1..])
  {
    hide Power, Value;
    LeadingDigit(digits);
    ShiftIn(i, digits[0] as int - '0' as int, Power(10, |digits| - 1), Value(digits[1..], 10));
    PowerStep(10, |digits|);
  }

  /** Wrapping around after each digit is the same as wrapping around once. */
  lemma ShiftIn(i: int, d: int, p: int, v: int)
    ensures ((i * 10 + d) % U32 * p + v) % U32 == (i * (10 * p) + (d * p + v)) % U32
  {
    WrapEarly(i * 10 + d, p, v);
    assert (i * 10 + d) * p + v == i * (10 * p) + (d * p + v);
  }

  lemma LeadingDigit(digits: string)
    requires IsNumeral(digits) && digits != ""
    ensures Value(digits, 10) == (digits[0] as int - '0' as int) * Power(10, |digits| - 1) + Value(digits[1..], 10)
  {
    hide Value, Power;
    EmptyNumeral(10);
    SplitValue(digits, 1, 10);
    ValueSnoc("", digits[0], 10);
    assert digits[..1] == "" + [digits[0]];
  }

  lemma WrapEarly(a: int, p: int, v: int)
    ensures (a % U32 * p + v) % U32 == (a * p + v) % U32
  {
    var q := a / U32;
    assert a == q * U32 + a % U32;
    assert a * p + v == (a % U32 * p + v) + U32 * (q * p);
    MultiplesVanish(a % U32 * p + v, q * p);
  }

  lemma MultiplesVanish(x: int, k: int)
    ensures (x + U32 * k) % U32 == x % U32
  {
  }

  function ParseWidth(p: string, f: Flags, args: seq<Arg>): (r: Parsed)
    ensures r.Good? ==> 0 <= r.width < U32 && |r.rest| <= |p|
  {
    if p != "" && IsDigit(p[0]) then
      var (w, rest) := ParseNumber(p, 0);
      Good(f, w, 0, args, rest)
    else if p != "" && p[0] == '*' then
      if args == [] || args[0].Str? then Bad
      else
        var w := I32(args[0].v);
        if w < 0 then Good(f.(left := true), -w, 0, args[1..], p[1..]) else Good(f, w, 0, args[1..], p[1..])
    else Good(f, 0, 0, args, p)
  }

  function ParsePrecision(g: Parsed): (r: Parsed)
    requires g.Good?
    ensures r.Good? ==> r.width == g.width && 0 <= r.precision && |r.rest| <= |g.rest|
  {
    if g.rest == "" || g.rest[0] != '.' then g.(precision := 0)
    else
      var f, p := g.flags.(precision := true), g.rest[1..];
      if p != "" && IsDigit(p[0]) then
        var (n, rest) := ParseNumber(p, 0);
        Good(f, g.width, n, g.args, rest)
      else if p != "" && p[0] == '*' then
        if g.args == [] || g.args[0].Str? then Bad
        else
          var n := I32(g.args[0].v);
          Good(f, g.width, if n > 0 then n else 0, g.args[1..], p[1..])
      else Good(f, g.width, 0, g.args, p)
  }

  function ParseLength(p: string): (r: (Size, string))
    ensures |r.1| <= |p|
  {
    if p == "" then (Plain, p)
    else if p[0] == 'l' then
      if |p| > 1 && p[1] == 'l' then (LongLong, p[2..]) else (Long, p[1..])
    else if p[0] == 'h' then
      if |p| > 1 && p[1] == 'h' then (Char8, p[2..]) else (Short, p[1..])
    else if p[0] in {'t', 'j', 'z'} then (Long, p[1..])
    else (Plain, p)
  }

  /** Everything between '%' and the conversion character. */
  function ParseDirective(p: string, args: seq<Arg>): (r: Parsed)
    ensures r.Good? ==> 0 <= r.width && 0 <= r.precision && |r.rest| <= |p|
  {
    var (f, p1) := ParseFlags(p, NO_FLAGS);
    var g := ParseWidth(p1, f, args);
    if g.Bad? then Bad
    else
      var h := ParsePrecision(g);
      if h.Bad? then Bad
      else
        var (size, p2) := ParseLength(h.rest);
        h.(flags := h.flags.(size := size), rest := p2)
  }

  // ---- Converting an argument ----------------------------------------------------------------------

  predicate IsInteger(c: char) { c in {'d', 'i', 'u', 'x', 'X', 'o', 'b'} }

  predicate IsSigned(c: char) { c == 'd' || c == 'i' }

  function Base(c: char): (b: int)
    ensures 2 <= b <= 36
  {
    if c == 'x' || c == 'X' then 16 else if c == 'o' then 8 else if c == 'b' then 2 else 10
  }

  /** Flags that do not apply to a conversion are dropped. */
  function IntegerFlags(c: char, f: Flags): (r: Flags) {
    f.(hash := f.hash && Base(c) != 10, uppercase := f.uppercase || c == 'X',
       plus := f.plus && IsSigned(c), space := f.space && IsSigned(c), zeropad := f.zeropad && !f.precision)
  }

  /** The C conversions of the argument; plain char is unsigned on this processor. */
  function SignedArg(v: int, f: Flags): (r: int) {
    match f.size
    case Char8 => v % 0x100
    case Short => (v + 0x8000) % 0x1_0000 - 0x8000
    case Plain => I32(v)
    case _ => (v + U64 / 2) % U64 - U64 / 2
  }

  function UnsignedArg(v: int, f: Flags): (r: nat) {
    match f.size
    case Char8 => v % 0x100
    case Short => v % 0x1_0000
    case Plain => v % U32
    case _ => v % U64
  }

  function IntegerText(c: char, v: int, f: Flags, width: int, precision: int): (s: string) {
    var f' := IntegerFlags(c, f);
    if IsSigned(c) then
      var n := SignedArg(v, f);
      NumberText(if n > 0 then n else -n, n < 0, Base(c), precision, width, f')
    else NumberText(UnsignedArg(v, f), false, Base(c), precision, width, f')
  }

  function InField(s: string, width: int, f: Flags): (r: string) {
    (if f.left then "" else Repeat(' ', width - |s|)) + s + (if f.left then Repeat(' ', width - |s|) else "")
  }

  function CharText(v: int, f: Flags, width: int): (s: string) {
    InField([(v % 0x100) as char], width, f)
  }

  function StringText(s: string, f: Flags, width: int, precision: nat): (r: string) {
    InField(if f.precision && precision < |s| then s[..precision] else s, width, f)
  }

  function PointerFlags(f: Flags): (r: Flags) { f.(zeropad := true, uppercase := true) }

  const POINTER_WIDTH: int := 16

  /** The arguments a conversion takes are there and of its kind. */
  predicate ArgsFit(c: char, f: Flags, args: seq<Arg>) {
    if IsInteger(c) then f.size == LongLong || (args != [] && args[0].Int?)
    else if c == 'c' || c == 'p' then args != [] && args[0].Int?
    else if c == 's' then args != [] && args[0].Str? && forall i :: 0 <= i < |args[0].s| ==> args[0].s[i] != NUL
    else true
  }

  predicate TakesArg(c: char, f: Flags) {
    (IsInteger(c) && f.size != LongLong) || c in {'c', 's', 'p'}
  }

  function Conversion(g: Parsed): (s: string)
    requires g.Good? && g.rest != "" && ArgsFit(g.rest[0], g.flags, g.args) && 0 <= g.precision
  {
    var c := g.rest[0];
    if IsInteger(c) then
      if g.flags.size == LongLong then "" else IntegerText(c, g.args[0].v, g.flags, g.width, g.precision)
    else if c == 'c' then CharText(g.args[0].v, g.flags, g.width)
    else if c == 's' then StringText(g.args[0].s, g.flags, g.width, g.precision)
    else if c == 'p' then NumberText(g.args[0].v % U64, false, 16, g.precision, POINTER_WIDTH, PointerFlags(g.flags))
    else [c]
  }

  // ---- Whole formats ----------------------------------------------------------------------------------

  /** Every '%' begins a complete directive whose arguments are there. */
  predicate Supported(format: string, args: seq<Arg>)
    decreases |format|
  {
    if format == "" then true
    else if format[0] != '%' then Supported(format[1..], args)
    else
      var g := ParseDirective(format[1..], args);
      && g.Good? && g.rest != "" && ArgsFit(g.rest[0], g.flags, g.args)
      && Supported(g.rest[1..], if TakesArg(g.rest[0], g.flags) then g.args[1..] else g.args)
  }

  /** The text a format prints. */
  function Render(format: string, args: seq<Arg>): (s: string)
    requires Supported(format, args)
    decreases |format|
  {
    if format == "" then ""
    else if format[0] != '%' then [format[0]] + Render(format[1..], args)
    else
      var g := ParseDirective(format[1..], args);
      Conversion(g) + Render(g.rest[1..], if TakesArg(g.rest[0], g.flags) then g.args[1..] else g.args)
  }

  /** Text without '%' prints as it is, and the directives of two formats do not interfere. */
  lemma {:induction false} RenderLiteral(text: string, format: string, args: seq<Arg>)
    requires '%' !in text && Supported(format, args)
    ensures Supported(text + format, args) && Render(text + format, args) == text + Render(format, args)
  {
    if text == "" {
      assert text + format == format;
    } else {
      RenderLiteral(text[1..], format, args);
      assert (text + format)[1..] == text[1..] + format;
    }
  }

  // ---- Bounded buffers -----------------------------------------------------------------------------------

  /** The first n characters of the text laid over a buffer. */
  function Overlay(was: seq<char>, text: string, n: nat): (r: seq<char>)
    requires n <= |was|
    ensures |r| == |was|
  {
    var k := if |text| < n then |text| else n;
    text[..k] + was[k..]
  }

  /** What section 7.21.6.5 of ISO/IEC 9899:2011 asks of snprintf: a prefix that fits, a terminator, nothing else. */
  function Truncated(was: seq<char>, text: string, n: nat): (r: seq<char>)
    requires n <= |was|
  {
    if n == 0 then was
    else
      var k := if |text| < n then |text| else n - 1;
      text[..k] + [NUL] + was[k + 1..]
  }

  lemma OverlayNext(was: seq<char>, text: string, n: nat, c: char)
    requires n <= |was|
    ensures Overlay(was, text + [c], n) ==
            if |text| < n then Overlay(was, text, n)[|text| := c] else Overlay(was, text, n)
  {
  }

  lemma TerminatedOverlay(was: seq<char>, text: string, n: nat)
    requires 0 < n <= |was|
    ensures Overlay(was, text, n)[(if |text| < n then |text| else n - 1) := NUL] == Truncated(was, text, n)
  {
  }

  // ---- A minus sign that is lost -----------------------------------------------------------------------------

  /**
   A zero-padded field wider than 32 leaves no room for the sign: -5 is printed as 32 digits without it,
   one character less than the field has.
   */
  lemma MinusIsLost()
    ensures Supported("%033d", [Int(-5)])
    ensures '-' !in Render("%033d", [Int(-5)]) && |Render("%033d", [Int(-5)])| == 32
  {
    hide NumberText, SignFits, PrintedDigits;
    var f := NO_FLAGS.(zeropad := true);
    var g := ZeroPaddedField();
    assert Render("%033d", [Int(-5)]) == Conversion(g) + "";
    assert IntegerFlags('d', f) == f;
    assert Conversion(g) == NumberText(5, true, 10, 0, 33, f);
    MinusShown(5, true, 10, 0, 33, f);
    FieldIsFilled(5, true, 10, 0, 33, f);
    assert !SignFits(5, 10, 0, 33, f) by { NoRoom(f); }
  }

  lemma NoRoom(f: Flags)
    requires f.zeropad && !f.left
    ensures !SignFits(5, 10, 0, 33, f)
  {
  }

  lemma ZeroPaddedField() returns (g: Parsed)
    ensures g == ParseDirective("033d", [Int(-5)])
    ensures g == Good(NO_FLAGS.(zeropad := true), 33, 0, [Int(-5)], "d")
    ensures "%033d"[1..] == "033d" && "d"[1..] == ""
  {
    var f := NO_FLAGS.(zeropad := true);
    assert ParseFlags("033d", NO_FLAGS) == (f, "33d") by { assert "033d"[1..] == "33d"; }
    assert ParseNumber("33d", 0) == (33, "d") by {
      assert "33d"[1..] == "3d" && "3d"[1..] == "d";
      assert ParseNumber("3d", 3) == ParseNumber("d", 33);
    }
    g := Good(f, 33, 0, [Int(-5)], "d");
  }
}
