/**
 Three ways to write a decimal number agree: the printer's %d and %u (src/printf.c) and the
 conversions of src/utilities.c; so the parsers there read back what printf printed.
 */
module PrintfRoundTrip {
  import opened CInts
  import opened Numerals
  import opened PrintfModel
  import opened PrintfFormat
  import opened Conversions

  /** Decimal digits do not depend on the letters chosen for larger ones. */
  lemma {:induction false} DecimalHasNoLetters(n: nat)
    ensures LowFirst(n, 10, 'a') == LowFirst(n, 10, 'A')
  {
    if n == 0 {
    } else {
      DecimalHasNoLetters(n / 10);
    }
  }

  /** A number of at most 32 digits, without flags, width or precision, is its sign and its numeral. */
  lemma PlainDecimal(n: nat, negative: bool)
    requires |LowFirst(n, 10, 'A')| <= NTOA_BUFFER
    requires negative ==> n > 0 && |LowFirst(n, 10, 'A')| < NTOA_BUFFER
    ensures NumberText(n, negative, 10, 0, 0, NO_FLAGS) == (if negative then "-" else "") + Numeral(n, 10, 'A')
  {
    hide LowFirst, NumberText, Aligned, Reversed, Repeat, Body;
    DecimalHasNoLetters(n);
    var b := StoredDigits(n, 10, NO_FLAGS);
    NoPadding(b, negative);
    PlainNumberText(n, negative, 10, 0, 0, NO_FLAGS, b);
    var sign := if |b| < NTOA_BUFFER then Sign(negative, NO_FLAGS) else "";
    Unaligned(b + sign);
    ReversedAppend(b, sign);
    ReversedSign(sign);
    ReversedSign("0");
  }

  lemma NoPadding(b: string, negative: bool)
    requires |b| <= NTOA_BUFFER
    ensures Body(b, negative, 0, 0, NO_FLAGS) == b
  {
  }

  lemma Unaligned(b: string)
    ensures Aligned(b, 0, NO_FLAGS) == Reversed(b)
  {
  }

  lemma DigitsOfU32(n: nat)
    requires n < U32
    ensures |LowFirst(n, 10, 'A')| <= 22
  {
    hide LowFirst, Power;
    TwentyTwoDigits(10);
    LowFirstLength(n, 10, 'A', 22, Power(10, 22));
  }

  /** %d prints what i32_to_cstring writes in base 10. */
  lemma DecimalDirective(v: int, args: seq<Arg>)
    requires args == [Int(v)]
    ensures Supported("%d", args) && Render("%d", args) == SignedNumeral(I32(v))
  {
    hide LowFirst, NumberText;
    var n := I32(v);
    DirectiveAlone("%d", args);
    DigitsOfU32(if n > 0 then n else -n);
    PlainDecimal(if n > 0 then n else -n, n < 0);
    assert IntegerFlags('d', NO_FLAGS) == NO_FLAGS;
  }

  /** %u prints what u32_to_cstring writes in base 10. */
  lemma UnsignedDirective(v: int, args: seq<Arg>)
    requires args == [Int(v)]
    ensures Supported("%u", args) && Render("%u", args) == Numeral(v % U32, 10, 'A')
  {
    hide LowFirst, NumberText;
    DirectiveAlone("%u", args);
    DigitsOfU32(v % U32);
    PlainDecimal(v % U32, false);
    assert IntegerFlags('u', NO_FLAGS) == NO_FLAGS;
  }

  lemma DirectiveAlone(format: string, args: seq<Arg>)
    requires |format| == 2 && format[0] == '%' && format[1] in {'d', 'u'} && |args| == 1 && args[0].Int?
    ensures ParseDirective(format[1..], args) == Good(NO_FLAGS, 0, 0, args, format[1..])
    ensures Supported(format, args)
    ensures Render(format, args) == IntegerText(format[1], args[0].v, NO_FLAGS, 0, 0)
  {
    hide LowFirst, NumberText, IntegerText;
    assert format[1..][1..] == "";
    assert ParseFlags(format[1..], NO_FLAGS) == (NO_FLAGS, format[1..]);
  }

  /** Parsing the buffer that "%d" was printed into gives the number back, for every i32 but the least. */
  lemma PrintThenParse(v: int, was: seq<char>, n: nat)
    requires I32_MIN < v <= I32_MAX && |SignedNumeral(v)| < n <= |was|
    ensures Supported("%d", [Int(v)])
    ensures SignedValue(CString(Truncated(was, Render("%d", [Int(v)]), n))) == v
  {
    hide SignedNumeral, CString, Render, Supported, Truncated;
    DecimalDirective(v, [Int(v)]);
    assert I32(v) == v;
    WholeTextFits(was, SignedNumeral(v), n);
    SignedRoundTrip(v, Truncated(was, SignedNumeral(v), n));
  }

  lemma WholeTextFits(was: seq<char>, text: string, n: nat)
    requires |text| < n <= |was|
    ensures var buffer := Truncated(was, text, n); |text| < |buffer| && buffer[..|text|] == text && buffer[|text|] == NUL
  {
  }
}
