/**
 What follows from the description of the printer (src/printf.c): what the common directives print,
 how fields and signs compare with %d alone, and where '-' and '#' do not print what C promises.
 */
module PrintfConsequences {
  import opened CInts
  import opened Numerals
  import opened PrintfModel
  import opened PrintfFormat
  import opened PrintfMeaning

  // ---- Integers alone ------------------------------------------------------------------------------

  lemma {:induction false} PowerOfMore(base: int, k: nat)
    requires base >= 2
    ensures Power(2, k) <= Power(base, k)
  {
    if k > 0 {
      PowerOfMore(base, k - 1);
      PowerPositive(2, k - 1);
      Monotone(Power(base, k - 1), 2, base);
      Monotone(2, Power(2, k - 1), Power(base, k - 1));
    }
  }

  lemma ThirtyTwoDigits(base: int)
    requires base >= 2
    ensures U32 <= Power(base, NTOA_BUFFER)
  {
    hide Power;
    PowerOfMore(base, NTOA_BUFFER);
    SplitPower(2, 16, 16);
    assert Power(2, 16) == 0x1_0000 by { SixteenBits(); }
  }

  lemma SixteenBits()
    ensures Power(2, 16) == 0x1_0000
  {
    SplitPower(2, 4, 4);
    SplitPower(2, 8, 8);
    assert Power(2, 4) == 16;
  }

  lemma DenotesOnce(n: int, m: int, v: int, signed: bool, length: string)
    requires Denotes(n, v, signed, length) && Denotes(m, v, signed, length)
    ensures n == m
  {
    var span := Span(length);
    var a, b := (v - n) / span, (v - m) / span;
    assert v - n == span * a && v - m == span * b;
    if a < b {
      Monotone(span, a + 1, b);
    } else if b < a {
      Monotone(span, b + 1, a);
    }
  }

  /** x, X, o, b and u alone print the digits of the argument as an unsigned int, with no leading zero. */
  lemma PlainDirective(c: char, base: int, v: int)
    requires (c, base) in {('x', 16), ('X', 16), ('o', 8), ('b', 2), ('u', 10)}
    ensures Supported("%" + [c], [Int(v)])
    ensures var text := Render("%" + [c], [Int(v)]);
            && AreDigits(text, base, c == 'X') && Value(text, base) == v % U32
            && text != "" && (text[0] == '0' ==> |text| == 1)
  {
    hide Shows, DigitsShow, Denotes, Render, Supported, AreDigits, Value, Power, Format, Arguments;
    var d := Directive("", Absent, Absent, "", c);
    var n, digits := IntegerAlone(d, v);
    assert Format(d, "") == "%" + [c] && Arguments(d, [Int(v)], []) == [Int(v)] by { PlainSpelling(c, v); }
    DenotesUnsigned(n, v);
    ShownAlone(Render("%" + [c], [Int(v)]), digits, n, base, NumberFlags(d));
    PlainDigits(digits, n, base, c == 'X');
  }

  /** A format that is one integer directive. */
  lemma IntegerAlone(d: Directive, v: int) returns (n: int, digits: string)
    requires Spelled(d) && IsInteger(d.conversion) && d.length != "ll"
    ensures Supported(Format(d, ""), Arguments(d, [Int(v)], []))
    ensures var signed := d.conversion in {'d', 'i'};
            && Denotes(n, v, signed, d.length)
            && Shows(Render(Format(d, ""), Arguments(d, [Int(v)], [])), digits, SignOf(n, signed, d.flags),
                     if n < 0 then -n else n, BaseOf(d.conversion), WidthOf(d), PrecisionOf(d), NumberFlags(d))
  {
    hide Shows, Denotes, Format, Arguments, WidthOf, PrecisionOf, NumberFlags, SignOf, BaseOf;
    assert Supported("", []) && Render("", []) == "";
    var text;
    n, digits, text := IntegerDirective(d, v, "", []);
    assert text + "" == text;
  }

  lemma PlainSpelling(c: char, v: int)
    ensures var d := Directive("", Absent, Absent, "", c);
            Format(d, "") == "%" + [c] && Arguments(d, [Int(v)], []) == [Int(v)]
  {
  }

  lemma ShownAlone(text: string, digits: string, value: nat, base: int, f: Flags)
    requires !f.hash && !f.left && !f.zeropad && !f.precision && Shows(text, digits, "", value, base, 0, 0, f)
    ensures text == digits && DigitsShow(digits, value, base, f.uppercase, if value == 0 then 1 else 0)
  {
    hide DigitsShow;
  }

  lemma DenotesUnsigned(n: int, v: int)
    requires Denotes(n, v, false, "")
    ensures n == v % U32
  {
    Congruent(v, 0, U32);
    DenotesOnce(n, v % U32, v, false, "");
  }

  lemma PlainDigits(digits: string, value: nat, base: int, uppercase: bool)
    requires 2 <= base <= 36 && value < U32
    requires DigitsShow(digits, value, base, uppercase, if value == 0 then 1 else 0)
    ensures AreDigits(digits, base, uppercase) && Value(digits, base) == value
    ensures digits != "" && (digits[0] == '0' ==> |digits| == 1)
  {
    hide AreDigits, Value, Power;
    ThirtyTwoDigits(base);
    RemainderIs(value, Power(base, NTOA_BUFFER), 0, value);
    EmptyNumeral(base);
  }

  // ---- %d in a field and with a sign -----------------------------------------------------------------

  lemma DenotesSigned(n: int, v: int)
    requires Denotes(n, v, true, "")
    ensures n == I32(v)
  {
    Congruent(v, -I32_MIN, U32);
    DenotesOnce(n, I32(v), v, true, "");
  }

  /** A width sets what %d prints to the right of a field, or with '-' to its left. */
  lemma DecimalInField(left: bool, width: string, v: int)
    requires IsNumeral(width) && width != "" && width[0] != '0'
    ensures var format := "%" + (if left then "-" else "") + width + "d";
            && Supported(format, [Int(v)]) && Supported("%d", [Int(v)])
            && Fills(Render(format, [Int(v)]), Render("%d", [Int(v)]), Value(width, 10) % U32, left)
  {
    hide Shows, Denotes, Render, Supported, Value, Power, Format, Arguments, Fills;
    var d0 := Directive("", Absent, Absent, "", 'd');
    var d := Directive(if left then "-" else "", Written(width), Absent, "", 'd');
    var n0, digits0 := IntegerAlone(d0, v);
    var n, digits := IntegerAlone(d, v);
    DenotesOnce(n, n0, v, true, "");
    PlainSpelling('d', v);
    assert "%" + ['d'] == "%d";
    FieldSpelling(left, width, v);
    FieldAgainstNone(Render(Format(d, ""), [Int(v)]), digits, Render("%d", [Int(v)]), digits0, SignOf(n, true, ""),
                     if n < 0 then -n else n, 10, WidthOf(d), NumberFlags(d), NumberFlags(d0));
  }

  lemma FieldSpelling(left: bool, width: string, v: int)
    ensures var d := Directive(if left then "-" else "", Written(width), Absent, "", 'd');
            && Format(d, "") == "%" + (if left then "-" else "") + width + "d"
            && Arguments(d, [Int(v)], []) == [Int(v)]
  {
  }

  lemma FieldAgainstNone(text: string, digits: string, text0: string, digits0: string, sign: string, value: nat, base: int,
                         width: nat, f: Flags, f0: Flags)
    requires 2 <= base <= 36 && f == f0.(left := f.left)
    requires !f.hash && !f.zeropad && !f.precision && !f0.left
    requires Shows(text, digits, sign, value, base, width, 0, f)
    requires Shows(text0, digits0, sign, value, base, 0, 0, f0)
    ensures Fills(text, text0, width, f.left)
  {
    hide DigitsShow;
    SameDigitsShown(digits, digits0, value, base, f.uppercase, if value == 0 then 1 else 0);
  }

  /** '+' and ' ' stand before a number that is not negative, and change nothing else. */
  lemma SignShown(mark: char, v: int)
    requires mark == '+' || mark == ' '
    ensures var format := "%" + [mark] + "d";
            && Supported(format, [Int(v)]) && Supported("%d", [Int(v)])
            && Render(format, [Int(v)]) == (if I32(v) < 0 then "" else [mark]) + Render("%d", [Int(v)])
  {
    hide Shows, Denotes, Render, Supported, Value, Power, Format, Arguments, I32;
    var d0 := Directive("", Absent, Absent, "", 'd');
    var d := Directive([mark], Absent, Absent, "", 'd');
    var n0, digits0 := IntegerAlone(d0, v);
    var n, digits := IntegerAlone(d, v);
    DenotesSigned(n, v);
    DenotesSigned(n0, v);
    PlainSpelling('d', v);
    assert "%" + ['d'] == "%d";
    MarkSpelling(mark, v);
    SignAgainstNone(Render(Format(d, ""), [Int(v)]), digits, SignOf(n, true, [mark]), Render("%d", [Int(v)]), digits0,
                    SignOf(n, true, ""), if n < 0 then -n else n);
  }

  lemma MarkSpelling(mark: char, v: int)
    ensures var d := Directive([mark], Absent, Absent, "", 'd');
            Format(d, "") == "%" + [mark] + "d" && Arguments(d, [Int(v)], []) == [Int(v)]
  {
  }

  lemma SignAgainstNone(text: string, digits: string, sign: string, text0: string, digits0: string, sign0: string, value: nat)
    requires value < U64
    requires Shows(text, digits, sign, value, 10, 0, 0, NO_FLAGS)
    requires Shows(text0, digits0, sign0, value, 10, 0, 0, NO_FLAGS)
    ensures text == sign + digits && text0 == sign0 + digits && digits0 == digits
  {
    hide DigitsShow;
    SameDigitsShown(digits, digits0, value, 10, false, if value == 0 then 1 else 0);
    SixtyFourBitsFit(value, 10);
    RoomLeft(digits, value, 10, false, if value == 0 then 1 else 0);
  }

  lemma RoomLeft(digits: string, value: nat, base: int, uppercase: bool, least: nat)
    requires 2 <= base <= 36 && value < Power(base, NTOA_BUFFER - 1) && value < Power(base, NTOA_BUFFER) && least < NTOA_BUFFER
    requires DigitsShow(digits, value, base, uppercase, least)
    ensures |digits| < NTOA_BUFFER
  {
    hide Power, Value, AreDigits;
    ValueBounds(digits, base, uppercase);
  }

  // ---- A precision beside '-' --------------------------------------------------------------------------

  /** As many digits as the precision asks for are printed, except beside '-', where the number must have them itself. */
  lemma PrecisionReached(digits: string, value: nat, base: int, sign: string, width: int, precision: nat, f: Flags)
    requires 2 <= base <= 36 && f.precision && precision <= NTOA_BUFFER
    requires DigitsShow(digits, value, base, f.uppercase, LeastDigits(value, sign, width, precision, f))
    ensures precision <= |digits| <==> !f.left || precision == 0 || Power(base, precision - 1) <= value
  {
    hide Power, Value, AreDigits;
    if f.left && precision > 0 {
      DigitCount(digits, value, base, f.uppercase, precision);
    }
  }

  /** Digits without a leading zero are as many as the number has, up to 32. */
  lemma DigitCount(digits: string, value: nat, base: int, uppercase: bool, n: int)
    requires 2 <= base <= 36 && 0 < n <= NTOA_BUFFER && DigitsShow(digits, value, base, uppercase, 0)
    ensures n <= |digits| <==> Power(base, n - 1) <= value
  {
    hide Power, Value, AreDigits;
    ValueBounds(digits, base, uppercase);
    PowerGrows(base, n - 1, NTOA_BUFFER);
    if value < Power(base, NTOA_BUFFER) {
      RemainderIs(value, Power(base, NTOA_BUFFER), 0, value);
      if n <= |digits| {
        PowerGrows(base, n - 1, |digits| - 1);
      } else {
        PowerGrows(base, |digits|, n - 1);
      }
    }
  }

  lemma DigitsAre(digits: string, shown: string, value: nat, base: int, uppercase: bool, least: nat)
    requires 2 <= base <= 36 && DigitsShow(digits, value, base, uppercase, least)
    requires AreDigits(shown, base, uppercase) && Value(shown, base) == value && value < U32
    requires least <= |shown| <= NTOA_BUFFER && (least < |shown| ==> shown[0] != '0')
    ensures digits == shown
  {
    hide Power, Value, AreDigits;
    ThirtyTwoDigits(base);
    RemainderIs(value, Power(base, NTOA_BUFFER), 0, value);
    SameDigitsShown(digits, shown, value, base, uppercase, least);
  }

  /** "%.3d" prints 5 as 005, but "%-.3d" prints it as 5. */
  lemma PrecisionIsLost()
    ensures Supported("%.3d", [Int(5)]) && Render("%.3d", [Int(5)]) == "005"
    ensures Supported("%-.3d", [Int(5)]) && Render("%-.3d", [Int(5)]) == "5"
  {
    ThreePlaces("", "005");
    ThreePlaces("-", "5");
    assert "%" + "" + ".3d" == "%.3d" && "%" + "-" + ".3d" == "%-.3d";
  }

  lemma ThreePlaces(flags: string, shown: string)
    requires (flags, shown) in {("", "005"), ("-", "5")}
    ensures Supported("%" + flags + ".3d", [Int(5)]) && Render("%" + flags + ".3d", [Int(5)]) == shown
  {
    hide Shows, Denotes, Render, Supported, Power, Format, Arguments, AreDigits, Value, Fills;
    var d := Directive(flags, Absent, Written("3"), "", 'd');
    assert PrecisionOf(d) == 3 && AreDigits(shown, 10, false) && Value(shown, 10) == 5 by { ThreeAndFive(shown); }
    var n, digits := IntegerAlone(d, 5);
    DenotesSigned(n, 5);
    PrecisionSpelling(flags, 5);
    ShownWithPrecision(Render(Format(d, ""), [Int(5)]), digits, 5, NumberFlags(d));
    DigitsAre(digits, shown, 5, 10, false, if flags == "-" then 0 else 3);
  }

  lemma PrecisionSpelling(flags: string, v: int)
    ensures var d := Directive(flags, Absent, Written("3"), "", 'd');
            Format(d, "") == "%" + flags + ".3d" && Arguments(d, [Int(v)], []) == [Int(v)]
  {
  }

  lemma ThreeAndFive(shown: string)
    requires shown == "005" || shown == "5"
    ensures Value("3", 10) == 3 && Value(shown, 10) == 5 && AreDigits(shown, 10, false)
  {
    hide Value;
    OneDigit('3');
    OneDigit('5');
    OneDigit('0');
    assert ['3'] == "3" && ['5'] == "5" && ['0'] == "0";
    if shown == "005" {
      assert "0" + ['0'] == "00" && "00" + ['5'] == "005";
      ValueSnoc("0", '0', 10);
      ValueSnoc("00", '5', 10);
    }
  }

  lemma OneDigit(c: char)
    ensures Value([c], 10) == DigitValue(c)
  {
    ValueSnoc("", c, 10);
    assert "" + [c] == [c];
  }

  lemma ShownWithPrecision(text: string, digits: string, value: nat, f: Flags)
    requires f.precision && !f.zeropad && !f.hash && Shows(text, digits, "", value, 10, 0, 3, f)
    ensures text == digits && DigitsShow(digits, value, 10, f.uppercase, if f.left then 0 else 3)
  {
    hide DigitsShow;
  }

  // ---- A prefix in a field ----------------------------------------------------------------------------

  /** Digits that are not needed for the value are zeros. */
  lemma DropZeros(s: string, k: nat, base: int, uppercase: bool)
    requires 2 <= base <= 36 && AreDigits(s, base, uppercase) && k <= |s|
    ensures Value(s[k..], base) < Power(base, |s| - k)
    ensures Value(s[k..], base) == Value(s, base) <==> Value(s, base) < Power(base, |s| - k)
  {
    hide Value, Power, IsDigitOf;
    SplitValue(s, k, base);
    ValueBounds(s[..k], base, uppercase);
    ValueBounds(s[k..], base, uppercase);
    if Value(s[..k], base) >= 1 {
      Monotone(Power(base, |s| - k), 1, Value(s[..k], base));
    }
  }

  /**
   The digits that '#' keeps denote the number, except when the number, with any zeros before it, is as
   long as the field: then leading digits are lost, and they are zeros only where zeros were padded.
   */
  lemma PrefixCostsDigits(digits: string, value: nat, base: int, sign: string, width: nat, f: Flags)
    requires base in {2, 8, 16} && 0 < value < Power(base, NTOA_BUFFER) && !f.precision && |sign| <= 1
    requires DigitsShow(digits, value, base, f.uppercase, LeastDigits(value, sign, width, 0, f))
    ensures var kept := digits[Lost(|digits|, base, sign, width, 0, f)..];
            var zeros := f.zeropad && !f.left;
            var field := if zeros && width > 0 then width - |sign| else width;
            var replaced := if zeros && base == 16 && field > 1 then 2 else 1;
            Value(kept, base) != value <==>
              1 <= field <= NTOA_BUFFER && Power(base, field - replaced) <= value < Power(base, field)
  {
    hide Power, Value, AreDigits;
    var zeros := f.zeropad && !f.left;
    var field := if zeros && width > 0 then width - |sign| else width;
    var n := |digits|;
    RemainderIs(value, Power(base, NTOA_BUFFER), 0, value);
    ValueBounds(digits, base, f.uppercase);
    EmptyNumeral(base);
    var lost := Lost(n, base, sign, width, 0, f);
    DropZeros(digits, lost, base, f.uppercase);
    if n == field {
      if lost == 2 && !zeros {
        PowerGrows(base, n - 2, n - 1);
      }
    } else {
      assert digits[0..] == digits;
      if field < n {
        PowerGrows(base, field, n - 1);
      } else if field <= NTOA_BUFFER {
        PowerGrows(base, n, field - 1);
      }
    }
  }

  /** "%#8x" prints 0x12345678 without its two highest digits. */
  lemma DigitsAreLost()
    ensures Supported("%#8x", [Int(0x1234_5678)]) && Render("%#8x", [Int(0x1234_5678)]) == "0x345678"
  {
    hide Shows, Denotes, Render, Supported, Power, Format, Arguments, AreDigits, Value, Fills;
    var v := 0x1234_5678;
    var d := Directive("#", Written("8"), Absent, "", 'x');
    assert WidthOf(d) == 8 && AreDigits("12345678", 16, false) && Value("12345678", 16) == v by { EightDigits(); }
    var n, digits := IntegerAlone(d, v);
    DenotesUnsigned(n, v);
    PrefixSpelling(v);
    ShownWithPrefix(Render(Format(d, ""), [Int(v)]), digits, v, NumberFlags(d));
  }

  lemma PrefixSpelling(v: int)
    ensures var d := Directive("#", Written("8"), Absent, "", 'x');
            Format(d, "") == "%#8x" && Arguments(d, [Int(v)], []) == [Int(v)]
  {
  }

  lemma ShownWithPrefix(text: string, digits: string, value: nat, f: Flags)
    requires f == NO_FLAGS.(hash := true) && 0 < value < U32 && Shows(text, digits, "", value, 16, 8, 0, f)
    requires AreDigits("12345678", 16, false) && Value("12345678", 16) == value
    ensures text == "0x345678"
  {
    hide DigitsShow, Value, AreDigits;
    DigitsAre(digits, "12345678", value, 16, false, 0);
    assert "12345678"[2..] == "345678";
    assert text == text[0..8] && "0x" + "345678" == "0x345678";
  }

  lemma EightDigits()
    ensures Value("8", 10) == 8 && AreDigits("12345678", 16, false) && Value("12345678", 16) == 0x1234_5678
  {
    SplitValue("12345678", 4, 16);
    SplitValue("1234", 2, 16);
    SplitValue("5678", 2, 16);
    assert "12345678"[..4] == "1234" && "12345678"[4..] == "5678" && "1234"[..2] == "12" && "1234"[2..] == "34"
           && "5678"[..2] == "56" && "5678"[2..] == "78";
    TwoDigits('1', '2');
    TwoDigits('3', '4');
    TwoDigits('5', '6');
    TwoDigits('7', '8');
    assert Power(16, 4) == 0x1_0000 && Power(16, 2) == 0x100;
    OneDigit('8');
    assert ['8'] == "8";
  }

  lemma TwoDigits(c: char, d: char)
    ensures Value([c, d], 16) == 16 * DigitValue(c) + DigitValue(d)
  {
    ValueSnoc("", c, 16);
    ValueSnoc([c], d, 16);
    assert "" + [c] == [c] && [c] + [d] == [c, d];
  }
}
