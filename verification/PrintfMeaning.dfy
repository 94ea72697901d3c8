/**
 What a reader of a format sees (src/printf.c): the spelling of a directive decides flags, width and
 precision, and the text printed for it is described by its characters, without the steps that make it.
 */
module PrintfMeaning {
  import opened CInts
  import opened Numerals
  import opened PrintfModel
  import opened PrintfFormat

  // ---- Digits -------------------------------------------------------------------------------------

  predicate IsDigitOf(c: char, base: int, uppercase: bool) {
    if c <= '9' then '0' <= c && c as int - '0' as int < base
    else if uppercase then 'A' <= c && c as int - 'A' as int + 10 < base
    else 'a' <= c && c as int - 'a' as int + 10 < base
  }

  predicate AreDigits(s: string, base: int, uppercase: bool) {
    forall i :: 0 <= i < |s| ==> IsDigitOf(s[i], base, uppercase)
  }

  lemma DigitValueDetermines(c: char, d: char, base: int, uppercase: bool)
    requires 2 <= base <= 36 && IsDigitOf(c, base, uppercase) && IsDigitOf(d, base, uppercase)
    ensures 0 <= DigitValue(c) < base
    ensures DigitValue(c) == DigitValue(d) ==> c == d
  {
  }

  /** As many digits with the same value are the same digits. */
  lemma {:induction false} DigitsDetermined(s: string, t: string, base: int, uppercase: bool)
    requires 2 <= base <= 36 && AreDigits(s, base, uppercase) && AreDigits(t, base, uppercase)
    requires |s| == |t| && Value(s, base) == Value(t, base)
    ensures s == t
  {
    hide IsDigitOf, DigitValue;
    if s != "" {
      var n := |s| - 1;
      DigitValueDetermines(s[n], t[n], base, uppercase);
      DigitValueDetermines(t[n], s[n], base, uppercase);
      SameDigits(Value(s[..n], base), DigitValue(s[n]), Value(t[..n], base), DigitValue(t[n]), base);
      DigitsDetermined(s[..n], t[..n], base, uppercase);
      assert s == s[..n] + [s[n]] && t == t[..n] + [t[n]];
    }
  }

  lemma SameDigits(v: int, d: int, w: int, e: int, base: int)
    requires base >= 2 && 0 <= d < base && 0 <= e < base && v * base + d == w * base + e
    ensures v == w && d == e
  {
    if v < w {
      Monotone(base, v + 1, w);
    } else if w < v {
      Monotone(base, w + 1, v);
    }
  }

  /** Digits without a leading zero show at least a power of the base, and any digits less than the next one. */
  lemma {:induction false} ValueBounds(s: string, base: int, uppercase: bool)
    requires 2 <= base <= 36 && AreDigits(s, base, uppercase)
    ensures 0 <= Value(s, base) < Power(base, |s|)
    ensures s != "" && s[0] != '0' ==> Power(base, |s| - 1) <= Value(s, base)
  {
    hide IsDigitOf, DigitValue;
    if s != "" {
      var n := |s| - 1;
      ValueBounds(s[..n], base, uppercase);
      DigitValueDetermines(s[n], s[n], base, uppercase);
      OneDigitMore(Value(s[..n], base), DigitValue(s[n]), base, Power(base, n));
      if n == 0 {
        NonZeroDigit(s[0], base, uppercase);
      } else {
        OneDigitMore(Value(s[..n], base), DigitValue(s[n]), base, Power(base, n - 1));
      }
    }
  }

  lemma OneDigitMore(v: int, d: int, base: int, p: int)
    requires 0 <= v && 0 <= d < base
    ensures 0 <= v * base + d
    ensures v < p ==> v * base + d < base * p
    ensures p <= v ==> base * p <= v * base + d
  {
    if v < p {
      Monotone(base, v + 1, p);
    } else {
      Monotone(base, p, v);
    }
  }

  lemma NonZeroDigit(c: char, base: int, uppercase: bool)
    requires IsDigitOf(c, base, uppercase)
    ensures c != '0' ==> DigitValue(c) >= 1
  {
  }

  lemma {:induction false} LowFirstAreDigits(n: nat, base: int, uppercase: bool)
    requires 2 <= base <= 36
    ensures AreDigits(LowFirst(n, base, if uppercase then 'A' else 'a'), base, uppercase)
    decreases n
  {
    if n == 0 {
    } else {
      DividesLess(n, base);
      LowFirstAreDigits(n / base, base, uppercase);
    }
  }

  lemma {:induction false} ReversedAreDigits(s: string, base: int, uppercase: bool)
    requires AreDigits(s, base, uppercase)
    ensures AreDigits(Reversed(s), base, uppercase)
  {
    forall i | 0 <= i < |s| ensures IsDigitOf(Reversed(s)[i], base, uppercase) {
      ReversedAt(s, i);
    }
  }

  // ---- One number -----------------------------------------------------------------------------------

  /** So many digits are printed at least: one for a plain zero, the precision, and a zero-padded field. */
  function LeastDigits(value: nat, sign: string, width: int, precision: int, f: Flags): (n: nat) {
    var needed := if value == 0 && !f.precision then 1 else 0;
    if f.left then needed
    else
      var wanted := if f.zeropad && precision < width - |sign| then width - |sign| else precision;
      if wanted < needed then needed else if wanted < NTOA_BUFFER then wanted else NTOA_BUFFER
  }

  /** The digits of a value modulo base^32, with zeros in front only to reach the least number of them. */
  ghost predicate DigitsShow(digits: string, value: nat, base: int, uppercase: bool, least: nat) {
    && AreDigits(digits, base, uppercase)
    && Power(base, NTOA_BUFFER) > 0 && Value(digits, base) == value % Power(base, NTOA_BUFFER)
    && least <= |digits| <= NTOA_BUFFER
    && (if value < Power(base, NTOA_BUFFER) then least < |digits| ==> digits[0] != '0' else |digits| == NTOA_BUFFER)
  }

  /** Spaces, on the right or on the left, make the text as long as the field. */
  predicate Fills(text: string, shown: string, width: int, left: bool) {
    && |text| == (if |shown| < width then width else |shown|)
    && var at := if left then 0 else |text| - |shown|;
    && text[at..at + |shown|] == shown
    && forall i :: 0 <= i < |text| && !(at <= i < at + |shown|) ==> text[i] == ' '
  }

  lemma FilledOnce(text: string, text': string, shown: string, width: int, left: bool)
    requires Fills(text, shown, width, left) && Fills(text', shown, width, left)
    ensures text == text'
  {
    var at := if left then 0 else |text| - |shown|;
    assert text == text[..at] + text[at..at + |shown|] + text[at + |shown|..];
    assert text' == text'[..at] + text'[at..at + |shown|] + text'[at + |shown|..];
  }

  /** A text that shows a number: these digits behind the sign, if it finds a place among 32 characters, in a field. */
  ghost predicate ShowsNumber(text: string, digits: string, sign: string, value: nat, base: int, width: int, precision: int,
                              f: Flags) {
    var shown := (if |digits| < NTOA_BUFFER then sign else "") + digits;
    && DigitsShow(digits, value, base, f.uppercase, LeastDigits(value, sign, width, precision, f))
    && if f.zeropad && !f.left then text == shown else Fills(text, shown, width, f.left)
  }

  function FlagSign(negative: bool, f: Flags): (sign: string) {
    if negative then "-" else if f.plus then "+" else if f.space then " " else ""
  }

  /** There is one way to show a value by its digits. */
  lemma SameDigitsShown(digits: string, digits': string, value: nat, base: int, uppercase: bool, least: nat)
    requires 2 <= base <= 36
    requires DigitsShow(digits, value, base, uppercase, least) && DigitsShow(digits', value, base, uppercase, least)
    ensures digits == digits'
  {
    hide AreDigits, Value, Power;
    NoLongerDigits(digits, digits', value, base, uppercase, least);
    NoLongerDigits(digits', digits, value, base, uppercase, least);
    DigitsDetermined(digits, digits', base, uppercase);
  }

  lemma NoLongerDigits(digits: string, digits': string, value: nat, base: int, uppercase: bool, least: nat)
    requires 2 <= base <= 36
    requires DigitsShow(digits, value, base, uppercase, least) && DigitsShow(digits', value, base, uppercase, least)
    ensures |digits| <= |digits'|
  {
    hide AreDigits, Value, Power;
    if |digits| > |digits'| {
      ValueBounds(digits, base, uppercase);
      ValueBounds(digits', base, uppercase);
      PowerGrows(base, |digits'|, |digits| - 1);
    }
  }

  lemma StoredAreDigits(value: nat, base: int, f: Flags)
    requires 2 <= base <= 36
    ensures AreDigits(StoredDigits(value, base, f), base, f.uppercase)
    ensures value == 0 ==> StoredDigits(value, base, f) == if f.precision then "" else "0"
    ensures var b := StoredDigits(value, base, f); 0 < value < Power(base, NTOA_BUFFER) ==> b != "" && b[|b| - 1] != '0'
    ensures value >= Power(base, NTOA_BUFFER) ==> |StoredDigits(value, base, f)| == NTOA_BUFFER
  {
    hide LowFirst, Power, IsDigitOf;
    var low := LowFirst(value, base, Ten(f));
    assert IsDigitOf('0', base, f.uppercase) by { ZeroIsDigit(base, f.uppercase); }
    LowFirstAreDigits(value, base, f.uppercase);
    PowerPositive(base, NTOA_BUFFER);
    if value > 0 {
      TopDigit(value, base, Ten(f));
      LowFirstBound(value, base, Ten(f));
    }
    if value < Power(base, NTOA_BUFFER) {
      LowFirstLength(value, base, Ten(f), NTOA_BUFFER, Power(base, NTOA_BUFFER));
    } else if |low| < NTOA_BUFFER {
      PowerGrows(base, |low|, NTOA_BUFFER);
    }
  }

  lemma ZeroIsDigit(base: int, uppercase: bool)
    requires 2 <= base
    ensures IsDigitOf('0', base, uppercase)
  {
  }

  /** Zeros are added up to a length that 32 limits. */
  lemma BodyIs(b: string, negative: bool, prec: int, width: int, f: Flags, base: int)
    requires |b| <= NTOA_BUFFER && 2 <= base && AreDigits(b, base, f.uppercase)
    ensures var body := Body(b, negative, prec, width, f);
            var wanted := if f.zeropad && prec < DigitWidth(negative, width, f) then DigitWidth(negative, width, f) else prec;
            && AreDigits(body, base, f.uppercase)
            && (if f.left || wanted <= |b| then body == b
                else |body| == if wanted < NTOA_BUFFER then wanted else NTOA_BUFFER)
  {
    hide IsDigitOf;
    ZeroIsDigit(base, f.uppercase);
  }

  /** What NumberText prints without '#'. */
  lemma NumberPrinted(value: nat, negative: bool, base: int, prec: int, width: int, f: Flags) returns (digits: string)
    requires 2 <= base <= 36 && (!f.hash || value == 0)
    requires 0 <= prec && 0 <= width
    ensures ShowsNumber(NumberText(value, negative, base, prec, width, f), digits, FlagSign(negative, f), value, base, width,
                        prec, f)
  {
    hide StoredDigits, Body, NumberText, Aligned, Reversed, DigitsShow, LeastDigits, Fills;
    DigitsPrinted(value, negative, base, prec, width, f);
    var f' := f.(hash := false);
    var body := Body(StoredDigits(value, base, f'), negative, prec, width, f');
    digits := Reversed(body);
    var sign := if |body| < NTOA_BUFFER then Sign(negative, f) else "";
    PlainNumberText(value, negative, base, prec, width, f, body);
    ReversedAppend(body, sign);
    ReversedSign(sign);
    AlignedFills(body + sign, negative, width, f);
  }

  lemma AlignedFills(b: string, negative: bool, width: int, f: Flags)
    requires 0 <= width
    ensures var text := Aligned(b, DigitWidth(negative, width, f), f);
            if f.zeropad && !f.left then text == Reversed(b) else Fills(text, Reversed(b), width, f.left)
  {
    hide Reversed;
  }

  // ---- One number with '#' ----------------------------------------------------------------------------

  /** The prefix of a base, or as much of its end as there is room for. */
  function Prefix(base: int, uppercase: bool, room: nat): (s: string) {
    var whole := if base == 16 then (if uppercase then "0X" else "0x") else if base == 2 then "0b" else "0";
    if |whole| <= room then whole else whole[|whole| - room..]
  }

  /** So many leading digits make way for the prefix when the digits are as long as the field. */
  function Lost(n: nat, base: int, sign: string, width: int, precision: int, f: Flags): (k: nat)
    ensures k <= n
  {
    var field := if f.zeropad && !f.left && width > 0 then width - |sign| else width;
    if f.precision || n == 0 || (n != field && n != precision) then 0 else if base == 16 && n > 1 then 2 else 1
  }

  /** A text that shows a number with a prefix in place of the leading digits that are lost. */
  ghost predicate ShowsPrefixed(text: string, digits: string, sign: string, value: nat, base: int, width: int, precision: int,
                                f: Flags) {
    var kept := digits[Lost(|digits|, base, sign, width, precision, f)..];
    && DigitsShow(digits, value, base, f.uppercase, LeastDigits(value, sign, width, precision, f))
    && var prefixed := Prefix(base, f.uppercase, NTOA_BUFFER - |kept|) + kept;
    && var shown := (if |prefixed| < NTOA_BUFFER then sign else "") + prefixed;
    && if f.zeropad && !f.left then text == shown else Fills(text, shown, width, f.left)
  }

  /** What NumberText prints with '#'. */
  lemma PrefixedNumberPrinted(value: nat, negative: bool, base: int, prec: int, width: int, f: Flags) returns (digits: string)
    requires 2 <= base <= 36 && f.hash && value > 0
    requires 0 <= prec && 0 <= width
    ensures ShowsPrefixed(NumberText(value, negative, base, prec, width, f), digits, FlagSign(negative, f), value, base, width,
                          prec, f)
  {
    hide StoredDigits, Body, Aligned, Reversed, DigitsShow, LeastDigits, Fills, Hashed, Lost, Prefix;
    DigitsPrinted(value, negative, base, prec, width, f);
    var body := Body(StoredDigits(value, base, f), negative, prec, width, f);
    digits := Reversed(body);
    IgnoresHash(value, negative, base, prec, width, f);
    var w := DigitWidth(negative, width, f);
    var hashed := Hashed(body, base, prec, w, f);
    HashedReversed(body, negative, base, prec, width, f);
    var sign := if |hashed| < NTOA_BUFFER then Sign(negative, f) else "";
    assert hashed + "" == hashed;
    ReversedAppend(hashed, sign);
    ReversedSign(sign);
    AlignedFills(hashed + sign, negative, width, f);
  }

  lemma IgnoresHash(value: nat, negative: bool, base: int, prec: int, width: int, f: Flags)
    requires 2 <= base <= 36
    ensures PrintedDigits(value, negative, base, prec, width, f) ==
            Reversed(Body(StoredDigits(value, base, f), negative, prec, width, f))
  {
    hide LowFirst, Reversed;
    assert StoredDigits(value, base, f) == StoredDigits(value, base, f.(hash := false));
  }

  lemma HashedReversed(body: string, negative: bool, base: int, prec: int, width: int, f: Flags)
    requires |body| <= NTOA_BUFFER && f.hash
    ensures var lost := Lost(|body|, base, FlagSign(negative, f), width, prec, f);
            var kept := Reversed(body)[lost..];
            Reversed(Hashed(body, base, prec, DigitWidth(negative, width, f), f)) ==
            Prefix(base, f.uppercase, NTOA_BUFFER - |kept|) + kept
  {
    hide Reversed, Hashed, Lost, Prefix;
    var cut := |body| - Lost(|body|, base, FlagSign(negative, f), width, prec, f);
    var prefix := Prefix(base, f.uppercase, NTOA_BUFFER - cut);
    HashedIs(body, negative, base, prec, width, f);
    PrefixReversed(base, f.uppercase, NTOA_BUFFER - cut);
    ReversedAppend(body[..cut], Reversed(prefix));
    ReversedTwice(prefix);
    assert body == body[..cut] + body[cut..];
    ReversedAppend(body[..cut], body[cut..]);
  }

  /** The end of a prefix as it is stored. */
  function Mark(base: int, uppercase: bool, room: nat): (s: string) {
    var mark := if base == 16 then (if uppercase then "X" else "x") else if base == 2 then "b" else "";
    if room < |mark| then "" else if room == |mark| then mark else mark + "0"
  }

  lemma HashedIs(body: string, negative: bool, base: int, prec: int, width: int, f: Flags)
    requires |body| <= NTOA_BUFFER && f.hash
    ensures var cut := |body| - Lost(|body|, base, FlagSign(negative, f), width, prec, f);
            Hashed(body, base, prec, DigitWidth(negative, width, f), f) ==
            body[..cut] + Mark(base, f.uppercase, NTOA_BUFFER - cut)
  {
  }

  lemma PrefixReversed(base: int, uppercase: bool, room: nat)
    ensures Reversed(Prefix(base, uppercase, room)) == Mark(base, uppercase, room)
  {
    hide Reversed;
    var mark := if base == 16 then (if uppercase then "X" else "x") else if base == 2 then "b" else "";
    ReversedAppend("0", mark);
    ReversedSign("0");
    ReversedSign(mark);
    ReversedSign("");
    assert "0" + mark == if base == 16 then (if uppercase then "0X" else "0x") else if base == 2 then "0b" else "0";
    assert Prefix(base, uppercase, room) == if |mark| < room then "0" + mark else if room == |mark| then mark else "";
  }

  lemma ReversedTwice(s: string)
    ensures Reversed(Reversed(s)) == s
  {
    forall k | 0 <= k < |s| ensures Reversed(Reversed(s))[k] == s[k] {
      ReversedAt(Reversed(s), k);
      ReversedAt(s, |s| - 1 - k);
    }
  }

  lemma DigitsPrinted(value: nat, negative: bool, base: int, prec: int, width: int, f: Flags)
    requires 2 <= base <= 36 && 0 <= prec && 0 <= width
    ensures DigitsShow(PrintedDigits(value, negative, base, prec, width, f), value, base, f.uppercase,
                       LeastDigits(value, FlagSign(negative, f), width, prec, f))
  {
    hide LowFirst, StoredDigits, Body, Reversed, Power, AreDigits, Value;
    var f' := f.(hash := false);
    var b := StoredDigits(value, base, f');
    StoredAreDigits(value, base, f');
    BodyIs(b, negative, prec, width, f', base);
    var body := Body(b, negative, prec, width, f');
    ReversedAreDigits(body, base, f.uppercase);
    PrintedDigitsValue(value, negative, base, prec, width, f);
    if body != "" {
      ReversedAt(body, 0);
    }
  }

  // ---- How a directive is spelled -------------------------------------------------------------------

  /** A width or a precision: left out, written as digits, or taken from an argument. */
  datatype Field = Absent | Written(digits: string) | Star(v: int)

  datatype Directive = Directive(flags: string, width: Field, precision: Field, length: string, conversion: char)

  function FieldText(field: Field): (s: string) {
    match field
    case Absent => ""
    case Written(digits) => digits
    case Star(_) => "*"
  }

  /** What stands behind the '%'. */
  function Spelling(d: Directive): (s: string) {
    var precision := if d.precision.Absent? then "" else "." + FieldText(d.precision);
    d.flags + (FieldText(d.width) + (precision + (d.length + [d.conversion])))
  }

  function StarArg(field: Field): (args: seq<Arg>) {
    if field.Star? then [Int(field.v)] else []
  }

  predicate IsFlag(c: char) { c in {'-', '+', ' ', '0', '#'} }

  predicate Spelled(d: Directive) {
    && (forall i :: 0 <= i < |d.flags| ==> IsFlag(d.flags[i]))
    && (d.width.Written? ==> IsNumeral(d.width.digits) && d.width.digits != "" && d.width.digits[0] != '0')
    && (d.precision.Written? ==> IsNumeral(d.precision.digits))
    && d.length in {"", "h", "hh", "l", "ll", "t", "j", "z"}
    && !IsFlag(d.conversion) && !IsDigit(d.conversion) && d.conversion !in {'*', '.', 'h', 'l', 't', 'j', 'z'}
  }

  function FieldNumber(field: Field): (n: int) {
    match field
    case Absent => 0
    case Written(digits) => Value(digits, 10) % U32
    case Star(v) => I32(v)
  }

  /** A negative width taken from an argument means the left side. */
  predicate OnTheLeft(d: Directive) { '-' in d.flags || FieldNumber(d.width) < 0 }

  function WidthOf(d: Directive): (w: nat) {
    if FieldNumber(d.width) < 0 then -FieldNumber(d.width) else FieldNumber(d.width)
  }

  function PrecisionOf(d: Directive): (n: nat) {
    if FieldNumber(d.precision) < 0 then 0 else FieldNumber(d.precision)
  }

  function SizeOf(length: string): (size: Size) {
    match length
    case "" => Plain
    case "h" => Short
    case "hh" => Char8
    case "ll" => LongLong
    case _ => Long
  }

  function FlagsOf(d: Directive): (f: Flags) {
    Flags('0' in d.flags, OnTheLeft(d), '+' in d.flags, ' ' in d.flags, '#' in d.flags, false,
          !d.precision.Absent?, SizeOf(d.length))
  }

  function WithFlags(f: Flags, flags: string): (g: Flags) {
    f.(zeropad := f.zeropad || '0' in flags, left := f.left || '-' in flags, plus := f.plus || '+' in flags,
       space := f.space || ' ' in flags, hash := f.hash || '#' in flags)
  }

  lemma {:induction false} FlagsAreRead(flags: string, rest: string, f: Flags)
    requires forall i :: 0 <= i < |flags| ==> IsFlag(flags[i])
    requires rest == "" || !IsFlag(rest[0])
    ensures ParseFlags(flags + rest, f) == (WithFlags(f, flags), rest)
  {
    hide WithFlags, ParseFlags;
    if flags == "" {
      assert flags + rest == rest;
      NoFlags(rest, f);
    } else {
      assert (flags + rest)[1..] == flags[1..] + rest && (flags + rest)[..1] == flags[..1];
      OneFlag(flags + rest, f);
      FlagByFlag(f, flags);
      FlagsAreRead(flags[1..], rest, WithFlags(f, flags[..1]));
    }
  }

  lemma NoFlags(rest: string, f: Flags)
    requires rest == "" || !IsFlag(rest[0])
    ensures ParseFlags(rest, f) == (WithFlags(f, ""), rest)
  {
  }

  lemma OneFlag(p: string, f: Flags)
    requires p != "" && IsFlag(p[0])
    ensures ParseFlags(p, f) == ParseFlags(p[1..], WithFlags(f, p[..1]))
  {
    var c := p[0];
    assert WithFlags(f, p[..1]) ==
           f.(zeropad := f.zeropad || c == '0', left := f.left || c == '-', plus := f.plus || c == '+',
              space := f.space || c == ' ', hash := f.hash || c == '#');
  }

  lemma FlagByFlag(f: Flags, flags: string)
    requires flags != ""
    ensures WithFlags(f, flags) == WithFlags(WithFlags(f, flags[..1]), flags[1..])
  {
    assert flags == flags[..1] + flags[1..];
  }

  lemma WidthIsRead(width: Field, rest: string, f: Flags, args: seq<Arg>)
    requires width.Written? ==> IsNumeral(width.digits) && width.digits != ""
    requires rest != "" && !IsDigit(rest[0]) && rest[0] != '*'
    ensures var n := FieldNumber(width);
            ParseWidth(FieldText(width) + rest, f, StarArg(width) + args) ==
            Good(f.(left := f.left || n < 0), if n < 0 then -n else n, 0, args, rest)
  {
    hide Value, ParseNumber;
    match width
    case Absent =>
      assert FieldText(width) + rest == rest && StarArg(width) + args == args;
    case Written(digits) =>
      NumeralIsRead(digits, rest);
      assert StarArg(width) + args == args;
    case Star(v) =>
      assert (FieldText(width) + rest)[1..] == rest && (StarArg(width) + args)[1..] == args;
  }

  lemma PrecisionIsRead(precision: Field, rest: string, f: Flags, w: int, args: seq<Arg>)
    requires precision.Written? ==> IsNumeral(precision.digits)
    requires rest != "" && !IsDigit(rest[0]) && rest[0] != '*' && rest[0] != '.'
    ensures var p := if precision.Absent? then "" else "." + FieldText(precision);
            var n := FieldNumber(precision);
            ParsePrecision(Good(f, w, 0, StarArg(precision) + args, p + rest)) ==
            Good(f.(precision := f.precision || !precision.Absent?), w, if n < 0 then 0 else n, args, rest)
  {
    hide ParseNumber, Value;
    match precision
    case Absent =>
      assert "" + rest == rest && StarArg(precision) + args == args;
    case Written(digits) =>
      assert StarArg(precision) + args == args;
      WrittenPrecision(digits, rest, Good(f, w, 0, args, "." + digits + rest));
    case Star(v) =>
      assert ("." + "*" + rest)[1..] == "*" + rest && ("*" + rest)[1..] == rest;
      assert (StarArg(precision) + args)[1..] == args;
  }

  lemma WrittenPrecision(digits: string, rest: string, g: Parsed)
    requires g.Good? && IsNumeral(digits) && g.rest == "." + digits + rest && rest != "" && !IsDigit(rest[0]) && rest[0] != '*'
    ensures ParsePrecision(g) == g.(flags := g.flags.(precision := true), precision := Value(digits, 10) % U32, rest := rest)
  {
    hide ParseNumber, Value;
    assert g.rest[1..] == digits + rest;
    NumeralIsRead(digits, rest);
    if digits == "" {
      assert digits + rest == rest;
      EmptyNumeral(10);
    }
  }

  lemma LengthIsRead(length: string, rest: string)
    requires length in {"", "h", "hh", "l", "ll", "t", "j", "z"}
    requires rest != "" && rest[0] !in {'h', 'l', 't', 'j', 'z'}
    ensures ParseLength(length + rest) == (SizeOf(length), rest)
  {
    if |length| == 2 {
      assert (length + rest)[2..] == rest;
    } else if |length| == 1 {
      assert (length + rest)[1..] == rest;
    } else {
      assert length + rest == rest;
    }
  }

  /** A directive is read as it is spelled. */
  lemma DirectiveIsRead(d: Directive, rest: string, args: seq<Arg>)
    requires Spelled(d)
    ensures ParseDirective(Spelling(d) + rest, StarArg(d.width) + (StarArg(d.precision) + args)) ==
            Good(FlagsOf(d), WidthOf(d), PrecisionOf(d), args, [d.conversion] + rest)
  {
    hide ParseFlags, ParseWidth, ParsePrecision, ParseLength, FieldNumber, SizeOf;
    var p3 := [d.conversion] + rest;
    var p2 := d.length + p3;
    var precision := if d.precision.Absent? then "" else "." + FieldText(d.precision);
    var p1 := precision + p2;
    var p0 := FieldText(d.width) + p1;
    assert Spelling(d) + rest == d.flags + p0;
    FlagsAreRead(d.flags, p0, NO_FLAGS);
    var f := ParseFlags(d.flags + p0, NO_FLAGS).0;
    WidthIsRead(d.width, p1, f, StarArg(d.precision) + args);
    PrecisionIsRead(d.precision, p2, f.(left := OnTheLeft(d)), WidthOf(d), args);
    LengthIsRead(d.length, p3);
  }

  // ---- What a directive prints ------------------------------------------------------------------------

  /** The format that begins with a directive, and its arguments: those for the stars, then its own. */
  function Format(d: Directive, rest: string): (s: string) { "%" + (Spelling(d) + rest) }

  function Arguments(d: Directive, own: seq<Arg>, args: seq<Arg>): (r: seq<Arg>) {
    StarArg(d.width) + (StarArg(d.precision) + (own + args))
  }

  lemma RenderDirective(d: Directive, own: seq<Arg>, rest: string, args: seq<Arg>) returns (g: Parsed)
    requires Spelled(d) && Supported(rest, args)
    requires ArgsFit(d.conversion, FlagsOf(d), own + args)
    requires |own| == if TakesArg(d.conversion, FlagsOf(d)) then 1 else 0
    ensures g == Good(FlagsOf(d), WidthOf(d), PrecisionOf(d), own + args, [d.conversion] + rest)
    ensures Supported(Format(d, rest), Arguments(d, own, args))
    ensures Render(Format(d, rest), Arguments(d, own, args)) == Conversion(g) + Render(rest, args)
  {
    hide ParseDirective, Spelling, Conversion, StarArg;
    g := Good(FlagsOf(d), WidthOf(d), PrecisionOf(d), own + args, [d.conversion] + rest);
    DirectiveIsRead(d, rest, own + args);
    assert Format(d, rest)[1..] == Spelling(d) + rest;
    assert g.rest[1..] == rest;
    assert (own + args)[|own|..] == args;
    assert |own| == 0 ==> own + args == args;
  }

  /** How many values the type of an argument has. */
  function Span(length: string): (n: int) {
    match length
    case "hh" => 0x100
    case "h" => 0x1_0000
    case "" => U32
    case _ => U64
  }

  /** n is the argument v in the type that the length names; plain char is unsigned on this processor. */
  predicate Denotes(n: int, v: int, signed: bool, length: string) {
    && Span(length) != 0 && (v - n) % Span(length) == 0
    && if signed && length != "hh" then -Span(length) <= 2 * n < Span(length) else 0 <= n < Span(length)
  }

  function BaseOf(conversion: char): (base: int) {
    match conversion
    case 'x' => 16
    case 'X' => 16
    case 'o' => 8
    case 'b' => 2
    case _ => 10
  }

  /** How the number is set: zeros only without a precision, capital digits for X, no prefix for base 10. */
  function NumberFlags(d: Directive): (f: Flags) {
    NO_FLAGS.(zeropad := '0' in d.flags && d.precision.Absent?, left := OnTheLeft(d), precision := !d.precision.Absent?,
              uppercase := d.conversion == 'X',
              hash := '#' in d.flags && d.conversion !in {'d', 'i', 'u'})
  }

  function SignOf(n: int, signed: bool, flags: string): (sign: string) {
    if n < 0 then "-" else if signed && '+' in flags then "+" else if signed && ' ' in flags then " " else ""
  }

  /** With or without the prefix that '#' asks for. */
  ghost predicate Shows(text: string, digits: string, sign: string, value: nat, base: int, width: int, precision: int, f: Flags) {
    if f.hash && value > 0 then ShowsPrefixed(text, digits, sign, value, base, width, precision, f)
    else ShowsNumber(text, digits, sign, value, base, width, precision, f)
  }

  lemma EachNumberPrinted(value: nat, negative: bool, base: int, prec: int, width: int, f: Flags) returns (digits: string)
    requires 2 <= base <= 36 && 0 <= prec && 0 <= width
    ensures Shows(NumberText(value, negative, base, prec, width, f), digits, FlagSign(negative, f), value, base, width, prec, f)
  {
    hide NumberText, ShowsPrefixed, ShowsNumber;
    if f.hash && value > 0 {
      digits := PrefixedNumberPrinted(value, negative, base, prec, width, f);
    } else {
      digits := NumberPrinted(value, negative, base, prec, width, f);
    }
  }

  /** There is one way to show a number. */
  lemma OneWayToShow(text: string, digits: string, text': string, digits': string, sign: string, value: nat, base: int,
                     width: int, precision: int, f: Flags)
    requires 2 <= base <= 36
    requires Shows(text, digits, sign, value, base, width, precision, f)
    requires Shows(text', digits', sign, value, base, width, precision, f)
    ensures text == text' && digits == digits'
  {
    hide AreDigits, Value, Power, LeastDigits, Fills, Lost, Prefix;
    SameDigitsShown(digits, digits', value, base, f.uppercase, LeastDigits(value, sign, width, precision, f));
    var kept := if f.hash && value > 0 then digits[Lost(|digits|, base, sign, width, precision, f)..] else digits;
    var prefixed := (if f.hash && value > 0 then Prefix(base, f.uppercase, NTOA_BUFFER - |kept|) else "") + kept;
    var shown := (if |prefixed| < NTOA_BUFFER then sign else "") + prefixed;
    assert prefixed == digits || (f.hash && value > 0);
    if f.left || !f.zeropad {
      FilledOnce(text, text', shown, width, f.left);
    }
  }

  lemma ShowsAlike(text: string, digits: string, sign: string, value: nat, base: int, width: int, precision: int,
                   f: Flags, f': Flags)
    requires Shows(text, digits, sign, value, base, width, precision, f)
    requires f' == f.(plus := f'.plus, space := f'.space, size := f'.size)
    ensures Shows(text, digits, sign, value, base, width, precision, f')
  {
    hide Prefix, DigitsShow, Fills;
  }

  lemma ArgumentDenotes(v: int, f: Flags, length: string)
    requires length in {"", "h", "hh", "l", "t", "j", "z"} && f.size == SizeOf(length)
    ensures Denotes(SignedArg(v, f), v, true, length)
    ensures Denotes(UnsignedArg(v, f), v, false, length)
  {
    Congruent(v, 0, 0x100);
    Congruent(v, 0, 0x1_0000);
    Congruent(v, 0, U32);
    Congruent(v, 0, U64);
    Congruent(v, 0x8000, 0x1_0000);
    Congruent(v, -I32_MIN, U32);
    Congruent(v, U64 / 2, U64);
  }

  lemma Congruent(v: int, h: int, m: int)
    requires m > 0
    ensures (v - ((v + h) % m - h)) % m == 0
    ensures h == 0 ==> (v - v % m) % m == 0
  {
    var q := (v + h) / m;
    assert v - ((v + h) % m - h) == q * m;
    RemainderIs(q * m, m, q, 0);
  }

  lemma IntegerShown(d: Directive, v: int) returns (n: int, digits: string)
    requires Spelled(d) && IsInteger(d.conversion) && d.length != "ll"
    ensures var signed := d.conversion in {'d', 'i'};
            && Denotes(n, v, signed, d.length)
            && Shows(IntegerText(d.conversion, v, FlagsOf(d), WidthOf(d), PrecisionOf(d)), digits,
                           SignOf(n, signed, d.flags), if n < 0 then -n else n, BaseOf(d.conversion),
                           WidthOf(d), PrecisionOf(d), NumberFlags(d))
  {
    hide Shows, NumberText, Denotes, OnTheLeft, FieldNumber, SizeOf;
    var c, f := d.conversion, FlagsOf(d);
    var f' := IntegerFlags(c, f);
    ArgumentDenotes(v, f, d.length);
    var signed := c in {'d', 'i'};
    n := if signed then SignedArg(v, f) else UnsignedArg(v, f);
    digits := EachNumberPrinted(if n < 0 then -n else n, n < 0, Base(c), PrecisionOf(d), WidthOf(d), f');
    ShowsAlike(IntegerText(c, v, f, WidthOf(d), PrecisionOf(d)), digits, SignOf(n, signed, d.flags), if n < 0 then -n else n,
               BaseOf(c), WidthOf(d), PrecisionOf(d), f', NumberFlags(d));
  }

  /**
   An integer directive prints its argument in the type that its length names, in the base of its
   conversion, with the sign and the padding that its flags ask for.
   */
  lemma IntegerDirective(d: Directive, v: int, rest: string, args: seq<Arg>) returns (n: int, digits: string, text: string)
    requires Spelled(d) && IsInteger(d.conversion) && d.length != "ll" && Supported(rest, args)
    ensures Supported(Format(d, rest), Arguments(d, [Int(v)], args))
    ensures Render(Format(d, rest), Arguments(d, [Int(v)], args)) == text + Render(rest, args)
    ensures var signed := d.conversion in {'d', 'i'};
            && Denotes(n, v, signed, d.length)
            && Shows(text, digits, SignOf(n, signed, d.flags), if n < 0 then -n else n, BaseOf(d.conversion),
                           WidthOf(d), PrecisionOf(d), NumberFlags(d))
  {
    hide Shows, IntegerText, Denotes, Render, Supported, Format, Arguments, WidthOf, PrecisionOf, NumberFlags;
    var g := RenderDirective(d, [Int(v)], rest, args);
    n, digits := IntegerShown(d, v);
    text := Conversion(g);
  }

  /** A string, or as much of it as the precision allows, in its field. */
  lemma StringDirective(d: Directive, s: string, rest: string, args: seq<Arg>) returns (text: string)
    requires Spelled(d) && d.conversion == 's' && Supported(rest, args)
    requires forall i :: 0 <= i < |s| ==> s[i] != NUL
    ensures Supported(Format(d, rest), Arguments(d, [Str(s)], args))
    ensures Render(Format(d, rest), Arguments(d, [Str(s)], args)) == text + Render(rest, args)
    ensures Fills(text, if !d.precision.Absent? && PrecisionOf(d) < |s| then s[..PrecisionOf(d)] else s, WidthOf(d), OnTheLeft(d))
  {
    hide Render, Supported, Format, Arguments, WidthOf, PrecisionOf, OnTheLeft;
    var g := RenderDirective(d, [Str(s)], rest, args);
    text := Conversion(g);
  }

  /** The character whose code is the argument modulo 256, in its field. */
  lemma CharDirective(d: Directive, v: int, rest: string, args: seq<Arg>) returns (c: char, text: string)
    requires Spelled(d) && d.conversion == 'c' && Supported(rest, args)
    ensures Supported(Format(d, rest), Arguments(d, [Int(v)], args))
    ensures Render(Format(d, rest), Arguments(d, [Int(v)], args)) == text + Render(rest, args)
    ensures c as int == v % 0x100 && Fills(text, [c], WidthOf(d), OnTheLeft(d))
  {
    hide Render, Supported, Format, Arguments, WidthOf, OnTheLeft;
    var g := RenderDirective(d, [Int(v)], rest, args);
    text := Conversion(g);
    c := (v % 0x100) as char;
  }

  /** An address is printed in sixteen places, with zeros in front and capital digits. */
  lemma PointerDirective(d: Directive, v: int, rest: string, args: seq<Arg>) returns (digits: string, text: string)
    requires Spelled(d) && d.conversion == 'p' && Supported(rest, args)
    ensures Supported(Format(d, rest), Arguments(d, [Int(v)], args))
    ensures Render(Format(d, rest), Arguments(d, [Int(v)], args)) == text + Render(rest, args)
    ensures Shows(text, digits, SignOf(0, true, d.flags), v % U64, 16, 16, PrecisionOf(d),
                        NumberFlags(d).(zeropad := true, uppercase := true))
  {
    hide Render, Supported, Format, Arguments, PrecisionOf, OnTheLeft, NumberText, Shows;
    var g := RenderDirective(d, [Int(v)], rest, args);
    text := Conversion(g);
    var f := FlagsOf(d).(zeropad := true, uppercase := true);
    digits := EachNumberPrinted(v % U64, false, 16, PrecisionOf(d), 16, f);
    ShowsAlike(text, digits, SignOf(0, true, d.flags), v % U64, 16, 16, PrecisionOf(d), f,
               NumberFlags(d).(zeropad := true, uppercase := true));
  }

  /**
   Any other character, as in "%%", stands for itself, and an integer conversion with ll prints nothing.
   Neither takes an argument.
   */
  lemma BareDirective(d: Directive, rest: string, args: seq<Arg>)
    requires Spelled(d) && Supported(rest, args) && d.conversion !in {'s', 'c', 'p'}
    requires IsInteger(d.conversion) ==> d.length == "ll"
    ensures Supported(Format(d, rest), Arguments(d, [], args))
    ensures Render(Format(d, rest), Arguments(d, [], args)) ==
            (if d.conversion in {'d', 'i', 'u', 'x', 'X', 'o', 'b'} then "" else [d.conversion]) + Render(rest, args)
  {
    hide Render, Supported, Format, Arguments;
    var g := RenderDirective(d, [], rest, args);
  }
}
