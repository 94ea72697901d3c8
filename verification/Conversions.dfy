/**
 The number conversions of src/utilities.c, on character buffers. The conversions from
 unsigned numbers are the same code at two widths, and no operation in them can overflow,
 so one method stands for both; likewise for the signed ones.
 */
module Conversions {
  import opened CInts
  import opened Numerals

  // ---- C strings ------------------------------------------------------------------------------

  /** The C string in a buffer: the characters before the first NUL. */
  function CString(buffer: seq<char>): (s: string)
    ensures |s| <= |buffer| && s == buffer[..|s|]
    ensures forall i :: 0 <= i < |s| ==> s[i] != NUL
    ensures |s| < |buffer| ==> buffer[|s|] == NUL
  {
    if buffer == [] || buffer[0] == NUL then "" else [buffer[0]] + CString(buffer[1..])
  }

  lemma CStringOf(buffer: seq<char>, s: string)
    requires |s| < |buffer| && buffer[..|s|] == s && buffer[|s|] == NUL
    requires forall i :: 0 <= i < |s| ==> s[i] != NUL
    ensures CString(buffer) == s
  {
    hide CString;
    assert forall i :: 0 <= i < |s| ==> buffer[i] == buffer[..|s|][i];
    assert |CString(buffer)| == |s|;
  }

  method StrLen(str: array<char>) returns (n: nat)
    requires NUL in str[..]
    ensures n == |CString(str[..])| < str.Length
  {
    n := 0;
    assert str[0..] == str[..];
    while str[n] != NUL
      invariant 0 <= n < str.Length && NUL in str[n..]
      invariant |CString(str[..])| == n + |CString(str[n..])|
      decreases str.Length - n
    {
      assert str[n..][1..] == str[n + 1..];
      n := n + 1;
    }
  }

  // ---- Printing ---------------------------------------------------------------------------------

  /** The two-pointer loop that turns str[..n] around in place. */
  method ReversePrefix(str: array<char>, n: nat)
    requires 0 < n <= str.Length
    modifies str
    ensures str[..n] == Reversed(old(str[..n]))
    ensures str[n..] == old(str[n..])
  {
    ghost var was := str[..n];
    var front, end := 0, n - 1;
    while front < end
      invariant 0 <= front && end == n - 1 - front && front <= end + 1
      invariant forall i :: 0 <= i < front || end < i < n ==> str[i] == was[n - 1 - i]
      invariant forall i :: front <= i <= end ==> str[i] == was[i]
      invariant str[n..] == old(str[n..])
    {
      var tmp := str[front];
      str[front] := str[end];
      str[end] := tmp;
      front := front + 1;
      end := end - 1;
    }
    forall i | 0 <= i < n ensures str[..n][i] == Reversed(was)[i] {
      ReversedAt(was, i);
    }
  }

  /** u32_to_cstring and u64_to_cstring */
  method UnsignedToCString(number: nat, str: array<char>, base: int)
    requires 2 <= base && |Numeral(number, base, 'A')| < str.Length
    modifies str
    ensures var text := Numeral(number, base, 'A');
            && str[..|text|] == text && str[|text|] == NUL
            && str[|text| + 1..] == old(str[|text| + 1..])
  {
    hide LowFirst, Reversed;
    if number == 0 {
      str[0] := '0';
      str[1] := NUL;
      return;
    }
    var i := EmitLowFirst(number, str, base);
    assert str[i + 1..] == str[i..][1..] == old(str[i..])[1..] == old(str[i + 1..]);
    TurnAround(str, i);
  }

  /** Turns the stored characters around and puts the terminator behind them. */
  method TurnAround(str: array<char>, n: nat)
    requires 0 < n < str.Length
    modifies str
    ensures str[..n] == Reversed(old(str[..n])) && str[n] == NUL
    ensures str[n + 1..] == old(str[n + 1..])
  {
    hide Reversed;
    ReversePrefix(str, n);
    assert str[n + 1..] == str[n..][1..] == old(str[n..])[1..] == old(str[n + 1..]);
    ghost var turned := str[..];
    str[n] := NUL;
    assert str[..] == turned[n := NUL];
    assert str[..n] == turned[..n] && str[n + 1..] == turned[n + 1..];
  }

  /** What the source stores for a remainder, which is negative for a negative number. */
  function RemainderChar(r: int): (c: char) {
    if r > 9 then ((r - 10 + 'A' as int) % 0x100) as char else ((r + '0' as int) % 0x100) as char
  }

  /** The digits of n, lowest first, each digit d as the character d places below '0'. */
  function DownFromZero(n: nat, base: int): (s: string)
    requires 2 <= base
  {
    if n == 0 then ""
    else
      DividesLess(n, base);
      [(('0' as int - n % base) % 0x100) as char] + DownFromZero(n / base, base)
  }

  /** The stored characters of a number, lowest first. */
  function LowDigits(n: int, base: int): (s: string)
    requires 2 <= base
  {
    if n >= 0 then LowFirst(n, base, 'A') else DownFromZero(-n, base)
  }

  /** The digit loop, which leaves the digits lowest first. */
  method EmitLowFirst(number: int, str: array<char>, base: int) returns (i: nat)
    requires 2 <= base && number != 0 && |LowDigits(number, base)| < str.Length
    modifies str
    ensures i == |LowDigits(number, base)| > 0
    ensures str[..i] == LowDigits(number, base) && str[i..] == old(str[i..])
  {
    hide LowDigits, RemainderChar;
    ghost var low := LowDigits(number, base);
    i := 0;
    var rest := number;
    LowDigitsStep(number, base);
    while rest != 0
      invariant 0 <= i <= |low|
      invariant low == str[..i] + LowDigits(rest, base)
      invariant str[|low|..] == old(str[|low|..])
      decreases Magnitude(rest)
    {
      LowDigitsStep(rest, base);
      ghost var emitted := str[..i];
      var remainder := Remainder(rest, base);
      str[i] := RemainderChar(remainder);
      assert str[..i + 1] == emitted + [RemainderChar(remainder)];
      i := i + 1;
      rest := Quotient(rest, base);
    }
    NoDigits(base);
  }

  lemma NoDigits(base: int)
    requires 2 <= base
    ensures LowDigits(0, base) == ""
  {
  }

  lemma LowDigitsStep(n: int, base: int)
    requires 2 <= base && n != 0
    ensures Magnitude(Quotient(n, base)) < Magnitude(n)
    ensures LowDigits(n, base) == [RemainderChar(Remainder(n, base))] + LowDigits(Quotient(n, base), base)
  {
    hide DigitChar;
    var m := Magnitude(n);
    DividesLess(m, base);
    var q, r := m / base, m % base;
    RemainderStored(r);
    if n > 0 {
      assert Quotient(n, base) == q && Remainder(n, base) == r;
    } else {
      assert Quotient(n, base) == -q && Remainder(n, base) == -r;
      assert LowDigits(-q, base) == DownFromZero(q, base);
    }
  }

  lemma RemainderStored(r: int)
    requires 0 <= r
    ensures RemainderChar(r) == DigitChar(r, 'A') && RemainderChar(-r) == (('0' as int - r) % 0x100) as char
  {
  }

  function Magnitude(n: int): (m: nat) { if n < 0 then -n else n }

  /** In other bases than 10 the digits of a negative number count down from '0', and there is no sign. */
  function SignedText(n: int, base: int): (s: string)
    requires 2 <= base
  {
    if n >= 0 then Numeral(n, base, 'A')
    else if base == 10 then "-" + Numeral(-n, 10, 'A')
    else Reversed(DownFromZero(-n, base))
  }

  /** The decimal text of an integer. */
  function SignedNumeral(n: int): (s: string) { SignedText(n, 10) }

  /** A number of an int type that can be printed: in base 10 the least one cannot be negated. */
  predicate Printable(n: int, base: int, least: int) {
    if base == 10 then least < n <= -(least + 1) else least <= n <= -(least + 1)
  }

  /** i32_to_cstring and i64_to_cstring, which differ in the range of their numbers only. */
  method SignedToCString(number: int, str: array<char>, base: int, ghost least: int)
    requires least in {I32_MIN, I64_MIN} && Printable(number, base, least)
    requires 2 <= base && |SignedText(number, base)| < str.Length
    modifies str
    ensures var text := SignedText(number, base);
            && str[..|text|] == text && str[|text|] == NUL
            && str[|text| + 1..] == old(str[|text| + 1..])
  {
    hide LowFirst, Reversed, LowDigits, SignedText;
    SignedTextIs(number, base);
    if number == 0 {
      str[0] := '0';
      str[1] := NUL;
      return;
    }
    var negative := number < 0 && base == 10;
    var rest := if negative then -number else number;
    var i := EmitLowFirst(rest, str, base);
    ghost var emitted := str[..];
    if negative {
      str[i] := '-';
      i := i + 1;
    }
    assert str[..i] == LowDigits(rest, base) + if negative then "-" else "";
    assert forall j :: i <= j < str.Length ==> str[j] == emitted[j] == old(str[..])[j] by {
      assert forall j :: |LowDigits(rest, base)| <= j < str.Length ==>
                emitted[j] == emitted[|LowDigits(rest, base)|..][j - |LowDigits(rest, base)|];
    }
    TurnAround(str, i);
    assert |SignedText(number, base)| == i;
  }

  lemma SignedTextIs(n: int, base: int)
    requires 2 <= base
    ensures n == 0 ==> SignedText(n, base) == "0"
    ensures n != 0 ==>
              var negative := n < 0 && base == 10;
              SignedText(n, base) == Reversed(LowDigits(if negative then -n else n, base) + if negative then "-" else "")
  {
    hide LowFirst, Reversed, DownFromZero;
    var low := LowDigits(if n < 0 && base == 10 then -n else n, base);
    SignReversed(low);
    assert low + "" == low;
  }

  /** The text is the sign and the numeral exactly if the number is not negative or the base is 10. */
  lemma SignedTextIsNumeral(n: int, base: int)
    requires 2 <= base
    ensures SignedText(n, base) == (if n < 0 then "-" else "") + Numeral(Magnitude(n), base, 'A') <==> n >= 0 || base == 10
  {
    hide LowFirst, Reversed;
    if n < 0 {
      SameLength(-n, base);
    }
  }

  lemma {:induction false} SameLength(n: nat, base: int)
    requires 2 <= base
    ensures |DownFromZero(n, base)| == |LowFirst(n, base, 'A')|
  {
    if n == 0 {
    } else {
      DividesLess(n, base);
      SameLength(n / base, base);
    }
  }

  /** In bases up to 36, position by position: where the numeral of -n has the digit d, n's text has '0' - d. */
  lemma {:induction false} DigitsCountDown(n: nat, base: int, i: nat)
    requires 2 <= base <= 36 && i < |LowFirst(n, base, 'A')|
    ensures |DownFromZero(n, base)| == |LowFirst(n, base, 'A')|
    ensures DownFromZero(n, base)[i] as int == '0' as int - DigitValue(LowFirst(n, base, 'A')[i])
    decreases n
  {
    SameLength(n, base);
    DividesLess(n, base);
    if i == 0 {
      DigitRoundTrip(n % base, 'A');
    } else {
      DigitsCountDown(n / base, base, i - 1);
    }
  }

  /** The same for the texts: a negative number in a base other than 10. */
  lemma NegativeDigit(n: int, base: int, i: nat)
    requires n < 0 && 2 <= base <= 36 && base != 10 && i < |SignedText(n, base)|
    ensures |SignedText(n, base)| == |Numeral(-n, base, 'A')|
    ensures SignedText(n, base)[i] as int == '0' as int - DigitValue(Numeral(-n, base, 'A')[i])
  {
    hide LowFirst, DownFromZero;
    SameLength(-n, base);
    var low, down := LowFirst(-n, base, 'A'), DownFromZero(-n, base);
    ReversedAt(low, i);
    ReversedAt(down, i);
    DigitsCountDown(-n, base, |low| - 1 - i);
  }

  /** For instance -31 in base 16, one sixteen and fifteen, comes out as the characters 1 and 15 below '0'. */
  lemma MinusThirtyOne()
    ensures SignedText(-31, 16) == "/!"
  {
    assert DownFromZero(31, 16) == "!/";
    assert Reversed("!/") == "/!" by { assert "!/"[1..] == "/"; }
  }

  lemma SignReversed(low: string)
    ensures Reversed(low + "-") == "-" + Reversed(low)
  {
    ReversedAppend(low, "-");
    assert Reversed("-") == "-";
  }

  // ---- Parsing ------------------------------------------------------------------------------------

  /** What the parsers make of any text: the distance of each character from '0', by Horner's rule. */
  function Horner(s: string): (v: int) {
    if s == "" then 0 else Horner(s[..|s| - 1]) * 10 + (s[|s| - 1] as int - '0' as int)
  }

  /** On a numeral that is its value. */
  lemma {:induction false} HornerIsValue(s: string)
    requires IsNumeral(s)
    ensures Horner(s) == Value(s, 10)
  {
    if s == "" {
    } else {
      HornerIsValue(s[..|s| - 1]);
    }
  }

  lemma HornerStep(s: string, k: int)
    requires 0 <= k < |s|
    ensures Horner(s[..k + 1]) == Horner(s[..k]) * 10 + (s[k] as int - '0' as int)
  {
    assert s[..k + 1][..k] == s[..k];
  }

  lemma HornerOfNothing()
    ensures Horner("") == 0
  {
  }

  /** cstring_to_u32, which takes any text and wraps around silently. */
  method CStringToU32(str: array<char>) returns (value: int)
    requires NUL in str[..]
    ensures value == Horner(CString(str[..])) % U32
  {
    hide Horner, CString;
    ghost var s := CString(str[..]);
    var n := StrLen(str);
    assert forall i :: 0 <= i < n ==> str[i] == s[i];
    value := 0;
    var i := 0;
    HornerOfNothing();
    assert s[..0] == "";
    while i < n
      invariant 0 <= i <= n && value == Horner(s[..i]) % U32
    {
      HornerStep(s, i);
      WrapStep(Horner(s[..i]), str[i] as int - '0' as int);
      value := (value * 10 + (str[i] as int - '0' as int)) % U32;
      i := i + 1;
    }
    assert s[..n] == s;
  }

  lemma WrapStep(v: int, d: int)
    ensures (v % U32 * 10 + d) % U32 == (v * 10 + d) % U32
  {
  }

  /** What cstring_to_i32 makes of a text with an optional minus sign. */
  function SignedValue(s: string): (v: int) {
    if s != "" && s[0] == '-' then -Horner(s[1..]) else Horner(s)
  }

  /** The digits of a text without its sign. */
  function Unsigned(s: string): (t: string) {
    if s != "" && s[0] == '-' then s[1..] else s
  }

  /** No step of cstring_to_i32 leaves the range of int: no product, no sum, and not the change of sign. */
  ghost predicate NoOverflow(s: string) {
    var digits := Unsigned(s);
    && (forall k :: 0 <= k <= |digits| ==> I32_MIN <= Horner(digits[..k]) <= I32_MAX)
    && (forall k :: 0 <= k < |digits| ==> I32_MIN <= Horner(digits[..k]) * 10 <= I32_MAX)
    && (digits != s ==> Horner(digits) != I32_MIN)
  }

  /** cstring_to_i32; signed overflow is undefined, so the caller owes it a text without. */
  method CStringToI32(str: array<char>) returns (value: int)
    requires NUL in str[..] && NoOverflow(CString(str[..]))
    ensures value == SignedValue(CString(str[..]))
  {
    hide Horner, CString;
    ghost var s := CString(str[..]);
    ghost var digits := Unsigned(s);
    var n := StrLen(str);
    assert forall i :: 0 <= i < n ==> str[i] == s[i];
    assert n == 0 ==> str[0] == NUL;
    value := 0;
    var i := 0;
    if str[i] == '-' {
      i := i + 1;
    }
    ghost var sign := i;
    HornerOfNothing();
    assert digits[..0] == "";
    while i < n
      invariant sign <= i <= n && value == Horner(digits[..i - sign])
    {
      HornerStep(digits, i - sign);
      assert I32_MIN <= value * 10 <= I32_MAX;
      value := value * 10 + (str[i] as int - '0' as int);
      assert I32_MIN <= value <= I32_MAX;
      i := i + 1;
    }
    assert digits[..n - sign] == digits;
    if str[0] == '-' {
      assert value != I32_MIN;
      value := value * -1;
    }
  }

  /** A numeral whose value is an int overflows nowhere on the way. */
  lemma NumeralFits(s: string)
    requires IsNumeral(Unsigned(s)) && Value(Unsigned(s), 10) <= I32_MAX
    ensures NoOverflow(s)
  {
    hide Value, Horner;
    var digits := Unsigned(s);
    HornerIsValue(digits);
    NonNegative(digits);
    forall k | 0 <= k <= |digits| ensures 0 <= Horner(digits[..k]) <= I32_MAX {
      HornerIsValue(digits[..k]);
      PrefixValue(digits, k);
    }
    forall k | 0 <= k < |digits| ensures 0 <= Horner(digits[..k]) * 10 <= I32_MAX {
      HornerStep(digits, k);
      assert 0 <= Horner(digits[..k + 1]) <= I32_MAX;
    }
  }

  // ---- Round trips -----------------------------------------------------------------------------------

  /** Parsing what was printed gives every u32 back, and the parser's sum never passes the number on the way. */
  lemma UnsignedRoundTrip(n: nat, buffer: seq<char>)
    requires n < U32
    requires var text := Numeral(n, 10, 'A'); |text| < |buffer| && buffer[..|text|] == text && buffer[|text|] == NUL
    ensures CString(buffer) == Numeral(n, 10, 'A')
    ensures Horner(CString(buffer)) % U32 == n
    ensures forall k :: 0 <= k <= |CString(buffer)| ==> 0 <= Horner(CString(buffer)[..k]) <= n
  {
    hide Numeral, Value, Horner, CString;
    var text := Numeral(n, 10, 'A');
    DecimalNumeral(n);
    CStringOf(buffer, text);
    NumeralValue(n, 10, 'A');
    HornerIsValue(text);
    forall k | 0 <= k <= |text| ensures 0 <= Horner(text[..k]) <= n {
      PrefixValue(text, k);
      HornerIsValue(text[..k]);
    }
  }

  /** The same for every i32 but the least, with the sign. */
  lemma SignedRoundTrip(n: int, buffer: seq<char>)
    requires I32_MIN < n <= I32_MAX
    requires var text := SignedNumeral(n); |text| < |buffer| && buffer[..|text|] == text && buffer[|text|] == NUL
    ensures CString(buffer) == SignedNumeral(n)
    ensures NoOverflow(CString(buffer))
    ensures SignedValue(CString(buffer)) == n
  {
    var digits := Numeral(Magnitude(n), 10, 'A');
    DecimalNumeral(Magnitude(n));
    NumeralValue(Magnitude(n), 10, 'A');
    CStringOf(buffer, SignedNumeral(n));
    assert n < 0 ==> SignedNumeral(n)[1..] == digits;
    NumeralNotEmpty(Magnitude(n));
    NumeralFits(SignedNumeral(n));
    HornerIsValue(digits);
  }

  lemma NumeralNotEmpty(n: nat)
    ensures Numeral(n, 10, 'A') != ""
  {
  }
}
