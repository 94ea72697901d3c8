/**
 Numerals: the text of a number in a base, most significant digit first, and the value
 of a text. Both the conversions of src/utilities.c and the printer of src/printf.c produce
 the digits lowest first and turn them around.
 */
module Numerals {

  const NUL: char := 0 as char

  /** The letter for a digit, with 'A' or 'a' for ten; an eight-bit character, also when the letters run out. */
  function DigitChar(d: int, ten: char): (c: char)
    requires 0 <= d && ten in {'A', 'a'}
    ensures d < 10 ==> c == '0' + d as char
    ensures 10 <= d < 36 ==> c == ten + (d - 10) as char
  {
    if d > 9 then ((d - 10 + ten as int) % 0x100) as char else '0' + d as char
  }

  function DigitValue(c: char): (d: int) {
    if '0' <= c <= '9' then c as int - '0' as int
    else if 'A' <= c <= 'Z' then c as int - 'A' as int + 10
    else c as int - 'a' as int + 10
  }

  lemma DigitRoundTrip(d: int, ten: char)
    requires 0 <= d < 36 && ten in {'A', 'a'}
    ensures DigitValue(DigitChar(d, ten)) == d
  {
  }

  /** The digits lowest first, without a leading zero; nothing for zero. */
  function LowFirst(n: nat, base: int, ten: char): (s: string)
    requires 2 <= base && ten in {'A', 'a'}
  {
    if n == 0 then ""
    else
      DividesLess(n, base);
      [DigitChar(n % base, ten)] + LowFirst(n / base, base, ten)
  }

  function Reversed(s: string): (r: string)
    ensures |r| == |s|
  {
    if s == "" then "" else Reversed(s[1..]) + [s[0]]
  }

  lemma {:induction false} ReversedAt(s: string, k: int)
    requires 0 <= k < |s|
    ensures Reversed(s)[k] == s[|s| - 1 - k]
  {
    if k == |s| - 1 {
    } else {
      ReversedAt(s[1..], k);
    }
  }

  lemma {:induction false} ReversedAppend(s: string, t: string)
    ensures Reversed(s + t) == Reversed(t) + Reversed(s)
  {
    if s == "" {
      assert s + t == t;
    } else {
      ReversedAppend(s[1..], t);
      assert (s + t)[1..] == s[1..] + t;
    }
  }

  /** The text of n: "0" for zero, no leading zero otherwise. */
  function Numeral(n: nat, base: int, ten: char): (s: string)
    requires 2 <= base && ten in {'A', 'a'}
  {
    if n == 0 then "0" else Reversed(LowFirst(n, base, ten))
  }

  /** The value of a text, by Horner's rule. */
  function Value(s: string, base: int): (v: int) {
    if s == "" then 0 else Value(s[..|s| - 1], base) * base + DigitValue(s[|s| - 1])
  }

  lemma ValueSnoc(s: string, c: char, base: int)
    ensures Value(s + [c], base) == Value(s, base) * base + DigitValue(c)
  {
  }

  lemma {:induction false} ReversedLowFirstValue(n: nat, base: int, ten: char)
    requires 2 <= base <= 36 && ten in {'A', 'a'}
    ensures Value(Reversed(LowFirst(n, base, ten)), base) == n
    decreases n
  {
    if n == 0 {
    } else {
      DividesLess(n, base);
      ReversedLowFirstValue(n / base, base, ten);
      ValueSnoc(Reversed(LowFirst(n / base, base, ten)), DigitChar(n % base, ten), base);
      assert LowFirst(n, base, ten)[1..] == LowFirst(n / base, base, ten);
      DigitRoundTrip(n % base, ten);
    }
  }

  lemma DividesLess(n: nat, base: int)
    requires n > 0 && base >= 2
    ensures 0 <= n / base < n && n == n / base * base + n % base
  {
  }

  /** The text of a number denotes that number. */
  lemma NumeralValue(n: nat, base: int, ten: char)
    requires 2 <= base <= 36 && ten in {'A', 'a'}
    ensures Value(Numeral(n, base, ten), base) == n
  {
    if n == 0 {
      ValueSnoc("", '0', base);
      assert "" + ['0'] == "0";
    } else {
      ReversedLowFirstValue(n, base, ten);
    }
  }

  predicate IsNumeral(s: string) {
    forall i :: 0 <= i < |s| ==> '0' <= s[i] <= '9'
  }

  lemma {:induction false} LowFirstDecimal(n: nat)
    ensures IsNumeral(LowFirst(n, 10, 'A'))
  {
    if n == 0 {
    } else {
      LowFirstDecimal(n / 10);
    }
  }

  /** Numbers below base^k have at most k digits. */
  lemma {:induction false} LowFirstLength(n: nat, base: int, ten: char, k: nat, power: int)
    requires 2 <= base <= 36 && ten in {'A', 'a'} && power == Power(base, k) && n < power
    ensures |LowFirst(n, base, ten)| <= k
    decreases k
  {
    hide DigitChar;
    if n == 0 {
    } else {
      var p := Power(base, k - 1);
      DividesLess(n, base);
      QuotientBelow(n, base, p);
      LowFirstLength(n / base, base, ten, k - 1, p);
    }
  }

  lemma QuotientBelow(n: nat, base: int, p: int)
    requires base >= 2 && n < base * p
    ensures n / base < p
  {
  }

  /** The highest digit is not zero. */
  lemma {:induction false} TopDigit(n: nat, base: int, ten: char)
    requires n > 0 && 2 <= base <= 36 && ten in {'A', 'a'}
    ensures var low := LowFirst(n, base, ten); low != "" && low[|low| - 1] != '0'
    decreases n
  {
    DividesLess(n, base);
    if n < base {
      SmallQuotient(n, base);
    } else {
      SmallQuotient(n, base);
      TopDigit(n / base, base, ten);
    }
  }

  lemma SmallQuotient(n: nat, base: int)
    requires 0 < base
    ensures n < base ==> n / base == 0 && n % base == n
    ensures n >= base ==> n / base > 0
  {
  }

  lemma Monotone(base: int, p: int, q: int)
    requires 0 <= base && p <= q
    ensures base * p <= base * q
  {
  }

  function Power(base: int, k: nat): (p: int) {
    if k == 0 then 1 else base * Power(base, k - 1)
  }

  lemma PowerStep(base: int, n: nat)
    requires n > 0
    ensures Power(base, n) == base * Power(base, n - 1)
  {
  }

  lemma EmptyNumeral(base: int)
    ensures Value("", base) == 0 && Power(base, 0) == 1
  {
  }

  /** The last |s| - k digits count what they denote, the others a power of the base as much. */
  lemma {:induction false} SplitValue(s: string, k: nat, base: int)
    requires k <= |s|
    ensures Value(s, base) == Value(s[..k], base) * Power(base, |s| - k) + Value(s[k..], base)
    decreases |s|
  {
    hide Value, Power;
    EmptyNumeral(base);
    if k == |s| {
      assert s[..k] == s && s[k..] == "";
    } else {
      var n := |s| - 1;
      var t := s[..n];
      SplitValue(t, k, base);
      assert s == t + [s[n]] && t[..k] == s[..k] && s[k..] == t[k..] + [s[n]];
      ValueSnoc(t, s[n], base);
      ValueSnoc(t[k..], s[n], base);
      PowerStep(base, |s| - k);
      ShiftOne(Value(s[..k], base), Power(base, n - k), Value(t[k..], base), base);
    }
  }

  lemma ShiftOne(a: int, p: int, b: int, base: int)
    ensures (a * p + b) * base == a * (base * p) + b * base
  {
  }

  lemma DecimalNumeral(n: nat)
    ensures IsNumeral(Numeral(n, 10, 'A'))
  {
    LowFirstDecimal(n);
    var low := LowFirst(n, 10, 'A');
    forall i | 0 <= i < |low| ensures '0' <= Reversed(low)[i] <= '9' {
      ReversedAt(low, i);
    }
  }

  /** Reading a numeral from the left never exceeds its value. */
  lemma {:induction false} PrefixValue(s: string, k: int)
    requires IsNumeral(s) && 0 <= k <= |s|
    ensures 0 <= Value(s[..k], 10) <= Value(s, 10)
  {
    if k == |s| {
      assert s[..k] == s;
      NonNegative(s);
    } else {
      var t := s[..|s| - 1];
      PrefixValue(t, k);
      assert t[..k] == s[..k];
    }
  }

  lemma {:induction false} NonNegative(s: string)
    requires IsNumeral(s)
    ensures 0 <= Value(s, 10)
  {
    if s == "" {
    } else {
      NonNegative(s[..|s| - 1]);
    }
  }
}
