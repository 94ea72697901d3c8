/**
 What the formatted printer of src/printf.c prints, as text without any bound: the integer,
 character, string and pointer conversions. Floating point and long long are compiled out there
 (src/printf.h), so a directive with ll prints nothing.
 */
module PrintfModel {
  import opened CInts
  import opened Numerals

  const NTOA_BUFFER: nat := 32

  /** The length field of a directive: none, hh, h, l (or t, j, z), ll. */
  datatype Size = Plain | Char8 | Short | Long | LongLong

  datatype Flags = Flags(zeropad: bool, left: bool, plus: bool, space: bool, hash: bool, uppercase: bool,
                         precision: bool, size: Size)

  const NO_FLAGS: Flags := Flags(false, false, false, false, false, false, false, Plain)

  function Repeat(c: char, n: int): (s: string)
    ensures |s| == if n > 0 then n else 0
    ensures forall i :: 0 <= i < |s| ==> s[i] == c
  {
    if n <= 0 then "" else Repeat(c, n - 1) + [c]
  }

  function Ten(f: Flags): (c: char) {
    if f.uppercase then 'A' else 'a'
  }

  // ---- One number ---------------------------------------------------------------------------------

  /** The digits as _ntoa_long stores them: lowest first, at most 32 of them, none for a zero with a precision. */
  function StoredDigits(value: nat, base: int, f: Flags): (s: string)
    requires 2 <= base <= 36
    ensures |s| <= NTOA_BUFFER
  {
    var all := if value == 0 then (if f.precision then "" else "0") else LowFirst(value, base, Ten(f));
    if |all| <= NTOA_BUFFER then all else all[..NTOA_BUFFER]
  }

  /** Zeros stored behind the digits until there are n characters or the buffer is full. */
  function ZeroPadded(b: string, n: int): (s: string)
    requires |b| <= NTOA_BUFFER
    ensures |b| <= |s| <= NTOA_BUFFER
  {
    b + Repeat('0', (if n < NTOA_BUFFER then n else NTOA_BUFFER) - |b|)
  }

  /** A sign takes one place of a zero-padded field. */
  function DigitWidth(negative: bool, width: int, f: Flags): (w: int) {
    if !f.left && width > 0 && f.zeropad && (negative || f.plus || f.space) then width - 1 else width
  }

  function Body(b: string, negative: bool, prec: int, width: int, f: Flags): (s: string)
    requires |b| <= NTOA_BUFFER
    ensures |s| <= NTOA_BUFFER
  {
    if f.left then b
    else ZeroPadded(ZeroPadded(b, prec), if f.zeropad then DigitWidth(negative, width, f) else 0)
  }

  /** The prefix that '#' asks for, stored behind the digits; it can cost leading characters. */
  function Hashed(b: string, base: int, prec: int, width: int, f: Flags): (s: string)
    requires |b| <= NTOA_BUFFER
    ensures |s| <= NTOA_BUFFER
    ensures !f.hash ==> s == b
  {
    if !f.hash then b
    else
      var cut := if !f.precision && |b| > 0 && (|b| == prec || |b| == width)
                 then (if |b| > 1 && base == 16 then |b| - 2 else |b| - 1) else |b|;
      var b1 := b[..cut];
      var b2 := if base == 16 && |b1| < NTOA_BUFFER then b1 + [if f.uppercase then 'X' else 'x']
                else if base == 2 && |b1| < NTOA_BUFFER then b1 + "b" else b1;
      if |b2| < NTOA_BUFFER then b2 + "0" else b2
  }

  function Sign(negative: bool, f: Flags): (s: string)
    ensures |s| <= 1
  {
    if negative then "-" else if f.plus then "+" else if f.space then " " else ""
  }

  /** The sign goes last, if the buffer has room for it. */
  function WithSign(b: string, negative: bool, f: Flags): (s: string)
    requires |b| <= NTOA_BUFFER
    ensures |s| <= NTOA_BUFFER
  {
    if |b| < NTOA_BUFFER then b + Sign(negative, f) else b
  }

  /** The stored characters turned around and aligned in the field: _out_rev. */
  function Aligned(b: string, width: int, f: Flags): (s: string) {
    (if !f.left && !f.zeropad then Repeat(' ', width - |b|) else "") + Reversed(b) +
    (if f.left then Repeat(' ', width - |b|) else "")
  }

  /** _ntoa_format */
  function Formatted(b: string, negative: bool, base: int, prec: int, width: int, f: Flags): (s: string)
    requires |b| <= NTOA_BUFFER
  {
    var w := DigitWidth(negative, width, f);
    Aligned(WithSign(Hashed(Body(b, negative, prec, width, f), base, prec, w, f), negative, f), w, f)
  }

  /** _ntoa_long */
  function NumberText(value: nat, negative: bool, base: int, prec: int, width: int, f: Flags): (s: string)
    requires 2 <= base <= 36
  {
    var f' := if value == 0 then f.(hash := false) else f;
    Formatted(StoredDigits(value, base, f'), negative, base, prec, width, f')
  }

  // ---- What a printed number means ---------------------------------------------------------------------

  /** Zeros in front of a number, or behind the reversed one, change no value. */
  lemma {:induction false} LeadingZeros(n: nat, s: string, base: int)
    ensures Value(Repeat('0', n) + s, base) == Value(s, base)
    decreases |s|, n
  {
    if s != "" {
      var t := s[..|s| - 1];
      LeadingZeros(n, t, base);
      assert Repeat('0', n) + s == Repeat('0', n) + t + [s[|s| - 1]];
      ValueSnoc(Repeat('0', n) + t, s[|s| - 1], base);
    } else {
      assert Repeat('0', n) + s == Repeat('0', n);
      if n > 0 {
        LeadingZeros(n - 1, "", base);
        assert Repeat('0', n - 1) + "" == Repeat('0', n - 1);
        ValueSnoc(Repeat('0', n - 1), '0', base);
      }
    }
  }

  lemma {:induction false} ReversedRepeat(c: char, n: int)
    ensures Reversed(Repeat(c, n)) == Repeat(c, n)
  {
    var s := Repeat(c, n);
    forall k | 0 <= k < |s| ensures Reversed(s)[k] == s[k] {
      ReversedAt(s, k);
    }
  }

  /** The first k digits, lowest first, of n denote n modulo base^k. */
  lemma {:induction false} LowFirstPrefix(n: nat, base: int, ten: char, k: nat)
    requires 2 <= base <= 36 && ten in {'A', 'a'} && k <= |LowFirst(n, base, ten)|
    ensures Power(base, k) > 0
    ensures Value(Reversed(LowFirst(n, base, ten)[..k]), base) == n % Power(base, k)
    decreases k
  {
    hide LowFirst, DigitChar, Value;
    PowerPositive(base, k);
    if k == 0 {
      ZeroValue(base);
      assert LowFirst(n, base, ten)[..0] == "";
    } else {
      FirstLowDigit(n, base, ten);
      var d, q := n % base, n / base;
      LowFirstPrefix(q, base, ten, k - 1);
      var rest := LowFirst(q, base, ten)[..k - 1];
      assert LowFirst(n, base, ten)[..k] == [DigitChar(d, ten)] + rest;
      PrependLow(DigitChar(d, ten), rest, base);
      DigitRoundTrip(d, ten);
      ModPower(n, base, Power(base, k - 1));
    }
  }

  lemma FirstLowDigit(n: nat, base: int, ten: char)
    requires 2 <= base <= 36 && ten in {'A', 'a'} && LowFirst(n, base, ten) != ""
    ensures 0 <= n / base && 0 <= n % base < base
    ensures LowFirst(n, base, ten) == [DigitChar(n % base, ten)] + LowFirst(n / base, base, ten)
  {
    DividesLess(n, base);
  }

  lemma PrependLow(c: char, rest: string, base: int)
    ensures Value(Reversed([c] + rest), base) == Value(Reversed(rest), base) * base + DigitValue(c)
  {
    assert ([c] + rest)[1..] == rest;
    ValueSnoc(Reversed(rest), c, base);
  }

  lemma {:induction false} PowerPositive(base: int, k: nat)
    requires base >= 2
    ensures Power(base, k) > 0
  {
    if k == 0 {
    } else {
      PowerPositive(base, k - 1);
    }
  }

  lemma ModPower(n: nat, base: int, p: int)
    requires base >= 2 && p > 0
    ensures base * p > 0
    ensures n % (base * p) == (n / base) % p * base + n % base
  {
    var q, r := n / base, n % base;
    var u, v := q / p, q % p;
    assert n == q * base + r;
    assert q == u * p + v;
    assert n == u * (base * p) + (v * base + r) by {
      assert q * base == u * p * base + v * base;
      assert u * p * base == u * (base * p);
    }
    assert v * base + r < base * p by {
      assert (v + 1) * base <= p * base by { Monotone(base, v + 1, p); }
    }
    RemainderIs(n, base * p, u, v * base + r);
  }

  lemma RemainderIs(n: int, m: int, u: int, r: int)
    requires m > 0 && 0 <= r < m && n == u * m + r
    ensures n % m == r
  {
    var q, s := n / m, n % m;
    assert n == q * m + s;
    assert (u - q) * m == s - r;
    if u - q >= 1 {
      Monotone(m, 1, u - q);
    } else if u - q <= -1 {
      Monotone(m, u - q, -1);
    }
  }

  /** The stored digits denote the value modulo base^32. */
  lemma StoredDigitsValue(value: nat, base: int, f: Flags)
    requires 2 <= base <= 36
    ensures Power(base, NTOA_BUFFER) > 0
    ensures Value(Reversed(StoredDigits(value, base, f)), base) == value % Power(base, NTOA_BUFFER)
  {
    hide Power, Value, LowFirst, Reversed;
    PowerPositive(base, NTOA_BUFFER);
    var low := LowFirst(value, base, Ten(f));
    if value == 0 {
      ZeroValue(base);
    } else if |low| > NTOA_BUFFER {
      LowFirstPrefix(value, base, Ten(f), NTOA_BUFFER);
    } else {
      ReversedLowFirstValue(value, base, Ten(f));
      LowFirstBound(value, base, Ten(f));
      PowerGrows(base, |low|, NTOA_BUFFER);
      RemainderIs(value, Power(base, NTOA_BUFFER), 0, value);
    }
  }

  lemma ZeroValue(base: int)
    ensures Value(Reversed(""), base) == 0 && Value(Reversed("0"), base) == 0
  {
  }

  lemma {:induction false} LowFirstBound(n: nat, base: int, ten: char)
    requires 2 <= base <= 36 && ten in {'A', 'a'}
    ensures n < Power(base, |LowFirst(n, base, ten)|)
    decreases n
  {
    if n == 0 {
    } else {
      DividesLess(n, base);
      LowFirstBound(n / base, base, ten);
      var k := |LowFirst(n / base, base, ten)|;
      assert |LowFirst(n, base, ten)| == k + 1;
      BelowNextPower(n, base, k);
    }
  }

  lemma BelowNextPower(n: nat, base: int, k: nat)
    requires base >= 2 && n / base < Power(base, k)
    ensures n < Power(base, k + 1)
  {
    var q, p := n / base, Power(base, k);
    Monotone(base, q + 1, p);
    assert n == base * q + n % base;
  }

  lemma {:induction false} PowerGrows(base: int, k: nat, m: nat)
    requires base >= 2 && k <= m
    ensures Power(base, k) <= Power(base, m)
    decreases m
  {
    if k == m {
    } else {
      PowerGrows(base, k, m - 1);
      PowerPositive(base, m - 1);
      Monotone(Power(base, m - 1), 1, base);
    }
  }

  lemma BodyValue(b: string, negative: bool, prec: int, width: int, f: Flags, base: int)
    requires |b| <= NTOA_BUFFER
    ensures Value(Reversed(Body(b, negative, prec, width, f)), base) == Value(Reversed(b), base)
  {
    ZeroPaddedValue(b, prec, base);
    ZeroPaddedValue(ZeroPadded(b, prec), if f.zeropad then DigitWidth(negative, width, f) else 0, base);
  }

  lemma ZeroPaddedValue(b: string, n: int, base: int)
    requires |b| <= NTOA_BUFFER
    ensures Value(Reversed(ZeroPadded(b, n)), base) == Value(Reversed(b), base)
  {
    var zeros := Repeat('0', (if n < NTOA_BUFFER then n else NTOA_BUFFER) - |b|);
    ReversedAppend(b, zeros);
    ReversedRepeat('0', (if n < NTOA_BUFFER then n else NTOA_BUFFER) - |b|);
    assert zeros == Repeat('0', |zeros|);
    LeadingZeros(|zeros|, Reversed(b), base);
  }

  /** The digits of a printed number, zeros included. */
  function PrintedDigits(value: nat, negative: bool, base: int, prec: int, width: int, f: Flags): (s: string)
    requires 2 <= base <= 36
  {
    var f' := f.(hash := false);
    Reversed(Body(StoredDigits(value, base, f'), negative, prec, width, f'))
  }

  /**
   The digits printed denote the value modulo base^32, however they are padded, and there are at
   most 32 of them.
   */
  lemma PrintedDigitsValue(value: nat, negative: bool, base: int, prec: int, width: int, f: Flags)
    requires 2 <= base <= 36
    ensures |PrintedDigits(value, negative, base, prec, width, f)| <= NTOA_BUFFER
    ensures Power(base, NTOA_BUFFER) > 0
    ensures Value(PrintedDigits(value, negative, base, prec, width, f), base) == value % Power(base, NTOA_BUFFER)
  {
    hide Power, Value, LowFirst, StoredDigits, Body;
    var f' := f.(hash := false);
    StoredDigitsValue(value, base, f');
    BodyValue(StoredDigits(value, base, f'), negative, prec, width, f', base);
  }

  /** A sign finds a place among the 32 stored characters. */
  predicate SignFits(value: nat, base: int, prec: int, width: int, f: Flags) {
    value < Power(base, NTOA_BUFFER - 1) && (f.left || (prec < NTOA_BUFFER && !(f.zeropad && width > NTOA_BUFFER)))
  }

  /** The digits take all 32 places exactly when the number, the precision or a zero-padded field is that long. */
  lemma DigitsLeaveRoom(value: nat, negative: bool, base: int, prec: int, width: int, f: Flags)
    requires 2 <= base <= 36 && Sign(negative, f) != ""
    ensures |PrintedDigits(value, negative, base, prec, width, f)| < NTOA_BUFFER <==> SignFits(value, base, prec, width, f)
  {
    hide LowFirst, Reversed, Power;
    StoredLength(value, base, f.(hash := false));
  }

  lemma StoredLength(value: nat, base: int, f: Flags)
    requires 2 <= base <= 36
    ensures |StoredDigits(value, base, f)| < NTOA_BUFFER <==> value < Power(base, NTOA_BUFFER - 1)
  {
    hide LowFirst, Power;
    var low := LowFirst(value, base, Ten(f));
    PowerPositive(base, NTOA_BUFFER - 1);
    if |low| < NTOA_BUFFER {
      LowFirstBound(value, base, Ten(f));
      PowerGrows(base, |low|, NTOA_BUFFER - 1);
    }
    if value < Power(base, NTOA_BUFFER - 1) {
      LowFirstLength(value, base, Ten(f), NTOA_BUFFER - 1, Power(base, NTOA_BUFFER - 1));
    }
  }

  /** How long a number without '#' is: it fills its field, except that zero padding stops at 32 characters. */
  function NumberLength(signed: int, width: int, f: Flags): (n: int) {
    if f.zeropad && !f.left && width > NTOA_BUFFER then NTOA_BUFFER else if signed < width then width else signed
  }

  /**
   A number printed without '#' is spaces, a sign, the digits, spaces: the spaces on one side only, as
   many as the field asks for, and the sign always unless 32 digits leave no room for it.
   */
  lemma NumberTextLayout(value: nat, negative: bool, base: int, prec: int, width: int, f: Flags)
      returns (before: nat, after: nat)
    requires 2 <= base <= 36 && (!f.hash || value == 0)
    ensures var digits := PrintedDigits(value, negative, base, prec, width, f);
            var sign := if SignFits(value, base, prec, width, f) then Sign(negative, f) else "";
            && NumberText(value, negative, base, prec, width, f) == Repeat(' ', before) + sign + digits + Repeat(' ', after)
            && before + |sign| + |digits| + after == NumberLength(|sign| + |digits|, width, f)
    ensures after > 0 ==> f.left && before == 0
    ensures before > 0 ==> !f.left && !f.zeropad
  {
    hide LowFirst, StoredDigits, Body, NumberText, Aligned, DigitWidth, Repeat, Reversed, SignFits, Sign, NumberLength;
    var f' := f.(hash := false);
    var body := Body(StoredDigits(value, base, f'), negative, prec, width, f');
    var w := DigitWidth(negative, width, f);
    var sign := if |body| < NTOA_BUFFER then Sign(negative, f) else "";
    if Sign(negative, f) != "" {
      DigitsLeaveRoom(value, negative, base, prec, width, f);
    }
    PlainNumberText(value, negative, base, prec, width, f, body);
    AlignedLayout(body + sign, w, f);
    ReversedAppend(body, sign);
    ReversedSign(sign);
    before := if !f.left && !f.zeropad && w > |body + sign| then w - |body + sign| else 0;
    after := if f.left && w > |body + sign| then w - |body + sign| else 0;
    if w <= |body + sign| {
      NoSpaces(w - |body + sign|);
    }
    BodyLength(value, negative, base, prec, width, f);
    assert Repeat(' ', before) + (sign + Reversed(body)) == Repeat(' ', before) + sign + Reversed(body);
  }

  lemma NoSpaces(n: int)
    requires n <= 0
    ensures Repeat(' ', n) == Repeat(' ', 0)
  {
  }

  /** Digits and sign alone reach the length of a zero-padded field; any other is filled up with spaces. */
  lemma BodyLength(value: nat, negative: bool, base: int, prec: int, width: int, f: Flags)
    requires 2 <= base <= 36
    ensures var f' := f.(hash := false);
            var body := Body(StoredDigits(value, base, f'), negative, prec, width, f');
            var n := |body| + if |body| < NTOA_BUFFER then |Sign(negative, f)| else 0;
            var w := DigitWidth(negative, width, f);
            NumberLength(n, width, f) == if !f.left && f.zeropad then n else if n < w then w else n
  {
    hide StoredDigits;
  }

  /** Without '#': the padded digits, then the sign if it fits, turned around and aligned. */
  lemma PlainNumberText(value: nat, negative: bool, base: int, prec: int, width: int, f: Flags, body: string)
    requires 2 <= base <= 36 && (!f.hash || value == 0)
    requires body == Body(StoredDigits(value, base, f.(hash := false)), negative, prec, width, f.(hash := false))
    ensures var sign := if |body| < NTOA_BUFFER then Sign(negative, f) else "";
            NumberText(value, negative, base, prec, width, f) == Aligned(body + sign, DigitWidth(negative, width, f), f)
  {
    hide LowFirst, Reversed, StoredDigits, Repeat, Aligned, Body, Sign;
    var f' := f.(hash := false);
    AlignedIgnoresHash(body + (if |body| < NTOA_BUFFER then Sign(negative, f) else ""), DigitWidth(negative, width, f), f);
    SignIgnoresHash(negative, f);
    assert NumberText(value, negative, base, prec, width, f) ==
           Formatted(StoredDigits(value, base, f'), negative, base, prec, width, f') by { assert f == f' || value == 0; }
    assert body + "" == body;
  }

  lemma AlignedIgnoresHash(b: string, w: int, f: Flags)
    ensures Aligned(b, w, f.(hash := false)) == Aligned(b, w, f)
  {
  }

  lemma SignIgnoresHash(negative: bool, f: Flags)
    ensures Sign(negative, f.(hash := false)) == Sign(negative, f)
  {
  }

  lemma AlignedLayout(b: string, w: int, f: Flags)
    ensures Aligned(b, w, f) ==
            Repeat(' ', if !f.left && !f.zeropad then w - |b| else 0) + Reversed(b) + Repeat(' ', if f.left then w - |b| else 0)
  {
  }

  lemma ReversedSign(sign: string)
    requires |sign| <= 1
    ensures Reversed(sign) == sign
  {
  }

  /**
   In bases 8, 10 and 16 the digits are those of the number itself, and not all 32 places are needed for
   them: every 64-bit value is below base^31.
   */
  lemma SixtyFourBitsFit(value: nat, base: int)
    requires value < U64 && base in {8, 10, 16}
    ensures Power(base, NTOA_BUFFER) > 0 && value % Power(base, NTOA_BUFFER) == value
    ensures value < Power(base, NTOA_BUFFER - 1)
  {
    hide Power;
    PowerPositive(base, NTOA_BUFFER);
    PowerGrows(base, NTOA_BUFFER - 1, NTOA_BUFFER);
    PowerGrows(base, 22, NTOA_BUFFER - 1);
    TwentyTwoDigits(base);
  }

  lemma TwentyTwoDigits(base: int)
    requires base in {8, 10, 16}
    ensures Power(base, 22) >= U64
  {
    SplitPower(base, 11, 11);
    EleventhPower(base);
    var p := Power(base, 11);
    Monotone(p, 0x2_0000_0000, p);
    Monotone(0x2_0000_0000, 0x2_0000_0000, p);
  }

  lemma EleventhPower(base: int)
    requires base in {8, 10, 16}
    ensures Power(base, 11) >= 0x2_0000_0000
  {
  }

  lemma {:induction false} SplitPower(base: int, i: nat, j: nat)
    ensures Power(base, i + j) == Power(base, i) * Power(base, j)
  {
    if i == 0 {
    } else {
      SplitPower(base, i - 1, j);
      assert Power(base, i) * Power(base, j) == base * (Power(base, i - 1) * Power(base, j));
    }
  }

  /** The exact length of a number without '#': how far it fills its field. */
  lemma FieldIsFilled(value: nat, negative: bool, base: int, prec: int, width: nat, f: Flags)
    requires 2 <= base <= 36 && !f.hash
    ensures var sign := if SignFits(value, base, prec, width, f) then Sign(negative, f) else "";
            var digits := PrintedDigits(value, negative, base, prec, width, f);
            |NumberText(value, negative, base, prec, width, f)| == NumberLength(|sign| + |digits|, width, f)
    ensures |NumberText(value, negative, base, prec, width, f)| >= width <==> !(f.zeropad && !f.left && width > NTOA_BUFFER)
  {
    hide NumberText, PrintedDigits, SignFits;
    var before, after := NumberTextLayout(value, negative, base, prec, width, f);
  }

  // ---- Where the minus sign is lost ------------------------------------------------------------------

  lemma {:induction false} LowFirstHasNoMinus(n: nat, base: int, ten: char)
    requires 2 <= base <= 36 && ten in {'A', 'a'}
    ensures '-' !in LowFirst(n, base, ten)
    decreases n
  {
    if n == 0 {
    } else {
      DividesLess(n, base);
      LowFirstHasNoMinus(n / base, base, ten);
    }
  }

  lemma {:induction false} ReversedSame(s: string, c: char)
    ensures c in Reversed(s) <==> c in s
  {
    if s == "" {
    } else {
      ReversedSame(s[1..], c);
      assert s == [s[0]] + s[1..];
    }
  }

  lemma DigitsHaveNoMinus(value: nat, negative: bool, base: int, prec: int, width: int, f: Flags)
    requires 2 <= base <= 36
    ensures '-' !in PrintedDigits(value, negative, base, prec, width, f)
  {
    hide LowFirst, Reversed;
    var f' := f.(hash := false);
    LowFirstHasNoMinus(value, base, Ten(f'));
    ReversedSame(Body(StoredDigits(value, base, f'), negative, prec, width, f'), '-');
  }

  /** A number printed without '#' shows a minus sign exactly when it is negative and the sign fits. */
  lemma MinusShown(value: nat, negative: bool, base: int, prec: int, width: int, f: Flags)
    requires 2 <= base <= 36 && (!f.hash || value == 0)
    ensures '-' in NumberText(value, negative, base, prec, width, f) <==> negative && SignFits(value, base, prec, width, f)
  {
    hide NumberText, PrintedDigits, SignFits;
    var before, after := NumberTextLayout(value, negative, base, prec, width, f);
    DigitsHaveNoMinus(value, negative, base, prec, width, f);
  }
}
