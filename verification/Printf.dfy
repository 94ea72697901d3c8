/**
 The formatted printer of src/printf.c, writing into a bounded buffer. Each routine is proved to
 lay exactly the text of PrintfModel and PrintfFormat over the buffer, as far as it fits.
 */
module Printf {
  import opened CInts
  import opened Numerals
  import opened PrintfModel
  import opened PrintfFormat

  /** The text so far has been laid over what the buffer held at first. */
  ghost predicate Holds(buffer: array<char>, was: seq<char>, text: string, idx: int, maxlen: nat)
    reads buffer
  {
    maxlen <= |was| && buffer[..] == Overlay(was, text, maxlen) && idx == |text|
  }

  /** _out_buffer, and the idx++ at each of its calls */
  method Out(c: char, buffer: array<char>, idx: int, maxlen: nat, ghost was: seq<char>, ghost text: string)
      returns (next: int)
    requires Holds(buffer, was, text, idx, maxlen)
    modifies buffer
    ensures Holds(buffer, was, text + [c], next, maxlen)
  {
    OverlayNext(was, text, maxlen, c);
    if idx < maxlen {
      buffer[idx] := c;
    }
    next := idx + 1;
  }

  method OutSpaces(n: int, buffer: array<char>, start: int, maxlen: nat, ghost was: seq<char>, ghost text: string)
      returns (idx: int)
    requires Holds(buffer, was, text, start, maxlen)
    modifies buffer
    ensures Holds(buffer, was, text + Repeat(' ', n), idx, maxlen)
  {
    hide Overlay;
    idx := start;
    var i := 0;
    assert text + Repeat(' ', 0) == text;
    while i < n
      invariant 0 <= i && (i <= n || i == 0)
      invariant Holds(buffer, was, text + Repeat(' ', i), idx, maxlen)
    {
      assert text + Repeat(' ', i) + [' '] == text + Repeat(' ', i + 1);
      idx := Out(' ', buffer, idx, maxlen, was, text + Repeat(' ', i));
      i := i + 1;
    }
    assert Repeat(' ', i) == Repeat(' ', n);
  }

  /** _out_rev */
  method OutRev(buffer: array<char>, start: int, maxlen: nat, buf: array<char>, length: nat, width: int, f: Flags,
                ghost was: seq<char>, ghost text: string) returns (idx: int)
    requires Holds(buffer, was, text, start, maxlen) && length <= buf.Length && buffer != buf
    modifies buffer
    ensures Holds(buffer, was, text + Aligned(old(buf[..length]), width, f), idx, maxlen)
  {
    hide Overlay, Aligned;
    ghost var b := buf[..length];
    ghost var before, after := if !f.left && !f.zeropad then width - length else 0, if f.left then width - length else 0;
    AlignedLayout(b, width, f);
    idx := start;
    assert text + Repeat(' ', 0) == text;
    if !f.left && !f.zeropad {
      idx := OutSpaces(width - length, buffer, idx, maxlen, was, text);
    }
    ghost var text1 := text + Repeat(' ', before);
    idx := OutReversed(buffer, idx, maxlen, buf, length, was, text1);
    ghost var text2 := text1 + Reversed(b);
    assert text2 + Repeat(' ', 0) == text2;
    if f.left {
      assert width - (idx - start) == width - length;
      idx := OutSpaces(width - (idx - start), buffer, idx, maxlen, was, text2);
    }
    assert text2 + Repeat(' ', after) == text + Aligned(b, width, f);
  }

  method OutReversed(buffer: array<char>, start: int, maxlen: nat, buf: array<char>, length: nat,
                     ghost was: seq<char>, ghost text: string) returns (idx: int)
    requires Holds(buffer, was, text, start, maxlen) && length <= buf.Length && buffer != buf
    modifies buffer
    ensures Holds(buffer, was, text + Reversed(old(buf[..length])), idx, maxlen)
  {
    hide Overlay;
    ghost var b := buf[..length];
    idx := start;
    var len := length;
    assert text + Reversed(b[length..]) == text;
    while len > 0
      invariant 0 <= len <= length && buf[..length] == b
      invariant Holds(buffer, was, text + Reversed(b[len..]), idx, maxlen)
    {
      len := len - 1;
      assert b[len..][1..] == b[len + 1..] && b[len] == buf[len];
      assert text + Reversed(b[len + 1..]) + [b[len]] == text + Reversed(b[len..]);
      idx := Out(buf[len], buffer, idx, maxlen, was, text + Reversed(b[len + 1..]));
    }
    assert b[0..] == b;
  }

  // ---- Numbers ----------------------------------------------------------------------------------

  /** The zero-padding loops of _ntoa_format. */
  method PadZeros(buf: array<char>, length: nat, n: int) returns (len: nat)
    requires buf.Length == NTOA_BUFFER && length <= NTOA_BUFFER
    modifies buf
    ensures len <= NTOA_BUFFER && buf[..len] == ZeroPadded(old(buf[..length]), n)
  {
    ghost var b := buf[..length];
    len := length;
    assert b + Repeat('0', 0) == b;
    while len < n && len < NTOA_BUFFER
      invariant length <= len <= NTOA_BUFFER && (len <= n || len == length)
      invariant buf[..len] == b + Repeat('0', len - length)
    {
      ghost var stored := buf[..len];
      buf[len] := '0';
      assert buf[..len + 1] == stored + ['0'];
      len := len + 1;
    }
  }

  /** Stores one character behind the others if there is room. */
  method Store(buf: array<char>, length: nat, c: char) returns (len: nat)
    requires buf.Length == NTOA_BUFFER && length <= NTOA_BUFFER
    modifies buf
    ensures len <= NTOA_BUFFER
    ensures buf[..len] == if length < NTOA_BUFFER then old(buf[..length]) + [c] else old(buf[..length])
  {
    len := length;
    if len < NTOA_BUFFER {
      ghost var stored := buf[..len];
      buf[len] := c;
      len := len + 1;
      assert buf[..len] == stored + [c];
    }
  }

  /** The '#' part of _ntoa_format. */
  method StorePrefix(buf: array<char>, length: nat, base: int, prec: int, width: int, f: Flags) returns (len: nat)
    requires buf.Length == NTOA_BUFFER && length <= NTOA_BUFFER
    modifies buf
    ensures len <= NTOA_BUFFER && buf[..len] == Hashed(old(buf[..length]), base, prec, width, f)
  {
    len := length;
    if f.hash {
      if !f.precision && len > 0 && (len == prec || len == width) {
        len := len - 1;
        if len > 0 && base == 16 {
          len := len - 1;
        }
      }
      assert buf[..len] == old(buf[..length])[..len];
      if base == 16 && !f.uppercase && len < NTOA_BUFFER {
        len := Store(buf, len, 'x');
      } else if base == 16 && f.uppercase && len < NTOA_BUFFER {
        len := Store(buf, len, 'X');
      } else if base == 2 && len < NTOA_BUFFER {
        len := Store(buf, len, 'b');
      }
      len := Store(buf, len, '0');
    }
  }

  /** The digit padding of _ntoa_format. */
  method PadDigits(buf: array<char>, length: nat, negative: bool, prec: int, width: int, f: Flags) returns (len: nat, w: int)
    requires buf.Length == NTOA_BUFFER && length <= NTOA_BUFFER
    modifies buf
    ensures len <= NTOA_BUFFER && w == DigitWidth(negative, width, f)
    ensures buf[..len] == Body(old(buf[..length]), negative, prec, width, f)
  {
    len, w := length, width;
    if !f.left {
      if w > 0 && f.zeropad && (negative || f.plus || f.space) {
        w := w - 1;
      }
      len := PadZeros(buf, len, prec);
      len := PadZeros(buf, len, if f.zeropad then w else 0);
    }
  }

  /** _ntoa_format */
  method NtoaFormat(buffer: array<char>, start: int, maxlen: nat, buf: array<char>, length: nat, negative: bool,
                    base: int, prec: int, width: int, f: Flags, ghost was: seq<char>, ghost text: string) returns (idx: int)
    requires Holds(buffer, was, text, start, maxlen) && buffer != buf
    requires buf.Length == NTOA_BUFFER && length <= NTOA_BUFFER
    modifies buffer, buf
    ensures Holds(buffer, was, text + Formatted(old(buf[..length]), negative, base, prec, width, f), idx, maxlen)
  {
    hide Overlay, Body, Hashed, Aligned, DigitWidth;
    var len, w := PadDigits(buf, length, negative, prec, width, f);
    len := StorePrefix(buf, len, base, prec, w, f);
    ghost var b := buf[..len];
    assert b + "" == b;
    if len < NTOA_BUFFER {
      if negative {
        len := Store(buf, len, '-');
      } else if f.plus {
        len := Store(buf, len, '+');
      } else if f.space {
        len := Store(buf, len, ' ');
      }
    }
    idx := OutRev(buffer, start, maxlen, buf, len, w, f, was, text);
  }

  /** The digit loop of _ntoa_long. */
  method StoreDigits(buf: array<char>, value: nat, base: int, f: Flags) returns (len: nat)
    requires buf.Length == NTOA_BUFFER && 2 <= base <= 36
    modifies buf
    ensures len <= NTOA_BUFFER && buf[..len] == StoredDigits(value, base, f)
  {
    hide LowFirst, DigitChar;
    len := 0;
    if !f.precision || value != 0 {
      ghost var low := LowFirst(value, base, Ten(f));
      buf[0] := DigitChar(value % base, Ten(f));
      len := 1;
      var rest := value / base;
      FirstDigit(value, base, Ten(f));
      assert buf[..1] == [DigitChar(value % base, Ten(f))];
      while rest != 0 && len < NTOA_BUFFER
        invariant 1 <= len <= NTOA_BUFFER && 0 <= rest
        invariant value == 0 ==> len == 1 && rest == 0 && buf[..len] == "0"
        invariant value != 0 ==> low == buf[..len] + LowFirst(rest, base, Ten(f))
        decreases rest
      {
        NextDigit(rest, base, Ten(f));
        ghost var stored := buf[..len];
        var digit := rest % base;
        buf[len] := DigitChar(digit, Ten(f));
        assert buf[..len + 1] == stored + [DigitChar(digit, Ten(f))];
        len := len + 1;
        rest := rest / base;
      }
      DigitsLeft(rest, base, Ten(f));
      assert value != 0 ==> buf[..len] == low[..len];
    }
  }

  lemma NextDigit(n: nat, base: int, ten: char)
    requires 2 <= base <= 36 && n > 0 && ten in {'A', 'a'}
    ensures 0 <= n / base < n && 0 <= n % base < base
    ensures LowFirst(n, base, ten) == [DigitChar(n % base, ten)] + LowFirst(n / base, base, ten)
  {
    DividesLess(n, base);
  }

  lemma FirstDigit(n: nat, base: int, ten: char)
    requires 2 <= base <= 36 && ten in {'A', 'a'}
    ensures 0 <= n / base && 0 <= n % base < base
    ensures n != 0 ==> LowFirst(n, base, ten) == [DigitChar(n % base, ten)] + LowFirst(n / base, base, ten)
    ensures n == 0 ==> n / base == 0 && [DigitChar(n % base, ten)] == "0"
  {
    if n != 0 {
      NextDigit(n, base, ten);
    }
  }

  lemma DigitsLeft(n: nat, base: int, ten: char)
    requires 2 <= base <= 36 && ten in {'A', 'a'}
    ensures n == 0 <==> LowFirst(n, base, ten) == ""
  {
  }

  /** _ntoa_long: 32 characters are enough for every value, base, width, precision and flags. */
  method NtoaLong(buffer: array<char>, start: int, maxlen: nat, value: nat, negative: bool, base: int, prec: int,
                  width: int, flags: Flags, ghost was: seq<char>, ghost text: string) returns (idx: int)
    requires Holds(buffer, was, text, start, maxlen) && 2 <= base <= 36
    modifies buffer
    ensures Holds(buffer, was, text + NumberText(value, negative, base, prec, width, flags), idx, maxlen)
  {
    hide Overlay, StoredDigits, Formatted;
    var buf := new char[NTOA_BUFFER];
    var f := if value == 0 then flags.(hash := false) else flags;
    var len := StoreDigits(buf, value, base, f);
    idx := NtoaFormat(buffer, start, maxlen, buf, len, negative, base, prec, width, f, was, text);
  }

  // ---- Directives ----------------------------------------------------------------------------------

  /** The flag loop of _vsnprintf; `p` is the rest of the format, and its end stands for the terminator. */
  method EvalFlags(format: string) returns (f: Flags, p: string)
    ensures (f, p) == ParseFlags(format, NO_FLAGS)
  {
    f, p := NO_FLAGS, format;
    var n := true;
    while n
      invariant ParseFlags(p, f) == ParseFlags(format, NO_FLAGS)
      invariant !n ==> ParseFlags(p, f) == (f, p)
      decreases |p|, n
    {
      if p == "" {
        n := false;
      } else {
        match p[0]
        case '0' => f, p := f.(zeropad := true), p[1..];
        case '-' => f, p := f.(left := true), p[1..];
        case '+' => f, p := f.(plus := true), p[1..];
        case ' ' => f, p := f.(space := true), p[1..];
        case '#' => f, p := f.(hash := true), p[1..];
        case _ => n := false;
      }
    }
  }

  /** _atoi */
  method Atoi(format: string) returns (i: int, p: string)
    ensures (i, p) == ParseNumber(format, 0)
  {
    i, p := 0, format;
    while p != "" && IsDigit(p[0])
      invariant 0 <= i < U32 && ParseNumber(p, i) == ParseNumber(format, 0)
      decreases |p|
    {
      i := (i * 10 + (p[0] as int - '0' as int)) % U32;
      p := p[1..];
    }
  }

  /** The fields of a directive before its conversion character. */
  method EvalDirective(format: string, va: seq<Arg>) returns (f: Flags, width: int, precision: int, args: seq<Arg>, p: string)
    requires ParseDirective(format, va).Good?
    ensures Good(f, width, precision, args, p) == ParseDirective(format, va)
  {
    hide ParseFlags, ParseNumber;
    f, p := EvalFlags(format);
    args := va;
    width := 0;
    if p != "" && IsDigit(p[0]) {
      width, p := Atoi(p);
    } else if p != "" && p[0] == '*' {
      var w := I32(args[0].v);
      if w < 0 {
        f := f.(left := true);
        width := -w;
      } else {
        width := w;
      }
      args, p := args[1..], p[1..];
    }
    precision := 0;
    if p != "" && p[0] == '.' {
      f := f.(precision := true);
      p := p[1..];
      if p != "" && IsDigit(p[0]) {
        precision, p := Atoi(p);
      } else if p != "" && p[0] == '*' {
        var prec := I32(args[0].v);
        precision := if prec > 0 then prec else 0;
        args, p := args[1..], p[1..];
      }
    }
    var size;
    size, p := EvalLength(p);
    f := f.(size := size);
  }

  method EvalLength(format: string) returns (size: Size, p: string)
    ensures (size, p) == ParseLength(format)
  {
    size, p := Plain, format;
    if p == "" {
      return;
    }
    var c := p[0];
    if c == 'l' {
      size, p := Long, p[1..];
      if p != "" && p[0] == 'l' {
        size, p := LongLong, p[1..];
        assert p == format[2..];
      }
    } else if c == 'h' {
      size, p := Short, p[1..];
      if p != "" && p[0] == 'h' {
        size, p := Char8, p[1..];
        assert p == format[2..];
      }
    } else if c == 't' || c == 'j' || c == 'z' {
      size, p := Long, p[1..];
    }
  }

  // ---- Conversions -----------------------------------------------------------------------------------

  /** The integer case of _vsnprintf. */
  method OutInteger(c: char, v: int, buffer: array<char>, start: int, maxlen: nat, flags: Flags, width: int, precision: int,
                    ghost was: seq<char>, ghost text: string) returns (idx: int)
    requires Holds(buffer, was, text, start, maxlen) && IsInteger(c)
    modifies buffer
    ensures Holds(buffer, was, text + IntegerText(c, v, flags, width, precision), idx, maxlen)
  {
    hide Overlay, NumberText, IntegerFlags;
    var f, base := EvalInteger(c, flags);
    if c == 'i' || c == 'd' {
      var value := SignedArg(v, flags);
      idx := NtoaLong(buffer, start, maxlen, if value > 0 then value else 0 - value, value < 0, base, precision, width, f, was, text);
    } else {
      idx := NtoaLong(buffer, start, maxlen, UnsignedArg(v, flags), false, base, precision, width, f, was, text);
    }
  }

  /** The base of an integer conversion and the flags that apply to it. */
  method EvalInteger(c: char, flags: Flags) returns (f: Flags, base: int)
    requires IsInteger(c)
    ensures f == IntegerFlags(c, flags) && base == Base(c)
  {
    var zeropad, plus, space, hash, uppercase := flags.zeropad, flags.plus, flags.space, flags.hash, flags.uppercase;
    if c == 'x' || c == 'X' {
      base := 16;
    } else if c == 'o' {
      base := 8;
    } else if c == 'b' {
      base := 2;
    } else {
      base := 10;
      hash := false;
    }
    if c == 'X' {
      uppercase := true;
    }
    if c != 'i' && c != 'd' {
      plus, space := false, false;
    }
    if flags.precision {
      zeropad := false;
    }
    f := flags.(zeropad := zeropad, plus := plus, space := space, hash := hash, uppercase := uppercase);
  }

  /** The character and string cases: padding before or after. */
  method OutField(shown: string, width: int, buffer: array<char>, start: int, maxlen: nat, f: Flags,
                  ghost was: seq<char>, ghost text: string) returns (idx: int)
    requires Holds(buffer, was, text, start, maxlen)
    modifies buffer
    ensures Holds(buffer, was, text + InField(shown, width, f), idx, maxlen)
  {
    hide Overlay;
    idx := start;
    ghost var text1 := text;
    if !f.left {
      idx := OutSpaces(width - |shown|, buffer, idx, maxlen, was, text);
      text1 := text + Repeat(' ', width - |shown|);
    }
    var i := 0;
    assert text1 + shown[..0] == text1;
    while i < |shown|
      invariant 0 <= i <= |shown| && Holds(buffer, was, text1 + shown[..i], idx, maxlen)
    {
      assert text1 + shown[..i] + [shown[i]] == text1 + shown[..i + 1];
      idx := Out(shown[i], buffer, idx, maxlen, was, text1 + shown[..i]);
      i := i + 1;
    }
    assert shown[..|shown|] == shown;
    ghost var text2 := text1 + shown;
    if f.left {
      idx := OutSpaces(width - |shown|, buffer, idx, maxlen, was, text2);
      assert text2 + Repeat(' ', width - |shown|) == text + InField(shown, width, f);
    } else {
      assert text2 == text + InField(shown, width, f);
    }
  }

  /** _strnlen_s with the precision as limit, then the precision once more; strings end at their length here. */
  method ShownLength(s: string, f: Flags, precision: nat) returns (l: nat)
    ensures l <= |s|
    ensures s[..l] == if f.precision && precision < |s| then s[..precision] else s
  {
    l := 0;
    var maxsize: int := if f.precision && precision != 0 then precision else |s|;
    while l < |s| && maxsize > 0
      invariant 0 <= l <= |s| && 0 <= maxsize
      invariant l + maxsize == if f.precision && precision != 0 then precision else |s|
    {
      l, maxsize := l + 1, maxsize - 1;
    }
    if f.precision {
      l := if l < precision then l else precision;
    }
    assert l == |s| ==> s[..l] == s;
  }

  /** The specifier switch of _vsnprintf. */
  method OutConversion(g: Parsed, buffer: array<char>, start: int, maxlen: nat, ghost was: seq<char>, ghost text: string)
      returns (idx: int)
    requires g.Good? && g.rest != "" && ArgsFit(g.rest[0], g.flags, g.args) && 0 <= g.precision
    requires Holds(buffer, was, text, start, maxlen)
    modifies buffer
    ensures Holds(buffer, was, text + Conversion(g), idx, maxlen)
  {
    hide Overlay, NumberText, IntegerText, InField;
    var c, f := g.rest[0], g.flags;
    if IsInteger(c) {
      if f.size == LongLong {
        idx := start;
        assert text + "" == text;
      } else {
        idx := OutInteger(c, g.args[0].v, buffer, start, maxlen, f, g.width, g.precision, was, text);
      }
    } else if c == 'c' {
      idx := OutField([(g.args[0].v % 0x100) as char], g.width, buffer, start, maxlen, f, was, text);
    } else if c == 's' {
      var s := g.args[0].s;
      var l := ShownLength(s, f, g.precision);
      idx := OutField(s[..l], g.width, buffer, start, maxlen, f, was, text);
    } else if c == 'p' {
      idx := NtoaLong(buffer, start, maxlen, g.args[0].v % U64, false, 16, g.precision, POINTER_WIDTH,
                      f.(zeropad := true, uppercase := true), was, text);
    } else {
      idx := Out(c, buffer, start, maxlen, was, text);
    }
  }

  // ---- _vsnprintf ---------------------------------------------------------------------------------------

  /**
   vsnprintf_ into a buffer of at least maxlen characters, or into none. Whatever the size, the buffer
   receives the beginning of the same text, ends in a terminator and is not written beyond maxlen, and
   the result is the length of the whole text.
   */
  method Vsnprintf(buffer: array?<char>, maxlen: nat, format: string, va: seq<Arg>) returns (ret: int)
    requires Supported(format, va) && (buffer != null ==> maxlen <= buffer.Length)
    modifies if buffer == null then {} else {buffer}
    ensures buffer != null ==> buffer[..] == Truncated(old(buffer[..]), Render(format, va), maxlen)
    ensures ret == I32(|Render(format, va)|)
  {
    hide Truncated, Render, Supported;
    if buffer == null {
      // _out_null: nothing is stored, the characters are only counted
      var nothing := new char[0];
      ret := FormatInto(nothing, 0, format, va);
    } else {
      ret := FormatInto(buffer, maxlen, format, va);
    }
  }

  /** The loop over the format. */
  method FormatInto(buffer: array<char>, maxlen: nat, format: string, va: seq<Arg>) returns (ret: int)
    requires Supported(format, va) && maxlen <= buffer.Length
    modifies buffer
    ensures buffer[..] == Truncated(old(buffer[..]), Render(format, va), maxlen)
    ensures ret == I32(|Render(format, va)|)
  {
    hide Overlay, Conversion, ParseDirective, Truncated, Render, Supported;
    ghost var was, text := buffer[..], "";
    var p, args, idx := format, va, 0;
    OverlayNothing(was, maxlen);
    assert "" + Render(format, va) == Render(format, va);
    while p != ""
      invariant Supported(p, args) && Holds(buffer, was, text, idx, maxlen)
      invariant text + Render(p, args) == Render(format, va)
      decreases |p|
    {
      RenderStep(p, args);
      if p[0] != '%' {
        assert text + [p[0]] + Render(p[1..], args) == text + ([p[0]] + Render(p[1..], args));
        idx := Out(p[0], buffer, idx, maxlen, was, text);
        text := text + [p[0]];
        p := p[1..];
      } else {
        ghost var g := ParseDirective(p[1..], args);
        ghost var after := if TakesArg(g.rest[0], g.flags) then g.args[1..] else g.args;
        assert text + Conversion(g) + Render(g.rest[1..], after) == text + (Conversion(g) + Render(g.rest[1..], after));
        var f, width, precision, left, q := EvalDirective(p[1..], args);
        idx := OutConversion(Good(f, width, precision, left, q), buffer, idx, maxlen, was, text);
        text := text + Conversion(g);
        args := if TakesArg(q[0], f) then left[1..] else left;
        p := q[1..];
      }
    }
    RenderEnd(args);
    assert text + "" == text;
    if maxlen > 0 {
      TerminatedOverlay(was, text, maxlen);
      buffer[if idx < maxlen then idx else maxlen - 1] := NUL;
    } else {
      NothingWritten(was, text);
    }
    ret := I32(idx);
  }

  lemma RenderStep(p: string, args: seq<Arg>)
    requires p != "" && Supported(p, args)
    ensures p[0] != '%' ==> Supported(p[1..], args) && Render(p, args) == [p[0]] + Render(p[1..], args)
    ensures p[0] == '%' ==>
              var g := ParseDirective(p[1..], args);
              && g.Good? && g.rest != "" && ArgsFit(g.rest[0], g.flags, g.args) && |g.rest| <= |p| - 1 && 0 <= g.precision
              && var after := if TakesArg(g.rest[0], g.flags) then g.args[1..] else g.args;
                 Supported(g.rest[1..], after) && Render(p, args) == Conversion(g) + Render(g.rest[1..], after)
  {
    hide ParseDirective, Conversion;
  }

  lemma RenderEnd(args: seq<Arg>)
    ensures Supported("", args) && Render("", args) == ""
  {
  }

  lemma OverlayNothing(was: seq<char>, n: nat)
    requires n <= |was|
    ensures Overlay(was, "", n) == was
  {
  }

  lemma NothingWritten(was: seq<char>, text: string)
    ensures Overlay(was, text, 0) == Truncated(was, text, 0)
  {
  }
}
