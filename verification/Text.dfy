/** Strings as Rust sees them: UTF-8 bytes, whitespace trimming, integer literals. */
module Text {
  import opened Wrappers

  /** A byte, as its value. */
  type Byte = int

  predicate IsBytes(b: seq<Byte>) {
    forall i :: 0 <= i < |b| ==> 0 <= b[i] < 256
  }

  predicate Alphanumeric(c: char) {
    'a' <= c <= 'z' || 'A' <= c <= 'Z' || '0' <= c <= '9'
  }

  function LowerChar(c: char): char {
    if 'A' <= c <= 'Z' then (c as int + 32) as char else c
  }

  /** `to_ascii_lowercase`. */
  function Lower(s: string): (t: string)
    ensures |t| == |s|
  {
    seq(|s|, i requires 0 <= i < |s| => LowerChar(s[i]))
  }

  /** Every capital moves down to its small letter, and nothing else changes. */
  lemma LowerIs(s: string, i: nat)
    requires i < |s|
    ensures 'A' <= s[i] <= 'Z' ==> 'a' <= Lower(s)[i] <= 'z' && Lower(s)[i] as int - 'a' as int == s[i] as int - 'A' as int
    ensures !('A' <= s[i] <= 'Z') ==> Lower(s)[i] == s[i]
  {
  }

  predicate StartsWith(s: string, prefix: string) {
    prefix <= s
  }

  predicate EndsWith(s: string, suffix: string) {
    |suffix| <= |s| && s[|s| - |suffix|..] == suffix
  }

  function EncodeChar(c: char): seq<Byte> {
    var n := c as int;
    if n < 0x80 then [n]
    else if n < 0x800 then [0xC0 + n / 64, 0x80 + n % 64]
    else if n < 0x1_0000 then [0xE0 + n / 4096, 0x80 + n / 64 % 64, 0x80 + n % 64]
    else [0xF0 + n / 262_144 % 8, 0x80 + n / 4096 % 64, 0x80 + n / 64 % 64, 0x80 + n % 64]
  }

  /** The UTF-8 bytes of a string. */
  function Utf8(s: string): seq<Byte> {
    if s == [] then [] else EncodeChar(s[0]) + Utf8(s[1..])
  }

  predicate IsAscii(s: string) {
    forall i :: 0 <= i < |s| ==> s[i] as int < 0x80
  }

  lemma {:induction false} Utf8OfAscii(s: string)
    requires IsAscii(s)
    ensures |Utf8(s)| == |s| && forall i :: 0 <= i < |s| ==> Utf8(s)[i] == s[i] as int
  {
    if s != [] {
      Utf8OfAscii(s[1..]);
      assert s == [s[0]] + s[1..];
    }
  }

  /** `char::is_whitespace`: the Unicode White_Space property. */
  predicate IsWhitespace(c: char) {
    var n := c as int;
    0x09 <= n <= 0x0D || n == 0x20 || n == 0x85 || n == 0xA0 || n == 0x1680
    || 0x2000 <= n <= 0x200A || n == 0x2028 || n == 0x2029 || n == 0x202F || n == 0x205F || n == 0x3000
  }

  /** The 25 characters of the property. */
  lemma WhitespaceIs(c: char)
    ensures IsWhitespace(c) <==>
      c in {' ', '\t', '\n', '\r'} || c as int in
        {0x0B, 0x0C, 0x85, 0xA0, 0x1680, 0x2000, 0x2001, 0x2002, 0x2003, 0x2004, 0x2005, 0x2006, 0x2007, 0x2008, 0x2009, 0x200A,
         0x2028, 0x2029, 0x202F, 0x205F, 0x3000}
  {
  }

  function TrimStart(s: string): string {
    if s != [] && IsWhitespace(s[0]) then TrimStart(s[1..]) else s
  }

  function TrimEnd(s: string): string {
    if s != [] && IsWhitespace(s[|s| - 1]) then TrimEnd(s[..|s| - 1]) else s
  }

  function Trim(s: string): string {
    TrimEnd(TrimStart(s))
  }

  predicate AllWhitespace(s: string) {
    forall i :: 0 <= i < |s| ==> IsWhitespace(s[i])
  }

  /** Whitespace on either side goes, and nothing else. */
  lemma TrimExactly(before: string, core: string, after: string)
    requires AllWhitespace(before) && AllWhitespace(after)
    ensures Trim(before + core + after) == Trim(core)
  {
    hide IsWhitespace;
    assert before + core + after == before + (core + after);
    TrimsBefore(before, core + after);
    TrimsAfterStart(core, after);
    TrimsAfter(TrimStart(core), after);
    TrimsAfter([], after);
  }

  lemma {:induction false} TrimsBefore(before: string, rest: string)
    requires AllWhitespace(before)
    ensures TrimStart(before + rest) == TrimStart(rest)
  {
    if before == [] {
      assert before + rest == rest;
    } else {
      assert (before + rest)[1..] == before[1..] + rest;
      TrimsBefore(before[1..], rest);
    }
  }

  lemma {:induction false} TrimsAfter(core: string, after: string)
    requires AllWhitespace(after)
    ensures TrimEnd(core + after) == TrimEnd(core)
  {
    if after == [] {
      assert core + after == core;
    } else {
      var k := |after| - 1;
      assert (core + after)[..|core + after| - 1] == core + after[..k];
      TrimsAfter(core, after[..k]);
    }
  }

  lemma {:induction false} TrimsAfterStart(core: string, after: string)
    requires AllWhitespace(after)
    ensures TrimStart(core + after) == if TrimStart(core) == [] then [] else TrimStart(core) + after
  {
    if core == [] {
      assert core + after == after + [];
      TrimsBefore(after, []);
    } else if IsWhitespace(core[0]) {
      assert (core + after)[1..] == core[1..] + after;
      TrimsAfterStart(core[1..], after);
    }
  }

  // ---- Integer literals -------------------------------------------------------

  function DigitValue(b: Byte, radix: nat): Option<nat> {
    var v := if '0' as int <= b <= '9' as int then b - '0' as int
      else if 'a' as int <= b <= 'z' as int then b - 'a' as int + 10
      else if 'A' as int <= b <= 'Z' as int then b - 'A' as int + 10
      else 36;
    if v < radix then Some(v) else None
  }

  /** The value of a run of digits, or None when one is not a digit. */
  function DigitsValue(bytes: seq<Byte>, radix: nat): Option<nat> {
    if bytes == [] then Some(0)
    else
      var last := |bytes| - 1;
      var high := DigitsValue(bytes[..last], radix);
      var low := DigitValue(bytes[last], radix);
      if high.Some? && low.Some? then Some(high.value * radix + low.value) else None
  }

  /** `from_str_radix` for an unsigned type: one `+` is allowed, the rest are digits. */
  function ParseUnsigned(bytes: seq<Byte>, radix: nat, max: nat): Option<nat> {
    var digits := if |bytes| > 1 && bytes[0] == '+' as int then bytes[1..] else bytes;
    if digits == [] then None
    else
      var v := DigitsValue(digits, radix);
      if v.Some? && v.value <= max then v else None
  }

  /** `str::parse` for a signed type. */
  function ParseSigned(bytes: seq<Byte>, min: int, max: int): Option<int> {
    if |bytes| > 1 && bytes[0] == '-' as int then
      var v := DigitsValue(bytes[1..], 10);
      if v.Some? && min <= 0 - v.value then Some(0 - v.value) else None
    else
      var digits := if |bytes| > 1 && bytes[0] == '+' as int then bytes[1..] else bytes;
      if digits == [] then None
      else
        var v := DigitsValue(digits, 10);
        if v.Some? && v.value <= max then Some(v.value) else None
  }

  function DigitChar(d: nat): char
    requires d < 16
  {
    if d < 10 then ('0' as int + d) as char else ('A' as int + d - 10) as char
  }

  /** The shortest digits of `n`, most significant first: upper-case hexadecimal or decimal. */
  function Digits(n: nat, hex: bool): (s: string)
    ensures s != []
  {
    if hex then (if n < 16 then [DigitChar(n)] else Digits(n / 16, hex) + [DigitChar(n % 16)])
    else (if n < 10 then [DigitChar(n)] else Digits(n / 10, hex) + [DigitChar(n % 10)])
  }

  function Radix(hex: bool): nat {
    if hex then 16 else 10
  }

  function Decimal(n: nat): string {
    Digits(n, false)
  }

  function Zeros(k: nat): string {
    if k == 0 then "" else Zeros(k - 1) + "0"
  }

  /** `{n:0width}`: at least `width` digits, zero-filled on the left. */
  function ZeroPadded(n: nat, width: nat): string {
    var s := Decimal(n);
    if |s| >= width then s else Zeros(width - |s|) + s
  }

  predicate AllDigits(s: string, radix: nat) {
    forall i :: 0 <= i < |s| ==> s[i] as int < 0x80 && DigitValue(s[i] as int, radix).Some?
  }

  lemma {:induction false} Utf8Concat(s: string, t: string)
    ensures Utf8(s + t) == Utf8(s) + Utf8(t)
  {
    hide EncodeChar;
    if s == [] {
      assert s + t == t;
    } else {
      Utf8Concat(s[1..], t);
      assert (s + t)[1..] == s[1..] + t;
    }
  }

  lemma Utf8OfChar(c: char)
    requires c as int < 0x80
    ensures Utf8([c]) == [c as int]
  {
    assert [c][1..] == [];
  }

  lemma DigitRoundTrips(d: nat, radix: nat)
    requires d < radix <= 16
    ensures DigitChar(d) as int < 0x80 && DigitValue(DigitChar(d) as int, radix) == Some(d)
  {
  }

  lemma OneMoreDigit(high: seq<Byte>, b: Byte, radix: nat)
    ensures var h, l := DigitsValue(high, radix), DigitValue(b, radix);
      DigitsValue(high + [b], radix) == if h.Some? && l.Some? then Some(h.value * radix + l.value) else None
  {
    hide DigitValue;
    assert (high + [b])[..|high|] == high;
  }

  lemma {:induction false} DigitsAreDigits(n: nat, hex: bool)
    ensures AllDigits(Digits(n, hex), Radix(hex))
  {
    DigitRoundTrips(if hex then n % 16 else n % 10, Radix(hex));
    hide DigitValue, DigitChar;
    if n >= Radix(hex) {
      DigitsAreDigits(if hex then n / 16 else n / 10, hex);
    }
  }

  /** The digits of a number spell it. */
  lemma {:induction false} DigitsSpell(n: nat, hex: bool)
    ensures DigitsValue(Utf8(Digits(n, hex)), Radix(hex)) == Some(n)
  {
    var high, low := DigitsSplit(n, hex);
    var r, c := Radix(hex), DigitChar(low);
    DigitRoundTrips(low, r);
    hide *;
    Utf8OfChar(c);
    if high == 0 {
      EmptyDigits(r);
      OneMoreDigit([], c as int, r);
      assert [] + [c as int] == [c as int];
    } else {
      DigitsSpell(high, hex);
      Utf8Concat(Digits(high, hex), [c]);
      OneMoreDigit(Utf8(Digits(high, hex)), c as int, r);
    }
  }

  /** The last digit of a number, and the rest of it. */
  lemma DigitsSplit(n: nat, hex: bool) returns (high: nat, low: nat)
    ensures low < Radix(hex) <= 16 && n == high * Radix(hex) + low
    ensures Digits(n, hex) == if high == 0 then [DigitChar(low)] else Digits(high, hex) + [DigitChar(low)]
    ensures high > 0 ==> high < n
  {
    high, low := if hex then n / 16 else n / 10, if hex then n % 16 else n % 10;
    hide DigitChar;
  }

  /** The digits of a number do not begin with a zero, but for zero itself, and hexadecimal ones are in capitals. */
  lemma {:induction false} DigitsLook(n: nat, hex: bool)
    ensures Digits(n, hex)[0] == '0' <==> n == 0
    ensures forall i :: 0 <= i < |Digits(n, hex)| ==>
      '0' <= Digits(n, hex)[i] <= '9' || (hex && 'A' <= Digits(n, hex)[i] <= 'F')
  {
    var r := Radix(hex);
    if n >= r {
      DigitsLook(n / r, hex);
    }
  }

  /** Letters are digits alike in either case. */
  lemma {:induction false} DigitsIgnoreCase(s: string, radix: nat)
    requires IsAscii(s)
    ensures DigitsValue(Utf8(Lower(s)), radix) == DigitsValue(Utf8(s), radix)
  {
    hide Utf8, DigitsValue, DigitValue, LowerChar, EncodeChar;
    if s == [] {
      assert Lower(s) == s;
    } else {
      var front, c := s[..|s| - 1], s[|s| - 1];
      DigitsIgnoreCase(front, radix);
      LowerDigit(c, radix);
      assert s == front + [c] && Lower(s) == Lower(front) + [LowerChar(c)];
      Utf8Concat(front, [c]);
      Utf8Concat(Lower(front), [LowerChar(c)]);
      Utf8OfChar(c);
      Utf8OfChar(LowerChar(c));
      OneMoreDigit(Utf8(front), c as int, radix);
      OneMoreDigit(Utf8(Lower(front)), LowerChar(c) as int, radix);
    }
  }

  lemma LowerDigit(c: char, radix: nat)
    requires c as int < 0x80
    ensures LowerChar(c) as int < 0x80 && DigitValue(LowerChar(c) as int, radix) == DigitValue(c as int, radix)
  {
  }

  lemma EmptyDigits(radix: nat)
    ensures DigitsValue([], radix) == Some(0)
  {
  }

  lemma {:induction false} ZerosAreZero(k: nat)
    ensures AllDigits(Zeros(k), 10) && |Zeros(k)| == k && DigitsValue(Utf8(Zeros(k)), 10) == Some(0)
  {
    if k > 0 {
      ZerosAreZero(k - 1);
      Utf8OfChar('0');
      hide Utf8, DigitsValue;
      Utf8Concat(Zeros(k - 1), "0");
      OneMoreDigit(Utf8(Zeros(k - 1)), '0' as int, 10);
    }
  }

  lemma {:induction false} LeadingZeros(z: seq<Byte>, b: seq<Byte>)
    requires DigitsValue(z, 10) == Some(0)
    ensures DigitsValue(z + b, 10) == DigitsValue(b, 10)
  {
    if b == [] {
      assert z + b == z;
    } else {
      var front := b[..|b| - 1];
      LeadingZeros(z, front);
      assert (z + b)[..|z + b| - 1] == z + front;
    }
  }

  lemma ZeroPaddedValue(n: nat, width: nat)
    ensures AllDigits(ZeroPadded(n, width), 10) && ZeroPadded(n, width) != []
    ensures DigitsValue(Utf8(ZeroPadded(n, width)), 10) == Some(n)
  {
    DigitsSpell(n, false);
    DigitsAreDigits(n, false);
    var s := Decimal(n);
    hide Digits, DigitsValue, Utf8, DigitValue;
    if |s| < width {
      var z := Zeros(width - |s|);
      ZerosAreZero(width - |s|);
      Utf8Concat(z, s);
      LeadingZeros(Utf8(z), Utf8(s));
    }
  }

  /** Different numbers have different digits. */
  lemma DecimalInjective(m: nat, n: nat)
    requires Decimal(m) == Decimal(n)
    ensures m == n
  {
    DigitsSpell(m, false);
    DigitsSpell(n, false);
  }

  function Pow10(k: nat): nat {
    if k == 0 then 1 else 10 * Pow10(k - 1)
  }

  /** A number has at most `k` digits exactly when it is below ten to the `k`. */
  lemma {:induction false} DecimalLength(n: nat, k: nat)
    requires k >= 1
    ensures |Decimal(n)| <= k <==> n < Pow10(k)
    decreases k
  {
    if k == 1 {
      assert Pow10(1) == 10 * Pow10(0);
    } else if n >= 10 {
      DecimalLength(n / 10, k - 1);
    } else {
      DecimalLength(n, k - 1);
      assert Pow10(k) >= 10 by { Pow10AtLeast(k); }
    }
  }

  lemma {:induction false} Pow10AtLeast(k: nat)
    requires k >= 1
    ensures Pow10(k) >= 10
  {
    if k > 1 {
      Pow10AtLeast(k - 1);
    } else {
      assert Pow10(1) == 10 * Pow10(0);
    }
  }

  lemma ZeroPaddedLength(n: nat, width: nat)
    requires width >= 1
    ensures |ZeroPadded(n, width)| == width <==> n < Pow10(width)
    ensures |ZeroPadded(n, width)| >= width
  {
    DecimalLength(n, width);
    DigitsSpell(n, false);
    ZerosAreZero(if |Decimal(n)| >= width then 0 else width - |Decimal(n)|);
  }

  /** Digit strings contain neither whitespace nor a sign. */
  lemma DigitsArePlain(s: string, radix: nat)
    requires radix <= 36 && AllDigits(s, radix)
    ensures forall i :: 0 <= i < |s| ==> !IsWhitespace(s[i]) && s[i] != '+' && s[i] != '-'
  {
  }

  lemma TrimIsIdentity(s: string)
    requires s == [] || (!IsWhitespace(s[0]) && !IsWhitespace(s[|s| - 1]))
    ensures Trim(s) == s
  {
  }

  /** A plus may stand before the digits, and before those of a signed number a minus. */
  lemma SignsAre(digits: seq<Byte>, radix: nat, n: nat, min: int, max: nat)
    requires digits != [] && DigitsValue(digits, radix) == Some(n) && radix <= 36
    requires digits[0] != '+' as int && digits[0] != '-' as int
    ensures ParseUnsigned(digits, radix, max) == ParseUnsigned(['+' as int] + digits, radix, max) ==
      if n <= max then Some(n) else None
    ensures ParseUnsigned(['-' as int] + digits, radix, max) == None
    ensures radix == 10 ==>
      && ParseSigned(digits, min, max) == ParseSigned(['+' as int] + digits, min, max) == ParseUnsigned(digits, 10, max)
      && ParseSigned(['-' as int] + digits, min, max) == if min <= 0 - n then Some(0 - n) else None
  {
    var plus, minus := ['+' as int] + digits, ['-' as int] + digits;
    assert DigitValue('-' as int, radix).None?;
    hide DigitValue;
    NotAllDigits(minus, radix);
    assert minus[1..] == digits && plus[1..] == digits;
  }

  lemma {:induction false} NotAllDigits(bytes: seq<Byte>, radix: nat)
    requires bytes != [] && DigitValue(bytes[0], radix).None?
    ensures DigitsValue(bytes, radix).None?
  {
    if |bytes| > 1 {
      NotAllDigits(bytes[..|bytes| - 1], radix);
    }
  }

  lemma ParsesDigits(s: string, radix: nat, max: nat, n: nat)
    requires radix <= 36 && AllDigits(s, radix) && s != []
    requires DigitsValue(Utf8(s), radix) == Some(n)
    ensures ParseUnsigned(Utf8(s), radix, max) == if n <= max then Some(n) else None
  {
    Utf8OfAscii(s);
    DigitsArePlain(s, radix);
    assert Utf8(s)[0] == s[0] as int;
  }
}
