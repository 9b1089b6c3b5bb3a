/**
 The three forms of a rollback index and the parser of manual targets
 (crates/ltbox-gui/src/main.rs), with the UTC timestamp renderings they rest on
 (crates/ltbox-gui/src/arb.rs).
 */
module RollbackFormat {
  import opened Wrappers
  import opened Arithmetic
  import opened Text
  import opened Civil

  datatype Format = Raw | Unix | DateForm

  datatype ParseError = MissingPrefix | BadHex | BadDecimal | DateShape | DateValue

  const DAY: int := 86_400
  /** Midnight of 10000-01-01, the first day whose year needs five digits. */
  const YEAR_10000: int := 253_402_300_800

  function FormatDate(ts: nat): string {
    var d := CivilFromDays(ts / DAY);
    DateText(d.year, d.month, d.day)
  }

  /** Digits of a field that is never negative for an unsigned timestamp. */
  function Field(n: int, width: nat): string {
    ZeroPadded(if n < 0 then 0 else n, width)
  }

  function DateText(y: int, m: int, d: int): string {
    Field(y, 4) + "-" + Field(m, 2) + "-" + Field(d, 2)
  }

  function ClockText(rem: int): string {
    Field(rem / 3600, 2) + ":" + Field(rem % 3600 / 60, 2) + ":" + Field(rem % 60, 2)
  }

  function FormatTimestamp(ts: nat): string {
    FormatDate(ts) + " " + ClockText(ts % DAY) + " UTC"
  }

  function Render(format: Format, index: nat): string {
    match format
    case Raw => "0x" + Digits(index, true)
    case Unix => Decimal(index)
    case DateForm => FormatDate(index)
  }

  function OrError<T>(o: Option<T>, e: ParseError): Result<T, ParseError> {
    if o.Some? then Ok(o.value) else Err(e)
  }

  function Parse(format: Format, input: string): Result<nat, ParseError> {
    var trimmed := Trim(input);
    match format
    case Raw =>
      if |trimmed| >= 2 && trimmed[0] == '0' && (trimmed[1] == 'x' || trimmed[1] == 'X') then
        OrError(ParseUnsigned(Utf8(trimmed[2..]), 16, U64_MAX), BadHex)
      else Err(MissingPrefix)
    case Unix => OrError(ParseUnsigned(Utf8(trimmed), 10, U64_MAX), BadDecimal)
    case DateForm => ParseDate(Utf8(trimmed))
  }

  function ParseDate(bytes: seq<Byte>): Result<nat, ParseError> {
    if |bytes| != 10 || bytes[4] != '-' as int || bytes[7] != '-' as int then Err(DateShape)
    else
      FieldsToTimestamp(ParseSigned(bytes[..4], I32_MIN, I32_MAX),
                        ParseUnsigned(bytes[5..7], 10, U32_MAX),
                        ParseUnsigned(bytes[8..], 10, U32_MAX))
  }

  function FieldsToTimestamp(year: Option<int>, month: Option<nat>, day: Option<nat>): Result<nat, ParseError> {
    if year.None? || month.None? || day.None? || !(1 <= month.value <= 12) || !(1 <= day.value <= 31) then
      Err(DateValue)
    else
      var days := DaysFromCivil(Date(year.value, month.value, day.value));
      if days.None? || days.value * DAY < 0 then Err(DateValue) else Ok(days.value * DAY)
  }

  // ---- Raw and Unix ---------------------------------------------------------------

  lemma TrimPlain(s: string)
    requires s != [] && forall i :: 0 <= i < |s| ==> !IsWhitespace(s[i])
    ensures Trim(s) == s
  {
  }

  /** Every 64-bit index survives the hexadecimal and the decimal form; a larger number is refused. */
  lemma NumberRoundTrips(index: nat)
    ensures Parse(Raw, Render(Raw, index)) == if index <= U64_MAX then Ok(index) else Err(BadHex)
    ensures Parse(Unix, Render(Unix, index)) == if index <= U64_MAX then Ok(index) else Err(BadDecimal)
  {
    hide DigitValue, Digits, Utf8, DigitsValue, IsWhitespace, ParseUnsigned, Lower;
    var hex, dec := Digits(index, true), Digits(index, false);
    DigitsSpell(index, true);
    DigitsSpell(index, false);
    DigitsAreDigits(index, true);
    DigitsAreDigits(index, false);
    DigitsArePlain(dec, 10);
    ParsesDigits(dec, 10, U64_MAX, index);
    TrimPlain(dec);
    ParsesHex("0x", hex, index);
  }

  lemma ParsesHex(prefix: string, hex: string, index: nat)
    requires prefix == "0x" || prefix == "0X"
    requires AllDigits(hex, 16) && hex != [] && DigitsValue(Utf8(hex), 16) == Some(index)
    ensures Parse(Raw, prefix + hex) == if index <= U64_MAX then Ok(index) else Err(BadHex)
  {
    hide DigitValue, Utf8, DigitsValue, IsWhitespace, ParseUnsigned;
    DigitsArePlain(hex, 16);
    ParsesDigits(hex, 16, U64_MAX, index);
    PrefixIsPlain();
    TrimPlain(prefix + hex);
    assert (prefix + hex)[2..] == hex;
  }

  /** A hexadecimal target is read in either case, prefix included. */
  lemma HexIgnoresCase(index: nat)
    requires index <= U64_MAX
    ensures var hex := Digits(index, true);
      Parse(Raw, "0x" + Lower(hex)) == Parse(Raw, "0X" + Lower(hex)) == Parse(Raw, "0X" + hex) == Ok(index)
  {
    var hex := Digits(index, true);
    DigitsSpell(index, true);
    DigitsAreDigits(index, true);
    DigitsIgnoreCase(hex, 16);
    LowerDigits(hex);
    hide Digits, Utf8, DigitsValue, Lower, Parse;
    ParsesHex("0X", hex, index);
    ParsesHex("0x", Lower(hex), index);
    ParsesHex("0X", Lower(hex), index);
  }

  lemma LowerDigits(s: string)
    requires AllDigits(s, 16)
    ensures AllDigits(Lower(s), 16)
  {
  }

  /** The text of a number: `0x` and capital digits or decimal digits, none of them a leading zero, spelling it. */
  lemma NumberText(index: nat)
    ensures var raw, dec := Render(Raw, index), Render(Unix, index);
      && |raw| > 2 && raw[..2] == "0x" && (raw[2] == '0' <==> index == 0)
      && (forall i :: 2 <= i < |raw| ==> '0' <= raw[i] <= '9' || 'A' <= raw[i] <= 'F')
      && DigitsValue(Utf8(raw[2..]), 16) == Some(index)
      && dec != "" && (dec[0] == '0' <==> index == 0)
      && (forall i :: 0 <= i < |dec| ==> '0' <= dec[i] <= '9')
      && DigitsValue(Utf8(dec), 10) == Some(index)
  {
    DigitsLook(index, true);
    DigitsLook(index, false);
    DigitsSpell(index, true);
    DigitsSpell(index, false);
    hide Digits, DigitsValue, Utf8;
    var raw := Render(Raw, index);
    assert raw[2..] == Digits(index, true);
  }

  /** Blanks around a target are ignored in every form. */
  lemma ParseIgnoresBlanks(format: Format, before: string, input: string, after: string)
    requires AllWhitespace(before) && AllWhitespace(after)
    ensures Parse(format, before + input + after) == Parse(format, input)
  {
    TrimExactly(before, input, after);
    hide Trim, ParseUnsigned, ParseDate, Utf8;
  }

  /** A hexadecimal target without its prefix and an empty target are refused by name. */
  lemma MalformedTargets(input: string)
    ensures !("0x" <= Trim(input)) && !("0X" <= Trim(input)) <==> Parse(Raw, input) == Err(MissingPrefix)
    ensures Trim(input) == "" ==> Parse(Unix, input) == Err(BadDecimal) && Parse(DateForm, input) == Err(DateShape)
  {
    var t := Trim(input);
    hide Trim;
    assert Utf8("") == [];
    assert "0x" <= t <==> |t| >= 2 && t[0] == '0' && t[1] == 'x' by {
      assert "0x" <= t ==> t[..2] == "0x";
    }
    assert "0X" <= t <==> |t| >= 2 && t[0] == '0' && t[1] == 'X' by {
      assert "0X" <= t ==> t[..2] == "0X";
    }
  }

  lemma PrefixIsPlain()
    ensures !IsWhitespace('0') && !IsWhitespace('x') && !IsWhitespace('X') && !IsWhitespace('-')
  {
  }

  // ---- The date form ----------------------------------------------------------------

  lemma FieldValue(n: nat, width: nat)
    requires width >= 1
    ensures AllDigits(Field(n, width), 10) && Field(n, width) != [] && |Field(n, width)| >= width
    ensures |Field(n, width)| == width <==> n < Pow10(width)
    ensures DigitsValue(Utf8(Field(n, width)), 10) == Some(n)
    ensures |Utf8(Field(n, width))| == |Field(n, width)|
    ensures forall i :: 0 <= i < |Field(n, width)| ==> !IsWhitespace(Field(n, width)[i])
    ensures forall max: nat :: n <= max ==> ParseUnsigned(Utf8(Field(n, width)), 10, max) == Some(n)
  {
    ZeroPaddedValue(n, width);
    ZeroPaddedLength(n, width);
    var s := Field(n, width);
    hide ZeroPadded, ParseUnsigned, DigitValue, IsWhitespace;
    DigitsArePlain(s, 10);
    Utf8OfAscii(s);
    forall max: nat | n <= max ensures ParseUnsigned(Utf8(s), 10, max) == Some(n) {
      ParsesDigits(s, 10, max, n);
    }
  }

  lemma SignedField(n: nat, width: nat)
    requires width >= 1 && n <= I32_MAX
    ensures ParseSigned(Utf8(Field(n, width)), I32_MIN, I32_MAX) == Some(n)
  {
    FieldValue(n, width);
    var s := Field(n, width);
    hide ZeroPadded, ParseUnsigned, DigitValue, IsWhitespace;
    DigitsArePlain(s, 10);
    Utf8OfAscii(s);
    assert Utf8(s)[0] == s[0] as int;
  }

  /** The bytes of a date are the bytes of its fields between two dashes. */
  lemma DateTextBytes(y: nat, m: nat, d: nat)
    ensures Trim(DateText(y, m, d)) == DateText(y, m, d)
    ensures Utf8(DateText(y, m, d)) ==
      Utf8(Field(y, 4)) + ['-' as int] + Utf8(Field(m, 2)) + ['-' as int] + Utf8(Field(d, 2))
  {
    FieldValue(y, 4);
    FieldValue(m, 2);
    FieldValue(d, 2);
    PrefixIsPlain();
    var a, b, c := Field(y, 4), Field(m, 2), Field(d, 2);
    TrimPlain(a + "-" + b + "-" + c);
    Utf8OfChar('-');
    hide *;
    Utf8Concat(a, "-");
    Utf8Concat(a + "-", b);
    Utf8Concat(a + "-" + b, "-");
    Utf8Concat(a + "-" + b + "-", c);
  }

  lemma TenPowers()
    ensures Pow10(2) == 100 && Pow10(4) == 10_000
  {
    assert Pow10(1) == 10 * Pow10(0);
    assert Pow10(2) == 10 * Pow10(1);
    assert Pow10(3) == 10 * Pow10(2);
  }

  /**
   A zero-filled `YYYY-MM-DD` is accepted exactly when it names a calendar day of
   1970 or later, and then it means that day's midnight.
   */
  lemma DateTextMeansMidnight(y: nat, m: nat, d: nat)
    requires y < 10_000 && m < 100 && d < 100
    ensures Parse(DateForm, DateText(y, m, d)) ==
      if ValidDate(Date(y, m, d)) && y >= 1970 then Ok(DayNumber(Date(y, m, d)) * DAY) else Err(DateValue)
  {
    hide Utf8, Field, DateText, DigitsValue, ParseUnsigned, ParseSigned, IsWhitespace, DigitValue, Trim, Pow10;
    hide FieldsToTimestamp, ValidDate, DayNumber;
    var a, b, c := Utf8(Field(y, 4)), Utf8(Field(m, 2)), Utf8(Field(d, 2));
    TenPowers();
    FieldValue(y, 4);
    FieldValue(m, 2);
    FieldValue(d, 2);
    SignedField(y, 4);
    DateTextBytes(y, m, d);
    var bytes := Utf8(DateText(y, m, d));
    assert bytes[..4] == a && bytes[5..7] == b && bytes[8..] == c;
    FieldsMeanMidnight(y, m, d);
  }

  lemma FieldsMeanMidnight(y: int, m: nat, d: nat)
    requires -10_000 < y < 10_000
    ensures FieldsToTimestamp(Some(y), Some(m), Some(d)) ==
      if ValidDate(Date(y, m, d)) && y >= 1970 then Ok(DayNumber(Date(y, m, d)) * DAY) else Err(DateValue)
  {
    var date := Date(y, m, d);
    if 1 <= m <= 12 && d >= 1 {
      OrdinalOfYear(date);
    }
    hide DaysFromCivil, DayNumber;
    if ValidDate(date) {
      YearLandmarks(date);
    }
  }

  /** The inverse on the years a four-byte field can hold. */
  lemma OrdinalOfYear(d: Date)
    requires -10_000 < d.year < 10_000 && 1 <= d.month <= 12 && d.day >= 1
    ensures DaysFromCivil(d) == if ValidDate(d) then Some(DayNumber(d)) else None
  {
    DaysFromCivilAccepts(d);
    hide DaysFromCivil, DayNumber, ValidDate;
    if ValidDate(d) {
      DaysFromCivilExact(d);
    }
  }

  /**
   A date target is ten bytes with dashes in the fifth and the eighth place, refused for its
   shape otherwise. Its three numbers are accepted exactly when they name a calendar day of
   1970 or later, and mean that day's midnight.
   */
  lemma DateTargetMeans(input: string)
    ensures var bytes := Utf8(Trim(input));
      if |bytes| == 10 && bytes[4] == '-' as int && bytes[7] == '-' as int then
        var y, m, d := ParseSigned(bytes[..4], I32_MIN, I32_MAX), ParseUnsigned(bytes[5..7], 10, U32_MAX),
                       ParseUnsigned(bytes[8..], 10, U32_MAX);
        Parse(DateForm, input) ==
          if y.Some? && m.Some? && d.Some? && ValidDate(Date(y.value, m.value, d.value)) && y.value >= 1970
          then Ok(DayNumber(Date(y.value, m.value, d.value)) * 86_400) else Err(DateValue)
      else Parse(DateForm, input) == Err(DateShape)
  {
    hide ParseSigned, ParseUnsigned, DaysFromCivil, Utf8, Trim, ValidDate, DayNumber;
    var bytes := Utf8(Trim(input));
    if |bytes| == 10 && bytes[4] == '-' as int && bytes[7] == '-' as int {
      var y, m, d := ParseSigned(bytes[..4], I32_MIN, I32_MAX), ParseUnsigned(bytes[5..7], 10, U32_MAX),
                     ParseUnsigned(bytes[8..], 10, U32_MAX);
      if y.Some? && m.Some? && d.Some? {
        FourByteYear(bytes[..4]);
        hide FieldsToTimestamp;
        FieldsMeanMidnight(y.value, m.value, d.value);
      }
    }
  }

  /**
   The date form loses exactly the time of day, for every index before the year
   10000; from then on its own rendering is refused for its shape.
   */
  lemma DateFormRoundTrips(index: nat)
    ensures Parse(DateForm, Render(DateForm, index)) ==
      if index < YEAR_10000 then Ok(index - index % DAY) else Err(DateShape)
  {
    hide CivilFromDays, DayNumber, ValidDate, DateText, Parse;
    var z := index / DAY;
    var d := CivilFromDays(z);
    assert Render(DateForm, index) == DateText(d.year, d.month, d.day);
    hide *;
    CivilFromDaysCounts(z);
    YearLandmarks(d);
    if index < YEAR_10000 {
      DateTextMeansMidnight(d.year, d.month, d.day);
    } else {
      LongYearIsRefused(d.year, d.month, d.day);
    }
  }

  lemma LongYearIsRefused(y: nat, m: nat, d: nat)
    requires y >= 10_000
    ensures Parse(DateForm, DateText(y, m, d)) == Err(DateShape)
  {
    TenPowers();
    FieldValue(y, 4);
    FieldValue(m, 2);
    FieldValue(d, 2);
    DateTextBytes(y, m, d);
  }

  /**
   Every date text that is accepted, canonical or not, means the midnight of a
   day, and rendering that midnight gives a text with the same meaning.
   */
  lemma AcceptedDatesAreMidnights(input: string)
    requires Parse(DateForm, input).Ok?
    ensures var ts := Parse(DateForm, input).value;
      ts % DAY == 0 && ts <= U64_MAX && Parse(DateForm, Render(DateForm, ts)) == Ok(ts)
  {
    hide DaysFromCivil, Utf8, Trim, ParseSigned, ParseUnsigned, Render;
    var y, m, d := AcceptedFields(Utf8(Trim(input)));
    assert Parse(DateForm, input) == FieldsToTimestamp(Some(y), Some(m), Some(d));
    hide *;
    FieldsMeanMidnight(y, m, d);
    YearLandmarks(Date(y, m, d));
    DateFormRoundTrips(DayNumber(Date(y, m, d)) * DAY);
  }

  lemma AcceptedFields(bytes: seq<Byte>) returns (y: int, m: nat, d: nat)
    requires ParseDate(bytes).Ok?
    ensures -10_000 < y < 10_000
    ensures ParseDate(bytes) == FieldsToTimestamp(Some(y), Some(m), Some(d))
  {
    hide ParseSigned, ParseUnsigned, DaysFromCivil;
    y := ParseSigned(bytes[..4], I32_MIN, I32_MAX).value;
    m := ParseUnsigned(bytes[5..7], 10, U32_MAX).value;
    d := ParseUnsigned(bytes[8..], 10, U32_MAX).value;
    FourByteYear(bytes[..4]);
  }

  lemma FourByteYear(bytes: seq<Byte>)
    requires |bytes| == 4 && ParseSigned(bytes, I32_MIN, I32_MAX).Some?
    ensures -10_000 < ParseSigned(bytes, I32_MIN, I32_MAX).value < 10_000
  {
    TenPowers();
    hide DigitValue;
    DigitsBelow(bytes);
    DigitsBelow(bytes[1..]);
  }

  lemma {:induction false} DigitsBelow(bytes: seq<Byte>)
    ensures DigitsValue(bytes, 10).Some? ==> DigitsValue(bytes, 10).value < Pow10(|bytes|)
  {
    if bytes != [] {
      DigitsBelow(bytes[..|bytes| - 1]);
    }
  }

  // ---- The timestamp form -------------------------------------------------------------

  /** The text is the number in decimal digits, zero-filled. */
  predicate Reads(text: string, n: nat) {
    AllDigits(text, 10) && text != "" && DigitsValue(Utf8(text), 10) == Some(n)
  }

  /** The date form read back: a calendar date, the one its day number counts to. */
  lemma DateReadsBack(ts: nat) returns (y: nat, mo: nat, d: nat)
    ensures var t := FormatDate(ts);
      && |t| >= 10 && (|t| == 10 <==> y < 10_000)
      && Reads(t[..|t| - 6], y) && t[|t| - 6] == '-' && Reads(t[|t| - 5..|t| - 3], mo) && t[|t| - 3] == '-'
      && Reads(t[|t| - 2..], d)
    ensures ValidDate(Date(y, mo, d)) && DayNumber(Date(y, mo, d)) == ts / 86_400
  {
    hide CivilFromDays, DayNumber, ValidDate, Field, Utf8, DigitsValue, Pow10;
    var date := CivilFromDays(ts / DAY);
    DateOfDay(ts / DAY);
    y, mo, d := date.year, date.month, date.day;
    TenPowers();
    FieldValue(y, 4);
    FieldValue(mo, 2);
    FieldValue(d, 2);
    var t := FormatDate(ts);
    assert t[..|t| - 6] == Field(y, 4) && t[|t| - 5..|t| - 3] == Field(mo, 2) && t[|t| - 2..] == Field(d, 2);
  }

  lemma DateOfDay(z: nat)
    ensures var d := CivilFromDays(z);
      ValidDate(d) && DayNumber(d) == z && 0 <= d.year && 0 <= d.month < 100 && 0 <= d.day < 100
  {
    hide *;
    CivilFromDaysCounts(z);
    YearLandmarks(CivilFromDays(z));
    ShortFields(CivilFromDays(z));
  }

  lemma ShortFields(d: Date)
    requires ValidDate(d)
    ensures 0 <= d.month < 100 && 0 <= d.day < 100
  {
  }

  /**
   A timestamp text read back. It is a date, a blank, a time of day and ` UTC`; the numbers
   in it are a calendar date, an hour, a minute and a second, and count to the timestamp.
   */
  lemma TimestampReadsBack(ts: nat) returns (y: nat, mo: nat, d: nat, h: nat, m: nat, s: nat)
    ensures var t := FormatTimestamp(ts);
      && |t| >= 23 && (|t| == 23 <==> y < 10_000)
      && Reads(t[..|t| - 19], y) && t[|t| - 19] == '-' && Reads(t[|t| - 18..|t| - 16], mo) && t[|t| - 16] == '-'
      && Reads(t[|t| - 15..|t| - 13], d) && t[|t| - 13] == ' '
      && Reads(t[|t| - 12..|t| - 10], h) && t[|t| - 10] == ':' && Reads(t[|t| - 9..|t| - 7], m) && t[|t| - 7] == ':'
      && Reads(t[|t| - 6..|t| - 4], s) && t[|t| - 4..] == " UTC"
    ensures ValidDate(Date(y, mo, d)) && h < 24 && m < 60 && s < 60
    ensures DayNumber(Date(y, mo, d)) * 86_400 + 3600 * h + 60 * m + s == ts
  {
    hide FormatDate, Reads, ValidDate, DayNumber;
    y, mo, d := DateReadsBack(ts);
    var rem := ts % DAY;
    ClockParts(rem);
    h, m, s := rem / 3600, rem % 3600 / 60, rem % 60;
    ClockReads(rem);
    hide ClockText;
    TimestampFields(FormatDate(ts), ClockText(rem));
  }

  /** Where the parts of a date and a clock lie in the timestamp text. */
  lemma TimestampFields(date: string, clock: string)
    requires |date| >= 10 && |clock| == 8
    ensures var t, k := date + " " + clock + " UTC", |date|;
      && |t| == k + 13
      && t[..k - 6] == date[..k - 6] && t[k - 6] == date[k - 6] && t[k - 5..k - 3] == date[k - 5..k - 3]
      && t[k - 3] == date[k - 3] && t[k - 2..k] == date[k - 2..] && t[k] == ' '
      && t[k + 1..k + 3] == clock[..2] && t[k + 3] == clock[2] && t[k + 4..k + 6] == clock[3..5]
      && t[k + 6] == clock[5] && t[k + 7..k + 9] == clock[6..] && t[k + 9..] == " UTC"
  {
  }

  lemma ClockReads(rem: int)
    requires 0 <= rem < DAY
    ensures var t := ClockText(rem);
      && |t| == 8 && Reads(t[..2], rem / 3600) && t[2] == ':' && Reads(t[3..5], rem % 3600 / 60) && t[5] == ':'
      && Reads(t[6..], rem % 60)
  {
    hide Field, Utf8, DigitsValue, DigitValue, Pow10;
    ClockTextLength(rem);
    FieldValue(rem / 3600, 2);
    FieldValue(rem % 3600 / 60, 2);
    FieldValue(rem % 60, 2);
  }

  lemma FieldInjective(m: nat, n: nat, width: nat)
    requires width >= 1 && Field(m, width) == Field(n, width)
    ensures m == n
  {
    FieldValue(m, width);
    FieldValue(n, width);
  }

  lemma NamedDay(z: nat)
    ensures var d := CivilFromDays(z);
      DayNumber(d) == z && d.year >= 1970 && 1 <= d.month <= 12 && 1 <= d.day <= 31
  {
    hide *;
    CivilFromDaysCounts(z);
    YearLandmarks(CivilFromDays(z));
  }

  lemma DateTextInjective(d: Date, e: Date)
    requires d.year >= 0 && 0 <= d.month < 100 && 0 <= d.day < 100
    requires e.year >= 0 && 0 <= e.month < 100 && 0 <= e.day < 100
    requires DateText(d.year, d.month, d.day) == DateText(e.year, e.month, e.day)
    ensures d == e
  {
    hide Field, Utf8, DigitsValue, ParseUnsigned, DigitValue, IsWhitespace, Pow10;
    TenPowers();
    FieldValue(d.month, 2);
    FieldValue(d.day, 2);
    FieldValue(e.month, 2);
    FieldValue(e.day, 2);
    var s := DateText(d.year, d.month, d.day);
    var k := |s| - 6;
    assert Field(d.year, 4) == s[..k] && Field(d.month, 2) == s[k + 1..k + 3] && Field(d.day, 2) == s[k + 4..];
    var t := DateText(e.year, e.month, e.day);
    assert Field(e.year, 4) == t[..k] && Field(e.month, 2) == t[k + 1..k + 3] && Field(e.day, 2) == t[k + 4..];
    hide *;
    FieldInjective(d.year, e.year, 4);
    FieldInjective(d.month, e.month, 2);
    FieldInjective(d.day, e.day, 2);
  }

  lemma ClockTextLength(rem: int)
    requires 0 <= rem < DAY
    ensures |ClockText(rem)| == 8
    ensures Field(rem / 3600, 2) == ClockText(rem)[..2]
    ensures Field(rem % 3600 / 60, 2) == ClockText(rem)[3..5]
    ensures Field(rem % 60, 2) == ClockText(rem)[6..]
  {
    hide Field, Utf8, DigitsValue, ParseUnsigned, DigitValue, IsWhitespace, Pow10;
    TenPowers();
    FieldValue(rem / 3600, 2);
    FieldValue(rem % 3600 / 60, 2);
    FieldValue(rem % 60, 2);
  }

  lemma ClockTextInjective(s: int, t: int)
    requires 0 <= s < DAY && 0 <= t < DAY && ClockText(s) == ClockText(t)
    ensures s == t
  {
    ClockTextLength(s);
    ClockTextLength(t);
    hide *;
    FieldInjective(s / 3600, t / 3600, 2);
    FieldInjective(s % 3600 / 60, t % 3600 / 60, 2);
    FieldInjective(s % 60, t % 60, 2);
    ClockParts(s);
    ClockParts(t);
  }

  lemma ClockParts(rem: int)
    ensures rem == rem / 3600 * 3600 + rem % 3600 / 60 * 60 + rem % 60
  {
    var h := rem / 3600;
    var m := rem % 3600 / 60;
    var s := rem % 3600 % 60;
    assert rem == 60 * (60 * h + m) + s;
    DivUnique(rem, 60, 60 * h + m);
  }

  /** Two timestamps with the same date text fall on the same day. */
  lemma DateIsTheDay(s: nat, t: nat)
    requires FormatDate(s) == FormatDate(t)
    ensures s / DAY == t / DAY
  {
    hide CivilFromDays, DayNumber, DateText;
    NamedDay(s / DAY);
    NamedDay(t / DAY);
    DateTextInjective(CivilFromDays(s / DAY), CivilFromDays(t / DAY));
  }

  /** No two timestamps render alike. */
  lemma TimestampInjective(s: nat, t: nat)
    requires FormatTimestamp(s) == FormatTimestamp(t)
    ensures s == t
  {
    hide FormatDate, ClockText;
    ClockTextLength(s % DAY);
    ClockTextLength(t % DAY);
    var a, b := FormatTimestamp(s), FormatTimestamp(t);
    var k := |a| - 13;
    assert FormatDate(s) == a[..k] && ClockText(s % DAY) == a[k + 1..k + 9];
    assert FormatDate(t) == b[..k] && ClockText(t % DAY) == b[k + 1..k + 9];
    DateIsTheDay(s, t);
    ClockTextInjective(s % DAY, t % DAY);
  }
}
