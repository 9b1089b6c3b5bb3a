/**
 The proleptic Gregorian calendar and the two closed forms the application
 converts with (crates/ltbox-gui/src/arb.rs, crates/ltbox-gui/src/main.rs).
 The specification is the day-by-day successor of a calendar date.
 */
module Civil {
  import opened Wrappers
  import opened Arithmetic

  datatype Date = Date(year: int, month: int, day: int)

  const EPOCH := Date(1970, 1, 1)

  // ---- The calendar ---------------------------------------------------------

  predicate LeapYear(y: int) {
    y % 4 == 0 && (y % 100 != 0 || y % 400 == 0)
  }

  function DaysInMonth(y: int, m: int): int {
    if m == 2 then (if LeapYear(y) then 29 else 28)
    else if m == 4 || m == 6 || m == 9 || m == 11 then 30
    else 31
  }

  predicate ValidDate(d: Date) {
    1 <= d.month <= 12 && 1 <= d.day <= DaysInMonth(d.year, d.month)
  }

  /** The calendar day after `d`. */
  function NextDay(d: Date): Date {
    if d.day < DaysInMonth(d.year, d.month) then d.(day := d.day + 1)
    else if d.month < 12 then Date(d.year, d.month + 1, 1)
    else Date(d.year + 1, 1, 1)
  }

  /** The calendar day before `d`. */
  function PreviousDay(d: Date): Date {
    if d.day > 1 then d.(day := d.day - 1)
    else if d.month > 1 then Date(d.year, d.month - 1, DaysInMonth(d.year, d.month - 1))
    else Date(d.year - 1, 12, 31)
  }

  /** The date reached by walking `z` days from the Unix epoch, one day at a time. */
  function Walk(z: int): Date
    decreases if z < 0 then -z else z
  {
    if z == 0 then EPOCH
    else if z > 0 then NextDay(Walk(z - 1))
    else PreviousDay(Walk(z + 1))
  }

  // ---- The application's closed forms ---------------------------------------

  /** The 400-year era of a day count from 0000-03-01. */
  function EraOf(z: int): int {
    TruncDiv(if z >= 0 then z else z - 146_096, 146_097)
  }

  /** `civil_from_days`: days since the epoch to a date. */
  function CivilFromDays(days: int): Date {
    var z := days + 719_468;
    var era := EraOf(z);
    DateInEra(era, z - era * 146_097)
  }

  function YearOfEra(doe: int): int {
    (doe - doe / 1460 + doe / 36_524 - doe / 146_096) / 365
  }

  /** The date `doe` days after March 1 of year `400 * era`. */
  function DateInEra(era: int, doe: int): Date {
    var yoe := YearOfEra(doe);
    DateInYear(yoe + era * 400, doe - (365 * yoe + yoe / 4 - yoe / 100))
  }

  /** The date `doy` days after March 1 of year `y`. */
  function DateInYear(y: int, doy: int): Date {
    var mp := (5 * doy + 2) / 153;
    var d := doy - (153 * mp + 2) / 5 + 1;
    var m := if mp < 10 then mp + 3 else mp - 9;
    Date(if m <= 2 then y + 1 else y, m, d)
  }

  /**
   `civil_from_days_ordinal`: a date to days since the epoch. The year is a
   32-bit integer and `adjusted_year - 399` is evaluated at that width.
   */
  function DaysFromCivil(d: Date): Option<int> {
    if d.month < 1 || d.month > 12 || d.day > DaysInMonth(d.year, d.month) then None
    else
      var y := if d.month <= 2 then WrapI32(d.year - 1) else d.year;
      var mp := if d.month > 2 then d.month - 3 else d.month + 9;
      var doy := (153 * mp + 2) / 5 + d.day - 1;
      Some(OrdinalYearStart(y) + doy - 719_468)
  }

  /** Days from 0000-03-01 to March 1 of year `y`, as the inverse computes them. */
  function OrdinalYearStart(y: int): int {
    var era := TruncDiv(if y >= 0 then y else WrapI32(y - 399), 400);
    var yoe := y - era * 400;
    era * 146_097 + (yoe * 365 + TruncDiv(yoe, 4) - TruncDiv(yoe, 100))
  }

  // ---- Day numbers ------------------------------------------------------------

  function MarchYear(d: Date): int {
    if d.month <= 2 then d.year - 1 else d.year
  }

  function MarchMonth(d: Date): int {
    if d.month > 2 then d.month - 3 else d.month + 9
  }

  /** Days before March 1 of year `y`, up to a constant. */
  function YearStart(y: int): int {
    365 * y + y / 4 - y / 100 + y / 400
  }

  /** Days before the first of the `mp`-th month, counted from March. */
  function MonthStart(mp: int): int {
    (153 * mp + 2) / 5
  }

  /** Days since the epoch, as a polynomial of the date. */
  function DayNumber(d: Date): int {
    YearStart(MarchYear(d)) + MonthStart(MarchMonth(d)) + d.day - 1 - 719_468
  }

  lemma MonthTable()
    ensures MonthStart(0) == 0 && MonthStart(1) == 31 && MonthStart(2) == 61 && MonthStart(3) == 92
    ensures MonthStart(4) == 122 && MonthStart(5) == 153 && MonthStart(6) == 184 && MonthStart(7) == 214
    ensures MonthStart(8) == 245 && MonthStart(9) == 275 && MonthStart(10) == 306 && MonthStart(11) == 337
  {
  }

  /** A March-based year is a leap year when the February that ends it has 29 days. */
  lemma YearLength(y: int)
    ensures YearStart(y + 1) - YearStart(y) == (if LeapYear(y + 1) then 366 else 365)
  {
    var z := y + 1;
    CarryAt(y, 4);
    CarryAt(y, 100);
    CarryAt(y, 400);
    assert z % 100 == 0 ==> z % 4 == 0 by { if z % 100 == 0 { assert z == 4 * (25 * (z / 100)); } }
    assert z % 400 == 0 ==> z % 100 == 0 by { if z % 400 == 0 { assert z == 100 * (4 * (z / 400)); } }
  }

  lemma CarryAt(y: int, k: int)
    requires k > 1
    ensures (y + 1) / k == y / k + (if (y + 1) % k == 0 then 1 else 0)
  {
    var q := y / k;
    assert y == k * q + y % k;
    if y % k == k - 1 {
      assert y + 1 == k * (q + 1);
      DivUnique(y + 1, k, q + 1);
    } else {
      DivUnique(y + 1, k, q);
    }
  }

  /** The day number advances by exactly one along the calendar. */
  lemma NextDayCounts(d: Date)
    requires ValidDate(d)
    ensures ValidDate(NextDay(d)) && DayNumber(NextDay(d)) == DayNumber(d) + 1
  {
    var n := NextDay(d);
    if n.month == d.month && n.year == d.year {
      hide YearStart, MonthStart;
      assert MarchYear(n) == MarchYear(d) && MarchMonth(n) == MarchMonth(d);
    } else if d.month == 2 {
      YearLength(d.year - 1);
      MonthTable();
      hide YearStart, MonthStart;
    } else {
      MonthTable();
      hide YearStart, MonthStart;
      assert MarchYear(n) == MarchYear(d) && MarchMonth(n) == MarchMonth(d) + 1;
    }
  }

  lemma PreviousDayCounts(d: Date)
    requires ValidDate(d)
    ensures ValidDate(PreviousDay(d)) && DayNumber(PreviousDay(d)) == DayNumber(d) - 1
    ensures NextDay(PreviousDay(d)) == d
  {
    hide DayNumber;
    NextDayCounts(PreviousDay(d));
  }

  // ---- The day of an era --------------------------------------------------------

  /** The year of an era is the one whose day span contains the day. */
  lemma YearOfEraCorrect(doe: int)
    requires 0 <= doe < 146_097
    ensures var y := YearOfEra(doe); 0 <= y < 400 && YearStart(y) <= doe < YearStart(y + 1)
  {
    if doe < 146_096 {
      hide *;
      var c, q, s := SplitEra(doe);
      YearOfEraSplit(c, q, s);
      CenturyYear(c, q, if s < 1095 then s / 365 else 3);
    } else {
      assert YearOfEra(146_096) == 399 && YearStart(399) == 145_731 && YearStart(400) == 146_097;
    }
  }

  lemma SplitEra(doe: int) returns (c: int, q: int, s: int)
    requires 0 <= doe < 146_096
    ensures doe == 36_524 * c + 1461 * q + s
    ensures 0 <= c < 4 && 0 <= q < 25 && 0 <= s < 1461 && (q == 24 ==> s < 1460)
  {
    c := doe / 36_524;
    var r := doe % 36_524;
    q, s := r / 1461, r % 1461;
  }

  /** The corrected quotient, in centuries, four-year cycles and days. */
  lemma YearOfEraSplit(c: int, q: int, s: int)
    requires 0 <= c < 4 && 0 <= q < 25 && 0 <= s < 1461 && (q == 24 ==> s < 1460)
    ensures YearOfEra(36_524 * c + 1461 * q + s) == 100 * c + 4 * q + (if s < 1095 then s / 365 else 3)
  {
    var doe := 36_524 * c + 1461 * q + s;
    var e := if 24 * c + q + s < 1460 then 0 else 1;
    DivUnique(doe, 1460, 25 * c + q + e);
    DivUnique(doe, 36_524, c);
    DivUnique(doe, 146_096, 0);
    var t := if s < 1095 then s / 365 else 3;
    DivUnique(365 * (100 * c + 4 * q) + (s - e), 365, 100 * c + 4 * q + t);
  }

  lemma CenturyYear(c: int, q: int, t: int)
    requires 0 <= c < 4 && 0 <= q < 25 && 0 <= t < 4
    ensures YearStart(100 * c + 4 * q + t) == 36_524 * c + 1461 * q + 365 * t
    ensures YearStart(100 * c + 4 * q + t + 1) ==
      36_524 * c + 1461 * q + 365 * (t + 1) + (if t == 3 && (q < 24 || c == 3) then 1 else 0)
  {
    var y := 100 * c + 4 * q + t;
    assert y / 4 == 25 * c + q && y / 100 == c && y / 400 == 0;
    var z := y + 1;
    if t < 3 {
      assert z / 4 == 25 * c + q && z / 100 == c && z / 400 == 0;
    } else if q < 24 {
      assert z == 100 * c + 4 * (q + 1);
      assert z / 4 == 25 * c + q + 1 && z / 100 == c && z / 400 == 0;
    } else {
      assert z == 100 * (c + 1);
      assert z / 4 == 25 * (c + 1) && z / 100 == c + 1 && z / 400 == (if c == 3 then 1 else 0);
    }
  }

  /** The 153-day trick finds the March-based month whose span contains the day. */
  lemma MonthOfYearCorrect(doy: int)
    requires 0 <= doy < 366
    ensures var mp := (5 * doy + 2) / 153; 0 <= mp < 12 && MonthStart(mp) <= doy < MonthStart(mp + 1)
  {
  }

  lemma EraShift(y: int, era: int)
    requires 0 <= y
    ensures YearStart(y + 400 * era) == YearStart(y) + 146_097 * era
  {
    var n := y + 400 * era;
    DivUnique(n, 4, y / 4 + 100 * era);
    DivUnique(n, 100, y / 100 + 4 * era);
    DivUnique(n, 400, y / 400 + era);
  }

  // ---- The closed forms against the calendar ------------------------------------

  lemma DateInYearCounts(y: int, doy: int)
    requires 0 <= doy < (if LeapYear(y + 1) then 366 else 365)
    ensures ValidDate(DateInYear(y, doy)) && DayNumber(DateInYear(y, doy)) == YearStart(y) + doy - 719_468
  {
    MonthOfYearCorrect(doy);
    MonthTable();
    var mp := (5 * doy + 2) / 153;
    var d := DateInYear(y, doy);
    assert MarchYear(d) == y && MarchMonth(d) == mp;
  }

  lemma DateInEraCounts(era: int, doe: int)
    requires 0 <= doe < 146_097
    ensures ValidDate(DateInEra(era, doe))
    ensures DayNumber(DateInEra(era, doe)) == era * 146_097 + doe - 719_468
  {
    hide YearOfEra, DateInYear, ValidDate, DayNumber;
    YearOfEraCorrect(doe);
    var yoe := YearOfEra(doe);
    var doy := doe - (365 * yoe + yoe / 4 - yoe / 100);
    assert YearStart(yoe) == doe - doy;
    assert DateInEra(era, doe) == DateInYear(yoe + era * 400, doy);
    hide *;
    YearLength(yoe);
    EraShift(yoe, era);
    LeapPeriodic(yoe + 1, era);
    DateInYearCounts(yoe + era * 400, doy);
  }

  lemma EraOfFloors(z: int)
    ensures EraOf(z) == z / 146_097
  {
    TruncDivFloors(z, 146_097);
  }

  /** `civil_from_days` returns a calendar date whose day number is its argument. */
  lemma CivilFromDaysCounts(days: int)
    ensures ValidDate(CivilFromDays(days)) && DayNumber(CivilFromDays(days)) == days
  {
    hide EraOf, DateInEra, ValidDate, DayNumber;
    var z := days + 719_468;
    EraOfFloors(z);
    DateInEraCounts(z / 146_097, z - z / 146_097 * 146_097);
  }

  lemma LeapPeriodic(y: int, era: int)
    ensures LeapYear(y + 400 * era) == LeapYear(y)
  {
    ModShift(y, 4, 100 * era);
    ModShift(y, 100, 4 * era);
    ModShift(y, 400, era);
  }

  lemma ModShift(y: int, k: int, t: int)
    requires k > 0
    ensures (y + k * t) % k == y % k
  {
    assert y + k * t == k * (y / k + t) + y % k;
    DivUnique(y + k * t, k, y / k + t);
  }

  lemma {:induction false} YearStartMonotone(a: int, b: int)
    requires a <= b
    ensures YearStart(a) <= YearStart(b)
    decreases b - a
  {
    if a < b {
      YearLength(b - 1);
      YearStartMonotone(a, b - 1);
    }
  }

  lemma WithinYear(d: Date)
    requires ValidDate(d)
    ensures YearStart(MarchYear(d)) <= DayNumber(d) + 719_468 < YearStart(MarchYear(d) + 1)
  {
    MonthTable();
    YearLength(MarchYear(d));
  }

  lemma WithinMonth(d: Date)
    requires ValidDate(d)
    ensures 0 <= MarchMonth(d) < 12 && MonthStart(MarchMonth(d)) + d.day <= MonthStart(MarchMonth(d) + 1)
  {
    MonthTable();
  }

  /** Different calendar dates have different day numbers. */
  lemma DayNumberInjective(d: Date, e: Date)
    requires ValidDate(d) && ValidDate(e) && DayNumber(d) == DayNumber(e)
    ensures d == e
  {
    SameMarchYear(d, e);
    assert MonthStart(MarchMonth(d)) + d.day == MonthStart(MarchMonth(e)) + e.day;
    SameMarchMonth(d, e);
  }

  lemma SameMarchYear(d: Date, e: Date)
    requires ValidDate(d) && ValidDate(e) && DayNumber(d) == DayNumber(e)
    ensures MarchYear(d) == MarchYear(e)
  {
    hide *;
    WithinYear(d);
    WithinYear(e);
    var a, b := MarchYear(d), MarchYear(e);
    if a < b {
      YearStartMonotone(a + 1, b);
    } else if b < a {
      YearStartMonotone(b + 1, a);
    }
  }

  lemma SameMarchMonth(d: Date, e: Date)
    requires ValidDate(d) && ValidDate(e) && MarchYear(d) == MarchYear(e)
    requires MonthStart(MarchMonth(d)) + d.day == MonthStart(MarchMonth(e)) + e.day
    ensures d == e
  {
    WithinMonth(d);
    WithinMonth(e);
    assert d.day >= 1 && e.day >= 1;
    var m, n := MarchMonth(d), MarchMonth(e);
    assert m < n ==> MonthStart(m + 1) <= MonthStart(n);
    assert n < m ==> MonthStart(n + 1) <= MonthStart(m);
  }

  lemma NewYear(y: int)
    ensures DayNumber(Date(y, 1, 1)) == YearStart(y - 1) + 306 - 719_468
  {
    MonthTable();
  }

  lemma WithinCalendarYear(d: Date)
    requires ValidDate(d)
    ensures DayNumber(Date(d.year, 1, 1)) <= DayNumber(d) < DayNumber(Date(d.year + 1, 1, 1))
  {
    NewYear(d.year);
    NewYear(d.year + 1);
    YearLength(d.year - 1);
    MonthTable();
  }

  /** Day numbers order dates by their year. */
  lemma YearFromDayNumber(d: Date, y: int)
    requires ValidDate(d)
    ensures DayNumber(d) >= DayNumber(Date(y, 1, 1)) <==> d.year >= y
  {
    hide *;
    WithinCalendarYear(d);
    NewYear(d.year);
    NewYear(d.year + 1);
    NewYear(y);
    if d.year >= y {
      YearStartMonotone(y - 1, d.year - 1);
    } else {
      YearStartMonotone(d.year, y - 1);
    }
  }

  lemma Landmarks()
    ensures DayNumber(Date(1970, 1, 1)) == 0 && DayNumber(Date(10_000, 1, 1)) == 2_932_897
  {
  }

  /** The years that start at the epoch and at the last four-digit boundary. */
  lemma YearLandmarks(d: Date)
    requires ValidDate(d)
    ensures 1 <= d.month <= 12 && 1 <= d.day <= 31
    ensures DayNumber(d) >= 0 <==> d.year >= 1970
    ensures DayNumber(d) >= 2_932_897 <==> d.year >= 10_000
  {
    hide DayNumber;
    Landmarks();
    YearFromDayNumber(d, 1970);
    YearFromDayNumber(d, 10_000);
  }

  /** `civil_from_days` inverts the day number on every calendar date. */
  lemma CivilFromDaysInverts(d: Date)
    requires ValidDate(d)
    ensures CivilFromDays(DayNumber(d)) == d
  {
    CivilFromDaysCounts(DayNumber(d));
    DayNumberInjective(CivilFromDays(DayNumber(d)), d);
  }

  /** One more day is the calendar successor, for every day count. */
  lemma CivilSuccessor(z: int)
    ensures CivilFromDays(z + 1) == NextDay(CivilFromDays(z))
    ensures CivilFromDays(z - 1) == PreviousDay(CivilFromDays(z))
  {
    hide *;
    var d := CivilFromDays(z);
    CivilFromDaysCounts(z);
    NextDayCounts(d);
    CivilFromDaysInverts(NextDay(d));
    PreviousDayCounts(d);
    CivilFromDaysInverts(PreviousDay(d));
  }

  /** The closed form equals walking the calendar day by day from 1970-01-01. */
  lemma {:induction false} CivilFromDaysIsWalk(z: int)
    ensures CivilFromDays(z) == Walk(z)
    decreases if z < 0 then -z else z
  {
    if z == 0 {
      assert DayNumber(EPOCH) == 0;
      CivilFromDaysInverts(EPOCH);
    } else {
      var previous := if z > 0 then z - 1 else z + 1;
      assert Walk(z) == if z > 0 then NextDay(Walk(previous)) else PreviousDay(Walk(previous));
      hide *;
      CivilFromDaysIsWalk(previous);
      CivilSuccessor(previous);
    }
  }

  // ---- The inverse, at the width the code computes it ----------------------------

  /** No 32-bit subtraction wraps: the guard under which the inverse is exact. */
  predicate OrdinalInRange(d: Date) {
    I32_MIN + 399 <= MarchYear(d)
  }

  predicate Year32(d: Date) {
    I32_MIN <= d.year <= I32_MAX
  }

  lemma YearStartInEra(y: int)
    ensures var era, yoe := y / 400, y % 400;
      YearStart(y) == era * 146_097 + 365 * yoe + yoe / 4 - yoe / 100
  {
    EraShift(y % 400, y / 400);
  }

  lemma WrapI32Fits(x: int)
    requires I32_MIN <= x <= I32_MAX
    ensures WrapI32(x) == x
  {
  }

  lemma OrdinalYearStartExact(y: int)
    requires I32_MIN + 399 <= y <= I32_MAX
    ensures OrdinalYearStart(y) == YearStart(y)
  {
    if y < 0 {
      WrapI32Fits(y - 399);
    }
    TruncDivFloors(y, 400);
    YearStartInEra(y);
  }

  lemma DaysFromCivilExact(d: Date)
    requires ValidDate(d) && Year32(d) && OrdinalInRange(d)
    ensures DaysFromCivil(d) == Some(DayNumber(d))
  {
    hide OrdinalYearStart, WrapI32, YearStart, DaysInMonth;
    if d.month <= 2 {
      WrapI32Fits(d.year - 1);
    }
    OrdinalYearStartExact(MarchYear(d));
  }

  lemma TruncNearFloor(a: int, b: int)
    requires b > 0
    ensures a / b <= TruncDiv(a, b) <= a / b + 1
  {
    if a < 0 {
      var q := TruncDiv(a, b);
      assert b * (-q) <= -a < b * (-q) + b;
      if a == b * q {
        DivUnique(a, b, q);
      } else {
        DivUnique(a, b, q - 1);
      }
    }
  }

  /** Once a subtraction wraps, the era is millions of years off. */
  lemma WrappedEraIsFar(d: Date)
    requires ValidDate(d) && Year32(d) && !OrdinalInRange(d)
    ensures DaysFromCivil(d) != Some(DayNumber(d))
  {
    hide OrdinalYearStart, YearStart, DaysInMonth;
    if d.month <= 2 && d.year == I32_MIN {
      WrappedYear();
    } else {
      assert d.month <= 2 ==> WrapI32(d.year - 1) == d.year - 1;
      FarYear(MarchYear(d));
    }
  }

  lemma WrappedYear()
    ensures WrapI32(I32_MIN - 1) == I32_MAX
    ensures OrdinalYearStart(I32_MAX) > YearStart(I32_MIN - 1)
  {
    assert TruncDiv(I32_MAX, 400) == 5_368_709;
  }

  /** A wrapped era overshoots a negative year by about one day per era. */
  lemma FarYear(y: int)
    requires I32_MIN <= y < I32_MIN + 399
    ensures OrdinalYearStart(y) > YearStart(y)
  {
    assert WrapI32(y - 399) == y - 399 + 0x1_0000_0000;
    var era := TruncDiv(WrapI32(y - 399), 400);
    assert era >= 5_368_708;
    hide WrapI32;
    var yoe := y - era * 400;
    TruncNearFloor(yoe, 4);
    TruncNearFloor(yoe, 100);
    DivUnique(yoe, 4, y / 4 - 100 * era);
    DivUnique(yoe, 100, y / 100 - 4 * era);
  }

  /**
   On every calendar date with a 32-bit year, the inverse returns the day number
   exactly when neither 32-bit subtraction wraps.
   */
  lemma DaysFromCivilExactIff(d: Date)
    requires ValidDate(d) && Year32(d)
    ensures DaysFromCivil(d) == Some(DayNumber(d)) <==> OrdinalInRange(d)
  {
    if OrdinalInRange(d) {
      DaysFromCivilExact(d);
    } else {
      WrappedEraIsFar(d);
    }
  }

  /** Day count to date and back, for every day whose year the inverse can hold. */
  lemma OrdinalInvertsCivil(z: int)
    requires Year32(CivilFromDays(z))
    ensures DaysFromCivil(CivilFromDays(z)) == Some(z) <==> OrdinalInRange(CivilFromDays(z))
  {
    hide *;
    CivilFromDaysCounts(z);
    DaysFromCivilExactIff(CivilFromDays(z));
  }

  /** Date to day count and back: every accepted date without a wrap is recovered. */
  lemma CivilInvertsOrdinal(d: Date)
    requires d.day >= 1 && Year32(d) && OrdinalInRange(d) && DaysFromCivil(d).Some?
    ensures CivilFromDays(DaysFromCivil(d).value) == d
  {
    DaysFromCivilAccepts(d);
    hide *;
    DaysFromCivilExact(d);
    CivilFromDaysInverts(d);
  }

  /** Among dates with a month and a positive day, exactly the calendar dates are accepted. */
  lemma DaysFromCivilAccepts(d: Date)
    requires d.day >= 1
    ensures DaysFromCivil(d).Some? <==> ValidDate(d)
  {
  }

  /** Every 64-bit intermediate of `civil_from_days` fits, whenever its first sum does. */
  lemma CivilFitsI64(days: int)
    requires -I64_MAX - 1 <= days && days + 719_468 <= I64_MAX
    ensures var z := days + 719_468;
      var era := TruncDiv(if z >= 0 then z else z - 146_096, 146_097);
      && -I64_MAX - 1 <= z - 146_096
      && -I64_MAX - 1 <= era * 146_097 <= z <= era * 146_097 + 146_096
      && -I64_MAX - 1 <= CivilFromDays(days).year <= I64_MAX
  {
    var z := days + 719_468;
    TruncDivFloors(z, 146_097);
    YearOfEraCorrect(z % 146_097);
  }
}
