/**
 * Calendar boundaries in epoch milliseconds.
 *
 * The Kotlin helpers build a `java.util.Calendar` in the device's default zone
 * and overwrite its day, hour, minute, second and millisecond fields. Here the
 * zone is a fixed offset (`offset`, milliseconds east of UTC, no daylight
 * saving) and the calendar is the proleptic Gregorian one, so every helper is
 * a pure function of the timestamp.
 */
module DateUtils {
  import opened Wrappers

  const MillisPerDay: int := 86_400_000
  /** 23:59:59.999 measured from midnight. */
  const LastMilliOfDay: int := 86_399_999
  /** Days in 400 Gregorian years. */
  const DaysPerEra: int := 146_097

  // ---------------------------------------------------------------------------
  // Days

  /** Whole local days since 1970-01-01 00:00 local time (floor division). */
  function DayNumber(t: int, offset: int): int {
    (t + offset) / MillisPerDay
  }

  /** Epoch milliseconds of local midnight at the start of day number `n`. */
  function MidnightOf(n: int, offset: int): (r: int)
    ensures DayNumber(r, offset) == n
    ensures (r + offset) % MillisPerDay == 0
  {
    n * MillisPerDay - offset
  }

  /** getStartOfDay: the same local day at 00:00:00.000. */
  function StartOfDay(t: int, offset: int): (r: int)
    ensures r <= t < r + MillisPerDay
    ensures (r + offset) % MillisPerDay == 0
    ensures DayNumber(r, offset) == DayNumber(t, offset)
  {
    MidnightOf(DayNumber(t, offset), offset)
  }

  /** Epoch milliseconds of 23:59:59.999 local time on day number `n`. */
  function LastMilliOf(n: int, offset: int): (r: int)
    ensures DayNumber(r, offset) == n
    ensures DayNumber(r + 1, offset) == n + 1
  {
    MidnightOf(n, offset) + LastMilliOfDay
  }

  /** getEndOfDay: the same local day at 23:59:59.999. */
  function EndOfDay(t: int, offset: int): (r: int)
    ensures r == StartOfDay(t, offset) + LastMilliOfDay
    ensures t <= r
    ensures DayNumber(r, offset) == DayNumber(t, offset)
    ensures DayNumber(r + 1, offset) == DayNumber(t, offset) + 1
  {
    LastMilliOf(DayNumber(t, offset), offset)
  }

  /** A timestamp lies between the start and end of its day exactly when it falls on that day. */
  lemma SameDayIff(t: int, u: int, offset: int)
    ensures StartOfDay(t, offset) <= u <= EndOfDay(t, offset)
            <==> DayNumber(u, offset) == DayNumber(t, offset)
  {
    var s := StartOfDay(t, offset);
    assert StartOfDay(u, offset) <= u < StartOfDay(u, offset) + MillisPerDay;
    if DayNumber(u, offset) < DayNumber(t, offset) {
      assert StartOfDay(u, offset) + MillisPerDay <= s;
    } else if DayNumber(u, offset) > DayNumber(t, offset) {
      assert s + MillisPerDay <= StartOfDay(u, offset);
    }
  }

  // ---------------------------------------------------------------------------
  // Proleptic Gregorian calendar

  predicate IsLeapYear(y: int) {
    y % 4 == 0 && (y % 100 != 0 || y % 400 == 0)
  }

  function DaysInYear(y: int): int {
    if IsLeapYear(y) then 366 else 365
  }

  /** Calendar.getActualMaximum(DAY_OF_MONTH) for month `m` (1 = January) of year `y`. */
  function DaysInMonth(y: int, m: int): (r: int)
    requires 1 <= m <= 12
    ensures 28 <= r <= 31
    ensures r == 29 <==> m == 2 && IsLeapYear(y)
  {
    if m == 2 then (if IsLeapYear(y) then 29 else 28)
    else if m == 4 || m == 6 || m == 9 || m == 11 then 30
    else 31
  }

  /** Days of year `y` that come before the first of month `m`; month 13 stands for the next January. */
  function DaysBeforeMonth(y: int, m: int): int
    requires 1 <= m <= 13
  {
    [0, 31, 59, 90, 120, 151, 181, 212, 243, 273, 304, 334, 365][m - 1]
    + (if m > 2 && IsLeapYear(y) then 1 else 0)
  }

  lemma DaysBeforeMonthStep(y: int, m: int)
    requires 1 <= m <= 12
    ensures DaysBeforeMonth(y, m + 1) == DaysBeforeMonth(y, m) + DaysInMonth(y, m)
    ensures DaysBeforeMonth(y, 1) == 0 && DaysBeforeMonth(y, 13) == DaysInYear(y)
  {
  }

  lemma DaysBeforeMonthMonotone(y: int, a: int, b: int)
    requires 1 <= a < b <= 13
    ensures DaysBeforeMonth(y, a) + DaysInMonth(y, a) <= DaysBeforeMonth(y, b)
  {
  }

  /** Leap years among the years 1 .. y-1 (for y <= 0 the same formula offsets the count consistently). */
  function LeapYearsBefore(y: int): int {
    (y - 1) / 4 - (y - 1) / 100 + (y - 1) / 400
  }

  /** Days from 1970-01-01 to January 1 of year `y` (negative before 1970). */
  function DaysBeforeYear(y: int): int {
    365 * (y - 1970) + LeapYearsBefore(y) - LeapYearsBefore(1970)
  }

  /** Stepping from y - 1 to y raises y / k by one exactly when k divides y. */
  lemma QuotientStep(y: int, k: int)
    requires k == 4 || k == 100 || k == 400
    ensures y / k - (y - 1) / k == if y % k == 0 then 1 else 0
  {
    var q, r := y / k, y % k;
    assert y == k * q + r && 0 <= r < k;
    if r == 0 {
      assert y - 1 == k * (q - 1) + (k - 1);
    } else {
      assert y - 1 == k * q + (r - 1);
    }
  }

  lemma DaysBeforeNextYear(y: int)
    ensures DaysBeforeYear(y + 1) == DaysBeforeYear(y) + DaysInYear(y)
  {
    QuotientStep(y, 4);
    QuotientStep(y, 100);
    QuotientStep(y, 400);
  }

  lemma {:induction false} DaysBeforeYearMonotone(a: int, b: int)
    requires a < b
    ensures DaysBeforeYear(a) + DaysInYear(a) <= DaysBeforeYear(b)
    decreases b - a
  {
    DaysBeforeNextYear(a);
    if a + 1 < b {
      DaysBeforeYearMonotone(a + 1, b);
    }
  }

  lemma DaysBeforeYearEra(y: int)
    ensures DaysBeforeYear(y + 400) == DaysBeforeYear(y) + DaysPerEra
  {
    assert (y + 399) / 4 == (y - 1) / 4 + 100;
    assert (y + 399) / 100 == (y - 1) / 100 + 4;
    assert (y + 399) / 400 == (y - 1) / 400 + 1;
  }

  /** Every 400-year era starting at 1970 begins a whole number of eras of days after 1970-01-01. */
  lemma {:induction false} EraStart(era: int)
    ensures DaysBeforeYear(1970 + 400 * era) == DaysPerEra * era
    decreases if era < 0 then -era else era
  {
    if era > 0 {
      EraStart(era - 1);
      DaysBeforeYearEra(1970 + 400 * (era - 1));
    } else if era < 0 {
      EraStart(era + 1);
      DaysBeforeYearEra(1970 + 400 * era);
    }
  }

  /** The year in [y, hi) whose days contain day number `n`. */
  function YearContaining(n: int, y: int, hi: int): (r: int)
    requires y < hi && DaysBeforeYear(y) <= n < DaysBeforeYear(hi)
    ensures y <= r < hi
    ensures DaysBeforeYear(r) <= n < DaysBeforeYear(r) + DaysInYear(r)
    decreases hi - y
  {
    DaysBeforeNextYear(y);
    if n < DaysBeforeYear(y + 1) then y else YearContaining(n, y + 1, hi)
  }

  /** The month from `m` on whose days contain day-of-year `r` (0-based) of year `y`. */
  function MonthContaining(y: int, r: int, m: int): (res: int)
    requires 1 <= m <= 12 && DaysBeforeMonth(y, m) <= r < DaysInYear(y)
    ensures m <= res <= 12
    ensures DaysBeforeMonth(y, res) <= r < DaysBeforeMonth(y, res) + DaysInMonth(y, res)
    decreases 12 - m
  {
    DaysBeforeMonthStep(y, m);
    if m == 12 || r < DaysBeforeMonth(y, m + 1) then m else MonthContaining(y, r, m + 1)
  }

  datatype Date = Date(year: int, month: int, day: int)

  predicate ValidDate(d: Date) {
    1 <= d.month <= 12 && 1 <= d.day <= DaysInMonth(d.year, d.month)
  }

  /** Day number of a calendar date. */
  function DaysFromCivil(d: Date): int
    requires ValidDate(d)
  {
    DaysBeforeYear(d.year) + DaysBeforeMonth(d.year, d.month) + d.day - 1
  }

  /** Calendar date of a day number. */
  function CivilFromDays(n: int): (d: Date)
    ensures ValidDate(d) && DaysFromCivil(d) == n
  {
    var era := n / DaysPerEra;
    var base := 1970 + 400 * era;
    EraStart(era);
    EraStart(era + 1);
    var y := YearContaining(n, base, base + 400);
    var dayOfYear := n - DaysBeforeYear(y);
    DaysBeforeMonthStep(y, 1);
    var m := MonthContaining(y, dayOfYear, 1);
    Date(y, m, dayOfYear - DaysBeforeMonth(y, m) + 1)
  }

  /** Distinct valid dates have distinct day numbers. */
  lemma DaysFromCivilInjective(a: Date, b: Date)
    requires ValidDate(a) && ValidDate(b) && DaysFromCivil(a) == DaysFromCivil(b)
    ensures a == b
  {
    DaysBeforeMonthMonotone(a.year, a.month, 13);
    DaysBeforeMonthMonotone(b.year, b.month, 13);
    DaysBeforeMonthStep(a.year, 1);
    DaysBeforeMonthStep(b.year, 1);
    if a.year < b.year {
      DaysBeforeYearMonotone(a.year, b.year);
    } else if b.year < a.year {
      DaysBeforeYearMonotone(b.year, a.year);
    }
    assert a.year == b.year;
    if a.month < b.month {
      DaysBeforeMonthMonotone(a.year, a.month, b.month);
    } else if b.month < a.month {
      DaysBeforeMonthMonotone(a.year, b.month, a.month);
    }
  }

  lemma CivilRoundTrip(d: Date)
    requires ValidDate(d)
    ensures CivilFromDays(DaysFromCivil(d)) == d
  {
    DaysFromCivilInjective(CivilFromDays(DaysFromCivil(d)), d);
  }

  /** The local calendar date on which timestamp `t` falls. */
  function LocalDate(t: int, offset: int): (d: Date)
    ensures ValidDate(d)
  {
    CivilFromDays(DayNumber(t, offset))
  }

  // ---------------------------------------------------------------------------
  // Months

  function NextMonth(y: int, m: int): (int, int)
    requires 1 <= m <= 12
  {
    if m == 12 then (y + 1, 1) else (y, m + 1)
  }

  /** getStartOfMonth: day 1 of the same local month at 00:00:00.000. */
  function StartOfMonth(t: int, offset: int): (r: int)
    ensures r <= t
    ensures StartOfDay(r, offset) == r
    ensures LocalDate(r, offset) == Date(LocalDate(t, offset).year, LocalDate(t, offset).month, 1)
  {
    var d := LocalDate(t, offset);
    var first := Date(d.year, d.month, 1);
    CivilRoundTrip(first);
    MidnightOf(DaysFromCivil(first), offset)
  }

  /** getEndOfMonth: the last day of the same local month (28, 29, 30 or 31) at 23:59:59.999. */
  function EndOfMonth(t: int, offset: int): (r: int)
    ensures t <= r
    ensures EndOfDay(r, offset) == r
    ensures var d := LocalDate(t, offset);
            LocalDate(r, offset) == Date(d.year, d.month, DaysInMonth(d.year, d.month))
  {
    var d := LocalDate(t, offset);
    var last := Date(d.year, d.month, DaysInMonth(d.year, d.month));
    CivilRoundTrip(last);
    assert DayNumber(t, offset) <= DaysFromCivil(last);
    LastMilliOf(DaysFromCivil(last), offset)
  }

  /** The local (year, month) of a timestamp. */
  function YearMonth(t: int, offset: int): (int, int) {
    var d := LocalDate(t, offset);
    (d.year, d.month)
  }

  /** Start and end of month are idempotent, and the month's end is the end of the month of its start. */
  lemma MonthBoundsStable(t: int, offset: int)
    ensures StartOfMonth(StartOfMonth(t, offset), offset) == StartOfMonth(t, offset)
    ensures StartOfDay(StartOfDay(t, offset), offset) == StartOfDay(t, offset)
    ensures EndOfMonth(StartOfMonth(t, offset), offset) == EndOfMonth(t, offset)
    ensures StartOfMonth(EndOfMonth(t, offset), offset) == StartOfMonth(t, offset)
  {
  }

  /** The first day of the next month comes right after the last day of month `m`. */
  lemma MonthAfterLastDay(y: int, m: int)
    requires 1 <= m <= 12
    ensures var (ny, nm) := NextMonth(y, m);
            DaysFromCivil(Date(ny, nm, 1)) == DaysFromCivil(Date(y, m, DaysInMonth(y, m))) + 1
  {
    DaysBeforeMonthStep(y, m);
    if m == 12 {
      DaysBeforeMonthStep(y + 1, 1);
      DaysBeforeNextYear(y);
    }
  }

  /** The first day of the month after `d`'s month. */
  function FirstOfNextMonth(d: Date): (f: Date)
    requires ValidDate(d)
    ensures ValidDate(f)
    ensures DaysFromCivil(f) == DaysFromCivil(Date(d.year, d.month, DaysInMonth(d.year, d.month))) + 1
  {
    MonthAfterLastDay(d.year, d.month);
    var (ny, nm) := NextMonth(d.year, d.month);
    Date(ny, nm, 1)
  }

  /** The millisecond after a month's end is midnight of the next month's first day. */
  lemma EndOfMonthNext(t: int, offset: int)
    ensures EndOfMonth(t, offset) + 1 == MidnightOf(DaysFromCivil(FirstOfNextMonth(LocalDate(t, offset))), offset)
  {
    var n := DaysFromCivil(FirstOfNextMonth(LocalDate(t, offset)));
    assert EndOfMonth(t, offset) == LastMilliOf(n - 1, offset);
  }

  /** The millisecond after a month's end is the first millisecond of the next month. */
  lemma NextMonthFollows(t: int, offset: int)
    ensures var e := EndOfMonth(t, offset);
            var d := LocalDate(t, offset);
            var (ny, nm) := NextMonth(d.year, d.month);
            StartOfMonth(e + 1, offset) == e + 1 && LocalDate(e + 1, offset) == Date(ny, nm, 1)
  {
    var first := FirstOfNextMonth(LocalDate(t, offset));
    var e := EndOfMonth(t, offset);
    EndOfMonthNext(t, offset);
    CivilRoundTrip(first);
    assert LocalDate(e + 1, offset) == first;
  }

  /** A timestamp lies between the start and end of t's month exactly when it falls in the same local month. */
  lemma SameMonthIff(t: int, u: int, offset: int)
    ensures StartOfMonth(t, offset) <= u <= EndOfMonth(t, offset)
            <==> YearMonth(u, offset) == YearMonth(t, offset)
  {
    var d := LocalDate(t, offset);
    var first := Date(d.year, d.month, 1);
    var last := Date(d.year, d.month, DaysInMonth(d.year, d.month));
    var n := DayNumber(u, offset);
    var du := LocalDate(u, offset);
    assert DaysFromCivil(du) == n;
    if StartOfMonth(t, offset) <= u <= EndOfMonth(t, offset) {
      assert DaysFromCivil(first) <= n <= DaysFromCivil(last);
      var inMonth := Date(d.year, d.month, 1 + n - DaysFromCivil(first));
      assert DaysFromCivil(inMonth) == n;
      DaysFromCivilInjective(inMonth, du);
    }
    if YearMonth(u, offset) == YearMonth(t, offset) {
      assert DaysFromCivil(first) <= n <= DaysFromCivil(last);
    }
  }

  /** The first and the last millisecond of a month belong to it; the millisecond after the last does not. */
  lemma MonthEdges(t: int, offset: int)
    ensures YearMonth(StartOfMonth(t, offset), offset) == YearMonth(t, offset)
    ensures YearMonth(EndOfMonth(t, offset), offset) == YearMonth(t, offset)
    ensures YearMonth(EndOfMonth(t, offset) + 1, offset) != YearMonth(t, offset)
  {
    SameMonthIff(t, StartOfMonth(t, offset), offset);
    SameMonthIff(t, EndOfMonth(t, offset), offset);
    SameMonthIff(t, EndOfMonth(t, offset) + 1, offset);
  }

  lemma MonthRangeIsMonth(t: int, offset: int)
    ensures forall u :: StartOfMonth(t, offset) <= u <= EndOfMonth(t, offset)
                        <==> YearMonth(u, offset) == YearMonth(t, offset)
  {
    forall u ensures StartOfMonth(t, offset) <= u <= EndOfMonth(t, offset)
                     <==> YearMonth(u, offset) == YearMonth(t, offset) {
      SameMonthIff(t, u, offset);
    }
  }

  // ---------------------------------------------------------------------------
  // The yyyy-MM month key

  function DigitChar(n: int): (c: char)
    requires 0 <= n <= 9
    ensures '0' <= c <= '9'
  {
    ('0' as int + n) as char
  }

  function DigitValue(c: char): int {
    c as int - '0' as int
  }

  predicate AllDigits(s: string) {
    forall i :: 0 <= i < |s| ==> '0' <= s[i] <= '9'
  }

  /** Decimal digits of `n`, most significant first, without leading zeros. */
  function Decimal(n: nat): (s: string)
    ensures 1 <= |s| && AllDigits(s)
  {
    if n < 10 then [DigitChar(n)] else Decimal(n / 10) + [DigitChar(n % 10)]
  }

  /** Value of a string of decimal digits; leading zeros contribute nothing. */
  function DecimalValue(s: string): int {
    if s == [] then 0 else DecimalValue(s[..|s| - 1]) * 10 + DigitValue(s[|s| - 1])
  }

  function Pow10(k: nat): nat {
    if k == 0 then 1 else 10 * Pow10(k - 1)
  }

  /** SimpleDateFormat number field: at least `width` digits, zero-padded on the left. */
  function ZeroPadded(n: nat, width: nat): (s: string)
    ensures |s| >= width && AllDigits(s)
  {
    var digits := Decimal(n);
    if |digits| >= width then digits else seq(width - |digits|, _ => '0') + digits
  }

  /** The `y` pattern letter prints the year of era: 1 BC (year 0) is printed as 1. */
  function YearOfEra(y: int): nat {
    if y >= 1 then y else 1 - y
  }

  function MonthKey(y: int, m: int): string
    requires 1 <= m <= 12
  {
    ZeroPadded(YearOfEra(y), 4) + "-" + ZeroPadded(m, 2)
  }

  /** formatMonth: the local month of `t` in the `yyyy-MM` pattern, which reads back to its year of era and month. */
  function FormatMonth(t: int, offset: int): (r: string)
    ensures var d := LocalDate(t, offset);
            ParseMonthKey(r) == Some((YearOfEra(d.year), d.month))
  {
    var d := LocalDate(t, offset);
    MonthKeyRoundTrip(d.year, d.month);
    MonthKey(d.year, d.month)
  }

  /** Reads a month key back: the year-of-era digits, then '-', then two month digits. */
  function ParseMonthKey(s: string): Option<(int, int)> {
    if |s| >= 4 && s[|s| - 3] == '-' && AllDigits(s[..|s| - 3]) && AllDigits(s[|s| - 2..])
    then Some((DecimalValue(s[..|s| - 3]), DecimalValue(s[|s| - 2..])))
    else None
  }

  lemma {:induction false} DecimalRoundTrip(n: nat)
    ensures DecimalValue(Decimal(n)) == n
  {
    if n >= 10 {
      DecimalRoundTrip(n / 10);
      var s := Decimal(n);
      assert s[..|s| - 1] == Decimal(n / 10);
    }
  }

  lemma {:induction false} LeadingZeros(k: nat, s: string)
    ensures DecimalValue(seq(k, _ => '0') + s) == DecimalValue(s)
    decreases |s|
  {
    var z: string := seq(k, _ => '0');
    if s == [] {
      assert z + s == z;
      ZerosValue(k);
    } else {
      var init := s[..|s| - 1];
      assert (z + s)[..|z + s| - 1] == z + init;
      LeadingZeros(k, init);
    }
  }

  lemma {:induction false} ZerosValue(k: nat)
    ensures DecimalValue(seq(k, _ => '0')) == 0
  {
    if k > 0 {
      var z: string := seq(k, _ => '0');
      assert z[..k - 1] == seq(k - 1, _ => '0');
      ZerosValue(k - 1);
    }
  }

  lemma PaddedRoundTrip(n: nat, width: nat)
    ensures DecimalValue(ZeroPadded(n, width)) == n
  {
    DecimalRoundTrip(n);
    var digits := Decimal(n);
    if |digits| < width {
      LeadingZeros(width - |digits|, digits);
    }
  }

  lemma {:induction false} DecimalFits(n: nat, k: nat)
    requires n < Pow10(k) && k >= 1
    ensures |Decimal(n)| <= k
  {
    if n >= 10 {
      DecimalFits(n / 10, k - 1);
    }
  }

  /** The month key holds the year of era and the month, and reads back exactly. */
  lemma MonthKeyRoundTrip(y: int, m: int)
    requires 1 <= m <= 12
    ensures ParseMonthKey(MonthKey(y, m)) == Some((YearOfEra(y), m))
  {
    var yk := ZeroPadded(YearOfEra(y), 4);
    var mk := ZeroPadded(m, 2);
    DecimalFits(m, 2);
    assert |mk| == 2;
    var s := MonthKey(y, m);
    assert s == yk + "-" + mk;
    assert s[..|s| - 3] == yk;
    assert s[|s| - 2..] == mk;
    PaddedRoundTrip(YearOfEra(y), 4);
    PaddedRoundTrip(m, 2);
  }

  lemma MonthKeyDigits(y: int, m: int)
    requires 1 <= m <= 12 && 1 <= YearOfEra(y) <= 9999
    ensures var s := MonthKey(y, m);
            |s| == 7 && s[4] == '-' && AllDigits(s[..4]) && AllDigits(s[5..])
  {
    DecimalFits(YearOfEra(y), 4);
    DecimalFits(m, 2);
    var s := MonthKey(y, m);
    assert s[..4] == ZeroPadded(YearOfEra(y), 4);
    assert s[5..] == ZeroPadded(m, 2);
  }

  /** For years of era 1 to 9999 the month key is `yyyy-MM`: seven characters with '-' at index 4. */
  lemma MonthKeyShape(t: int, offset: int)
    requires 1 <= YearOfEra(LocalDate(t, offset).year) <= 9999
    ensures var s := FormatMonth(t, offset);
            |s| == 7 && s[4] == '-' && AllDigits(s[..4]) && AllDigits(s[5..])
  {
    var d := LocalDate(t, offset);
    MonthKeyDigits(d.year, d.month);
  }

  /** getCurrentMonthStartEnd with the clock reading `now` passed in. */
  function CurrentMonthStartEnd(now: int, offset: int): (r: (int, int))
    ensures r.0 <= now <= r.1
    ensures forall u :: r.0 <= u <= r.1 <==> YearMonth(u, offset) == YearMonth(now, offset)
  {
    MonthRangeIsMonth(now, offset);
    (StartOfMonth(now, offset), EndOfMonth(now, offset))
  }

  /** getCurrentMonth with the clock reading `now` passed in. */
  function CurrentMonth(now: int, offset: int): (r: string)
    ensures ParseMonthKey(r) == Some((YearOfEra(LocalDate(now, offset).year), LocalDate(now, offset).month))
  {
    FormatMonth(now, offset)
  }
}
