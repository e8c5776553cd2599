/**
 * Calendar days. A record's `date` is stored as the text `YYYY-MM-DD`; the
 * model keeps the proleptic Gregorian (year, month, day) it spells and derives
 * what the source gets from `new Date(...)`: a day count (the order of
 * `getTime()` at midnight), the weekday (`getDay()`, Sunday = 0) and the
 * month (`getFullYear()`, `getMonth()`).
 */
module Dates {
  import opened Text

  datatype Ymd = Ymd(year: int, month: int, day: int)

  predicate IsLeapYear(y: int)
  {
    y % 4 == 0 && (y % 100 != 0 || y % 400 == 0)
  }

  function DaysInYear(y: int): int
  {
    if IsLeapYear(y) then 366 else 365
  }

  function DaysInMonth(y: int, m: int): int
    requires 1 <= m <= 12
  {
    if m == 2 then (if IsLeapYear(y) then 29 else 28)
    else if m == 4 || m == 6 || m == 9 || m == 11 then 30
    else 31
  }

  /** A real calendar day with a four-digit year, as a `date` column holds. */
  predicate ValidYmd(d: Ymd)
  {
    1 <= d.year <= 9999 && 1 <= d.month <= 12 && 1 <= d.day <= DaysInMonth(d.year, d.month)
  }

  type Date = d: Ymd | ValidYmd(d) witness Ymd(1970, 1, 1)

  /** Days from 0001-01-01 to January 1 of year `y`. */
  function DaysBeforeYear(y: int): int
  {
    var z := y - 1;
    365 * z + z / 4 - z / 100 + z / 400
  }

  /** Days from January 1 of year `y` to the first of month `m`. */
  function DaysBeforeMonth(y: int, m: int): (n: int)
    requires 1 <= m <= 12
    ensures 0 <= n
  {
    if m == 1 then 0 else DaysBeforeMonth(y, m - 1) + DaysInMonth(y, m - 1)
  }

  /**
   * Day count of day `day` of month `m` of year `y`, counted from 0001-01-01.
   * A `day` past the end of the month runs on into the following months, the
   * way `Date#setMonth` normalises an overflowing day of the month.
   */
  function DayCount(y: int, m: int, day: int): int
    requires 1 <= m <= 12
  {
    DaysBeforeYear(y) + DaysBeforeMonth(y, m) + day - 1
  }

  function DayNumber(d: Date): int
  {
    DayCount(d.year, d.month, d.day)
  }

  /** `getDay()` of a day count: Sunday = 0 ... Saturday = 6 (0001-01-01 was a Monday). */
  function Weekday(n: int): (w: int)
    ensures 0 <= w < 7
  {
    (n + 1) % 7
  }

  /** The Sunday that starts the week of day `n`: `setDate(getDate() - getDay())`. */
  function WeekStart(n: int): (s: int)
    ensures Weekday(s) == 0
    ensures s <= n < s + 7
  {
    n - Weekday(n)
  }

  /** The week start is the latest Sunday on or before the day. */
  lemma WeekStartIsLatestSunday(n: int, s: int)
    requires Weekday(s) == 0 && s <= n
    ensures s <= WeekStart(n)
  {
    var t := WeekStart(n);
    assert (t - s) % 7 == 0 by {
      assert (s + 1) % 7 == 0 && (t + 1) % 7 == 0;
    }
  }

  /** Later days never get an earlier week start. */
  lemma WeekStartMonotone(n: int, m: int)
    requires n <= m
    ensures WeekStart(n) <= WeekStart(m)
  {
    WeekStartIsLatestSunday(m, WeekStart(n));
  }

  /** The `YYYY-MM` key of a day, as a single ordered number. */
  function MonthIndex(d: Date): int
  {
    d.year * 12 + d.month - 1
  }

  /** `(year, month, day)` order. */
  predicate Before(a: Date, b: Date)
  {
    a.year < b.year || (a.year == b.year && (a.month < b.month || (a.month == b.month && a.day < b.day)))
  }

  lemma DivStep(y: int)
    ensures y / 4 - (y - 1) / 4 == if y % 4 == 0 then 1 else 0
    ensures y / 100 - (y - 1) / 100 == if y % 100 == 0 then 1 else 0
    ensures y / 400 - (y - 1) / 400 == if y % 400 == 0 then 1 else 0
  {
  }

  /** Consecutive New Year's days lie one year's length apart. */
  lemma YearLength(y: int)
    ensures DaysBeforeYear(y + 1) == DaysBeforeYear(y) + DaysInYear(y)
  {
    DivStep(y);
  }

  /** Every later year starts at least a whole year after an earlier one starts. */
  lemma {:induction false} YearsAdvance(y1: int, y2: int)
    requires y1 < y2
    ensures DaysBeforeYear(y1) + DaysInYear(y1) <= DaysBeforeYear(y2)
    decreases y2 - y1
  {
    YearLength(y1);
    if y1 + 1 < y2 {
      YearsAdvance(y1 + 1, y2);
    }
  }

  /** Every later month of a year starts at least a whole month after an earlier one starts. */
  lemma {:induction false} MonthsAdvance(y: int, m1: int, m2: int)
    requires 1 <= m1 < m2 <= 12
    ensures DaysBeforeMonth(y, m1) + DaysInMonth(y, m1) <= DaysBeforeMonth(y, m2)
    decreases m2 - m1
  {
    if m1 + 1 < m2 {
      MonthsAdvance(y, m1 + 1, m2);
    }
  }

  /** The twelve months fill the year exactly. */
  lemma MonthsFillYear(y: int)
    ensures DaysBeforeMonth(y, 12) + DaysInMonth(y, 12) == DaysInYear(y)
  {
    assert DaysBeforeMonth(y, 2) == 31;
    assert DaysBeforeMonth(y, 3) == 31 + DaysInMonth(y, 2);
    assert DaysBeforeMonth(y, 4) == 62 + DaysInMonth(y, 2);
    assert DaysBeforeMonth(y, 5) == 92 + DaysInMonth(y, 2);
    assert DaysBeforeMonth(y, 6) == 123 + DaysInMonth(y, 2);
    assert DaysBeforeMonth(y, 7) == 153 + DaysInMonth(y, 2);
    assert DaysBeforeMonth(y, 8) == 184 + DaysInMonth(y, 2);
    assert DaysBeforeMonth(y, 9) == 215 + DaysInMonth(y, 2);
    assert DaysBeforeMonth(y, 10) == 245 + DaysInMonth(y, 2);
    assert DaysBeforeMonth(y, 11) == 276 + DaysInMonth(y, 2);
    assert DaysBeforeMonth(y, 12) == 306 + DaysInMonth(y, 2);
  }

  /** Calendar order and day-count order agree: an earlier date has a smaller day count. */
  lemma DayNumberOrder(a: Date, b: Date)
    requires Before(a, b)
    ensures DayNumber(a) < DayNumber(b)
  {
    if a.year < b.year {
      MonthsFillYear(a.year);
      if a.month < 12 {
        MonthsAdvance(a.year, a.month, 12);
      }
      YearsAdvance(a.year, b.year);
    } else if a.month < b.month {
      MonthsAdvance(a.year, a.month, b.month);
    }
  }

  /** Day counts name dates one-to-one, and the order of day counts is the order of dates. */
  lemma DayNumberCompare(a: Date, b: Date)
    ensures DayNumber(a) == DayNumber(b) <==> a == b
    ensures DayNumber(a) < DayNumber(b) <==> Before(a, b)
  {
    if Before(a, b) {
      DayNumberOrder(a, b);
    } else if Before(b, a) {
      DayNumberOrder(b, a);
    }
  }

  /** Sorting by day count never puts a later month first. */
  lemma MonthIndexMonotone(a: Date, b: Date)
    requires DayNumber(a) <= DayNumber(b)
    ensures MonthIndex(a) <= MonthIndex(b)
  {
    DayNumberCompare(a, b);
  }

  /**
   * Day count of `setMonth(getMonth() + k)` applied to `d`: the same day of the
   * month `k` months away, running on into the next month when that month is
   * too short.
   */
  function ShiftMonths(d: Date, k: int): (n: int)
    ensures var m0 := d.month - 1 + k;
            var y, m := d.year + m0 / 12, m0 % 12 + 1;
            1 <= y <= 9999 && d.day <= DaysInMonth(y, m) ==> n == DayNumber(Ymd(y, m, d.day))
    ensures var m0 := d.month - 1 + k;
            var y, m := d.year + m0 / 12, m0 % 12 + 1;
            1 <= y <= 9999 && d.day > DaysInMonth(y, m) ==>
              && m < 12
              && 1 <= d.day - DaysInMonth(y, m) <= 3
              && n == DayNumber(Ymd(y, m + 1, d.day - DaysInMonth(y, m)))
  {
    var m0 := d.month - 1 + k;
    DayCount(d.year + m0 / 12, m0 % 12 + 1, d.day)
  }

  /** The `YYYY-MM-DD` text of a date. */
  function IsoDate(d: Date): (s: string)
    ensures |s| == 10 && s[4] == '-' && s[7] == '-'
    ensures forall i :: 0 <= i < 10 && i != 4 && i != 7 ==> '0' <= s[i] <= '9'
  {
    Digits(d.year, 4) + "-" + Digits(d.month, 2) + "-" + Digits(d.day, 2)
  }

  /** Comparing `YYYY-MM-DD` texts as strings is comparing the dates. */
  lemma IsoDateOrder(a: Date, b: Date)
    ensures LexLe(IsoDate(a), IsoDate(b)) <==> DayNumber(a) <= DayNumber(b)
  {
    var ya, yb := Digits(a.year, 4), Digits(b.year, 4);
    var ma, mb := Digits(a.month, 2), Digits(b.month, 2);
    var da, db := Digits(a.day, 2), Digits(b.day, 2);
    assert IsoDate(a) == ya + ("-" + (ma + ("-" + da)));
    assert IsoDate(b) == yb + ("-" + (mb + ("-" + db)));
    assert Pow10(2) == 100 && Pow10(4) == 10000;
    DigitsOrder(a.year, b.year, 4);
    DigitsInjective(a.year, b.year, 4);
    DigitsOrder(a.month, b.month, 2);
    DigitsInjective(a.month, b.month, 2);
    DigitsOrder(a.day, b.day, 2);
    LexLeConcat(ya, "-" + (ma + ("-" + da)), yb, "-" + (mb + ("-" + db)));
    LexLeConcat("-", ma + ("-" + da), "-", mb + ("-" + db));
    LexLeConcat(ma, "-" + da, mb, "-" + db);
    LexLeConcat("-", da, "-", db);
    DayNumberCompare(a, b);
  }

  /** 1970-01-01 was a Thursday and 2024-01-07 a Sunday. */
  lemma WeekdayAnchors()
    ensures Weekday(DayNumber(Ymd(1970, 1, 1))) == 4
    ensures Weekday(DayNumber(Ymd(2024, 1, 7))) == 0
  {
    assert DaysBeforeMonth(1970, 1) == 0;
    assert DaysBeforeYear(1970) == 719162;
    assert DaysBeforeYear(2024) == 738885;
  }
}
