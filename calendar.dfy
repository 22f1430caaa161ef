/** The proleptic Gregorian calendar of Python's naive `datetime`, reduced to
    the integer arithmetic the backup script relies on: validity of the fields
    that `strptime` accepts, day numbers and weekdays as `date.toordinal()`
    and `date.weekday()` compute them, the C `%W` week number used as the
    weekly bucket key, and instants in microseconds so that subtracting a
    `timedelta` is integer subtraction. Time zones and daylight saving do not
    exist for naive datetimes and do not appear here. */
module Calendar {

  /** A naive date-time with whole seconds, as `strptime` builds it from a
      backup name. */
  datatype DateTime = DateTime(year: int, month: int, day: int,
                               hour: int, minute: int, second: int)

  /** A datetime Python can hold. */
  type ValidDateTime = t: DateTime | IsValid(t) witness DateTime(1, 1, 1, 0, 0, 0)

  const MinYear: int := 1
  const MaxYear: int := 9999
  const MicrosPerSecond: int := 1000000
  const SecondsPerDay: int := 86400

  predicate IsLeapYear(y: int)
  {
    y % 4 == 0 && (y % 100 != 0 || y % 400 == 0)
  }

  function DaysInYear(y: int): int
  {
    if IsLeapYear(y) then 366 else 365
  }

  function DaysInMonth(y: int, m: int): (n: int)
    requires 1 <= m <= 12
    ensures 28 <= n <= 31
    ensures n == 29 <==> m == 2 && IsLeapYear(y)
  {
    if m == 2 then (if IsLeapYear(y) then 29 else 28)
    else if m == 4 || m == 6 || m == 9 || m == 11 then 30
    else 31
  }

  /** The fields form a datetime that Python's `datetime` constructor
      accepts (microseconds aside). */
  predicate IsValid(t: DateTime)
    ensures IsValid(t) ==> 1 <= t.day <= 31
    ensures IsValid(t) && t.month == 2 && t.day == 29 ==> IsLeapYear(t.year)
    ensures IsValid(t) && t.day == 31 ==> t.month in {1, 3, 5, 7, 8, 10, 12}
  {
    MinYear <= t.year <= MaxYear &&
    1 <= t.month <= 12 &&
    1 <= t.day <= DaysInMonth(t.year, t.month) &&
    0 <= t.hour < 24 && 0 <= t.minute < 60 && 0 <= t.second < 60
  }

  /** Days from 0001-01-01 to January 1 of year `y`. */
  function DaysBeforeYear(y: int): int
    requires y >= 1
  {
    var z := y - 1;
    z * 365 + z / 4 - z / 100 + z / 400
  }

  /** Days from January 1 to the first day of month `m` of year `y`. */
  function DaysBeforeMonth(y: int, m: int): (n: int)
    requires 1 <= m <= 12
    ensures 0 <= n <= 335
  {
    [0, 31, 59, 90, 120, 151, 181, 212, 243, 273, 304, 334][m - 1]
      + (if m > 2 && IsLeapYear(y) then 1 else 0)
  }

  /** Zero-based day of the year, C's `tm_yday`. */
  function DayOfYear(t: DateTime): int
    requires IsValid(t)
  {
    DaysBeforeMonth(t.year, t.month) + t.day - 1
  }

  /** Days since 0001-01-01, that is `toordinal() - 1`. */
  function DayNumber(t: DateTime): int
    requires IsValid(t)
  {
    DaysBeforeYear(t.year) + DayOfYear(t)
  }

  /** Monday is 0 and Sunday 6, as `date.weekday()`; 0001-01-01 is a Monday. */
  function Weekday(t: DateTime): int
    requires IsValid(t)
  {
    DayNumber(t) % 7
  }

  /** C `strftime("%W")`: weeks start on Monday, and the days of the year
      before its first Monday are week 0. This is not ISO 8601 numbering. */
  function WeekNumber(t: DateTime): (w: int)
    requires IsValid(t)
    ensures 0 <= w <= 53
    ensures w == 0 <==> DayOfYear(t) < Weekday(t)
  {
    (DayOfYear(t) + 7 - Weekday(t)) / 7
  }

  /** Day number of the Monday on or before `t`. */
  function MondayOf(t: DateTime): int
    requires IsValid(t)
  {
    DayNumber(t) - Weekday(t)
  }

  /** Microseconds since 0001-01-01 00:00:00. */
  function Instant(t: DateTime): int
    requires IsValid(t)
  {
    ((DayNumber(t) * SecondsPerDay + t.hour * 3600 + t.minute * 60 + t.second)
      * MicrosPerSecond)
  }

  /** The last representable microsecond, 9999-12-31 23:59:59.999999. */
  const MaxInstant: int := 3652059 * SecondsPerDay * MicrosPerSecond - 1

  /** A microsecond that Python's `datetime` can represent. */
  predicate InRange(us: int)
  {
    0 <= us <= MaxInstant
  }

  /** Python orders datetimes field by field, microseconds last. */
  predicate LexLess(a: DateTime, ua: int, b: DateTime, ub: int)
  {
    a.year < b.year ||
    (a.year == b.year && (a.month < b.month ||
    (a.month == b.month && (a.day < b.day ||
    (a.day == b.day && (a.hour < b.hour ||
    (a.hour == b.hour && (a.minute < b.minute ||
    (a.minute == b.minute && (a.second < b.second ||
    (a.second == b.second && ua < ub)))))))))))
  }

  // ---------------------------------------------------------------------
  // Day numbers

  lemma {:induction false} DaysBeforeNextYear(y: int)
    requires y >= 1
    ensures DaysBeforeYear(y + 1) == DaysBeforeYear(y) + DaysInYear(y)
  {
    var z := y - 1;
    DivStep(z, 4);
    DivStep(z, 100);
    DivStep(z, 400);
    LeapMods(y);
    assert y * 365 == z * 365 + 365;
  }

  /** A multiple of 400 is one of 100, and a multiple of 100 one of 4. */
  lemma {:induction false} LeapMods(y: int)
    ensures y % 400 == 0 ==> y % 100 == 0
    ensures y % 100 == 0 ==> y % 4 == 0
  {
    if y % 400 == 0 {
      DivUnique(y, 100, 4 * (y / 400), 0);
    }
    if y % 100 == 0 {
      DivUnique(y, 4, 25 * (y / 100), 0);
    }
  }

  lemma {:induction false} MulAtLeast(d: int, k: int)
    requires d > 0
    ensures k >= 1 ==> d * k >= d
    decreases if k < 0 then 0 else k
  {
    if k > 1 {
      MulAtLeast(d, k - 1);
      assert d * k == d * (k - 1) + d;
    }
  }

  /** Quotients are unique: Dafny's `/` is the Euclidean one. */
  lemma {:induction false} DivUnique(a: int, d: int, q: int, r: int)
    requires d > 0 && 0 <= r < d && a == d * q + r
    ensures a / d == q
  {
    var q0, r0 := a / d, a % d;
    assert d * (q - q0) == r0 - r by {
      assert d * (q - q0) == d * q - d * q0;
    }
    assert d * (q0 - q) == -(d * (q - q0));
    MulAtLeast(d, q - q0);
    MulAtLeast(d, q0 - q);
  }

  lemma {:induction false} DivStep(z: int, d: int)
    requires z >= 0 && d > 0
    ensures (z + 1) / d == z / d + (if (z + 1) % d == 0 then 1 else 0)
  {
    var q, r := z / d, z % d;
    if r + 1 == d {
      DivUnique(z + 1, d, q + 1, 0);
    } else {
      DivUnique(z + 1, d, q, r + 1);
    }
  }

  lemma {:induction false} DaysBeforeYearMonotone(y1: int, y2: int)
    requires 1 <= y1 <= y2
    ensures DaysBeforeYear(y1) + 365 * (y2 - y1) <= DaysBeforeYear(y2)
    decreases y2 - y1
  {
    if y1 < y2 {
      DaysBeforeYearMonotone(y1, y2 - 1);
      DaysBeforeNextYear(y2 - 1);
    }
  }

  lemma {:induction false} MonthsFit(y: int, m: int)
    requires 1 <= m <= 12
    ensures m < 12 ==> DaysBeforeMonth(y, m) + DaysInMonth(y, m) == DaysBeforeMonth(y, m + 1)
    ensures m == 12 ==> DaysBeforeMonth(y, m) + DaysInMonth(y, m) == DaysInYear(y)
  {
  }

  lemma {:induction false} DaysBeforeMonthMonotone(y: int, m1: int, m2: int)
    requires 1 <= m1 < m2 <= 12
    ensures DaysBeforeMonth(y, m1) + DaysInMonth(y, m1) <= DaysBeforeMonth(y, m2)
    decreases m2 - m1
  {
    MonthsFit(y, m1);
    if m1 + 1 < m2 {
      DaysBeforeMonthMonotone(y, m1 + 1, m2);
    }
  }

  /** The day of the year stays inside the year. */
  lemma {:induction false} DayOfYearBounds(t: DateTime)
    requires IsValid(t)
    ensures 0 <= DayOfYear(t) < DaysInYear(t.year)
  {
    MonthsFit(t.year, t.month);
    MonthsFit(t.year, 12);
    if t.month < 12 {
      DaysBeforeMonthMonotone(t.year, t.month, 12);
    }
  }

  /** Chronological order of valid datetimes (with microseconds) is the
      order of their instants, so the model may compare instants wherever
      the script compares datetimes. */
  lemma {:induction false} InstantOrder(a: DateTime, ua: int, b: DateTime, ub: int)
    requires IsValid(a) && IsValid(b)
    requires 0 <= ua < MicrosPerSecond && 0 <= ub < MicrosPerSecond
    ensures LexLess(a, ua, b, ub) <==> Instant(a) + ua < Instant(b) + ub
  {
    if LexLess(a, ua, b, ub) {
      InstantOrderForward(a, ua, b, ub);
    } else if a == b && ua == ub {
    } else {
      assert LexLess(b, ub, a, ua);
      InstantOrderForward(b, ub, a, ua);
    }
  }

  lemma {:induction false} InstantOrderForward(a: DateTime, ua: int, b: DateTime, ub: int)
    requires IsValid(a) && IsValid(b)
    requires 0 <= ua < MicrosPerSecond && 0 <= ub < MicrosPerSecond
    requires LexLess(a, ua, b, ub)
    ensures Instant(a) + ua < Instant(b) + ub
  {
    var sa := a.hour * 3600 + a.minute * 60 + a.second;
    var sb := b.hour * 3600 + b.minute * 60 + b.second;
    assert 0 <= sa < SecondsPerDay && 0 <= sb < SecondsPerDay;
    if a.year == b.year && a.month == b.month && a.day == b.day {
      assert DayNumber(a) == DayNumber(b);
      assert sa < sb || (sa == sb && ua < ub);
    } else {
      DayNumberOrder(a, b);
    }
    DayStepOrder(DayNumber(a), sa, ua, DayNumber(b), sb, ub);
  }

  /** Day numbers follow the order of (year, month, day). */
  lemma {:induction false} DayNumberOrder(a: DateTime, b: DateTime)
    requires IsValid(a) && IsValid(b)
    requires a.year < b.year || (a.year == b.year && (a.month < b.month ||
             (a.month == b.month && a.day < b.day)))
    ensures DayNumber(a) < DayNumber(b)
  {
    if a.year < b.year {
      DayOfYearBounds(a);
      YearStartOrder(a.year, b.year);
      assert DayOfYear(b) >= 0;
    } else if a.month < b.month {
      DaysBeforeMonthMonotone(a.year, a.month, b.month);
    }
  }

  lemma {:induction false} YearStartOrder(y1: int, y2: int)
    requires 1 <= y1 < y2
    ensures DaysBeforeYear(y1) + DaysInYear(y1) <= DaysBeforeYear(y2)
  {
    DaysBeforeNextYear(y1);
    DaysBeforeYearMonotone(y1 + 1, y2);
  }

  lemma {:induction false} DayStepOrder(da: int, sa: int, ua: int, db: int, sb: int, ub: int)
    requires 0 <= sa < SecondsPerDay && 0 <= sb < SecondsPerDay
    requires 0 <= ua < MicrosPerSecond && 0 <= ub < MicrosPerSecond
    requires da < db || (da == db && (sa < sb || (sa == sb && ua < ub)))
    ensures (da * SecondsPerDay + sa) * MicrosPerSecond + ua <
            (db * SecondsPerDay + sb) * MicrosPerSecond + ub
  {
    if da < db {
      assert da * SecondsPerDay + sa < db * SecondsPerDay + sb;
    }
  }

  // ---------------------------------------------------------------------
  // The %W week number

  /** Within one calendar year, two days share a `%W` number exactly when
      they fall in the same Monday-to-Sunday week. */
  lemma {:induction false} WeekNumberIsMondayWeek(a: DateTime, b: DateTime)
    requires IsValid(a) && IsValid(b) && a.year == b.year
    ensures WeekNumber(a) == WeekNumber(b) <==> MondayOf(a) == MondayOf(b)
  {
    var j := DaysBeforeYear(a.year);
    var qa, qb := DayNumber(a) / 7, DayNumber(b) / 7;
    assert MondayOf(a) == 7 * qa && MondayOf(b) == 7 * qb;
    var c := 7 - j;
    assert WeekNumber(a) == (7 * qa + c) / 7;
    assert WeekNumber(b) == (7 * qb + c) / 7;
    assert (7 * qa + c) / 7 == qa + c / 7;
    assert (7 * qb + c) / 7 == qb + c / 7;
  }

  /** `%W` is tied to the calendar year: Tuesday 2024-12-31 and Wednesday
      2025-01-01 lie in the same Monday week but get the keys 2024-W53 and
      2025-W00. */
  lemma {:induction false} WeekSplitsAtNewYear()
    ensures var a, b := DateTime(2024, 12, 31, 0, 0, 0), DateTime(2025, 1, 1, 0, 0, 0);
      IsValid(a) && IsValid(b) && MondayOf(a) == MondayOf(b) &&
      WeekNumber(a) == 53 && WeekNumber(b) == 0
  {
    var a, b := DateTime(2024, 12, 31, 0, 0, 0), DateTime(2025, 1, 1, 0, 0, 0);
    assert DaysBeforeYear(2024) == 738885;
    assert DaysBeforeYear(2025) == 739251;
    assert DayNumber(a) == 739250 && DayNumber(b) == 739251;
  }
}
