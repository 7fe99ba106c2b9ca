/**
 * The civil calendar behind JavaScript's `Date`, after section 21.4.1 of ECMA-262: an instant is a
 * number of milliseconds since 1970-01-01T00:00Z, months count from 0 and days of the month from 1.
 */
module Calendar {
  const MS_PER_DAY := 86_400_000

  function Day(t: int): int { t / MS_PER_DAY }

  function TimeWithinDay(t: int): int { t % MS_PER_DAY }

  lemma DayBetween(a: int, b: int, t: int)
    ensures a * MS_PER_DAY <= t < b * MS_PER_DAY <==> a <= Day(t) < b
  {
  }

  lemma DayMonotone(s: int, t: int)
    requires s <= t
    ensures Day(s) <= Day(t)
  {
  }

  lemma DayOf(d: int, time: int)
    requires 0 <= time < MS_PER_DAY
    ensures Day(d * MS_PER_DAY + time) == d
  {
  }

  predicate IsLeap(y: int) { y % 4 == 0 && (y % 100 != 0 || y % 400 == 0) }

  function DaysInYear(y: int): int { if IsLeap(y) then 366 else 365 }

  /** The day number of 1 January of year `y`. */
  function DayFromYear(y: int): int {
    365 * (y - 1970) + (y - 1969) / 4 - (y - 1901) / 100 + (y - 1601) / 400
  }

  lemma FourYearStep(y: int)
    ensures (y - 1968) / 4 == (y - 1969) / 4 + if y % 4 == 0 then 1 else 0
  {
  }

  lemma CenturyStep(y: int)
    ensures (y - 1900) / 100 == (y - 1901) / 100 + if y % 100 == 0 then 1 else 0
  {
  }

  lemma FourCenturyStep(y: int)
    ensures (y - 1600) / 400 == (y - 1601) / 400 + if y % 400 == 0 then 1 else 0
  {
  }

  lemma FourCenturyIsCentury(y: int, q: int)
    requires y == 400 * q
    ensures y % 100 == 0
  {
  }

  lemma CenturyIsFourYear(y: int, q: int)
    requires y == 100 * q
    ensures y % 4 == 0
  {
  }

  lemma YearStep(y: int)
    ensures DayFromYear(y + 1) == DayFromYear(y) + DaysInYear(y)
  {
    FourYearStep(y);
    CenturyStep(y);
    FourCenturyStep(y);
    if y % 400 == 0 { FourCenturyIsCentury(y, y / 400); }
    if y % 100 == 0 { CenturyIsFourYear(y, y / 100); }
  }

  /** The year whose days include day number `d`, found by walking from a first guess. */
  function YearWalk(d: int, y: int): (r: int)
    ensures DayFromYear(r) <= d < DayFromYear(r + 1)
    decreases DayFromYear(y) > d, if DayFromYear(y) > d then DayFromYear(y) - d else d - DayFromYear(y)
  {
    hide DayFromYear;
    YearStep(y);
    YearStep(y - 1);
    if d < DayFromYear(y) then YearWalk(d, y - 1)
    else if DayFromYear(y + 1) <= d then YearWalk(d, y + 1)
    else y
  }

  function YearOfDay(d: int): (y: int)
    ensures DayFromYear(y) <= d < DayFromYear(y + 1)
  {
    YearWalk(d, 1970 + d / 366)
  }

  /** Days before month `m` in its year. */
  function DaysBeforeMonth(m: int, leap: bool): int
    requires 0 <= m < 12
  {
    var x := if leap then 1 else 0;
    match m
    case 0 => 0 case 1 => 31 case 2 => 59 + x case 3 => 90 + x case 4 => 120 + x case 5 => 151 + x
    case 6 => 181 + x case 7 => 212 + x case 8 => 243 + x case 9 => 273 + x case 10 => 304 + x
    case _ => 334 + x
  }

  /** The month holding the day with zero-based index `dy` in its year. */
  function MonthInYear(dy: int, leap: bool): (m: int)
    ensures 0 <= m < 12
  {
    var x := if leap then 1 else 0;
    if dy < 31 then 0 else if dy < 59 + x then 1 else if dy < 90 + x then 2
    else if dy < 120 + x then 3 else if dy < 151 + x then 4 else if dy < 181 + x then 5
    else if dy < 212 + x then 6 else if dy < 243 + x then 7 else if dy < 273 + x then 8
    else if dy < 304 + x then 9 else if dy < 334 + x then 10 else 11
  }

  // --- The `Date` accessors and `Date.UTC`.

  function Year(t: int): int { YearOfDay(Day(t)) }

  function Month(t: int): (m: int)
    ensures 0 <= m < 12
  {
    MonthInYear(Day(t) - DayFromYear(Year(t)), IsLeap(Year(t)))
  }

  function DateOfMonth(t: int): int {
    Day(t) - DayFromYear(Year(t)) - DaysBeforeMonth(Month(t), IsLeap(Year(t))) + 1
  }

  function Hours(t: int): int { t / 3_600_000 % 24 }

  function Minutes(t: int): int { t / 60_000 % 60 }

  function Seconds(t: int): int { t / 1000 % 60 }

  function Millis(t: int): int { t % 1000 }

  function MakeTime(h: int, mi: int, s: int, ms: int): int {
    h * 3_600_000 + mi * 60_000 + s * 1000 + ms
  }

  /** Months and days outside their usual range carry over: day 0 is the last day of the month before. */
  function MakeDay(y: int, m: int, date: int): int {
    var ym := y + m / 12;
    DayFromYear(ym) + DaysBeforeMonth(m % 12, IsLeap(ym)) + date - 1
  }

  /** `Date.UTC` reads the years 0 to 99 as 1900 to 1999. */
  function MakeFullYear(y: int): int { if 0 <= y <= 99 then 1900 + y else y }

  function DateUTC(y: int, m: int, date: int, time: int): int {
    MakeDay(MakeFullYear(y), m, date) * MS_PER_DAY + time
  }

  // --- Months counted on one line: month `k` is month `k % 12` of year `k / 12`.

  function MonthStart(k: int): int { DayFromYear(k / 12) + DaysBeforeMonth(k % 12, IsLeap(k / 12)) }

  function MonthLength(k: int): int { MonthStart(k + 1) - MonthStart(k) }

  function MonthIndex(t: int): int { 12 * Year(t) + Month(t) }

  /** A month of the line has 28 to 31 days, and they are the familiar ones. */
  lemma MonthLengths(k: int)
    ensures 28 <= MonthLength(k) <= 31
    ensures MonthLength(k) ==
            if k % 12 == 1 then (if IsLeap(k / 12) then 29 else 28)
            else if k % 12 in {3, 5, 8, 10} then 30 else 31
  {
    YearStep(k / 12);
    if k % 12 == 11 {
      assert (k + 1) / 12 == k / 12 + 1 && (k + 1) % 12 == 0;
    } else {
      assert (k + 1) / 12 == k / 12 && (k + 1) % 12 == k % 12 + 1;
    }
  }

  lemma {:induction false} MonthStartsIncrease(j: int, k: int)
    requires j <= k
    ensures MonthStart(j) + 28 * (k - j) <= MonthStart(k)
    decreases k - j
  {
    hide MonthStart;
    if j < k {
      MonthLengths(j);
      MonthStartsIncrease(j + 1, k);
    }
  }

  lemma MonthInYearBounds(dy: int, leap: bool)
    requires 0 <= dy < if leap then 366 else 365
    ensures var m := MonthInYear(dy, leap);
            DaysBeforeMonth(m, leap) <= dy
            < if m == 11 then (if leap then 366 else 365) else DaysBeforeMonth(m + 1, leap)
  {
  }

  lemma MonthOnLine(y: int, m: int)
    requires 0 <= m < 12
    ensures MonthStart(12 * y + m) == DayFromYear(y) + DaysBeforeMonth(m, IsLeap(y))
    ensures MonthStart(12 * y + m + 1)
            == if m == 11 then DayFromYear(y + 1) else DayFromYear(y) + DaysBeforeMonth(m + 1, IsLeap(y))
  {
    assert (12 * y + m) / 12 == y && (12 * y + m) % 12 == m;
    if m == 11 {
      assert (12 * y + m + 1) / 12 == y + 1 && (12 * y + m + 1) % 12 == 0;
    } else {
      assert (12 * y + m + 1) / 12 == y && (12 * y + m + 1) % 12 == m + 1;
    }
  }

  lemma MonthOfDay(d: int, y: int, m: int)
    requires DayFromYear(y) <= d < DayFromYear(y + 1)
    requires m == MonthInYear(d - DayFromYear(y), IsLeap(y))
    ensures MonthStart(12 * y + m) <= d < MonthStart(12 * y + m + 1)
    ensures MonthStart(12 * y + m) == DayFromYear(y) + DaysBeforeMonth(m, IsLeap(y))
  {
    YearStep(y);
    MonthInYearBounds(d - DayFromYear(y), IsLeap(y));
    MonthOnLine(y, m);
  }

  /** The accessors place every instant inside the month they name. */
  lemma MonthOfInstant(t: int)
    ensures MonthStart(MonthIndex(t)) <= Day(t) < MonthStart(MonthIndex(t) + 1)
    ensures Day(t) == MonthStart(MonthIndex(t)) + DateOfMonth(t) - 1
    ensures 1 <= DateOfMonth(t) <= MonthLength(MonthIndex(t))
  {
    hide MonthStart, YearOfDay, MonthInYear, DaysBeforeMonth, DayFromYear;
    MonthOfDay(Day(t), Year(t), Month(t));
  }

  lemma OneMonthPerDay(d: int, j: int, k: int)
    requires MonthStart(j) <= d < MonthStart(j + 1)
    requires MonthStart(k) <= d < MonthStart(k + 1)
    ensures j == k
  {
    hide *;
    if j < k {
      MonthStartsIncrease(j + 1, k);
    } else if k < j {
      MonthStartsIncrease(k + 1, j);
    }
  }

  /** Conversely, a day inside month `k` is reported as belonging to month `k`. */
  lemma MonthIsUnique(t: int, k: int)
    requires MonthStart(k) <= Day(t) < MonthStart(k + 1)
    ensures MonthIndex(t) == k && DateOfMonth(t) == Day(t) - MonthStart(k) + 1
  {
    MonthOfInstant(t);
    OneMonthPerDay(Day(t), MonthIndex(t), k);
  }

  /** `Date.UTC(y, m, d)` with its carrying is plain addition on the line of months. */
  lemma MakeDayOnLine(y: int, m: int, date: int)
    ensures MakeDay(y, m, date) == MonthStart(12 * y + m) + date - 1
  {
    assert (12 * y + m) / 12 == y + m / 12;
    assert (12 * y + m) % 12 == m % 12;
  }

  lemma TimeParts(t: int)
    ensures MakeTime(Hours(t), Minutes(t), Seconds(t), Millis(t)) == TimeWithinDay(t)
  {
    var s := t / 1000;
    var mi := t / 60_000;
    var h := t / 3_600_000;
    assert mi == s / 60;
    assert h == mi / 60;
    assert h / 24 == t / MS_PER_DAY;
  }

  /** Reading the parts of an instant and rebuilding it gives it back, except in the years 0 to 99. */
  lemma DateRoundTrip(t: int)
    ensures MakeDay(Year(t), Month(t), DateOfMonth(t)) * MS_PER_DAY
            + MakeTime(Hours(t), Minutes(t), Seconds(t), Millis(t)) == t
    ensures DateUTC(Year(t), Month(t), DateOfMonth(t), MakeTime(Hours(t), Minutes(t), Seconds(t), Millis(t))) == t
            <==> !(0 <= Year(t) <= 99)
  {
    hide MonthStart, MakeDay, Year, Month, DateOfMonth, MakeTime;
    MonthOfInstant(t);
    TimeParts(t);
    MakeDayOnLine(Year(t), Month(t), DateOfMonth(t));
    if 0 <= Year(t) <= 99 {
      MakeDayOnLine(Year(t) + 1900, Month(t), DateOfMonth(t));
      MonthStartsIncrease(MonthIndex(t), MonthIndex(t) + 22800);
    }
  }
}
