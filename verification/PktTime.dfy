/** Billing dates in Pakistan time (UTC+05:00, no daylight saving). */
module PktTime {
  import opened Calendar

  const PKT_OFFSET_MS := 5 * 60 * 60 * 1000

  /** The instant whose UTC reading is the Pakistan wall clock at `t`. */
  function Pkt(t: int): int { t + PKT_OFFSET_MS }

  function StartOfTodayPkt(now: int): int {
    var pktNow := Pkt(now);
    DateUTC(Year(pktNow), Month(pktNow), DateOfMonth(pktNow), 0) - PKT_OFFSET_MS
  }

  function Min(a: int, b: int): int { if a <= b then a else b }

  function AddOneMonthPkt(date: int): int {
    var pkt := Pkt(date);
    var targetMonth := Month(pkt) + 1;
    var daysInTargetMonth := DateOfMonth(DateUTC(Year(pkt), targetMonth + 1, 0, 0));
    var clampedDay := Min(DateOfMonth(pkt), daysInTargetMonth);
    DateUTC(Year(pkt), targetMonth, clampedDay,
            MakeTime(Hours(pkt), Minutes(pkt), Seconds(pkt), Millis(pkt))) - PKT_OFFSET_MS
  }

  function AddDaysPkt(date: int, days: int): int { date + days * MS_PER_DAY }

  /** `n` months added one at a time, as successive renewals do. */
  function Iterate(t: int, n: nat): int {
    if n == 0 then t else AddOneMonthPkt(Iterate(t, n - 1))
  }

  /** The years 0 to 99, which `Date.UTC` misreads. */
  predicate Misread(t: int) { 0 <= Year(Pkt(t)) <= 99 }

  /** Whether a chain of `n` steps from `t` starts a step in a misread year. */
  predicate Crosses(t: int, n: nat) { n > 0 && MonthIndex(Pkt(t)) < 1200 && 0 <= MonthIndex(Pkt(t)) + n - 1 }

  /** Months of the line that a misread year is displaced by. */
  const MISREAD_SHIFT := 12 * 1900

  lemma MisreadMonths(t: int)
    ensures Misread(t) <==> 0 <= MonthIndex(Pkt(t)) < 1200
    ensures 12 * MakeFullYear(Year(Pkt(t))) + Month(Pkt(t))
            == MonthIndex(Pkt(t)) + if Misread(t) then MISREAD_SHIFT else 0
  {
    hide Year, Month;
  }

  /** `startOfTodayPkt` is Pakistan midnight of the day holding `now` exactly when the year is read right. */
  lemma StartOfTodayIsMidnight(now: int)
    ensures TimeWithinDay(Pkt(StartOfTodayPkt(now))) == 0
    ensures StartOfTodayPkt(now) <= now < StartOfTodayPkt(now) + MS_PER_DAY <==> !Misread(now)
  {
    hide MonthStart, MakeDay, Year, Month, DateOfMonth;
    var p := Pkt(now);
    MonthOfInstant(p);
    MakeDayOnLine(MakeFullYear(Year(p)), Month(p), DateOfMonth(p));
    MisreadMonths(now);
    MonthStartsIncrease(MonthIndex(p), MonthIndex(p) + MISREAD_SHIFT);
  }

  /** Where one step lands: the next month of the line, its day clamped to that month, same time of day. */
  lemma StepOnLine(t: int)
    ensures var p, r := Pkt(t), Pkt(AddOneMonthPkt(t));
            var k := MonthIndex(p) + 1 + if Misread(t) then MISREAD_SHIFT else 0;
            && MonthIndex(r) == k
            && DateOfMonth(r) == Min(DateOfMonth(p), MonthLength(k))
            && TimeWithinDay(r) == TimeWithinDay(p)
            && Day(r) == MonthStart(k) + DateOfMonth(r) - 1
  {
    hide MonthStart, MakeDay, Year, Month, DateOfMonth, MakeTime, MonthIndex, Hours, Minutes, Seconds, Millis, MakeFullYear, Misread;
    var p := Pkt(t);
    var y := MakeFullYear(Year(p));
    var k := 12 * y + Month(p) + 1;
    MisreadMonths(t);
    MonthOfInstant(p);
    MonthLengths(k);
    TimeParts(p);
    var last := DateUTC(Year(p), Month(p) + 2, 0, 0);
    MakeDayOnLine(y, Month(p) + 2, 0);
    assert Day(last) == MonthStart(k + 1) - 1;
    MonthIsUnique(last, k);
    var d := Min(DateOfMonth(p), MonthLength(k));
    var r := Pkt(AddOneMonthPkt(t));
    MakeDayOnLine(y, Month(p) + 1, d);
    assert r == (MonthStart(k) + d - 1) * MS_PER_DAY + TimeWithinDay(p);
    assert Day(r) == MonthStart(k) + d - 1;
    MonthIsUnique(r, k);
  }

  /** A step always moves forward, and it is a calendar month long exactly outside the misread years. */
  lemma StepLength(t: int)
    ensures t < AddOneMonthPkt(t)
    ensures 28 * MS_PER_DAY <= AddOneMonthPkt(t) - t <= 31 * MS_PER_DAY <==> !Misread(t)
  {
    hide MonthStart, Year, DateOfMonth, MonthIndex, AddOneMonthPkt, Misread;
    var p, r := Pkt(t), Pkt(AddOneMonthPkt(t));
    var k := MonthIndex(p);
    StepOnLine(t);
    MonthOfInstant(p);
    MonthLengths(k);
    MonthLengths(k + 1);
    if Misread(t) {
      MonthStartsIncrease(k + 1, k + 1 + MISREAD_SHIFT);
      MonthOfInstant(r);
    }
    assert r - p == (Day(r) - Day(p)) * MS_PER_DAY;
  }

  lemma EarlyStepJumps(t: int)
    requires MonthIndex(Pkt(t)) == 600
    ensures Misread(t) && MonthIndex(Pkt(AddOneMonthPkt(t))) == 12 * 1950 + 1
    ensures AddOneMonthPkt(t) - t > 1900 * 336 * MS_PER_DAY
  {
    hide MonthStart, Year, DateOfMonth, MonthIndex, AddOneMonthPkt;
    MisreadMonths(t);
    StepOnLine(t);
    MonthOfInstant(Pkt(t));
    MonthOfInstant(Pkt(AddOneMonthPkt(t)));
    MonthStartsIncrease(601, 23401);
    assert Pkt(AddOneMonthPkt(t)) - Pkt(t) == (Day(Pkt(AddOneMonthPkt(t))) - Day(Pkt(t))) * MS_PER_DAY;
  }

  /** One step from the first of January of year 50 lands in February 1950. */
  lemma EarlyStepExample()
    ensures var t := MonthStart(600) * MS_PER_DAY - PKT_OFFSET_MS;
            MonthIndex(Pkt(t)) == 600 && MonthIndex(Pkt(AddOneMonthPkt(t))) == 12 * 1950 + 1
            && AddOneMonthPkt(t) - t > 1900 * 336 * MS_PER_DAY
  {
    hide MonthStart, MonthIndex, AddOneMonthPkt;
    var t := MonthStart(600) * MS_PER_DAY - PKT_OFFSET_MS;
    DayOf(MonthStart(600), 0);
    MonthLengths(600);
    MonthIsUnique(Pkt(t), 600);
    EarlyStepJumps(t);
  }

  /** The start day clamped by every month passed on the way. */
  function ClampedThrough(day: int, month: int, n: nat): int {
    if n == 0 then day else Min(ClampedThrough(day, month, n - 1), MonthLength(month + n))
  }

  /**
   * `n` renewals move exactly `n` months on, outside the misread years; the time of day never moves;
   * the day of the month only falls, never below 28, and is exactly the start day clamped by the
   * months passed.
   */
  lemma {:induction false} ChainOfMonths(t: int, n: nat)
    ensures MonthIndex(Pkt(Iterate(t, n))) == MonthIndex(Pkt(t)) + n + if Crosses(t, n) then MISREAD_SHIFT else 0
    ensures TimeWithinDay(Pkt(Iterate(t, n))) == TimeWithinDay(Pkt(t))
    ensures Min(DateOfMonth(Pkt(t)), 28) <= DateOfMonth(Pkt(Iterate(t, n))) <= DateOfMonth(Pkt(t))
    ensures !Crosses(t, n) ==>
              DateOfMonth(Pkt(Iterate(t, n))) == ClampedThrough(DateOfMonth(Pkt(t)), MonthIndex(Pkt(t)), n)
  {
    hide MonthStart, DateOfMonth, MonthIndex, AddOneMonthPkt, Misread, MonthLength;
    if n > 0 {
      ChainOfMonths(t, n - 1);
      var u := Iterate(t, n - 1);
      StepOnLine(u);
      MisreadMonths(u);
      MonthLengths(MonthIndex(Pkt(Iterate(t, n))));
    }
  }

  /** Along a chain the day of the month never rises and each step is 28 to 31 days, or misread. */
  lemma ChainStep(t: int, i: nat)
    ensures DateOfMonth(Pkt(Iterate(t, i + 1))) <= DateOfMonth(Pkt(Iterate(t, i)))
    ensures 28 * MS_PER_DAY <= Iterate(t, i + 1) - Iterate(t, i) <= 31 * MS_PER_DAY
            <==> !(0 <= MonthIndex(Pkt(Iterate(t, i))) < 1200)
  {
    hide DateOfMonth, MonthIndex, AddOneMonthPkt, Misread;
    StepOnLine(Iterate(t, i));
    StepLength(Iterate(t, i));
    MisreadMonths(Iterate(t, i));
  }

  lemma {:induction false} ChainIncreases(t: int, i: nat, j: nat)
    requires i < j
    ensures Iterate(t, i) < Iterate(t, j)
    decreases j
  {
    hide AddOneMonthPkt;
    StepLength(Iterate(t, j - 1));
    if i < j - 1 {
      ChainIncreases(t, i, j - 1);
    }
  }

  /** The `n` periods of a chain tile time: every instant from its start to its end is in exactly one. */
  lemma {:induction false} PeriodsTile(t: int, n: nat, x: int) returns (i: nat)
    requires t <= x < Iterate(t, n)
    ensures i < n && Iterate(t, i) <= x < Iterate(t, i + 1)
    ensures forall j: nat | j != i :: !(Iterate(t, j) <= x < Iterate(t, j + 1))
  {
    hide AddOneMonthPkt;
    if x < Iterate(t, n - 1) {
      i := PeriodsTile(t, n - 1, x);
    } else {
      i := n - 1;
      forall j: nat | j != i
        ensures !(Iterate(t, j) <= x < Iterate(t, j + 1))
      {
        if j < i && j + 1 < i {
          ChainIncreases(t, j + 1, i);
        } else if i < j && i + 1 < j {
          ChainIncreases(t, i + 1, j);
        }
      }
    }
  }

  // --- The same in UTC readings: Pakistan is five hours, 18 000 000 milliseconds, ahead.

  lemma NineteenHundredHours(d: int)
    ensures var t := d * 86_400_000 - 18_000_000;
            Hours(t) == 19 && Minutes(t) == 0 && Seconds(t) == 0 && Millis(t) == 0
  {
    var t, h := d * 86_400_000 - 18_000_000, 24 * (d - 1) + 19;
    assert t == 3_600_000 * h;
    assert t / 3_600_000 == h && h % 24 == 19;
    assert t / 60_000 == 60 * h && t / 1000 == 60 * (60 * h);
  }

  /** Today starts at 19:00 UTC, on the day that the clock five hours ahead shows. */
  lemma StartOfTodayInUtc(now: int)
    ensures var r := StartOfTodayPkt(now);
            && Hours(r) == 19 && Minutes(r) == 0 && Seconds(r) == 0 && Millis(r) == 0
            && (Day(r + 18_000_000) == Day(now + 18_000_000) <==> !(0 <= Year(now + 18_000_000) <= 99))
  {
    StartOfTodayIsMidnight(now);
    var r := StartOfTodayPkt(now);
    hide StartOfTodayPkt, Year, Hours, Minutes, Seconds, Millis;
    NineteenHundredHours(Day(r + 18_000_000));
    assert r == Day(r + 18_000_000) * 86_400_000 - 18_000_000;
  }

  /** A step read five hours ahead: the next month, the day clamped to its length, the time of day kept. */
  lemma StepInUtc(t: int)
    ensures var p, r := t + 18_000_000, AddOneMonthPkt(t) + 18_000_000;
            var k := MonthIndex(p) + 1 + if 0 <= Year(p) <= 99 then 22_800 else 0;
            && MonthIndex(r) == k
            && DateOfMonth(r) == (if DateOfMonth(p) <= MonthLength(k) then DateOfMonth(p) else MonthLength(k))
            && r % 86_400_000 == p % 86_400_000
  {
    hide AddOneMonthPkt, MonthIndex, DateOfMonth, MonthLength, Year;
    StepOnLine(t);
  }

  /** A number of days moves the Pakistan day by that number and keeps the time of day. */
  lemma AddDaysMovesDays(t: int, n: int)
    ensures Day(AddDaysPkt(t, n) + 18_000_000) == Day(t + 18_000_000) + n
    ensures (AddDaysPkt(t, n) + 18_000_000) % 86_400_000 == (t + 18_000_000) % 86_400_000
    ensures AddDaysPkt(t, n) - t == n * 86_400_000
  {
    DayOf(Day(t + 18_000_000) + n, (t + 18_000_000) % 86_400_000);
  }

  lemma Year2026()
    ensures MonthStart(24312) == 20_454 && MonthStart(24313) == 20_485 && MonthStart(24314) == 20_513
  {
    assert DayFromYear(2026) == 20_454;
    hide DayFromYear;
  }

  lemma January1970()
    ensures MonthStart(23640) == 0 && MonthStart(23641) == 31
  {
    assert DayFromYear(1970) == 0;
    hide DayFromYear;
  }

  lemma OnlyMidnight(now: int, r: int)
    requires now == 73_800_000 && (r + 18_000_000) % 86_400_000 == 0 && r <= now < r + 86_400_000
    ensures r == 68_400_000
  {
    var d := (r + 18_000_000) / 86_400_000;
    assert r + 18_000_000 == 86_400_000 * d;
  }

  lemma NotMisreadIn1970(now: int)
    requires now == 73_800_000
    ensures !Misread(now)
  {
    January1970();
    assert Day(Pkt(now)) == 1;
    hide MonthStart, MonthIndex, Misread, Year;
    MonthIsUnique(Pkt(now), 23640);
    MisreadMonths(now);
  }

  lemma SecondOfJanuary(now: int)
    requires now == 73_800_000
    ensures StartOfTodayPkt(now) == 68_400_000
  {
    hide StartOfTodayPkt, Misread;
    NotMisreadIn1970(now);
    StartOfTodayIsMidnight(now);
    OnlyMidnight(now, StartOfTodayPkt(now));
  }

  /** Half past one at night on 2 January 1970 in Pakistan, 20:30 UTC on the first, has its day start at 19:00 UTC. */
  lemma StartOfTodayExample()
    ensures StartOfTodayPkt(73_800_000) == 68_400_000
  {
    hide *;
    SecondOfJanuary(73_800_000);
  }

  /** A subscription that starts on 31 January 2026 renews on 28 February, midnight to midnight in Pakistan. */
  lemma MonthEndExample()
    ensures AddOneMonthPkt(1_769_799_600_000) == 1_772_218_800_000
  {
    var t := 1_769_799_600_000;
    Year2026();
    assert Day(Pkt(t)) == 20_484 && TimeWithinDay(Pkt(t)) == 0;
    hide AddOneMonthPkt, MonthIndex, MonthStart, DateOfMonth;
    MonthIsUnique(Pkt(t), 24312);
    MisreadMonths(t);
    StepOnLine(t);
    assert MonthLength(24313) == 28 && DateOfMonth(Pkt(t)) == 31;
    assert Day(Pkt(AddOneMonthPkt(t))) == 20_512;
  }
}
