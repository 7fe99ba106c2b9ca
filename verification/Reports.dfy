/** The financial report: months of a date range, and the money that falls in each. */
module Reports {
  import opened Calendar
  import opened Money
  import opened FeeCalc
  import opened Selections
  import Outstanding

  datatype Bucket = Bucket(start: int, end: int)

  function EndOfDay(t: int): int { Day(t) * MS_PER_DAY + MS_PER_DAY - 1 }

  /** The last millisecond of the day: none of it is later, and the next is on the following day. */
  lemma EndOfDayIsLast(t: int)
    ensures t <= EndOfDay(t) < t + 86_400_000 && EndOfDay(t) % 86_400_000 == 86_399_999
  {
  }

  function FirstOfMonth(t: int, offset: int): int { DateUTC(Year(t), Month(t) + offset, 1, 0) }

  function EndOfMonth(cursor: int): int { EndOfDay(DateUTC(Year(cursor), Month(cursor) + 1, 0, 0)) }

  const MAX_BUCKETS := 36

  /** The buckets a cursor passes on its way to `last`, at most `guard` of them. */
  function MonthsFrom(cursor: int, last: int, guard: nat): seq<Bucket>
    decreases guard
  {
    if cursor <= last && guard > 0
    then [Bucket(cursor, EndOfMonth(cursor))] + MonthsFrom(FirstOfMonth(cursor, 1), last, guard - 1)
    else []
  }

  function Months(from: int, to: int): seq<Bucket> { MonthsFrom(FirstOfMonth(from, 0), FirstOfMonth(to, 0), MAX_BUCKETS) }

  method EnumerateMonths(from: int, to: int) returns (months: seq<Bucket>)
    ensures months == Months(from, to)
  {
    hide FirstOfMonth, EndOfMonth;
    months := [];
    var cursor := FirstOfMonth(from, 0);
    var last := FirstOfMonth(to, 0);
    var guard := 0;
    while cursor <= last && guard < MAX_BUCKETS
      invariant guard <= MAX_BUCKETS
      invariant months + MonthsFrom(cursor, last, MAX_BUCKETS - guard) == Months(from, to)
      decreases MAX_BUCKETS - guard
    {
      months := months + [Bucket(cursor, EndOfMonth(cursor))];
      cursor := FirstOfMonth(cursor, 1);
      guard := guard + 1;
    }
  }

  // --- Buckets on the line of months.

  function MonthStartMs(k: int): int { MonthStart(k) * MS_PER_DAY }

  /** The calendar months `k` to `k + n - 1`. */
  function Line(k: int, n: nat): (r: seq<Bucket>)
    ensures |r| == n
    decreases n
  {
    hide MonthStartMs;
    if n == 0 then [] else [Bucket(MonthStartMs(k), MonthStartMs(k + 1) - 1)] + Line(k + 1, n - 1)
  }

  lemma FirstOfMonthOnLine(t: int, offset: int)
    ensures FirstOfMonth(t, offset)
            == MonthStartMs(MonthIndex(t) + offset + if 0 <= Year(t) <= 99 then 12 * 1900 else 0)
  {
    hide MonthStart, MakeDay, Year, Month;
    MakeDayOnLine(MakeFullYear(Year(t)), Month(t) + offset, 1);
  }

  lemma YearOfIndex(t: int)
    ensures Year(t) == MonthIndex(t) / 12
  {
    hide Year, Month;
  }

  /** The month after month `k` as the cursor finds it: the years 0 to 99 are left for the 1900s. */
  function NextMonth(k: int): int { if 0 <= k < 1200 then k + 1 + 12 * 1900 else k + 1 }

  lemma YearReadLate(k: int, y: int)
    requires y == k / 12
    ensures 12 * MakeFullYear(y) + k % 12 == NextMonth(k) - 1
  {
  }

  lemma IndexParts(t: int)
    ensures 12 * Year(t) + Month(t) == MonthIndex(t)
  {
    hide Year, Month;
  }

  /** A bucket ends just before the next one starts. */
  lemma CursorOnLine(k: int)
    ensures EndOfMonth(MonthStartMs(k)) == MonthStartMs(NextMonth(k)) - 1
    ensures FirstOfMonth(MonthStartMs(k), 1) == MonthStartMs(NextMonth(k))
  {
    hide MonthStart, MakeDay, Year, Month, MakeFullYear, MonthIndex, Day, NextMonth;
    var c := MonthStartMs(k);
    MonthLengths(k);
    DayOf(MonthStart(k), 0);
    MonthIsUnique(c, k);
    YearOfIndex(c);
    IndexParts(c);
    YearReadLate(k, Year(c));
    MakeDayOnLine(MakeFullYear(Year(c)), Month(c) + 1, 1);
    MakeDayOnLine(MakeFullYear(Year(c)), Month(c) + 1, 0);
    DayOf(MonthStart(NextMonth(k)) - 1, 0);
  }

  lemma MonthStartsOrdered(j: int, k: int)
    ensures MonthStartMs(j) <= MonthStartMs(k) <==> j <= k
  {
    hide MonthStart;
    if j <= k { MonthStartsIncrease(j, k); } else { MonthStartsIncrease(k, j); }
  }

  /** How many months from `k` to `l` at most `guard` steps visit. */
  function Visited(k: int, l: int, guard: nat): nat { if l < k then 0 else if l - k + 1 < guard then l - k + 1 else guard }

  lemma {:induction false} MonthsOnLine(k: int, l: int, guard: nat)
    requires 1200 <= k || l < 0
    ensures MonthsFrom(MonthStartMs(k), MonthStartMs(l), guard) == Line(k, Visited(k, l, guard))
    decreases guard
  {
    hide MonthStartMs, FirstOfMonth, EndOfMonth;
    MonthStartsOrdered(k, l);
    if k <= l && guard > 0 {
      CursorOnLine(k);
      MonthsOnLine(k + 1, l, guard - 1);
    }
  }

  /** Crossing into year 0: that January's bucket runs on to the end of January 1900. */
  function AcrossYearZero(k: int, l: int, guard: nat): seq<Bucket>
    requires k <= 0 <= l
  {
    if guard <= -k then Line(k, guard)
    else Line(k, -k) + [Bucket(MonthStartMs(0), MonthStartMs(22801) - 1)] + Line(22801, Visited(22801, l, guard + k - 1))
  }

  lemma AcrossStep(k: int, l: int, guard: nat)
    requires k < 0 <= l && guard > 0
    ensures AcrossYearZero(k, l, guard) == [Bucket(MonthStartMs(k), MonthStartMs(k + 1) - 1)] + AcrossYearZero(k + 1, l, guard - 1)
  {
    hide MonthStartMs;
  }

  lemma AcrossStart(l: int, guard: nat)
    requires 0 <= l && guard > 0
    ensures AcrossYearZero(0, l, guard)
            == [Bucket(MonthStartMs(0), MonthStartMs(22801) - 1)] + Line(22801, Visited(22801, l, guard - 1))
  {
    hide MonthStartMs;
    assert Line(0, 0) == [];
  }

  lemma {:induction false} MonthsAcross(k: int, l: int, guard: nat)
    requires k <= 0 <= l
    ensures MonthsFrom(MonthStartMs(k), MonthStartMs(l), guard) == AcrossYearZero(k, l, guard)
    decreases guard
  {
    hide MonthStartMs, FirstOfMonth, EndOfMonth;
    MonthStartsOrdered(k, l);
    if guard > 0 {
      CursorOnLine(k);
      if k < 0 {
        MonthsAcross(k + 1, l, guard - 1);
        AcrossStep(k, l, guard);
      } else {
        MonthsOnLine(22801, l, guard - 1);
        AcrossStart(l, guard);
      }
      hide AcrossYearZero, Line, Visited;
    }
  }

  predicate Holds(b: Bucket, x: int) { b.start <= x <= b.end }

  ghost predicate HeldOnlyAt(months: seq<Bucket>, i: int, x: int) {
    0 <= i < |months| && Holds(months[i], x) && forall j | 0 <= j < |months| && j != i :: !Holds(months[j], x)
  }

  /** Exactly one bucket holds the instant `x`. */
  ghost predicate HeldOnce(months: seq<Bucket>, x: int) {
    exists i :: HeldOnlyAt(months, i, x)
  }

  /** Where the cursor stands when the loop ends. */
  function Stop(k: int, l: int, guard: nat): (r: int)
    ensures k <= r
    decreases guard
  {
    if k <= l && guard > 0 then Stop(NextMonth(k), l, guard - 1) else k
  }

  lemma StopAt(k: int, l: int, guard: nat)
    ensures (k >= 1200 || l < 0) && k <= l ==> Stop(k, l, guard) == if l - k + 1 < guard then l + 1 else k + guard
    ensures k >= 1200 && k > l ==> Stop(k, l, guard) == k
    decreases guard
  {
    if k <= l && guard > 0 { StopAt(k + 1, l, guard - 1); }
  }

  /** From before year 0 into it: the bucket of January of year 0 runs on to the end of January 1900. */
  lemma {:induction false} StopAcross(k: int, l: int, guard: nat)
    requires k <= 0 <= l
    ensures Stop(k, l, guard) == if -k < guard then Stop(22801, l, guard + k - 1) else k + guard
    decreases guard
  {
    if k < 0 && guard > 0 { StopAcross(k + 1, l, guard - 1); }
  }

  lemma DayHolds(j: int, k: int, x: int)
    ensures MonthStart(j) <= Day(x) < MonthStart(k) <==> j <= MonthIndex(x) < k
  {
    hide *;
    MonthOfInstant(x);
    var m := MonthIndex(x);
    if j <= m { MonthStartsIncrease(j, m); } else { MonthStartsIncrease(m + 1, j); }
    if m < k { MonthStartsIncrease(m + 1, k); } else { MonthStartsIncrease(k, m); }
  }

  lemma BucketHolds(j: int, k: int, x: int)
    ensures MonthStartMs(j) <= x <= MonthStartMs(k) - 1 <==> j <= MonthIndex(x) < k
  {
    hide MonthStart, MonthIndex, Day;
    DayBetween(MonthStart(j), MonthStart(k), x);
    DayHolds(j, k, x);
  }

  lemma OneMoreBucket(b: Bucket, rest: seq<Bucket>, x: int)
    requires !HeldOnce(rest, x) ==> forall i | 0 <= i < |rest| :: !Holds(rest[i], x)
    requires HeldOnce(rest, x) ==> !Holds(b, x)
    ensures HeldOnce([b] + rest, x) <==> Holds(b, x) || HeldOnce(rest, x)
    ensures !HeldOnce([b] + rest, x) ==> forall i | 0 <= i < |rest| + 1 :: !Holds(([b] + rest)[i], x)
  {
    hide Holds;
    var all := [b] + rest;
    if HeldOnce(rest, x) {
      var i :| HeldOnlyAt(rest, i, x);
      assert HeldOnlyAt(all, i + 1, x);
    } else if Holds(b, x) {
      assert HeldOnlyAt(all, 0, x);
    }
  }

  /** The buckets tile: together they hold every instant from the first cursor to the last, each once, and nothing else. */
  lemma {:induction false} BucketsTile(k: int, l: int, guard: nat, x: int)
    ensures var months := MonthsFrom(MonthStartMs(k), MonthStartMs(l), guard);
            && (HeldOnce(months, x) <==> k <= MonthIndex(x) < Stop(k, l, guard))
            && (!HeldOnce(months, x) ==> forall i | 0 <= i < |months| :: !Holds(months[i], x))
    decreases guard
  {
    hide MonthStartMs, FirstOfMonth, EndOfMonth, MonthIndex;
    MonthStartsOrdered(k, l);
    if k <= l && guard > 0 {
      var rest := MonthsFrom(MonthStartMs(NextMonth(k)), MonthStartMs(l), guard - 1);
      CursorOnLine(k);
      BucketHolds(k, NextMonth(k), x);
      BucketsTile(NextMonth(k), l, guard - 1, x);
      OneMoreBucket(Bucket(MonthStartMs(k), MonthStartMs(NextMonth(k)) - 1), rest, x);
    }
  }

  /**
   * Whether the buckets of a range miss nothing of it: the range is empty, or starts after year 99
   * and touches at most 36 months, or starts before year 0 and reaches its end in 36 buckets, one of
   * which spans the years 0 to 1899.
   */
  predicate Bucketed(from: int, to: int) {
    var k, l := MonthIndex(from), MonthIndex(to);
    EndOfDay(to) < from || (1200 <= k && l - k < 36)
    || (k < 0 && if l < 0 then l - k < 36 else -k < 36 && l - 22800 - k < 36)
  }

  /** `Date.UTC` moves a month of the years 0 to 99 to the 1900s. */
  function ReadMonth(k: int): int { if 0 <= k < 1200 then k + 22800 else k }

  /** The buckets are the calendar months from the start, as read, to the end, as read, cut off after 36. */
  lemma MonthsShape(from: int, to: int)
    ensures var k, l := ReadMonth(MonthIndex(from)), ReadMonth(MonthIndex(to));
            Months(from, to) == if k < 0 <= l then AcrossYearZero(k, l, 36) else Line(k, Visited(k, l, 36))
  {
    hide MonthStartMs, Year, MonthIndex, Line, MonthsFrom, FirstOfMonth;
    FirstOfMonthOnLine(from, 0);
    FirstOfMonthOnLine(to, 0);
    YearOfIndex(from);
    YearOfIndex(to);
    var k, l := ReadMonth(MonthIndex(from)), ReadMonth(MonthIndex(to));
    if k < 0 <= l { MonthsAcross(k, l, MAX_BUCKETS); } else { MonthsOnLine(k, l, MAX_BUCKETS); }
  }

  lemma LaterIsLaterMonth(s: int, t: int)
    requires s <= t
    ensures MonthIndex(s) <= MonthIndex(t)
  {
    hide *;
    DayMonotone(s, t);
    MonthOfInstant(s);
    MonthOfInstant(t);
    if MonthIndex(t) < MonthIndex(s) { MonthStartsIncrease(MonthIndex(t) + 1, MonthIndex(s)); }
  }

  lemma SameDay(t: int)
    ensures Day(EndOfDay(t)) == Day(t)
  {
    DayOf(Day(t), MS_PER_DAY - 1);
  }

  lemma EndOfDaySameMonth(t: int)
    ensures MonthIndex(EndOfDay(t)) == MonthIndex(t)
  {
    hide *;
    MonthOfInstant(t);
    SameDay(t);
    MonthIsUnique(EndOfDay(t), MonthIndex(t));
  }

  lemma MonthsHold(from: int, to: int, x: int)
    ensures var k, l := ReadMonth(MonthIndex(from)), ReadMonth(MonthIndex(to));
            HeldOnce(Months(from, to), x) <==> k <= MonthIndex(x) < Stop(k, l, MAX_BUCKETS)
  {
    hide MonthStartMs, Year, MonthIndex, MonthsFrom, FirstOfMonth, HeldOnce, Stop;
    FirstOfMonthOnLine(from, 0);
    FirstOfMonthOnLine(to, 0);
    YearOfIndex(from);
    YearOfIndex(to);
    BucketsTile(ReadMonth(MonthIndex(from)), ReadMonth(MonthIndex(to)), MAX_BUCKETS, x);
  }

  lemma BucketedOnLine(k: int, l: int)
    requires k <= l
    ensures ReadMonth(k) <= k && l < Stop(ReadMonth(k), ReadMonth(l), 36)
            <==> (1200 <= k && l - k < 36)
                 || (k < 0 && if l < 0 then l - k < 36 else -k < 36 && l - 22800 - k < 36)
  {
    hide Stop;
    if 1200 <= k || l < 0 {
      StopAt(k, l, MAX_BUCKETS);
    } else if k < 0 {
      StopAcross(k, ReadMonth(l), MAX_BUCKETS);
      if -k < MAX_BUCKETS { StopAt(22801, ReadMonth(l), MAX_BUCKETS + k - 1); }
    }
  }

  /** Every instant of the range lies in exactly one bucket just when the range is one the loop buckets fully. */
  lemma EveryInstantHeldOnce(from: int, to: int)
    ensures (forall x | from <= x <= EndOfDay(to) :: HeldOnce(Months(from, to), x)) <==> Bucketed(from, to)
  {
    hide EndOfDay, MonthIndex, Months, HeldOnce, Stop;
    if from <= EndOfDay(to) {
      var last := EndOfDay(to);
      LaterIsLaterMonth(from, last);
      EndOfDaySameMonth(to);
      BucketedOnLine(MonthIndex(from), MonthIndex(to));
      MonthsHold(from, to, from);
      MonthsHold(from, to, last);
      if Bucketed(from, to) {
        forall x | from <= x <= last
          ensures HeldOnce(Months(from, to), x)
        {
          LaterIsLaterMonth(from, x);
          LaterIsLaterMonth(x, last);
          MonthsHold(from, to, x);
        }
      }
    }
  }

  lemma MidnightIndex(d: int, k: int)
    requires MonthStart(k) <= d < MonthStart(k + 1)
    ensures MonthIndex(d * MS_PER_DAY) == k && EndOfDay(d * MS_PER_DAY) >= d * MS_PER_DAY
  {
    hide MonthStart, MonthIndex;
    DayOf(d, 0);
    MonthIsUnique(d * MS_PER_DAY, k);
  }

  lemma SeventiesStarts()
    ensures MonthStart(23640) == 0 && MonthStart(23641) == 31 && MonthStart(23676) == 1096 && MonthStart(23677) == 1127
  {
    assert DayFromYear(1970) == 0 && DayFromYear(1973) == 1096;
    hide DayFromYear;
  }

  lemma LongRangeHolds(from: int, to: int)
    requires MonthIndex(from) == 23640 && MonthIndex(to) == 23676 && from <= EndOfDay(to)
    ensures !Bucketed(from, to) && forall b | b in Months(from, to) :: !Holds(b, to)
  {
    hide MonthIndex, MonthStartMs, EndOfDay, FirstOfMonth, MonthsFrom, Year;
    FirstOfMonthOnLine(from, 0);
    FirstOfMonthOnLine(to, 0);
    YearOfIndex(from);
    YearOfIndex(to);
    BucketsTile(23640, 23676, MAX_BUCKETS, to);
    StopAt(23640, 23676, MAX_BUCKETS);
  }

  /** January 1970 to January 1973 is 37 months: the last of them is in no bucket. */
  lemma LongRangeMissesItsEnd()
    ensures var to := 1096 * MS_PER_DAY;
            0 <= to <= EndOfDay(to) && !Bucketed(0, to) && forall b | b in Months(0, to) :: !Holds(b, to)
  {
    SeventiesStarts();
    hide MonthStart, MonthIndex, Months, Bucketed, EndOfDay;
    MidnightIndex(0, 23640);
    MidnightIndex(1096, 23676);
    LongRangeHolds(0, 1096 * MS_PER_DAY);
  }

  // --- Money by month.

  /** An amount spread over a span of time: a payment's span is the instant it was made. */
  datatype Entry = Entry(amount: real, start: int, end: int)

  predicate Overlaps(b: Bucket, e: Entry) { e.start <= b.end && e.end >= b.start }

  /** A month's total takes in an amount when the month and the amount's span share an instant. */
  lemma OverlapIsASharedInstant(b: Bucket, e: Entry)
    requires b.start <= b.end && e.start <= e.end
    ensures Overlaps(b, e) <==> exists x :: Holds(b, x) && e.start <= x <= e.end
  {
    var later := if b.start < e.start then e.start else b.start;
    assert Overlaps(b, e) <==> Holds(b, later) && e.start <= later <= e.end;
  }

  function MonthTotal(b: Bucket, es: seq<Entry>): real {
    if es == [] then 0.0
    else MonthTotal(b, es[..|es| - 1]) + if Overlaps(b, es[|es| - 1]) then es[|es| - 1].amount else 0.0
  }

  function Total(es: seq<Entry>): real {
    if es == [] then 0.0 else Total(es[..|es| - 1]) + es[|es| - 1].amount
  }

  /** The trend column: each month's total, rounded. */
  function Trend(months: seq<Bucket>, es: seq<Entry>): (r: seq<real>)
    ensures |r| == |months|
  {
    seq(|months|, i requires 0 <= i < |months| => Round2(MonthTotal(months[i], es)))
  }

  function UnroundedTrend(months: seq<Bucket>, es: seq<Entry>): seq<real> {
    seq(|months|, i requires 0 <= i < |months| => MonthTotal(months[i], es))
  }

  /** How many months an entry falls in. */
  function Hits(months: seq<Bucket>, e: Entry): nat {
    if months == [] then 0 else Hits(months[..|months| - 1], e) + if Overlaps(months[|months| - 1], e) then 1 else 0
  }

  function Times(amount: real, n: nat): real {
    if n == 0 then 0.0 else Times(amount, n - 1) + amount
  }

  function WeightedTotal(months: seq<Bucket>, es: seq<Entry>): real {
    if es == [] then 0.0
    else WeightedTotal(months, es[..|es| - 1]) + Times(es[|es| - 1].amount, Hits(months, es[|es| - 1]))
  }

  lemma {:induction false} OneMoreEntry(months: seq<Bucket>, es: seq<Entry>, e: Entry)
    ensures Sum(UnroundedTrend(months, es + [e])) == Sum(UnroundedTrend(months, es)) + Times(e.amount, Hits(months, e))
  {
    hide Overlaps;
    if months != [] {
      var n := |months| - 1;
      OneMoreEntry(months[..n], es, e);
      assert UnroundedTrend(months, es + [e])[..n] == UnroundedTrend(months[..n], es + [e]);
      assert UnroundedTrend(months, es)[..n] == UnroundedTrend(months[..n], es);
      assert (es + [e])[..|es|] == es;
    }
  }

  lemma {:induction false} EmptyTrend(months: seq<Bucket>)
    ensures Sum(UnroundedTrend(months, [])) == 0.0
  {
    if months != [] {
      EmptyTrend(months[..|months| - 1]);
      assert UnroundedTrend(months, [])[..|months| - 1] == UnroundedTrend(months[..|months| - 1], []);
    }
  }

  /** Adding the months up counts each entry once for every month it falls in. */
  lemma {:induction false} TrendCountsHits(months: seq<Bucket>, es: seq<Entry>)
    ensures Sum(UnroundedTrend(months, es)) == WeightedTotal(months, es)
  {
    if es == [] {
      EmptyTrend(months);
    } else {
      TrendCountsHits(months, es[..|es| - 1]);
      OneMoreEntry(months, es[..|es| - 1], es[|es| - 1]);
      assert es[..|es| - 1] + [es[|es| - 1]] == es;
    }
  }

  lemma {:induction false} NoHits(months: seq<Bucket>, e: Entry)
    requires forall i | 0 <= i < |months| :: !Overlaps(months[i], e)
    ensures Hits(months, e) == 0
  {
    if months != [] { NoHits(months[..|months| - 1], e); }
  }

  lemma {:induction false} SomeHit(months: seq<Bucket>, e: Entry, i: nat)
    requires i < |months| && Overlaps(months[i], e)
    ensures Hits(months, e) >= 1
    ensures (forall j | 0 <= j < |months| && j != i :: !Overlaps(months[j], e)) ==> Hits(months, e) == 1
  {
    var n := |months| - 1;
    if i < n {
      SomeHit(months[..n], e, i);
    } else if forall j | 0 <= j < |months| && j != i :: !Overlaps(months[j], e) {
      NoHits(months[..n], e);
    }
  }

  lemma {:induction false} TotalsInCents(b: Bucket, es: seq<Entry>)
    requires forall e | e in es :: WholeCents(e.amount)
    ensures WholeCents(MonthTotal(b, es)) && WholeCents(Total(es))
  {
    CentsClosed(0.0, 0.0);
    if es != [] {
      TotalsInCents(b, es[..|es| - 1]);
      CentsClosed(MonthTotal(b, es[..|es| - 1]), es[|es| - 1].amount);
      CentsClosed(Total(es[..|es| - 1]), es[|es| - 1].amount);
    }
  }

  lemma {:induction false} TrendNear(months: seq<Bucket>, es: seq<Entry>)
    ensures var d := Sum(Trend(months, es)) - Sum(UnroundedTrend(months, es));
            -0.005 * |months| as real <= d <= 0.005 * |months| as real
    ensures (forall e | e in es :: WholeCents(e.amount)) ==> Sum(Trend(months, es)) == Sum(UnroundedTrend(months, es))
  {
    if months != [] {
      var n := |months| - 1;
      TrendNear(months[..n], es);
      assert Trend(months, es)[..n] == Trend(months[..n], es);
      assert UnroundedTrend(months, es)[..n] == UnroundedTrend(months[..n], es);
      Round2Near(MonthTotal(months[n], es));
      if forall e | e in es :: WholeCents(e.amount) { TotalsInCents(months[n], es); }
    }
  }

  /** A payment made in the range, as the revenue query selects it. */
  predicate PaidWithin(e: Entry, from: int, to: int) { e.start == e.end && from <= e.start <= EndOfDay(to) }

  lemma {:induction false} PaymentsCountOnce(from: int, to: int, es: seq<Entry>)
    requires Bucketed(from, to)
    requires forall e | e in es :: PaidWithin(e, from, to)
    ensures WeightedTotal(Months(from, to), es) == Total(es)
  {
    hide Months, Bucketed;
    if es != [] {
      var e := es[|es| - 1];
      assert e in es;
      PaymentsCountOnce(from, to, es[..|es| - 1]);
      EveryInstantHeldOnce(from, to);
      assert HeldOnce(Months(from, to), e.start);
      var i :| HeldOnlyAt(Months(from, to), i, e.start);
      SomeHit(Months(from, to), e, i);
      assert Times(e.amount, 1) == e.amount;
    }
  }

  /** The revenue column adds up to the total revenue: exactly in whole cents, and otherwise within rounding. */
  lemma RevenueAddsUp(from: int, to: int, payments: seq<Entry>)
    requires Bucketed(from, to)
    requires forall e | e in payments :: PaidWithin(e, from, to)
    ensures var d := Sum(Trend(Months(from, to), payments)) - Round2(Total(payments));
            -0.005 * (|Months(from, to)| + 1) as real <= d <= 0.005 * (|Months(from, to)| + 1) as real
    ensures (forall e | e in payments :: WholeCents(e.amount)) ==>
              Sum(Trend(Months(from, to), payments)) == Round2(Total(payments))
  {
    hide Months, Bucketed, Round2, WholeCents, Trend, UnroundedTrend;
    PaymentsCountOnce(from, to, payments);
    TrendCountsHits(Months(from, to), payments);
    TrendNear(Months(from, to), payments);
    Round2Near(Total(payments));
    if forall e | e in payments :: WholeCents(e.amount) { TotalsInCents(Bucket(0, 0), payments); }
  }

  /** A payslip of an approved period that the expenses query selects. */
  predicate PeriodWithin(e: Entry, from: int, to: int) {
    e.start <= e.end && e.start <= to && e.end >= from && e.amount >= 0.0
  }

  lemma {:induction false} AtLeastOnce(amount: real, n: nat)
    requires amount >= 0.0 && n >= 1
    ensures amount <= Times(amount, n)
  {
    if n > 1 { AtLeastOnce(amount, n - 1); }
  }

  lemma {:induction false} PayslipsCountAtLeastOnce(from: int, to: int, es: seq<Entry>)
    requires from <= to && Bucketed(from, to)
    requires forall e | e in es :: PeriodWithin(e, from, to)
    ensures Total(es) <= WeightedTotal(Months(from, to), es)
  {
    hide Months, Bucketed;
    if es != [] {
      var e := es[|es| - 1];
      assert e in es;
      PayslipsCountAtLeastOnce(from, to, es[..|es| - 1]);
      EveryInstantHeldOnce(from, to);
      var x := if e.start < from then from else e.start;
      assert HeldOnce(Months(from, to), x);
      var i :| HeldOnlyAt(Months(from, to), i, x);
      SomeHit(Months(from, to), e, i);
      AtLeastOnce(e.amount, Hits(Months(from, to), e));
    }
  }

  /**
   * A payslip whose period spans months is an expense of each, so the column adds up to at least the
   * total: within rounding for any pay, and with nothing lost in whole cents.
   */
  lemma ExpensesCoverTotal(from: int, to: int, payslips: seq<Entry>)
    requires from <= to && Bucketed(from, to)
    requires forall e | e in payslips :: PeriodWithin(e, from, to)
    ensures Round2(Total(payslips)) - 0.005 * (|Months(from, to)| + 1) as real <= Sum(Trend(Months(from, to), payslips))
    ensures (forall e | e in payslips :: WholeCents(e.amount)) ==>
              && Round2(Total(payslips)) <= Sum(Trend(Months(from, to), payslips))
              && Sum(Trend(Months(from, to), payslips)) == WeightedTotal(Months(from, to), payslips)
  {
    hide Months, Bucketed, Round2, WholeCents, Trend, UnroundedTrend;
    PayslipsCountAtLeastOnce(from, to, payslips);
    TrendCountsHits(Months(from, to), payslips);
    TrendNear(Months(from, to), payslips);
    Round2Near(Total(payslips));
    if forall e | e in payslips :: WholeCents(e.amount) { TotalsInCents(Bucket(0, 0), payslips); }
  }

  // --- The report.

  lemma DayReached(s: int, t: int)
    ensures s <= EndOfDay(t) <==> Day(s) <= Day(t)
  {
  }

  datatype Payslip = Payslip(netPay: real, approved: bool, startDate: int, endDate: int)

  datatype FinancialReport = FinancialReport(
    totalRevenue: real, totalExpenses: real, collectionRatePct: real, outstandingTotal: real,
    revenue: seq<real>, expenses: seq<real>)

  function SelectPayments(payments: seq<Payment>, from: int, to: int): (es: seq<Entry>)
    ensures forall e | e in es :: PaidWithin(e, from, to)
    ensures (forall p | p in payments :: WholeCents(p.amount)) ==> forall e | e in es :: WholeCents(e.amount)
  {
    if payments == [] then []
    else
      var p := payments[|payments| - 1];
      SelectPayments(payments[..|payments| - 1], from, to)
      + if !p.refunded && from <= p.paidAt <= EndOfDay(to) then [Entry(p.amount, p.paidAt, p.paidAt)] else []
  }

  /** The revenue rows are exactly the standing payments of the range, its last day included, once each. */
  lemma {:induction false} PaymentsSelected(payments: seq<Payment>, from: int, to: int)
    ensures Selects(payments, (p: Payment) => !p.refunded && from <= p.paidAt && Day(p.paidAt) <= Day(to),
                    (p: Payment) => Entry(p.amount, p.paidAt, p.paidAt), SelectPayments(payments, from, to))
  {
    hide Selects, Day, PaidWithin, WholeCents;
    var keep := (p: Payment) => !p.refunded && from <= p.paidAt && Day(p.paidAt) <= Day(to);
    var project := (p: Payment) => Entry(p.amount, p.paidAt, p.paidAt);
    if payments == [] {
      SelectsNothing(keep, project);
    } else {
      var n := |payments| - 1;
      PaymentsSelected(payments[..n], from, to);
      DayReached(payments[n].paidAt, to);
      SelectsOneMore(payments[..n], payments[n], keep, project, SelectPayments(payments[..n], from, to));
      assert payments[..n] + [payments[n]] == payments;
    }
  }

  predicate WellFormedPay(p: Payslip) { p.startDate <= p.endDate && p.netPay >= 0.0 }

  function SelectPayslips(payslips: seq<Payslip>, from: int, to: int): (es: seq<Entry>)
    ensures (forall p | p in payslips :: WellFormedPay(p)) ==> forall e | e in es :: PeriodWithin(e, from, to)
    ensures (forall p | p in payslips :: WholeCents(p.netPay)) ==> forall e | e in es :: WholeCents(e.amount)
  {
    if payslips == [] then []
    else
      var p := payslips[|payslips| - 1];
      SelectPayslips(payslips[..|payslips| - 1], from, to)
      + if p.approved && p.startDate <= to && p.endDate >= from then [Entry(p.netPay, p.startDate, p.endDate)] else []
  }

  /** The expense rows are exactly the payslips of approved periods that touch the range, once each. */
  lemma {:induction false} PayslipsSelected(payslips: seq<Payslip>, from: int, to: int)
    ensures Selects(payslips, (p: Payslip) => p.approved && p.startDate <= to && from <= p.endDate,
                    (p: Payslip) => Entry(p.netPay, p.startDate, p.endDate), SelectPayslips(payslips, from, to))
  {
    hide Selects, WellFormedPay, PeriodWithin, WholeCents;
    var keep := (p: Payslip) => p.approved && p.startDate <= to && from <= p.endDate;
    var project := (p: Payslip) => Entry(p.netPay, p.startDate, p.endDate);
    if payslips == [] {
      SelectsNothing(keep, project);
    } else {
      var n := |payslips| - 1;
      PayslipsSelected(payslips[..n], from, to);
      SelectsOneMore(payslips[..n], payslips[n], keep, project, SelectPayslips(payslips[..n], from, to));
      assert payslips[..n] + [payslips[n]] == payslips;
    }
  }

  /** Invoices that fall due in the range and were not cancelled. */
  function SelectInvoices(invoices: seq<Invoice>, from: int, to: int): (r: seq<Invoice>)
    ensures forall i :: i in r <==> i in invoices && i.status != Cancelled && from <= i.dueDate <= to
  {
    if invoices == [] then []
    else
      var last := invoices[|invoices| - 1];
      assert forall i :: i in invoices <==> i in invoices[..|invoices| - 1] || i == last;
      SelectInvoices(invoices[..|invoices| - 1], from, to)
      + if last.status != Cancelled && from <= last.dueDate <= to then [last] else []
  }

  lemma {:induction false} InvoicesSelected(invoices: seq<Invoice>, from: int, to: int)
    ensures Selects(invoices, (i: Invoice) => !i.status.Cancelled? && from <= i.dueDate <= to, (i: Invoice) => i,
                    SelectInvoices(invoices, from, to))
  {
    hide Selects;
    var keep := (i: Invoice) => !i.status.Cancelled? && from <= i.dueDate <= to;
    var project := (i: Invoice) => i;
    if invoices == [] {
      SelectsNothing(keep, project);
    } else {
      var n := |invoices| - 1;
      InvoicesSelected(invoices[..n], from, to);
      SelectsOneMore(invoices[..n], invoices[n], keep, project, SelectInvoices(invoices[..n], from, to));
      assert invoices[..n] + [invoices[n]] == invoices;
    }
  }

  function CollectionRate(billed: real, collected: real): real {
    if billed == 0.0 then 0.0 else Round2(collected / billed * 100.0)
  }

  lemma Scaled(q: real, whole: real)
    requires whole > 0.0
    ensures q < 0.0 ==> q * whole < 0.0
    ensures q > 1.0 ==> q * whole > whole
    ensures q < 1.0 ==> q * whole < whole
  {
    if q > 1.0 { assert (q - 1.0) * whole > 0.0; }
    if q < 1.0 { assert (1.0 - q) * whole > 0.0; }
  }

  lemma ShareOf(part: real, whole: real)
    requires 0.0 <= part <= whole && whole > 0.0
    ensures 0.0 <= part / whole <= 1.0
    ensures part == whole ==> part / whole == 1.0
  {
    assert part / whole * whole == part;
    Scaled(part / whole, whole);
  }

  lemma WithinHalfCent(d: real, whole: real)
    requires -0.005 <= d <= 0.005 && whole > 0.0
    ensures -0.005 * whole <= d * whole <= 0.005 * whole
  {
  }

  /** The rate is the percentage collected, to half a hundredth of a percent. */
  lemma RateIsCollectedOverBilled(billed: real, collected: real)
    ensures billed > 0.0 ==>
              100.0 * collected - 0.005 * billed <= CollectionRate(billed, collected) * billed <= 100.0 * collected + 0.005 * billed
    ensures billed == 0.0 ==> CollectionRate(billed, collected) == 0.0
  {
    hide Round2;
    if billed > 0.0 {
      var q := collected / billed;
      Round2Near(q * 100.0);
      var d := CollectionRate(billed, collected) - q * 100.0;
      assert q * billed == collected;
      WithinHalfCent(d, billed);
      assert CollectionRate(billed, collected) * billed == (q * 100.0 + d) * billed == 100.0 * (q * billed) + d * billed;
    }
  }

  predicate FairlyPaid(invoices: seq<Invoice>) { forall i | i in invoices :: 0.0 <= i.paidAmount <= i.totalAmount }

  lemma {:induction false} BilledIsCollectedOrOwed(invoices: seq<Invoice>)
    requires FairlyPaid(invoices)
    ensures 0.0 <= Outstanding.Collected(invoices) <= Outstanding.Invoiced(invoices)
    ensures Outstanding.Owed(invoices) == Outstanding.Invoiced(invoices) - Outstanding.Collected(invoices)
  {
    if invoices != [] {
      assert invoices[|invoices| - 1] in invoices;
      BilledIsCollectedOrOwed(invoices[..|invoices| - 1]);
    }
  }

  lemma WholeHundreds()
    ensures Round2(0.0) == 0.0 && Round2(100.0) == 100.0
  {
    CentsOf(0.0, 0);
    CentsOf(100.0, 10000);
    Round2Near(0.0);
    Round2Near(100.0);
  }

  /** When no invoice is overpaid, what is billed is collected or outstanding, and the rate is a percentage that is 100 when nothing is owed. */
  lemma RateIsAShare(invoices: seq<Invoice>)
    requires FairlyPaid(invoices)
    ensures var billed, collected := Outstanding.Invoiced(invoices), Outstanding.Collected(invoices);
            && Outstanding.Owed(invoices) == billed - collected
            && 0.0 <= CollectionRate(billed, collected) <= 100.0
            && (Outstanding.Owed(invoices) == 0.0 && billed > 0.0 ==> CollectionRate(billed, collected) == 100.0)
  {
    hide Round2;
    var billed, collected := Outstanding.Invoiced(invoices), Outstanding.Collected(invoices);
    BilledIsCollectedOrOwed(invoices);
    WholeHundreds();
    if billed > 0.0 {
      ShareOf(collected, billed);
      Round2Monotone(0.0, collected / billed * 100.0);
      Round2Monotone(collected / billed * 100.0, 100.0);
    }
  }

  /** The two columns, a month at a time. */
  method BuildMonthlyTrend(from: int, to: int, paid: seq<Entry>, pay: seq<Entry>) returns (revenue: seq<real>, expenses: seq<real>)
    ensures revenue == Trend(Months(from, to), paid) && expenses == Trend(Months(from, to), pay)
  {
    hide Round2, Months, MonthTotal;
    var months := EnumerateMonths(from, to);
    revenue, expenses := [], [];
    for i := 0 to |months|
      invariant revenue == Trend(months, paid)[..i] && expenses == Trend(months, pay)[..i]
    {
      revenue := revenue + [Round2(MonthTotal(months[i], paid))];
      expenses := expenses + [Round2(MonthTotal(months[i], pay))];
    }
  }

  /** The report's monthly columns agree with its totals, and its rate with its outstanding amount. */
  method GetFinancialReport(from: int, to: int, payments: seq<Payment>, invoices: seq<Invoice>, payslips: seq<Payslip>)
    returns (report: FinancialReport)
    ensures report.revenue == Trend(Months(from, to), SelectPayments(payments, from, to))
    ensures report.expenses == Trend(Months(from, to), SelectPayslips(payslips, from, to))
    ensures report.totalRevenue == Round2(Total(SelectPayments(payments, from, to)))
    ensures report.totalExpenses == Round2(Total(SelectPayslips(payslips, from, to)))
    ensures report.outstandingTotal == Round2(Outstanding.Owed(SelectInvoices(invoices, from, to)))
    ensures var due := SelectInvoices(invoices, from, to);
            FairlyPaid(due) ==>
              && report.outstandingTotal == Round2(Outstanding.Invoiced(due) - Outstanding.Collected(due))
              && 0.0 <= report.collectionRatePct <= 100.0
              && (Outstanding.Invoiced(due) > 0.0 && Outstanding.Owed(due) == 0.0 ==> report.collectionRatePct == 100.0)
    ensures Bucketed(from, to) ==>
              -0.005 * (|Months(from, to)| + 1) as real <= Sum(report.revenue) - report.totalRevenue
              <= 0.005 * (|Months(from, to)| + 1) as real
    ensures Bucketed(from, to) && (forall p | p in payments :: WholeCents(p.amount)) ==>
              Sum(report.revenue) == report.totalRevenue
    ensures from <= to && Bucketed(from, to) && (forall p | p in payslips :: WellFormedPay(p)) ==>
              && report.totalExpenses - 0.005 * (|Months(from, to)| + 1) as real <= Sum(report.expenses)
              && ((forall p | p in payslips :: WholeCents(p.netPay)) ==> report.totalExpenses <= Sum(report.expenses))
  {
    hide Bucketed, WholeCents, Round2, Months, Trend, Sum, Total, FairlyPaid, CollectionRate, SelectPayments, SelectPayslips, SelectInvoices, PaidWithin;
    var paid := SelectPayments(payments, from, to);
    var pay := SelectPayslips(payslips, from, to);
    var due := SelectInvoices(invoices, from, to);
    var billedTotal := Outstanding.Invoiced(due);
    var collectedOfBilled := Outstanding.Collected(due);
    var revenue, expenses := BuildMonthlyTrend(from, to, paid, pay);
    report := FinancialReport(Round2(Total(paid)), Round2(Total(pay)), CollectionRate(billedTotal, collectedOfBilled),
                              Round2(Outstanding.Owed(due)), revenue, expenses);
    if FairlyPaid(due) { RateIsAShare(due); }
    if Bucketed(from, to) {
      RevenueAddsUp(from, to, paid);
      if from <= to && (forall p | p in payslips :: WellFormedPay(p)) { ExpensesCoverTotal(from, to, pay); }
    }
  }
}
