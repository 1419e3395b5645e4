/**
 * .NET `DateTime` as a tick count (100 ns units since 0001-01-01 00:00),
 * the `Date`, `DayOfWeek` and `AddDays` members the application uses, the
 * Monday-based week start it computes, and the ISO 8601 week date
 * (`ISOWeek.GetYear`, `GetWeekOfYear`, `ToDateTime`).
 *
 * Day numbers count whole days since 0001-01-01, which was a Monday.
 */
module Calendar {
  import opened Wrappers

  const TicksPerHour: int := 36_000_000_000
  const TicksPerDay: int := 864_000_000_000
  /** `DateTime.MaxValue.Ticks`: 9999-12-31 23:59:59.9999999. */
  const MaxTicks: int := 3_155_378_975_999_999_999
  /** The day number of 9999-12-31. */
  const MaxDay: int := 3_652_058

  type DateTime = t: int | 0 <= t <= MaxTicks

  /** The day number of an instant. */
  function Day(t: DateTime): (d: int)
    ensures 0 <= d <= MaxDay
    ensures d * TicksPerDay <= t < (d + 1) * TicksPerDay
  {
    t / TicksPerDay
  }

  /** `DateTime` at midnight of day `d`. */
  function Midnight(d: int): (t: DateTime)
    requires 0 <= d <= MaxDay
    ensures Day(t) == d
  {
    d * TicksPerDay
  }

  /** `t.Date`: the same day at midnight. */
  function DateOf(t: DateTime): (r: DateTime)
    ensures Day(r) == Day(t) && r <= t && t - r < TicksPerDay
  {
    Midnight(Day(t))
  }

  /** `DayOfWeek` as the integer .NET uses: Sunday = 0, Monday = 1, ... Saturday = 6. */
  function DayOfWeek(d: int): (w: int)
    ensures 0 <= w < 7
  {
    (d + 1) % 7
  }

  const Monday: int := 1

  // ---------------------------------------------------------------------
  // Start of the week

  /** `(7 + (date.DayOfWeek - DayOfWeek.Monday)) % 7`: days since the last Monday. */
  function DaysSinceMonday(d: int): (diff: int)
    ensures 0 <= diff < 7
  {
    (7 + (DayOfWeek(d) - Monday)) % 7
  }

  /** `date.Date.AddDays(-diff)`, as a day number; it never leaves the
      representable range, since `diff` is at most the day number. */
  function WeekStartDay(d: int): int {
    d - DaysSinceMonday(d)
  }

  lemma DaysSinceMondayIsMod7(d: int)
    ensures DaysSinceMonday(d) == d % 7
  {
    var q := (d + 1) / 7;
    assert d + 1 == 7 * q + DayOfWeek(d);
    assert 7 + DayOfWeek(d) - 1 == d + 7 * (1 - q);
  }

  /** The week start is the Monday on or before the date and at most six
      days before it, and it is the only Monday in that range. */
  lemma WeekStartIsLastMonday(d: int, m: int)
    ensures DayOfWeek(WeekStartDay(d)) == Monday
    ensures WeekStartDay(d) <= d < WeekStartDay(d) + 7
    ensures DayOfWeek(m) == Monday && m <= d < m + 7 ==> m == WeekStartDay(d)
  {
    DaysSinceMondayIsMod7(d);
    var w := WeekStartDay(d);
    assert w == 7 * (d / 7);
    assert (w + 1) % 7 == 1;
    if DayOfWeek(m) == Monday && m <= d < m + 7 {
      DaysSinceMondayIsMod7(m);
      assert m % 7 == 0 by {
        assert DaysSinceMonday(m) == 0;
      }
    }
  }

  /** Taking the week start twice changes nothing. */
  lemma WeekStartIdempotent(d: int)
    ensures WeekStartDay(WeekStartDay(d)) == WeekStartDay(d)
  {
    WeekStartIsLastMonday(d, 0);
    WeekStartIsLastMonday(WeekStartDay(d), WeekStartDay(d));
  }

  /** The week start of a `DateTime` (the `GetWeekStart` helpers): midnight
      of the Monday of its week. */
  function WeekStart(t: DateTime): (r: DateTime)
    ensures DayOfWeek(Day(r)) == Monday
    ensures r <= t && Day(t) - Day(r) < 7
  {
    var w := WeekStartDay(Day(t));
    WeekStartIsLastMonday(Day(t), 0);
    Midnight(w)
  }

  // ---------------------------------------------------------------------
  // ISO 8601 week date

  /** Days from 0001-01-01 to January 1 of year `y` (proleptic Gregorian). */
  function DaysBeforeYear(y: int): int
    requires y >= 1
  {
    var p := y - 1;
    365 * p + p / 4 - p / 100 + p / 400
  }

  /** The Monday of ISO week 1 of year `y`: the Monday on or before January 4. */
  function Week1Monday(y: int): int
    requires y >= 1
  {
    WeekStartDay(DaysBeforeYear(y) + 3)
  }

  lemma DaysInYear(y: int)
    requires y >= 1
    ensures 365 <= DaysBeforeYear(y + 1) - DaysBeforeYear(y) <= 366
  {
    var p := y - 1;
    var a4, b4, a100, b100, a400, b400 := p / 4, (p + 1) / 4, p / 100, (p + 1) / 100, p / 400, (p + 1) / 400;
    assert DaysBeforeYear(y + 1) - DaysBeforeYear(y) == 365 + (b4 - a4) - (b100 - a100) + (b400 - a400);
    FloorStep(p, 4);
    FloorStep(p, 100);
    FloorStep(p, 400);
    MultipleOfDivisor(p + 1, 100, 4, b100);
    MultipleOfDivisor(p + 1, 400, 100, b400);
    YearLength(b4 - a4, b100 - a100, b400 - a400);
  }

  /** A year has 365 days plus one for a multiple of 4, less one for a
      multiple of 100, plus one for a multiple of 400. */
  lemma YearLength(four: int, hundred: int, fourHundred: int)
    requires 0 <= four <= 1 && 0 <= hundred <= 1 && 0 <= fourHundred <= 1
    requires hundred == 1 ==> four == 1
    requires fourHundred == 1 ==> hundred == 1
    ensures 365 <= 365 + four - hundred + fourHundred <= 366
  {
  }

  /** If `x` is `m·q` and `m` is `k` times `n`, then `x / n` is `k·q`, so a
      multiple of `m` is one of `n`. */
  lemma MultipleOfDivisor(x: int, m: int, n: int, q: int)
    requires n > 0 && m % n == 0 && m > 0 && q == x / m
    ensures x == m * q ==> x == n * (x / n)
  {
    if x == m * q {
      var k := m / n;
      assert m == n * k;
      assert x == n * (k * q);
      DivUnique(x, n, k * q, 0);
    }
  }

  /** Counting multiples of `d` up to `p + 1` adds at most one to the count
      up to `p`, exactly when `p + 1` is one. */
  lemma FloorStep(p: int, d: int)
    requires d > 0
    ensures (p + 1) / d == p / d || ((p + 1) / d == p / d + 1 && p + 1 == d * ((p + 1) / d))
  {
    var a, b := p / d, (p + 1) / d;
    var ra, rb := p % d, (p + 1) % d;
    assert p == d * a + ra && 0 <= ra < d;
    assert p + 1 == d * b + rb && 0 <= rb < d;
    if ra < d - 1 {
      DivUnique(p + 1, d, a, ra + 1);
    } else {
      DivUnique(p + 1, d, a + 1, 0);
    }
  }

  lemma DivUnique(x: int, d: int, q: int, r: int)
    requires d > 0 && 0 <= r < d && x == d * q + r
    ensures x / d == q
  {
    var q', r' := x / d, x % d;
    var k, k' := q - q', q' - q;
    assert d * k == d * q - d * q' == r' - r;
    assert d * k' == d * q' - d * q == r - r';
    if k >= 1 {
      MulAtLeast(d, k);
    } else if k' >= 1 {
      MulAtLeast(d, k');
    }
  }

  lemma {:induction false} MulAtLeast(d: int, k: int)
    requires d > 0 && k >= 1
    ensures d * k >= d
    decreases k
  {
    if k > 1 {
      MulAtLeast(d, k - 1);
      assert d * k == d * (k - 1) + d;
    }
  }

  /** Rounding two day numbers 365 or 366 days apart down to a multiple of
      seven leaves them 364 or 371 days apart. */
  lemma FloorWeekStep(a: int, b: int)
    requires 365 <= b - a <= 366
    ensures (b - b % 7) - (a - a % 7) == 364 || (b - b % 7) - (a - a % 7) == 371
    ensures (a - a % 7) % 7 == 0
  {
    var qa, qb := a / 7, b / 7;
    assert a - a % 7 == 7 * qa;
    assert b - b % 7 == 7 * qb;
    assert 52 <= qb - qa <= 53;
  }

  lemma Week1MondayIsFloor(y: int)
    requires y >= 1
    ensures Week1Monday(y) == (DaysBeforeYear(y) + 3) - (DaysBeforeYear(y) + 3) % 7
  {
    DaysSinceMondayIsMod7(DaysBeforeYear(y) + 3);
  }

  /** Consecutive ISO years start 364 or 371 days apart (52 or 53 weeks). */
  lemma Week1MondayStep(y: int)
    requires y >= 1
    ensures Week1Monday(y + 1) - Week1Monday(y) == 364
         || Week1Monday(y + 1) - Week1Monday(y) == 371
    ensures Week1Monday(y) % 7 == 0
  {
    DaysInYear(y);
    Week1MondayIsFloor(y);
    Week1MondayIsFloor(y + 1);
    FloorWeekStep(DaysBeforeYear(y) + 3, DaysBeforeYear(y + 1) + 3);
  }

  lemma Week1MondayGrows(y: int)
    requires y >= 1
    ensures Week1Monday(y) < Week1Monday(y + 1)
  {
    Week1MondayStep(y);
  }

  lemma {:induction false} Week1MondayMonotone(y: int, z: int)
    requires 1 <= y <= z
    ensures Week1Monday(y) + 364 * (z - y) <= Week1Monday(z)
    decreases z - y
  {
    if y < z {
      Week1MondayMonotone(y, z - 1);
      Week1MondayStep(z - 1);
    }
  }

  /** ISO year 1 starts on day 0; ISO year 10000 would start after `DateTime.MaxValue`. */
  lemma Week1MondayBounds()
    ensures Week1Monday(1) == 0
    ensures Week1Monday(10000) == 3_652_061
  {
    Week1MondayOfOne();
    Week1MondayOf10000();
  }

  lemma Week1MondayOfOne()
    ensures Week1Monday(1) == 0
  {
    assert DaysBeforeYear(1) == 0;
    assert DayOfWeek(3) == 4;
  }

  lemma Week1MondayOf10000()
    ensures Week1Monday(10000) == 3_652_061
  {
    assert DaysBeforeYear(10000) == 3_652_059 by {
      assert 9999 / 4 == 2499 && 9999 / 100 == 99 && 9999 / 400 == 24;
    }
    DivUnique(3_652_063, 7, 521_723, 2);
    assert DayOfWeek(3_652_062) == 2;
  }

  /** The ISO year containing day `d`, searched upward from year `y`. */
  function IsoYearFrom(d: int, y: int): (r: int)
    requires y >= 1 && Week1Monday(y) <= d
    ensures r >= y && Week1Monday(r) <= d < Week1Monday(r + 1)
    decreases d - Week1Monday(y)
  {
    Week1MondayGrows(y);
    if d < Week1Monday(y + 1) then y else IsoYearFrom(d, y + 1)
  }

  /** `ISOWeek.GetYear`: the ISO week-numbering year of day `d`. */
  function IsoYear(d: int): (y: int)
    requires 0 <= d <= MaxDay
    ensures 1 <= y <= 9999
    ensures Week1Monday(y) <= d < Week1Monday(y + 1)
  {
    Week1MondayBounds();
    var y := IsoYearFrom(d, 1);
    assert y <= 9999 by {
      if y >= 10000 {
        Week1MondayMonotone(10000, y);
      }
    }
    y
  }

  /** `ISOWeek.GetWeeksInYear`. */
  function WeeksInYear(y: int): (n: int)
    requires y >= 1
    ensures n == 52 || n == 53
  {
    Week1MondayStep(y);
    (Week1Monday(y + 1) - Week1Monday(y)) / 7
  }

  /** `ISOWeek.GetWeekOfYear`: the ISO week number of day `d`. */
  function IsoWeek(d: int): (w: int)
    requires 0 <= d <= MaxDay
    ensures 1 <= w <= WeeksInYear(IsoYear(d))
  {
    var y := IsoYear(d);
    Week1MondayStep(y);
    (d - Week1Monday(y)) / 7 + 1
  }

  /** `ISOWeek.ToDateTime(year, week, DayOfWeek.Monday)`: `None` where it
      throws, that is for a year outside 1..9999, a week outside 1..53, or a
      result past `DateTime.MaxValue`. */
  function IsoWeekMonday(year: int, week: int): (r: Option<DateTime>)
    ensures r.Some? <==>
      1 <= year <= 9999 && 1 <= week <= 53 && Week1Monday(year) + 7 * (week - 1) <= MaxDay
    ensures r.Some? ==> Day(r.value) == Week1Monday(year) + 7 * (week - 1)
    ensures r.Some? ==> r.value == DateOf(r.value)
  {
    if 1 <= year <= 9999 && 1 <= week <= 53 then
      var d := Week1Monday(year) + 7 * (week - 1);
      assert d >= 0 by {
        Week1MondayMonotone(1, year);
        Week1MondayBounds();
      }
      if d <= MaxDay then Some(Midnight(d)) else None
    else None
  }

  /** The Monday of the ISO week of a date is the Monday its week starts
      on: ISO weeks are the application's Monday-based weeks. */
  lemma IsoWeekMondayOfDate(t: DateTime)
    ensures IsoWeekMonday(IsoYear(Day(t)), IsoWeek(Day(t))) == Some(WeekStart(t))
  {
    var d := Day(t);
    IsoWeekStartDay(d);
    assert WeekStart(t) == Midnight(WeekStartDay(d));
  }

  /** Week `w` of ISO year `y` starts `7·(w - 1)` days after week 1 starts;
      for the week holding day `d` that is the Monday on or before `d`. */
  lemma IsoWeekStartDay(d: int)
    requires 0 <= d <= MaxDay
    ensures Week1Monday(IsoYear(d)) + 7 * (IsoWeek(d) - 1) == WeekStartDay(d)
  {
    var y := IsoYear(d);
    Week1MondayStep(y);
    FloorOffset(d, Week1Monday(y));
    DaysSinceMondayIsMod7(d);
  }

  lemma FloorOffset(d: int, w: int)
    requires w % 7 == 0 && w <= d
    ensures w + 7 * ((d - w) / 7) == d - d % 7
  {
    var m := w / 7;
    var q := (d - w) / 7;
    var r := (d - w) % 7;
    assert d == 7 * (m + q) + r;
    assert d / 7 == m + q;
  }
}
