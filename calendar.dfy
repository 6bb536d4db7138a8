/** Calendar dates and the weekday key the server looks up in a doctor's
    weekly template. The source formats the date with
    toLocaleDateString('en-US', { weekday: 'long' }) and lowercases it; the
    model computes the weekday from the date's own fields instead. */
module Calendar {
  import opened Common

  datatype Date = Date(year: int, month: int, day: int)

  predicate IsLeapYear(y: int)
  {
    y % 4 == 0 && (y % 100 != 0 || y % 400 == 0)
  }

  function DaysInMonth(y: int, m: int): (n: int)
    requires 1 <= m <= 12
    ensures 28 <= n <= 31
  {
    if m == 2 then (if IsLeapYear(y) then 29 else 28)
    else if m == 4 || m == 6 || m == 9 || m == 11 then 30
    else 31
  }

  predicate ValidDate(d: Date)
  {
    1 <= d.year && 1 <= d.month <= 12 && 1 <= d.day <= DaysInMonth(d.year, d.month)
  }

  /** Day offsets of the months in Sakamoto's day-of-week method. */
  const MonthOffsets: seq<int> := [0, 3, 2, 5, 0, 3, 5, 1, 4, 6, 2, 4]

  /** Days from 1 March of year 0 up to the March of year y, modulo 7. */
  function YearShift(y: nat): int
  {
    y + y / 4 - y / 100 + y / 400
  }

  /** Day of the week of a Gregorian date: 0 is Sunday, 6 is Saturday. */
  function DayOfWeek(d: Date): (w: nat)
    requires ValidDate(d)
    ensures w < 7
  {
    WeekdaySum(d) % 7
  }

  const WeekdayNames: seq<string> :=
    ["sunday", "monday", "tuesday", "wednesday", "thursday", "friday", "saturday"]

  /** The calendar day the date constructor reads from a "YYYY-MM-DD" text.
      A month outside 1..12 or a day outside 1..31 gives an invalid date; a
      day from 29 to 31 past its month's end rolls over into the next month. */
  function ReadDate(d: Date): (r: Option<Date>)
    ensures r.Some? <==> 1 <= d.year && 1 <= d.month <= 12 && 1 <= d.day <= 31
    ensures r.Some? ==> ValidDate(r.value)
    ensures ValidDate(d) ==> r == Some(d)
  {
    if !(1 <= d.year && 1 <= d.month <= 12 && 1 <= d.day <= 31) then None
    else if d.day <= DaysInMonth(d.year, d.month) then Some(d)
    else Some(Date(d.year, d.month + 1, d.day - DaysInMonth(d.year, d.month)))
  }

  /** The key the server uses for a date: the weekday name of the day read,
      or "invalid date" (the lower-cased "Invalid Date") when none is. */
  function WeekdayKey(d: Date): (k: string)
    ensures ValidDate(d) ==> k == WeekdayNames[DayOfWeek(d)]
    ensures ReadDate(d).Some? ==> k in WeekdayNames
    ensures k == "invalid date" <==> ReadDate(d).None?
  {
    match ReadDate(d)
    case Some(n) => WeekdayNames[DayOfWeek(n)]
    case None => "invalid date"
  }

  /** In a month shorter than 31 days, the day written one past its last day
      names the same weekday as the first of the next month. */
  lemma RollsIntoNextMonth(d: Date)
    requires ValidDate(d) && d.day == DaysInMonth(d.year, d.month) && d.day < 31
    ensures WeekdayKey(Date(d.year, d.month, d.day + 1)) == WeekdayKey(NextDay(d))
  {
    assert d.month != 12;
  }

  /** The calendar day after d. */
  function NextDay(d: Date): (n: Date)
    requires ValidDate(d)
    ensures ValidDate(n)
  {
    if d.day < DaysInMonth(d.year, d.month) then Date(d.year, d.month, d.day + 1)
    else if d.month < 12 then Date(d.year, d.month + 1, 1)
    else Date(d.year + 1, 1, 1)
  }

  /** Stepping y - 1 to y crosses one more multiple of k exactly when k divides y. */
  lemma MultiplesStep(y: nat, k: nat)
    requires y >= 1 && (k == 4 || k == 100 || k == 400)
    ensures y / k - (y - 1) / k == if y % k == 0 then 1 else 0
  {
    var q, r := (y - 1) / k, (y - 1) % k;
    assert y - 1 == k * q + r && 0 <= r < k;
    if r == k - 1 {
      assert y == k * (q + 1) + 0;
    } else {
      assert y == k * q + (r + 1);
    }
  }

  lemma YearShiftStep(y: nat)
    requires y >= 1
    ensures YearShift(y) == YearShift(y - 1) + 1 + (if IsLeapYear(y) then 1 else 0)
  {
    MultiplesStep(y, 4);
    MultiplesStep(y, 100);
    MultiplesStep(y, 400);
    if y % 400 == 0 {
      assert y % 100 == 0 && y % 4 == 0 by {
        assert y == 400 * (y / 400);
        assert y == 100 * (4 * (y / 400)) && y == 4 * (100 * (y / 400));
      }
    } else if y % 100 == 0 {
      assert y % 4 == 0 by {
        assert y == 100 * (y / 100);
        assert y == 4 * (25 * (y / 100));
      }
    }
  }

  /** Two day counts one day apart, up to whole weeks, are one weekday apart. */
  lemma ModSevenShift(x: int, y: int)
    requires y - x - 1 in {0, -28, -35}
    ensures y % 7 == (x % 7 + 1) % 7
  {
    var k := y - x - 1;
    assert k % 7 == 0;
    assert y == 7 * (x / 7 + k / 7) + (x % 7 + 1);
  }

  /** Within a year's March-based count, a month's offset is the previous
      month's offset plus the previous month's length, modulo 7. */
  lemma MonthOffsetStep(y: int, m: int)
    requires 1 <= m < 12 && m != 2
    ensures MonthOffsets[m] - MonthOffsets[m - 1] - DaysInMonth(y, m) in {-28, -35}
  {
  }

  /** The quantity DayOfWeek reduces modulo 7. */
  function WeekdaySum(d: Date): int
    requires ValidDate(d)
  {
    YearShift(if d.month < 3 then d.year - 1 else d.year) + MonthOffsets[d.month - 1] + d.day
  }

  lemma NextDaySum(d: Date)
    requires ValidDate(d)
    ensures WeekdaySum(NextDay(d)) - WeekdaySum(d) - 1 in {0, -28, -35}
  {
    if d.day < DaysInMonth(d.year, d.month) {
    } else if d.month == 2 {
      YearShiftStep(d.year);
    } else if d.month < 12 {
      MonthOffsetStep(d.year, d.month);
    }
  }

  /** The weekday advances by exactly one from each day to the next, across
      month and year ends and leap days: the day-of-week function is a true
      calendar, not only correct on sample dates. */
  lemma NextDayWeekday(d: Date)
    requires ValidDate(d)
    ensures DayOfWeek(NextDay(d)) == (DayOfWeek(d) + 1) % 7
  {
    NextDaySum(d);
    ModSevenShift(WeekdaySum(d), WeekdaySum(NextDay(d)));
  }

  /** 10 June 2024 is a Monday. */
  lemma KnownMonday()
    ensures WeekdayKey(Date(2024, 6, 10)) == "monday"
  {
  }
}
