/**
 Days are ordinals of the proleptic Gregorian calendar: day 1 is Monday, 1 January of year 1,
 the numbering of Python's date.toordinal. Months are counted from 0, so month k is month
 k % 12 + 1 of year k / 12 + 1.
 */
module Calendar {
  type Day = d: int | 1 <= d witness 1

  datatype Cycle = Weekly | Monthly

  datatype Window = Window(start: Day, end: Day) {
    predicate Contains(d: Day) {
      start <= d <= end
    }
  }

  predicate IsLeap(year: nat) {
    year % 4 == 0 && (year % 100 != 0 || year % 400 == 0)
  }

  function DaysIn(year: nat, month: nat): (n: nat)
    ensures 28 <= n <= 31
  {
    if month == 2 then (if IsLeap(year) then 29 else 28)
    else if month in {4, 6, 9, 11} then 30
    else 31
  }

  function MonthDays(k: nat): (n: nat)
    ensures 28 <= n <= 31
  {
    DaysIn(k / 12 + 1, k % 12 + 1)
  }

  /** The ordinal of the first day of month k. */
  function MonthStart(k: nat): Day {
    if k == 0 then 1 else MonthStart(k - 1) + MonthDays(k - 1)
  }

  /** The month a day lies in, searched upwards from month k. */
  function MonthFrom(k: nat, d: Day): (r: nat)
    requires MonthStart(k) <= d
    ensures MonthStart(r) <= d < MonthStart(r + 1)
    decreases d - MonthStart(k)
  {
    if d < MonthStart(k + 1) then k else MonthFrom(k + 1, d)
  }

  function MonthOf(d: Day): (r: nat)
    ensures MonthStart(r) <= d < MonthStart(r + 1)
  {
    MonthFrom(0, d)
  }

  /** date.replace(day=1) */
  function FirstOfMonth(d: Day): Day {
    MonthStart(MonthOf(d))
  }

  /** date.weekday(): Monday is 0. */
  function Weekday(d: Day): nat {
    (d - 1) % 7
  }

  /** The billing window containing `day`, both ends inclusive. */
  function WindowAfter(cycle: Cycle, day: Day): Window {
    match cycle
    case Weekly =>
      var start := day - Weekday(day);
      Window(start, start + 6)
    case Monthly =>
      var start := FirstOfMonth(day);
      ThirtyTwoDaysOn(day);
      var nextMonth := FirstOfMonth(start + 32);
      Window(start, nextMonth - 1)
  }

  lemma {:induction false} MonthStartMonotone(i: nat, j: nat)
    requires i <= j
    ensures MonthStart(i) + 28 * (j - i) <= MonthStart(j)
    decreases j
  {
    if i < j {
      MonthStartMonotone(i, j - 1);
    }
  }

  /** A day lies in one month only. */
  lemma MonthOfUnique(d: Day, k: nat)
    requires MonthStart(k) <= d < MonthStart(k + 1)
    ensures MonthOf(d) == k
  {
    var r := MonthOf(d);
    if r < k {
      MonthStartMonotone(r + 1, k);
    } else if k < r {
      MonthStartMonotone(k + 1, r);
    }
  }

  /** 32 days after the first of any month is in the next month. */
  lemma ThirtyTwoDaysOn(day: Day)
    ensures var start := FirstOfMonth(day);
            FirstOfMonth(start + 32) == MonthStart(MonthOf(day) + 1) > start
  {
    MonthOfUnique(FirstOfMonth(day) + 32, MonthOf(day) + 1);
  }

  /**
   The month window runs from the first to the true last day of the day's own month, in
   every year, leap years and year ends included.
   */
  lemma MonthlyWindowIsWholeMonth(day: Day)
    ensures var w := WindowAfter(Monthly, day); var k := MonthOf(day);
            && w.start == MonthStart(k) && w.end == MonthStart(k) + MonthDays(k) - 1
            && w.end + 1 == MonthStart(k + 1)
  {
    ThirtyTwoDaysOn(day);
  }

  /** Every day is in its own window, and every day of a window has that same window. */
  lemma WindowOfMember(cycle: Cycle, day: Day, other: Day)
    ensures WindowAfter(cycle, day).Contains(day)
    ensures WindowAfter(cycle, day).Contains(other) ==> WindowAfter(cycle, other) == WindowAfter(cycle, day)
  {
    if cycle == Monthly {
      MonthlyWindowIsWholeMonth(day);
      MonthlyWindowIsWholeMonth(other);
      if WindowAfter(cycle, day).Contains(other) {
        MonthOfUnique(other, MonthOf(day));
      }
    }
  }

  /** Two windows of one cycle are the same or share no day. */
  lemma WindowsPartition(cycle: Cycle, a: Day, b: Day, d: Day)
    requires WindowAfter(cycle, a).Contains(d) && WindowAfter(cycle, b).Contains(d)
    ensures WindowAfter(cycle, a) == WindowAfter(cycle, b)
  {
    WindowOfMember(cycle, a, d);
    WindowOfMember(cycle, b, d);
  }

  /** The day after a window starts the next one: windows leave no gap. */
  lemma NextWindowStarts(cycle: Cycle, day: Day)
    ensures var w := WindowAfter(cycle, day); WindowAfter(cycle, w.end + 1).start == w.end + 1 > day
  {
    if cycle == Monthly {
      MonthlyWindowIsWholeMonth(day);
      MonthOfUnique(MonthStart(MonthOf(day) + 1), MonthOf(day) + 1);
    }
  }

  /** Days in the first n years of the Gregorian calendar. */
  function GregorianDays(n: nat): int {
    365 * n + n / 4 - n / 100 + n / 400
  }

  /** The month starts agree with the closed-form day count of the Gregorian calendar. */
  lemma {:induction false} GregorianYearStart(n: nat)
    ensures MonthStart(12 * n) == 1 + GregorianDays(n)
  {
    if n == 0 {
      assert MonthStart(0) == 1;
    } else {
      hide *;
      GregorianYearStart(n - 1);
      YearLength(n);
      YearCounted(n);
    }
  }

  lemma YearCounted(n: nat)
    requires n > 0
    ensures GregorianDays(n) == GregorianDays(n - 1) + if IsLeap(n) then 366 else 365
  {
    hide IsLeap;
    LeapCount(n);
  }

  lemma YearLength(n: nat)
    requires n > 0
    ensures MonthStart(12 * n) == MonthStart(12 * (n - 1)) + (if IsLeap(n) then 366 else 365)
  {
    hide MonthStart, IsLeap;
    Quarter(n - 1, 0);
    Quarter(n - 1, 3);
    Quarter(n - 1, 6);
    Quarter(n - 1, 9);
    assert 12 * (n - 1) + 12 == 12 * n;
  }

  lemma Quarter(n: nat, m: nat)
    requires m <= 9
    ensures var k := 12 * n + m;
            MonthStart(k + 3) == MonthStart(k) + DaysIn(n + 1, m + 1) + DaysIn(n + 1, m + 2) + DaysIn(n + 1, m + 3)
  {
    hide IsLeap, DaysIn, MonthDays, MonthStart;
    var k := 12 * n + m;
    MonthAt(n, m);
    MonthAt(n, m + 1);
    MonthAt(n, m + 2);
    NextMonthStart(k);
    NextMonthStart(k + 1);
    NextMonthStart(k + 2);
  }

  lemma NextMonthStart(k: nat)
    ensures MonthStart(k + 1) == MonthStart(k) + MonthDays(k)
  {
    hide MonthDays;
  }

  lemma MonthAt(n: nat, m: nat)
    requires m < 12
    ensures MonthDays(12 * n + m) == DaysIn(n + 1, m + 1)
  {
    hide DaysIn;
    assert (12 * n + m) / 12 == n;
  }

  lemma LeapCount(n: nat)
    requires n > 0
    ensures n / 4 - n / 100 + n / 400
         == (n - 1) / 4 - (n - 1) / 100 + (n - 1) / 400 + (if IsLeap(n) then 1 else 0)
  {
    assert n / 4 == (n - 1) / 4 + if n % 4 == 0 then 1 else 0;
    assert n / 100 == (n - 1) / 100 + if n % 100 == 0 then 1 else 0;
    assert n / 400 == (n - 1) / 400 + if n % 400 == 0 then 1 else 0;
    assert n % 400 == 0 ==> n % 100 == 0;
    assert n % 100 == 0 ==> n % 4 == 0;
  }

  /** The 7th of July 2026 is a Tuesday, in the week of the 6th to the 12th. */
  lemma AWeekOfJuly2026()
    ensures var first := MonthStart(12 * 2025 + 6);
            Weekday(first + 6) == 1 && WindowAfter(Weekly, first + 6) == Window(first + 5, first + 11)
  {
    hide MonthStart;
    GregorianYearStart(2025);
    Quarter(2025, 0);
    Quarter(2025, 3);
  }
}
