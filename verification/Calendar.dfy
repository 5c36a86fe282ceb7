/** Civil dates and the day they are, for the due dates of a schedule (addMonths of credit.go). */
module Calendar {
  datatype Date = Date(year: nat, month: nat, day: nat) {
    predicate Valid() {
      && 1 <= month <= 12
      && 1 <= day <= DaysIn(MonthIndex())
    }

    /** Months counted from January of year zero. */
    function MonthIndex(): nat
      requires month >= 1
    {
      year * 12 + month - 1
    }

    /** The day number, so that dates are compared and subtracted. */
    function Number(): nat
      requires Valid()
    {
      FirstDay(MonthIndex()) + day - 1
    }
  }

  predicate Leap(year: nat) {
    year % 4 == 0 && (year % 100 != 0 || year % 400 == 0)
  }

  function DaysIn(month: nat): (r: nat)
    ensures 28 <= r <= 31
  {
    MonthLength(month / 12, month % 12)
  }

  function MonthLength(year: nat, m: nat): (r: nat)
    ensures 28 <= r <= 31
  {
    if m == 1 then (if Leap(year) then 29 else 28)
    else if m == 3 || m == 5 || m == 8 || m == 10 then 30
    else 31
  }

  /** The day number of the first of a month: the days of the months before it, from year zero. */
  function FirstDay(month: nat): nat {
    if month == 0 then 0 else FirstDay(month - 1) + DaysIn(month - 1)
  }

  lemma {:induction false} LaterMonthsStartLater(m: nat, n: nat)
    requires m <= n
    ensures FirstDay(n) >= FirstDay(m) + 28 * (n - m)
    decreases n - m
  {
    if m < n {
      LaterMonthsStartLater(m, n - 1);
    }
  }

  /** Two dates are the same day exactly when they are written the same, and a later one has a
      larger number. */
  lemma NumbersFollowDates(a: Date, b: Date)
    requires a.Valid() && b.Valid()
    ensures a.Number() < b.Number() <==>
            a.MonthIndex() < b.MonthIndex() || (a.MonthIndex() == b.MonthIndex() && a.day < b.day)
    ensures a.Number() == b.Number() <==> a == b
  {
    var m, n := a.MonthIndex(), b.MonthIndex();
    if m < n {
      LaterMonthsStartLater(m + 1, n);
    } else if n < m {
      LaterMonthsStartLater(n + 1, m);
    } else {
      assert a.year == b.year && a.month == b.month;
    }
  }

  // ---------------------------------------------------------------- the Gregorian calendar

  /** The leap days of the years up to y: one every four years, but in one of four centuries only. */
  function LeapDays(y: int): int {
    y / 4 - y / 100 + y / 400
  }

  /** The days before the m-th month of year y, where years begin in March: the leap day is their last,
      and the lengths of the months before it repeat every five. */
  function DaysBefore(y: int, m: nat): int {
    365 * y + LeapDays(y) + (153 * m + 2) / 5
  }

  /** A month, as the year it is in and its place there, years beginning in March. */
  predicate IsMonth(month: nat, y: int, m: nat) {
    month + 10 == 12 * (y + 1) + m && m < 12
  }

  /** The first of a month is the day of that number. */
  predicate Starts(month: nat, y: int, m: nat) {
    FirstDay(month) == DaysBefore(y, m) + 60
  }

  /** The days of the months add up to the Gregorian calendar, from the first of January of year zero. */
  lemma {:induction false} DaysAddUp(month: nat, y: int, m: nat)
    requires IsMonth(month, y, m)
    ensures Starts(month, y, m)
  {
    if month == 0 {
      assert y == -1 && m == 10;
    } else if m == 0 {
      DaysAddUp(month - 1, y - 1, 11);
      StartsAYear(month, y);
    } else {
      DaysAddUp(month - 1, y, m - 1);
      StartsWithin(month, y, m);
    }
  }

  lemma StartsAYear(month: nat, y: int)
    requires month > 0 && IsMonth(month, y, 0) && Starts(month - 1, y - 1, 11)
    ensures Starts(month, y, 0)
  {
    NextFirst(month - 1, y, 1);
    AcrossYears(y - 1);
  }

  lemma StartsWithin(month: nat, y: int, m: nat)
    requires month > 0 && m > 0 && IsMonth(month, y, m) && Starts(month - 1, y, m - 1)
    ensures Starts(month, y, m)
  {
    var year, c := if m <= 10 then y else y + 1, if m <= 10 then m + 1 else 0;
    NextFirst(month - 1, year, c);
    WithinAYear(y, year, m - 1, c);
  }

  lemma NextFirst(month: nat, year: nat, m: nat)
    requires month == 12 * year + m && m < 12
    ensures FirstDay(month + 1) == FirstDay(month) + MonthLength(year, m)
  {
    LengthOf(month, year, m);
  }

  lemma WithinAYear(y: int, year: nat, m: nat, c: nat)
    requires m < 11 && c == if m <= 9 then m + 2 else 0
    ensures DaysBefore(y, m + 1) == DaysBefore(y, m) + MonthLength(year, c)
  {
  }

  lemma AcrossYears(y: int)
    requires y >= -1
    ensures DaysBefore(y + 1, 0) == DaysBefore(y, 11) + MonthLength(y + 1, 1)
  {
    LeapDay(y);
  }

  lemma LengthOf(month: nat, year: nat, m: nat)
    requires month == 12 * year + m && m < 12
    ensures DaysIn(month) == MonthLength(year, m)
  {
    assert month / 12 == year && month % 12 == m;
  }

  /** What the year after brings. */
  lemma LeapDay(y: int)
    requires y >= -1
    ensures LeapDays(y + 1) == LeapDays(y) + if Leap(y + 1) then 1 else 0
  {
    NextFourth(y);
    NextCentury(y);
    NextFourCenturies(y);
  }

  lemma NextFourth(y: int)
    ensures (y + 1) / 4 == y / 4 + if (y + 1) % 4 == 0 then 1 else 0
  {
  }

  lemma NextCentury(y: int)
    ensures (y + 1) / 100 == y / 100 + if (y + 1) % 100 == 0 then 1 else 0
    ensures (y + 1) % 100 == 0 ==> (y + 1) % 4 == 0
  {
  }

  lemma NextFourCenturies(y: int)
    ensures (y + 1) / 400 == y / 400 + if (y + 1) % 400 == 0 then 1 else 0
    ensures (y + 1) % 400 == 0 ==> (y + 1) % 100 == 0
  {
  }

  /** So the number of every date is the one the Gregorian calendar gives it, in closed form. */
  lemma NumbersAreGregorian(d: Date)
    requires d.Valid()
    ensures var y, m := if d.month >= 3 then d.year else d.year - 1, if d.month >= 3 then d.month - 3 else d.month + 9;
            d.Number() == 365 * y + y / 4 - y / 100 + y / 400 + (153 * m + 2) / 5 + 59 + d.day
  {
    DaysAddUp(d.MonthIndex(), if d.month >= 3 then d.year else d.year - 1,
      if d.month >= 3 then d.month - 3 else d.month + 9);
  }

  lemma YearsAdd(year: nat)
    ensures FirstDay(12 * year + 12) - FirstDay(12 * year) == 365 + LeapDays(year) - LeapDays(year - 1)
  {
    DaysAddUp(12 * year + 12, year, 10);
    DaysAddUp(12 * year, year - 1, 10);
  }

  /** Every year has 365 days, and one more where it is a fourth year of no century, or a century
      that is a fourth one. */
  lemma YearsAreGregorian(year: nat)
    ensures FirstDay(12 * year + 12) - FirstDay(12 * year)
            == if year % 400 == 0 || (year % 4 == 0 && year % 100 != 0) then 366 else 365
  {
    YearsAdd(year);
    LeapDay(year - 1);
  }

  // ---------------------------------------------------------------- due dates

  /** The same day n months later, or that month's last day. */
  function AddMonths(day: Date, n: nat): Date
    requires day.month >= 1
  {
    var month := day.MonthIndex() + n;
    var last := DaysIn(month);
    Date(month / 12, month % 12 + 1, if day.day > last then last else day.day)
  }

  /** The last day of a month, reached the way the program reaches it: the day before the first of
      the month after. */
  lemma {:induction false} LastDayIsBeforeTheNextFirst(month: nat)
    ensures var last := Date(month / 12, month % 12 + 1, DaysIn(month));
            last.Valid() && last.Number() + 1 == FirstDay(month + 1)
  {
    assert month / 12 * 12 + month % 12 == month;
  }

  /** A due date is a date, in the month n later, on the first one's day or the month's last. */
  lemma AddMonthsKeepsTheDay(day: Date, n: nat)
    requires day.Valid()
    ensures var d := AddMonths(day, n);
            && d.Valid() && d.MonthIndex() == day.MonthIndex() + n
            && (d.day == day.day || (d.day < day.day && d.day == DaysIn(d.MonthIndex())))
    ensures AddMonths(day, 0) == day
  {
  }

  /** A due date falls on the first one's day, counted from the first of its month, or on the day
      before the next month begins: y and m, and v and n, are those months in their years. */
  lemma DueDatesFallOn(day: Date, k: nat, y: int, m: nat, v: int, n: nat)
    requires day.Valid() && IsMonth(day.MonthIndex() + k, y, m) && IsMonth(day.MonthIndex() + k + 1, v, n)
    ensures AddMonths(day, k).Valid()
    ensures AddMonths(day, k).Number() == if DaysBefore(y, m) + day.day <= DaysBefore(v, n)
                                          then DaysBefore(y, m) + day.day + 59 else DaysBefore(v, n) + 59
  {
    AddMonthsKeepsTheDay(day, k);
    DaysAddUp(day.MonthIndex() + k, y, m);
    DaysAddUp(day.MonthIndex() + k + 1, v, n);
  }

  /** Due dates strictly increase, whatever day the first one falls on. */
  lemma DueDatesIncrease(day: Date, m: nat, n: nat)
    requires day.Valid() && m < n
    ensures AddMonths(day, m).Valid() && AddMonths(day, n).Valid()
    ensures AddMonths(day, m).Number() < AddMonths(day, n).Number()
  {
    AddMonthsKeepsTheDay(day, m);
    AddMonthsKeepsTheDay(day, n);
    NumbersFollowDates(AddMonths(day, m), AddMonths(day, n));
  }
}
