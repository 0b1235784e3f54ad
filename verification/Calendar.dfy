/**
 The proleptic Gregorian calendar as the source uses it through `time.Time`:
 a calendar day is its number counted from 1 January of year 0, and a month is
 its index `12 * year + (month - 1)`.  Adding months normalises an overflowing
 day of the month into the following month, as `Time.AddDate` does.
 */
module Calendar {

  type Day = nat

  predicate Leap(year: nat) {
    year % 4 == 0 && (year % 100 != 0 || year % 400 == 0)
  }

  function MonthLength(month: nat): (n: nat)
    ensures 28 <= n <= 31
  {
    match month % 12
    case 1 => if Leap(month / 12) then 29 else 28
    case 3 | 5 | 8 | 10 => 30
    case _ => 31
  }

  /** The day number of a month's first day. */
  function MonthStart(month: nat): Day {
    if month == 0 then 0 else MonthStart(month - 1) + MonthLength(month - 1)
  }

  lemma MonthStartStep(month: nat)
    ensures MonthStart(month + 1) == MonthStart(month) + MonthLength(month)
  {
  }

  lemma {:induction false} MonthStartMonotone(lower: nat, upper: nat)
    requires lower <= upper
    ensures MonthStart(lower) + 28 * (upper - lower) <= MonthStart(upper)
    decreases upper - lower
  {
    if lower < upper {
      MonthStartMonotone(lower, upper - 1);
      MonthStartStep(upper - 1);
    }
  }

  /** The month a day lies in, searched upwards from a month that starts no later. */
  function MonthFrom(month: nat, day: Day): (found: nat)
    requires MonthStart(month) <= day
    ensures month <= found
    ensures MonthStart(found) <= day < MonthStart(found + 1)
    decreases day - MonthStart(month)
  {
    if day < MonthStart(month + 1) then month
    else MonthStartStep(month); MonthFrom(month + 1, day)
  }

  function MonthOf(day: Day): (month: nat)
    ensures MonthStart(month) <= day < MonthStart(month + 1)
  {
    MonthFrom(0, day)
  }

  lemma MonthOfUnique(day: Day, month: nat)
    requires MonthStart(month) <= day < MonthStart(month + 1)
    ensures MonthOf(day) == month
  {
    hide MonthStart, MonthOf, MonthFrom;
    var found := MonthOf(day);
    if found < month {
      MonthStartMonotone(found + 1, month);
    } else if month < found {
      MonthStartMonotone(month + 1, found);
    }
  }

  lemma MonthOfMonotone(early: Day, late: Day)
    requires early <= late
    ensures MonthOf(early) <= MonthOf(late)
  {
    hide MonthStart, MonthOf, MonthFrom;
    if MonthOf(late) < MonthOf(early) {
      MonthStartMonotone(MonthOf(late) + 1, MonthOf(early));
    }
  }

  /** Zero-based day of the month. */
  function DayIndex(day: Day): (index: nat)
    ensures index < 31
  {
    MonthStartStep(MonthOf(day));
    day - MonthStart(MonthOf(day))
  }

  /** The day that lies so many days after a month's first. */
  lemma DayOfMonth(month: nat, index: nat)
    requires index < MonthLength(month)
    ensures MonthOf(MonthStart(month) + index) == month && DayIndex(MonthStart(month) + index) == index
  {
    hide MonthStart, MonthOf, MonthLength;
    MonthStartStep(month);
    MonthOfUnique(MonthStart(month) + index, month);
  }

  /** `day.AddDate(0, months, 0)`. */
  function AddMonths(day: Day, months: nat): Day {
    MonthStart(MonthOf(day) + months) + DayIndex(day)
  }

  /** Months later is the same day of the month, in a month that has it. */
  lemma AddMonthsKeepsTheDay(day: Day, months: nat)
    requires DayIndex(day) < MonthLength(MonthOf(day) + months)
    ensures MonthOf(AddMonths(day, months)) == MonthOf(day) + months
            && DayIndex(AddMonths(day, months)) == DayIndex(day)
  {
    hide MonthStart, MonthOf, MonthLength;
    DayOfMonth(MonthOf(day) + months, DayIndex(day));
  }

  lemma AddMonthsStrict(day: Day, fewer: nat, more: nat)
    requires fewer < more
    ensures AddMonths(day, fewer) + 28 * (more - fewer) <= AddMonths(day, more)
    ensures AddMonths(day, 0) == day
  {
    hide MonthStart, MonthOf, MonthLength;
    MonthStartMonotone(MonthOf(day) + fewer, MonthOf(day) + more);
  }

  /** `monthsBetweenChart`: whole months from start to end, never negative. */
  function MonthsBetween(start: Day, end: Day): (months: nat) {
    var difference := MonthOf(end) - MonthOf(start);
    var whole := if DayIndex(end) < DayIndex(start) then difference - 1 else difference;
    if whole < 0 then 0 else whole
  }

  /** To the first of a later month, the last month counts only from the first of one. */
  lemma MonthsToStart(start: Day, months: nat)
    ensures
      MonthsBetween(start, MonthStart(MonthOf(start) + months))
      == if DayIndex(start) > 0 && months > 0 then months - 1 else months
  {
    hide MonthStart, MonthOf;
    DayOfMonth(MonthOf(start) + months, 0);
  }

  /** When the horizon's date passes the end date, the month before it ends well before. */
  lemma MonthBeforeIsWithinEnd(start: Day, end: Day)
    requires MonthsBetween(start, end) > 0 && AddMonths(start, MonthsBetween(start, end)) > end
    ensures AddMonths(start, MonthsBetween(start, end) - 1) <= end
  {
    hide MonthStart, MonthOf, MonthLength;
    var month := MonthOf(start) + MonthsBetween(start, end) - 1;
    assert month + 2 == MonthOf(end);
    MonthStartMonotone(month, month + 2);
  }

  /** One month past the horizon is always after the end date. */
  lemma HorizonIsPast(start: Day, end: Day)
    ensures AddMonths(start, MonthsBetween(start, end) + 1) > end
  {
    hide MonthStart, MonthOf, MonthLength;
    var month := MonthOf(start) + MonthsBetween(start, end) + 1;
    if month > MonthOf(end) {
      MonthStartMonotone(MonthOf(end) + 1, month);
    }
  }

  /** The horizon itself is at or before the end date when no day of the month can overflow. */
  lemma HorizonWithinEnd(start: Day, end: Day)
    requires start <= end && DayIndex(start) < 28
    ensures AddMonths(start, MonthsBetween(start, end)) <= end
  {
    hide MonthStart, MonthOf, MonthLength;
    MonthOfMonotone(start, end);
    var month := MonthOf(start) + MonthsBetween(start, end);
    if DayIndex(end) < DayIndex(start) {
      MonthStartMonotone(month, MonthOf(end));
    }
  }

  /** Years before the given one that a period divides. */
  function Multiples(year: nat, period: nat): nat
    requires period > 0
  {
    if year == 0 then 0 else Multiples(year - 1, period) + if (year - 1) % period == 0 then 1 else 0
  }

  lemma {:induction false} MultiplesClosedForm(year: nat, period: nat)
    requires period in {4, 100, 400}
    ensures Multiples(year, period) == (year + period - 1) / period
  {
    if year > 0 {
      MultiplesClosedForm(year - 1, period);
      CeilingStep(year - 1, period);
    }
  }

  lemma CeilingStep(year: nat, period: nat)
    requires period in {4, 100, 400}
    ensures (year + period) / period == (year + period - 1) / period + if year % period == 0 then 1 else 0
  {
  }

  /** Leap years among the years before the given one. */
  function LeapsBefore(year: nat): int {
    Multiples(year, 4) - Multiples(year, 100) + Multiples(year, 400)
  }

  lemma NestedMultiples(year: nat)
    ensures year % 400 == 0 ==> year % 100 == 0
    ensures year % 100 == 0 ==> year % 4 == 0
  {
    if year % 400 == 0 { RemainderOfMultiple(year, 400, 100); }
    if year % 100 == 0 { RemainderOfMultiple(year, 100, 4); }
  }

  lemma RemainderOfMultiple(year: nat, period: nat, divisor: nat)
    requires (period, divisor) in {(400, 100), (100, 4)}
    requires year % period == 0
    ensures year % divisor == 0
  {
    var k := year / period;
    if period == 400 { assert year == 100 * (4 * k); } else { assert year == 4 * (25 * k); }
  }

  lemma LeapsBeforeStep(year: nat)
    ensures LeapsBefore(year + 1) == LeapsBefore(year) + if Leap(year) then 1 else 0
  {
    NestedMultiples(year);
  }

  function DaysBefore(monthOfYear: nat, leap: bool): nat
    requires monthOfYear < 12
  {
    [0, 31, 59, 90, 120, 151, 181, 212, 243, 273, 304, 334][monthOfYear] + if leap && monthOfYear >= 2 then 1 else 0
  }

  lemma DaysBeforeStep(month: nat)
    ensures
      var days := DaysBefore(month % 12, Leap(month / 12)) + MonthLength(month);
      days == if month % 12 == 11 then 365 + (if Leap(month / 12) then 1 else 0)
        else DaysBefore(month % 12 + 1, Leap(month / 12))
  {
  }

  /** Counting month lengths one at a time agrees with the closed form of the Gregorian rule. */
  lemma {:induction false} MonthStartClosedForm(month: nat)
    ensures MonthStart(month)
         == 365 * (month / 12) + LeapsBefore(month / 12) + DaysBefore(month % 12, Leap(month / 12))
  {
    hide MonthLength, Leap, LeapsBefore;
    if month == 0 {
      assert LeapsBefore(0) == 0 by { LeapsBeforeNone(); }
    } else {
      MonthStartClosedForm(month - 1);
      DaysBeforeStep(month - 1);
      if month % 12 == 0 {
        assert (month - 1) / 12 == month / 12 - 1 && (month - 1) % 12 == 11;
        LeapsBeforeStep((month - 1) / 12);
      } else {
        assert (month - 1) / 12 == month / 12 && (month - 1) % 12 == month % 12 - 1;
      }
    }
  }

  lemma LeapsBeforeNone()
    ensures LeapsBefore(0) == 0
  {
  }
}
