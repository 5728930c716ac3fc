/** The day-of-week formula of the PLC library against counting days one by one. */
module Weekday {

  datatype Date = Date(year: int, month: int, day: int)

  // ---------------------------------------------------------------- the formula

  /** Integer division of C: truncates toward zero. */
  function Div(a: int, b: int): int
    requires b > 0
  {
    if a >= 0 then a / b else -(-a / b)
  }

  function Rem(a: int, b: int): int
    requires b > 0
  {
    a - b * Div(a, b)
  }

  /** The year of the formula, which starts in March. */
  function FormulaYear(d: Date): int {
    d.year - Div(14 - d.month, 12)
  }

  function FormulaMonth(d: Date): int {
    d.month + 12 * Div(14 - d.month, 12) - 2
  }

  /** The sum of which the formula takes the remainder. */
  function FormulaSum(d: Date): int {
    var y := FormulaYear(d);
    d.day + y + Div(y, 4) - Div(y, 100) + Div(y, 400) + Div(31 * FormulaMonth(d), 12)
  }

  /** `DT_Weekday`: 1 for Sunday to 7 for Saturday. */
  function DTWeekday(d: Date): int {
    Rem(FormulaSum(d), 7) + 1
  }

  // ---------------------------------------------------------------- the calendar

  predicate Leap(year: int) {
    year % 4 == 0 && (year % 100 != 0 || year % 400 == 0)
  }

  function DaysInMonth(year: int, month: int): int {
    if month == 2 then (if Leap(year) then 29 else 28)
    else if month in {4, 6, 9, 11} then 30
    else 31
  }

  /** A date of the Gregorian calendar, extended to years before its introduction, 0 and less included. */
  predicate Valid(d: Date) {
    1 <= d.month <= 12 && 1 <= d.day <= DaysInMonth(d.year, d.month)
  }

  function NextDay(d: Date): Date {
    if d.day < DaysInMonth(d.year, d.month) then d.(day := d.day + 1)
    else if d.month < 12 then Date(d.year, d.month + 1, 1)
    else Date(d.year + 1, 1, 1)
  }

  // ---------------------------------------------------------------- counting days

  function DaysBeforeMonth(year: int, month: int): nat
    requires 1 <= month <= 12
  {
    if month == 1 then 0 else DaysBeforeMonth(year, month - 1) + DaysInMonth(year, month - 1)
  }

  function DaysInYear(year: int): nat {
    DaysBeforeMonth(year, 12) + DaysInMonth(year, 12)
  }

  /** Days from the first of January of year 1 to that of `year`, negative for earlier years. */
  function DaysBeforeYear(year: int): int
    decreases if year >= 1 then year - 1 else 1 - year
  {
    if year == 1 then 0
    else if year > 1 then DaysBeforeYear(year - 1) + DaysInYear(year - 1)
    else DaysBeforeYear(year + 1) - DaysInYear(year)
  }

  /** Number of the day, 1 for the first of January of year 1. */
  function DayNumber(d: Date): int
    requires Valid(d)
  {
    DaysBeforeYear(d.year) + DaysBeforeMonth(d.year, d.month) + d.day
  }

  lemma {:induction false} NextMonth(year: int, month: int)
    requires 1 <= month < 12
    ensures DaysBeforeMonth(year, month + 1) == DaysBeforeMonth(year, month) + DaysInMonth(year, month)
  {
  }

  lemma {:induction false} NewYear(year: int)
    ensures DaysBeforeYear(year + 1) == DaysBeforeYear(year) + DaysBeforeMonth(year, 12) + DaysInMonth(year, 12)
    ensures DaysBeforeMonth(year + 1, 1) == 0
  {
  }

  lemma {:induction false} NextDayValid(d: Date)
    requires Valid(d)
    ensures Valid(NextDay(d))
  {
  }

  /** The count goes up by one from each day to the next, across months, years and leap days. */
  lemma {:induction false} DayNumberOfNextDay(d: Date)
    requires Valid(d)
    ensures Valid(NextDay(d)) && DayNumber(NextDay(d)) == DayNumber(d) + 1
  {
    NextDayValid(d);
    if d.day < DaysInMonth(d.year, d.month) {
    } else if d.month < 12 {
      FirstOfMonth(d);
    } else {
      FirstOfYear(d);
    }
  }

  lemma {:induction false} FirstOfMonth(d: Date)
    requires Valid(d) && d.day == DaysInMonth(d.year, d.month) && d.month < 12
    ensures Valid(NextDay(d)) && DayNumber(NextDay(d)) == DayNumber(d) + 1
  {
    NextDayValid(d);
    NextMonth(d.year, d.month);
  }

  lemma {:induction false} FirstOfYear(d: Date)
    requires Valid(d) && d.day == DaysInMonth(d.year, d.month) && d.month == 12
    ensures Valid(NextDay(d)) && DayNumber(NextDay(d)) == DayNumber(d) + 1
  {
    NextDayValid(d);
    NewYear(d.year);
  }

  lemma {:induction false} MonthTable(year: int)
    ensures var f := if Leap(year) then 1 else 0;
            && DaysBeforeMonth(year, 1) == 0 && DaysBeforeMonth(year, 2) == 31
            && DaysBeforeMonth(year, 3) == 59 + f && DaysBeforeMonth(year, 4) == 90 + f
            && DaysBeforeMonth(year, 5) == 120 + f && DaysBeforeMonth(year, 6) == 151 + f
            && DaysBeforeMonth(year, 7) == 181 + f && DaysBeforeMonth(year, 8) == 212 + f
            && DaysBeforeMonth(year, 9) == 243 + f && DaysBeforeMonth(year, 10) == 273 + f
            && DaysBeforeMonth(year, 11) == 304 + f && DaysBeforeMonth(year, 12) == 334 + f
  {
    assert DaysBeforeMonth(year, 3) == DaysBeforeMonth(year, 2) + DaysInMonth(year, 2);
    assert DaysBeforeMonth(year, 6) == DaysBeforeMonth(year, 5) + DaysInMonth(year, 5);
    assert DaysBeforeMonth(year, 9) == DaysBeforeMonth(year, 8) + DaysInMonth(year, 8);
  }

  function LeapsUpTo(y: int): int {
    y / 4 - y / 100 + y / 400
  }

  lemma {:induction false} LeapsStep(y: int)
    ensures LeapsUpTo(y) == LeapsUpTo(y - 1) + if Leap(y) then 1 else 0
  {
    QuotientStep(y, 4);
    QuotientStep(y, 100);
    QuotientStep(y, 400);
    Multiples(y);
  }

  lemma {:induction false} QuotientStep(y: int, d: int)
    requires d in {4, 100, 400}
    ensures y / d == (y - 1) / d + if y % d == 0 then 1 else 0
  {
    if d == 4 {
      assert y / 4 == (y - 1) / 4 + if y % 4 == 0 then 1 else 0;
    } else if d == 100 {
      assert y / 100 == (y - 1) / 100 + if y % 100 == 0 then 1 else 0;
    } else {
      assert y / 400 == (y - 1) / 400 + if y % 400 == 0 then 1 else 0;
    }
  }

  lemma {:induction false} Multiples(y: int)
    ensures y % 400 == 0 ==> y % 100 == 0
    ensures y % 100 == 0 ==> y % 4 == 0
  {
    if y % 400 == 0 {
      NoRemainder(y, 4 * (y / 400), 100);
    }
    if y % 100 == 0 {
      NoRemainder(y, 25 * (y / 100), 4);
    }
  }

  lemma {:induction false} NoRemainder(y: int, q: int, b: int)
    requires b in {4, 100} && y == q * b
    ensures y % b == 0
  {
  }

  lemma {:induction false} DaysBeforeYearIs(year: int)
    ensures DaysBeforeYear(year) == 365 * (year - 1) + LeapsUpTo(year - 1)
    decreases if year >= 1 then year - 1 else 1 - year
  {
    if year == 1 {
    } else if year > 1 {
      DaysBeforeYearIs(year - 1);
      MonthTable(year - 1);
      LeapsStep(year - 1);
    } else {
      DaysBeforeYearIs(year + 1);
      MonthTable(year);
      LeapsStep(year);
    }
  }

  // ---------------------------------------------------------------- the formula counts days

  /** What the sum would be with divisions that round down. */
  function RoundedDown(d: Date): int {
    var y := FormulaYear(d);
    d.day + y + LeapsUpTo(y) + 31 * FormulaMonth(d) / 12
  }

  /** January and February count as months 11 and 12 of the year before. */
  lemma {:induction false} ByMonth(d: Date)
    requires 1 <= d.month <= 12
    ensures d.month <= 2 ==> FormulaYear(d) == d.year - 1 && FormulaMonth(d) == d.month + 10
    ensures d.month > 2 ==> FormulaYear(d) == d.year && FormulaMonth(d) == d.month - 2
  {
    assert Div(14 - d.month, 12) == if d.month <= 2 then 1 else 0;
  }

  /** How far the month term of the formula is from the days before the month: a multiple of 7. */
  lemma {:induction false} MonthTerm(year: int, month: int)
    requires 1 <= month <= 12
    ensures month <= 2 ==> (DaysBeforeMonth(year, month) - 31 * (month + 10) / 12) % 7 == 0
    ensures month > 2 ==>
              (DaysBeforeMonth(year, month) - (if Leap(year) then 1 else 0) - 1 - 31 * (month - 2) / 12) % 7 == 0
  {
    MonthTable(year);
  }

  lemma {:induction false} SameRemainder(x: int, y: int, k: int, t: int)
    requires y == x + 7 * k + t && t % 7 == 0
    ensures x % 7 == y % 7
  {
  }

  lemma {:induction false} DayNumberIs(d: Date)
    requires Valid(d)
    ensures DayNumber(d) == 365 * (d.year - 1) + LeapsUpTo(d.year - 1) + DaysBeforeMonth(d.year, d.month) + d.day
    ensures LeapsUpTo(d.year) == LeapsUpTo(d.year - 1) + if Leap(d.year) then 1 else 0
  {
    DaysBeforeYearIs(d.year);
    LeapsStep(d.year);
  }

  lemma {:induction false} RoundedDownIs(d: Date)
    requires 1 <= d.month <= 12
    ensures d.month <= 2 ==> RoundedDown(d) == d.day + d.year - 1 + LeapsUpTo(d.year - 1) + 31 * (d.month + 10) / 12
    ensures d.month > 2 ==> RoundedDown(d) == d.day + d.year + LeapsUpTo(d.year) + 31 * (d.month - 2) / 12
  {
    ByMonth(d);
  }

  lemma {:induction false} DayNumberSums(d: Date) returns (before: int, leaps: int, leapsNow: int)
    requires Valid(d)
    ensures DayNumber(d) == 365 * (d.year - 1) + leaps + before + d.day
    ensures d.month <= 2 ==> (before - 31 * (d.month + 10) / 12) % 7 == 0
    ensures d.month > 2 ==> (before - (leapsNow - leaps) - 1 - 31 * (d.month - 2) / 12) % 7 == 0
    ensures leaps == LeapsUpTo(d.year - 1) && leapsNow == LeapsUpTo(d.year)
  {
    before, leaps, leapsNow := DaysBeforeMonth(d.year, d.month), LeapsUpTo(d.year - 1), LeapsUpTo(d.year);
    MonthTerm(d.year, d.month);
    DayNumberIs(d);
  }

  /** With divisions that round down the formula counts days, in every year. */
  lemma {:induction false} RoundedDownCounts(d: Date)
    requires Valid(d)
    ensures RoundedDown(d) % 7 == DayNumber(d) % 7
  {
    var before, leaps, leapsNow := DayNumberSums(d);
    RoundedDownIs(d);
    SumsAgree(d.day, d.year, d.month, before, leaps, leapsNow, DayNumber(d), RoundedDown(d));
  }

  /**
   The arithmetic of the lemma above, on plain numbers: days before the month, leap years before and up to
   the year.
   */
  lemma {:induction false} SumsAgree(day: int, y: int, month: int, before: int, leaps: int, leapsNow: int, n: int,
      sum: int)
    requires 1 <= month <= 12 && n == 365 * (y - 1) + leaps + before + day
    requires month <= 2 ==> (before - 31 * (month + 10) / 12) % 7 == 0
    requires month > 2 ==> (before - (leapsNow - leaps) - 1 - 31 * (month - 2) / 12) % 7 == 0
    requires month <= 2 ==> sum == day + y - 1 + leaps + 31 * (month + 10) / 12
    requires month > 2 ==> sum == day + y + leapsNow + 31 * (month - 2) / 12
    ensures sum % 7 == n % 7
  {
    if month <= 2 {
      SameRemainder(sum, n, 52 * (y - 1), before - 31 * (month + 10) / 12);
    } else {
      SameRemainder(sum, n, 52 * (y - 1), before - (leapsNow - leaps) - 1 - 31 * (month - 2) / 12);
    }
  }

  // ---------------------------------------------------------------- where truncation goes wrong

  /** Truncation makes a difference of one day in negative years that are no leap years. */
  lemma {:induction false} TruncatedLeaps(y: int)
    ensures Div(y, 4) - Div(y, 100) + Div(y, 400) == LeapsUpTo(y) + if y < 0 && !Leap(y) then 1 else 0
  {
    if y < 0 {
      TruncatedQuotient(y, 4);
      TruncatedQuotient(y, 100);
      TruncatedQuotient(y, 400);
      Multiples(y);
    }
  }

  lemma {:induction false} TruncatedQuotient(y: int, b: int)
    requires y < 0 && b in {4, 100, 400}
    ensures Div(y, b) == y / b + if y % b == 0 then 0 else 1
  {
    if b == 4 {
      assert -(-y / 4) == y / 4 + if y % 4 == 0 then 0 else 1;
    } else if b == 100 {
      assert -(-y / 100) == y / 100 + if y % 100 == 0 then 0 else 1;
    } else {
      assert -(-y / 400) == y / 400 + if y % 400 == 0 then 0 else 1;
    }
  }

  lemma {:induction false} SumIs(d: Date)
    requires Valid(d)
    ensures FormulaSum(d) == RoundedDown(d) + if FormulaYear(d) < 0 && !Leap(FormulaYear(d)) then 1 else 0
    ensures FormulaYear(d) >= 0 ==> FormulaSum(d) >= 0
  {
    ByMonth(d);
    TruncatedLeaps(FormulaYear(d));
    var y := FormulaYear(d);
    assert y >= 0 ==> y / 4 >= y / 100;
  }

  lemma {:induction false} RemIs(x: int)
    ensures Rem(x, 7) == x % 7 <==> x >= 0 || x % 7 == 0
    ensures Rem(x, 7) != (x - 1) % 7
  {
    if x < 0 {
      assert -(-x / 7) == x / 7 + if x % 7 == 0 then 0 else 1;
    }
  }

  /**
   Exactly when the formula is right, for every date of every year: when its year, which starts in
   March, is not negative; and in a negative one when it is a leap year and the sum is not negative or
   divisible by 7.
   */
  lemma {:induction false} RightIff(d: Date)
    requires Valid(d)
    ensures DTWeekday(d) == DayNumber(d) % 7 + 1 <==>
            FormulaYear(d) >= 0 || (Leap(FormulaYear(d)) && (FormulaSum(d) >= 0 || FormulaSum(d) % 7 == 0))
  {
    RoundedDownCounts(d);
    SumIs(d);
    RemIs(FormulaSum(d));
  }

  /** From year 0 on the formula is right exactly from the first of March of year 0 on. */
  lemma {:induction false} WeekdayIsDayCount(d: Date)
    requires Valid(d) && d.year >= 0
    ensures DTWeekday(d) == DayNumber(d) % 7 + 1 <==> FormulaYear(d) >= 0
  {
    RightIff(d);
    MinusOne(d);
  }

  lemma {:induction false} MinusOne(d: Date)
    requires Valid(d) && d.year >= 0
    ensures FormulaYear(d) >= -1 && !Leap(-1)
  {
    ByMonth(d);
  }

  lemma {:induction false} NextYear(d: Date)
    requires Valid(d)
    ensures 1 <= NextDay(d).month <= 12 && FormulaYear(NextDay(d)) >= FormulaYear(d)
  {
    ByMonth(d);
    ByMonth(NextDay(d));
  }

  /** Each day's value, from 1 to 7, follows the previous one. */
  lemma {:induction false} WeekdayOfNextDay(d: Date)
    requires Valid(d) && FormulaYear(d) >= 0
    ensures 1 <= DTWeekday(d) <= 7
    ensures DTWeekday(NextDay(d)) == DTWeekday(d) % 7 + 1
  {
    var n, e := DayNumber(d), NextDay(d);
    DayNumberOfNextDay(d);
    NextYear(d);
    Counted(d);
    Counted(e);
    Successor(n, DTWeekday(d), DTWeekday(e));
  }

  lemma {:induction false} Counted(d: Date)
    requires Valid(d) && FormulaYear(d) >= 0
    ensures DTWeekday(d) == DayNumber(d) % 7 + 1
  {
    RightIff(d);
  }

  lemma {:induction false} Successor(n: int, a: int, b: int)
    requires a == n % 7 + 1 && b == (n + 1) % 7 + 1
    ensures 1 <= a <= 7 && b == a % 7 + 1
  {
  }

  /** The anchor: the first of January of 1970 was a Thursday. */
  lemma {:induction false} Anchor()
    ensures DTWeekday(Date(1970, 1, 1)) == 5
  {
    ByMonth(Date(1970, 1, 1));
    assert FormulaSum(Date(1970, 1, 1)) == 2475;
  }

  lemma {:induction false} SumBeforeMarch(d: Date)
    requires Valid(d) && d.year == 0 && d.month <= 2
    ensures FormulaYear(d) == -1 && FormulaSum(d) == RoundedDown(d) + 1 >= 0
  {
    ByMonth(d);
    TruncatedLeaps(-1);
    assert LeapsUpTo(-1) == -1;
  }

  lemma {:induction false} Ahead(sum: int, n: int)
    requires (sum - 1) % 7 == n % 7 && sum >= 0
    ensures Rem(sum, 7) == (n + 1) % 7
  {
  }

  /** In January and February of year 0 the formula is one day ahead. */
  lemma {:induction false} OneAhead(d: Date)
    requires Valid(d) && d.year == 0 && d.month <= 2
    ensures DTWeekday(d) == (DayNumber(d) + 1) % 7 + 1
  {
    RoundedDownCounts(d);
    SumBeforeMarch(d);
    Ahead(FormulaSum(d), DayNumber(d));
  }

  /** So 29 February and 1 March of year 0 get the same value. */
  lemma {:induction false} YearZeroFails(d: Date)
    requires d == Date(0, 2, 29)
    ensures NextDay(d) == Date(0, 3, 1)
    ensures DTWeekday(NextDay(d)) == DTWeekday(d)
  {
    DayNumberOfNextDay(d);
    OneAhead(d);
    FirstOfMarch(NextDay(d));
    Counted(NextDay(d));
  }

  lemma {:induction false} FirstOfMarch(d: Date)
    requires d == Date(0, 3, 1)
    ensures FormulaYear(d) == 0
  {
  }
}
