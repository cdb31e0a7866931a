/** Civil days: `daysFromCivil` of lib/parsers/local_date.js against the calendar of ECMAScript
    (sections 15.9.1.3 and 15.9.1.12 of ECMA-262 5.1) and against counting days one by one. */
module Calendar {

  /** Days since 1970-01-01, as the source computes them: years start in March, eras are 400 years. */
  function DaysFromCivil(year: int, month: int, day: int): int
    requires 1 <= month <= 12
  {
    var y := if month <= 2 then year - 1 else year;
    var era := y / 400;
    var yearOfEra := y - era * 400;
    var dayOfYear := (153 * ((month + 9) % 12) + 2) / 5 + day - 1;
    var dayOfEra := yearOfEra * 365 + yearOfEra / 4 - yearOfEra / 100 + dayOfYear;
    era * 146097 + dayOfEra - 719468
  }

  predicate IsLeapYear(year: int) {
    year % 4 == 0 && (year % 100 != 0 || year % 400 == 0)
  }

  function DayFromYear(year: int): int {
    365 * (year - 1970) + (year - 1969) / 4 - (year - 1901) / 100 + (year - 1601) / 400
  }

  /** Days of the year before a month in 0..11. */
  function DaysBeforeMonth(month: int, leap: bool): int {
    var days := [0, 31, 59, 90, 120, 151, 181, 212, 243, 273, 304, 334];
    (if 0 <= month < 12 then days[month] else 0) + if leap && month >= 2 then 1 else 0
  }

  /** MakeDay: any integer month and day, the month counted from 0. */
  function MakeDay(year: int, month: int, day: int): int {
    var y, m := year + month / 12, month % 12;
    DayFromYear(y) + DaysBeforeMonth(m, IsLeapYear(y)) + day - 1
  }

  /** Leap days before the end of a year, counted from year 0. */
  function LeapDays(year: int): int {
    year / 4 - year / 100 + year / 400
  }

  lemma QuotientSteps(x: int)
    ensures x / 4 == (x - 1) / 4 + if x % 4 == 0 then 1 else 0
    ensures x / 100 == (x - 1) / 100 + if x % 100 == 0 then 1 else 0
    ensures x / 400 == (x - 1) / 400 + if x % 400 == 0 then 1 else 0
  {
  }

  lemma LeapYearRules(x: int)
    ensures x % 400 == 0 ==> x % 100 == 0
    ensures x % 100 == 0 ==> x % 4 == 0
  {
  }

  lemma LeapDaysStep(year: int)
    ensures LeapDays(year) == LeapDays(year - 1) + if IsLeapYear(year) then 1 else 0
  {
    QuotientSteps(year);
    LeapYearRules(year);
  }

  lemma LeapDaysOfYear(year: int)
    ensures LeapDays(year) == LeapDays(year - 1) + if IsLeapYear(year) then 1 else 0
    ensures DayFromYear(year) == 365 * (year - 1970) + LeapDays(year - 1) - 477
    ensures DayFromYear(year + 1) == DayFromYear(year) + if IsLeapYear(year) then 366 else 365
  {
    LeapDaysStep(year);
    DayFromYearLeapDays(year);
    DayFromYearLeapDays(year + 1);
    hide DayFromYear, LeapDays, IsLeapYear;
  }

  lemma DayFromYearLeapDays(year: int)
    ensures DayFromYear(year) == 365 * (year - 1970) + LeapDays(year - 1) - 477
  {
    assert (year - 1969) / 4 == (year - 1) / 4 - 492;
    assert (year - 1901) / 100 == (year - 1) / 100 - 19;
    assert (year - 1601) / 400 == (year - 1) / 400 - 4;
  }

  /** Within an era the leap days up to a year are those of the year. */
  lemma EraDays(y: int)
    ensures var era := y / 400;
            var yearOfEra := y - era * 400;
            era * 146097 + yearOfEra * 365 + yearOfEra / 4 - yearOfEra / 100 == 365 * y + LeapDays(y)
  {
    QuotientShift(y, 4, 100, y / 400);
    QuotientShift(y, 100, 4, y / 400);
  }

  lemma QuotientShift(y: int, k: int, n: int, era: int)
    requires (k == 4 && n == 100) || (k == 100 && n == 4)
    ensures (y - 400 * era) / k == y / k - n * era
  {
  }

  /** The source's arithmetic is MakeDay, for every year, month and day. */
  lemma DaysFromCivilIsMakeDay(year: int, month: int, day: int)
    requires 1 <= month <= 12
    ensures DaysFromCivil(year, month, day) == MakeDay(year, month - 1, day)
  {
    LeapDaysOfYear(year);
    EraDays(if month <= 2 then year - 1 else year);
    hide LeapDays, DayFromYear, IsLeapYear;
  }

  // ---------------------------------------------------------------- counting days one by one

  datatype Civil = Civil(year: int, month: int, day: int)

  function DaysInMonth(year: int, month: int): int {
    if month == 2 then (if IsLeapYear(year) then 29 else 28)
    else if month == 4 || month == 6 || month == 9 || month == 11 then 30
    else 31
  }

  predicate IsCivil(c: Civil) {
    1 <= c.month <= 12 && 1 <= c.day <= DaysInMonth(c.year, c.month)
  }

  function NextDay(c: Civil): (n: Civil)
    requires IsCivil(c)
    ensures IsCivil(n)
  {
    if c.day < DaysInMonth(c.year, c.month) then c.(day := c.day + 1)
    else if c.month < 12 then Civil(c.year, c.month + 1, 1)
    else Civil(c.year + 1, 1, 1)
  }

  function PreviousDay(c: Civil): (p: Civil)
    requires IsCivil(c)
    ensures IsCivil(p) && NextDay(p) == c
  {
    if c.day > 1 then c.(day := c.day - 1)
    else if c.month > 1 then Civil(c.year, c.month - 1, DaysInMonth(c.year, c.month - 1))
    else Civil(c.year - 1, 12, 31)
  }

  function Days(c: Civil): int
    requires IsCivil(c)
  {
    DaysFromCivil(c.year, c.month, c.day)
  }

  lemma MakeDayInYear(year: int, month: int, day: int)
    requires 0 <= month < 12
    ensures MakeDay(year, month, day) == DayFromYear(year) + DaysBeforeMonth(month, IsLeapYear(year)) + day - 1
  {
    assert month / 12 == 0 && month % 12 == month;
  }

  lemma MonthLengths(year: int, month: int)
    requires 1 <= month <= 12
    ensures month < 12 ==>
              DaysBeforeMonth(month, IsLeapYear(year)) ==
                DaysBeforeMonth(month - 1, IsLeapYear(year)) + DaysInMonth(year, month)
    ensures month == 12 ==>
              DaysBeforeMonth(11, IsLeapYear(year)) + DaysInMonth(year, 12) == if IsLeapYear(year) then 366 else 365
    ensures DaysBeforeMonth(0, IsLeapYear(year)) == 0
    ensures 0 <= DaysBeforeMonth(month - 1, IsLeapYear(year))
    ensures DaysBeforeMonth(month - 1, IsLeapYear(year)) + DaysInMonth(year, month) <=
            if IsLeapYear(year) then 366 else 365
  {
    hide IsLeapYear;
  }

  /** A date lies between the starts of its year and the next. */
  lemma DaysWithinYear(c: Civil)
    requires IsCivil(c)
    ensures Days(c) == DayFromYear(c.year) + DaysBeforeMonth(c.month - 1, IsLeapYear(c.year)) + c.day - 1
    ensures DayFromYear(c.year) <= Days(c) < DayFromYear(c.year + 1)
  {
    DaysFromCivilIsMakeDay(c.year, c.month, c.day);
    MakeDayInYear(c.year, c.month - 1, c.day);
    LeapDaysOfYear(c.year);
    MonthLengths(c.year, c.month);
    hide LeapDays, DayFromYear, DaysFromCivil, MakeDay, IsLeapYear, DaysBeforeMonth, DaysInMonth;
  }

  /** Together with the epoch this fixes `daysFromCivil` on every date: it counts days. */
  lemma NextDayIsOneMore(c: Civil)
    requires IsCivil(c)
    ensures Days(NextDay(c)) == Days(c) + 1
  {
    hide Days, LeapDays, DayFromYear, IsLeapYear, DaysBeforeMonth, DaysInMonth;
    var n := NextDay(c);
    DaysWithinYear(c);
    DaysWithinYear(n);
    MonthLengths(c.year, c.month);
    if c.day < DaysInMonth(c.year, c.month) {
      assert n == c.(day := c.day + 1);
    } else if c.month < 12 {
      assert n == Civil(c.year, c.month + 1, 1);
    } else {
      assert n == Civil(c.year + 1, 1, 1);
      LeapDaysOfYear(c.year);
      MonthLengths(n.year, 1);
    }
  }

  lemma EpochIsDayZero()
    ensures Days(Civil(1970, 1, 1)) == 0
  {
  }

  /** The date of a day: what the UTC getters of a Date return. */
  function CivilOf(days: int): (c: Civil)
    ensures IsCivil(c)
    decreases if days < 0 then -days else days
  {
    if days == 0 then Civil(1970, 1, 1)
    else if days > 0 then NextDay(CivilOf(days - 1))
    else PreviousDay(CivilOf(days + 1))
  }

  lemma {:induction false} CivilOfDays(days: int)
    ensures Days(CivilOf(days)) == days
    decreases if days < 0 then -days else days
  {
    hide Days;
    if days == 0 {
      EpochIsDayZero();
    } else if days > 0 {
      CivilOfDays(days - 1);
      NextDayIsOneMore(CivilOf(days - 1));
    } else {
      CivilOfDays(days + 1);
      NextDayIsOneMore(CivilOf(days));
    }
  }

  lemma {:induction false} DayFromYearMonotone(a: int, b: int)
    requires a <= b
    ensures DayFromYear(a) + 365 * (b - a) <= DayFromYear(b) <= DayFromYear(a) + 366 * (b - a)
    decreases b - a
  {
    if a < b {
      DayFromYearMonotone(a, b - 1);
      LeapDaysOfYear(b - 1);
    }
  }

  /** The year of a day is at least `year` exactly from that year's first day on. */
  lemma YearOfDay(days: int, year: int)
    ensures CivilOf(days).year >= year <==> days >= DayFromYear(year)
  {
    CivilOfDays(days);
    var c := CivilOf(days);
    DaysWithinYear(c);
    if c.year >= year {
      DayFromYearMonotone(year, c.year);
    } else {
      DayFromYearMonotone(c.year + 1, year);
    }
  }
}
