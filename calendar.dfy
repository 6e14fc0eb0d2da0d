/** Calendar facts the age calculator takes from JavaScript's `Date`:
    the proleptic Gregorian month lengths, the normalisation that `new Date(y, m, d)`
    applies to out-of-range month and day numbers (MakeDay, ECMA-262 section 21.4.1),
    and the two helpers of the script built on it, `daysInMonth` and `isValidDate`. */
module Calendar {

  /** A date as a `Date` object reports it in local time: `getFullYear()`,
      `getMonth()` (0 is January, 11 is December) and `getDate()`. */
  datatype Date = Date(year: int, month: int, day: int)

  /** The Gregorian leap-year rule. Dafny's `%` agrees with the mathematical
      modulo of ECMA-262 for the positive divisors used here, also for negative years. */
  predicate IsLeapYear(year: int)
  {
    (year % 4 == 0 && year % 100 != 0) || year % 400 == 0
  }

  /** Number of days of the 0-based month `month` of `year`. */
  function MonthLength(month: int, year: int): (n: int)
    requires 0 <= month < 12
    ensures 28 <= n <= 31
    ensures n < 30 <==> month == 1
  {
    if month == 1 then (if IsLeapYear(year) then 29 else 28)
    else if month == 3 || month == 5 || month == 8 || month == 10 then 30
    else 31
  }

  /** The date names a real day: what every `Date` object's fields satisfy. */
  predicate IsCanonical(d: Date)
  {
    0 <= d.month < 12 && 1 <= d.day <= MonthLength(d.month, d.year)
  }

  type CalendarDate = d: Date | IsCanonical(d) witness Date(1970, 0, 1)

  /** Increases with the date for real dates, as the time value of a date's
      local midnight does. */
  function DayKey(d: Date): int
  {
    (12 * d.year + d.month) * 32 + d.day
  }

  /** Strict chronological order of dates: `a` is a later day than `b`. */
  predicate IsAfter(a: Date, b: Date)
    ensures IsCanonical(a) && IsCanonical(b) ==> (IsAfter(a, b) <==> DayKey(a) > DayKey(b))
  {
    a.year > b.year ||
    (a.year == b.year && (a.month > b.month || (a.month == b.month && a.day > b.day)))
  }

  /** Day number `day` counted from the first of `month` of `year` (day 0 is the
      last day of the month before, day 32 of a 31-day month the first of the month
      after), as the date it falls on. Steps one month at a time. */
  function Normalize(year: int, month: int, day: int): (r: Date)
    requires 0 <= month < 12
    ensures IsCanonical(r)
    ensures IsCanonical(Date(year, month, day)) ==> r == Date(year, month, day)
    decreases if day < 1 then 1 - day else 0, day
  {
    if day < 1 then
      if month == 0 then Normalize(year - 1, 11, day + MonthLength(11, year - 1))
      else Normalize(year, month - 1, day + MonthLength(month - 1, year))
    else if day > MonthLength(month, year) then
      if month == 11 then Normalize(year + 1, 0, day - MonthLength(11, year))
      else Normalize(year, month + 1, day - MonthLength(month, year))
    else
      Date(year, month, day)
  }

  /** MakeDay: a month index outside 0..11 moves whole years (by floor division,
      which is Dafny's `/` for a positive divisor), then the day is normalised. */
  function MakeDay(year: int, month: int, day: int): (r: CalendarDate)
    ensures IsCanonical(Date(year, month, day)) ==> r == Date(year, month, day)
  {
    Normalize(year + month / 12, month % 12, day)
  }

  /** The `Date` constructor reads a year between 0 and 99 as 1900 + year
      (ECMA-262 section 21.4.2.1). */
  function ConstructorYear(year: int): (y: int)
    ensures !(0 <= y <= 99)
    ensures !(0 <= year <= 99) ==> y == year
  {
    if 0 <= year <= 99 then 1900 + year else year
  }

  /** `new Date(year, monthIndex, day)`, without the time of day. */
  function NewDate(year: int, monthIndex: int, day: int): (d: CalendarDate)
    ensures !(0 <= year <= 99) && IsCanonical(Date(year, monthIndex, day)) ==>
              d == Date(year, monthIndex, day)
  {
    MakeDay(ConstructorYear(year), monthIndex, day)
  }

  /** `daysInMonth(month, year)`: the date of day 0 of the month after `month`. */
  function DaysInMonth(month: int, year: int): (n: int)
    ensures n == MonthLength(month % 12, ConstructorYear(year) + month / 12)
    ensures 28 <= n <= 31
  {
    DayZeroIsMonthLength(month, year);
    NewDate(year, month + 1, 0).day
  }

  /** `isValidDate(day, month, year)` with a 1-based `month`: building the date
      gives back the same three fields. */
  predicate IsValidDate(day: int, month: int, year: int)
    ensures IsValidDate(day, month, year) ==>
              1 <= month <= 12 && 1 <= day <= 31 && !(0 <= year <= 99)
  {
    var testDate := NewDate(year, month - 1, day);
    testDate.year == year && testDate.month == month - 1 && testDate.day == day
  }

  /** Splitting a month count into years and a month index: if
      12 * a + k == 12 * b + j with j a month index, then MakeDay's year and month
      for (a, k) are b and j. */
  lemma MonthCarry(a: int, k: int, b: int, j: int)
    requires 0 <= j < 12
    requires 12 * a + k == 12 * b + j
    ensures a + k / 12 == b && k % 12 == j
  {
    var q, r := k / 12, k % 12;
    assert k == 12 * q + r && 0 <= r < 12;
    assert 12 * (a + q - b) == j - r;
  }

  /** Day 0 of the month after `month` is the last day of `month`: for every
      month index, -1 being December of the year before and 12 January of the
      year after. */
  lemma DayZeroIsMonthLength(month: int, year: int)
    ensures NewDate(year, month + 1, 0).day == MonthLength(month % 12, ConstructorYear(year) + month / 12)
  {
    var y := ConstructorYear(year);
    var next := month + 1;
    var ny, nm := y + next / 12, next % 12;
    if nm == 0 {
      MonthCarry(y, month, ny - 1, 11);
      assert Normalize(ny, 0, 0) == Normalize(ny - 1, 11, MonthLength(11, ny - 1));
    } else {
      MonthCarry(y, month, ny, nm - 1);
      assert Normalize(ny, nm, 0) == Normalize(ny, nm - 1, MonthLength(nm - 1, ny));
    }
  }

  /** February (index 1) has 29 days exactly in Gregorian leap years, else 28. */
  lemma FebruaryLength(year: int)
    requires !(0 <= year <= 99)
    ensures DaysInMonth(1, year) == 29 <==> IsLeapYear(year)
    ensures DaysInMonth(1, year) == 28 <==> !IsLeapYear(year)
  {
  }

  /** Index -1, which `calculateAge` passes in January, is December of the year
      before: 31 days. */
  lemma MonthBeforeJanuary(year: int)
    ensures DaysInMonth(-1, year) == 31
  {
  }

  lemma DaysInMonthExamples()
    ensures DaysInMonth(1, 2000) == 29
    ensures DaysInMonth(1, 2001) == 28
    ensures DaysInMonth(1, 1900) == 28
    ensures DaysInMonth(3, 2024) == 30
  {
    assert IsLeapYear(2000) && !IsLeapYear(2001) && !IsLeapYear(1900);
    FebruaryLength(2000);
    FebruaryLength(2001);
    FebruaryLength(1900);
  }

  /** Outside the two-digit years, `isValidDate` accepts exactly the triples that
      name a real day: a month from 1 to 12 and a day from 1 to that month's length. */
  lemma IsValidDateIff(day: int, month: int, year: int)
    requires !(0 <= year <= 99)
    ensures IsValidDate(day, month, year) <==>
              1 <= month <= 12 && 1 <= day <= MonthLength(month - 1, year)
    ensures 1 <= month <= 12 ==>
              (IsValidDate(day, month, year) <==> 1 <= day <= DaysInMonth(month - 1, year))
  {
    var testDate := NewDate(year, month - 1, day);
    assert ConstructorYear(year) == year;
    if IsValidDate(day, month, year) {
      assert testDate == Date(year, month - 1, day);
    }
    if 1 <= month <= 12 {
      MonthCarry(year, month - 1, year, month - 1);
    }
  }

  lemma IsValidDateExamples()
    ensures !IsValidDate(31, 4, 2000)
    ensures !IsValidDate(29, 2, 2001)
    ensures IsValidDate(29, 2, 2000)
  {
    IsValidDateIff(31, 4, 2000);
    IsValidDateIff(29, 2, 2001);
    IsValidDateIff(29, 2, 2000);
  }
}
