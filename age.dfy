/** The age arithmetic of `calculateAge`: differences of the year, month and
    day fields, with a day borrow (the length of the month before today's month)
    and a month borrow (twelve months from the years). */
module Age {
  import opened Calendar

  datatype AgeResult = AgeResult(years: int, months: int, days: int)

  /** Whether `today` falls before the monthly anniversary of `birth` in
      today's month: the day difference must borrow a month. */
  predicate BorrowsMonth(birth: Date, today: Date)
  {
    today.day < birth.day
  }

  /** Number of whole months from `birth` to `today`, a month counting once
      today's day reaches the birth day (negative when `birth` is later). */
  function WholeMonths(birth: Date, today: Date): int
  {
    12 * (today.year - birth.year) + (today.month - birth.month)
      - (if BorrowsMonth(birth, today) then 1 else 0)
  }

  /** The day difference of `calculateAge` after its day borrow: today's day
      minus the birth day, plus the length of the month before today's month
      (as `daysInMonth` gives it) when that difference is negative. */
  function BorrowedDayDifference(birth: Date, today: Date): int
  {
    if BorrowsMonth(birth, today)
    then DaysInMonth(today.month - 1, today.year) - birth.day + today.day
    else today.day - birth.day
  }

  /** The age `calculateAge` reports, with its month borrow recast as a
      division: the whole months split into years and a month remainder, and
      the code's day difference with the day borrow. The days are negative
      exactly when the birth day minus today's day exceeds the length of the
      month before today's month. What the result means independently of the
      code is stated by ElapsedAgeRecomposes. */
  function ElapsedAge(birth: CalendarDate, today: CalendarDate): (age: AgeResult)
    ensures 0 <= age.months <= 11
    ensures age.days <= 30
    ensures 12 * age.years + age.months == WholeMonths(birth, today)
    ensures age.days >= 0 <==> birth.day - today.day <= DaysInMonth(today.month - 1, today.year)
  {
    var whole := WholeMonths(birth, today);
    AgeResult(whole / 12, whole % 12, BorrowedDayDifference(birth, today))
  }

  /** `calculateAge(birthDate, today)`: field differences, then the day borrow,
      then the month borrow. */
  method CalculateAge(birthDate: CalendarDate, today: CalendarDate) returns (age: AgeResult)
    ensures age == ElapsedAge(birthDate, today)
  {
    var ageYears := today.year - birthDate.year;
    var ageMonths := today.month - birthDate.month;
    var ageDays := today.day - birthDate.day;

    if ageDays < 0 {
      ageMonths := ageMonths - 1;
      ageDays := ageDays + DaysInMonth(today.month - 1, today.year);
    }

    if ageMonths < 0 {
      ageYears := ageYears - 1;
      ageMonths := ageMonths + 12;
    }

    assert WholeMonths(birthDate, today) == 12 * ageYears + ageMonths;
    MonthCarry(0, WholeMonths(birthDate, today), ageYears, ageMonths);
    age := AgeResult(ageYears, ageMonths, ageDays);
  }

  /** The age undoes itself: adding its years and months to the birth date and
      then its days, with the normalisation of `new Date`, gives back today.
      (Two-digit years are excluded because `daysInMonth` reads them as 19xx.) */
  lemma ElapsedAgeRecomposes(birth: CalendarDate, today: CalendarDate)
    requires !(0 <= today.year <= 99)
    ensures var age := ElapsedAge(birth, today);
            MakeDay(birth.year + age.years, birth.month + age.months, birth.day + age.days) == today
  {
    var age := ElapsedAge(birth, today);
    var a, k, d := birth.year + age.years, birth.month + age.months, birth.day + age.days;
    if !BorrowsMonth(birth, today) {
      MonthCarry(a, k, today.year, today.month);
      assert d == today.day;
    } else {
      var py, pm := if today.month == 0 then today.year - 1 else today.year,
                    if today.month == 0 then 11 else today.month - 1;
      assert 12 * a + k == 12 * py + pm;
      RecomposeAfterBorrow(a, k, d, today, py, pm);
    }
  }

  /** The borrowing case of ElapsedAgeRecomposes: year and month land on the
      month before today's, and the day, today's day plus that month's length
      as `daysInMonth` gives it, steps into today's month. */
  lemma RecomposeAfterBorrow(a: int, k: int, d: int, today: CalendarDate, py: int, pm: int)
    requires !(0 <= today.year <= 99)
    requires py == (if today.month == 0 then today.year - 1 else today.year)
    requires pm == (if today.month == 0 then 11 else today.month - 1)
    requires 12 * a + k == 12 * py + pm
    requires d == today.day + DaysInMonth(today.month - 1, today.year)
    ensures MakeDay(a, k, d) == today
  {
    MonthCarry(a, k, py, pm);
    MonthCarry(today.year, today.month - 1, py, pm);
    assert d == today.day + MonthLength(pm, py);
    NormalizeIntoNextMonth(py, pm, today.day);
  }

  /** A day number past the end of a month falls in the month after it. */
  lemma NormalizeIntoNextMonth(year: int, month: int, day: int)
    requires 0 <= month < 12
    requires IsCanonical(Date(if month == 11 then year + 1 else year, (month + 1) % 12, day))
    ensures Normalize(year, month, day + MonthLength(month, year))
              == Date(if month == 11 then year + 1 else year, (month + 1) % 12, day)
  {
  }

  /** A birth date no later than today has a non-negative number of years. */
  lemma ElapsedAgeYearsNonNegative(birth: CalendarDate, today: CalendarDate)
    requires !IsAfter(birth, today)
    ensures ElapsedAge(birth, today).years >= 0
  {
    var whole := WholeMonths(birth, today);
    assert whole >= 0;
  }

  /** Born today: zero years, zero months, zero days. */
  lemma ElapsedAgeSameDay(d: CalendarDate)
    ensures ElapsedAge(d, d) == AgeResult(0, 0, 0)
  {
    assert WholeMonths(d, d) == 0;
  }

  /** Days are non-negative whenever the birth day fits in the month before
      today's month; then the age lies in the documented ranges. */
  lemma ElapsedAgeDaysNonNegative(birth: CalendarDate, today: CalendarDate)
    requires !IsAfter(birth, today)
    requires birth.day <= DaysInMonth(today.month - 1, today.year)
    ensures var age := ElapsedAge(birth, today);
            age.years >= 0 && 0 <= age.months <= 11 && 0 <= age.days <= 30
  {
    ElapsedAgeYearsNonNegative(birth, today);
  }

  /** The day borrow can leave a negative day count: born on 31 January 2000,
      on 1 March 2024 the borrow adds only February's 29 days. */
  lemma NegativeDaysExample()
    ensures ElapsedAge(Date(2000, 0, 31), Date(2024, 2, 1)) == AgeResult(24, 1, -1)
  {
    FebruaryLength(2024);
    assert IsLeapYear(2024);
    assert WholeMonths(Date(2000, 0, 31), Date(2024, 2, 1)) == 289;
  }

  lemma CalculateAgeExamples()
    ensures ElapsedAge(Date(2000, 4, 15), Date(2024, 4, 15)) == AgeResult(24, 0, 0)
    ensures ElapsedAge(Date(2000, 4, 20), Date(2024, 4, 15)) == AgeResult(23, 11, 25)
    ensures ElapsedAge(Date(2000, 11, 31), Date(2024, 0, 1)) == AgeResult(23, 0, 1)
  {
    assert WholeMonths(Date(2000, 4, 15), Date(2024, 4, 15)) == 288;
    assert WholeMonths(Date(2000, 4, 20), Date(2024, 4, 15)) == 287;
    MonthBeforeJanuary(2024);
    assert WholeMonths(Date(2000, 11, 31), Date(2024, 0, 1)) == 276;
  }
}
