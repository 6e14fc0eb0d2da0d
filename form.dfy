/** The age form: the three error messages shown under the day, month and year
    fields, `resetErrors`, `validateInputs`, and the submit handler that runs
    reset, validation, the not-in-the-future check and the age calculation. */
module Form {
  import opened Calendar
  import opened Age

  datatype Option<T> = None | Some(value: T)

  /** What `parseInt` gives for a field: an integer, or NaN for text that is
      not a number (an empty field among them). */
  datatype Number = NaN | Int(value: int)

  /** The texts of the three error slots; "" is an empty slot. */
  datatype Messages = Messages(day: string, month: string, year: string)

  const NoMessages := Messages("", "", "")

  const DayRangeMessage := "Please enter a valid day between 1 and 31."
  const MonthRangeMessage := "Please enter a valid month between 1 and 12."
  const YearRangeMessage := "Please enter a valid year."
  const InvalidDateMessage := "The date entered is not valid."
  const FutureDateMessage := "Date must be in the past"

  predicate DayFails(day: Number)
  {
    day.NaN? || day.value < 1 || day.value > 31
  }

  predicate MonthFails(month: Number)
  {
    month.NaN? || month.value < 1 || month.value > 12
  }

  predicate YearFails(year: Number, currentYear: int)
  {
    year.NaN? || year.value > currentYear || year.value < 1000
  }

  predicate RangeChecksPass(day: Number, month: Number, year: Number, currentYear: int)
  {
    !DayFails(day) && !MonthFails(month) && !YearFails(year, currentYear)
  }

  /** What `validateInputs` returns. */
  predicate InputsValid(day: Number, month: Number, year: Number, currentYear: int)
    ensures InputsValid(day, month, year, currentYear) ==>
              day.Int? && month.Int? && year.Int? &&
              1000 <= year.value <= currentYear && 1 <= month.value <= 12 &&
              1 <= day.value <= MonthLength(month.value - 1, year.value)
  {
    RangeChecksPass(day, month, year, currentYear) &&
    (IsValidDateIff(day.value, month.value, year.value);
     IsValidDate(day.value, month.value, year.value))
  }

  /** The messages `validateInputs` writes, "" where it leaves a slot alone.
      Each range check speaks only of its own field and of no other; the
      calendar check speaks only in the day slot, and only once all three
      range checks passed; the inputs are valid exactly when nothing is written. */
  function Errors(day: Number, month: Number, year: Number, currentYear: int): (e: Messages)
    ensures e.month != "" <==> MonthFails(month)
    ensures e.year != "" <==> YearFails(year, currentYear)
    ensures e.day != "" <==>
              DayFails(day) ||
              (RangeChecksPass(day, month, year, currentYear) &&
               !IsValidDate(day.value, month.value, year.value))
    ensures e.day == InvalidDateMessage ==> !MonthFails(month) && !YearFails(year, currentYear)
    ensures e == NoMessages <==> InputsValid(day, month, year, currentYear)
  {
    Messages(
      if DayFails(day) then DayRangeMessage
      else if RangeChecksPass(day, month, year, currentYear) &&
              !IsValidDate(day.value, month.value, year.value)
      then InvalidDateMessage
      else "",
      if MonthFails(month) then MonthRangeMessage else "",
      if YearFails(year, currentYear) then YearRangeMessage else "")
  }

  /** The birth date the submit handler builds from valid inputs. */
  function BirthDate(day: Number, month: Number, year: Number): (birth: CalendarDate)
    requires day.Int? && month.Int? && year.Int?
    ensures !(0 <= year.value <= 99) && IsCanonical(Date(year.value, month.value - 1, day.value)) ==>
              birth == Date(year.value, month.value - 1, day.value)
  {
    NewDate(year.value, month.value - 1, day.value)
  }

  /** The submit handler shows an age: the inputs are valid and the birth date
      is not later than today. */
  predicate Accepted(day: Number, month: Number, year: Number, today: CalendarDate)
    ensures Accepted(day, month, year, today) ==>
              InputsValid(day, month, year, today.year) &&
              !IsAfter(Date(year.value, month.value - 1, day.value), today)
  {
    InputsValid(day, month, year, today.year) &&
    !IsAfter(BirthDate(day, month, year), today)
  }

  /** The error slots after a submission: those of `validateInputs` on cleared
      slots, and the future-date message in the year slot when a valid birth
      date lies after today. */
  function SubmitMessages(day: Number, month: Number, year: Number, today: CalendarDate): (e: Messages)
    ensures e == NoMessages <==> Accepted(day, month, year, today)
    ensures InputsValid(day, month, year, today.year) &&
            IsAfter(BirthDate(day, month, year), today) ==>
              e == Messages("", "", FutureDateMessage)
    ensures !InputsValid(day, month, year, today.year) ==> e == Errors(day, month, year, today.year)
  {
    if InputsValid(day, month, year, today.year) && IsAfter(BirthDate(day, month, year), today)
    then Errors(day, month, year, today.year).(year := FutureDateMessage)
    else Errors(day, month, year, today.year)
  }

  /** Valid inputs name their own date: the birth date has exactly the
      entered day, month and year, and the day fits in that month. */
  lemma ValidInputsNameBirthDate(day: Number, month: Number, year: Number, currentYear: int)
    requires InputsValid(day, month, year, currentYear)
    ensures BirthDate(day, month, year) == Date(year.value, month.value - 1, day.value)
    ensures 1 <= day.value <= DaysInMonth(month.value - 1, year.value)
  {
    IsValidDateIff(day.value, month.value, year.value);
  }

  /** The submission shows an age exactly for a real calendar date from the
      year 1000 on that is not later than today. The upper bound of the year
      check and the 31 of the day check are then implied. */
  lemma AcceptedIff(day: int, month: int, year: int, today: CalendarDate)
    ensures Accepted(Int(day), Int(month), Int(year), today) <==>
              1000 <= year && 1 <= month <= 12 && 1 <= day <= MonthLength(month - 1, year) &&
              !IsAfter(Date(year, month - 1, day), today)
  {
    if 1000 <= year {
      IsValidDateIff(day, month, year);
      if InputsValid(Int(day), Int(month), Int(year), today.year) {
        ValidInputsNameBirthDate(Int(day), Int(month), Int(year), today.year);
      }
    }
  }

  /** An accepted birth date gets an age of non-negative years and months
      in 0..11, and no years when born today. */
  lemma AcceptedAgeYears(day: Number, month: Number, year: Number, today: CalendarDate)
    requires Accepted(day, month, year, today)
    ensures ElapsedAge(BirthDate(day, month, year), today).years >= 0
    ensures BirthDate(day, month, year) == today ==>
              ElapsedAge(BirthDate(day, month, year), today) == AgeResult(0, 0, 0)
  {
    ElapsedAgeYearsNonNegative(BirthDate(day, month, year), today);
    ElapsedAgeSameDay(today);
  }

  lemma ValidationExamples(today: CalendarDate)
    requires today.year >= 2001
    ensures Errors(Int(31), Int(4), Int(2000), today.year) == Messages(InvalidDateMessage, "", "")
    ensures Errors(Int(29), Int(2), Int(2001), today.year) == Messages(InvalidDateMessage, "", "")
    ensures Errors(Int(29), Int(2), Int(2000), today.year) == NoMessages
    ensures Errors(NaN, Int(13), Int(999), today.year) ==
              Messages(DayRangeMessage, MonthRangeMessage, YearRangeMessage)
  {
    IsValidDateExamples();
    assert RangeChecksPass(Int(31), Int(4), Int(2000), today.year);
    assert RangeChecksPass(Int(29), Int(2), Int(2001), today.year);
    assert RangeChecksPass(Int(29), Int(2), Int(2000), today.year);
    assert DayFails(NaN) && MonthFails(Int(13)) && YearFails(Int(999), today.year);
  }

  /** The document's three error elements. */
  class AgeForm {
    var dayError: string
    var monthError: string
    var yearError: string

    function Shown(): Messages
      reads this
    {
      Messages(dayError, monthError, yearError)
    }

    constructor ()
      ensures Shown() == NoMessages
    {
      dayError, monthError, yearError := "", "", "";
    }

    /** `resetErrors`: clear all three slots. */
    method ResetErrors()
      modifies this
      ensures Shown() == NoMessages
    {
      dayError := "";
      monthError := "";
      yearError := "";
    }

    /** `validateInputs(day, month, year)`: the three range checks one after
        the other, then the calendar check if all three passed. Every failing
        check writes its slot; a slot nothing writes keeps its text. */
    method ValidateInputs(day: Number, month: Number, year: Number, currentYear: int)
      returns (isValid: bool)
      modifies this
      ensures isValid <==> InputsValid(day, month, year, currentYear)
      ensures var e := Errors(day, month, year, currentYear);
              dayError == (if e.day == "" then old(dayError) else e.day) &&
              monthError == (if e.month == "" then old(monthError) else e.month) &&
              yearError == (if e.year == "" then old(yearError) else e.year)
      ensures old(Shown()) == NoMessages ==> (isValid <==> Shown() == NoMessages)
    {
      isValid := true;

      if day.NaN? || day.value < 1 || day.value > 31 {
        dayError := DayRangeMessage;
        isValid := false;
      }

      if month.NaN? || month.value < 1 || month.value > 12 {
        monthError := MonthRangeMessage;
        isValid := false;
      }

      if year.NaN? || year.value > currentYear || year.value < 1000 {
        yearError := YearRangeMessage;
        isValid := false;
      }

      if isValid && !IsValidDate(day.value, month.value, year.value) {
        dayError := InvalidDateMessage;
        isValid := false;
      }
    }

    /** The submit handler, with `today` for the clock (its year is the
        current year of the year check). It returns the age it displays, or
        None when it stops at a message. */
    method Submit(day: Number, month: Number, year: Number, today: CalendarDate)
      returns (shown: Option<AgeResult>)
      modifies this
      ensures shown.Some? <==> Accepted(day, month, year, today)
      ensures shown.Some? ==> shown.value == ElapsedAge(BirthDate(day, month, year), today)
      ensures Shown() == SubmitMessages(day, month, year, today)
    {
      ResetErrors();

      var isValid := ValidateInputs(day, month, year, today.year);
      if !isValid {
        return None;
      }

      var birthDate := NewDate(year.value, month.value - 1, day.value);
      if IsAfter(birthDate, today) {
        yearError := FutureDateMessage;
        return None;
      }

      var age := CalculateAge(birthDate, today);
      return Some(age);
    }
  }
}
