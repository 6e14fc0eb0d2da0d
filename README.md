# Age calculator: validation and age arithmetic

A Dafny model of the logic of the age calculator's `src/script.js`. A user types
a birth day, month and year. The submit handler clears the three error messages
and range-checks each field independently. If all three pass, it checks that
the triple is a real calendar date. It then rejects a birth date later than
today. Otherwise it computes the age in years, months and days: it subtracts
fields, borrows the length of the month before today's month when the day
difference is negative, and borrows twelve months from the years when the month
difference is negative.

The script takes its calendar facts from JavaScript's `Date`. The model spells
them out:

- `Calendar.Normalize` and `Calendar.MakeDay` give the field normalisation that
  `new Date(y, m, d)` applies. This is MakeDay of ECMA-262 (section 21.4.1),
  proleptic Gregorian, stepped one month at a time instead of through epoch
  day numbers.
- `Calendar.ConstructorYear` gives the constructor's reading of years 0..99 as
  1900..1999 (section 21.4.2.1 of ECMA-262).
- `DaysInMonth` and `IsValidDate` are defined the way the script computes them.
  `DaysInMonth` is "day 0 of the next month". `IsValidDate` is "the built date
  gives back the same fields". Lemmas prove that both agree with the Gregorian
  month-length table `MonthLength`.

Files:

- `calendar.dfy`: dates, leap years, normalisation, `daysInMonth`, `isValidDate`.
- `age.dfy`: `calculateAge` as a method, proved equal to `ElapsedAge`.
  `ElapsedAge` recasts the month borrow as a division: the whole months
  elapsed are split into years and months. Its days are the code's day
  difference with the day borrow. The independent meaning of the result comes
  from `ElapsedAgeRecomposes`: adding the age back onto the birth date, with
  `Date` normalisation, gives today.
- `form.dfy`: the three error slots as fields of the class `AgeForm`, with
  `resetErrors`, `validateInputs` and the submit handler. Pure functions give
  the messages each of them leaves.

Dates are `(year, month, day)` with a 0-based month, as `getFullYear()`,
`getMonth()` and `getDate()` report them. The validator takes the 1-based month
the user types, as the script does. A field that `parseInt` could not read is
`Number.NaN`. It fails its own range check.

The days of the age can be negative; they are not always non-negative.
`ElapsedAge` states exactly when they are negative: when the birth day minus
today's day exceeds the length of the month before today's month.
`Age.NegativeDaysExample` shows one case. Born on 31 January 2000, on 1 March
2024 the age is 24 years, 1 month and -1 days. The model follows the code.

## Model

| member | source | states |
|---|---|---|
| Calendar.MonthLength | src/script.js:145 | every Gregorian month has 28 to 31 days, and only February has fewer than 30 |
| Calendar.Normalize | src/script.js:106 | the result is always a real date, and a date that is already real is left unchanged (which date an out-of-range day number lands on is fixed by the body and by Calendar.DayZeroIsMonthLength and Age.NormalizeIntoNextMonth, not by this contract) |
| Calendar.MakeDay | src/script.js:106 | `new Date` fields are always a real date; a real (year, month index, day) is returned unchanged |
| Calendar.IsAfter | src/script.js:38 | `birthDate > today` on real dates: ordered as a key that grows with year, then month, then day |
| Calendar.ConstructorYear | src/script.js:34 | the year the `Date` constructor uses is never in 0..99, and equals the given year outside 0..99 |
| Calendar.NewDate | src/script.js:106 | `new Date(y, m, d)` is always a real date, and outside years 0..99 a real (y, m, d) comes back unchanged |
| Calendar.DaysInMonth | src/script.js:144-146 | `daysInMonth(m, y)` is the Gregorian length of month `m mod 12` of year `Y + floor(m/12)`, where Y is y outside 0..99 and 1900 + y inside; always in 28..31 |
| Calendar.DayZeroIsMonthLength | src/script.js:145 | day 0 of the month after m is the last day of m, for every month index, with the month carried into the year |
| Calendar.FebruaryLength | src/script.js:144-146 | outside years 0..99, February has 29 days exactly in leap years (divisible by 4 and not by 100, or by 400), else 28 |
| Calendar.MonthBeforeJanuary | src/script.js:125 | month index -1, which the January case passes, wraps to December of the year before: 31 days |
| Calendar.DaysInMonthExamples | src/script.js:144-146 | February 2000 has 29 days, February 2001 and 1900 have 28, April 2024 has 30 |
| Calendar.IsValidDateIff | src/script.js:105-108 | outside years 0..99, `isValidDate(d, m, y)` holds exactly when 1 <= m <= 12 and 1 <= d <= the month's length (equivalently `daysInMonth(m-1, y)`) |
| Calendar.IsValidDate | src/script.js:105-108 | a triple that passes has a month in 1..12, a day in 1..31 and a year outside 0..99 (the constructor turns such a year into 1900 + year) |
| Calendar.IsValidDateExamples | src/script.js:105-108 | 31 April 2000 and 29 February 2001 are rejected; 29 February 2000 is accepted |
| Age.ElapsedAge | src/script.js:117-135 | months in 0..11 and days <= 30; 12 * years + months is the number of whole months elapsed, a month counting once today's day reaches the birth day; days >= 0 exactly when birth day - today's day <= the preceding month's length |
| Age.CalculateAge | src/script.js:117-135 | the field subtraction with the day borrow and the month borrow computes exactly `ElapsedAge` |
| Age.ElapsedAgeRecomposes | src/script.js:117-135 | adding the age's years and months and then its days to the birth date, with `Date` normalisation, gives back today |
| Age.RecomposeAfterBorrow | src/script.js:123-126 | after a day borrow, the month before today's month plus today's day plus that month's length is today |
| Age.ElapsedAgeYearsNonNegative | src/script.js:118-134 | a birth date no later than today has years >= 0 |
| Age.ElapsedAgeSameDay | src/script.js:117-135 | born today gives 0 years, 0 months, 0 days |
| Age.ElapsedAgeDaysNonNegative | src/script.js:122-126 | when the birth day fits in the month before today's month, days lie in 0..30 and years are non-negative |
| Age.NegativeDaysExample | src/script.js:122-126 | born 31 January 2000, on 1 March 2024 the result is 24 years, 1 month, -1 days |
| Age.CalculateAgeExamples | src/script.js:117-135 | 2000-05-15 to 2024-05-15 is 24y 0m 0d; 2000-05-20 to 2024-05-15 is 23y 11m 25d; 2000-12-31 to 2024-01-01 is 23y 0m 1d |
| Form.Errors | src/script.js:67-95 | the month and year slots get a message exactly when their own range check fails; the day slot exactly when its range check fails or, all three passing, the date is not real; no message at all exactly when the inputs are valid |
| Form.InputsValid | src/script.js:67-95 | `validateInputs` returns true only for numbers with a year in 1000..current year, a month in 1..12 and a day within that month's Gregorian length |
| Form.BirthDate | src/script.js:34 | the birth date built from a real date outside years 0..99 has exactly the entered fields |
| Form.Accepted | src/script.js:31-44 | an age is shown only for valid inputs whose date, as entered, is not after today |
| Form.SubmitMessages | src/script.js:19-48 | after a submission no slot holds a message exactly when an age is shown; a valid date after today leaves only the year slot's "Date must be in the past"; invalid inputs leave the validator's messages |
| Form.ValidInputsNameBirthDate | src/script.js:34 | valid inputs build the birth date with exactly the entered fields, its day within `daysInMonth` |
| Form.AcceptedIff | src/script.js:31-44 | an age is shown exactly for a real date from year 1000 on that is not later than today |
| Form.AcceptedAgeYears | src/script.js:38-44 | an accepted birth date gets years >= 0, and (0, 0, 0) when born today |
| Form.ValidationExamples | src/script.js:70-92 | (31, 4, 2000) and (29, 2, 2001) get only the day's "not valid" message; (29, 2, 2000) gets none; NaN day, month 13 and year 999 get all three range messages |
| Form.AgeForm.constructor | src/script.js:8-10 | the three error slots start empty |
| Form.AgeForm.ResetErrors | src/script.js:53-57 | all three slots are cleared |
| Form.AgeForm.ValidateInputs | src/script.js:67-95 | returns true exactly for valid inputs; each slot holds that check's message if it failed, else its old text; on cleared slots, true exactly when all three stay empty |
| Form.AgeForm.Submit | src/script.js:19-48 | shows an age exactly when accepted, and then the age is `ElapsedAge(birth, today)`; the slots end as `SubmitMessages` says |

## Left out

- The result panel is never hidden again once `displayResult` has shown it (src/script.js:160): a rejected submission after an accepted one leaves the previous age on screen. `Submit` returning None means no new age is computed, not that no age is visible; the model does not track the panel's text or visibility.
- Looking up the DOM elements, rendering the age (`displayResult`, src/script.js:155-161) and the `hidden` class: `Submit` returns the age it would display.
- The event listener and `preventDefault` (src/script.js:19-20).
- `parseInt` on the raw field text (src/script.js:26-28): the model takes its result, an integer or NaN.
- The clock (src/script.js:35, 83): `today` is a parameter, and the year check uses `today.year`. The two clock reads could straddle midnight on New Year's Eve; the model reads the clock once.
- Time of day, milliseconds and time zones of `Date`: the birth date is built at local midnight and `today` is "now". Comparing them is therefore comparing calendar days, which `Calendar.IsAfter` does.
- The `Date` range limit of about 275,000 years either side of 1970: validated years lie in 1000..current year, so it is never reached.
- The initial text of the error elements comes from the page's HTML, which is not part of this model; the constructor starts them empty.
- Age.ElapsedAgeRecomposes: stated only when today's year is outside 0..99, because `daysInMonth` reads such a year as 19xx and the recomposition then need not hold.
