# Loan comparison: the payment-profile generator

This project models the core of a small loan-comparison page. A loan is:

- a balance;
- an effective interest rate per payment period;
- a payment frequency: weekly, monthly, quarterly or annually;
- a fixed payment amount;
- the date of the next payment, a mutable JavaScript `Date` object.

When the loan object is built, its constructor runs the generator loop. While the balance is positive, each pass:

- charges interest on the balance;
- takes the payment less that interest, capped by the balance, as principal;
- throws "Loan will never be repaid" when that principal is negative;
- otherwise dates the payment, reduces the balance and appends a record.

Payment dates come from the repository's own extensions of `Date`:

- `isLeapYear`, `getDaysInMonth`;
- `addMonths`, which moves the object itself by whole months, clamps the day to the target month and returns the same object;
- `addDays`, which returns a new object some days later.

The modules:

- `Calendar` (`calendar.dfy`):
  - dates as `(year, zero-based month, day)` values;
  - the leap-year rule and the month lengths;
  - day and month arithmetic, with a day numbering that shows `AddDaysTo` moves exactly `days` days;
  - `DateObject`, a class with the mutable fields of a JavaScript date. Its `SetDate`/`SetMonth` setters carry out-of-range values over as JavaScript does. Its `AddMonths` and `AddDays` follow the extensions statement by statement.
- `Amortization` (`amortization.dfy`):
  - the payment frequencies, and the record of one payment;
  - what one pass computes (`FollowsFrom`, `PassAt`);
  - what a finished or failing run of the loop has produced (`IsSchedule`, `FailsAfter`);
  - the date each pass records (`PaymentDate`, `DriftedDate`) and the lemmas about all of these.
- `Loan` (`loan.dfy`): the `LoanInformation` class.
  - Its `GetPaymentProfile` is the generator's `while` loop. It is proved against the predicates of `Amortization` and mutates the stored date object as the program does.
  - `Create` is the constructor as the program runs it. It stores the inputs, then generates the profile or fails.

Month-stepping dates drift. Pass `i` calls the mutating `addMonths(i * months)` on the stored object, so the offsets accumulate (0, 1, 3, 6, … months for a monthly loan). The clamped day also carries into every later pass. From 31 January 2024, a monthly loan pays on 31 January, 29 February, then 29 April, not 31 March. The model follows that code:

- `DriftedDate`, `DriftOffsetClosedForm` and `PaymentsDriftFromThirdOn` state where the payments actually fall;
- `MonthlyFromJanuary31` shows the clamp into February;
- weekly dates do not drift, because `addDays` works on a copy.

Building a loan therefore leaves the caller's date object moved for a month-stepping loan: `Create` states that afterwards it holds the last recorded payment date. A second loan built from the same object starts from that later date.

## Model

| member | source | states |
|---|---|---|
| Amortization.PaymentFrequency.Code | index.js:17-22 | The enumeration's values: only Weekly has code 0, and every other code (1, 3, 12) is a whole number of months dividing a year. |
| Calendar.IsLeapYear | index.js:109-111 | A leap year is a multiple of 4. Outside century years, every multiple of 4 is a leap year; a century year is a leap year exactly when it is a multiple of 400. |
| Calendar.DaysInMonth | index.js:113-115 | Every month has between 28 and 31 days. |
| Calendar.DaysInMonthTable | index.js:113-115 | February has 29 days exactly in leap years and 28 otherwise; January, March, May, July, August, October and December have 31 days; April, June, September and November have 30. |
| Calendar.LeapYearCycle | index.js:109-111 | The leap-year rule repeats every 400 years, and 400 years hold 146097 days. |
| Calendar.NextDay | index.js:133-137 | The day after a valid date is a valid date whose day number is one more. This is the carry `setDate` performs past the month's end. |
| Calendar.PrevDay | index.js:133-137 | The day before a valid date is a valid date whose day number is one less. |
| Calendar.AddDaysTo | index.js:133-137 | Moving a valid date by `days` gives a valid date exactly `days` day numbers later (or earlier). |
| Calendar.DayNumberInjective | index.js:133-137 | Two valid dates with the same day number are the same date, so a date `k` days later is unique. |
| Calendar.AddMonthsTo | index.js:125-131 | Moving a valid date by whole months gives a valid date whose month index is exactly that many months later, so month overflow carries into the year. Its day is the original day, or the last day of the target month when the original does not fit, and never later than the original. |
| Calendar.AddMonthsZero | index.js:125-131 | Moving a valid date by zero months leaves it unchanged. |
| Calendar.AddMonthsRoundTrip | index.js:125-131 | For a day that every month has (at most 28), no clamping happens: moving by `n` months and back by `n` returns the original date. |
| Calendar.DateObject.constructor | index.js:134 | A new date object holds exactly the given date. |
| Calendar.DateObject.SetDate | index.js:127-129 | `setDate(n)` leaves the object on the day `n - 1` days after the first of its month. For `n` within the month, that is day `n` of the same month. |
| Calendar.DateObject.SetMonth | index.js:128 | `setMonth(m)` moves to month `m` of the year, carrying out-of-range months into the year, and keeps the day offset from the first of the month. From day 1 it lands on day 1 of the target month. |
| Calendar.DateObject.AddMonths | index.js:125-131 | `addMonths` mutates the receiver into the date `value` months on, with the day clamped to the target month, and returns the receiver itself. |
| Calendar.DateObject.AddDays | index.js:133-137 | `addDays` returns a fresh object `days` days after the receiver and leaves the receiver unchanged. |
| Amortization.PassFacts | index.js:53-71 | In each recorded pass: the interest is the opening balance times the rate; the principal is not negative, not more than the payment less interest, and equal to it unless the balance is used up; the new balance lies between 0 and the opening balance, and is 0 exactly when the principal took the whole balance. |
| Amortization.OpeningsNonIncreasing | index.js:53-67 | The balance a pass starts from never grows from pass to pass, and is never negative after the first pass. |
| Amortization.BalancesNonIncreasing | index.js:53-74 | The recorded balances are never negative, never increase from one record to a later one, and never exceed the loan's balance. |
| Amortization.ScheduleEndsAtZero | index.js:53-76 | A finished schedule of a positive balance is not empty. Its last record pays exactly the remaining balance as principal and leaves a balance of exactly 0. Every earlier record leaves a positive balance. |
| Amortization.PrincipalNonDecreasing | index.js:54-55 | With a rate that is not negative, each principal is at least the previous one, except on the final, capped record. |
| Amortization.PrincipalPositive | index.js:54-67 | With a rate that is not negative and a positive first principal, every recorded principal is positive and every pass strictly lowers the balance. |
| Amortization.OpeningBound | index.js:53-67 | With a rate that is not negative and a positive first principal, `k` passes have reduced the balance by at least `k` first principals while it stays positive. |
| Amortization.ScheduleLength | index.js:53-76 | With a rate that is not negative and a positive first principal, any schedule in progress of `n` records has repaid at least `n - 1` first principals. This bounds the number of passes by one more than the balance over the first principal. |
| Amortization.WithinPassLimit | index.js:53-76 | With a rate that is not negative and a payment other than the first interest, the number of passes is bounded by `PassLimit` (one more than the floor of balance over first principal). This is the loop's termination measure. |
| Amortization.OnlyFirstPassFails | index.js:54-58 | With a rate that is not negative, the error can only be thrown in the first pass, and only when the balance is positive and the payment is below its interest. |
| Amortization.FinishedFirstPassSucceeded | index.js:53-58 | If the loop finishes, then the first pass did not throw: either there was no positive balance, or the payment covered the first interest. |
| Amortization.StuckWhenPaymentEqualsInterest | index.js:53-67 | When the payment equals the first interest, a principal of exactly 0 is accepted, every pass leaves the balance unchanged, and no number of passes finishes the loop. |
| Amortization.ZeroRateLoan | index.js:45-79 | A balance of 1200 at rate 0 and payment 100 finishes after exactly twelve records, each with interest 0 and principal 100. |
| Amortization.ScheduleUnique | index.js:45-79 | Two finished schedules of the same loan and first date are equal: the profile is determined by the inputs. |
| Amortization.ExtendSchedule | index.js:67-74 | Appending a correctly computed and correctly dated pass to a schedule in progress gives a schedule in progress, whose next opening balance is the new record's balance. |
| Amortization.DriftedDate | index.js:64-66 | After pass `i` of a month-stepping schedule, the stored date is valid and lies `DriftOffset(months, i)` months after the first date. Its day never exceeds the first day, and equals it when the first day is at most 28. |
| Amortization.DriftOffsetClosedForm | index.js:65 | The accumulated offset after pass `i` is `months * i * (i + 1) / 2`. |
| Amortization.PaymentsDriftFromThirdOn | index.js:65 | Every month-stepping payment lands at least `i * months` months after the first date. It lands exactly there only for the first two payments (`i <= 1`). |
| Amortization.PaymentDate | index.js:60-66 | The date recorded for pass `i` is valid. A weekly date lies exactly `7 * i` days after the first date. Any other date lies `DriftOffset(months, i)` months after it. |
| Amortization.StoredDateStep | index.js:64-66 | Pass `i` of a month-stepping schedule moves the stored date by `i * months` months onto the date it records. |
| Amortization.LastStoredIsStoredDate | index.js:60-66 | Over correctly dated records, the date object's value can be read from the last record (month stepping) or is the first date (weekly). |
| Amortization.WeeklyFromJanuary1 | index.js:62 | Weekly from 1 January 2024, the fifth payment (`i = 4`) falls on 29 January 2024. |
| Amortization.ClampedIntoFebruary | index.js:125-131 | One month on from 31 January 2024 is 29 February 2024. |
| Amortization.MonthlyFromJanuary31 | index.js:65 | Monthly from 31 January 2024, the second payment falls on 29 February 2024. |
| Loan.LoanInformation.constructor | index.js:33-38 | The loan object stores its inputs, including the caller's date object itself. |
| Loan.LoanInformation.GetPaymentProfile | index.js:45-79 | The generator throws exactly when the balance is positive and the payment is below the first interest, having appended nothing. Otherwise it returns a finished schedule with every pass's arithmetic and date. It leaves the stored date object on the last recorded date (month stepping) or unchanged (weekly). |
| Loan.LoanInformation.NextPass | index.js:53-75 | One pass from a positive balance: it throws (leaving the date object alone) exactly when the payment less interest is negative; otherwise it extends the schedule by a correctly computed, correctly dated record. |
| Loan.LoanInformation.RecordDate | index.js:60-66 | The date of pass `i` is `PaymentDate`: weekly passes use a copy `7 * i` days on and leave the stored object alone; the others move the stored object by `i * months` and record it. |
| Loan.LoanInformation.Create | index.js:33-40 | Building a loan fails exactly when the balance is positive and the payment is below the first interest. Otherwise it yields a fresh loan holding its inputs and a finished, correctly dated payment profile. Either way the caller's date object is left on the last recorded date (month stepping) or unchanged (weekly, or when the first pass throws). |

## Left out

- `_period_efficient_rate` (index.js:84-91) is not modelled; the period rate is an input of the loan.
  - The formula needs real exponentiation.
  - For weekly loans the formula divides 12 by the code 0. In JavaScript that evaluates to a rate of 0, so weekly loans accrue no interest; in the model that is the caller passing 0.
- Loan.LoanInformation.GetPaymentProfile: requires a rate that is not negative and a payment other than `balance * rate`. The source accepts both, but then its loop may not terminate:
  - with a payment equal to the first interest it provably runs forever (`StuckWhenPaymentEqualsInterest`);
  - with a negative rate the balance can stay positive forever.
- Loan.LoanInformation.NextPass: carries the same requirements as `GetPaymentProfile`, for the same reason.
- Loan.LoanInformation.Create: carries the same requirements as `GetPaymentProfile`, for the same reason.
- The JavaScript exception becomes an `Err` result, and the object under construction is discarded.
- Numbers are exact reals, not IEEE doubles. Rounding of the interest and balance arithmetic is not modelled.
- The numeric coercions of the inputs (index.js:46-48) and the loose `==` comparison (index.js:61) are not modelled; the inputs are typed values.
- The `toDateString()` formatting of the recorded date (index.js:72) is not modelled; the record holds the date value itself.
- Time of day, time zones and daylight-saving shifts of JavaScript dates are not modelled; dates are whole calendar days.
- Invalid dates (`NaN` time values) are not modelled; every date object is required to hold a valid calendar date.
- The limited range of JavaScript dates is not modelled. A JavaScript `Date` holds at most 100,000,000 days either side of 1 January 1970; past that, `setMonth` and `setDate` turn it into an invalid date, and every later `addMonths` keeps it invalid. The model's dates are unbounded, so `DriftedDate`, `PaymentDate` and `HasPaymentDates` keep giving valid dates where the program records "Invalid Date".
  - Month-stepping offsets grow as `months * i * (i + 1) / 2` (`DriftOffsetClosedForm`). From a first date in 2024, the program leaves the range at about pass 2,563 for monthly loans, 1,480 for quarterly and 740 for annual ones.
  - An example: a balance of 300000 at rate 0 with payment 100, monthly, runs 3000 passes.
  - Weekly loans would leave the range only after about 14 million passes.
- `Date.prototype.isLeapYear` and `Date.prototype.getDaysInMonth` (index.js:117-123) appear only as the one-line accessors `DateObject.IsLeap` and `DateObject.GetDaysInMonth`. Their content is `IsLeapYear` and `DaysInMonth`.
- `get_payment_days` (index.js:102-105) is not modelled: it assigns its parameter to itself and returns nothing.
- Reading the form and parsing its date (index.js:140-150), and drawing the chart (index.js:152-193), are user-interface code and are not modelled.
- The generator's loop body is split into the methods `NextPass` and `RecordDate`. This keeps each proof small; the statements and their order are those of the loop.
- Concrete dates are covered for the first two month-stepping payments only. The third and later payments are covered by the general lemmas `DriftedDate`, `DriftOffsetClosedForm` and `PaymentsDriftFromThirdOn`.
