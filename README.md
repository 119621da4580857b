# Stock price viewer: the `/stock` handler

This project models the server side of a small stock price viewer. A
browser calls `/stock?ticker=…&startDate=YYYY-MM-DD&shares=…&startingBalance=…`.
The Go handler answers one question: had you bought `shares` shares at the close
of the start date, what would they be worth at today's close, and what would
your balance then be?

The handler proceeds in this order:

1. It parses the share count, then the starting balance, then the start date.
   The first value that fails to parse is answered with a 400.
2. It rolls a weekend start date back to Friday. A Saturday moves back one
   day and a Sunday two.
3. It looks up the close price stored under that date in the daily series
   the price service returns. A failed lookup is answered with a 500.
4. It refuses a purchase that costs more than the starting balance, with a
   400 and `{"error":"Insufficient funds"}`.
5. It rolls today back by the same weekend rule and looks up today's close.
   A failed lookup is meant to be answered with a 500 (main.go:182-183). As
   written, the debug print at main.go:184 crashes the handler for most
   causes, and the client then gets no response at all (see "Left out").
6. Otherwise it reports the initial investment, the final investment and the
   new balance.

The model has four modules:

- `Wrappers`: `Option` and `Result`.
- `Calendar`: proleptic Gregorian civil dates, as Go's `time` package
  counts them. It provides:
  - a day number, with day 0 being 0000-01-01;
  - the weekday;
  - the previous day, and subtracting `n` days (what `AddDate(0, 0, -n)`
    does to the date part);
  - the `"2006-01-02"` layout, both `time.Parse` and `Format`.
- `TimeSeries`: the part of `getStockPrice` that reads the decoded
  `"Time Series (Daily)"` object. A `Feed` is what one request to the price
  service delivered: either the decoded series or the reason the request
  failed.
- `StockHandler`: the `/stock` handler as a pure function `Handle` of the
  query and an `Environment`. The environment holds:
  - the number parsers;
  - today's date;
  - the two feeds.

  Every response the handler can write is one `Outcome`.

Everything is a value: the Go handler is straight-line code with early
returns and no loops or mutable objects of its own, so the model is a set
of functions and lemmas about them. "No price is fetched" is stated as
independence. When validation fails, the outcome is the same whatever the
feeds deliver and whatever day it is. When the purchase is refused, it does
not depend on the end feed or on today.

## Model

| member | source | states |
|---|---|---|
| Calendar.DaysIn | main.go:120-126 | the month lengths `time.Parse` checks a day against: 31 exactly for months 1,3,5,7,8,10,12; 30 exactly for 4,6,9,11; February has 29 days exactly in a leap year and 28 otherwise |
| Calendar.LeapYearsBeforeStep | main.go:129-136 | the leap-year count behind the day number grows by one exactly after a Gregorian leap year, so day numbers advance by the year's length |
| Calendar.DaysBeforeYearStep | main.go:129-136 | the first day of year y+1 comes 365 or 366 days (the length of year y) after the first day of year y |
| Calendar.DaysBeforeYearMonotone | main.go:129-136 | years start at least 365 days apart, for every pair of years |
| Calendar.DaysBeforeMonthStep | main.go:129-136 | the day after a month's last day is the next month's first day, and December's last day ends the year |
| Calendar.DayNumberOrder | main.go:129-136 | one date is earlier than another in calendar order exactly when its day number is smaller |
| Calendar.DayNumberInjective | main.go:129-136 | two valid dates with the same day number are the same date |
| Calendar.DayNumber | main.go:132-135 | no contract of its own: the count of days since 0000-01-01 behind `AddDate`; its properties are carried by DaysBeforeYearStep, DaysBeforeMonthStep, DayNumberOrder and DayNumberInjective |
| Calendar.WeekdayOf | main.go:129 | no contract of its own: `Weekday()` of a date (also line 168), anchored by WeekdayOfUnixEpoch and stepped by PrevDayWeekday |
| Calendar.WeekdayOfUnixEpoch | main.go:129 | 1970-01-01 falls on a Thursday, as Go's `Weekday()` reports |
| Calendar.WeekdayOfPreviousNumber | main.go:129 | the weekday of the day before is the previous weekday |
| Calendar.PrevDay | main.go:132 | going back one day yields a valid date whose day number is one less, crossing month and year boundaries |
| Calendar.PrevDayWeekday | main.go:129-135 | the day before a date falls on the previous weekday |
| Calendar.SubtractDays | main.go:132-135 | going back n days yields a valid date whose day number is n less |
| Calendar.SubtractDaysUnique | main.go:132-135 | the date n days earlier is the only valid date with that day number, so AddDate's result is determined |
| Calendar.Format | main.go:139 | the layout "2006-01-02" writes 10 characters for years 0-9999, and a leading '-' for years before 0 |
| Calendar.Parse | main.go:120-126 | a date is accepted only in exact YYYY-MM-DD shape with a valid month and day, and yields a valid date of years 0000-9999; a well-shaped text is rejected only for an out-of-range month or day |
| Calendar.FormatOfParse | main.go:120-139 | formatting a parsed date gives back exactly the text that was parsed |
| Calendar.ParseOfFormat | main.go:120-139 | every valid date of years 0000-9999 parses back from its formatted text |
| Calendar.Decimal | main.go:139 | the unpadded digits Go writes for a year of 10000 or more: all digits, denoting exactly the number, with no leading zero |
| Calendar.FormatYearMinusOne | main.go:139 | 31 December of year -1 is written "-0001-12-31" |
| TimeSeries.PriceError.Message | main.go:82 | the text `%v` prints for a lookup error (lines 146, 183): the missing-date error is "no data available for the given date: " followed by the date, and a failed request's error is its reason (the errors returned at lines 31, 39, 48, 61) |
| TimeSeries.ScanOrZero | main.go:71-77 | the close price is the scanned number, or 0 when the text does not scan because Sscanf's error is discarded |
| TimeSeries.ClosePrice | main.go:65-82 | a price is found exactly when the date is a key of the series and its entry has "4. close"; the price is that text scanned; otherwise the error names the date |
| TimeSeries.GetStockPrice | main.go:22-83 | a failed request yields its error; a delivered series yields the close-price lookup for the date |
| TimeSeries.ClosePriceReadsOnlyDate | main.go:65-68 | two series that agree on the entry for the date give the same lookup result |
| TimeSeries.ClosePriceIgnoresOtherDates | main.go:65-68 | storing an entry under another date leaves the lookup unchanged |
| TimeSeries.ClosePriceAfterStore | main.go:65-77 | after storing an entry holding "4. close" under the date, the lookup returns that text scanned |
| StockHandler.Outcome.Status | main.go:106 | status 200 exactly on success; 400 exactly for the three validation errors and insufficient funds; 500 exactly for the two price-lookup errors (also lines 115, 124, 146, 158, 183) |
| StockHandler.Outcome.ErrorBody | main.go:106 | every error body ends in a newline: `http.Error` appends one and the JSON encoder ends its object with one (also lines 115, 124, 146, 160, 183); the insufficient-funds body is exactly `{"error":"Insufficient funds"}` and a newline (line 160); the other texts are pinned by SharesCheckedFirst, BalanceCheckedSecond, DateCheckedThird, StartPriceFailure and EndPriceFailure |
| StockHandler.RollBackWeekend | main.go:129-136 | the weekday switch (also lines 168-173): the result is a valid date at most two days earlier and never later; RollBackSaturday, RollBackSunday and RollBackWeekday give each case |
| StockHandler.BusinessDayKey | main.go:128-139 | the lookup key is the rolled-back date formatted (also lines 167-176); a key of years 0000-9999 is ten characters |
| StockHandler.StartPrice | main.go:139-142 | the start lookup reads the start feed: a failed request yields its error; a delivered series yields the "4. close" lookup under the rolled-back start key, so a found price is that close scanned and a missing one names that key |
| StockHandler.EndPrice | main.go:164-179 | the end lookup reads the end feed under today rolled back by the same rule (lines 167-176): a failed request yields its error; a delivered series yields the "4. close" lookup under that key, so a found price is that close scanned and a missing one names that key |
| StockHandler.RollBackSaturday | main.go:129-132 | a Saturday rolls back to the day before, one day number earlier, which is a Friday |
| StockHandler.RollBackSunday | main.go:133-135 | a Sunday rolls back two days, two day numbers earlier, to a Friday |
| StockHandler.RollBackWeekday | main.go:129-136 | Monday to Friday are left unchanged |
| StockHandler.RollBackLatestBusinessDay | main.go:128-136 | the rolled-back day is never a weekend day, never later than the input, at most two days earlier, and every day skipped is a weekend day |
| StockHandler.RollBackSkipsOnlyWeekends | main.go:128-136 | every valid date after the rolled-back day and up to the input falls on a weekend |
| StockHandler.RollBackIdempotent | main.go:128-136 | rolling back an already rolled-back date changes nothing |
| StockHandler.WeekdayKeyIsInput | main.go:120-139 | a start date given as a weekday is looked up under exactly the text the client sent |
| StockHandler.BusinessDayKeyParses | main.go:164-176 | for a start date or today whose rolled-back day lies in years 0000-9999, the lookup key parses back to the rolled-back date, which is not a weekend day |
| StockHandler.RollBackAcrossMonth | main.go:128-139 | Sunday 2024-09-01 is looked up as "2024-08-30" |
| StockHandler.RollBackAcrossYear | main.go:128-139 | Sunday 2023-01-01 is looked up as "2022-12-30" |
| StockHandler.RollBackLeapDay | main.go:128-139 | Saturday 2020-02-29 is looked up as "2020-02-28" |
| StockHandler.SaturdayNewYearRollsBack | main.go:129-132 | a Saturday 1 January rolls back to 31 December of the year before |
| StockHandler.Handle | main.go:87-207 | no contract of its own: the whole handler; its behaviour is stated by HandleAccepted, SuccessIff, InsufficientFundsIff, StartPriceFailure, EndPriceFailure, SharesCheckedFirst, BalanceCheckedSecond, DateCheckedThird, ValidationErrorIff and the two independence lemmas |
| StockHandler.Validate | main.go:101-126 | shares are checked first, then the balance, then the date; the query is accepted exactly when all three parse, with the parsed values |
| StockHandler.Settle | main.go:150-192 | "insufficient funds" exactly when shares × start price exceeds the balance; an end-price error only for an affordable purchase whose end lookup failed, carrying that error; success exactly for an affordable purchase with an end price |
| StockHandler.SettleSuccess | main.go:151-192 | on success: initial = shares × start price ≤ balance; final = shares × end price; new balance = balance − initial + final, so the balance changes by shares × (end price − start price) |
| StockHandler.SettleEqualityAllowed | main.go:154 | a purchase costing exactly the balance succeeds and leaves the final investment as the new balance |
| StockHandler.SettleEndPriceFailure | main.go:179-186 | an affordable purchase with a failed end lookup reports that lookup's error |
| StockHandler.SettleRefusalIgnoresEndPrice | main.go:153-179 | a refused purchase is refused whatever the end lookup would return |
| StockHandler.HandleAccepted | main.go:141-192 | once the query is accepted and the start price found, the outcome is Settle on the parsed values, the start price and the end lookup |
| StockHandler.SharesCheckedFirst | main.go:101-108 | an unparsable share count gives "Invalid number of shares" with 400, whatever else the query holds |
| StockHandler.BalanceCheckedSecond | main.go:110-117 | with valid shares, an unparsable balance gives "Invalid starting balance" with 400 |
| StockHandler.DateCheckedThird | main.go:119-126 | with valid numbers, a start date not in YYYY-MM-DD form gives "Invalid date format" with 400 |
| StockHandler.ValidationFetchesNothing | main.go:101-142 | a rejected query gets the same answer whatever the price service delivers and whatever day it is: no price is fetched |
| StockHandler.ValidationErrorIff | main.go:101-126 | a validation outcome arises exactly when the query is rejected |
| StockHandler.StartPriceFailure | main.go:141-148 | a failed start lookup is a 500 "Error fetching start price: " followed by the lookup's error |
| StockHandler.InsufficientFundsIff | main.go:141-162 | "Insufficient funds" exactly when the query is accepted, the start price is found, and shares × start price exceeds the balance |
| StockHandler.InsufficientFundsFetchesNoEndPrice | main.go:153-179 | a refused purchase gets the same answer whatever the end feed delivers and whatever day it is |
| StockHandler.EndPriceErrorResponse | main.go:182-183 | the response for a failed end lookup is a 500 whose body is "Error fetching end price: ", the lookup's error and a newline |
| StockHandler.EndPriceFailure | main.go:178-186 | an accepted query whose start price is found and whose cost shares × start price does not exceed the balance (line 154), but whose end lookup fails, gets the response main.go:182-183 means to write: a 500 "Error fetching end price: " followed by the lookup's error |
| StockHandler.SuccessIff | main.go:141-206 | success exactly when every step succeeds; the three reported numbers are as in SettleSuccess, including the profit identity |

## Left out

- The HTTP request to the price service, its status check, the body read and the JSON decoding (main.go:25-62) are not modelled. Each of the two requests is a `Feed` in the environment: the decoded series, or the error text.
- `strconv.ParseFloat` and `fmt.Sscanf` are left abstract, as partial functions from text to number in the environment. Their grammars (exponents, hex floats, "Inf", "NaN", underscores) are not modelled.
- Amounts are exact `real`s. float64 rounding, NaN and ±Inf are not modelled, so the profit identity holds exactly here, while in Go it holds only up to rounding.
- `time.Now` and the server's local time zone are not modelled. Today's date is the `today` field of the environment, and the clock part of the time is ignored.
- Go's bounds on the year range of `time.Time` are not modelled. Dates are unbounded proleptic Gregorian dates.
- The success response's JSON encoding (float formatting, key order) and the `Content-Type` headers (main.go:156, 196-206) are not modelled. A success is the three numbers.
- `main`, the static file server and the listener (main.go:210-224) are not modelled.
- The debug print at main.go:184 is not modelled. Its type assertion `err.(*json.UnmarshalTypeError)` panics for every cause other than a JSON type error: the "no data" error (main.go:82), transport and status errors (main.go:31, 39) and body-read errors (main.go:48). net/http aborts the response on a panic, and the short `http.Error` body is still buffered, so for those causes the client receives no response at all. `EndPriceError` stands for the response that main.go:182-183 intend. `Feed.Failed(reason)` does not tell a JSON type error apart from the other fetch failures, so the model cannot say which end-price failures would actually reach the client.
- The ticker only reaches the request URL, so it appears in `Request` but no outcome depends on it.
- StockHandler.Settle: receives the end-price lookup's result as a value. That the lookup is not made when funds are insufficient is stated by `SettleRefusalIgnoresEndPrice` and `InsufficientFundsFetchesNoEndPrice`, not by evaluation order.
- The React front end (stock-price-viewer) is not part of this model.
