# JudgmentRate backend in Dafny

JudgmentRate is a desktop calculator for post-judgment interest. This model covers its Rust backend (`src-tauri/src`):

- the simple-interest formula and the day count;
- the federal rate, which is the average 1-year Treasury yield over the week before the judgment date's week, with a 5 % default;
- the table of per-state rates, seeded on first start;
- the commands the user interface calls, including `calculate`, which checks a request, resolves its rate and assembles the response.

Everything is written as pure functions over immutable data. There is one module per file:

| file | module | models |
|---|---|---|
| `wrappers.dfy` | `Wrappers` | `Option` and `Result`, with `:-` propagation (Rust's `?`), and `Outcome`, a pass-or-error value with no payload (Rust's `Result<(), E>`) |
| `civil.dfy` | `Civil` | chrono's `NaiveDate` as a validated (year, month, day), with a day number counted from the common era, day shifting and weekdays |
| `numerals.dfy` | `Numerals` | `str::parse::<f64>` for finite decimal literals, and the `{}` display of a number, over exact reals |
| `calculator.dfy` | `Calculator` | `compute_interest` with round-half-away-from-zero to cents, and `calculate_days_between` |
| `models.dfy` | `Models` | `StateRate`, `CalcRequest`, `CalcResponse`, `FredObservation`, `StateRate::new` |
| `rate_fetcher.dfy` | `RateFetcher` | `get_federal_rate`, `get_preceding_week`, `calculate_average_rate`, the 0.05 fallback, `validate_api_key` |
| `rate_store.dfy` | `RateStore` | the `state_rates` table and `init_db`, `seed_initial_data`, `get_state_rate`, `get_all_states`, `update_state_rate`, `insert_state_rate`, `delete_state_rate` |
| `commands.dfy` | `Commands` | `calculate`, `get_api_key`, `get_api_key_configured`, `set_api_key`, `validate_api_key_command` and the table commands |

Money and rates are exact `real`s. Rounding to cents is written out as Rust's `f64::round`.

The following are parameters of the functions that need them:

- the rate source's HTTP request (`FredOracle`);
- the key-validation request (`send`);
- chrono's `%Y-%m-%d` parser (`Env.parseDate`);
- the configuration file (`ConfigFile`), which may be absent, unreadable or unparsable;
- the database (`Result<RateTable, string>`, either a table or the error opening or querying it);
- the current local date (`today`).

The table is its rows in rowid order, together with SQLite's AUTOINCREMENT counter. Its invariant is:

- the ids increase and never exceed the counter;
- state names are unique, the table's UNIQUE constraint.

Rowid order is kept, rather than a map keyed by id, so that the first-row-wins behaviour of a query and the insertion order of the seed can be stated.

`calculate` reads the key with `get_api_key(&app)?` (`src-tauri/src/commands.rs:29` and `:46`). So any of the following makes `calculate` fail, for a federal request and for a variable-rate state alike:

- a missing `config.json`;
- an unreadable or unparsable `config.json`;
- a `config.json` with no string `fred_api_key`.

Only a stored empty key reaches `get_federal_rate`'s empty-key guard and the 5 % default (`Commands.FederalNeedsConfigFile`, `Commands.EmptyKeyFallsBack`).

Some seed rows are variable-rate rows whose notes promise a margin but whose `plus_percentage` is 0: Alaska, Ohio and Utah, `src-tauri/src/db.rs:51`, `:85` and `:94`. Each stores its margin in `rate`, which the variable branch never reads. Such a state therefore resolves to the bare federal rate, labelled "Federal + 0%" (`Commands.SeededZeroMarginStates`).

## Model

| member | source | states |
|---|---|---|
| Civil.Weekday | src-tauri/src/rate_fetcher.rs:40 | the weekday is a number from 0 (Monday) to 6 (Sunday) |
| Civil.WeekdayExample | src-tauri/src/rate_fetcher.rs:40 | 0001-01-01 and 2024-01-01 are Mondays and 2024-01-07 is a Sunday, which fixes the numbering to chrono's |
| Civil.AddDays | src-tauri/src/rate_fetcher.rs:41-42 | shifting a date by `n` days, forwards or backwards, moves its day number by exactly `n` |
| Civil.OrdinalMonotone | src-tauri/src/commands.rs:22-24 | comparing dates chronologically agrees with comparing their day numbers, and equal day numbers mean the same date |
| Civil.WeekdayShift | src-tauri/src/rate_fetcher.rs:40-42 | a date `n` days after another falls `n` weekdays later, modulo 7 |
| Civil.SameWeekdayWithinWeek | src-tauri/src/rate_fetcher.rs:40-42 | two dates on the same weekday less than a week apart are the same date |
| Calculator.RoundHalfAway | src-tauri/src/calculator.rs:9 | `round` gives an integer within one half of its argument, and a tie goes away from zero |
| Calculator.RoundHalfAwayUnique | src-tauri/src/calculator.rs:9 | exactly one integer meets that description, so the contract pins `round` down completely |
| Calculator.RoundHalfAwayOdd | src-tauri/src/calculator.rs:9 | rounding a negated value gives the negated rounding, because ties go away from zero on both sides |
| Calculator.Round2 | src-tauri/src/calculator.rs:9 | `(x * 100).round() / 100` is a whole number of cents within half a cent of `x`, and a value exactly half a cent from two amounts goes to the one farther from zero |
| Calculator.ComputeInterest | src-tauri/src/calculator.rs:3-10 | the interest is a whole number of cents within half a cent of principal × rate × days / 365, a half-cent tie going away from zero, and is 0 when any factor is 0 |
| Calculator.ComputeInterestUnique | src-tauri/src/calculator.rs:3-10 | any whole number of cents strictly within half a cent of the exact interest is the computed interest |
| Calculator.HalfCentExample | src-tauri/src/calculator.rs:3-10 | $0.01 at 50 % for 365 days is exactly half a cent and rounds up to $0.01 |
| Calculator.ComputeInterestNonNegative | src-tauri/src/calculator.rs:6-9 | a non-negative exact interest never rounds to a negative amount |
| Calculator.FullYearExample | src-tauri/src/calculator.rs:21-29 | $10,000 at 5 % for 365 days earns exactly $500 |
| Calculator.PartialYearExample | src-tauri/src/calculator.rs:31-41 | $10,000 at 10 % for 180 days earns $493.15, within 0.01 of the test's value |
| Calculator.DaysBetween | src-tauri/src/calculator.rs:12-14 | the signed day count is non-negative exactly when `to` is not before `from`, and zero exactly when they are the same date |
| Calculator.DaysBetweenAdditive | src-tauri/src/calculator.rs:12-14 | day counts add up along a → b → c, and swapping the dates negates the count |
| Calculator.DaysBetweenAddDays | src-tauri/src/calculator.rs:12-14 | the count from a date to that date shifted by `n` days is `n` |
| Calculator.LeapYearExample | src-tauri/src/calculator.rs:44-50 | 2024-01-01 to 2024-12-31 is 365 days, because 2024 is a leap year |
| Numerals.ParseDecimal | src-tauri/src/rate_fetcher.rs:78 | text is read as a number only when it holds a digit and every character is a digit, a sign, a point or an exponent mark; a negative number needs a leading '-', and a leading '-' never gives a positive number |
| Numerals.ParseWhole | src-tauri/src/rate_fetcher.rs:78 | a string of digits parses to the whole number it spells |
| Numerals.ParseTenths | src-tauri/src/rate_fetcher.rs:78 | a numeral `d.f` parses to d + f/10 |
| Numerals.ForeignCharRejected | src-tauri/src/rate_fetcher.rs:78 | any text holding a character outside that alphabet (a '%', a letter other than e/E, a space) is not a number, so the observation is dropped |
| Numerals.PercentSignRejected | src-tauri/src/rate_fetcher.rs:78 | "4.5%" does not parse, although "4.5" reads as 4.5 |
| Numerals.LonePointRejected | src-tauri/src/rate_fetcher.rs:78 | a lone "." is not a number, so the parse step would drop it as well |
| Numerals.ShowParseRoundTrip | src-tauri/src/commands.rs:54-59 | a number with at most 17 decimals, displayed with `{}` and parsed back, is the same number |
| Numerals.ShowDecimal | src-tauri/src/commands.rs:54-59 | the display starts with '-' exactly when the number is negative; the rest is a plain numeral: digits with at most one decimal point, which sits between two digits, no '+', no exponent, and a leading 0 only when it is the whole integer part; it has a decimal point exactly when the number is not whole |
| Numerals.ShowDecimalShortest | src-tauri/src/commands.rs:54-59 | a number with a fraction and at most 17 decimals is displayed with no trailing zero |
| Numerals.ShowZeroExample | src-tauri/src/commands.rs:54 | a margin of 0 is displayed as "0" |
| Numerals.ShowWholeExample | src-tauri/src/commands.rs:54 | a whole percentage such as 3 is displayed with no decimal point |
| Numerals.ShowTenthsExample | src-tauri/src/commands.rs:59 | 7.5 is displayed as "7.5" |
| RateFetcher.MessageInjective | src-tauri/src/rate_fetcher.rs:6-18 | two errors display the same text exactly when they are the same error with the same detail |
| RateFetcher.FallbackFederalRate | src-tauri/src/rate_fetcher.rs:93-96 | the default rate is 5 %, written as a decimal fraction like the live average |
| RateFetcher.PrecedingWeek | src-tauri/src/rate_fetcher.rs:39-45 | the window runs from a Monday to the Sunday six days later; it starts 7 to 13 days before the judgment date and ends the day before the judgment date's week begins |
| RateFetcher.PrecedingWeekUnique | src-tauri/src/rate_fetcher.rs:39-45 | the window's start is the only Monday 7 to 13 days before the judgment date |
| RateFetcher.PrecedingWeekExample | src-tauri/src/rate_fetcher.rs:136-145 | for Wednesday 2024-01-10 the window is Monday 2024-01-01 to Sunday 2024-01-07 |
| RateFetcher.AverageRate | src-tauri/src/rate_fetcher.rs:74-90 | the average fails, with `NoValidObservations`, exactly when no observation is both not "." and parsable; otherwise the rate, in percent, is the sum of the usable values divided by their count |
| RateFetcher.MeanRate | src-tauri/src/rate_fetcher.rs:81-89 | a mean of no values is `NoValidObservations`; otherwise the rate, in percent, is the sum of the values divided by their count |
| RateFetcher.MeanTotal | src-tauri/src/rate_fetcher.rs:85-89 | for any non-empty run of rates, mean × 100 × count is the run's total |
| RateFetcher.MeanAppend | src-tauri/src/rate_fetcher.rs:85-89 | the mean of two non-empty runs together is their weighted mean: mean × 100 × length of the whole is the sum of mean × 100 × length of each part |
| RateFetcher.AverageTimesCount | src-tauri/src/rate_fetcher.rs:85-89 | the average, taken once per usable value, adds back up to the usable values' total |
| RateFetcher.AverageAppend | src-tauri/src/rate_fetcher.rs:74-90 | averaging two runs of observations together weights each run's average by its number of usable values: counts add, and count × average adds |
| RateFetcher.PercentTotalProduct | src-tauri/src/rate_fetcher.rs:85-89 | `count` copies of a rate, in percent, total rate × 100 × count |
| RateFetcher.SumAppend | src-tauri/src/rate_fetcher.rs:85 | the sum of two runs of values is the sum of their sums |
| RateFetcher.UsableRatesAppend | src-tauri/src/rate_fetcher.rs:75-79 | filtering observations distributes over concatenation, keeping their order |
| RateFetcher.AverageIgnoresPlaceholder | src-tauri/src/rate_fetcher.rs:77-78 | inserting an observation that is "." or does not parse, anywhere, leaves the average unchanged |
| RateFetcher.AverageWithin | src-tauri/src/rate_fetcher.rs:85-89 | the rate lies between the smallest and the largest usable percentage, each divided by 100 |
| RateFetcher.AverageOfConstant | src-tauri/src/rate_fetcher.rs:74-90 | when every usable observation says `v` and there is at least one, the rate is `v / 100` |
| RateFetcher.AverageExample | src-tauri/src/rate_fetcher.rs:74-90 | 4.5, ".", 4.7 average to 0.046 |
| RateFetcher.UnevenAverageExample | src-tauri/src/rate_fetcher.rs:74-90 | 4.5, 4.6, 5.2 average to 14.3 / 300, their mean and not the midpoint of the extremes |
| RateFetcher.UsableRatesOfThree | src-tauri/src/rate_fetcher.rs:75-79 | three observations keep, in order, the parsed values of those that are usable |
| RateFetcher.NoObservationsExample | src-tauri/src/rate_fetcher.rs:81-83 | no observations, or only "." ones, give `NoValidObservations` |
| RateFetcher.GetFederalRate | src-tauri/src/rate_fetcher.rs:20-36 | an empty key is `ApiKeyMissing` before anything is fetched; otherwise the preceding week is fetched, a fetch error is passed on, and the observations are averaged |
| RateFetcher.ValidateApiKey | src-tauri/src/rate_fetcher.rs:99-130 | an empty key is `Ok(false)` with no request; a response is `Ok(status is 2xx)`; an error with status 400 or 403 is `Ok(false)`; every other error is a `RequestError` whose text is "HTTP error: " and the status when the error has one, and "Request failed: " and the error's text when it has none |
| RateStore.Lookup | src-tauri/src/db.rs:115-136 | the result is absent exactly when no row has that exact name, and otherwise is a stored row with that name |
| RateStore.LookupUnique | src-tauri/src/db.rs:115-136 | under the uniqueness constraint, any row with the name is the one returned |
| RateStore.Insert | src-tauri/src/db.rs:179-194 | a duplicate name fails with SQLite's UNIQUE message and changes nothing; otherwise the row is appended under the counter's next id, which no existing row has |
| RateStore.Update | src-tauri/src/db.rs:161-177 | the row with the record's id gets every field but its id and state from the record; every other row and the row count stay; an absent id changes nothing |
| RateStore.Delete | src-tauri/src/db.rs:196-200 | exactly the rows without that id remain, no row with that id remains, the counter stays, and an absent id changes nothing |
| RateStore.WithoutValid | src-tauri/src/db.rs:196-200 | deleting keeps ids increasing and names unique |
| RateStore.ListAll | src-tauri/src/db.rs:138-159 | the listing is strictly sorted by state name and is a permutation of the table's rows |
| RateStore.InitDb | src-tauri/src/db.rs:34-39 | opening a table that has rows changes nothing |
| RateStore.InsertAllFresh | src-tauri/src/db.rs:103-105 | records with new, distinct names are all inserted, in order, under consecutive ids |
| RateStore.SeedStatesDistinct | src-tauri/src/db.rs:45-101 | the seed records have pairwise distinct names |
| RateStore.InitDbSeedsEmpty | src-tauri/src/db.rs:44-108 | opening an empty table inserts all 52 seed records in order under the next 52 ids; "Federal" is the first, variable, with a rate and a margin of 0 |
| RateStore.InitDbIdempotent | src-tauri/src/db.rs:34-39 | opening a second time after a successful opening changes nothing |
| RateStore.SeededZeroMargins | src-tauri/src/db.rs:45-101 | the seed's Alaska, Ohio and Utah records are variable with `plus_percentage` 0 and the margin (3, 3 and 2) in `rate`, while their notes say "Federal rate + 3%" or "+ 2%" |
| Models.NewStateRate | src-tauri/src/models.rs:50-70 | a new record has id 0, is stamped with the current date, and keeps every other field as given |
| RateStore.Stamped | src-tauri/src/models.rs:59-68 | `StateRate::new` keeps every given field, sets the id to 0 and stamps the current date |
| Commands.JsonGet | src-tauri/src/commands.rs:146 | a field is found exactly when the value is an object that has that key, and what is found is that field's value |
| Commands.JsonGetSingleton | src-tauri/src/commands.rs:110-112 | the one-field object the key is saved as yields the saved field under its key and nothing under any other key |
| Commands.GetApiKey | src-tauri/src/commands.rs:129-150 | the stored string is returned exactly when the file holds one under `fred_api_key`; each other case gives its own message: no file, unreadable, unparsable, or no string key |
| Commands.ApiKeyConfigured | src-tauri/src/commands.rs:120-126 | the answer is true exactly when a non-empty key is stored; every read failure answers false |
| Commands.SetApiKey | src-tauri/src/commands.rs:102-118 | a successful write stores the key; a failed write reports its error with its prefix |
| Commands.SetThenGet | src-tauri/src/commands.rs:102-150 | a saved key is read back, and counts as configured exactly when it is not empty |
| Commands.FailedSetKeepsKey | src-tauri/src/commands.rs:114-115 | a failed save leaves what `get_api_key` reads unchanged |
| Commands.ValidateApiKeyCommand | src-tauri/src/commands.rs:152-160 | the key validation's verdict is passed through, and its error is shown with the "Failed to validate API key: " prefix |
| Commands.GetAllStateRates | src-tauri/src/commands.rs:83-86 | a database error gets its prefix; otherwise every row is returned, sorted by state |
| Commands.UpdateStateRateCommand | src-tauri/src/commands.rs:88-95 | a database error gets its prefix; otherwise the table is updated by id |
| Commands.DeleteStateRateCommand | src-tauri/src/commands.rs:97-100 | a database error gets its prefix; otherwise the row with that id is deleted |
| Commands.FederalBase | src-tauri/src/commands.rs:47-50 | the base rate is the live rate when it is had, and the 0.05 default on any failure |
| Commands.FederalChoice | src-tauri/src/commands.rs:27-39 | a failure to read the key is the result; with a key, a live rate is labelled "Federal Rate (1-Year Treasury)" and any fetch failure gives 0.05 labelled "Federal Rate (Cached/Default)" |
| Commands.StateChoice | src-tauri/src/commands.rs:43-61 | a fixed row gives its rate over 100 with the "Fixed" label and reads no key; a variable row propagates a key-read failure, else gives the base plus margin over 100 with the "Variable" label |
| Commands.ResolveRate | src-tauri/src/commands.rs:27-65 | a federal request takes the federal branch; otherwise a database error gets its prefix, a missing state gets its message, and a stored state's own row decides |
| Commands.Calculate | src-tauri/src/commands.rs:9-81 | dates are checked in the order judgment, from, to, each with its own message; then the range is checked; then a rate failure is the result; a success reports the day count, the rate as a percentage, the interest as `ComputeInterest` rounds it (so a half-cent tie goes away from zero), the total and the disclaimer |
| Commands.ReversedRangeRejected | src-tauri/src/commands.rs:22-24 | parsed dates in reverse order are refused with the range message, whatever the configuration, table or rate source hold |
| Commands.FederalNeedsConfigFile | src-tauri/src/commands.rs:27-29 | a federal request with no configuration file fails with the "API key not configured" message instead of falling back |
| Commands.EmptyKeyFallsBack | src-tauri/src/commands.rs:27-39 | a stored empty key never reaches the rate source: the federal rate is 5 % labelled as the default |
| Commands.FederalRateSource | src-tauri/src/commands.rs:27-39 | with a key, the reported rate is 100 × the live rate with the live label when the source answers, and 5 with the default label otherwise |
| Commands.UnknownStateRejected | src-tauri/src/commands.rs:63 | a state the table does not hold is refused with a message naming it |
| Commands.FixedStateExample | src-tauri/src/commands.rs:56-60 | Alabama at 7.5 % fixed reports rate 7.5 labelled "Alabama (Fixed: 7.5%)" |
| Commands.VariableStateExample | src-tauri/src/commands.rs:44-55 | a variable state with a margin of 3, on the 5 % default, reports 8 labelled "<state> (Variable: Federal + 3%)", whatever its own rate |
| Commands.ZeroMarginVariable | src-tauri/src/commands.rs:44-55 | a variable row with a margin of 0 resolves to the federal rate or its default itself, labelled "<state> (Variable: Federal + 0%)" |
| Commands.SeededZeroMarginStates | src-tauri/src/commands.rs:44-55 | the seeded Alaska, Ohio and Utah records resolve to the bare federal rate labelled "Federal + 0%", although their notes promise a margin |
| Commands.DefaultRateYearExample | src-tauri/src/commands.rs:68-80 | $10,000 from 2024-01-01 to 2024-12-31 at the 5 % default is 365 days, $500 interest and a $10,500 total |

## Left out

- IEEE-754 `f64` arithmetic. Amounts, rates and averages are exact reals. The intermediate products, the division by 365 and the mean are not rounded to binary floating point, and infinities and NaN are not modelled.
- Calculator.ComputeInterest: states the rounding of the exact real interest, not of the `f64` product the code rounds. The two can differ by a cent when the product lands within floating-point error of a half cent.
- Numerals.ShowParseRoundTrip: covers numbers with at most 17 decimals only. `ShowDecimal` cuts longer or non-terminating expansions at 17 digits, whereas Rust prints the shortest numeral that reads back as the same `f64`.
- Numerals.ShowDecimalShortest: covers numbers with at most 17 decimals only, for the same reason as `ShowParseRoundTrip`. Beyond that `ShowDecimal` cuts the digits, and the cut can end in '0'.
- `str::parse::<f64>` is modelled for finite decimal literals, with an optional sign, point and exponent. The words `inf`, `infinity` and `nan` are not modelled, and neither is rounding a literal to the nearest `f64`. The model treats an observation spelling one of those words as unusable and drops it. Rust would parse it, and a `NaN` would make the average `NaN` (`src-tauri/src/rate_fetcher.rs:78`).
- The text of chrono's `%Y-%m-%d` parser is not modelled. Parsing is the `Env.parseDate` parameter, which returns a valid date or chrono's error message.
- The HTTP request to the rate source (`fetch_fred_data`) and the key-validation request are left out, as are the URLs, the JSON decoding of the response and `FredResponse`. They are the `FredOracle` and `send` parameters. Only the outcomes the code distinguishes are kept.
- File-system access and JSON handling for `config.json` are left out. Their outcomes are the `ConfigFile` datatype. The pretty-printed text that `set_api_key` writes is not modelled.
- The panic when Tauri cannot resolve the application data directory (`app_data_dir().unwrap()`, `src-tauri/src/commands.rs:107` and `:133`) is not modelled. The model assumes the directory is found.
- RateFetcher.PrecedingWeek: chrono's `NaiveDate` covers years -262144 to 262143 only, and `Duration` arithmetic on it panics outside that range (`src-tauri/src/rate_fetcher.rs:41`). `Civil.Date` is unbounded and `Civil.AddDays` always succeeds, so the panic for a judgment date within two weeks of chrono's earliest date is not modelled.
- Commands.SetApiKey: a failed write is modelled as leaving the old file in place. A partial write that corrupts the file is not modelled.
- SQLite's connection, file path and statement preparation are left out. The database is `Result<RateTable, string>`, so an error opening or querying it arrives as its message.
- Commands.GetAllStateRates: a failure while converting one row of the listing is folded into the database error.
- `seed_initial_data` is not one transaction. The model stops at the first failing insert and keeps the rows inserted before it. With distinct seed names no insert fails.
- `StateRate::id` is an `i32` and SQLite's ids are 64-bit. Ids are unbounded integers, so reading back an id beyond `i32` is not modelled.
- The clock in `StateRate::new` is the `today` parameter.
- Logging (`log::warn!`), the Tauri bootstrap and command registration in `lib.rs`, and the React user interface are left out. They do not affect the values computed.
