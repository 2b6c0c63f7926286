# Settlement-report helpers, modelled in Dafny

This project models the logic of `scripts/helper.py`, the helper module of a
set of scripts that download payment-settlement and call reports from a web
portal, reshape them and upload them to a spreadsheet. Three groups of
functions carry that logic:

- **Report date windows.** `daily_call_date_range` picks the call-report window
  from the New York wall-clock time by five ordered rules and prints both ends
  as `MM/DD/YYYY hh:mm AM`. `calculate_weekly_dates` gives the Saturday-to-Friday
  week holding today. `format_yesterday_today_range` prints "yesterday 12:00 am
  to today 11:59 pm". `calculate_dates` gives today's month abbreviation and day.
  `call_on_fridays` runs a call only on Fridays. Modules `Calendar`, `Chrono` and
  `DateRanges`.
- **Settlement-report reshape.** `transform_dataframe` turns the exported table
  into five named columns of seven rows. Module `Summary` models the
  `(\w+): (\d+)` tokeniser of the summary cell and the six-line card built from it.
  Module `Reshape` models the slicing, `fillna('')`, the totals row built with
  `split(': ')[1]`, and the exception each malformed table ends in.
- **Bounded retry.** `retry_operation` and the `retry_with_delay` decorator call an
  operation up to `attempts` times, sleeping between failures. Module `Retry`
  models them as a method with a loop, proved against specification functions.

Module `Wrappers` holds `Option` and `Result`.

Python's `datetime` is modelled as a proleptic Gregorian calendar on day numbers.
Day 1 is 0001-01-01, a Monday, as in `date.toordinal`. A wall-clock instant is a day
number plus hour, minute, second and microsecond. Every `datetime.now()` becomes a
parameter `now`, so each rule is a total, deterministic function of the instant.

## Model

| member | source | states |
|---|---|---|
| `Calendar.Weekday` | scripts/helper.py:270 | `weekday()` is a number from 0 to 6, and day 1, 0001-01-01, is a Monday (0) |
| `Calendar.FromOrdinal` | scripts/helper.py:342-343 | the date of a day number is a valid calendar date, and its own day number is that number |
| `Calendar.FromToOrdinal` | scripts/helper.py:342-343 | converting a valid date to its day number and back gives the same date |
| `Calendar.ToOrdinalInjective` | scripts/helper.py:342-343 | two valid dates with the same day number are the same date |
| `Calendar.OrdinalYearRange` | scripts/helper.py:342-343 | every day number a Python `date` can hold falls in years 1 to 9999, so `%Y` has at most four digits |
| `Calendar.OrdinalPredecessor` | scripts/helper.py:287 | subtracting `timedelta(days=1)` lands on the previous calendar date, across month and year ends |
| `Calendar.PreviousDateOrdinal` | scripts/helper.py:323 | the previous calendar date is a valid date whose day number is one less |
| `Calendar.MonthAbbreviationsDistinct` | scripts/helper.py:262 | the `%b` abbreviation of each month reads back as that month, so no two months share one |
| `Calendar.MonthAbbreviation` | scripts/helper.py:262 | `%b` in the C locale is a three-letter abbreviation, `Jan` to `Dec`, which `MonthAbbreviationsDistinct` reads back as its month |
| `Chrono.ShiftDays` | scripts/helper.py:317 | adding `timedelta(days=k)`, for any sign of k, keeps a valid clock and moves the instant by exactly k days of microseconds |
| `Chrono.WithClock` | scripts/helper.py:318-319 | `replace(hour=h, minute=m)` sets hour and minute and keeps day, second and microsecond |
| `Chrono.MinusMinutes` | scripts/helper.py:339 | subtracting k minutes keeps a valid clock, moves the instant exactly k minutes of microseconds earlier, and keeps second and microsecond |
| `Chrono.DateText` | scripts/helper.py:292-293 | `'%m/%d/%Y'` is ten characters with `/` at positions 2 and 5, and `DateTextRoundTrip` reads it back as the date |
| `Chrono.Hour12` | scripts/helper.py:342-343 | `%I` is the hour from 1 to 12 that agrees with the 24-hour hour modulo 12, so midnight and noon are 12 |
| `Chrono.Meridiem` | scripts/helper.py:342-343 | `%p` is `AM` exactly before noon and `PM` exactly from noon on |
| `Chrono.Stamp` | scripts/helper.py:342-343 | `'%m/%d/%Y %I:%M %p'` of a valid datetime is a 19-character text |
| `Chrono.DateTextRoundTrip` | scripts/helper.py:292-293 | `'%m/%d/%Y'` of a date parses back to that date |
| `Chrono.StampRoundTrip` | scripts/helper.py:342-343 | the 12-hour stamp parses back to the date, the 24-hour hour and the minute it was made from |
| `Chrono.StampInjective` | scripts/helper.py:342-343 | two datetimes with the same stamp agree on day, hour and minute |
| `DateRanges.DailyCallWindow` | scripts/helper.py:315-339 | the five ordered rules give a window that ends on today's date, starts at most three days earlier, starts strictly before it ends (to the minute, and so to the microsecond), and keeps the seconds and microseconds of now |
| `DateRanges.DailyCallDateRange` | scripts/helper.py:308-345 | "From" reads back as the date, hour and minute of the window's start and "To" as those of its end; "To" is today's date and "From" names a strictly earlier minute |
| `DateRanges.MondayMorningWindow` | scripts/helper.py:316-319 | Monday up to and including 11:30: from 11:30 three days back, which is a Friday, to today 11:29 |
| `DateRanges.MorningAfterPreviousDay` | scripts/helper.py:322-334 | Tuesday to Thursday up to 11:30, and Friday before 11:00: from the previous calendar date at 15:30 to today 11:29 |
| `DateRanges.AfternoonWindow` | scripts/helper.py:327-329 | Monday to Thursday with hour at least 15 and minute at least 30: from today 11:30 to today 15:29 |
| `DateRanges.DefaultWindowExactly` | scripts/helper.py:315-339 | the default window is chosen if and only if it is the weekend, Friday from 11:00, or Monday to Thursday after 11:30 with hour below 15 or minute below 30 |
| `DateRanges.DefaultWindow` | scripts/helper.py:337-339 | the default window ends at now and is one day and fifteen minutes long, to the microsecond |
| `DateRanges.MondayMorningExample` | scripts/helper.py:316-319 | Monday 2024-06-17 10:00 gives Friday 2024-06-14 11:30 to Monday 11:29 |
| `DateRanges.WednesdayMorningExample` | scripts/helper.py:322-324 | Wednesday 2024-06-19 09:00 gives Tuesday 2024-06-18 15:30 to Wednesday 11:29 |
| `DateRanges.SaturdayExample` | scripts/helper.py:337-339 | Saturday 2024-06-22 10:00 gives Friday 2024-06-21 09:45 to now |
| `DateRanges.StampExample` | scripts/helper.py:342 | Friday 2024-06-14 11:30 prints as `06/14/2024 11:30 AM` |
| `DateRanges.WeeklyDates` | scripts/helper.py:267-282 | the week starts on a Saturday at 00:00:00.000000 at most six days before now, ends six days later on a Friday at 23:59:59.999999, and holds now |
| `DateRanges.WeekStartUnique` | scripts/helper.py:270-271 | no other Saturday lies 0 to 6 days before now, so the week start is the only possible one |
| `DateRanges.YesterdayTodayRange` | scripts/helper.py:284-295 | a 43-character text whose first date parses to the calendar day before today and whose second date parses to today, with the fixed ` 12:00 am`, separator and ` 11:59 pm` pieces in place |
| `DateRanges.RangeText` | scripts/helper.py:292-295 | both dates of the range text read back from their fixed positions |
| `DateRanges.DayBefore` | scripts/helper.py:287 | yesterday is the previous calendar date of today, and both lie in years 1 to 9999 |
| `DateRanges.MonthAndDay` | scripts/helper.py:259-265 | the month abbreviation and day, read with the year of now, name exactly the date of now |
| `DateRanges.MonthAndDayOn` | scripts/helper.py:262-263 | on any date and at any time, the result is that date's abbreviation and day of month |
| `DateRanges.CallOnFridays` | scripts/helper.py:297-304 | the call runs, and its result comes back, if and only if now is a Friday; otherwise None |
| `DateRanges.WeekdayShift` | scripts/helper.py:270-271 | moving j days moves the weekday by j modulo 7 |
| `DateRanges.CallOnFridaysOncePerWeek` | scripts/helper.py:300 | of any seven consecutive days the call runs on exactly one, the Friday |
| `Summary.Run` | scripts/helper.py:177 | a greedy `\w+` or `\d+` takes the longest prefix of characters of its class |
| `Summary.MatchAt` | scripts/helper.py:177 | a match found at the start of the text is a nonempty word, `: `, and a maximal nonempty digit run |
| `Summary.MatchAtComplete` | scripts/helper.py:177 | whenever the text starts with a word, `: ` and digits, the matcher finds that word and at least those digits |
| `Summary.FindAll` | scripts/helper.py:177 | every pair `re.findall` yields has a nonempty word label and a nonempty digit count |
| `Summary.PairsOccur` | scripts/helper.py:177 | every pair `re.findall` yields is the label and count of a match anchored at some position of the text |
| `Summary.NoMatchNoPairs` | scripts/helper.py:177 | a text in which no position starts a `label: count` match yields no pairs |
| `Summary.SomeMatchSomePair` | scripts/helper.py:177 | a text in which some position starts a match yields at least one pair |
| `Summary.FindAllJoin` | scripts/helper.py:177 | pairs written as `label: count ` one after another are read back as exactly those pairs, in order |
| `Summary.SkipUnlabelledWord` | scripts/helper.py:177 | a word followed by anything but `:` yields no match and scanning resumes after it |
| `Summary.TwoWordLabel` | scripts/helper.py:177-186 | a two-word label `first key: count` yields the single pair (key, count) and no entry for the first word; so `American Express: 5` is read under `Express` and the American Express line shows 0 |
| `Summary.ToMapLastWins` | scripts/helper.py:178 | a repeated label keeps the count of its last occurrence |
| `Summary.ToMap` | scripts/helper.py:178 | the dictionary has an entry for every label of the pairs, and each entry is the count of some pair with that label |
| `Summary.Totals` | scripts/helper.py:177-178 | every label found in the cell has an entry, and every entry maps a nonempty word to a nonempty digit run |
| `Summary.ToMapAbsent` | scripts/helper.py:178 | a label that never occurs has no entry |
| `Summary.TotalsOfJoin` | scripts/helper.py:177-178 | the dictionary read from written pairs is the dictionary of those pairs |
| `Summary.Lookup` | scripts/helper.py:184-189 | `dict.get(key, '0')`: the stored count of a present key, and `0` for an absent one |
| `Summary.Card` | scripts/helper.py:184-189 | the card has exactly six lines |
| `Summary.NoMatchAllZeros` | scripts/helper.py:177-189 | a summary in which no position starts a `label: count` match gives six lines ending in `: 0` |
| `Summary.CardShowsLastCount` | scripts/helper.py:184-189 | a card line shows the last count found under its key |
| `Summary.CardDefaultsToZero` | scripts/helper.py:184-189 | a card line whose key never occurs shows 0 |
| `Reshape.FindSeparator` | scripts/helper.py:199 | the leftmost `: ` at or after a position, or none at all |
| `Reshape.Split` | scripts/helper.py:199 | `split(': ')` gives pieces free of the separator that join back, with the separator, to the text |
| `Reshape.SplitLabelled` | scripts/helper.py:199-203 | `tag: value`, with neither part holding the separator, splits into exactly the tag and the value |
| `Reshape.BodyCells` | scripts/helper.py:190-193 | `iloc[3:9, col]` holds exactly the six cells of rows 3 to 8 of that column, in order |
| `Reshape.Fills` | scripts/helper.py:190-193 | `fillna('')` keeps every text cell and turns every missing cell into the empty string, position by position |
| `Reshape.TotalOf` | scripts/helper.py:199-203 | a row-9 cell yields its second `: ` piece; a missing cell raises AttributeError and a text with no separator raises IndexError |
| `Reshape.RowTotals` | scripts/helper.py:198-204 | the totals row succeeds if and only if all four cells do and then gives their four totals in order; otherwise it raises the exception of the first failing cell in the order 0, 4, 8, 12 |
| `Reshape.Transform` | scripts/helper.py:171-208 | None if and only if the summary cell is missing; a table if and only if every access succeeds; a ValueError if and only if fewer than nine rows are read; a table has five columns of seven, the card on top, and the sales total in both first columns |
| `Reshape.OnlyReadCellsMatter` | scripts/helper.py:173-203 | tables of the same shape that agree on the cells read give the same outcome |
| `Reshape.ReadLayout` | scripts/helper.py:183-206 | a report laid out as exported reads back as its card, its four body columns with missing cells blank, and its totals |
| `Retry.NatTextValue` | scripts/helper.py:54 | the decimal digits printed for a natural number read back as that number |
| `Retry.IntText` | scripts/helper.py:54 | `{attempts}` prints canonical decimal text: digits with no leading zero except in `0`, after a minus sign exactly when the number is negative |
| `Retry.CanonicalIntText` | scripts/helper.py:54 | canonical decimal text is exactly `str` of the number it denotes, so each number has one canonical text |
| `Retry.IntTextValue` | scripts/helper.py:54 | the text an f-string prints for any integer, negative ones included, reads back as that integer |
| `Retry.IntTextInjective` | scripts/helper.py:54 | different attempt counts give different exception messages |
| `Retry.AllFailed` | scripts/helper.py:54 | the final exception reads `All `, then canonical decimal text that reads back as `attempts`, then ` attempts failed.`; by `CanonicalIntText` this fixes every character |
| `Retry.FirstSuccess` | scripts/helper.py:358-360 | the first attempt that returns, with every earlier attempt raising, or none if all raise |
| `Retry.RetryOperation` | scripts/helper.py:356-366 | the loop ends as the specification says, having called the operation and slept as many times as it says |
| `Retry.SuccessAfterSleeps` | scripts/helper.py:358-365 | success on attempt k, 0-based, returns its value after k sleeps and k + 1 calls |
| `Retry.AllAttemptsFail` | scripts/helper.py:358-366 | if every attempt raises: as many calls as attempts, one sleep fewer, then `All N attempts failed.` |
| `Retry.RetryBounds` | scripts/helper.py:358-365 | never more calls than attempts, and never a sleep after the last call |
| `Retry.ValueMeansSuccess` | scripts/helper.py:358-366 | a value comes back if and only if some attempt returns before any refused sleep, and it is the last call's value |
| `Retry.RetryWithDelay` | scripts/helper.py:42-56 | the decorated call ends as the retry specification says, with its call and sleep counts; a value is that of the first attempt that returns, after as many sleeps as failures before it; with a non-negative delay it raises `All N attempts failed.` exactly when every attempt fails; at most `attempts` calls and `attempts` − 1 sleeps |
| `Retry.DefaultWaitBound` | scripts/helper.py:42 | with the defaults, 5 attempts and 60 seconds, at most five calls and four minutes of sleep |

## Left out

- Browser automation is not modelled: launching Chrome, waiting for pages and
  elements, clicking, typing and the two downloads (scripts/helper.py:109-163,
  214-252, 351-354). They are calls into Playwright.
- Google Sheets and OAuth are not modelled (`write_sheet_data`,
  `get_user_credentials`, scripts/helper.py:62-103). Neither is the module-level
  setup of directories, `.env` and logging (scripts/helper.py:17-36).
- scripts/activity.py, scripts/main.py and scripts/main_call.py are not part of
  this model. They sequence the helpers and call the browser and the Sheets API.
  scripts/test.py is entirely commented out.
- The clock is not modelled. Each `datetime.now()` is the parameter `now`, a
  wall-clock reading in the rule's timezone. Timezones, DST and pytz are left out;
  on a pytz-aware datetime, `timedelta` arithmetic is plain wall-clock arithmetic,
  which is what the model does.
- `DateRanges.MonthAndDay`: `calculate_dates` reads the clock twice. The model
  reads it once, so a call straddling midnight at the end of a month is not modelled.
- `DateRanges.DailyCallWindow`: requires a day number above 1. Python raises
  OverflowError for a result before 0001-01-01, which happens only on day 1
  itself (a Monday, on the Monday-morning and default rules).
- `DateRanges.WeeklyDates` and `DateRanges.YesterdayTodayRange` require a day
  number of at least 6 and above 1 respectively. Below those, Python raises
  OverflowError.
- `Chrono.Stamp`, `Chrono.DateText`, `DateRanges.YesterdayTodayRange` and
  `DateRanges.RangeText`: years are printed with four digits. CPython on glibc
  prints `%Y` for years below 1000 without zero padding.
- `%b` is the C-locale English abbreviation table.
- `DateRanges.RangeSeparator` is the five characters the source places
  between ` 12:00 am` and the second date: a space, the three characters of a
  mis-decoded em dash, and a space. It is kept as a constant and not interpreted.
- `Summary.FindAll`: `\w` and `\d` are the ASCII classes. Python's Unicode classes
  also match letters and digits of other scripts.
- `Reshape.Transform`: a cell is either text or missing (NaN). A numeric cell
  is not modelled; at [0,0] it would take the None path like NaN.
- `Reshape.Transform`: the `print` before returning None is not modelled. Neither
  are the pandas index and column labels beyond the five column names.
- `Retry.RetryOperation`: logging is not performed and sleeping is only counted.
  The operation's arguments and its exception messages, which are only logged,
  are folded into the outcome of each call.
- `Retry.RetryOperation`: the delay is a whole number of seconds.
- `Retry.RetryOperation` and `Retry.RetryWithDelay`: every failure of the
  operation is retried. In Python, `except Exception` does not catch
  `BaseException` subclasses such as KeyboardInterrupt and SystemExit; these
  leave the loop at once, with no further call and no sleep.
