/**
 * The report date rules of scripts/helper.py. The clock read of each rule
 * (`datetime.now(...)`) is the parameter `now`: a wall-clock reading in the
 * timezone the rule names (New York for the call report, Chicago for the
 * month/day picker, the machine's local time for the others).
 */
module DateRanges {

  import opened Wrappers
  import opened Calendar
  import opened Chrono

  /** A report window: both ends are datetimes. */
  datatype Window = Window(start: DateTime, end: DateTime)

  // ----- daily_call_date_range -----

  /** The morning guard as written: `hour < 11 or (hour == 11 and minute <= 30)`. */
  predicate MorningGuard(t: DateTime) {
    t.hour < 11 || (t.hour == 11 && t.minute <= 30)
  }

  /** The afternoon guard as written: hour and minute are tested separately. */
  predicate AfternoonGuard(t: DateTime) {
    t.hour >= 15 && t.minute >= 30
  }

  /** The default window: from one day and fifteen minutes before `now` up to `now`. */
  function DefaultWindow(now: DateTime): (w: Window)
    ensures w.end == now
    ensures Micros(w.end) - Micros(w.start) == (1440 + 15) * 60000000
  {
    Window(MinusMinutes(now, 1440 + 15), now)
  }

  /**
   * The call-report window, by the first of five rules that applies: Monday morning,
   * Tuesday to Thursday morning, Monday to Thursday afternoon, Friday morning, and
   * the default. The end is always on the day of `now`, at most three days separate
   * the two ends, the start is strictly earlier than the end to the minute, and both
   * keep the seconds and microseconds of `now`.
   */
  function DailyCallWindow(now: DateTime): (w: Window)
    requires Valid(now) && now.ordinal > 1
    ensures Valid(w.start) && Valid(w.end)
    ensures w.end.ordinal == now.ordinal
    ensures now.ordinal - 3 <= w.start.ordinal <= now.ordinal
    ensures MinuteKey(w.start) < MinuteKey(w.end) && Micros(w.start) < Micros(w.end)
    ensures w.start.second == w.end.second == now.second
    ensures w.start.micro == w.end.micro == now.micro
  {
    var weekday := WeekdayOf(now);
    if weekday == 0 && MorningGuard(now) then
      Window(WithClock(ShiftDays(now, -3), 11, 30), WithClock(now, 11, 29))
    else if weekday in {1, 2, 3} && MorningGuard(now) then
      Window(WithClock(ShiftDays(now, -1), 15, 30), WithClock(now, 11, 29))
    else if weekday in {0, 1, 2, 3} && AfternoonGuard(now) then
      Window(WithClock(now, 11, 30), WithClock(now, 15, 29))
    else if weekday == 4 && now.hour < 11 then
      Window(WithClock(ShiftDays(now, -1), 15, 30), WithClock(now, 11, 29))
    else
      var w := DefaultWindow(now);
      assert MinuteKey(w.start) == MinuteKey(now) - 1440 - 15;
      w
  }

  /**
   * `daily_call_date_range`: the window's two ends as '%m/%d/%Y %I:%M %p'. Each reads
   * back as the date, hour and minute of its end of the window; the "To" reading is
   * today's date, and "From" names a strictly earlier minute.
   */
  function DailyCallDateRange(now: DateTime): (r: (string, string))
    requires Valid(now) && now.ordinal > 1
    ensures ParseStamp(r.0).Some? && ParseStamp(r.1).Some?
    ensures ParseStamp(r.1).value.date == DateOf(now)
    ensures ReadingKey(ParseStamp(r.0).value) < ReadingKey(ParseStamp(r.1).value)
    ensures var w := DailyCallWindow(now);
      && ParseStamp(r.0) == Some(Reading(DateOf(w.start), w.start.hour, w.start.minute))
      && ParseStamp(r.1) == Some(Reading(DateOf(w.end), w.end.hour, w.end.minute))
  {
    var w := DailyCallWindow(now);
    StampRoundTrip(w.start);
    StampRoundTrip(w.end);
    (Stamp(w.start), Stamp(w.end))
  }

  /** Monday up to and including 11:30: from the previous Friday at 11:30 to today at 11:29. */
  lemma MondayMorningWindow(now: DateTime)
    requires Valid(now) && now.ordinal > 1
    requires WeekdayOf(now) == 0 && now.hour * 60 + now.minute <= 11 * 60 + 30
    ensures var w := DailyCallWindow(now);
      && w.start == WithClock(ShiftDays(now, -3), 11, 30) && WeekdayOf(w.start) == 4
      && w.end == WithClock(now, 11, 29)
  {
  }

  /**
   * Tuesday to Thursday up to and including 11:30, and Friday before 11:00: from
   * yesterday (the previous calendar date) at 15:30 to today at 11:29.
   */
  lemma {:induction false} MorningAfterPreviousDay(now: DateTime)
    requires Valid(now) && now.ordinal > 1
    requires (1 <= WeekdayOf(now) <= 3 && now.hour * 60 + now.minute <= 11 * 60 + 30)
          || (WeekdayOf(now) == 4 && now.hour < 11)
    ensures var w := DailyCallWindow(now);
      && DateOf(w.start) == PreviousDate(DateOf(now)) && w.start.hour == 15 && w.start.minute == 30
      && w.end == WithClock(now, 11, 29)
  {
    OrdinalPredecessor(now.ordinal);
  }

  /** Monday to Thursday at hh:mm with hh >= 15 and mm >= 30: from today 11:30 to today 15:29. */
  lemma AfternoonWindow(now: DateTime)
    requires Valid(now) && now.ordinal > 1
    requires WeekdayOf(now) <= 3 && now.hour >= 15 && now.minute >= 30
    ensures DailyCallWindow(now) == Window(WithClock(now, 11, 30), WithClock(now, 15, 29))
  {
  }

  /**
   * The default rule applies exactly on the weekend, on Friday from 11:00, and on
   * Monday to Thursday after 11:30 whenever the hour is below 15 or the minute below
   * 30 (so 16:10 gets the default window while 15:45 does not).
   */
  lemma {:induction false} DefaultWindowExactly(now: DateTime)
    requires Valid(now) && now.ordinal > 1
    ensures DailyCallWindow(now) == DefaultWindow(now) <==>
      || WeekdayOf(now) >= 5
      || (WeekdayOf(now) == 4 && now.hour >= 11)
      || (WeekdayOf(now) <= 3 && now.hour * 60 + now.minute > 11 * 60 + 30
          && (now.hour < 15 || now.minute < 30))
  {
    var w := DailyCallWindow(now);
    var d := DefaultWindow(now);
    assert MinuteKey(d.start) == MinuteKey(now) - 1440 - 15;
    if MorningGuard(now) && WeekdayOf(now) <= 3 {
      // the morning windows start no later than 15:30 of yesterday, the default one earlier
      assert MinuteKey(w.start) != MinuteKey(d.start);
    } else if AfternoonGuard(now) && WeekdayOf(now) <= 3 {
      assert w.start.ordinal == now.ordinal && d.start.ordinal < now.ordinal;
    } else if WeekdayOf(now) == 4 && now.hour < 11 {
      assert w.end != now || MinuteKey(w.start) != MinuteKey(d.start);
    }
  }

  // ----- calculate_weekly_dates -----

  /**
   * `calculate_weekly_dates`: the Saturday-to-Friday week holding `now`, from Saturday
   * 00:00:00.000000 to the Friday six days later at 23:59:59.999999.
   */
  function WeeklyDates(now: DateTime): (w: Window)
    requires Valid(now) && now.ordinal >= 6
    ensures Valid(w.start) && Valid(w.end)
    ensures WeekdayOf(w.start) == 5 && WeekdayOf(w.end) == 4
    ensures w.start.ordinal <= now.ordinal <= w.start.ordinal + 6
    ensures w.end.ordinal == w.start.ordinal + 6
    ensures w.start.hour == 0 && w.start.minute == 0 && w.start.second == 0 && w.start.micro == 0
    ensures w.end.hour == 23 && w.end.minute == 59 && w.end.second == 59 && w.end.micro == 999999
    ensures Micros(w.start) <= Micros(now) <= Micros(w.end)
  {
    var daysSinceSaturday := (WeekdayOf(now) + 2) % 7;
    var lastSaturday := ShiftDays(now, -daysSinceSaturday);
    var nextFriday := ShiftDays(lastSaturday, 6);
    assert Weekday(MaxOrdinal) == 4;
    Window(DateTime(lastSaturday.ordinal, 0, 0, 0, 0), DateTime(nextFriday.ordinal, 23, 59, 59, 999999))
  }

  /** The week is the only one of its kind: no other Saturday is 0 to 6 days before `now`. */
  lemma {:induction false} WeekStartUnique(now: DateTime, saturday: int)
    requires Valid(now) && now.ordinal >= 6
    requires Weekday(saturday) == 5 && saturday <= now.ordinal <= saturday + 6
    ensures WeeklyDates(now).start.ordinal == saturday
  {
    var s := WeeklyDates(now).start.ordinal;
    SameWeekdayWithinWeek(s, saturday);
  }

  /** Two days less than a week apart that fall on the same weekday are the same day. */
  lemma SameWeekdayWithinWeek(m: int, n: int)
    requires Weekday(m) == Weekday(n) && -7 < m - n < 7
    ensures m == n
  {
  }

  // ----- format_yesterday_today_range -----

  /** The separator the source places between the two dates, kept as the characters it holds. */
  const RangeSeparator: string := " \U{E2}\U{20AC}\U{201D} "

  /** Where the pieces of a yesterday-today range sit in the text. */
  lemma RangeLayout(a: string, b: string)
    requires |a| == 10 && |b| == 10
    ensures var r := a + " 12:00 am" + RangeSeparator + b + " 11:59 pm";
      && |r| == 43 && r[..10] == a && r[10..24] == " 12:00 am" + RangeSeparator
      && r[24..34] == b && r[34..] == " 11:59 pm"
  {
  }

  /**
   * `format_yesterday_today_range`: "<yesterday> 12:00 am<separator><today> 11:59 pm",
   * both dates as '%m/%d/%Y'. The first date reads back as the calendar day before the second.
   */
  function YesterdayTodayRange(now: DateTime): (r: string)
    requires Valid(now) && now.ordinal > 1
    ensures |r| == 43
    ensures ParseDateText(r[..10]) == Some(PreviousDate(DateOf(now)))
    ensures r[10..24] == " 12:00 am" + RangeSeparator
    ensures ParseDateText(r[24..34]) == Some(DateOf(now))
    ensures r[34..] == " 11:59 pm"
  {
    DayBefore(now);
    RangeText(DateOf(ShiftDays(now, -1)), DateOf(now))
  }

  /** The day before `now` is the calendar day before its date, and both lie in years 1 to 9999. */
  lemma {:induction false} DayBefore(now: DateTime)
    requires Valid(now) && now.ordinal > 1
    ensures DateOf(ShiftDays(now, -1)) == PreviousDate(DateOf(now))
    ensures 1 <= DateOf(now).year <= 9999 && 1 <= DateOf(ShiftDays(now, -1)).year <= 9999
  {
    var n := now.ordinal;
    assert ShiftDays(now, -1).ordinal == n - 1;
    OrdinalYearRange(n);
    OrdinalYearRange(n - 1);
    OrdinalPredecessor(n);
  }

  /** "<first> 12:00 am<separator><second> 11:59 pm"; both dates read back from their places. */
  function RangeText(first: Date, second: Date): (r: string)
    requires ValidDate(first) && 1 <= first.year <= 9999
    requires ValidDate(second) && 1 <= second.year <= 9999
    ensures |r| == 43
    ensures ParseDateText(r[..10]) == Some(first) && ParseDateText(r[24..34]) == Some(second)
    ensures r[10..24] == " 12:00 am" + RangeSeparator && r[34..] == " 11:59 pm"
  {
    RangeLayout(DateText(first), DateText(second));
    DateTextRoundTrip(first);
    DateTextRoundTrip(second);
    DateText(first) + " 12:00 am" + RangeSeparator + DateText(second) + " 11:59 pm"
  }

  // ----- calculate_dates -----

  /**
   * `calculate_dates`: today's month as '%b' and day of the month. Read together with
   * the year of `now`, the pair names exactly the day of `now`.
   */
  function MonthAndDay(now: DateTime): (r: (string, int))
    ensures MonthNamed(r.0).Some?
    ensures var d := Date(DateOf(now).year, MonthNamed(r.0).value, r.1);
      ValidDate(d) && ToOrdinal(d) == now.ordinal
  {
    var today := DateOf(now);
    MonthAbbreviationsDistinct(today.month);
    (MonthAbbreviation(today.month), today.day)
  }

  /** On any valid date, at any time, the picker gets that date's month abbreviation and day. */
  lemma {:induction false} MonthAndDayOn(d: Date, hour: int, minute: int, second: int, micro: int)
    requires ValidDate(d)
    ensures MonthAndDay(DateTime(ToOrdinal(d), hour, minute, second, micro)) == (MonthAbbreviation(d.month), d.day)
  {
    FromToOrdinal(d);
  }

  // ----- call_on_fridays -----

  /**
   * `call_on_fridays`: the wrapped call runs, and its result is returned, only when
   * `now` falls on a Friday; on any other day nothing runs and None comes back.
   */
  function CallOnFridays<R>(now: DateTime, call: () -> R): (r: Option<R>)
    ensures r.Some? <==> WeekdayOf(now) == 4
    ensures r.Some? ==> r.value == call()
  {
    if WeekdayOf(now) != 4 then None else Some(call())
  }

  lemma {:induction false} WeekdayShift(n: int, j: int)
    ensures Weekday(n + j) == (Weekday(n) + j) % 7
  {
    var q := (n + 6) / 7;
    assert n + 6 == 7 * q + Weekday(n);
    assert n + j + 6 == 7 * q + (Weekday(n) + j);
  }

  /** Of any seven consecutive days, the wrapped call runs on exactly one. */
  lemma {:induction false} CallOnFridaysOncePerWeek<R>(now: DateTime, call: () -> R)
    ensures forall j :: 0 <= j < 7 ==>
      (CallOnFridays(ShiftDays(now, j), call).Some? <==> j == (4 - WeekdayOf(now)) % 7)
  {
    forall j | 0 <= j < 7
      ensures CallOnFridays(ShiftDays(now, j), call).Some? <==> j == (4 - WeekdayOf(now)) % 7
    {
      WeekdayShift(now.ordinal, j);
    }
  }

  // ----- worked examples -----

  /**
   * Monday 2024-06-17 at 10:00 New York time: from Friday 2024-06-14 at 11:30 to the same
   * Monday at 11:29.
   */
  lemma MondayMorningExample()
    ensures var w := DailyCallWindow(DateTime(ToOrdinal(Date(2024, 6, 17)), 10, 0, 0, 0));
      && DateOf(w.start) == Date(2024, 6, 14) && w.start.hour == 11 && w.start.minute == 30
      && DateOf(w.end) == Date(2024, 6, 17) && w.end.hour == 11 && w.end.minute == 29
  {
    var monday := Date(2024, 6, 17);
    assert ToOrdinal(monday) == 739054;
    FromToOrdinal(monday);
    FromToOrdinal(Date(2024, 6, 14));
  }

  /** Wednesday 2024-06-19 at 09:00: from Tuesday at 15:30 to Wednesday at 11:29. */
  lemma WednesdayMorningExample()
    ensures var w := DailyCallWindow(DateTime(ToOrdinal(Date(2024, 6, 19)), 9, 0, 0, 0));
      && DateOf(w.start) == Date(2024, 6, 18) && w.start.hour == 15 && w.start.minute == 30
      && DateOf(w.end) == Date(2024, 6, 19) && w.end.hour == 11 && w.end.minute == 29
  {
    var wednesday := Date(2024, 6, 19);
    assert ToOrdinal(wednesday) == 739056;
    FromToOrdinal(wednesday);
    FromToOrdinal(Date(2024, 6, 18));
  }

  /** Saturday 2024-06-22 at 10:00 matches no rule: from Friday at 09:45 to now. */
  lemma SaturdayExample()
    ensures var now := DateTime(ToOrdinal(Date(2024, 6, 22)), 10, 0, 0, 0);
      var w := DailyCallWindow(now);
      && DateOf(w.start) == Date(2024, 6, 21) && w.start.hour == 9 && w.start.minute == 45
      && w.end == now
  {
    var saturday := Date(2024, 6, 22);
    assert ToOrdinal(saturday) == 739059;
    var now := DateTime(739059, 10, 0, 0, 0);
    assert DailyCallWindow(now) == DefaultWindow(now);
    assert DefaultWindow(now).start == DateTime(739058, 9, 45, 0, 0);
    FromToOrdinal(Date(2024, 6, 21));
  }

  /** The "From" text of the Monday example. */
  lemma StampExample()
    ensures 1 <= ToOrdinal(Date(2024, 6, 14)) <= MaxOrdinal
    ensures Stamp(DateTime(ToOrdinal(Date(2024, 6, 14)), 11, 30, 0, 0)) == "06/14/2024 11:30 AM"
  {
    var friday := Date(2024, 6, 14);
    FromToOrdinal(friday);
    StampOn(friday, 11, 30, 0, 0);
    DateTextExample();
    ClockTextExample();
  }

  /** The date part of the "From" text. */
  lemma DateTextExample()
    ensures DateText(Date(2024, 6, 14)) == "06/14/2024"
  {
  }

  /** The clock part of the "From" text: 11:30 on a 12-hour clock, before noon. */
  lemma ClockTextExample()
    ensures TwoDigits(Hour12(11)) == "11" && TwoDigits(30) == "30" && Meridiem(11) == "AM"
  {
  }
}
