/**
 * A naive Python `datetime` as a value: an ordinal day (see Calendar) and a
 * wall-clock time down to the microsecond, with the arithmetic the report
 * date rules use (`- timedelta(...)`, `.replace(...)`) and the rendering
 * '%m/%d/%Y %I:%M %p' together with a parser that reads it back.
 */
module Chrono {

  import opened Wrappers
  import opened Calendar
  import opened Decimal

  datatype DateTime = DateTime(ordinal: int, hour: int, minute: int, second: int, micro: int)

  predicate ValidTime(t: DateTime) {
    0 <= t.hour < 24 && 0 <= t.minute < 60 && 0 <= t.second < 60 && 0 <= t.micro < 1000000
  }

  /** A value a Python `datetime` can hold: years 1 to 9999 and a well-formed time of day. */
  predicate Valid(t: DateTime) {
    1 <= t.ordinal <= MaxOrdinal && ValidTime(t)
  }

  function DateOf(t: DateTime): Date {
    FromOrdinal(t.ordinal)
  }

  function WeekdayOf(t: DateTime): int {
    Weekday(t.ordinal)
  }

  /** Whole minutes (1440 a day) since the start of ordinal day 0; seconds and microseconds are not counted. */
  function MinuteKey(t: DateTime): int {
    t.ordinal * 1440 + t.hour * 60 + t.minute
  }

  /** Microseconds since the start of ordinal day 0: the time line the datetimes sit on. */
  function Micros(t: DateTime): int {
    (MinuteKey(t) * 60 + t.second) * 1000000 + t.micro
  }

  /** `t + timedelta(days=k)` (and, with k negative, `t - timedelta(days=-k)`): the wall-clock time is kept. */
  function ShiftDays(t: DateTime, k: int): (r: DateTime)
    ensures ValidTime(t) ==> ValidTime(r)
    ensures Micros(r) == Micros(t) + k * 1440 * 60000000
  {
    t.(ordinal := t.ordinal + k)
  }

  /** `t.replace(hour=h, minute=m)`: the day, second and microsecond are kept. */
  function WithClock(t: DateTime, h: int, m: int): (r: DateTime)
    requires 0 <= h < 24 && 0 <= m < 60
    ensures ValidTime(t) ==> ValidTime(r)
    ensures r.ordinal == t.ordinal && r.hour == h && r.minute == m
    ensures r.second == t.second && r.micro == t.micro
  {
    t.(hour := h, minute := m)
  }

  /** `t - timedelta(minutes=k)`: borrows from the hour and the day as needed. */
  function MinusMinutes(t: DateTime, k: int): (r: DateTime)
    ensures ValidTime(t) ==> ValidTime(r)
    ensures Micros(r) == Micros(t) - k * 60000000
    ensures r.second == t.second && r.micro == t.micro
  {
    var total := MinuteKey(t) - k;
    var r := DateTime(total / 1440, (total % 1440) / 60, total % 60, t.second, t.micro);
    assert total % 1440 == ((total % 1440) / 60) * 60 + total % 60;
    assert MinuteKey(r) == total;
    assert Micros(r) == total * 60000000 + t.second * 1000000 + t.micro;
    assert Micros(t) == MinuteKey(t) * 60000000 + t.second * 1000000 + t.micro;
    r
  }

  // ----- rendering -----

  /** Two zero-padded decimal digits, as '%m', '%d', '%I' and '%M' print them. */
  function TwoDigits(n: int): (s: string)
    requires 0 <= n < 100
    ensures |s| == 2
  {
    [DigitChar(n / 10), DigitChar(n % 10)]
  }

  /** Four zero-padded decimal digits, as '%Y' prints years 1000 to 9999. */
  function FourDigits(n: int): (s: string)
    requires 0 <= n < 10000
    ensures |s| == 4
  {
    TwoDigits(n / 100) + TwoDigits(n % 100)
  }

  /** '%m/%d/%Y'. */
  function DateText(d: Date): (s: string)
    requires ValidDate(d) && 0 <= d.year < 10000
    ensures |s| == 10 && s[2] == '/' && s[5] == '/'
  {
    TwoDigits(d.month) + "/" + TwoDigits(d.day) + "/" + FourDigits(d.year)
  }

  /** '%I': the hour on a 12-hour clock, 12 for midnight and noon. */
  function Hour12(h: int): (r: int)
    requires 0 <= h < 24
    ensures 1 <= r <= 12 && r % 12 == h % 12
  {
    if h % 12 == 0 then 12 else h % 12
  }

  /** '%p' in the C locale. */
  function Meridiem(h: int): (r: string)
    ensures r == "AM" <==> h < 12
    ensures r == "PM" <==> 12 <= h
  {
    if h < 12 then "AM" else "PM"
  }

  /** '%m/%d/%Y %I:%M %p', the form both ends of the call-report window take. */
  function Stamp(t: DateTime): (s: string)
    requires Valid(t)
    ensures |s| == 19
  {
    OrdinalYearRange(t.ordinal);
    DateText(DateOf(t)) + " " + TwoDigits(Hour12(t.hour)) + ":" + TwoDigits(t.minute) + " " + Meridiem(t.hour)
  }

  // ----- reading the rendering back -----

  /** What a stamp says: a date, and an hour (0 to 23) and minute of that date. */
  datatype Reading = Reading(date: Date, hour: int, minute: int)

  /** The minute a reading names, on the same scale as `MinuteKey`. */
  function ReadingKey(r: Reading): int
    requires 1 <= r.date.month <= 12
  {
    ToOrdinal(r.date) * 1440 + r.hour * 60 + r.minute
  }

  /** Reads '%m/%d/%Y' back, accepting only dates the calendar has. */
  function ParseDateText(s: string): (r: Option<Date>)
    ensures r.Some? ==> ValidDate(r.value)
  {
    if |s| != 10 || s[2] != '/' || s[5] != '/' then None
    else match (NumberText(s[..2]), NumberText(s[3..5]), NumberText(s[6..]))
      case (Some(m), Some(d), Some(y)) => if ValidDate(Date(y, m, d)) then Some(Date(y, m, d)) else None
      case _ => None
  }

  /** Reads '%m/%d/%Y %I:%M %p' back into a 24-hour reading. */
  function ParseStamp(s: string): (r: Option<Reading>)
    ensures r.Some? ==> ValidDate(r.value.date) && 0 <= r.value.hour < 24
  {
    if |s| != 19 || s[10] != ' ' || s[13] != ':' || s[16] != ' ' then None
    else
      match (ParseDateText(s[..10]), NumberText(s[11..13]), NumberText(s[14..16]))
      case (Some(d), Some(h12), Some(m)) =>
        if 1 <= h12 <= 12 && (s[17..] == "AM" || s[17..] == "PM") then
          Some(Reading(d, h12 % 12 + (if s[17..] == "PM" then 12 else 0), m))
        else None
      case _ => None
  }

  lemma {:induction false} TwoDigitsRoundTrip(n: int)
    requires 0 <= n < 100
    ensures NumberText(TwoDigits(n)) == Some(n)
  {
    var s := TwoDigits(n);
    DigitRoundTrip(n / 10);
    DigitRoundTrip(n % 10);
    assert s[..1][..0] == [];
    assert NumberText(s[..1]) == Some(n / 10);
    assert s[..|s| - 1] == s[..1];
  }

  lemma {:induction false} FourDigitsRoundTrip(n: int)
    requires 0 <= n < 10000
    ensures NumberText(FourDigits(n)) == Some(n)
  {
    var s := FourDigits(n);
    TwoDigitsRoundTrip(n / 100);
    assert s[..3][..2] == TwoDigits(n / 100);
    assert s[..3] == s[..2] + [s[2]];
    assert s[..2] == TwoDigits(n / 100);
  }

  lemma {:induction false} DateTextRoundTrip(d: Date)
    requires ValidDate(d) && 0 <= d.year < 10000
    ensures ParseDateText(DateText(d)) == Some(d)
  {
    var s := DateText(d);
    TwoDigitsRoundTrip(d.month);
    TwoDigitsRoundTrip(d.day);
    FourDigitsRoundTrip(d.year);
    assert s[..2] == TwoDigits(d.month);
    assert s[3..5] == TwoDigits(d.day);
    assert s[6..] == FourDigits(d.year);
  }

  /** A stamp assembled from readable parts reads back as those parts. */
  lemma {:induction false} ParseStampParts(dt: string, hh: string, mm: string, p: string, d: Date, h12: int, h: int, m: int)
    requires |dt| == 10 && ParseDateText(dt) == Some(d)
    requires |hh| == 2 && NumberText(hh) == Some(h12) && 1 <= h12 <= 12
    requires |mm| == 2 && NumberText(mm) == Some(m)
    requires p == "AM" || p == "PM"
    requires h == h12 % 12 + (if p == "PM" then 12 else 0)
    ensures ParseStamp(dt + " " + hh + ":" + mm + " " + p) == Some(Reading(d, h, m))
  {
    var s := dt + " " + hh + ":" + mm + " " + p;
    assert s[..10] == dt;
    assert s[11..13] == hh;
    assert s[14..16] == mm;
    assert s[17..] == p;
  }

  lemma Hour12RoundTrip(h: int)
    requires 0 <= h < 24
    ensures Hour12(h) % 12 + (if Meridiem(h) == "PM" then 12 else 0) == h
  {
  }

  /** The stamp of a datetime reads back as its date, hour and minute. */
  lemma {:induction false} StampRoundTrip(t: DateTime)
    requires Valid(t)
    ensures ParseStamp(Stamp(t)) == Some(Reading(DateOf(t), t.hour, t.minute))
  {
    var d := DateOf(t);
    OrdinalYearRange(t.ordinal);
    var dt, hh, mm, p := DateText(d), TwoDigits(Hour12(t.hour)), TwoDigits(t.minute), Meridiem(t.hour);
    assert Stamp(t) == dt + " " + hh + ":" + mm + " " + p;
    DateTextRoundTrip(d);
    TwoDigitsRoundTrip(Hour12(t.hour));
    TwoDigitsRoundTrip(t.minute);
    Hour12RoundTrip(t.hour);
    ParseStampParts(dt, hh, mm, p, d, Hour12(t.hour), t.hour, t.minute);
  }

  /** The stamp of a datetime on a given date, with the date's ordinal taken apart. */
  lemma {:induction false} StampOn(d: Date, h: int, m: int, sec: int, us: int)
    requires ValidDate(d) && 1 <= d.year <= 9999
    requires ValidTime(DateTime(0, h, m, sec, us))
    ensures 1 <= ToOrdinal(d) <= MaxOrdinal
    ensures Stamp(DateTime(ToOrdinal(d), h, m, sec, us))
         == DateText(d) + " " + TwoDigits(Hour12(h)) + ":" + TwoDigits(m) + " " + Meridiem(h)
  {
    OrdinalInRange(d);
    FromToOrdinal(d);
  }

  /** Two datetimes with the same stamp agree on everything down to the minute. */
  lemma {:induction false} StampInjective(a: DateTime, b: DateTime)
    requires Valid(a) && Valid(b)
    requires Stamp(a) == Stamp(b)
    ensures MinuteKey(a) == MinuteKey(b)
  {
    StampRoundTrip(a);
    StampRoundTrip(b);
    assert DateOf(a) == DateOf(b);
    assert ToOrdinal(DateOf(a)) == a.ordinal;
  }
}
