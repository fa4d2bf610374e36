/**
 * `DateTime` and `TimeSpan` as far as the core uses them: the date part of a
 * moment (`DateTime.Date`), comparison of durations with zero, and the
 * `yyyyMMddHHmmss` rendering that booking references carry.
 */
module Clock {
  import opened Text

  datatype DateTimeFields = DateTimeFields(
    year: int, month: int, day: int,
    hour: int, minute: int, second: int,
    fraction: int  // 100-nanosecond ticks within the second
  )

  predicate IsLeapYear(y: int) {
    y % 4 == 0 && (y % 100 != 0 || y % 400 == 0)
  }

  function DaysInMonth(y: int, m: int): int {
    if m == 2 then (if IsLeapYear(y) then 29 else 28)
    else if m == 4 || m == 6 || m == 9 || m == 11 then 30
    else 31
  }

  /** The range `DateTime` admits: years 1 to 9999 of the proleptic Gregorian calendar. */
  predicate ValidDateTime(d: DateTimeFields) {
    && 1 <= d.year <= 9999
    && 1 <= d.month <= 12
    && 1 <= d.day <= DaysInMonth(d.year, d.month)
    && 0 <= d.hour < 24
    && 0 <= d.minute < 60
    && 0 <= d.second < 60
    && 0 <= d.fraction < 10_000_000
  }

  type DateTime = d: DateTimeFields | ValidDateTime(d) witness DateTimeFields(1, 1, 1, 0, 0, 0, 0)

  predicate IsMidnight(d: DateTime) {
    d.hour == 0 && d.minute == 0 && d.second == 0 && d.fraction == 0
  }

  /** `DateTime.Date`: the same calendar day at midnight. */
  function DatePart(d: DateTime): DateTime {
    d.(hour := 0, minute := 0, second := 0, fraction := 0)
  }

  /** `.Date` keeps the calendar day, lands on midnight, and is idempotent;
      two moments have the same date part exactly when they fall on the same day. */
  lemma DatePartIsTheDay(d: DateTime, e: DateTime)
    ensures IsMidnight(DatePart(d))
    ensures DatePart(d).year == d.year && DatePart(d).month == d.month && DatePart(d).day == d.day
    ensures DatePart(DatePart(d)) == DatePart(d)
    ensures IsMidnight(d) ==> DatePart(d) == d
    ensures DatePart(d) == DatePart(e) <==> (d.year, d.month, d.day) == (e.year, e.month, e.day)
  {
  }

  /** `TimeSpan` as its signed count of 100-nanosecond ticks. */
  datatype TimeSpan = TimeSpan(ticks: int)

  const TimeSpanZero := TimeSpan(0)

  predicate IsPositive(t: TimeSpan) {
    t.ticks > 0
  }

  /** The custom format `yyyyMMddHHmmss`. */
  function UtcStamp(d: DateTime): (s: string)
    ensures |s| == 14 && AllDigits(s)
  {
    PadDecimal(d.year, 4) + PadDecimal(d.month, 2) + PadDecimal(d.day, 2) +
    PadDecimal(d.hour, 2) + PadDecimal(d.minute, 2) + PadDecimal(d.second, 2)
  }

  /** Reads a `yyyyMMddHHmmss` stamp back into calendar fields. */
  function ParseStamp(s: string): DateTimeFields
    requires |s| == 14 && AllDigits(s)
  {
    DateTimeFields(
      DigitsValue(s[0..4]), DigitsValue(s[4..6]), DigitsValue(s[6..8]),
      DigitsValue(s[8..10]), DigitsValue(s[10..12]), DigitsValue(s[12..14]), 0)
  }

  /** The stamp determines the moment up to the second. */
  lemma StampRoundTrip(d: DateTime)
    ensures ParseStamp(UtcStamp(d)) == d.(fraction := 0)
  {
    var yy, mo, dd := PadDecimal(d.year, 4), PadDecimal(d.month, 2), PadDecimal(d.day, 2);
    var hh, mi, ss := PadDecimal(d.hour, 2), PadDecimal(d.minute, 2), PadDecimal(d.second, 2);
    var p1 := yy + mo;
    var p2 := p1 + dd;
    var p3 := p2 + hh;
    var p4 := p3 + mi;
    var s := p4 + ss;
    assert s == UtcStamp(d);
    ConcatSlices(p4, ss, 0, 12);
    ConcatSlices(p4, ss, 10, 12);
    ConcatSlices(p4, ss, 8, 10);
    ConcatSlices(p4, ss, 6, 8);
    ConcatSlices(p4, ss, 4, 6);
    ConcatSlices(p4, ss, 0, 4);
    ConcatSlices(p4, ss, 0, 2);
    ConcatSlices(p3, mi, 8, 10);
    ConcatSlices(p3, mi, 6, 8);
    ConcatSlices(p3, mi, 4, 6);
    ConcatSlices(p3, mi, 0, 4);
    ConcatSlices(p3, mi, 0, 2);
    ConcatSlices(p2, hh, 6, 8);
    ConcatSlices(p2, hh, 4, 6);
    ConcatSlices(p2, hh, 0, 4);
    ConcatSlices(p2, hh, 0, 2);
    ConcatSlices(p1, dd, 4, 6);
    ConcatSlices(p1, dd, 0, 4);
    ConcatSlices(p1, dd, 0, 2);
    ConcatSlices(yy, mo, 0, 4);
    ConcatSlices(yy, mo, 0, 2);
    assert s[0..4] == yy;
    assert s[4..6] == mo;
    assert s[6..8] == dd;
    assert s[8..10] == hh;
    assert s[10..12] == mi;
    assert s[12..14] == ss;
    assert Pow10(2) == 100 && Pow10(4) == 10000;
    PadDecimalRoundTrip(d.year, 4);
    PadDecimalRoundTrip(d.month, 2);
    PadDecimalRoundTrip(d.day, 2);
    PadDecimalRoundTrip(d.hour, 2);
    PadDecimalRoundTrip(d.minute, 2);
    PadDecimalRoundTrip(d.second, 2);
  }
}
