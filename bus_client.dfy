/**
 * The frontend's bus service (src/bus-reservation-system/src/app/services/bus.ts):
 * how the JSON the backend sends for a search result, a bus and a seat plan
 * becomes the `Bus` and `SeatLayout` values the pages show. The JSON is
 * modelled as the text the ASP.NET serialiser writes for each field, so the
 * lemmas here can follow a value from the backend model to the screen.
 */
module BusClient {
  import opened Text
  import opened Guids
  import opened Clock
  import Seats
  import Booking
  import Search

  // ---------------------------------------------------------------------
  // `parseInt`
  // ---------------------------------------------------------------------

  /** What `parseInt` can return: NaN or an integer. */
  datatype JsNumber = NaN | Num(value: int)

  /** The characters `parseInt` skips on the left: ECMAScript's WhiteSpace
      (TAB, VT, FF, SP, NBSP, ZWNBSP and the Zs separators) and LineTerminator. */
  predicate IsJsWhiteSpace(c: char) {
    c == '\t' || c == '\U{B}' || c == '\U{C}' || c == ' ' || c == '\U{A0}' || c == '\U{FEFF}' ||
    c == '\U{1680}' || ('\U{2000}' <= c <= '\U{200A}') || c == '\U{202F}' || c == '\U{205F}' ||
    c == '\U{3000}' || c == '\n' || c == '\r' || c == '\U{2028}' || c == '\U{2029}'
  }

  function TrimStart(s: string): (r: string)
    ensures |r| <= |s| && r == s[|s| - |r|..]
    ensures r == [] || !IsJsWhiteSpace(r[0])
    ensures forall i :: 0 <= i < |s| - |r| ==> IsJsWhiteSpace(s[i])
  {
    if s != [] && IsJsWhiteSpace(s[0]) then TrimStart(s[1..]) else s
  }

  /** The value of a character as a digit in radices up to 36; 36 for a
      character that is a digit in none of them. */
  function DigitValueIn(c: char): nat {
    if '0' <= c <= '9' then c as int - 48
    else if 'a' <= c <= 'z' then c as int - 87
    else if 'A' <= c <= 'Z' then c as int - 55
    else 36
  }

  /** The length of the longest prefix of `s` made of digits of the radix. */
  function DigitPrefix(s: string, radix: nat): (n: nat)
    ensures n <= |s|
    ensures forall i :: 0 <= i < n ==> DigitValueIn(s[i]) < radix
    ensures n < |s| ==> DigitValueIn(s[n]) >= radix
  {
    if s != [] && DigitValueIn(s[0]) < radix then 1 + DigitPrefix(s[1..], radix) else 0
  }

  /** The number a string of digits denotes in the radix. */
  function RadixValue(z: string, radix: nat): nat {
    if z == [] then 0 else RadixValue(z[..|z| - 1], radix) * radix + DigitValueIn(z[|z| - 1])
  }

  /** `parseInt(input, radix)`, with `radix` already converted to an integer
      (an absent radix converts to 0): skip leading white space, take one
      sign, take a `0x`/`0X` prefix as radix 16 when the radix is 0 or 16,
      then read the longest run of digits; no digits give NaN. */
  function ParseInt(input: string, radix: int): (r: JsNumber)
    ensures radix != 0 && (radix < 2 || radix > 36) ==> r == NaN
    ensures TrimStart(input) == [] ==> r == NaN
    ensures r.Num? && r.value < 0 ==> TrimStart(input)[0] == '-'
  {
    var s := TrimStart(input);
    var negative := s != [] && s[0] == '-';
    var t := if s != [] && (s[0] == '-' || s[0] == '+') then s[1..] else s;
    if radix != 0 && (radix < 2 || radix > 36) then NaN
    else
      var hex := (radix == 0 || radix == 16) && |t| >= 2 && t[0] == '0' && (t[1] == 'x' || t[1] == 'X');
      var r: nat := if hex then 16 else if radix == 0 then 10 else radix;
      var u := if hex then t[2..] else t;
      var n := DigitPrefix(u, r);
      if n == 0 then NaN
      else if negative then Num(0 - RadixValue(u[..n], r) as int)
      else Num(RadixValue(u[..n], r))
  }

  /** A string of digits holds no other character. */
  lemma DigitsExclude(s: string, c: char)
    requires AllDigits(s) && !IsDigit(c)
    ensures c !in s
  {
  }

  lemma {:induction false} RadixTenIsDecimal(z: string)
    requires AllDigits(z)
    ensures RadixValue(z, 10) == DigitsValue(z)
    ensures DigitPrefix(z, 10) == |z|
  {
    if z != [] {
      RadixTenIsDecimal(z[..|z| - 1]);
      RadixTenIsDecimal(z[1..]);
    }
  }

  /** A non-empty run of decimal digits parses, with or without radix 10,
      to the number it denotes. */
  lemma ParseDecimal(z: string, radix: int)
    requires z != [] && AllDigits(z)
    requires radix == 0 || radix == 10
    ensures ParseInt(z, radix) == Num(DigitsValue(z))
  {
    assert !IsJsWhiteSpace(z[0]) && z[0] != '-' && z[0] != '+';
    assert TrimStart(z) == z;
    assert |z| >= 2 ==> z[1] != 'x' && z[1] != 'X';
    RadixTenIsDecimal(z);
    assert z[..|z|] == z;
  }

  /** Seat numbers as the backend writes them parse back to the number. */
  lemma SeatNumberParsesBack(k: nat)
    ensures ParseInt(NatToString(k), 10) == Num(k)
  {
    ParseDecimal(NatToString(k), 10);
    NatToStringRoundTrip(k);
  }

  // ---------------------------------------------------------------------
  // Times and dates
  // ---------------------------------------------------------------------

  /** JavaScript's `%`, whose remainder takes the sign of the dividend. */
  function JsRem(a: int, b: int): (r: int)
    requires b > 0
    ensures -b < r < b
    ensures a >= 0 ==> r == a % b
  {
    if a >= 0 then a % b else -((-a) % b)
  }

  /** `formatTime`: the hour is `parseInt` of the text before the first ':',
      the minutes are the text between the first and second ':' (the word
      `undefined` when there is no ':'), the suffix is PM exactly when the
      hour is a number of at least 12, and the shown hour is `hour % 12`, or
      12 when that is 0 or NaN. */
  function FormatTime(time: string): (r: string)
    ensures |r| >= 3 && r[|r| - 3] == ' ' && r[|r| - 1] == 'M' && (r[|r| - 2] == 'A' || r[|r| - 2] == 'P')
    ensures var hour := ParseInt(Split(time, ':')[0], 0);
      r[|r| - 2] == 'P' <==> hour.Num? && hour.value >= 12
  {
    var parts := Split(time, ':');
    var hour := ParseInt(parts[0], 0);
    var minutes := if |parts| >= 2 then parts[1] else "undefined";
    var ampm := if hour.Num? && hour.value >= 12 then "PM" else "AM";
    var displayHour := if hour.Num? && JsRem(hour.value, 12) != 0 then IntToString(JsRem(hour.value, 12)) else "12";
    displayHour + ":" + minutes + " " + ampm
  }

  /** The hour of a 12-hour clock face for an hour of the day. */
  function TwelveHour(h: nat): nat {
    if h % 12 == 0 then 12 else h % 12
  }

  /** The text `formatTime` shows for the hour: "12" at noon and midnight. */
  function ClockFace(h: nat): (s: string)
    ensures s == NatToString(TwelveHour(h))
  {
    if h % 12 == 0 then "12" else NatToString(h % 12)
  }

  function Meridiem(h: nat): string {
    if h >= 12 then "PM" else "AM"
  }

  /** The clock face and the suffix determine the hour of the day again. */
  lemma TwelveHourRoundTrip(h: nat)
    requires h < 24
    ensures 1 <= TwelveHour(h) <= 12
    ensures h == TwelveHour(h) % 12 + (if Meridiem(h) == "PM" then 12 else 0)
  {
  }

  /** The pieces of `HH:mm:rest` before and between the first two ':'. */
  lemma SplitTime(hh: string, mm: string, rest: string)
    requires ':' !in hh && ':' !in mm
    ensures var parts := Split(hh + ":" + mm + ":" + rest, ':');
      |parts| >= 2 && parts[0] == hh && parts[1] == mm
  {
    assert hh + ":" + mm + ":" + rest == hh + [':'] + (mm + [':'] + rest);
    SplitAtFirst(hh, ':', mm + [':'] + rest);
    SplitAtFirst(mm, ':', rest);
  }

  /** `formatTime` once the hour text is known to parse to a number of at least 0. */
  lemma FormatNonNegativeHour(time: string, hh: string, v: nat)
    requires Split(time, ':')[0] == hh && ParseInt(hh, 0) == Num(v)
    ensures var parts := Split(time, ':');
      FormatTime(time) ==
        ClockFace(v) + ":" + (if |parts| >= 2 then parts[1] else "undefined") + " " + Meridiem(v)
  {
    assert JsRem(v, 12) == v % 12;
  }

  /** `formatTime` once the hour text is known to be decimal digits. */
  lemma FormatDecimalHour(time: string, hh: string)
    requires hh != [] && AllDigits(hh) && Split(time, ':')[0] == hh
    ensures var parts := Split(time, ':');
      FormatTime(time) ==
        ClockFace(DigitsValue(hh)) + ":" + (if |parts| >= 2 then parts[1] else "undefined") +
        " " + Meridiem(DigitsValue(hh))
  {
    ParseDecimal(hh, 0);
    FormatNonNegativeHour(time, hh, DigitsValue(hh));
  }

  /** On `HH:mm:rest` with a decimal hour, `formatTime` shows the 12-hour
      clock face of the hour, the minutes text as it is and the suffix, and
      drops everything after the minutes. */
  lemma FormatTimeOfDay(hh: string, mm: string, rest: string)
    requires hh != [] && AllDigits(hh) && ':' !in mm
    ensures FormatTime(hh + ":" + mm + ":" + rest) ==
      ClockFace(DigitsValue(hh)) + ":" + mm + " " + Meridiem(DigitsValue(hh))
  {
    DigitsExclude(hh, ':');
    SplitTime(hh, mm, rest);
    FormatDecimalHour(hh + ":" + mm + ":" + rest, hh);
  }

  /** An untyped JSON value, as far as `formatTimeSpan` tells them apart. */
  datatype JsValue = JsString(text: string) | JsNonString

  /** `formatTimeSpan`: strings go through `formatTime`, anything else shows
      as '00:00 AM'. */
  function FormatTimeSpan(timeSpan: JsValue): (r: string)
    ensures timeSpan.JsString? ==> r == FormatTime(timeSpan.text)
    ensures timeSpan.JsNonString? ==> r == "00:00 AM"
  {
    match timeSpan
    case JsString(text) => FormatTime(text)
    case JsNonString => "00:00 AM"
  }

  /** `formatDate` on a string: the text before the first 'T'. */
  function FormatDate(date: string): (r: string)
    ensures 'T' !in date ==> r == date
    ensures forall a, b :: date == a + "T" + b && 'T' !in a ==> r == a
  {
    SplitJoin(date, 'T');
    if 'T' !in date then SplitWithoutSeparator(date, 'T'); Split(date, 'T')[0]
    else
      assert forall a, b :: date == a + "T" + b && 'T' !in a ==> Split(date, 'T')[0] == a by {
        forall a, b | date == a + "T" + b && 'T' !in a ensures Split(date, 'T')[0] == a {
          assert date == a + ['T'] + b;
          SplitAtFirst(a, 'T', b);
        }
      }
      Split(date, 'T')[0]
  }

  const TicksPerSecond: nat := 10_000_000
  const TicksPerMinute: nat := 600_000_000
  const TicksPerHour: nat := 36_000_000_000
  const TicksPerDay: nat := 864_000_000_000

  /** A duration under a day has its whole hours below 24. */
  lemma HourOfDay(a: nat)
    requires a < TicksPerDay
    ensures a / TicksPerHour < 24 && (a / TicksPerHour) % 24 == a / TicksPerHour
  {
  }

  /** The JSON text of a `TimeSpan`: the constant format `[-][d.]hh:mm:ss[.fffffff]`. */
  function TimeSpanJson(t: TimeSpan): (r: string)
    ensures |r| >= 8 && (r[0] == '-' <==> t.ticks < 0)
    ensures 0 <= t.ticks < TicksPerDay ==>
      r[2] == ':' && r[5] == ':' && AllDigits(r[..2]) && AllDigits(r[3..5]) && AllDigits(r[6..8]) &&
      DigitsValue(r[..2]) == t.ticks / TicksPerHour &&
      DigitsValue(r[3..5]) == (t.ticks / TicksPerMinute) % 60 &&
      DigitsValue(r[6..8]) == (t.ticks / TicksPerSecond) % 60
  {
    var a: nat := if t.ticks < 0 then -t.ticks else t.ticks;
    var days := a / TicksPerDay;
    var fraction := a % TicksPerSecond;
    var hh := PadDecimal((a / TicksPerHour) % 24, 2);
    var mm := PadDecimal((a / TicksPerMinute) % 60, 2);
    var ss := PadDecimal((a / TicksPerSecond) % 60, 2);
    var tail := if fraction > 0 then "." + PadDecimal(fraction, 7) else "";
    var head := (if t.ticks < 0 then "-" else "") + (if days > 0 then NatToString(days) + "." else "");
    var r := head + hh + ":" + mm + ":" + ss + tail;
    TwoDigitField((a / TicksPerHour) % 24);
    TwoDigitField((a / TicksPerMinute) % 60);
    TwoDigitField((a / TicksPerSecond) % 60);
    assert t.ticks >= 0 ==> r[0] != '-' by {
      if t.ticks >= 0 && days == 0 { assert r[0] == hh[0]; }
    }
    assert 0 <= t.ticks < TicksPerDay ==>
      r[2] == ':' && r[5] == ':' && r[..2] == hh && r[3..5] == mm && r[6..8] == ss &&
      (a / TicksPerHour) % 24 == t.ticks / TicksPerHour by {
      if 0 <= t.ticks < TicksPerDay {
        HourOfDay(a);
        assert head == "";
        ClockFields(hh, mm, ss, tail);
      }
    }
    r
  }

  /** A two-digit zero-padded field reads back as its number. */
  lemma TwoDigitField(n: nat)
    requires n < 100
    ensures DigitsValue(PadDecimal(n, 2)) == n
  {
    assert Pow10(2) == 100;
    PadDecimalRoundTrip(n, 2);
  }

  /** Where the fields of `hh:mm:ss` sit in the text. */
  lemma ClockFields(hh: string, mm: string, ss: string, tail: string)
    requires |hh| == 2 && |mm| == 2 && |ss| == 2
    ensures var r := "" + hh + ":" + mm + ":" + ss + tail;
      r[2] == ':' && r[5] == ':' && r[..2] == hh && r[3..5] == mm && r[6..8] == ss
  {
    var r := "" + hh + ":" + mm + ":" + ss + tail;
    assert r == hh + (":" + mm + ":" + ss + tail);
    assert r == (hh + ":" + mm) + (":" + ss + tail);
  }

  /** A time of day under one day long is shown on the 12-hour clock with
      its zero-padded minutes. */
  lemma TimeOfDayShownOnTwelveHourClock(t: TimeSpan)
    requires 0 <= t.ticks < TicksPerDay
    ensures FormatTime(TimeSpanJson(t)) ==
      ClockFace(t.ticks / TicksPerHour) + ":" + PadDecimal((t.ticks / TicksPerMinute) % 60, 2) +
      " " + Meridiem(t.ticks / TicksPerHour)
  {
    var a: nat := t.ticks;
    var h := a / TicksPerHour;
    assert h < 24 && h % 24 == h;
    var hh := PadDecimal(h, 2);
    var mm := PadDecimal((a / TicksPerMinute) % 60, 2);
    var fraction := a % TicksPerSecond;
    var rest := PadDecimal((a / TicksPerSecond) % 60, 2) + (if fraction > 0 then "." + PadDecimal(fraction, 7) else "");
    assert TimeSpanJson(t) == hh + ":" + mm + ":" + rest;
    DigitsExclude(mm, ':');
    FormatTimeOfDay(hh, mm, rest);
    assert Pow10(2) == 100;
    PadDecimalRoundTrip(h, 2);
  }

  /** `yyyy-MM-dd`. */
  function IsoDate(d: DateTime): (s: string)
    ensures |s| == 10
  {
    PadDecimal(d.year, 4) + "-" + PadDecimal(d.month, 2) + "-" + PadDecimal(d.day, 2)
  }

  /** The calendar date text names the day it came from. */
  lemma IsoDateDeterminesDay(d: DateTime, e: DateTime)
    ensures IsoDate(d) == IsoDate(e) <==> (d.year, d.month, d.day) == (e.year, e.month, e.day)
  {
    if IsoDate(d) == IsoDate(e) {
      assert IsoDate(d)[0..4] == PadDecimal(d.year, 4) && IsoDate(e)[0..4] == PadDecimal(e.year, 4);
      assert IsoDate(d)[5..7] == PadDecimal(d.month, 2) && IsoDate(e)[5..7] == PadDecimal(e.month, 2);
      assert IsoDate(d)[8..10] == PadDecimal(d.day, 2) && IsoDate(e)[8..10] == PadDecimal(e.day, 2);
      assert Pow10(2) == 100 && Pow10(4) == 10000;
      PadDecimalRoundTrip(d.year, 4);
      PadDecimalRoundTrip(e.year, 4);
      PadDecimalRoundTrip(d.month, 2);
      PadDecimalRoundTrip(e.month, 2);
      PadDecimalRoundTrip(d.day, 2);
      PadDecimalRoundTrip(e.day, 2);
    }
  }

  function TrimTrailingZeros(s: string): string {
    if s != [] && s[|s| - 1] == '0' then TrimTrailingZeros(s[..|s| - 1]) else s
  }

  /** The JSON text of a `DateTime`: `yyyy-MM-ddTHH:mm:ss`, then the
      fraction of the second without trailing zeros when it is not zero. */
  function DateTimeJson(d: DateTime): (r: string)
    ensures |r| >= 19 && r[..10] == IsoDate(d) && r[10] == 'T' && r[13] == ':' && r[16] == ':'
    ensures AllDigits(r[11..13]) && DigitsValue(r[11..13]) == d.hour
    ensures AllDigits(r[14..16]) && DigitsValue(r[14..16]) == d.minute
    ensures AllDigits(r[17..19]) && DigitsValue(r[17..19]) == d.second
    ensures |r| == 19 <==> d.fraction == 0
  {
    var hh, mm, ss := PadDecimal(d.hour, 2), PadDecimal(d.minute, 2), PadDecimal(d.second, 2);
    var tail := if d.fraction > 0 then "." + TrimTrailingZeros(PadDecimal(d.fraction, 7)) else "";
    var r := IsoDate(d) + "T" + hh + ":" + mm + ":" + ss + tail;
    assert Pow10(2) == 100;
    PadDecimalRoundTrip(d.hour, 2);
    PadDecimalRoundTrip(d.minute, 2);
    PadDecimalRoundTrip(d.second, 2);
    assert r[11..13] == hh && r[14..16] == mm && r[17..19] == ss;
    r
  }

  /** Splitting a serialised moment at 'T' leaves its calendar date. */
  lemma DatePrefixIsTheDay(d: DateTime)
    ensures FormatDate(DateTimeJson(d)) == IsoDate(d)
    ensures Split(DateTimeJson(d), 'T')[0] == IsoDate(d)
  {
    var date := IsoDate(d);
    DigitsExclude(PadDecimal(d.year, 4), 'T');
    DigitsExclude(PadDecimal(d.month, 2), 'T');
    DigitsExclude(PadDecimal(d.day, 2), 'T');
    assert 'T' !in date;
    var rest := DateTimeJson(d)[11..];
    assert DateTimeJson(d) == date + "T" + rest;
    SplitAtFirst(date, 'T', rest);
  }

  // ---------------------------------------------------------------------
  // Buses
  // ---------------------------------------------------------------------

  /** The JSON of an `AvailableBusDto`: its fields and its three aliases. */
  datatype BusJson = BusJson(
    busScheduleId: string,
    companyName: string,
    busName: string,
    busNumber: string,
    busType: string,
    journeyDate: string,
    departureTime: string,
    arrivalTime: string,
    totalSeats: int,
    bookedSeats: int,
    seatsLeft: int,
    availableSeats: int,
    price: real,
    fare: real,
    boardingPoint: string,
    droppingPoint: string
  )

  /** The three aliases repeat the fields they stand for. */
  function SerializeBus(a: Search.AvailableBus): (r: BusJson)
    ensures r.availableSeats == r.seatsLeft == a.seatsLeft
    ensures r.busNumber == r.busName == a.busName
    ensures r.fare == r.price == a.price
  {
    BusJson(
      GuidText(a.busScheduleId), a.companyName, a.busName, a.BusNumber(), a.busType,
      DateTimeJson(a.journeyDate), TimeSpanJson(a.departureTime), TimeSpanJson(a.arrivalTime),
      a.totalSeats, a.bookedSeats, a.seatsLeft, a.AvailableSeats(), a.price, a.Fare(),
      a.boardingPoint, a.droppingPoint)
  }

  /** The frontend's `Bus`. */
  datatype Bus = Bus(
    id: string,
    busName: string,
    busNumber: string,
    departureCity: string,
    arrivalCity: string,
    departureTime: string,
    arrivalTime: string,
    journeyDate: string,
    availableSeats: int,
    totalSeats: int,
    fare: real,
    busType: string
  )

  /** `a || b` on strings: the empty string is the only falsy one. */
  function TextOr(a: string, b: string): (r: string)
    ensures a != "" ==> r == a
    ensures a == "" ==> r == b
  {
    if a != "" then a else b
  }

  /** `a || b` on numbers: zero is falsy. */
  function NumberOr(a: int, b: int): (r: int)
    ensures a != 0 ==> r == a
    ensures a == 0 ==> r == b
  {
    if a != 0 then a else b
  }

  function AmountOr(a: real, b: real): (r: real)
    ensures a != 0.0 ==> r == a
    ensures a == 0.0 ==> r == b
  {
    if a != 0.0 then a else b
  }

  /** One result of `searchBuses`. */
  function SearchResult(bus: BusJson): (r: Bus)
    ensures r.journeyDate == FormatDate(bus.journeyDate) && 'T' !in r.journeyDate
    ensures r.departureTime == FormatTimeSpan(JsString(bus.departureTime))
    ensures r.arrivalTime == FormatTimeSpan(JsString(bus.arrivalTime))
    ensures r.busNumber == bus.companyName && r.availableSeats == bus.seatsLeft && r.fare == bus.price
  {
    SplitJoin(bus.journeyDate, 'T');
    assert forall a, b :: bus.journeyDate == a + "T" + b && 'T' !in a ==> Split(bus.journeyDate, 'T')[0] == a by {
      forall a, b | bus.journeyDate == a + "T" + b && 'T' !in a ensures Split(bus.journeyDate, 'T')[0] == a {
        assert bus.journeyDate == a + ['T'] + b;
        SplitAtFirst(a, 'T', b);
      }
    }
    Bus(
      bus.busScheduleId, bus.busName, bus.companyName, bus.boardingPoint, bus.droppingPoint,
      FormatTime(bus.departureTime), FormatTime(bus.arrivalTime), Split(bus.journeyDate, 'T')[0],
      bus.seatsLeft, bus.totalSeats, bus.price, bus.busType)
  }

  /** The result of `getBusById`, with its fallbacks for falsy fields. */
  function BusDetails(dto: BusJson): (r: Bus)
    ensures r.busName != "" && r.busNumber != "" && r.busType != ""
    ensures r.journeyDate == SearchResult(dto).journeyDate
    ensures r.availableSeats == 0 <==> dto.availableSeats == 0 && dto.seatsLeft == 0
    ensures r.fare == 0.0 <==> dto.fare == 0.0 && dto.price == 0.0
  {
    Bus(
      dto.busScheduleId,
      TextOr(TextOr(dto.busName, dto.companyName), "Bus"),
      TextOr(TextOr(dto.busNumber, dto.busName), "N/A"),
      dto.boardingPoint, dto.droppingPoint,
      FormatTimeSpan(JsString(dto.departureTime)), FormatTimeSpan(JsString(dto.arrivalTime)),
      FormatDate(dto.journeyDate),
      NumberOr(NumberOr(dto.availableSeats, dto.seatsLeft), 0),
      dto.totalSeats,
      AmountOr(AmountOr(dto.fare, dto.price), 0.0),
      TextOr(dto.busType, "Standard"))
  }

  /** A search result shows the schedule's id, the company where a bus
      number belongs, the journey's calendar date, the seats left and the
      price, and a time of day on the 12-hour clock. */
  lemma SearchResultShowsBackendValues(a: Search.AvailableBus)
    ensures var r := SearchResult(SerializeBus(a));
      && r.id == GuidText(a.busScheduleId)
      && r.busName == a.busName
      && r.busNumber == a.companyName
      && r.departureCity == a.boardingPoint && r.arrivalCity == a.droppingPoint
      && r.journeyDate == IsoDate(a.journeyDate)
      && r.availableSeats == a.seatsLeft && r.totalSeats == a.totalSeats
      && r.fare == a.price && r.busType == a.busType
      && (0 <= a.departureTime.ticks < TicksPerDay ==>
           r.departureTime == ClockFace(a.departureTime.ticks / TicksPerHour) + ":" +
             PadDecimal((a.departureTime.ticks / TicksPerMinute) % 60, 2) + " " +
             Meridiem(a.departureTime.ticks / TicksPerHour))
  {
    DatePrefixIsTheDay(a.journeyDate);
    if 0 <= a.departureTime.ticks < TicksPerDay {
      TimeOfDayShownOnTwelveHourClock(a.departureTime);
    }
  }

  /** Because the backend sends `availableSeats`, `busNumber` and `fare` as
      copies of `seatsLeft`, `busName` and `price`, the fallbacks of
      `getBusById` come down to the backend's values: a zero seat count or
      price falls through to the same zero, and only empty names and types
      are replaced. */
  lemma BusDetailsFallbacks(a: Search.AvailableBus)
    ensures var d := BusDetails(SerializeBus(a));
      && d.availableSeats == a.seatsLeft
      && d.fare == a.price
      && d.busName == (if a.busName != "" then a.busName else if a.companyName != "" then a.companyName else "Bus")
      && d.busNumber == (if a.busName != "" then a.busName else "N/A")
      && d.busType == (if a.busType != "" then a.busType else "Standard")
  {
  }

  /** The details page and the search results agree on everything but the
      bus number (the search shows the company there), and on the bus name
      whenever the backend has one. */
  lemma DetailsAgreeWithSearch(a: Search.AvailableBus)
    ensures var d := BusDetails(SerializeBus(a));
      var r := SearchResult(SerializeBus(a));
      && d.id == r.id
      && d.departureCity == r.departureCity && d.arrivalCity == r.arrivalCity
      && d.departureTime == r.departureTime && d.arrivalTime == r.arrivalTime
      && d.journeyDate == r.journeyDate
      && d.availableSeats == r.availableSeats && d.totalSeats == r.totalSeats && d.fare == r.fare
      && (a.busName != "" ==> d.busName == r.busName)
      && (a.busType != "" ==> d.busType == r.busType)
  {
    DatePrefixIsTheDay(a.journeyDate);
  }

  // ---------------------------------------------------------------------
  // Seat layout
  // ---------------------------------------------------------------------

  /** The JSON of a `SeatDto`: the status enum is sent as its number. */
  datatype SeatJson = SeatJson(seatId: string, seatNumber: string, row: string, status: int)

  /** The parts of a `SeatPlanDto`'s JSON that `getSeatLayout` reads. */
  datatype SeatPlanJson = SeatPlanJson(busScheduleId: string, seats: seq<SeatJson>)

  function SerializeSeats(entries: seq<Booking.SeatEntry>): (r: seq<SeatJson>)
    ensures |r| == |entries|
    ensures forall i :: 0 <= i < |entries| ==>
      r[i] == SeatJson(GuidText(entries[i].seatId), entries[i].seatNumber, entries[i].row, Seats.StatusCode(entries[i].status))
  {
    if entries == [] then []
    else
      [SeatJson(GuidText(entries[0].seatId), entries[0].seatNumber, entries[0].row, Seats.StatusCode(entries[0].status))] +
      SerializeSeats(entries[1..])
  }

  function SerializePlan(plan: Booking.SeatPlan): SeatPlanJson {
    SeatPlanJson(GuidText(plan.busScheduleId), SerializeSeats(plan.seats))
  }

  /** The frontend's `Seat`, as `getSeatLayout` builds it. */
  datatype SeatView = SeatView(id: string, seatNumber: string, isBooked: bool, isSelected: bool, isSold: bool)

  function MapSeat(seat: SeatJson): SeatView {
    SeatView(seat.seatId, seat.seatNumber, seat.status != 0, false, seat.status == 2)
  }

  function MapSeats(seats: seq<SeatJson>): (r: seq<SeatView>)
    ensures |r| == |seats|
    ensures forall i :: 0 <= i < |seats| ==> r[i] == MapSeat(seats[i])
  {
    if seats == [] then [] else [MapSeat(seats[0])] + MapSeats(seats[1..])
  }

  /** The seat flags shown agree with the backend's status: booked for any
      status but Available, sold for Sold only, selected never, and the id
      is the seat's GUID text. */
  lemma SeatFlagsFollowStatus(e: Booking.SeatEntry)
    ensures var v := MapSeat(SerializeSeats([e])[0]);
      && v.id == GuidText(e.seatId) && v.seatNumber == e.seatNumber
      && (v.isBooked <==> e.status != Seats.Available)
      && (v.isSold <==> e.status == Seats.Sold)
      && !v.isSelected
      && (v.isSold ==> v.isBooked)
  {
  }

  /** The sort key `parseInt(seatNumber, 10)`. */
  function SeatKey(v: SeatView): JsNumber {
    ParseInt(v.seatNumber, 10)
  }

  /** A comparator `key(a) - key(b)` is negative: both keys are numbers and
      `a`'s is smaller (a NaN difference counts as 0, "equal"). */
  predicate Precedes(key: SeatView -> JsNumber, a: SeatView, b: SeatView) {
    key(a).Num? && key(b).Num? && key(a).value < key(b).value
  }

  /** No seat comes after one it precedes. */
  predicate SortedBy(key: SeatView -> JsNumber, s: seq<SeatView>) {
    forall i, j :: 0 <= i < j < |s| ==> !Precedes(key, s[j], s[i])
  }

  /** Places `x` before the first seat it precedes and after all others. */
  function Insert(key: SeatView -> JsNumber, x: SeatView, s: seq<SeatView>): (r: seq<SeatView>)
    ensures multiset(r) == multiset(s) + multiset{x}
  {
    if s == [] then [x]
    else if Precedes(key, x, s[0]) then [x] + s
    else
      assert [s[0]] + s[1..] == s;
      [s[0]] + Insert(key, x, s[1..])
  }

  lemma {:induction false} InsertKeepsOrder(key: SeatView -> JsNumber, x: SeatView, s: seq<SeatView>)
    requires SortedBy(key, s)
    ensures SortedBy(key, Insert(key, x, s))
  {
    if s != [] && !Precedes(key, x, s[0]) {
      InsertKeepsOrder(key, x, s[1..]);
      var tail := Insert(key, x, s[1..]);
      var r := [s[0]] + tail;
      forall i, j | 0 <= i < j < |r| ensures !Precedes(key, r[j], r[i]) {
        if i == 0 {
          var y := tail[j - 1];
          assert y in multiset(s[1..]) + multiset{x};
          if y != x {
            var k :| 0 <= k < |s| - 1 && s[1..][k] == y;
            assert s[k + 1] == y;
          }
        } else {
          assert r[i] == tail[i - 1] && r[j] == tail[j - 1];
        }
      }
    } else if s != [] {
      forall i, j | 0 <= i < j < |[x] + s| ensures !Precedes(key, ([x] + s)[j], ([x] + s)[i]) {
        if i > 0 {
          assert ([x] + s)[i] == s[i - 1];
        }
        assert ([x] + s)[j] == s[j - 1];
      }
    }
  }

  /** `sort` with the comparator `key(a) - key(b)`, as an insertion sort.
      `Array.prototype.sort` is stable, so when every key is a number this
      is the order the browser gives. */
  function SortBy(key: SeatView -> JsNumber, s: seq<SeatView>): (r: seq<SeatView>)
    ensures multiset(r) == multiset(s)
    ensures SortedBy(key, r)
  {
    if s == [] then []
    else
      assert s[..|s| - 1] + [s[|s| - 1]] == s;
      InsertKeepsOrder(key, s[|s| - 1], SortBy(key, s[..|s| - 1]));
      Insert(key, s[|s| - 1], SortBy(key, s[..|s| - 1]))
  }

  /** `Math.ceil(n / 4)`. */
  function RowsOfFour(n: nat): (r: nat)
    ensures n == 0 <==> r == 0
    ensures n > 0 ==> 4 * (r - 1) < n <= 4 * r
  {
    (n + 3) / 4
  }

  /** The frontend's `SeatLayout`. */
  datatype SeatLayoutView = SeatLayoutView(busId: string, seats: seq<SeatView>, totalRows: nat, totalColumns: nat)

  /** `getSeatLayout`'s mapping: every seat of the plan mapped, sorted by
      seat number, four columns and as many rows as four seats a row need. */
  function GetSeatLayout(dto: SeatPlanJson): (layout: SeatLayoutView)
    ensures layout.busId == dto.busScheduleId
    ensures multiset(layout.seats) == multiset(MapSeats(dto.seats))
    ensures |layout.seats| == |dto.seats|
    ensures SortedBy(SeatKey, layout.seats)
    ensures forall i :: 0 <= i < |layout.seats| ==> !layout.seats[i].isSelected
    ensures layout.totalColumns == 4
    ensures layout.totalRows == RowsOfFour(|dto.seats|)
  {
    var seats := SortBy(SeatKey, MapSeats(dto.seats));
    assert forall i :: 0 <= i < |seats| ==> !seats[i].isSelected by {
      forall i | 0 <= i < |seats| ensures !seats[i].isSelected {
        assert seats[i] in multiset(MapSeats(dto.seats));
      }
    }
    assert |seats| == |multiset(seats)|;
    SeatLayoutView(dto.busScheduleId, seats, RowsOfFour(|dto.seats|), 4)
  }

  /** Every key is a number and no two are equal. */
  predicate DistinctKeys(key: SeatView -> JsNumber, s: seq<SeatView>) {
    && (forall i :: 0 <= i < |s| ==> key(s[i]).Num?)
    && (forall i, j :: 0 <= i < j < |s| ==> key(s[i]) != key(s[j]))
  }

  /** Seats with distinct keys are distinct seats, each occurring once. */
  lemma {:induction false} OccursOnce(key: SeatView -> JsNumber, s: seq<SeatView>)
    requires DistinctKeys(key, s)
    ensures forall v :: multiset(s)[v] <= 1
  {
    if s != [] {
      var t := s[1..];
      assert DistinctKeys(key, t) by {
        forall i, j | 0 <= i < j < |t| ensures key(t[i]) != key(t[j]) {
          assert t[i] == s[i + 1] && t[j] == s[j + 1];
        }
      }
      OccursOnce(key, t);
      forall k | 0 <= k < |t| ensures t[k] != s[0] {
        assert t[k] == s[k + 1];
      }
      assert s == [s[0]] + t;
      assert multiset(t)[s[0]] == 0;
    }
  }

  /** A sequence in which nothing occurs twice has no repeated entry. */
  lemma NoRepeatedEntry(r: seq<SeatView>, i: nat, j: nat)
    requires forall v :: multiset(r)[v] <= 1
    requires i < j < |r|
    ensures r[i] != r[j]
  {
    assert r == r[..j] + [r[j]] + r[j + 1..];
    assert r[i] in multiset(r[..j]);
    assert multiset(r)[r[j]] >= multiset(r[..j])[r[j]] + 1;
  }

  /** A permutation of seats with distinct keys has distinct keys. */
  lemma DistinctKeysKept(key: SeatView -> JsNumber, s: seq<SeatView>, r: seq<SeatView>)
    requires multiset(r) == multiset(s) && DistinctKeys(key, s)
    ensures DistinctKeys(key, r)
  {
    OccursOnce(key, s);
    forall i | 0 <= i < |r| ensures key(r[i]).Num? {
      assert r[i] in multiset(s);
    }
    forall i, j | 0 <= i < j < |r| ensures key(r[i]) != key(r[j]) {
      NoRepeatedEntry(r, i, j);
      assert r[i] in multiset(s) && r[j] in multiset(s);
      var p :| 0 <= p < |s| && s[p] == r[i];
      var q :| 0 <= q < |s| && s[q] == r[j];
      assert p != q;
      if p < q {
        assert key(s[p]) != key(s[q]);
      } else {
        assert key(s[q]) != key(s[p]);
      }
    }
  }

  /** A plan whose seat numbers are distinct decimal numbers is laid out in
      strictly increasing seat-number order. */
  lemma DistinctSeatNumbersAscend(dto: SeatPlanJson)
    requires DistinctKeys(SeatKey, MapSeats(dto.seats))
    ensures var s := GetSeatLayout(dto).seats;
      forall i, j :: 0 <= i < j < |s| ==> SeatKey(s[i]).Num? && SeatKey(s[j]).Num? && SeatKey(s[i]).value < SeatKey(s[j]).value
  {
    var s := GetSeatLayout(dto).seats;
    DistinctKeysKept(SeatKey, MapSeats(dto.seats), s);
    forall i, j | 0 <= i < j < |s|
      ensures SeatKey(s[i]).Num? && SeatKey(s[j]).Num? && SeatKey(s[i]).value < SeatKey(s[j]).value
    {
      assert !Precedes(SeatKey, s[j], s[i]);
    }
  }
}
