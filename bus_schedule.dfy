/**
 * The scheduled run (src/Domain/Entities/BusSchedule.cs): one bus on one
 * route on one day, with its fare and the seats materialised for it,
 * four to a row.
 */
module Schedules {
  import opened Wrappers
  import opened Text
  import opened Guids
  import opened Clock
  import opened Errors
  import opened Seats

  /** The persisted columns of a schedule (its seats live in their own table). */
  datatype ScheduleRecord = ScheduleRecord(
    id: Guid,
    busId: Guid,
    routeId: Guid,
    journeyDate: DateTime,
    departureTime: TimeSpan,
    arrivalTime: TimeSpan,
    fare: real,
    boardingPoint: string,
    droppingPoint: string,
    updatedAt: Option<DateTime>
  )

  /** The public constructor's checks, in their order; the journey date is
      kept as its date part only. */
  function NewSchedule(
    id: Guid, busId: Guid, routeId: Guid, journeyDate: DateTime, departureTime: TimeSpan,
    arrivalTime: TimeSpan, fare: real, boardingPoint: string, droppingPoint: string): (r: Result<ScheduleRecord, Exception>)
    ensures r.Success? <==> busId != Empty && routeId != Empty && fare > 0.0
    ensures busId == Empty ==> r == Failure(ArgumentException("Bus ID cannot be empty", "busId"))
    ensures busId != Empty && routeId == Empty ==> r == Failure(ArgumentException("Route ID cannot be empty", "routeId"))
    ensures busId != Empty && routeId != Empty && fare <= 0.0 ==>
      r == Failure(ArgumentException("Fare must be greater than zero", "fare"))
    ensures r.Success? ==> r.value == ScheduleRecord(
      id, busId, routeId, DatePart(journeyDate), departureTime, arrivalTime, fare, boardingPoint, droppingPoint, None)
    ensures r.Success? ==> IsMidnight(r.value.journeyDate)
  {
    if busId == Empty then Failure(ArgumentException("Bus ID cannot be empty", "busId"))
    else if routeId == Empty then Failure(ArgumentException("Route ID cannot be empty", "routeId"))
    else if fare <= 0.0 then Failure(ArgumentException("Fare must be greater than zero", "fare"))
    else Success(ScheduleRecord(
      id, busId, routeId, DatePart(journeyDate), departureTime, arrivalTime, fare, boardingPoint, droppingPoint, None))
  }

  /** C#'s `/` on `int`, which truncates toward zero. */
  function TruncDiv(a: int, b: int): int
    requires b > 0
  {
    if a >= 0 then a / b else -((-a) / b)
  }

  /** The `k`-th seat `InitializeSeats` creates, counting from 0. */
  function InitialSeat(seatIds: seq<Guid>, scheduleId: Guid, k: nat): SeatRecord
    requires k < |seatIds|
  {
    SeatRecord(seatIds[k], scheduleId, NatToString(k + 1), CalculateRow(k + 1), Available, None)
  }

  /** Different positions give different seat numbers. */
  lemma InitialSeatNumbersDiffer(seatIds: seq<Guid>, scheduleId: Guid, a: nat, b: nat)
    requires a < b < |seatIds|
    ensures InitialSeat(seatIds, scheduleId, a).seatNumber != InitialSeat(seatIds, scheduleId, b).seatNumber
  {
    if NatToString(a + 1) == NatToString(b + 1) {
      NatToStringInjective(a + 1, b + 1);
    }
  }

  /** The decimal label of row `n`. */
  predicate IsRowLabel(text: string, n: nat) {
    text == NatToString(n)
  }

  /** The row label of a seat number: four seats to a row, rows counted from
      1. Because the division truncates toward zero, the numbers -2 to 0
      land in row 1 beside seats 1 to 4. */
  function CalculateRow(seatNumber: int): (r: string)
    ensures seatNumber >= 1 ==> IsRowLabel(r, (seatNumber - 1) / 4 + 1)
    ensures -2 <= seatNumber <= 0 ==> IsRowLabel(r, 1)
  {
    IntToString(TruncDiv(seatNumber - 1, 4) + 1)
  }

  /** Seats 4k+1 .. 4k+4 are in row k+1. */
  lemma RowOfSeat(k: nat, j: int)
    requires 1 <= j <= 4
    ensures CalculateRow(4 * k + j) == NatToString(k + 1)
  {
    assert TruncDiv(4 * k + j - 1, 4) == k;
  }

  /** Two seats share a row label exactly when they are in the same group of four. */
  lemma SameRowIffSameGroup(i: int, j: int)
    requires i >= 1 && j >= 1
    ensures CalculateRow(i) == CalculateRow(j) <==> (i - 1) / 4 == (j - 1) / 4
  {
    if CalculateRow(i) == CalculateRow(j) {
      NatToStringInjective((i - 1) / 4 + 1, (j - 1) / 4 + 1);
    }
  }

  /** A number's decimal form is never blank, so it always passes the seat-number check. */
  lemma DecimalIsNotBlank(n: nat)
    ensures !IsNullOrWhiteSpace(NatToString(n))
  {
    var s := NatToString(n);
    assert IsDigit(s[0]);
  }

  class BusSchedule {
    const id: Guid
    const busId: Guid
    const routeId: Guid
    var journeyDate: DateTime
    var departureTime: TimeSpan
    var arrivalTime: TimeSpan
    var fare: real
    const boardingPoint: string
    const droppingPoint: string
    var updatedAt: Option<DateTime>
    /** The `Seats` navigation collection. */
    var seats: seq<Seat>

    function Record(): ScheduleRecord
      reads this
    {
      ScheduleRecord(id, busId, routeId, journeyDate, departureTime, arrivalTime, fare,
                     boardingPoint, droppingPoint, updatedAt)
    }

    constructor FromRecord(r: ScheduleRecord)
      ensures Record() == r && seats == []
    {
      id, busId, routeId := r.id, r.busId, r.routeId;
      journeyDate, departureTime, arrivalTime, fare := r.journeyDate, r.departureTime, r.arrivalTime, r.fare;
      boardingPoint, droppingPoint, updatedAt := r.boardingPoint, r.droppingPoint, r.updatedAt;
      seats := [];
    }

    /** `new BusSchedule(...)`: a validated schedule with no seats yet. */
    static method Create(
      id: Guid, busId: Guid, routeId: Guid, journeyDate: DateTime, departureTime: TimeSpan,
      arrivalTime: TimeSpan, fare: real, boardingPoint: string, droppingPoint: string)
      returns (r: Result<BusSchedule, Exception>)
      ensures var v := NewSchedule(id, busId, routeId, journeyDate, departureTime, arrivalTime, fare, boardingPoint, droppingPoint);
        (v.Failure? ==> r == Failure(v.error)) &&
        (v.Success? ==> r.Success? && fresh(r.value) && r.value.Record() == v.value && r.value.seats == [])
    {
      var v := NewSchedule(id, busId, routeId, journeyDate, departureTime, arrivalTime, fare, boardingPoint, droppingPoint);
      if v.Failure? {
        return Failure(v.error);
      }
      var s := new BusSchedule.FromRecord(v.value);
      return Success(s);
    }

    /** Overwrites date (as its date part), times and fare without
        re-checking the fare, and stamps the update; bus, route, boarding
        and dropping points and the seats stay as they were. */
    method UpdateSchedule(newJourneyDate: DateTime, newDepartureTime: TimeSpan, newArrivalTime: TimeSpan,
                          newFare: real, now: DateTime)
      modifies this
      ensures Record() == old(Record()).(journeyDate := DatePart(newJourneyDate), departureTime := newDepartureTime,
                                         arrivalTime := newArrivalTime, fare := newFare, updatedAt := Some(now))
      ensures seats == old(seats)
    {
      journeyDate := DatePart(newJourneyDate);
      departureTime, arrivalTime, fare := newDepartureTime, newArrivalTime, newFare;
      updatedAt := Some(now);
    }

    /** Creates seats "1" .. "totalSeats" in order, each Available, owned by
        this schedule and labelled with its row. Refused when any seat exists
        already; only emptiness is checked, so after creating zero seats a
        second call still proceeds. The GUIDs the new seats receive are
        a parameter. */
    method InitializeSeats(totalSeats: int, seatIds: seq<Guid>) returns (o: Outcome<Exception>)
      requires |seatIds| >= totalSeats
      modifies this
      ensures old(seats) != [] ==>
        o == Fail(InvalidOperationException("Seats have already been initialized")) && seats == old(seats)
      ensures old(seats) == [] && id == Empty && totalSeats >= 1 ==>
        o == Fail(ArgumentException("Bus schedule ID cannot be empty", "busScheduleId")) && seats == old(seats)
      ensures o.Pass? <==> old(seats) == [] && (id != Empty || totalSeats < 1)
      ensures o.Pass? ==> |seats| == (if totalSeats < 0 then 0 else totalSeats)
      ensures o.Pass? ==> forall k :: 0 <= k < |seats| ==>
        fresh(seats[k]) &&
        seats[k].Record() == SeatRecord(seatIds[k], id, NatToString(k + 1), CalculateRow(k + 1), Available, None)
      ensures o.Pass? ==> forall a, b :: 0 <= a < b < |seats| ==> seats[a].seatNumber != seats[b].seatNumber
      ensures Record() == old(Record())
    {
      if seats != [] {
        return Fail(InvalidOperationException("Seats have already been initialized"));
      }
      var i := 1;
      while i <= totalSeats
        invariant 1 <= i <= (if totalSeats < 0 then 0 else totalSeats) + 1
        invariant id == Empty ==> i == 1
        invariant |seats| == i - 1
        invariant forall k :: 0 <= k < |seats| ==> fresh(seats[k]) && seats[k].Record() == InitialSeat(seatIds, id, k)
        invariant Record() == old(Record())
      {
        DecimalIsNotBlank(i);
        var r := Seat.Create(seatIds[i - 1], id, IntToString(i), CalculateRow(i));
        if r.Failure? {
          return Fail(r.error);
        }
        seats := seats + [r.value];
        i := i + 1;
      }
      forall a, b | 0 <= a < b < |seats| ensures seats[a].seatNumber != seats[b].seatNumber {
        InitialSeatNumbersDiffer(seatIds, id, a, b);
      }
      return Pass;
    }
  }
}
