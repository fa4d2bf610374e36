/**
 * The availability search (src/Application/Services/SearchService.cs): the
 * schedules the repository finds for a route and day, each summarised with
 * its bus, its fare and how many of its seats are taken.
 */
module Search {
  import opened Wrappers
  import opened Text
  import opened Guids
  import opened Clock
  import opened Errors
  import opened Seats
  import opened Buses
  import opened Schedules
  import opened Persistence
  import Booking

  /** `AvailableBusDto`. */
  datatype AvailableBus = AvailableBus(
    busScheduleId: Guid,
    companyName: string,
    busName: string,
    busType: string,
    journeyDate: DateTime,
    departureTime: TimeSpan,
    arrivalTime: TimeSpan,
    totalSeats: int,
    bookedSeats: int,
    seatsLeft: int,
    price: real,
    boardingPoint: string,
    droppingPoint: string
  ) {
    /** The read-only aliases serialised beside the fields. */
    function BusNumber(): string { busName }
    function AvailableSeats(): int { seatsLeft }
    function Fare(): real { price }
  }

  predicate IsTaken(s: SeatRecord) {
    s.status == Booked || s.status == Sold
  }

  /** The number of seats that are Booked or Sold. */
  function BookedSeats(seats: seq<SeatRecord>): (n: nat)
    ensures n <= |seats|
    ensures n == 0 <==> forall i :: 0 <= i < |seats| ==> !IsTaken(seats[i])
    ensures n == |seats| <==> forall i :: 0 <= i < |seats| ==> IsTaken(seats[i])
    decreases |seats|
  {
    if seats == [] then 0
    else (if IsTaken(seats[0]) then 1 else 0) + BookedSeats(seats[1..])
  }

  /** The number of Available seats. */
  function AvailableCount(seats: seq<SeatRecord>): (n: nat)
    ensures n <= |seats|
    ensures n == |seats| <==> forall i :: 0 <= i < |seats| ==> seats[i].status == Available
    ensures n == 0 <==> forall i :: 0 <= i < |seats| ==> seats[i].status != Available
    decreases |seats|
  {
    if seats == [] then 0
    else (if seats[0].status == Available then 1 else 0) + AvailableCount(seats[1..])
  }

  /** Every seat is either counted as taken or Available. */
  lemma {:induction false} TakenPlusAvailable(seats: seq<SeatRecord>)
    ensures BookedSeats(seats) + AvailableCount(seats) == |seats|
    decreases |seats|
  {
    if seats != [] {
      TakenPlusAvailable(seats[1..]);
    }
  }

  /** Selling or booking one Available seat raises the count by exactly one. */
  lemma {:induction false} TakingASeatCountsOnce(seats: seq<SeatRecord>, i: nat, status: SeatStatus)
    requires i < |seats| && seats[i].status == Available && status != Available
    ensures BookedSeats(seats[i := seats[i].(status := status)]) == BookedSeats(seats) + 1
    decreases |seats|
  {
    var after := seats[i := seats[i].(status := status)];
    if i == 0 {
      assert after[1..] == seats[1..];
    } else {
      assert after[1..] == seats[1..][i - 1 := seats[i].(status := status)];
      TakingASeatCountsOnce(seats[1..], i - 1, status);
    }
  }

  /** The summary of one loaded schedule. Seats left is the bus's declared
      capacity minus the taken seats, whatever the number of seat rows, and
      is not clamped at zero. */
  function Summarize(l: ScheduleWithSeats): (a: AvailableBus)
    ensures a.bookedSeats == BookedSeats(l.seats) && a.totalSeats == l.bus.totalSeats
    ensures a.seatsLeft == l.bus.totalSeats - BookedSeats(l.seats)
    ensures |l.seats| == l.bus.totalSeats ==> a.seatsLeft == AvailableCount(l.seats)
    ensures a.price == l.schedule.fare && a.AvailableSeats() == a.seatsLeft && a.Fare() == a.price
    ensures a.busScheduleId == l.schedule.id && a.BusNumber() == l.bus.busName
    ensures a.companyName == l.bus.companyName && a.busType == l.bus.busType
    ensures a.journeyDate == l.schedule.journeyDate &&
      a.departureTime == l.schedule.departureTime && a.arrivalTime == l.schedule.arrivalTime
    ensures a.boardingPoint == l.schedule.boardingPoint && a.droppingPoint == l.schedule.droppingPoint
  {
    TakenPlusAvailable(l.seats);
    var booked := BookedSeats(l.seats);
    AvailableBus(
      l.schedule.id, l.bus.companyName, l.bus.busName, l.bus.busType, l.schedule.journeyDate,
      l.schedule.departureTime, l.schedule.arrivalTime, l.bus.totalSeats, booked, l.bus.totalSeats - booked,
      l.schedule.fare, l.schedule.boardingPoint, l.schedule.droppingPoint)
  }

  function SummarizeAll(found: seq<ScheduleWithSeats>): (r: seq<AvailableBus>)
    ensures |r| == |found| && forall i :: 0 <= i < |found| ==> r[i] == Summarize(found[i])
    decreases |found|
  {
    if found == [] then [] else [Summarize(found[0])] + SummarizeAll(found[1..])
  }

  /** `SearchAvailableBusesAsync`. Both cities must be given, `from` checked
      first; the repository (a parameter: cities and day to the schedules it
      loads) is asked for the date part of the journey date, and each
      schedule it returns gives one summary, in its order. */
  function SearchAvailableBuses(
    from: string, to: string, journeyDate: DateTime, repository: (string, string, DateTime) -> seq<ScheduleWithSeats>)
    : (r: Result<seq<AvailableBus>, Exception>)
    ensures r.Success? <==> !IsNullOrWhiteSpace(from) && !IsNullOrWhiteSpace(to)
    ensures IsNullOrWhiteSpace(from) ==> r == Failure(ArgumentException("From city cannot be empty", "from"))
    ensures !IsNullOrWhiteSpace(from) && IsNullOrWhiteSpace(to) ==>
      r == Failure(ArgumentException("To city cannot be empty", "to"))
    ensures r.Success? ==>
      var found := repository(from, to, DatePart(journeyDate));
      |r.value| == |found| && forall i :: 0 <= i < |found| ==> r.value[i] == Summarize(found[i])
  {
    if IsNullOrWhiteSpace(from) then Failure(ArgumentException("From city cannot be empty", "from"))
    else if IsNullOrWhiteSpace(to) then Failure(ArgumentException("To city cannot be empty", "to"))
    else Success(SummarizeAll(repository(from, to, DatePart(journeyDate))))
  }

  /** Journey dates on the same day give the same search. */
  lemma SearchIgnoresTimeOfDay(
    from: string, to: string, d1: DateTime, d2: DateTime, repository: (string, string, DateTime) -> seq<ScheduleWithSeats>)
    requires DatePart(d1) == DatePart(d2)
    ensures SearchAvailableBuses(from, to, d1, repository) == SearchAvailableBuses(from, to, d2, repository)
  {
  }

  /** `GetBusByScheduleIdAsync`, given what the repository loaded: nothing
      exactly when nothing was loaded, otherwise the same summary. */
  function GetBusByScheduleId(loaded: Option<ScheduleWithSeats>): (r: Option<AvailableBus>)
    ensures r.None? <==> loaded.None?
    ensures loaded.Some? ==> r == Some(Summarize(loaded.value))
  {
    match loaded
    case None => None
    case Some(l) => Some(Summarize(l))
  }

  /** The number of seat-plan entries that are not Available. */
  function TakenEntries(entries: seq<Booking.SeatEntry>): nat
    decreases |entries|
  {
    if entries == [] then 0
    else (if entries[0].status != Available then 1 else 0) + TakenEntries(entries[1..])
  }

  /** The seat plan and the search agree: the plan shows as many seats that
      are not Available as the search counts taken. */
  lemma {:induction false} SeatPlanAgreesWithSearch(seats: seq<SeatRecord>)
    ensures TakenEntries(Booking.SeatEntries(seats)) == BookedSeats(seats)
    decreases |seats|
  {
    if seats != [] {
      var entries := Booking.SeatEntries(seats);
      assert entries[1..] == Booking.SeatEntries(seats[1..]);
      SeatPlanAgreesWithSearch(seats[1..]);
    }
  }
}
