/**
 * The booking rule (src/Domain/Services/SeatBookingDomainService.cs): only
 * an Available seat may be booked; booking moves it to Booked and issues
 * an unconfirmed ticket for it at the given fare.
 */
module SeatBooking {
  import opened Wrappers
  import opened Guids
  import opened Clock
  import opened Errors
  import opened Seats
  import opened Tickets
  import opened Passengers

  /** `CanBookSeat`: the rule agrees with the guard of `Seat.Book`. */
  predicate CanBookSeat(s: SeatRecord)
    ensures CanBookSeat(s) <==> s.status == Available
    ensures CanBookSeat(s) <==> Next(SeatOp.Book, s.status).Some?
  {
    s.status == Available
  }

  /** What `BookSeatAsync` leaves behind: the seat as it then is, and the
      ticket or the exception it throws. */
  datatype DomainBooking = DomainBooking(seat: SeatRecord, ticket: Result<TicketRecord, Exception>)

  /** The booking rule on values. The seat is booked before the ticket is
      built, so a ticket the constructor rejects (a fare that is not
      positive, say) leaves the seat Booked all the same. */
  function BookSeatSpec(
    seat: SeatRecord, passengerId: Guid, boardingPoint: string, droppingPoint: string, fare: real,
    ticketId: Guid, now: DateTime, g: Guid): (r: DomainBooking)
    ensures !CanBookSeat(seat) ==>
      r.seat == seat &&
      r.ticket == Failure(InvalidOperationException(
        "Seat " + seat.seatNumber + " cannot be booked. Current status: " + StatusName(seat.status)))
    ensures CanBookSeat(seat) ==> r.seat == seat.(status := Booked, updatedAt := Some(now))
    ensures r.ticket.Success? <==> CanBookSeat(seat) && passengerId != Empty && seat.id != Empty && fare > 0.0
    ensures r.ticket.Success? ==>
      var t := r.ticket.value;
      t.passengerId == passengerId && t.seatId == seat.id && t.boardingPoint == boardingPoint &&
      t.droppingPoint == droppingPoint && t.totalAmount == fare && !t.isConfirmed && t.id == ticketId
    ensures CanBookSeat(seat) ==>
      r.ticket == NewTicket(ticketId, passengerId, seat.id, boardingPoint, droppingPoint, fare, now, g)
  {
    if !CanBookSeat(seat) then
      DomainBooking(seat, Failure(InvalidOperationException(
        "Seat " + seat.seatNumber + " cannot be booked. Current status: " + StatusName(seat.status))))
    else
      var booked := ApplyOp(SeatOp.Book, seat, now).value;
      DomainBooking(booked, NewTicket(ticketId, passengerId, booked.id, boardingPoint, droppingPoint, fare, now, g))
  }

  /** `BookSeatAsync` on the tracked seat object. The ticket's id, the clock
      reading and the GUID behind its reference are parameters. */
  method BookSeat(
    seat: Seat, passenger: Passenger, boardingPoint: string, droppingPoint: string, fare: real,
    ticketId: Guid, now: DateTime, g: Guid) returns (r: Result<Ticket, Exception>)
    modifies seat
    ensures var spec := BookSeatSpec(old(seat.Record()), passenger.id, boardingPoint, droppingPoint, fare, ticketId, now, g);
      seat.Record() == spec.seat &&
      (spec.ticket.Failure? ==> r == Failure(spec.ticket.error)) &&
      (spec.ticket.Success? ==> r.Success? && fresh(r.value) && r.value.Record() == spec.ticket.value)
  {
    if !CanBookSeat(seat.Record()) {
      return Failure(InvalidOperationException(
        "Seat " + seat.seatNumber + " cannot be booked. Current status: " + StatusName(seat.status)));
    }
    var booked := seat.Book(now);
    r := Ticket.Create(ticketId, passenger.id, seat.id, boardingPoint, droppingPoint, fare, now, g);
  }
}
