/**
 * The booking coordinator and the seat-plan query
 * (src/Application/Services/BookingService.cs). Booking validates the
 * request, opens a serializable transaction, checks the seat, finds or
 * registers the passenger, reads the fare, books the seat through the
 * booking rule, confirms the ticket, sells the seat, saves both and
 * commits; every failure inside the transaction rolls it back, and the
 * call reports failures in its result instead of throwing.
 */
module Booking {
  import opened Wrappers
  import opened Guids
  import opened Clock
  import opened Errors
  import opened Seats
  import opened Tickets
  import opened Passengers
  import opened Buses
  import opened Schedules
  import opened Persistence
  import SeatBooking

  /** `BookSeatInputDto`. */
  datatype BookSeatInput = BookSeatInput(
    busScheduleId: Guid,
    seatId: Guid,
    passengerName: string,
    mobileNumber: string,
    email: Option<string>,
    boardingPoint: string,
    droppingPoint: string
  )

  /** `BookSeatResultDto`. */
  datatype BookSeatResult = BookSeatResult(
    success: bool,
    message: string,
    bookingReference: Option<string>,
    ticketId: Option<Guid>,
    totalAmount: Option<real>
  )

  /** What a booking draws from outside the program: the ids the new
      passenger and ticket receive, the clock, the GUID behind the booking
      reference, and the server's answer to COMMIT. */
  datatype BookingEnv = BookingEnv(
    passengerId: Guid,
    ticketId: Guid,
    now: DateTime,
    referenceGuid: Guid,
    commitFault: Option<Exception>
  )

  const ErrorPrefix := "An error occurred while booking the seat: "
  const NullReferenceMessage := "Object reference not set to an instance of an object."

  function Failed(message: string): BookSeatResult {
    BookSeatResult(false, message, None, None, None)
  }

  /** The outer catch blocks: an invalid-operation message is passed on
      verbatim, any other exception's message behind a fixed prefix. */
  function Caught(e: Exception): (r: BookSeatResult)
    ensures !r.success && r.bookingReference.None? && r.ticketId.None? && r.totalAmount.None?
    ensures e.InvalidOperationException? ==> r.message == e.text
    ensures !e.InvalidOperationException? ==> r.message == ErrorPrefix + Message(e)
  {
    match e
    case InvalidOperationException(text) => Failed(text)
    case _ => Failed(ErrorPrefix + Message(e))
  }

  /** `await RollbackTransactionAsync(); return result;` inside the inner try. */
  function RollbackThenReturn(s: UowState, result: BookSeatResult): (r: After<Result<BookSeatResult, Exception>>)
    ensures r.state == RollbackSpec(s).state && r.state.current.None?
    ensures r.outcome == (if s.current.Some? then Success(result) else Failure(NullReferenceException))
    ensures r.state.database == s.database && r.state.pending == s.pending
  {
    var rolled := RollbackSpec(s);
    if rolled.outcome.Fail? then After(rolled.state, Failure(rolled.outcome.error))
    else After(rolled.state, Success(result))
  }

  function NotAvailableMessage(seat: SeatRecord): string {
    "Seat " + seat.seatNumber + " is not available. Current status: " + StatusName(seat.status)
  }

  /** The passenger the booking is for: the first with this mobile number,
      or a new one built from the request. */
  function ResolvePassenger(rows: Store, input: BookSeatInput, env: BookingEnv): (r: Result<PassengerRecord, Exception>)
    ensures r.Success? ==> r.value.mobileNumber == input.mobileNumber
    ensures FirstByMobile(rows.passengers, input.mobileNumber).Some? ==>
      r.Success? && r.value in rows.passengers
    ensures FirstByMobile(rows.passengers, input.mobileNumber).None? ==>
      r == NewPassenger(env.passengerId, input.passengerName, input.mobileNumber, input.email)
  {
    match FirstByMobile(rows.passengers, input.mobileNumber)
    case Some(i) => Success(rows.passengers[i])
    case None => NewPassenger(env.passengerId, input.passengerName, input.mobileNumber, input.email)
  }

  /** A booking that went through: the call returned a successful result. */
  predicate Succeeded(r: After<Result<BookSeatResult, Exception>>) {
    r.outcome.Success? && r.outcome.value.success
  }

  /** The body of the inner try block: each early exit rolls back and
      returns a result; an exception (a result of `Failure`) is left to the
      catch block around it. */
  function InTransaction(s: UowState, input: BookSeatInput, env: BookingEnv): (r: After<Result<BookSeatResult, Exception>>)
    ensures s.current.Some? && !Succeeded(r) ==> r.state.database == s.database
    ensures s.current.Some? && r.outcome.Success? ==> r.state.current.None?
    ensures Succeeded(r) ==>
      r.outcome.value.message == "Seat booked successfully" && r.outcome.value.ticketId == Some(env.ticketId) &&
      r.outcome.value.bookingReference == Some(BookingReference(env.now, env.referenceGuid))
  {
    var rows := Visible(s);
    if input.seatId !in rows.seats then RollbackThenReturn(s, Failed("Seat not found"))
    else
      var seat := rows.seats[input.seatId];
      if !SeatBooking.CanBookSeat(seat) then RollbackThenReturn(s, Failed(NotAvailableMessage(seat)))
      else
        match ResolvePassenger(rows, input, env)
        case Failure(e) => After(s, Failure(e))
        case Success(passenger) =>
          var s2 := if FirstByMobile(rows.passengers, input.mobileNumber).Some? then s
                    else s.(pending := s.pending + [InsertPassenger(passenger)]);
          WithPassenger(s2, seat, passenger.id, input, env)
  }

  /** From reading the fare on: a missing schedule rolls back. */
  function WithPassenger(s: UowState, seat: SeatRecord, passengerId: Guid, input: BookSeatInput, env: BookingEnv)
    : (r: After<Result<BookSeatResult, Exception>>)
    requires SeatBooking.CanBookSeat(seat)
    ensures s.current.Some? && !Succeeded(r) ==> r.state.database == s.database
    ensures s.current.Some? && r.outcome.Success? ==> r.state.current.None?
    ensures Succeeded(r) ==>
      r.outcome.value.message == "Seat booked successfully" && r.outcome.value.ticketId == Some(env.ticketId) &&
      r.outcome.value.bookingReference == Some(BookingReference(env.now, env.referenceGuid))
  {
    if input.busScheduleId !in Visible(s).schedules then RollbackThenReturn(s, Failed("Bus schedule not found"))
    else SellAndCommit(s, seat, passengerId, Visible(s).schedules[input.busScheduleId].fare, input, env)
  }

  /** Booking through the rule, confirming, selling, saving and committing. */
  function SellAndCommit(s: UowState, seat: SeatRecord, passengerId: Guid, fare: real, input: BookSeatInput, env: BookingEnv)
    : (r: After<Result<BookSeatResult, Exception>>)
    requires SeatBooking.CanBookSeat(seat)
    ensures s.current.Some? && !Succeeded(r) ==> r.state.database == s.database
    ensures s.current.Some? && r.outcome.Success? ==> r.state.current.None?
    ensures Succeeded(r) ==>
      r.outcome.value.message == "Seat booked successfully" && r.outcome.value.ticketId == Some(env.ticketId) &&
      r.outcome.value.bookingReference == Some(BookingReference(env.now, env.referenceGuid))
  {
    var booking := SeatBooking.BookSeatSpec(
      seat, passengerId, input.boardingPoint, input.droppingPoint, fare, env.ticketId, env.now, env.referenceGuid);
    match booking.ticket
    case Failure(e) => After(s, Failure(e))
    case Success(ticket) =>
      // A new ticket is unconfirmed and the seat was just booked, so
      // neither of the next two steps throws.
      var confirmed := ApplyTicketOp(TicketOp.Confirm, ticket, env.now).value;
      var sold := ApplyOp(SeatOp.MarkAsSold, booking.seat, env.now).value;
      var committed := CommitSpec(s.(pending := s.pending + [InsertTicket(confirmed), UpdateSeat(sold)]), env.commitFault);
      if committed.outcome.Fail? then After(committed.state, Failure(committed.outcome.error))
      else After(committed.state, Success(BookSeatResult(
        true, "Seat booked successfully", Some(confirmed.bookingReference), Some(confirmed.id),
        Some(confirmed.totalAmount))))
  }

  /** `BookSeatAsync` on the unit of work's state. */
  function BookSeatSpec(s: UowState, input: BookSeatInput, env: BookingEnv): (r: After<BookSeatResult>)
    ensures input.busScheduleId == Empty ==> r == After(s, Failed("Invalid bus schedule"))
    ensures input.busScheduleId != Empty && input.seatId == Empty ==> r == After(s, Failed("Invalid seat"))
    ensures !r.outcome.success ==> r.state.database == s.database
    ensures s.current.None? ==> r.state.current.None?
    ensures s.current.Some? ==>
      r.state == s &&
      r.outcome == (if input.busScheduleId == Empty then Failed("Invalid bus schedule")
                    else if input.seatId == Empty then Failed("Invalid seat")
                    else Failed("A transaction is already in progress."))
    ensures r.outcome.success ==>
      r.outcome.message == "Seat booked successfully" && r.outcome.ticketId == Some(env.ticketId) &&
      r.outcome.bookingReference == Some(BookingReference(env.now, env.referenceGuid))
  {
    if input.busScheduleId == Empty then After(s, Failed("Invalid bus schedule"))
    else if input.seatId == Empty then After(s, Failed("Invalid seat"))
    else
      var begun := BeginSpec(s, Serializable);
      if begun.outcome.Fail? then After(begun.state, Caught(begun.outcome.error))
      else
        var inner := InTransaction(begun.state, input, env);
        match inner.outcome
        case Success(result) => After(inner.state, result)
        case Failure(e) =>
          var rolled := RollbackSpec(inner.state);
          After(rolled.state, Caught(if rolled.outcome.Fail? then rolled.outcome.error else e))
  }

  lemma SaveAllStep(st: Store, c: Change, cs: seq<Change>)
    ensures SaveAll(st, [c] + cs) ==
      if ApplyChange(st, c).Failure? then Failure(ApplyChange(st, c).error) else SaveAll(ApplyChange(st, c).value, cs)
  {
    assert ([c] + cs)[0] == c && ([c] + cs)[1..] == cs;
  }

  /** What the rows look like after the booking's writes are saved: the
      new passenger if there is one, the ticket and the sold seat. */
  lemma SaveSaleValue(st: Store, before: seq<Change>, t: TicketRecord, seat: SeatRecord)
    requires before == [] || (|before| == 1 && before[0].InsertPassenger?)
    requires SaveAll(st, before + [InsertTicket(t), UpdateSeat(seat)]).Success?
    ensures SaveAll(st, before + [InsertTicket(t), UpdateSeat(seat)]).value ==
      st.(passengers := st.passengers + (if before == [] then [] else [StoredPassenger(before[0].passenger)]),
          tickets := st.tickets[t.id := StoredTicket(t)],
          seats := st.seats[seat.id := StoredSeat(seat)])
  {
    var st0 := st;
    if before == [] {
      assert before + [InsertTicket(t), UpdateSeat(seat)] == [InsertTicket(t), UpdateSeat(seat)];
    } else {
      assert before + [InsertTicket(t), UpdateSeat(seat)] == [before[0]] + [InsertTicket(t), UpdateSeat(seat)];
      SaveAllStep(st, before[0], [InsertTicket(t), UpdateSeat(seat)]);
      assert ApplyChange(st, before[0]).Success?;
      st0 := ApplyChange(st, before[0]).value;
      assert st0 == st.(passengers := st.passengers + [StoredPassenger(before[0].passenger)]);
    }
    assert SaveAll(st, before + [InsertTicket(t), UpdateSeat(seat)]) == SaveAll(st0, [InsertTicket(t), UpdateSeat(seat)]);
    SaveAllStep(st0, InsertTicket(t), [UpdateSeat(seat)]);
    var st1 := ApplyChange(st0, InsertTicket(t)).value;
    assert st1 == st0.(tickets := st0.tickets[t.id := StoredTicket(t)]);
    SaveAllStep(st1, UpdateSeat(seat), []);
    assert [UpdateSeat(seat)] == [UpdateSeat(seat)] + [];
  }

  /** The commit statement sequence of a booking. */
  function BookingPrelude(): seq<DbCommand> {
    [ExecuteSql(IsolationStatement(Serializable)), BeginTx]
  }

  /** The confirmed ticket a booking at this fare issues. */
  function IssuedTicket(seat: SeatRecord, passengerId: Guid, fare: real, input: BookSeatInput, env: BookingEnv): TicketRecord {
    TicketRecord(env.ticketId, passengerId, seat.id, input.boardingPoint, input.droppingPoint, fare,
                 BookingReference(env.now, env.referenceGuid), true, Some(env.now))
  }

  lemma SellAndCommitEffect(s: UowState, seat: SeatRecord, passengerId: Guid, fare: real, input: BookSeatInput, env: BookingEnv)
    requires SeatBooking.CanBookSeat(seat) && s.current.Some?
    requires s.pending == [] || (|s.pending| == 1 && s.pending[0].InsertPassenger?)
    ensures var r := SellAndCommit(s, seat, passengerId, fare, input, env);
      Succeeded(r) ==>
        r.state.database == Visible(s).(
          passengers := Visible(s).passengers + (if s.pending == [] then [] else [StoredPassenger(s.pending[0].passenger)]),
          tickets := Visible(s).tickets[env.ticketId := StoredTicket(IssuedTicket(seat, passengerId, fare, input, env))],
          seats := Visible(s).seats[seat.id := StoredSeat(seat.(status := Sold, updatedAt := Some(env.now)))]) &&
        r.state.log == s.log + [CommitTx] && r.state.pending == [] && r.state.current.None? &&
        r.outcome.value.totalAmount == Some(fare) &&
        (Integrity(Visible(s)) && Integrity(s.database) ==> Integrity(r.state.database))
  {
    var r := SellAndCommit(s, seat, passengerId, fare, input, env);
    if Succeeded(r) {
      var booking := SeatBooking.BookSeatSpec(
        seat, passengerId, input.boardingPoint, input.droppingPoint, fare, env.ticketId, env.now, env.referenceGuid);
      var confirmed := ApplyTicketOp(TicketOp.Confirm, booking.ticket.value, env.now).value;
      var sold := ApplyOp(SeatOp.MarkAsSold, booking.seat, env.now).value;
      assert confirmed == IssuedTicket(seat, passengerId, fare, input, env);
      assert sold == seat.(status := Sold, updatedAt := Some(env.now));
      var s3 := s.(pending := s.pending + [InsertTicket(confirmed), UpdateSeat(sold)]);
      SaveSaleValue(Visible(s), s.pending, confirmed, sold);
      if Integrity(Visible(s)) && Integrity(s.database) {
        CommitKeepsIntegrity(s3, env.commitFault);
      }
    }
  }

  /** The effect of the inner try block when it ends in success. */
  lemma InTransactionEffect(s: UowState, input: BookSeatInput, env: BookingEnv)
    requires s.current.Some? && s.pending == []
    ensures var r := InTransaction(s, input, env);
      var rows := Visible(s);
      Succeeded(r) ==>
        input.seatId in rows.seats && input.busScheduleId in rows.schedules &&
        ResolvePassenger(rows, input, env).Success? &&
        var seat := rows.seats[input.seatId];
        var fare := rows.schedules[input.busScheduleId].fare;
        var passenger := ResolvePassenger(rows, input, env).value;
        var found := FirstByMobile(rows.passengers, input.mobileNumber).Some?;
        seat.status == Available &&
        r.state.database == rows.(
          seats := rows.seats[seat.id := StoredSeat(seat.(status := Sold, updatedAt := Some(env.now)))],
          tickets := rows.tickets[env.ticketId := StoredTicket(IssuedTicket(seat, passenger.id, fare, input, env))],
          passengers := rows.passengers + (if found then [] else [StoredPassenger(passenger)])) &&
        (!found ==> passenger == PassengerRecord(
          env.passengerId, input.passengerName, input.mobileNumber, input.email, None)) &&
        r.state.log == s.log + [CommitTx] && r.state.pending == [] && r.state.current.None? &&
        r.outcome.value.totalAmount == Some(fare) &&
        (Integrity(rows) && Integrity(s.database) ==> Integrity(r.state.database))
  {
    var r := InTransaction(s, input, env);
    var rows := Visible(s);
    if Succeeded(r) {
      assert input.seatId in rows.seats;
      var seat := rows.seats[input.seatId];
      assert seat.status == Available;
      var passenger := ResolvePassenger(rows, input, env).value;
      var found := FirstByMobile(rows.passengers, input.mobileNumber).Some?;
      var s2 := s.(pending := if found then [] else [InsertPassenger(passenger)]);
      assert Visible(s2) == rows;
      assert r == WithPassenger(s2, seat, passenger.id, input, env);
      assert input.busScheduleId in rows.schedules;
      var fare := rows.schedules[input.busScheduleId].fare;
      assert r == SellAndCommit(s2, seat, passenger.id, fare, input, env);
      SellAndCommitEffect(s2, seat, passenger.id, fare, input, env);
    }
  }

  /** A successful booking, started on a fresh context, sold a seat that was
      Available, added exactly one confirmed ticket for it at the schedule's
      fare for the passenger with that mobile number (registering one only
      when there was none), changed nothing else and committed once. */
  lemma BookingEffect(s: UowState, input: BookSeatInput, env: BookingEnv)
    requires s.current.None? && s.pending == []
    ensures var r := BookSeatSpec(s, input, env);
      r.outcome.success ==>
        input.seatId in s.database.seats && input.busScheduleId in s.database.schedules &&
        ResolvePassenger(s.database, input, env).Success? &&
        var seat := s.database.seats[input.seatId];
        var fare := s.database.schedules[input.busScheduleId].fare;
        var passenger := ResolvePassenger(s.database, input, env).value;
        var found := FirstByMobile(s.database.passengers, input.mobileNumber).Some?;
        seat.status == Available &&
        r.state.database == s.database.(
          seats := s.database.seats[seat.id := StoredSeat(seat.(status := Sold, updatedAt := Some(env.now)))],
          tickets := s.database.tickets[env.ticketId := StoredTicket(IssuedTicket(seat, passenger.id, fare, input, env))],
          passengers := s.database.passengers + (if found then [] else [StoredPassenger(passenger)])) &&
        (!found ==> passenger == PassengerRecord(
          env.passengerId, input.passengerName, input.mobileNumber, input.email, None)) &&
        r.state.log == s.log + BookingPrelude() + [CommitTx] &&
        r.state.pending == [] && r.state.current.None? &&
        r.outcome.totalAmount == Some(fare) &&
        (Integrity(s.database) ==> Integrity(r.state.database))
  {
    var r := BookSeatSpec(s, input, env);
    if r.outcome.success {
      var s1 := BeginSpec(s, Serializable).state;
      assert Visible(s1) == s.database && s1.log == s.log + BookingPrelude();
      var inner := InTransaction(s1, input, env);
      assert Succeeded(inner) && r == After(inner.state, inner.outcome.value);
      InTransactionEffect(s1, input, env);
    }
  }

  /** Every ticket's seat exists and is Sold. */
  predicate TicketedSeatsSold(st: Store) {
    forall k :: k in st.tickets ==> st.tickets[k].seatId in st.seats && st.seats[st.tickets[k].seatId].status == Sold
  }

  /** Bookings keep the schema's integrity and the rule that a ticketed
      seat is a sold seat. */
  lemma BookingKeepsInvariants(s: UowState, input: BookSeatInput, env: BookingEnv)
    requires s.current.None? && s.pending == []
    requires Integrity(s.database) && TicketedSeatsSold(s.database)
    ensures Integrity(BookSeatSpec(s, input, env).state.database)
    ensures TicketedSeatsSold(BookSeatSpec(s, input, env).state.database)
  {
    BookingEffect(s, input, env);
  }

  /** Once a booking has sold a seat, the next request for that seat is
      turned away with its status, the transaction it opened is rolled back
      and the committed rows stay as they are. */
  lemma SoldSeatCannotBeBookedAgain(s: UowState, input: BookSeatInput, env: BookingEnv, again: BookSeatInput, env2: BookingEnv)
    requires s.current.None? && s.pending == [] && Integrity(s.database)
    requires BookSeatSpec(s, input, env).outcome.success
    requires again.seatId == input.seatId && again.busScheduleId != Empty
    ensures input.seatId in s.database.seats
    ensures var first := BookSeatSpec(s, input, env);
      var second := BookSeatSpec(first.state, again, env2);
      second.outcome == Failed("Seat " + s.database.seats[input.seatId].seatNumber + " is not available. Current status: Sold") &&
      second.state == first.state.(log := first.state.log + BookingPrelude() + [RollbackTx])
  {
    BookingEffect(s, input, env);
    var first := BookSeatSpec(s, input, env);
    var seat := s.database.seats[input.seatId];
    assert seat.id == input.seatId;
    assert first.state.database.seats[input.seatId] == seat.(status := Sold, updatedAt := Some(env.now));
    assert first.state.current.None? && input.seatId != Empty;
    SoldSeatIsRefused(first.state, again, env2, seat.(status := Sold, updatedAt := Some(env.now)));
  }

  lemma SoldSeatIsRefused(t: UowState, again: BookSeatInput, env: BookingEnv, seat: SeatRecord)
    requires t.current.None? && again.busScheduleId != Empty && again.seatId != Empty
    requires again.seatId in t.database.seats && t.database.seats[again.seatId] == seat && seat.status == Sold
    ensures BookSeatSpec(t, again, env) == After(
      t.(log := t.log + BookingPrelude() + [RollbackTx]),
      Failed("Seat " + seat.seatNumber + " is not available. Current status: Sold"))
  {
    UnavailableSeatIsRefused(t, again, env);
    var prefix := "Seat " + seat.seatNumber;
    assert prefix + " is not available. Current status: " + StatusName(seat.status) ==
      prefix + " is not available. Current status: Sold";
  }

  /** A seat that is not Available is reported with its status, after the
      transaction is rolled back; the seat and everything else stay as they were. */
  lemma UnavailableSeatIsRefused(s: UowState, input: BookSeatInput, env: BookingEnv)
    requires s.current.None? && input.busScheduleId != Empty && input.seatId != Empty
    requires input.seatId in s.database.seats && s.database.seats[input.seatId].status != Available
    ensures BookSeatSpec(s, input, env) == After(
      s.(log := s.log + BookingPrelude() + [RollbackTx]),
      Failed("Seat " + s.database.seats[input.seatId].seatNumber + " is not available. Current status: " +
             StatusName(s.database.seats[input.seatId].status)))
  {
    var s1 := BeginSpec(s, Serializable).state;
    assert Visible(s1) == s.database;
  }

  /** A missing seat is reported after the transaction is rolled back. */
  lemma MissingSeatIsRefused(s: UowState, input: BookSeatInput, env: BookingEnv)
    requires s.current.None? && input.busScheduleId != Empty && input.seatId != Empty
    requires input.seatId !in s.database.seats
    ensures BookSeatSpec(s, input, env) == After(s.(log := s.log + BookingPrelude() + [RollbackTx]), Failed("Seat not found"))
  {
    var s1 := BeginSpec(s, Serializable).state;
    assert Visible(s1) == s.database;
  }

  /** A missing schedule is reported after the rollback; a passenger
      registered on the way is still in the change tracker, unsaved. */
  lemma MissingScheduleIsRefused(s: UowState, input: BookSeatInput, env: BookingEnv)
    requires s.current.None? && input.busScheduleId != Empty && input.seatId != Empty
    requires input.seatId in s.database.seats && s.database.seats[input.seatId].status == Available
    requires input.busScheduleId !in s.database.schedules
    requires ResolvePassenger(s.database, input, env).Success?
    ensures var found := FirstByMobile(s.database.passengers, input.mobileNumber).Some?;
      BookSeatSpec(s, input, env) == After(
        s.(log := s.log + BookingPrelude() + [RollbackTx],
           pending := s.pending + (if found then [] else [InsertPassenger(ResolvePassenger(s.database, input, env).value)])),
        Failed("Bus schedule not found"))
  {
    var s1 := BeginSpec(s, Serializable).state;
    assert Visible(s1) == s.database;
  }

  /** When the server refuses COMMIT, the booking that would otherwise have
      gone through is rolled back, and the rollback the catch block then
      issues finds no transaction: the caller is told about a null
      reference instead of the server's error. */
  lemma CommitFailureIsReportedAsNullReference(s: UowState, input: BookSeatInput, env: BookingEnv)
    requires s.current.None? && s.pending == []
    requires BookSeatSpec(s, input, env.(commitFault := None)).outcome.success
    requires env.commitFault.Some?
    ensures BookSeatSpec(s, input, env) ==
      After(s.(log := s.log + BookingPrelude() + [RollbackTx]), Failed(ErrorPrefix + NullReferenceMessage))
  {
    var ok := env.(commitFault := None);
    BookingEffect(s, input, ok);
    var s1 := BeginSpec(s, Serializable).state;
    var rows := s.database;
    assert Visible(s1) == rows;
    var passenger := ResolvePassenger(rows, input, ok).value;
    assert ResolvePassenger(rows, input, env) == ResolvePassenger(rows, input, ok);
    InTransactionReachesSale(s1, input, ok);
    InTransactionReachesSale(s1, input, env);
    var found := FirstByMobile(rows.passengers, input.mobileNumber).Some?;
    var s2 := s1.(pending := if found then [] else [InsertPassenger(passenger)]);
    var seat := rows.seats[input.seatId];
    var fare := rows.schedules[input.busScheduleId].fare;
    assert Succeeded(InTransaction(s1, input, ok));
    CommitFaultUndoesSale(s2, seat, passenger.id, fare, input, env);
    var s3 := s1.(pending := [], current := None, log := s1.log + [RollbackTx]);
    assert s2.(pending := [], current := None, log := s2.log + [RollbackTx]) == s3;
    assert InTransaction(s1, input, env) == After(s3, Failure(env.commitFault.value));
    assert RollbackSpec(s3) == After(s3, Fail(NullReferenceException));
    assert Caught(NullReferenceException) == Failed(ErrorPrefix + NullReferenceMessage);
    assert s3 == s.(log := s.log + BookingPrelude() + [RollbackTx]);
  }

  /** With the seat bookable, the passenger resolved and the schedule found,
      the inner block comes down to the sale with the passenger staged when new. */
  lemma InTransactionReachesSale(s: UowState, input: BookSeatInput, env: BookingEnv)
    requires s.pending == [] && input.seatId in Visible(s).seats
    requires SeatBooking.CanBookSeat(Visible(s).seats[input.seatId])
    requires ResolvePassenger(Visible(s), input, env).Success? && input.busScheduleId in Visible(s).schedules
    ensures var rows := Visible(s);
      var passenger := ResolvePassenger(rows, input, env).value;
      InTransaction(s, input, env) == SellAndCommit(
        s.(pending := if FirstByMobile(rows.passengers, input.mobileNumber).Some? then [] else [InsertPassenger(passenger)]),
        rows.seats[input.seatId], passenger.id, rows.schedules[input.busScheduleId].fare, input, env)
  {
    var passenger := ResolvePassenger(Visible(s), input, env).value;
    assert s.pending + [InsertPassenger(passenger)] == [InsertPassenger(passenger)];
  }

  /** A sale that would commit is rolled back whole when the server refuses COMMIT. */
  lemma CommitFaultUndoesSale(s: UowState, seat: SeatRecord, passengerId: Guid, fare: real, input: BookSeatInput, env: BookingEnv)
    requires SeatBooking.CanBookSeat(seat) && s.current.Some? && env.commitFault.Some?
    requires Succeeded(SellAndCommit(s, seat, passengerId, fare, input, env.(commitFault := None)))
    ensures SellAndCommit(s, seat, passengerId, fare, input, env) ==
      After(s.(pending := [], current := None, log := s.log + [RollbackTx]), Failure(env.commitFault.value))
  {
    var ok := env.(commitFault := None);
    var booking := SeatBooking.BookSeatSpec(
      seat, passengerId, input.boardingPoint, input.droppingPoint, fare, env.ticketId, env.now, env.referenceGuid);
    assert booking == SeatBooking.BookSeatSpec(
      seat, passengerId, input.boardingPoint, input.droppingPoint, fare, ok.ticketId, ok.now, ok.referenceGuid);
    var confirmed := ApplyTicketOp(TicketOp.Confirm, booking.ticket.value, env.now).value;
    var sold := ApplyOp(SeatOp.MarkAsSold, booking.seat, env.now).value;
    var s3 := s.(pending := s.pending + [InsertTicket(confirmed), UpdateSeat(sold)]);
    assert SaveAll(Visible(s3), s3.pending).Success?;
  }

  /** A sale whose staged passenger row breaks a column limit: the save
      inside the commit is refused and the transaction rolled back. */
  lemma SaleWithOverlongPassengerIsRefused(
    s: UowState, p: PassengerRecord, seat: SeatRecord, fare: real, input: BookSeatInput, env: BookingEnv)
    requires s.current.Some? && s.pending == [InsertPassenger(p)] && !PassengerFits(p)
    requires SeatBooking.CanBookSeat(seat) && p.id != Empty && seat.id != Empty && fare > 0.0
    ensures var r := SellAndCommit(s, seat, p.id, fare, input, env);
      r.outcome == Failure(DbUpdateException(SaveFailedMessage)) &&
      r.state.database == s.database && r.state.current.None? && r.state.log == s.log + [RollbackTx]
  {
    var booking := SeatBooking.BookSeatSpec(
      seat, p.id, input.boardingPoint, input.droppingPoint, fare, env.ticketId, env.now, env.referenceGuid);
    assert booking.ticket.Success?;
    var confirmed := ApplyTicketOp(TicketOp.Confirm, booking.ticket.value, env.now).value;
    var sold := ApplyOp(SeatOp.MarkAsSold, booking.seat, env.now).value;
    var s3 := s.(pending := s.pending + [InsertTicket(confirmed), UpdateSeat(sold)]);
    SaveAllStep(Visible(s3), InsertPassenger(p), [InsertTicket(confirmed), UpdateSeat(sold)]);
    assert [InsertPassenger(p)] + [InsertTicket(confirmed), UpdateSeat(sold)] == s3.pending;
    assert SaveAll(Visible(s3), s3.pending).Failure?;
  }

  /** The same masking hides a write the schema refuses: a new passenger
      whose mobile number has more than spaces past its column's 20
      characters passes every check the
      service makes, the save inside the commit is refused, and the caller
      is again told about a null reference; nothing is stored. */
  lemma OverlongMobileNumberIsReportedAsNullReference(s: UowState, input: BookSeatInput, env: BookingEnv)
    requires s.current.None? && s.pending == []
    requires input.busScheduleId != Empty && input.seatId != Empty && env.passengerId != Empty
    requires input.seatId in s.database.seats && s.database.seats[input.seatId].id != Empty
    requires SeatBooking.CanBookSeat(s.database.seats[input.seatId])
    requires input.busScheduleId in s.database.schedules && s.database.schedules[input.busScheduleId].fare > 0.0
    requires FirstByMobile(s.database.passengers, input.mobileNumber).None?
    requires !Text.IsNullOrWhiteSpace(input.passengerName) && !Text.IsNullOrWhiteSpace(input.mobileNumber)
    requires Overflows(input.mobileNumber, 20)
    ensures var r := BookSeatSpec(s, input, env);
      r.outcome == Failed(ErrorPrefix + NullReferenceMessage) &&
      r.state.database == s.database && r.state.current.None? &&
      r.state.log == s.log + BookingPrelude() + [RollbackTx]
  {
    var s1 := BeginSpec(s, Serializable).state;
    var rows := s.database;
    assert Visible(s1) == rows;
    var seat := rows.seats[input.seatId];
    var passenger := ResolvePassenger(rows, input, env).value;
    var s2 := s1.(pending := [InsertPassenger(passenger)]);
    var fare := rows.schedules[input.busScheduleId].fare;
    InTransactionReachesSale(s1, input, env);
    SaleWithOverlongPassengerIsRefused(s2, passenger, seat, fare, input, env);
  }

  /** `SeatDto`. */
  datatype SeatEntry = SeatEntry(seatId: Guid, seatNumber: string, row: string, status: SeatStatus)

  /** `SeatPlanDto`. */
  datatype SeatPlan = SeatPlan(
    busScheduleId: Guid,
    busName: string,
    companyName: string,
    totalSeats: int,
    journeyDate: DateTime,
    departureTime: TimeSpan,
    arrivalTime: TimeSpan,
    fare: real,
    boardingPoint: string,
    droppingPoint: string,
    seats: seq<SeatEntry>
  )

  /** The `Select` over the schedule's seats: one entry per seat, in order. */
  function SeatEntries(seats: seq<SeatRecord>): (r: seq<SeatEntry>)
    ensures |r| == |seats|
    ensures forall i :: 0 <= i < |seats| ==>
      r[i] == SeatEntry(seats[i].id, seats[i].seatNumber, seats[i].row, seats[i].status)
    decreases |seats|
  {
    if seats == [] then []
    else [SeatEntry(seats[0].id, seats[0].seatNumber, seats[0].row, seats[0].status)] + SeatEntries(seats[1..])
  }

  /** `GetSeatPlanAsync`, given what the repository loaded for the id: a
      missing schedule throws; otherwise the plan copies the schedule's
      times, fare and points, its bus's names and capacity, and one entry
      per seat. */
  function GetSeatPlan(busScheduleId: Guid, loaded: Option<ScheduleWithSeats>): (r: Result<SeatPlan, Exception>)
    ensures r.Failure? <==> loaded.None?
    ensures loaded.None? ==>
      r.error == InvalidOperationException("Bus schedule with ID " + GuidText(busScheduleId) + " not found")
    ensures loaded.Some? ==>
      var l := loaded.value;
      r.value.busScheduleId == l.schedule.id && r.value.busName == l.bus.busName &&
      r.value.companyName == l.bus.companyName && r.value.totalSeats == l.bus.totalSeats &&
      r.value.journeyDate == l.schedule.journeyDate && r.value.departureTime == l.schedule.departureTime &&
      r.value.arrivalTime == l.schedule.arrivalTime && r.value.fare == l.schedule.fare &&
      r.value.boardingPoint == l.schedule.boardingPoint && r.value.droppingPoint == l.schedule.droppingPoint &&
      |r.value.seats| == |l.seats| &&
      forall i :: 0 <= i < |l.seats| ==>
        r.value.seats[i].seatId == l.seats[i].id && r.value.seats[i].seatNumber == l.seats[i].seatNumber &&
        r.value.seats[i].row == l.seats[i].row && r.value.seats[i].status == l.seats[i].status
  {
    match loaded
    case None => Failure(InvalidOperationException("Bus schedule with ID " + GuidText(busScheduleId) + " not found"))
    case Some(l) =>
      Success(SeatPlan(
        l.schedule.id, l.bus.busName, l.bus.companyName, l.bus.totalSeats, l.schedule.journeyDate,
        l.schedule.departureTime, l.schedule.arrivalTime, l.schedule.fare, l.schedule.boardingPoint,
        l.schedule.droppingPoint, SeatEntries(l.seats)))
  }

  class BookingService {
    const unitOfWork: UnitOfWork

    constructor (unitOfWork: UnitOfWork)
      ensures this.unitOfWork == unitOfWork
    {
      this.unitOfWork := unitOfWork;
    }

    method BookSeat(input: BookSeatInput, env: BookingEnv) returns (r: BookSeatResult)
      modifies unitOfWork
      ensures After(unitOfWork.State(), r) == BookSeatSpec(old(unitOfWork.State()), input, env)
    {
      if input.busScheduleId == Empty {
        return Failed("Invalid bus schedule");
      }
      if input.seatId == Empty {
        return Failed("Invalid seat");
      }
      var begun := unitOfWork.BeginTransaction(Serializable);
      if begun.Fail? {
        return Caught(begun.error);
      }
      var inner := BookInTransaction(input, env);
      if inner.Success? {
        return inner.value;
      }
      var rolled := unitOfWork.Rollback();
      r := Caught(if rolled.Fail? then rolled.error else inner.error);
    }

    method RollbackAndReturn(result: BookSeatResult) returns (r: Result<BookSeatResult, Exception>)
      modifies unitOfWork
      ensures After(unitOfWork.State(), r) == RollbackThenReturn(old(unitOfWork.State()), result)
    {
      var rolled := unitOfWork.Rollback();
      r := if rolled.Fail? then Failure(rolled.error) else Success(result);
    }

    /** The inner try block, on the entity objects the repositories hand out. */
    method BookInTransaction(input: BookSeatInput, env: BookingEnv) returns (r: Result<BookSeatResult, Exception>)
      modifies unitOfWork
      ensures After(unitOfWork.State(), r) == InTransaction(old(unitOfWork.State()), input, env)
    {
      var rows := unitOfWork.Rows();
      if input.seatId !in rows.seats {
        r := RollbackAndReturn(Failed("Seat not found"));
        return;
      }
      var seat := new Seat.FromRecord(rows.seats[input.seatId]);
      if !SeatBooking.CanBookSeat(seat.Record()) {
        r := RollbackAndReturn(Failed(NotAvailableMessage(seat.Record())));
        return;
      }
      var found := FirstByMobile(rows.passengers, input.mobileNumber);
      var passenger: Passenger;
      if found.Some? {
        passenger := new Passenger.FromRecord(rows.passengers[found.value]);
      } else {
        var created := Passenger.Create(env.passengerId, input.passengerName, input.mobileNumber, input.email);
        if created.Failure? {
          return Failure(created.error);
        }
        passenger := created.value;
        unitOfWork.Track(InsertPassenger(passenger.Record()));
      }
      r := BookWithPassenger(seat, passenger, input, env);
    }

    method BookWithPassenger(seat: Seat, passenger: Passenger, input: BookSeatInput, env: BookingEnv)
      returns (r: Result<BookSeatResult, Exception>)
      requires SeatBooking.CanBookSeat(seat.Record())
      modifies unitOfWork, seat
      ensures After(unitOfWork.State(), r) == WithPassenger(old(unitOfWork.State()), old(seat.Record()), passenger.id, input, env)
    {
      var schedules := unitOfWork.Rows().schedules;
      if input.busScheduleId !in schedules {
        r := RollbackAndReturn(Failed("Bus schedule not found"));
        return;
      }
      r := Sell(seat, passenger, schedules[input.busScheduleId].fare, input, env);
    }

    method Sell(seat: Seat, passenger: Passenger, fare: real, input: BookSeatInput, env: BookingEnv)
      returns (r: Result<BookSeatResult, Exception>)
      requires SeatBooking.CanBookSeat(seat.Record())
      modifies unitOfWork, seat
      ensures After(unitOfWork.State(), r) ==
        SellAndCommit(old(unitOfWork.State()), old(seat.Record()), passenger.id, fare, input, env)
    {
      ghost var s0 := unitOfWork.State();
      ghost var booking := SeatBooking.BookSeatSpec(
        seat.Record(), passenger.id, input.boardingPoint, input.droppingPoint, fare, env.ticketId, env.now, env.referenceGuid);
      var booked := SeatBooking.BookSeat(
        seat, passenger, input.boardingPoint, input.droppingPoint, fare, env.ticketId, env.now, env.referenceGuid);
      if booked.Failure? {
        return Failure(booked.error);
      }
      var ticket := booked.value;
      assert booking.ticket == Success(ticket.Record()) && booking.seat == seat.Record();
      ghost var confirmedRecord := ApplyTicketOp(TicketOp.Confirm, ticket.Record(), env.now).value;
      ghost var soldRecord := ApplyOp(SeatOp.MarkAsSold, seat.Record(), env.now).value;
      var confirmed := ticket.Confirm(env.now);
      var sold := seat.MarkAsSold(env.now);
      assert ticket.Record() == confirmedRecord && seat.Record() == soldRecord;
      unitOfWork.Track(InsertTicket(ticket.Record()));
      unitOfWork.Track(UpdateSeat(seat.Record()));
      assert unitOfWork.State() == s0.(pending := s0.pending + [InsertTicket(confirmedRecord), UpdateSeat(soldRecord)]);
      var committed := unitOfWork.Commit(env.commitFault);
      if committed.Fail? {
        return Failure(committed.error);
      }
      return Success(BookSeatResult(
        true, "Seat booked successfully", Some(ticket.bookingReference), Some(ticket.id), Some(ticket.totalAmount)));
    }
  }
}
