/**
 * The ticket entity (src/Domain/Entities/Ticket.cs): validated on creation,
 * carrying a booking reference built from the creation time and a fresh
 * GUID, and toggled between unconfirmed and confirmed.
 */
module Tickets {
  import opened Wrappers
  import opened Text
  import opened Guids
  import opened Clock
  import opened Errors

  /** The persisted state of a ticket; amounts are exact (C# `decimal`). */
  datatype TicketRecord = TicketRecord(
    id: Guid,
    passengerId: Guid,
    seatId: Guid,
    boardingPoint: string,
    droppingPoint: string,
    totalAmount: real,
    bookingReference: string,
    isConfirmed: bool,
    updatedAt: Option<DateTime>
  )

  /** "BKG", the UTC creation time as `yyyyMMddHHmmss`, then the first six
      characters of the GUID's text form upper-cased. The clock reading and
      the GUID are parameters. */
  function BookingReference(now: DateTime, g: Guid): (r: string)
    ensures |r| == 23
    ensures r[..3] == "BKG"
    ensures AllDigits(r[3..17]) && ParseStamp(r[3..17]) == now.(fraction := 0)
    ensures forall i :: 17 <= i < 23 ==> IsUpperHexDigit(r[i])
    ensures r[17..] == ToUpper(HexPad(Head(g) / 256, 6))
  {
    StampRoundTrip(now);
    GuidTextPrefix(g);
    var r := "BKG" + UtcStamp(now) + ToUpper(GuidText(g)[..6]);
    assert r[3..17] == UtcStamp(now);
    assert r[17..] == ToUpper(GuidText(g)[..6]);
    r
  }

  /** References made at different seconds differ, whatever GUIDs they use. */
  lemma ReferencesOfDifferentSecondsDiffer(t1: DateTime, g1: Guid, t2: DateTime, g2: Guid)
    requires t1.(fraction := 0) != t2.(fraction := 0)
    ensures BookingReference(t1, g1) != BookingReference(t2, g2)
  {
    var r1, r2 := BookingReference(t1, g1), BookingReference(t2, g2);
    assert ParseStamp(r1[3..17]) != ParseStamp(r2[3..17]);
  }

  /** The public constructor's checks, in their order; on success the ticket
      keeps its arguments, gets a booking reference and is unconfirmed. */
  function NewTicket(
    id: Guid, passengerId: Guid, seatId: Guid, boardingPoint: string, droppingPoint: string,
    totalAmount: real, now: DateTime, g: Guid): (r: Result<TicketRecord, Exception>)
    ensures r.Success? <==> passengerId != Empty && seatId != Empty && totalAmount > 0.0
    ensures passengerId == Empty ==>
      r == Failure(ArgumentException("Passenger ID cannot be empty", "passengerId"))
    ensures passengerId != Empty && seatId == Empty ==>
      r == Failure(ArgumentException("Seat ID cannot be empty", "seatId"))
    ensures passengerId != Empty && seatId != Empty && totalAmount <= 0.0 ==>
      r == Failure(ArgumentException("Total amount must be greater than zero", "totalAmount"))
    ensures r.Success? ==> r.value == TicketRecord(
      id, passengerId, seatId, boardingPoint, droppingPoint, totalAmount,
      BookingReference(now, g), false, None)
  {
    if passengerId == Empty then
      Failure(ArgumentException("Passenger ID cannot be empty", "passengerId"))
    else if seatId == Empty then
      Failure(ArgumentException("Seat ID cannot be empty", "seatId"))
    else if totalAmount <= 0.0 then
      Failure(ArgumentException("Total amount must be greater than zero", "totalAmount"))
    else
      Success(TicketRecord(
        id, passengerId, seatId, boardingPoint, droppingPoint, totalAmount,
        BookingReference(now, g), false, None))
  }

  datatype TicketOp = Confirm | Cancel

  /** Confirm needs an unconfirmed ticket and Cancel a confirmed one. */
  function ApplyTicketOp(op: TicketOp, t: TicketRecord, now: DateTime): (r: Result<TicketRecord, Exception>)
    ensures r.Success? <==> (op == Confirm) != t.isConfirmed
    ensures r.Success? ==>
      r.value.isConfirmed == (op == Confirm) && r.value.updatedAt == Some(now) &&
      r.value.(isConfirmed := t.isConfirmed, updatedAt := t.updatedAt) == t
    ensures r.Failure? ==> r.error.InvalidOperationException?
  {
    match op
    case Confirm =>
      if t.isConfirmed then Failure(InvalidOperationException("Ticket is already confirmed"))
      else Success(t.(isConfirmed := true, updatedAt := Some(now)))
    case Cancel =>
      if !t.isConfirmed then Failure(InvalidOperationException("Cannot cancel unconfirmed ticket"))
      else Success(t.(isConfirmed := false, updatedAt := Some(now)))
  }

  /** Confirm and Cancel undo each other: from an unconfirmed ticket,
      Confirm, Cancel, Confirm all succeed, and Cancel after Confirm restores
      every field but the stamp; a first Cancel is rejected. */
  lemma ConfirmCancelToggle(t: TicketRecord, t1: DateTime, t2: DateTime, t3: DateTime)
    requires !t.isConfirmed
    ensures ApplyTicketOp(Cancel, t, t1).Failure?
    ensures ApplyTicketOp(Confirm, t, t1).Success?
    ensures var c := ApplyTicketOp(Confirm, t, t1).value;
      ApplyTicketOp(Confirm, c, t2).Failure? &&
      ApplyTicketOp(Cancel, c, t2) == Success(t.(updatedAt := Some(t2))) &&
      ApplyTicketOp(Confirm, ApplyTicketOp(Cancel, c, t2).value, t3) == Success(c.(updatedAt := Some(t3)))
  {
  }

  class Ticket {
    const id: Guid
    const passengerId: Guid
    const seatId: Guid
    const boardingPoint: string
    const droppingPoint: string
    const totalAmount: real
    const bookingReference: string
    var isConfirmed: bool
    var updatedAt: Option<DateTime>

    function Record(): TicketRecord
      reads this
    {
      TicketRecord(id, passengerId, seatId, boardingPoint, droppingPoint, totalAmount,
                   bookingReference, isConfirmed, updatedAt)
    }

    constructor FromRecord(r: TicketRecord)
      ensures Record() == r
    {
      id, passengerId, seatId := r.id, r.passengerId, r.seatId;
      boardingPoint, droppingPoint, totalAmount := r.boardingPoint, r.droppingPoint, r.totalAmount;
      bookingReference, isConfirmed, updatedAt := r.bookingReference, r.isConfirmed, r.updatedAt;
    }

    /** `new Ticket(passengerId, seatId, boardingPoint, droppingPoint, totalAmount)`. */
    static method Create(
      id: Guid, passengerId: Guid, seatId: Guid, boardingPoint: string, droppingPoint: string,
      totalAmount: real, now: DateTime, g: Guid) returns (r: Result<Ticket, Exception>)
      ensures var v := NewTicket(id, passengerId, seatId, boardingPoint, droppingPoint, totalAmount, now, g);
        (v.Failure? ==> r == Failure(v.error)) &&
        (v.Success? ==> r.Success? && fresh(r.value) && r.value.Record() == v.value)
    {
      var v := NewTicket(id, passengerId, seatId, boardingPoint, droppingPoint, totalAmount, now, g);
      if v.Failure? {
        return Failure(v.error);
      }
      var t := new Ticket.FromRecord(v.value);
      return Success(t);
    }

    method Confirm(now: DateTime) returns (o: Outcome<Exception>)
      modifies this
      ensures o.Pass? <==> !old(isConfirmed)
      ensures o.Pass? ==> isConfirmed && updatedAt == Some(now)
      ensures o.Fail? ==> o.error == InvalidOperationException("Ticket is already confirmed") && unchanged(this)
      ensures ApplyTicketOp(TicketOp.Confirm, old(Record()), now) ==
        (if o.Pass? then Success(Record()) else Failure(o.error))
    {
      if isConfirmed {
        return Fail(InvalidOperationException("Ticket is already confirmed"));
      }
      isConfirmed := true;
      updatedAt := Some(now);
      return Pass;
    }

    method Cancel(now: DateTime) returns (o: Outcome<Exception>)
      modifies this
      ensures o.Pass? <==> old(isConfirmed)
      ensures o.Pass? ==> !isConfirmed && updatedAt == Some(now)
      ensures o.Fail? ==> o.error == InvalidOperationException("Cannot cancel unconfirmed ticket") && unchanged(this)
      ensures ApplyTicketOp(TicketOp.Cancel, old(Record()), now) ==
        (if o.Pass? then Success(Record()) else Failure(o.error))
    {
      if !isConfirmed {
        return Fail(InvalidOperationException("Cannot cancel unconfirmed ticket"));
      }
      isConfirmed := false;
      updatedAt := Some(now);
      return Pass;
    }
  }
}
