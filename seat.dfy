/**
 * The seat entity (src/Domain/Entities/Seat.cs): a seat of one scheduled run
 * whose status moves Available -> Booked -> Sold, with a release path back
 * to Available that a sold seat never takes.
 */
module Seats {
  import opened Wrappers
  import opened Text
  import opened Guids
  import opened Clock
  import opened Errors

  datatype SeatStatus = Available | Booked | Sold

  /** The member name string interpolation prints for the enum. */
  function StatusName(s: SeatStatus): string {
    match s
    case Available => "Available"
    case Booked => "Booked"
    case Sold => "Sold"
  }

  /** The number the JSON serializer writes for the enum (declaration order). */
  function StatusCode(s: SeatStatus): nat {
    match s
    case Available => 0
    case Booked => 1
    case Sold => 2
  }

  /** The persisted state of a seat; `updatedAt` is the stamp `SetUpdatedAt` writes. */
  datatype SeatRecord = SeatRecord(
    id: Guid,
    busScheduleId: Guid,
    seatNumber: string,
    row: string,
    status: SeatStatus,
    updatedAt: Option<DateTime>
  )

  /** The public constructor's checks, in their order; on success a new
      seat is Available and not yet stamped. The row is not checked. */
  function NewSeat(id: Guid, busScheduleId: Guid, seatNumber: string, row: string): (r: Result<SeatRecord, Exception>)
    ensures r.Success? <==> busScheduleId != Empty && !IsNullOrWhiteSpace(seatNumber)
    ensures busScheduleId == Empty ==>
      r == Failure(ArgumentException("Bus schedule ID cannot be empty", "busScheduleId"))
    ensures busScheduleId != Empty && IsNullOrWhiteSpace(seatNumber) ==>
      r == Failure(ArgumentException("Seat number cannot be empty", "seatNumber"))
    ensures r.Success? ==> r.value == SeatRecord(id, busScheduleId, seatNumber, row, Available, None)
  {
    if busScheduleId == Empty then
      Failure(ArgumentException("Bus schedule ID cannot be empty", "busScheduleId"))
    else if IsNullOrWhiteSpace(seatNumber) then
      Failure(ArgumentException("Seat number cannot be empty", "seatNumber"))
    else
      Success(SeatRecord(id, busScheduleId, seatNumber, row, Available, None))
  }

  datatype SeatOp = Book | MarkAsSold | Release

  /** The status an operation moves to, or None when its guard throws. */
  function Next(op: SeatOp, s: SeatStatus): (r: Option<SeatStatus>)
    ensures op == Book ==> (r.Some? <==> s == Available)
    ensures op == MarkAsSold ==> (r.Some? <==> s == Booked)
    ensures op == Release ==> (r.Some? <==> s != Sold)
    ensures r.Some? ==> r.value == (match op case Book => Booked case MarkAsSold => Sold case Release => Available)
  {
    match op
    case Book => if s == Available then Some(Booked) else None
    case MarkAsSold => if s == Booked then Some(Sold) else None
    case Release => if s != Sold then Some(Available) else None
  }

  /** The exception a rejected operation throws. */
  function GuardError(op: SeatOp, seatNumber: string, s: SeatStatus): Exception {
    match op
    case Book =>
      InvalidOperationException("Cannot book seat " + seatNumber + ". Current status: " + StatusName(s))
    case MarkAsSold =>
      InvalidOperationException("Cannot mark seat " + seatNumber + " as sold. Current status: " + StatusName(s))
    case Release =>
      InvalidOperationException("Cannot release sold seat " + seatNumber)
  }

  /** One guarded assignment: a successful operation sets the status and the
      updated-at stamp; a rejected one throws before touching anything. */
  function ApplyOp(op: SeatOp, r: SeatRecord, now: DateTime): (res: Result<SeatRecord, Exception>)
    ensures res.Success? <==> Next(op, r.status).Some?
    ensures res.Success? ==>
      res.value.status == Next(op, r.status).value && res.value.updatedAt == Some(now) &&
      res.value.(status := r.status, updatedAt := r.updatedAt) == r
    ensures res.Failure? ==> res.error == GuardError(op, r.seatNumber, r.status)
  {
    match Next(op, r.status)
    case Some(s) => Success(r.(status := s, updatedAt := Some(now)))
    case None => Failure(GuardError(op, r.seatNumber, r.status))
  }

  /** Each guard is exact: Book succeeds iff the seat is Available, MarkAsSold
      iff it is Booked, Release iff it is not Sold; releasing an Available
      seat leaves its status as it was. */
  lemma GuardsAreExact(s: SeatStatus)
    ensures Next(Book, s) == (if s == Available then Some(Booked) else None)
    ensures Next(MarkAsSold, s) == (if s == Booked then Some(Sold) else None)
    ensures Next(Release, s).None? <==> s == Sold
    ensures s == Available ==> Next(Release, s) == Some(s)
  {
  }

  /** The status after a sequence of operations, a rejected one changing nothing. */
  function Run(ops: seq<SeatOp>, s: SeatStatus): SeatStatus
    decreases |ops|
  {
    if ops == [] then s
    else Run(ops[1..], match Next(ops[0], s) case Some(t) => t case None => s)
  }

  /** Sold is terminal: no sequence of operations leaves it. */
  lemma {:induction false} SoldIsTerminal(ops: seq<SeatOp>)
    ensures Run(ops, Sold) == Sold
    decreases |ops|
  {
    if ops != [] {
      assert Next(ops[0], Sold) == None;
      SoldIsTerminal(ops[1..]);
    }
  }

  function Rank(s: SeatStatus): nat {
    match s
    case Available => 0
    case Booked => 1
    case Sold => 2
  }

  /** Without Release the lifecycle only moves forward. */
  lemma {:induction false} ForwardOnlyWithoutRelease(ops: seq<SeatOp>, s: SeatStatus)
    requires forall k :: 0 <= k < |ops| ==> ops[k] != Release
    ensures Rank(Run(ops, s)) >= Rank(s)
    decreases |ops|
  {
    if ops != [] {
      var t := match Next(ops[0], s) case Some(t) => t case None => s;
      assert Rank(t) >= Rank(s);
      ForwardOnlyWithoutRelease(ops[1..], t);
    }
  }

  /** A run of operations ends Sold from a non-Sold status only if it contains MarkAsSold. */
  lemma {:induction false} SoldNeedsMarkAsSold(ops: seq<SeatOp>, s: SeatStatus)
    requires s != Sold && Run(ops, s) == Sold
    ensures MarkAsSold in ops
    decreases |ops|
  {
    if ops == [] {
    } else {
      var t := match Next(ops[0], s) case Some(t) => t case None => s;
      if ops[0] != MarkAsSold {
        assert t != Sold;
        SoldNeedsMarkAsSold(ops[1..], t);
        assert MarkAsSold in ops[1..];
      }
    }
  }

  class Seat {
    const id: Guid
    const busScheduleId: Guid
    const seatNumber: string
    const row: string
    var status: SeatStatus
    var updatedAt: Option<DateTime>

    function Record(): SeatRecord
      reads this
    {
      SeatRecord(id, busScheduleId, seatNumber, row, status, updatedAt)
    }

    /** The parameterless constructor plus property assignment that both the
        public constructor and the persistence layer use. */
    constructor FromRecord(r: SeatRecord)
      ensures Record() == r
    {
      id, busScheduleId, seatNumber, row := r.id, r.busScheduleId, r.seatNumber, r.row;
      status, updatedAt := r.status, r.updatedAt;
    }

    /** `new Seat(busScheduleId, seatNumber, row)`, which throws on invalid arguments. */
    static method Create(id: Guid, busScheduleId: Guid, seatNumber: string, row: string)
      returns (r: Result<Seat, Exception>)
      ensures NewSeat(id, busScheduleId, seatNumber, row).Failure? ==>
        r == Failure(NewSeat(id, busScheduleId, seatNumber, row).error)
      ensures NewSeat(id, busScheduleId, seatNumber, row).Success? ==>
        r.Success? && fresh(r.value) && r.value.Record() == NewSeat(id, busScheduleId, seatNumber, row).value
    {
      var v := NewSeat(id, busScheduleId, seatNumber, row);
      if v.Failure? {
        return Failure(v.error);
      }
      var seat := new Seat.FromRecord(v.value);
      return Success(seat);
    }

    method Book(now: DateTime) returns (o: Outcome<Exception>)
      modifies this
      ensures o.Pass? <==> old(status) == Available
      ensures o.Pass? ==> status == Booked && updatedAt == Some(now)
      ensures o.Fail? ==> o.error == GuardError(SeatOp.Book, seatNumber, status) && unchanged(this)
      ensures ApplyOp(SeatOp.Book, old(Record()), now) == (if o.Pass? then Success(Record()) else Failure(o.error))
    {
      if status != Available {
        return Fail(GuardError(SeatOp.Book, seatNumber, status));
      }
      status := Booked;
      updatedAt := Some(now);
      return Pass;
    }

    method MarkAsSold(now: DateTime) returns (o: Outcome<Exception>)
      modifies this
      ensures o.Pass? <==> old(status) == Booked
      ensures o.Pass? ==> status == Sold && updatedAt == Some(now)
      ensures o.Fail? ==> o.error == GuardError(SeatOp.MarkAsSold, seatNumber, status) && unchanged(this)
      ensures ApplyOp(SeatOp.MarkAsSold, old(Record()), now) == (if o.Pass? then Success(Record()) else Failure(o.error))
    {
      if status != Booked {
        return Fail(GuardError(SeatOp.MarkAsSold, seatNumber, status));
      }
      status := Sold;
      updatedAt := Some(now);
      return Pass;
    }

    method Release(now: DateTime) returns (o: Outcome<Exception>)
      modifies this
      ensures o.Fail? <==> old(status) == Sold
      ensures o.Pass? ==> status == Available && updatedAt == Some(now)
      ensures o.Fail? ==> o.error == GuardError(SeatOp.Release, seatNumber, status) && unchanged(this)
      ensures ApplyOp(SeatOp.Release, old(Record()), now) == (if o.Pass? then Success(Record()) else Failure(o.error))
    {
      if status == Sold {
        return Fail(GuardError(SeatOp.Release, seatNumber, status));
      }
      status := Available;
      updatedAt := Some(now);
      return Pass;
    }

    /** Available exactly when Book would succeed. */
    predicate IsAvailable()
      reads this
      ensures IsAvailable() <==> Next(SeatOp.Book, status).Some?
    {
      status == Available
    }
  }
}
