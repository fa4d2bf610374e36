/**
 * The bus entity (src/Domain/Entities/Bus.cs): company, name and number
 * must be present and the capacity positive when a bus is created; the
 * details update replaces every field without checks.
 */
module Buses {
  import opened Wrappers
  import opened Text
  import opened Guids
  import opened Clock
  import opened Errors

  datatype BusRecord = BusRecord(
    id: Guid,
    companyName: string,
    busName: string,
    busNumber: string,
    busType: string,
    totalSeats: int,
    updatedAt: Option<DateTime>
  )

  /** What the public constructor guarantees; the bus type is not checked. */
  predicate ValidBus(b: BusRecord) {
    && !IsNullOrWhiteSpace(b.companyName)
    && !IsNullOrWhiteSpace(b.busName)
    && !IsNullOrWhiteSpace(b.busNumber)
    && b.totalSeats > 0
  }

  function NewBus(id: Guid, companyName: string, busName: string, busNumber: string, busType: string, totalSeats: int)
    : (r: Result<BusRecord, Exception>)
    ensures r.Success? <==>
      !IsNullOrWhiteSpace(companyName) && !IsNullOrWhiteSpace(busName) && !IsNullOrWhiteSpace(busNumber) && totalSeats > 0
    ensures IsNullOrWhiteSpace(companyName) ==>
      r == Failure(ArgumentException("Company name cannot be empty", "companyName"))
    ensures !IsNullOrWhiteSpace(companyName) && IsNullOrWhiteSpace(busName) ==>
      r == Failure(ArgumentException("Bus name cannot be empty", "busName"))
    ensures !IsNullOrWhiteSpace(companyName) && !IsNullOrWhiteSpace(busName) && IsNullOrWhiteSpace(busNumber) ==>
      r == Failure(ArgumentException("Bus number cannot be empty", "busNumber"))
    ensures !IsNullOrWhiteSpace(companyName) && !IsNullOrWhiteSpace(busName) && !IsNullOrWhiteSpace(busNumber) && totalSeats <= 0 ==>
      r == Failure(ArgumentException("Total seats must be greater than zero", "totalSeats"))
    ensures r.Success? ==>
      r.value == BusRecord(id, companyName, busName, busNumber, busType, totalSeats, None) && ValidBus(r.value)
  {
    if IsNullOrWhiteSpace(companyName) then Failure(ArgumentException("Company name cannot be empty", "companyName"))
    else if IsNullOrWhiteSpace(busName) then Failure(ArgumentException("Bus name cannot be empty", "busName"))
    else if IsNullOrWhiteSpace(busNumber) then Failure(ArgumentException("Bus number cannot be empty", "busNumber"))
    else if totalSeats <= 0 then Failure(ArgumentException("Total seats must be greater than zero", "totalSeats"))
    else Success(BusRecord(id, companyName, busName, busNumber, busType, totalSeats, None))
  }

  class Bus {
    const id: Guid
    var companyName: string
    var busName: string
    var busNumber: string
    var busType: string
    var totalSeats: int
    var updatedAt: Option<DateTime>

    function Record(): BusRecord
      reads this
    {
      BusRecord(id, companyName, busName, busNumber, busType, totalSeats, updatedAt)
    }

    constructor FromRecord(r: BusRecord)
      ensures Record() == r
    {
      id, companyName, busName, busNumber := r.id, r.companyName, r.busName, r.busNumber;
      busType, totalSeats, updatedAt := r.busType, r.totalSeats, r.updatedAt;
    }

    /** `new Bus(companyName, busName, busNumber, busType, totalSeats)`. */
    static method Create(id: Guid, companyName: string, busName: string, busNumber: string, busType: string, totalSeats: int)
      returns (r: Result<Bus, Exception>)
      ensures var v := NewBus(id, companyName, busName, busNumber, busType, totalSeats);
        (v.Failure? ==> r == Failure(v.error)) &&
        (v.Success? ==> r.Success? && fresh(r.value) && r.value.Record() == v.value)
    {
      var v := NewBus(id, companyName, busName, busNumber, busType, totalSeats);
      if v.Failure? {
        return Failure(v.error);
      }
      var b := new Bus.FromRecord(v.value);
      return Success(b);
    }

    /** Replaces all five details without checks (the capacity may become
        zero or negative) and stamps the update. */
    method UpdateDetails(newCompanyName: string, newBusName: string, newBusNumber: string, newBusType: string,
                         newTotalSeats: int, now: DateTime)
      modifies this
      ensures Record() == BusRecord(id, newCompanyName, newBusName, newBusNumber, newBusType, newTotalSeats, Some(now))
      ensures ValidBus(Record()) <==> NewBus(id, newCompanyName, newBusName, newBusNumber, newBusType, newTotalSeats).Success?
    {
      companyName, busName, busNumber, busType := newCompanyName, newBusName, newBusNumber, newBusType;
      totalSeats := newTotalSeats;
      updatedAt := Some(now);
    }
  }
}
