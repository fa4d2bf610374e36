/**
 * The passenger entity (src/Domain/Entities/Passenger.cs): name and mobile
 * number are checked when a passenger is created but not when its details
 * are updated; the e-mail address is optional throughout.
 */
module Passengers {
  import opened Wrappers
  import opened Text
  import opened Guids
  import opened Clock
  import opened Errors

  datatype PassengerRecord = PassengerRecord(
    id: Guid,
    name: string,
    mobileNumber: string,
    email: Option<string>,
    updatedAt: Option<DateTime>
  )

  /** What the public constructor guarantees of the fields it sets. */
  predicate ValidPassenger(p: PassengerRecord) {
    !IsNullOrWhiteSpace(p.name) && !IsNullOrWhiteSpace(p.mobileNumber)
  }

  /** The public constructor's checks, in their order; the e-mail address is
      stored as given, absent or not. */
  function NewPassenger(id: Guid, name: string, mobileNumber: string, email: Option<string>): (r: Result<PassengerRecord, Exception>)
    ensures r.Success? <==> !IsNullOrWhiteSpace(name) && !IsNullOrWhiteSpace(mobileNumber)
    ensures IsNullOrWhiteSpace(name) ==> r == Failure(ArgumentException("Name cannot be empty", "name"))
    ensures !IsNullOrWhiteSpace(name) && IsNullOrWhiteSpace(mobileNumber) ==>
      r == Failure(ArgumentException("Mobile number cannot be empty", "mobileNumber"))
    ensures r.Success? ==> r.value == PassengerRecord(id, name, mobileNumber, email, None) && ValidPassenger(r.value)
  {
    if IsNullOrWhiteSpace(name) then Failure(ArgumentException("Name cannot be empty", "name"))
    else if IsNullOrWhiteSpace(mobileNumber) then Failure(ArgumentException("Mobile number cannot be empty", "mobileNumber"))
    else Success(PassengerRecord(id, name, mobileNumber, email, None))
  }

  class Passenger {
    const id: Guid
    var name: string
    var mobileNumber: string
    var email: Option<string>
    var updatedAt: Option<DateTime>

    function Record(): PassengerRecord
      reads this
    {
      PassengerRecord(id, name, mobileNumber, email, updatedAt)
    }

    constructor FromRecord(r: PassengerRecord)
      ensures Record() == r
    {
      id, name, mobileNumber, email, updatedAt := r.id, r.name, r.mobileNumber, r.email, r.updatedAt;
    }

    /** `new Passenger(name, mobileNumber, email)`. */
    static method Create(id: Guid, name: string, mobileNumber: string, email: Option<string>)
      returns (r: Result<Passenger, Exception>)
      ensures var v := NewPassenger(id, name, mobileNumber, email);
        (v.Failure? ==> r == Failure(v.error)) &&
        (v.Success? ==> r.Success? && fresh(r.value) && r.value.Record() == v.value)
    {
      var v := NewPassenger(id, name, mobileNumber, email);
      if v.Failure? {
        return Failure(v.error);
      }
      var p := new Passenger.FromRecord(v.value);
      return Success(p);
    }

    /** Overwrites all three details without checking them, and stamps the
        update: the constructor's guarantee survives only if the new values
        happen to meet it. */
    method UpdateDetails(newName: string, newMobileNumber: string, newEmail: Option<string>, now: DateTime)
      modifies this
      ensures Record() == old(Record()).(name := newName, mobileNumber := newMobileNumber,
                                         email := newEmail, updatedAt := Some(now))
      ensures ValidPassenger(Record()) <==> !IsNullOrWhiteSpace(newName) && !IsNullOrWhiteSpace(newMobileNumber)
    {
      name, mobileNumber, email := newName, newMobileNumber, newEmail;
      updatedAt := Some(now);
    }
  }
}
