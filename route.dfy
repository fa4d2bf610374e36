/**
 * The route entity (src/Domain/Entities/Route.cs): both cities present and
 * distance and estimated duration positive when a route is created; the
 * details update replaces every field without checks.
 */
module Routes {
  import opened Wrappers
  import opened Text
  import opened Guids
  import opened Clock
  import opened Errors

  datatype RouteRecord = RouteRecord(
    id: Guid,
    fromCity: string,
    toCity: string,
    distance: real,
    estimatedDuration: TimeSpan,
    updatedAt: Option<DateTime>
  )

  predicate ValidRoute(r: RouteRecord) {
    && !IsNullOrWhiteSpace(r.fromCity)
    && !IsNullOrWhiteSpace(r.toCity)
    && r.distance > 0.0
    && IsPositive(r.estimatedDuration)
  }

  function NewRoute(id: Guid, fromCity: string, toCity: string, distance: real, estimatedDuration: TimeSpan)
    : (r: Result<RouteRecord, Exception>)
    ensures r.Success? <==>
      !IsNullOrWhiteSpace(fromCity) && !IsNullOrWhiteSpace(toCity) && distance > 0.0 && IsPositive(estimatedDuration)
    ensures IsNullOrWhiteSpace(fromCity) ==>
      r == Failure(ArgumentException("From city cannot be empty", "fromCity"))
    ensures !IsNullOrWhiteSpace(fromCity) && IsNullOrWhiteSpace(toCity) ==>
      r == Failure(ArgumentException("To city cannot be empty", "toCity"))
    ensures !IsNullOrWhiteSpace(fromCity) && !IsNullOrWhiteSpace(toCity) && distance <= 0.0 ==>
      r == Failure(ArgumentException("Distance must be greater than zero", "distance"))
    ensures !IsNullOrWhiteSpace(fromCity) && !IsNullOrWhiteSpace(toCity) && distance > 0.0 &&
            estimatedDuration.ticks <= TimeSpanZero.ticks ==>
      r == Failure(ArgumentException("Estimated duration must be greater than zero", "estimatedDuration"))
    ensures r.Success? ==>
      r.value == RouteRecord(id, fromCity, toCity, distance, estimatedDuration, None) && ValidRoute(r.value)
  {
    if IsNullOrWhiteSpace(fromCity) then Failure(ArgumentException("From city cannot be empty", "fromCity"))
    else if IsNullOrWhiteSpace(toCity) then Failure(ArgumentException("To city cannot be empty", "toCity"))
    else if distance <= 0.0 then Failure(ArgumentException("Distance must be greater than zero", "distance"))
    else if estimatedDuration.ticks <= TimeSpanZero.ticks then
      Failure(ArgumentException("Estimated duration must be greater than zero", "estimatedDuration"))
    else Success(RouteRecord(id, fromCity, toCity, distance, estimatedDuration, None))
  }

  class Route {
    const id: Guid
    var fromCity: string
    var toCity: string
    var distance: real
    var estimatedDuration: TimeSpan
    var updatedAt: Option<DateTime>

    function Record(): RouteRecord
      reads this
    {
      RouteRecord(id, fromCity, toCity, distance, estimatedDuration, updatedAt)
    }

    constructor FromRecord(r: RouteRecord)
      ensures Record() == r
    {
      id, fromCity, toCity := r.id, r.fromCity, r.toCity;
      distance, estimatedDuration, updatedAt := r.distance, r.estimatedDuration, r.updatedAt;
    }

    /** `new Route(fromCity, toCity, distance, estimatedDuration)`. */
    static method Create(id: Guid, fromCity: string, toCity: string, distance: real, estimatedDuration: TimeSpan)
      returns (r: Result<Route, Exception>)
      ensures var v := NewRoute(id, fromCity, toCity, distance, estimatedDuration);
        (v.Failure? ==> r == Failure(v.error)) &&
        (v.Success? ==> r.Success? && fresh(r.value) && r.value.Record() == v.value)
    {
      var v := NewRoute(id, fromCity, toCity, distance, estimatedDuration);
      if v.Failure? {
        return Failure(v.error);
      }
      var route := new Route.FromRecord(v.value);
      return Success(route);
    }

    /** Replaces all four details without checks and stamps the update. */
    method UpdateDetails(newFromCity: string, newToCity: string, newDistance: real, newEstimatedDuration: TimeSpan,
                         now: DateTime)
      modifies this
      ensures Record() == RouteRecord(id, newFromCity, newToCity, newDistance, newEstimatedDuration, Some(now))
      ensures ValidRoute(Record()) <==> NewRoute(id, newFromCity, newToCity, newDistance, newEstimatedDuration).Success?
    {
      fromCity, toCity, distance, estimatedDuration := newFromCity, newToCity, newDistance, newEstimatedDuration;
      updatedAt := Some(now);
    }
  }
}
