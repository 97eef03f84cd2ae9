/**
  Pickup requests: a signed-in user asks for a car to be picked up at the
  user's position. The request is admitted only when the car is among the
  cars near that position; which cars are near is a geographic query that
  enters the model as a function.
 */
module Pickup {
  import opened Wrappers
  import opened Errors
  import opened Tables
  import opened Schema

  const PICKUP_RADIUS_KM := 10
  const PENDING := "PENDING"
  const NOT_IN_RANGE := "Car is not within 10km of your location"

  /** The request body; coordinates are in units of 1e-8 degree. */
  datatype PickupDto = PickupDto(carId: int, latitude: int, longitude: int)

  datatype PickupView = PickupView(id: int, userId: int, carId: int, latitude: int, longitude: int, status: string)

  /** The ids of the cars `getNearestCars(latitude, longitude, radiusKm)` returns. */
  type Nearest = (int, int, int) -> seq<int>

  /** `toResponse(request)`. */
  function ToView(id: int, row: PickupRow): (v: PickupView)
    ensures v.id == id && v.userId == row.userId && v.carId == row.carId
    ensures v.latitude == row.latitude && v.longitude == row.longitude && v.status == row.status
  {
    PickupView(id, row.userId, row.carId, row.latitude, row.longitude, row.status)
  }

  /**
    `requestPickup(userId, dto)`: asks for the cars within 10 km of the
    request's position; if the car is not among them the request is refused
    and nothing is written, else a `PENDING` request is stored.
   */
  function RequestPickup(s: Store, userId: int, dto: PickupDto, nearest: Nearest): (r: Reply<PickupView>)
    requires Wf(s)
    ensures Wf(r.store)
    ensures r.result.Err? ==> r.store == s
    ensures dto.carId !in nearest(dto.latitude, dto.longitude, PICKUP_RADIUS_KM)
            ==> r.result == Err(HttpError(BadRequest, NOT_IN_RANGE))
    ensures r.result.Ok? <==> && dto.carId in nearest(dto.latitude, dto.longitude, PICKUP_RADIUS_KM)
                              && PickupFits(PickupRow(userId, dto.carId, dto.latitude, dto.longitude, PENDING))
                              && userId in s.users.rows && dto.carId in s.cars.rows
    ensures r.result.Ok? ==> && r.result.value.id !in s.pickups.rows
                             && r.store == s.(pickups := Table(s.pickups.rows[r.result.value.id := PickupRow(userId, dto.carId, dto.latitude, dto.longitude, PENDING)], r.store.pickups.next))
                             && r.result.value == PickupView(r.result.value.id, userId, dto.carId, dto.latitude, dto.longitude, PENDING)
  {
    if !SomeEqual(nearest(dto.latitude, dto.longitude, PICKUP_RADIUS_KM), dto.carId) then
      Reply(s, Err(HttpError(BadRequest, NOT_IN_RANGE)))
    else
      var row := PickupRow(userId, dto.carId, dto.latitude, dto.longitude, PENDING);
      match InsertPickup(s, row)
      case Err(e) => Reply(s, Err(e))
      case Ok((s', id)) => Reply(s', Ok(ToView(id, row)))
  }

  /** Only the answer of the query at the request's own position and a 10 km radius matters. */
  lemma OnlyThatQueryMatters(s: Store, userId: int, dto: PickupDto, n1: Nearest, n2: Nearest)
    requires Wf(s)
    requires n1(dto.latitude, dto.longitude, PICKUP_RADIUS_KM) == n2(dto.latitude, dto.longitude, PICKUP_RADIUS_KM)
    ensures RequestPickup(s, userId, dto, n1) == RequestPickup(s, userId, dto, n2)
  {
  }

  /** With no car nearby, every request is refused. */
  lemma NothingNearby(s: Store, userId: int, dto: PickupDto, nearest: Nearest)
    requires Wf(s) && nearest(dto.latitude, dto.longitude, PICKUP_RADIUS_KM) == []
    ensures RequestPickup(s, userId, dto, nearest) == Reply(s, Err(HttpError(BadRequest, NOT_IN_RANGE)))
  {
  }
}
