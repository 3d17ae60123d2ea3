/**
 * GaragesRoute.ts of property management: the request-to-garage mapping, the garage-to-response
 * mapping, and the outcome of a POST. The repository is seen through whether its add succeeds.
 * Opening and closing times are epoch milliseconds; the ISO parsing and rendering are left out.
 */
module GaragesRoute {
  import opened Wrappers
  import opened Garages

  /** CreateGarageRequestObject. */
  datatype CreateGarageRequest = CreateGarageRequest(
    name: string, isOpen: bool, numberParkingSpots: int, pricePerHourInEuros: real,
    openingTime: int, closingTime: int)

  /** The first setter rule the request breaks, in the order `toGarage` applies the setters. */
  function RequestError(req: CreateGarageRequest): (e: Option<string>)
    ensures e.None? <==> req.numberParkingSpots >= 0 && req.pricePerHourInEuros > 0.0 && req.openingTime <= req.closingTime
  {
    if req.numberParkingSpots < 0 then Some(NegativeSpotsError)
    else if req.pricePerHourInEuros <= 0.0 then Some(NonPositivePriceError)
    else if req.openingTime > req.closingTime then Some(OpeningAfterClosingError)
    else None
  }

  /** The garage `toGarage` builds from a request that passes every setter. */
  predicate BuiltFrom(g: Garage, req: CreateGarageRequest, newId: string, now: int)
    reads g
  {
    && g.id == newId && g.name == req.name && g.isOpen
    && g.numberParkingSpots == Some(req.numberParkingSpots)
    && g.pricePerHour == Some(req.pricePerHourInEuros)
    && g.openingTime == Some(req.openingTime) && g.closingTime == Some(req.closingTime)
    && g.createdAt == now && g.lastModifiedAt == now
  }

  /**
   * `toGarage`: name first, then spots, price and opening times; the first setter that throws
   * aborts with its error. The request's `IsOpen` is not used: the garage is always open.
   */
  method ToGarage(req: CreateGarageRequest, newId: string, now: int) returns (r: Result<Garage, string>)
    ensures RequestError(req).Some? ==> r == Failure(RequestError(req).value)
    ensures RequestError(req).None? ==>
      r.Success? && fresh(r.value) && r.value.Valid() && BuiltFrom(r.value, req, newId, now)
  {
    var g := new Garage(req.name, newId, now);
    var spots := g.SetNumberParkingSpots(req.numberParkingSpots);
    if spots.Failure? {
      return Failure(spots.error);
    }
    var price := g.SetPricePerHourInEuros(req.pricePerHourInEuros);
    if price.Failure? {
      return Failure(price.error);
    }
    var times := g.SetOpeningTimes(req.openingTime, req.closingTime);
    if times.Failure? {
      return Failure(times.error);
    }
    return Success(g);
  }

  /** GarageResponseObject: a count that was never set is undefined. */
  datatype GarageResponse = GarageResponse(
    id: string, name: string, isOpen: bool, numberParkingSpots: Option<int>, pricePerHourInEuros: Option<real>,
    openingTime: int, closingTime: int, createdAt: int, lastModifiedAt: int)

  /**
   * `toGetGarageResponse`: copies the fields and renders the four dates; a garage without
   * opening times fails, as `toISOString` on undefined throws.
   */
  function ToGetGarageResponse(g: Garage): (r: Result<GarageResponse, string>)
    reads g
    ensures r.Success? <==> g.openingTime.Some? && g.closingTime.Some?
    ensures r.Success? ==>
      && r.value.id == g.id && r.value.name == g.name && r.value.isOpen == g.isOpen
      && r.value.numberParkingSpots == g.numberParkingSpots && r.value.pricePerHourInEuros == g.pricePerHour
      && r.value.openingTime == g.openingTime.value && r.value.closingTime == g.closingTime.value
      && r.value.createdAt == g.createdAt && r.value.lastModifiedAt == g.lastModifiedAt
  {
    if g.openingTime.None? || g.closingTime.None? then Failure("toISOString of undefined")
    else Success(GarageResponse(g.id, g.name, g.isOpen, g.numberParkingSpots, g.pricePerHour,
                                g.openingTime.value, g.closingTime.value, g.createdAt, g.lastModifiedAt))
  }

  datatype Response = Response(status: int, body: string)

  /**
   * POST /: a request breaking a setter rule throws before any response and nothing is added;
   * otherwise the garage is added, answered 201 "created" when the add succeeds and 500 when it fails.
   * The 500 body "error" stands for the rejected promise's error, which the route sends as JSON.
   */
  method PostGarage(req: CreateGarageRequest, newId: string, now: int, addSucceeds: bool)
    returns (resp: Option<Response>, added: Option<Garage>)
    ensures RequestError(req).Some? ==> resp.None? && added.None?
    ensures RequestError(req).None? ==>
      && added.Some? && fresh(added.value) && added.value.Valid() && BuiltFrom(added.value, req, newId, now)
      && resp == Some(if addSucceeds then Response(201, "created") else Response(500, "error"))
  {
    var g := ToGarage(req, newId, now);
    if g.Failure? {
      return None, None;
    }
    added := Some(g.value);
    if addSucceeds {
      resp := Some(Response(201, "created"));
    } else {
      resp := Some(Response(500, "error"));
    }
  }
}
