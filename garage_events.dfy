/**
 * GarageEventsNotifier.ts of property management: the message sent to parking management when a
 * garage is created, updated or deleted. The garage's charging stations are passed alongside the
 * garage, since Garage.ts declares no station list. Sending is left out; each notification is the
 * request it would send.
 */
module GarageEvents {
  import opened Wrappers
  import opened Garages
  import opened ChargingStations

  datatype ChargingStationDto = ChargingStationDto(id: string, chargingSpeedInKw: real, pricePerKwh: real)

  /** GarageDto; `totalParkingSpaces` is undefined for a garage whose count was never set. */
  datatype GarageDto = GarageDto(
    id: string, isOpen: bool, totalParkingSpaces: Option<int>, totalChargingSpaces: int,
    chargingStations: seq<ChargingStationDto>)

  datatype HttpRequest = HttpRequest(verb: string, url: string, body: Option<GarageDto>)

  /** The station list: same length and order, each entry's id, speed and price. */
  function StationDtos(stations: seq<ChargingStation>): (r: seq<ChargingStationDto>)
    reads stations
    ensures |r| == |stations|
    ensures forall i :: 0 <= i < |stations| ==>
      r[i] == ChargingStationDto(stations[i].id, stations[i].chargingSpeedInKw, stations[i].pricePerKwh)
  {
    if stations == [] then []
    else
      var last := stations[|stations| - 1];
      StationDtos(stations[..|stations| - 1]) + [ChargingStationDto(last.id, last.chargingSpeedInKw, last.pricePerKwh)]
  }

  /** The DTO sent on create and update. */
  function Dto(g: Garage, stations: seq<ChargingStation>): (dto: GarageDto)
    reads g, stations
    ensures dto.id == g.id && dto.isOpen == g.isOpen && dto.totalParkingSpaces == g.numberParkingSpots
    ensures dto.totalChargingSpaces == |stations| == |dto.chargingStations|
  {
    GarageDto(g.id, g.isOpen, g.numberParkingSpots, |stations|, StationDtos(stations))
  }

  class GarageEventsNotifier {
    const parkingManagementEndpoint: string

    constructor (endpoint: string)
      ensures parkingManagementEndpoint == endpoint
    {
      parkingManagementEndpoint := endpoint;
    }

    function GarageCreated(g: Garage, stations: seq<ChargingStation>): HttpRequest
      reads g, stations
    {
      HttpRequest("PUT", parkingManagementEndpoint + "/garage/create", Some(Dto(g, stations)))
    }

    function GarageUpdated(g: Garage, stations: seq<ChargingStation>): HttpRequest
      reads g, stations
    {
      HttpRequest("PUT", parkingManagementEndpoint + "/garage/update", Some(Dto(g, stations)))
    }

    function GarageDeleted(g: Garage): HttpRequest
      reads g
    {
      HttpRequest("DELETE", parkingManagementEndpoint + "/garage/delete/" + g.id, None)
    }

    /**
     * Create and update send the same body for the same garage and differ only in the endpoint;
     * the delete URL ends with the garage id and carries no body.
     */
    lemma NotificationsAgree(g: Garage, stations: seq<ChargingStation>)
      ensures GarageCreated(g, stations).body == GarageUpdated(g, stations).body
      ensures GarageCreated(g, stations).verb == GarageUpdated(g, stations).verb == "PUT"
      ensures GarageCreated(g, stations).url != GarageUpdated(g, stations).url
      ensures var u := GarageDeleted(g).url;
        |u| >= |g.id| && u[|u| - |g.id|..] == g.id && GarageDeleted(g).body.None?
    {
      var n := |parkingManagementEndpoint|;
      assert GarageCreated(g, stations).url[n + 8] == 'c';
      assert GarageUpdated(g, stations).url[n + 8] == 'u';
      var u := GarageDeleted(g).url;
      assert u == (parkingManagementEndpoint + "/garage/delete/") + g.id;
    }
  }
}
