/**
 * jsonFileRepository.ts of parking management: garages, tickets, charging sessions and invoices
 * kept in JSON files. Each file is a field holding its parsed records; an operation reads the
 * file, changes the first record with the given id in place and writes the file back.
 *
 * A garage is seen as this repository sees it: an id, an occupancy status for parking and one
 * for charging, and a list of charging stations with an occupied flag. Timestamps are epoch
 * milliseconds and amounts are reals.
 */
module ParkingRepo {
  import opened Wrappers
  import opened Lists

  datatype OccupancyStatus = OccupancyStatus(totalSpaces: int, occupiedSpaces: int)
  datatype Station = Station(id: string, isOccupied: bool)
  datatype ParkingGarage = ParkingGarage(
    id: string, parkingStatus: OccupancyStatus, chargingStatus: OccupancyStatus, chargingStations: seq<Station>)

  /** ticket.ts is not part of this model; the repository uses a ticket's id and payment time only. */
  datatype Ticket = Ticket(id: string, paymentTimestamp: Option<int>)
  datatype ChargingSession = ChargingSession(
    id: string, userId: string, chargingStationId: string, sessionStartedTimestamp: int,
    sessionFinishedTimestamp: Option<int>, kWhConsumed: real)
  datatype ChargingInvoice = ChargingInvoice(id: string, sessionId: string, total: real)
  datatype ParkingInvoice = ParkingInvoice(id: string, ticketId: string, total: real)

  /** The number of occupied stations. */
  function OccupiedCount(stations: seq<Station>): nat {
    if stations == [] then 0
    else OccupiedCount(stations[..|stations| - 1]) + (if stations[|stations| - 1].isOccupied then 1 else 0)
  }

  /** Changing one station's flag changes the count by exactly the flag difference. */
  lemma {:induction false} OccupiedCountUpdate(stations: seq<Station>, k: int, s: Station)
    requires 0 <= k < |stations|
    ensures OccupiedCount(stations[k := s])
      == OccupiedCount(stations) - (if stations[k].isOccupied then 1 else 0) + (if s.isOccupied then 1 else 0)
  {
    var n := |stations|;
    var updated := stations[k := s];
    assert updated[..n - 1] == if k == n - 1 then stations[..n - 1] else stations[..n - 1][k := s];
    if k < n - 1 {
      OccupiedCountUpdate(stations[..n - 1], k, s);
    }
  }

  /** How far the charging counter is from the number of occupied stations. */
  function Drift(g: ParkingGarage): int {
    g.chargingStatus.occupiedSpaces - OccupiedCount(g.chargingStations)
  }

  function StationKey(s: Station): string { s.id }
  function GarageKey(g: ParkingGarage): string { g.id }
  function TicketKey(t: Ticket): string { t.id }
  function SessionKey(s: ChargingSession): string { s.id }
  function ChargingInvoiceKey(c: ChargingInvoice): string { c.sessionId }
  function ParkingInvoiceKey(p: ParkingInvoice): string { p.ticketId }

  /** The garage after `occupyChargingStation`: a free station becomes occupied and the counter goes up. */
  function Occupied(g: ParkingGarage, stationId: string): ParkingGarage {
    var k := FindIndex(g.chargingStations, StationKey, stationId);
    if k != -1 && !g.chargingStations[k].isOccupied then
      g.(chargingStations := g.chargingStations[k := g.chargingStations[k].(isOccupied := true)],
         chargingStatus := g.chargingStatus.(occupiedSpaces := g.chargingStatus.occupiedSpaces + 1))
    else g
  }

  /** The garage after `vacateChargingStation`: an occupied station becomes free and the counter goes down. */
  function Vacated(g: ParkingGarage, stationId: string): ParkingGarage {
    var k := FindIndex(g.chargingStations, StationKey, stationId);
    if k != -1 && g.chargingStations[k].isOccupied then
      g.(chargingStations := g.chargingStations[k := g.chargingStations[k].(isOccupied := false)],
         chargingStatus := g.chargingStatus.(occupiedSpaces := g.chargingStatus.occupiedSpaces - 1))
    else g
  }

  /** Occupying and vacating keep the counter's distance from the occupied stations. */
  lemma ChargingKeepsDrift(g: ParkingGarage, stationId: string)
    ensures Drift(Occupied(g, stationId)) == Drift(g)
    ensures Drift(Vacated(g, stationId)) == Drift(g)
  {
    var k := FindIndex(g.chargingStations, StationKey, stationId);
    if k != -1 {
      OccupiedCountUpdate(g.chargingStations, k, g.chargingStations[k].(isOccupied := true));
      OccupiedCountUpdate(g.chargingStations, k, g.chargingStations[k].(isOccupied := false));
    }
  }

  /** Occupying twice is occupying once, and so is vacating; an unknown station changes nothing. */
  lemma ChargingIdempotent(g: ParkingGarage, stationId: string)
    ensures Occupied(Occupied(g, stationId), stationId) == Occupied(g, stationId)
    ensures Vacated(Vacated(g, stationId), stationId) == Vacated(g, stationId)
    ensures FindIndex(g.chargingStations, StationKey, stationId) == -1 ==>
      Occupied(g, stationId) == g && Vacated(g, stationId) == g
  {
    var k := FindIndex(g.chargingStations, StationKey, stationId);
    if k != -1 {
      var o := Occupied(g, stationId);
      FindIndexSameKeys(g.chargingStations, o.chargingStations, StationKey, stationId);
      var v := Vacated(g, stationId);
      FindIndexSameKeys(g.chargingStations, v.chargingStations, StationKey, stationId);
    }
  }

  /** Vacating a station just occupied restores the garage, and the other way round. */
  lemma OccupyVacateRoundTrip(g: ParkingGarage, stationId: string)
    ensures var k := FindIndex(g.chargingStations, StationKey, stationId);
      k != -1 && !g.chargingStations[k].isOccupied ==> Vacated(Occupied(g, stationId), stationId) == g
    ensures var k := FindIndex(g.chargingStations, StationKey, stationId);
      k != -1 && g.chargingStations[k].isOccupied ==> Occupied(Vacated(g, stationId), stationId) == g
  {
    var k := FindIndex(g.chargingStations, StationKey, stationId);
    if k != -1 {
      var o := Occupied(g, stationId);
      FindIndexSameKeys(g.chargingStations, o.chargingStations, StationKey, stationId);
      var v := Vacated(g, stationId);
      FindIndexSameKeys(g.chargingStations, v.chargingStations, StationKey, stationId);
    }
  }

  /**
   * The garage list after the parking occupancy of the first garage with the id moves by `delta`;
   * an unknown id leaves the list as it is.
   */
  function ParkingShifted(gs: seq<ParkingGarage>, garageId: string, delta: int): (r: seq<ParkingGarage>)
    ensures |r| == |gs|
    ensures forall j :: 0 <= j < |gs| ==>
      r[j].id == gs[j].id && r[j].chargingStatus == gs[j].chargingStatus && r[j].chargingStations == gs[j].chargingStations
    ensures forall j :: 0 <= j < |gs| && j != FindIndex(gs, GarageKey, garageId) ==> r[j] == gs[j]
    ensures FindIndex(gs, GarageKey, garageId) != -1 ==>
      var i := FindIndex(gs, GarageKey, garageId);
      r[i].parkingStatus == gs[i].parkingStatus.(occupiedSpaces := gs[i].parkingStatus.occupiedSpaces + delta)
  {
    var i := FindIndex(gs, GarageKey, garageId);
    if i == -1 then gs
    else gs[i := gs[i].(parkingStatus := gs[i].parkingStatus.(occupiedSpaces := gs[i].parkingStatus.occupiedSpaces + delta))]
  }

  class JsonFileRepository {
    var garages: seq<ParkingGarage>
    var tickets: seq<Ticket>
    var chargingSessions: seq<ChargingSession>
    /** The invoices are only read by this repository, never written. */
    const chargingInvoices: seq<ChargingInvoice>
    const parkingInvoices: seq<ParkingInvoice>

    constructor (garages: seq<ParkingGarage>, tickets: seq<Ticket>, sessions: seq<ChargingSession>,
                 chargingInvoices: seq<ChargingInvoice>, parkingInvoices: seq<ParkingInvoice>)
      ensures this.garages == garages && this.tickets == tickets && chargingSessions == sessions
      ensures this.chargingInvoices == chargingInvoices && this.parkingInvoices == parkingInvoices
    {
      this.garages := garages;
      this.tickets := tickets;
      chargingSessions := sessions;
      this.chargingInvoices := chargingInvoices;
      this.parkingInvoices := parkingInvoices;
    }

    /** `getParkingOccupancy`: the garage's parking status; an unknown garage throws. */
    method GetParkingOccupancy(garageId: string) returns (r: Result<OccupancyStatus, string>)
      ensures var g := Find(garages, GarageKey, garageId);
        && (g.Some? ==> r == Success(g.value.parkingStatus))
        && (g.None? ==> r.Failure?)
    {
      var g := Find(garages, GarageKey, garageId);
      if g.None? {
        return Failure("Cannot read properties of undefined");
      }
      return Success(g.value.parkingStatus);
    }

    /** `getChargingOccupancy`: the garage's charging status; an unknown garage throws. */
    method GetChargingOccupancy(garageId: string) returns (r: Result<OccupancyStatus, string>)
      ensures var g := Find(garages, GarageKey, garageId);
        && (g.Some? ==> r == Success(g.value.chargingStatus))
        && (g.None? ==> r.Failure?)
    {
      var g := Find(garages, GarageKey, garageId);
      if g.None? {
        return Failure("Cannot read properties of undefined");
      }
      return Success(g.value.chargingStatus);
    }

    /** One more occupied parking space in the first garage with the id, with no upper bound. */
    method IncreaseParkingOccupancy(garageId: string)
      modifies this
      ensures garages == ParkingShifted(old(garages), garageId, 1)
      ensures unchanged(`tickets) && unchanged(`chargingSessions)
    {
      var index := FindIndex(garages, GarageKey, garageId);
      if index != -1 {
        var garage := garages[index];
        garage := garage.(parkingStatus := garage.parkingStatus.(occupiedSpaces := garage.parkingStatus.occupiedSpaces + 1));
        garages := garages[index := garage];
      }
    }

    /** One less occupied parking space in the first garage with the id, with no lower bound. */
    method DecreaseParkingOccupancy(garageId: string)
      modifies this
      ensures garages == ParkingShifted(old(garages), garageId, -1)
      ensures unchanged(`tickets) && unchanged(`chargingSessions)
    {
      var index := FindIndex(garages, GarageKey, garageId);
      if index != -1 {
        var garage := garages[index];
        garage := garage.(parkingStatus := garage.parkingStatus.(occupiedSpaces := garage.parkingStatus.occupiedSpaces - 1));
        garages := garages[index := garage];
      }
    }

    /** `occupyChargingStation`: the first garage with the id becomes `Occupied`; others are untouched. */
    method OccupyChargingStation(garageId: string, stationId: string)
      modifies this
      ensures var i := FindIndex(old(garages), GarageKey, garageId);
        garages == if i == -1 then old(garages) else old(garages)[i := Occupied(old(garages)[i], stationId)]
      ensures unchanged(`tickets) && unchanged(`chargingSessions)
    {
      var index := FindIndex(garages, GarageKey, garageId);
      if index != -1 {
        var garage := garages[index];
        var stationIndex := FindIndex(garage.chargingStations, StationKey, stationId);
        if stationIndex != -1 {
          if !garage.chargingStations[stationIndex].isOccupied {
            garage := garage.(chargingStations := garage.chargingStations[stationIndex := garage.chargingStations[stationIndex].(isOccupied := true)]);
            garage := garage.(chargingStatus := garage.chargingStatus.(occupiedSpaces := garage.chargingStatus.occupiedSpaces + 1));
          }
        }
        garages := garages[index := garage];
      }
    }

    /** `vacateChargingStation`: the first garage with the id becomes `Vacated`; others are untouched. */
    method VacateChargingStation(garageId: string, stationId: string)
      modifies this
      ensures var i := FindIndex(old(garages), GarageKey, garageId);
        garages == if i == -1 then old(garages) else old(garages)[i := Vacated(old(garages)[i], stationId)]
      ensures unchanged(`tickets) && unchanged(`chargingSessions)
    {
      var index := FindIndex(garages, GarageKey, garageId);
      if index != -1 {
        var garage := garages[index];
        var stationIndex := FindIndex(garage.chargingStations, StationKey, stationId);
        if stationIndex != -1 {
          if garage.chargingStations[stationIndex].isOccupied {
            garage := garage.(chargingStations := garage.chargingStations[stationIndex := garage.chargingStations[stationIndex].(isOccupied := false)]);
            garage := garage.(chargingStatus := garage.chargingStatus.(occupiedSpaces := garage.chargingStatus.occupiedSpaces - 1));
          }
        }
        garages := garages[index := garage];
      }
    }

    /** `getTicket`: the first ticket with the id, or undefined. */
    method GetTicket(ticketId: string) returns (t: Option<Ticket>)
      ensures t == Find(tickets, TicketKey, ticketId)
    {
      t := Find(tickets, TicketKey, ticketId);
    }

    /** Sets the payment time of the first ticket with the id and nothing else. */
    method AddPaymentTimestamp(ticketId: string, timestamp: int)
      modifies this
      ensures var i := FindIndex(old(tickets), TicketKey, ticketId);
        tickets == if i == -1 then old(tickets) else old(tickets)[i := old(tickets)[i].(paymentTimestamp := Some(timestamp))]
      ensures unchanged(`garages) && unchanged(`chargingSessions)
    {
      var index := FindIndex(tickets, TicketKey, ticketId);
      if index != -1 {
        var ticket := tickets[index];
        ticket := ticket.(paymentTimestamp := Some(timestamp));
        tickets := tickets[index := ticket];
      }
    }

    /** `getPaymentTimestamp`: the ticket's payment time; an unknown ticket throws. */
    method GetPaymentTimestamp(ticketId: string) returns (r: Result<Option<int>, string>)
      ensures var t := Find(tickets, TicketKey, ticketId);
        && (t.Some? ==> r == Success(t.value.paymentTimestamp))
        && (t.None? ==> r.Failure?)
    {
      var t := GetTicket(ticketId);
      if t.None? {
        return Failure("Cannot read properties of undefined");
      }
      return Success(t.value.paymentTimestamp);
    }

    /** Appends the session. */
    method AddChargingSession(session: ChargingSession)
      modifies this
      ensures chargingSessions == old(chargingSessions) + [session]
      ensures unchanged(`garages) && unchanged(`tickets)
    {
      chargingSessions := chargingSessions + [session];
    }

    /** Sets only the finish time and the consumed energy of the first session with the id. */
    method EndChargingSession(sessionId: string, timestamp: int, kWhConsumed: real)
      modifies this
      ensures var i := FindIndex(old(chargingSessions), SessionKey, sessionId);
        chargingSessions == if i == -1 then old(chargingSessions)
          else old(chargingSessions)[i := old(chargingSessions)[i].(sessionFinishedTimestamp := Some(timestamp), kWhConsumed := kWhConsumed)]
      ensures unchanged(`garages) && unchanged(`tickets)
    {
      var index := FindIndex(chargingSessions, SessionKey, sessionId);
      if index != -1 {
        var session := chargingSessions[index];
        session := session.(sessionFinishedTimestamp := Some(timestamp));
        session := session.(kWhConsumed := kWhConsumed);
        chargingSessions := chargingSessions[index := session];
      }
    }

    /** The first charging invoice of the session, or undefined. */
    method GetChargingInvoice(sessionId: string) returns (inv: Option<ChargingInvoice>)
      ensures inv == Find(chargingInvoices, ChargingInvoiceKey, sessionId)
    {
      inv := Find(chargingInvoices, ChargingInvoiceKey, sessionId);
    }

    /** The first parking invoice of the ticket, or undefined. */
    method GetParkingInvoice(ticketId: string) returns (inv: Option<ParkingInvoice>)
      ensures inv == Find(parkingInvoices, ParkingInvoiceKey, ticketId)
    {
      inv := Find(parkingInvoices, ParkingInvoiceKey, ticketId);
    }
  }

  /** Increasing then decreasing the occupancy of a garage restores the garage list, whatever the id. */
  lemma OccupancyRoundTrip(gs: seq<ParkingGarage>, garageId: string)
    ensures ParkingShifted(ParkingShifted(gs, garageId, 1), garageId, -1) == gs
  {
    var i := FindIndex(gs, GarageKey, garageId);
    if i != -1 {
      var up := ParkingShifted(gs, garageId, 1);
      FindIndexSameKeys(gs, up, GarageKey, garageId);
    }
  }
}
