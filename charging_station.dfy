/**
 * ChargingStation.ts of property management: a station whose constructor rejects a negative
 * speed and then a negative price. The throwing constructor is a method returning a `Result`;
 * the random id is a parameter.
 */
module ChargingStations {
  import opened Wrappers

  const NegativeSpeedError := "Charging speed in kW cannot be negative"
  const NegativePriceError := "Price per kWh cannot be negative"

  /** ChargingStationState. */
  datatype ChargingStationState = ChargingStationState(id: string, name: string, chargingSpeedInKw: real, pricePerKwh: real)

  class ChargingStation {
    var id: string
    var name: string
    var chargingSpeedInKw: real
    var pricePerKwh: real

    constructor Raw(id: string, name: string, chargingSpeedInKw: real, pricePerKwh: real)
      ensures this.id == id && this.name == name
      ensures this.chargingSpeedInKw == chargingSpeedInKw && this.pricePerKwh == pricePerKwh
    {
      this.id := id;
      this.name := name;
      this.chargingSpeedInKw := chargingSpeedInKw;
      this.pricePerKwh := pricePerKwh;
    }

    /** `State()`: id, name, speed and price as they are. */
    function State(): ChargingStationState
      reads this
    {
      ChargingStationState(id, name, chargingSpeedInKw, pricePerKwh)
    }
  }

  /** The error the constructor raises, if any: speed is checked before price, and zero passes both. */
  function ConstructionError(speed: real, price: real): (e: Option<string>)
    ensures e.None? <==> speed >= 0.0 && price >= 0.0
    ensures speed < 0.0 ==> e == Some(NegativeSpeedError)
    ensures speed >= 0.0 && price < 0.0 ==> e == Some(NegativePriceError)
  {
    if speed < 0.0 then Some(NegativeSpeedError)
    else if price < 0.0 then Some(NegativePriceError)
    else None
  }

  /** `new ChargingStation(name, speed, price)`. */
  method NewChargingStation(name: string, speed: real, price: real, newId: string)
    returns (r: Result<ChargingStation, string>)
    ensures ConstructionError(speed, price).Some? ==> r == Failure(ConstructionError(speed, price).value)
    ensures ConstructionError(speed, price).None? ==>
      r.Success? && fresh(r.value) && r.value.State() == ChargingStationState(newId, name, speed, price)
  {
    if speed < 0.0 {
      return Failure(NegativeSpeedError);
    }
    if price < 0.0 {
      return Failure(NegativePriceError);
    }
    var cs := new ChargingStation.Raw(newId, name, speed, price);
    return Success(cs);
  }

  /**
   * `fromState`: runs the constructor again, so a valid state comes back with its name, speed
   * and price and a fresh id; an invalid one is rejected.
   */
  method FromState(cs: ChargingStationState, newId: string) returns (r: Result<ChargingStation, string>)
    ensures r.Success? <==> cs.chargingSpeedInKw >= 0.0 && cs.pricePerKwh >= 0.0
    ensures r.Success? ==> fresh(r.value) && r.value.State() == cs.(id := newId)
  {
    r := NewChargingStation(cs.name, cs.chargingSpeedInKw, cs.pricePerKwh, newId);
  }
}
