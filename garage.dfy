/**
 * Garage.ts of property management: a garage whose spot count, hourly price and opening times
 * are set through validating setters. A setter that throws is a `Failure` here and leaves the
 * garage as it was. Dates are epoch milliseconds; the id and the clock reading of the
 * constructor are parameters. Fields the constructor does not set start out undefined (`None`).
 */
module Garages {
  import opened Wrappers

  const NegativeSpotsError := "Number of parking spots cannot be negative"
  const NonPositivePriceError := "Price per hour must be greater than 0"
  const OpeningAfterClosingError := "Opening time cannot be after closing time"

  class Garage {
    /** `_Id`, `_CreatedAt` and `_LastModifiedAt` have getters only and no method assigns them. */
    const id: string
    const createdAt: int
    const lastModifiedAt: int
    var numberParkingSpots: Option<int>
    var pricePerHour: Option<real>
    var openingTime: Option<int>
    var closingTime: Option<int>
    var name: string
    var isOpen: bool

    /** The stored values satisfy every setter's rule. */
    predicate Valid()
      reads this
    {
      && (numberParkingSpots.Some? ==> numberParkingSpots.value >= 0)
      && (pricePerHour.Some? ==> pricePerHour.value > 0.0)
      && (openingTime.Some? <==> closingTime.Some?)
      && (openingTime.Some? ==> openingTime.value <= closingTime.value)
    }

    /** A new garage is open and was last modified when it was created. */
    constructor (name: string, newId: string, now: int)
      ensures id == newId && this.name == name && isOpen
      ensures createdAt == now && lastModifiedAt == createdAt
      ensures numberParkingSpots.None? && pricePerHour.None? && openingTime.None? && closingTime.None?
      ensures Valid()
    {
      id := newId;
      this.name := name;
      isOpen := true;
      createdAt := now;
      lastModifiedAt := now;
      numberParkingSpots := None;
      pricePerHour := None;
      openingTime := None;
      closingTime := None;
    }

    /** Rejects a negative count; zero is allowed. Nothing but the count changes. */
    method SetNumberParkingSpots(n: int) returns (r: Result<(), string>)
      modifies this
      ensures old(Valid()) ==> Valid()
      ensures n < 0 <==> r.Failure?
      ensures n < 0 ==> r.error == NegativeSpotsError && numberParkingSpots == old(numberParkingSpots)
      ensures n >= 0 ==> numberParkingSpots == Some(n)
      ensures pricePerHour == old(pricePerHour) && openingTime == old(openingTime) && closingTime == old(closingTime)
      ensures name == old(name) && isOpen == old(isOpen)
    {
      if n < 0 {
        return Failure(NegativeSpotsError);
      }
      numberParkingSpots := Some(n);
      return Success(());
    }

    /** Rejects any price that is not positive. Nothing but the price changes. */
    method SetPricePerHourInEuros(price: real) returns (r: Result<(), string>)
      modifies this
      ensures old(Valid()) ==> Valid()
      ensures price <= 0.0 <==> r.Failure?
      ensures price <= 0.0 ==> r.error == NonPositivePriceError && pricePerHour == old(pricePerHour)
      ensures price > 0.0 ==> pricePerHour == Some(price)
      ensures numberParkingSpots == old(numberParkingSpots) && openingTime == old(openingTime) && closingTime == old(closingTime)
      ensures name == old(name) && isOpen == old(isOpen)
    {
      if price <= 0.0 {
        return Failure(NonPositivePriceError);
      }
      pricePerHour := Some(price);
      return Success(());
    }

    /** Rejects an opening after the closing time; equal times are allowed. On rejection neither time changes. */
    method SetOpeningTimes(opening: int, closing: int) returns (r: Result<(), string>)
      modifies this
      ensures old(Valid()) ==> Valid()
      ensures opening > closing <==> r.Failure?
      ensures opening > closing ==>
        r.error == OpeningAfterClosingError && openingTime == old(openingTime) && closingTime == old(closingTime)
      ensures opening <= closing ==> openingTime == Some(opening) && closingTime == Some(closing)
      ensures numberParkingSpots == old(numberParkingSpots) && pricePerHour == old(pricePerHour)
      ensures name == old(name) && isOpen == old(isOpen)
    {
      if opening > closing {
        return Failure(OpeningAfterClosingError);
      }
      openingTime := Some(opening);
      closingTime := Some(closing);
      return Success(());
    }
  }
}
