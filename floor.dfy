/**
 * Floor.ts of property management: a floor with a caller-chosen id and a spot count that can be
 * overwritten without validation.
 */
module Floors {
  class Floor {
    /** `_Id`, `_CreatedAt` and `_LastModifiedAt` have getters only and no method assigns them. */
    const id: string
    const createdAt: int
    const lastModifiedAt: int
    var numberParkingSpots: int

    constructor (floorId: string, numberParkingSpots: int, now: int)
      ensures id == floorId && this.numberParkingSpots == numberParkingSpots
      ensures createdAt == now && lastModifiedAt == createdAt
    {
      id := floorId;
      createdAt := now;
      lastModifiedAt := now;
      this.numberParkingSpots := numberParkingSpots;
    }

    /** Stores any count, negative ones included. */
    method UpdateNumberParkingSpots(n: int)
      modifies this
      ensures numberParkingSpots == n
    {
      numberParkingSpots := n;
    }
  }
}
