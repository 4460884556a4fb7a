/** A candidate refuelling station: a catalog station tagged with the route
    distance at which it was found. */
module Dtos {
  import opened Models

  /** The wrapped station and its distance from the route start; the getters only
      delegate to the station, and nothing alters the stored distance. */
  datatype StationWithDistance = StationWithDistance(station: FuelStation, distanceFromStart: real)
  {
    function RetailPrice(): real {
      station.retailPrice
    }

    function Latitude(): Option<real> {
      station.latitude
    }

    function Longitude(): Option<real> {
      station.longitude
    }

    function Id(): int {
      station.id
    }
  }

  /** Every getter reports the wrapped station's own field, nulls included, and the
      distance reads back exactly as it was given. */
  lemma GettersDelegate(station: FuelStation, distanceFromStart: real)
    ensures var c := StationWithDistance(station, distanceFromStart);
      && c.RetailPrice() == station.retailPrice
      && c.Latitude() == station.latitude
      && c.Longitude() == station.longitude
      && c.Id() == station.id
      && c.distanceFromStart == distanceFromStart
  {
  }
}
