/** The station record read from the catalog (the `FuelStation` model) and the
    geographic point type used by the route geometry. */
module Models {

  datatype Option<T> = None | Some(value: T)

  /** A (latitude, longitude) pair: a vertex of the route polyline or a station's position. */
  datatype Point = Point(latitude: real, longitude: real)

  /** The fields of a catalog station that the planner reads. The coordinates are
      nullable columns, so a station may have no position. */
  datatype FuelStation = FuelStation(id: int, retailPrice: real, latitude: Option<real>, longitude: Option<real>)
  {
    predicate HasPosition() {
      latitude.Some? && longitude.Some?
    }

    function Position(): (p: Point)
      requires HasPosition()
      ensures Some(p.latitude) == latitude && Some(p.longitude) == longitude
    {
      Point(latitude.value, longitude.value)
    }
  }
}
