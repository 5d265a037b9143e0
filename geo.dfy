/**
 * Geographic points and the map-library geometry the guidance code calls.
 * The great-circle routines are not modelled: every operation that uses them
 * takes a `Geometry` whose functions stand for the library's.
 */
module Geo {

  /** `LatLng(latitude, longitude)`, in degrees. */
  datatype LatLng = LatLng(latitude: real, longitude: real)

  /** A distance in metres; the library never returns a negative one. */
  type Meters = r: real | r >= 0.0

  /** A heading in degrees clockwise from north, as the library returns it: in [-180, 180). */
  type Heading = r: real | -180.0 <= r < 180.0

  /** The library routines, as uninterpreted functions:
      `PolyUtil.isLocationOnPath(point, path, geodesic, toleranceMeters)`,
      `SphericalUtil.computeDistanceBetween(from, to)` and
      `SphericalUtil.computeHeading(from, to)` (degrees clockwise from north). */
  datatype Geometry = Geometry(
    isLocationOnPath: (LatLng, seq<LatLng>, bool, real) -> bool,
    computeDistanceBetween: (LatLng, LatLng) -> Meters,
    computeHeading: (LatLng, LatLng) -> Heading)
}
