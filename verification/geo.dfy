/** The Bing location shapes the dialogs exchange, and the caller-facing Place.
    A null string in the Bing records is written "" here: these strings are
    only ever copied, never inspected. Coordinates are only copied, so they are
    reals standing for the source's doubles. */
module Geo {
  import opened Common

  datatype Address = Address(
    addressLine: string,
    adminDistrict: string,
    adminDistrict2: string,
    countryRegion: string,
    formattedAddress: string,
    locality: string,
    postalCode: string)

  /** A point as Bing returns it: a list of coordinates, latitude first. */
  datatype GeocodePoint = GeocodePoint(coordinates: seq<real>)

  /** GeocodePoint.HasCoordinates: the point carries a latitude and a longitude. */
  predicate HasCoordinates(p: GeocodePoint) {
    |p.coordinates| == 2
  }

  datatype Location = Location(
    entityType: string,
    name: string,
    address: Option<Address>,
    point: Option<GeocodePoint>)

  /** A location that has a point and nothing else. */
  function PointOnlyLocation(latitude: real, longitude: real): (l: Location)
    ensures l.entityType == "" && l.name == ""
    ensures l.address.None? && l.point.Some? && HasCoordinates(l.point.value)
    ensures l.point.value.coordinates[0] == latitude && l.point.value.coordinates[1] == longitude
  {
    Location("", "", None, Some(GeocodePoint([latitude, longitude])))
  }

  datatype PostalAddress = PostalAddress(
    formattedAddress: string,
    country: string,
    locality: string,
    postalCode: string,
    region: string,
    streetAddress: string)

  datatype GeoCoordinates = GeoCoordinates(latitude: real, longitude: real)

  /** The result the location dialog hands back to its caller. */
  datatype Place = Place(
    placeType: string,
    name: string,
    address: Option<PostalAddress>,
    geo: Option<GeoCoordinates>)
}
