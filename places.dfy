/** The records the places service returns, reduced to the fields the
    pipeline reads. */
module Places {

  /** A value that may be absent, as a Python `dict.get` without default. */
  datatype Option<+T> = None | Some(value: T)

  /** A point in latitude/longitude space; only the ordering of the
      coordinates matters, so they are reals. */
  datatype Coordinate = Coordinate(lat: real, lng: real)

  /** The deduplication key: `restaurant.get('place_id')`, which is `None`
      for a record without an identifier. */
  type PlaceKey = Option<string>

  /** One record of a nearby-search result. The coordinate is always present
      (see README, "Left out"); `vicinity` may be missing. */
  datatype Place = Place(
    placeId: PlaceKey,
    name: string,
    vicinity: Option<string>,
    location: Coordinate)

  /** The address text the street filter looks at: `restaurant.get('vicinity', '')`. */
  function Address(p: Place): string
  {
    if p.vicinity.Some? then p.vicinity.value else ""
  }
}
