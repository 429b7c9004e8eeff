/** The search rectangle and its derivation from the two geocoded ends of
    the street segment. */
module BoundingBoxes {
  import opened Places

  datatype BoundingBox = BoundingBox(minLat: real, maxLat: real, minLng: real, maxLng: real)

  /** Inclusive containment: a point on an edge is inside. */
  predicate InBox(c: Coordinate, box: BoundingBox)
  {
    box.minLat <= c.lat <= box.maxLat && box.minLng <= c.lng <= box.maxLng
  }

  /** Python's two-argument `min`: the first argument unless the second is smaller. */
  function Min(x: real, y: real): (m: real)
    ensures m <= x && m <= y
    ensures m == x || m == y
  {
    if y < x then y else x
  }

  /** Python's two-argument `max`: the first argument unless the second is larger. */
  function Max(x: real, y: real): (m: real)
    ensures x <= m && y <= m
    ensures m == x || m == y
  {
    if y > x then y else x
  }

  /** The per-axis min and max of the two endpoints. The box is well formed
      and holds both endpoints. */
  function BoundingBoxOf(start: Coordinate, end: Coordinate): (box: BoundingBox)
    ensures box.minLat <= box.maxLat && box.minLng <= box.maxLng
    ensures InBox(start, box) && InBox(end, box)
  {
    BoundingBox(Min(start.lat, end.lat), Max(start.lat, end.lat),
                Min(start.lng, end.lng), Max(start.lng, end.lng))
  }

  /** `inner` lies within `outer`. */
  predicate WithinBox(inner: BoundingBox, outer: BoundingBox)
  {
    outer.minLat <= inner.minLat && inner.maxLat <= outer.maxLat &&
    outer.minLng <= inner.minLng && inner.maxLng <= outer.maxLng
  }

  /** The derived box is the smallest one holding both endpoints: any box
      that holds them contains it. */
  lemma BoundingBoxOfSmallest(start: Coordinate, end: Coordinate, box: BoundingBox)
    requires InBox(start, box) && InBox(end, box)
    ensures WithinBox(BoundingBoxOf(start, end), box)
  {
  }
}
