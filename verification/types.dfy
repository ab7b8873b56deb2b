/** Shared value types of the geofence-proof front end (src/types/index.ts). */
module Types {

  /** A point in the integer coordinate system the circuit consumes. */
  datatype NoirPoint = NoirPoint(x: int, y: int)

  /** A polygon: an ordered list of integer vertices. */
  type NoirRegion = seq<NoirPoint>

  /** A region corner as the application declares it: the tuple `[lat, lon]`,
      latitude first. */
  type LatLng = (real, real)

  /** The point `{x: 0, y: 0}`, which the polygon editors use as "no vertex here". */
  const EmptyVertex: NoirPoint := NoirPoint(0, 0)

  predicate IsEmptyVertex(p: NoirPoint) {
    p.x == 0 && p.y == 0
  }

  datatype Option<+T> = None | Some(value: T)

  /** A computation that either yields a value or throws an error. */
  datatype Result<+T, +E> = Ok(value: T) | Err(error: E)
}
