/** The "Prove Location" button (src/components/NoLoc.tsx): the GPS reading
    and the `[lat, lon]` region become integer points at scale 10^6 with
    `Math.floor`, are handed to the prover, and the `loading` and `error`
    flags follow the attempt. Reading the sensor and proving are external:
    their outcomes are parameters. */
module NoLoc {
  import opened Types

  const FixedScale: real := 1000000.0

  /** `Math.floor(v * 1e6)`. */
  function ToFixed(v: real): (k: int)
    ensures k as real <= v * FixedScale < k as real + 1.0
  {
    (v * FixedScale).Floor
  }

  /** `position.coords`: the reading of the location sensor, in degrees. */
  datatype Coords = Coords(latitude: real, longitude: real)

  /** The GPS reading as a circuit point: x from the longitude, y from the latitude. */
  function PositionToNoirPoint(c: Coords): (p: NoirPoint)
    ensures p.x as real <= c.longitude * FixedScale < p.x as real + 1.0
    ensures p.y as real <= c.latitude * FixedScale < p.y as real + 1.0
  {
    NoirPoint(ToFixed(c.longitude), ToFixed(c.latitude))
  }

  /** A region corner `[lat, lon]` as a circuit point: `{x: from lon, y: from lat}`. */
  function CornerToNoirPoint(corner: LatLng): (p: NoirPoint)
    ensures p.x as real <= corner.1 * FixedScale < p.x as real + 1.0
    ensures p.y as real <= corner.0 * FixedScale < p.y as real + 1.0
  {
    NoirPoint(ToFixed(corner.1), ToFixed(corner.0))
  }

  /** `region.map(([lat, lon]) => …)`: one point per corner, in order. */
  function FormatRegion(region: seq<LatLng>): (r: NoirRegion)
    ensures |r| == |region|
    ensures forall i :: 0 <= i < |region| ==>
      && r[i].x as real <= region[i].1 * FixedScale < r[i].x as real + 1.0
      && r[i].y as real <= region[i].0 * FixedScale < r[i].y as real + 1.0
  {
    seq(|region|, i requires 0 <= i < |region| => CornerToNoirPoint(region[i]))
  }

  /** The floor rounds toward −∞: a reading just west of the prime meridian
      gets x = -1, not 0 as truncation toward zero would give. */
  lemma FloorTowardNegativeInfinity()
    ensures ToFixed(-0.0000005) == -1
    ensures ToFixed(0.0000005) == 0
  {
  }

  /** Read back at the same scale, a converted coordinate lies at most one
      millionth of a degree below the original and never above it: the
      error is one-sided, toward the south and the west. */
  lemma FixedQuantisation(v: real)
    ensures var back := ToFixed(v) as real / FixedScale;
      back <= v < back + 0.000001
  {
    var k := ToFixed(v);
    assert (k as real / FixedScale) * FixedScale == k as real;
  }

  /** The conversion is monotone: it never reverses the order of two coordinates. */
  lemma ToFixedMonotone(v: real, w: real)
    requires v <= w
    ensures ToFixed(v) <= ToFixed(w)
  {
  }

  /** A GPS reading equal to a region corner converts to the same point as
      that corner. */
  lemma ReadingAtCornerMatchesCorner(region: seq<LatLng>, i: nat)
    requires i < |region|
    ensures PositionToNoirPoint(Coords(region[i].0, region[i].1)) == FormatRegion(region)[i]
  {
  }

  /** What the button hands to the prover: the region and the point. */
  datatype ProofRequest = ProofRequest(region: NoirRegion, point: NoirPoint)

  const FailureMessage: string := "Failed to generate proof."

  class AnonLocButton {
    const region: seq<LatLng>
    var loading: bool
    var error: Option<string>

    constructor (region: seq<LatLng>)
      ensures this.region == region && !loading && error == None
    {
      this.region := region;
      loading := false;
      error := None;
    }

    /** `handleClick`. `reading` is what the sensor delivers (`None`: it
        rejected), `proved` whether the prover and the callback that receives
        the proof completed without throwing. `request` is what the prover
        was given and `pending` the flags shown while the attempt runs. */
    method HandleClick(reading: Option<Coords>, proved: bool)
      returns (request: Option<ProofRequest>, ghost pending: (bool, Option<string>))
      modifies this
      ensures pending == (true, None)
      ensures reading.Some? ==> request == Some(ProofRequest(FormatRegion(region), PositionToNoirPoint(reading.value)))
      ensures reading.None? ==> request == None
      ensures error == if reading.Some? && proved then None else Some(FailureMessage)
      ensures !loading
    {
      loading := true;
      error := None;
      pending := (loading, error);
      request := None;
      var failed := false;
      if reading.None? {
        failed := true;
      } else {
        var c := reading.value;
        var point := NoirPoint(ToFixed(c.longitude), ToFixed(c.latitude));
        var formattedRegion := FormatRegion(region);
        request := Some(ProofRequest(formattedRegion, point));
        failed := !proved;
      }
      if failed {
        error := Some(FailureMessage);
      }
      loading := false;
    }
  }
}
