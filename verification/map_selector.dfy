/** The polygon editor on the map (src/components/MapSelector.tsx): a list of
    vertex slots in which `{x: 0, y: 0}` means "empty", filled by clicks on
    the map, moved by dragging markers and cleared by a reset. Map points
    are turned into integer points at scale 100 with `Math.round`. */
module MapSelector {
  import opened Types

  /** Leaflet's `L.LatLng`: latitude and longitude in degrees. */
  datatype LeafletLatLng = LeafletLatLng(lat: real, lng: real)

  const MapScale: real := 100.0

  /** The `maxVertices` a caller gets when it passes none. */
  const DefaultMaxVertices: nat := 4

  /** `Math.round`: the nearest integer, a half rounded up (toward +∞). */
  function JsRound(v: real): (k: int)
    ensures k as real - 0.5 <= v < k as real + 0.5
  {
    (v + 0.5).Floor
  }

  /** `latLngToNoirPoint`: x from the longitude, y from the latitude, both
      times 100 and rounded to the nearest integer. */
  function LatLngToNoirPoint(ll: LeafletLatLng): (p: NoirPoint)
    ensures p.x as real - 0.5 <= ll.lng * MapScale < p.x as real + 0.5
    ensures p.y as real - 0.5 <= ll.lat * MapScale < p.y as real + 0.5
  {
    NoirPoint(JsRound(ll.lng * MapScale), JsRound(ll.lat * MapScale))
  }

  /** `noirPointToLatLng`: latitude y / 100, longitude x / 100. */
  function NoirPointToLatLng(p: NoirPoint): (ll: LeafletLatLng)
    ensures ll.lat * MapScale == p.y as real && ll.lng * MapScale == p.x as real
  {
    LeafletLatLng(p.y as real / MapScale, p.x as real / MapScale)
  }

  /** Point to map position and back is the identity on integer points. */
  lemma PointRoundTrip(p: NoirPoint)
    ensures LatLngToNoirPoint(NoirPointToLatLng(p)) == p
  {
  }

  /** Map position to point and back moves each coordinate by at most half
      a unit of the scale, 0.005 degrees. */
  lemma LatLngQuantisation(ll: LeafletLatLng)
    ensures var back := NoirPointToLatLng(LatLngToNoirPoint(ll));
      && -0.005 < back.lat - ll.lat <= 0.005
      && -0.005 < back.lng - ll.lng <= 0.005
  {
    var p := LatLngToNoirPoint(ll);
    var back := NoirPointToLatLng(p);
    assert (back.lat - ll.lat) * MapScale == p.y as real - ll.lat * MapScale;
    assert (back.lng - ll.lng) * MapScale == p.x as real - ll.lng * MapScale;
  }

  /** The filled slots in order: `vertices.filter(v => v.x !== 0 || v.y !== 0)`. */
  function Filled(vs: seq<NoirPoint>): (r: seq<NoirPoint>)
    ensures |r| <= |vs|
    ensures forall p :: p in r <==> p in vs && !IsEmptyVertex(p)
  {
    if vs == [] then []
    else if IsEmptyVertex(vs[0]) then Filled(vs[1..])
    else [vs[0]] + Filled(vs[1..])
  }

  /** The markers drawn on the map: the filled slots, converted to positions. */
  function Markers(vs: seq<NoirPoint>): (r: seq<LeafletLatLng>)
    ensures |r| == |Filled(vs)|
    ensures forall i :: 0 <= i < |r| ==> LatLngToNoirPoint(r[i]) == Filled(vs)[i]
  {
    seq(|Filled(vs)|, i requires 0 <= i < |Filled(vs)| => NoirPointToLatLng(Filled(vs)[i]))
  }

  /** The slots the reset writes: `maxVertices` empty vertices. */
  function ResetVertices(maxVertices: nat): (r: seq<NoirPoint>)
    ensures |r| == maxVertices
    ensures forall i :: 0 <= i < |r| ==> IsEmptyVertex(r[i])
  {
    seq(maxVertices, _ => EmptyVertex)
  }

  /** The index of the first empty slot, or -1 when there is none. */
  function FirstEmptyIndex(vs: seq<NoirPoint>): (k: int)
    ensures -1 <= k < |vs|
    ensures k == -1 ==> forall i :: 0 <= i < |vs| ==> !IsEmptyVertex(vs[i])
    ensures k != -1 ==> IsEmptyVertex(vs[k]) && forall i :: 0 <= i < k ==> !IsEmptyVertex(vs[i])
  {
    if vs == [] then -1
    else if IsEmptyVertex(vs[0]) then 0
    else
      var k := FirstEmptyIndex(vs[1..]);
      if k == -1 then -1 else k + 1
  }

  /** `newVertices.findIndex(v => v.x === 0 && v.y === 0)`. */
  method FindEmptySlot(vs: seq<NoirPoint>) returns (k: int)
    ensures -1 <= k < |vs|
    ensures k == -1 ==> forall i :: 0 <= i < |vs| ==> !IsEmptyVertex(vs[i])
    ensures k != -1 ==> IsEmptyVertex(vs[k]) && forall i :: 0 <= i < k ==> !IsEmptyVertex(vs[i])
  {
    k := 0;
    while k < |vs|
      invariant 0 <= k <= |vs|
      invariant forall i :: 0 <= i < k ==> !IsEmptyVertex(vs[i])
    {
      if IsEmptyVertex(vs[k]) {
        return;
      }
      k := k + 1;
    }
    k := -1;
  }

  /** The vertex list after a click that lands on `point`. */
  function Clicked(vs: seq<NoirPoint>, maxVertices: nat, point: NoirPoint): (r: seq<NoirPoint>)
    ensures |Filled(vs)| >= maxVertices ==> r == vs
    ensures |r| == |vs| || (|vs| < maxVertices && r == vs + [point])
    ensures forall i :: 0 <= i < |vs| && r[i] != vs[i] ==> i == FirstEmptyIndex(vs) && r[i] == point
  {
    if |Filled(vs)| >= maxVertices then vs
    else if FirstEmptyIndex(vs) != -1 then vs[FirstEmptyIndex(vs) := point]
    else if |vs| < maxVertices then vs + [point]
    else vs
  }

  /** Non-empty slots come before empty ones. */
  ghost predicate Packed(vs: seq<NoirPoint>) {
    forall i, j :: 0 <= i < j < |vs| && IsEmptyVertex(vs[i]) ==> IsEmptyVertex(vs[j])
  }

  /** A click changes nothing once `maxVertices` slots are filled. */
  lemma ClickWhenFull(vs: seq<NoirPoint>, maxVertices: nat, point: NoirPoint)
    requires |Filled(vs)| >= maxVertices
    ensures Clicked(vs, maxVertices, point) == vs
  {
  }

  /** While fewer than `maxVertices` slots are filled, a click writes the
      point into the first empty slot and leaves the length and every other
      slot as they were. */
  lemma ClickFillsFirstEmpty(vs: seq<NoirPoint>, maxVertices: nat, point: NoirPoint, k: nat)
    requires |Filled(vs)| < maxVertices
    requires k < |vs| && IsEmptyVertex(vs[k]) && forall i :: 0 <= i < k ==> !IsEmptyVertex(vs[i])
    ensures var r := Clicked(vs, maxVertices, point);
      && |r| == |vs| && r[k] == point
      && forall i :: 0 <= i < |vs| && i != k ==> r[i] == vs[i]
  {
    assert FirstEmptyIndex(vs) == k;
  }

  /** With no empty slot, a click appends only while the list is shorter
      than `maxVertices`. */
  lemma ClickAppends(vs: seq<NoirPoint>, maxVertices: nat, point: NoirPoint)
    requires |Filled(vs)| < maxVertices
    requires forall i :: 0 <= i < |vs| ==> !IsEmptyVertex(vs[i])
    ensures Clicked(vs, maxVertices, point) == if |vs| < maxVertices then vs + [point] else vs
  {
  }

  /** A list no longer than `maxVertices` stays so. */
  lemma ClickBounded(vs: seq<NoirPoint>, maxVertices: nat, point: NoirPoint)
    requires |vs| <= maxVertices
    ensures |vs| <= |Clicked(vs, maxVertices, point)| <= maxVertices
  {
  }

  /** Clicks keep the filled slots before the empty ones. */
  lemma ClickKeepsPacked(vs: seq<NoirPoint>, maxVertices: nat, point: NoirPoint)
    requires Packed(vs)
    ensures Packed(Clicked(vs, maxVertices, point))
  {
    var r := Clicked(vs, maxVertices, point);
    var k := FirstEmptyIndex(vs);
    if |Filled(vs)| < maxVertices && k != -1 {
      forall i, j | 0 <= i < j < |r| && IsEmptyVertex(r[i]) ensures IsEmptyVertex(r[j]) {
        if i == k {
          assert IsEmptyVertex(point);
          assert j != k;
        } else {
          assert k < i;
        }
      }
    }
  }

  /** The vertex list after a sequence of clicks. */
  function ClickAll(vs: seq<NoirPoint>, maxVertices: nat, points: seq<NoirPoint>): seq<NoirPoint>
    decreases |points|
  {
    if points == [] then vs
    else ClickAll(Clicked(vs, maxVertices, points[0]), maxVertices, points[1..])
  }

  lemma {:induction false} ClickAllKeepsPacked(vs: seq<NoirPoint>, maxVertices: nat, points: seq<NoirPoint>)
    requires Packed(vs) && |vs| == maxVertices
    ensures Packed(ClickAll(vs, maxVertices, points))
    ensures |ClickAll(vs, maxVertices, points)| == maxVertices
    decreases |points|
  {
    if points != [] {
      ClickKeepsPacked(vs, maxVertices, points[0]);
      ClickBounded(vs, maxVertices, points[0]);
      ClickAllKeepsPacked(Clicked(vs, maxVertices, points[0]), maxVertices, points[1..]);
    }
  }

  /** From the reset state, any sequence of clicks leaves exactly
      `maxVertices` slots with the filled ones first. */
  lemma ClicksFromReset(maxVertices: nat, points: seq<NoirPoint>)
    ensures Packed(ClickAll(ResetVertices(maxVertices), maxVertices, points))
    ensures |ClickAll(ResetVertices(maxVertices), maxVertices, points)| == maxVertices
  {
    ClickAllKeepsPacked(ResetVertices(maxVertices), maxVertices, points);
  }

  /** Filtering keeps the order: the filled slots of `a + b` are those of
      `a` followed by those of `b`. */
  lemma {:induction false} FilledConcat(a: seq<NoirPoint>, b: seq<NoirPoint>)
    ensures Filled(a + b) == Filled(a) + Filled(b)
    decreases |a|
  {
    if a == [] {
      assert a + b == b;
    } else {
      assert (a + b)[1..] == a[1..] + b;
      FilledConcat(a[1..], b);
    }
  }

  lemma AllEmptyNothingFilled(vs: seq<NoirPoint>)
    requires forall i :: 0 <= i < |vs| ==> IsEmptyVertex(vs[i])
    ensures Filled(vs) == []
  {
    if Filled(vs) != [] {
      assert Filled(vs)[0] in Filled(vs);
      assert false;
    }
  }

  /** In a packed list the filled slots are exactly a prefix. */
  lemma {:induction false} PackedFilledPrefix(vs: seq<NoirPoint>)
    requires Packed(vs)
    ensures Filled(vs) == vs[..|Filled(vs)|]
    ensures forall i :: |Filled(vs)| <= i < |vs| ==> IsEmptyVertex(vs[i])
  {
    if vs != [] {
      PackedFilledPrefix(vs[1..]);
      if IsEmptyVertex(vs[0]) {
        AllEmptyNothingFilled(vs[1..]);
      } else {
        assert vs == [vs[0]] + vs[1..];
      }
    }
  }

  /** In a packed list, marker `i` is drawn for vertex `i`, so the marker
      index of a drag is a valid vertex index for the same vertex. */
  lemma MarkerIndexIsVertexIndex(vs: seq<NoirPoint>, i: nat)
    requires Packed(vs) && i < |Markers(vs)|
    ensures i < |vs| && !IsEmptyVertex(vs[i])
    ensures Markers(vs)[i] == NoirPointToLatLng(vs[i])
  {
    PackedFilledPrefix(vs);
    assert Filled(vs)[i] in Filled(vs);
  }

  /** Dragging a marker to a point other than (0, 0) keeps the list packed. */
  lemma DragKeepsPacked(vs: seq<NoirPoint>, index: nat, point: NoirPoint)
    requires Packed(vs) && index < |Filled(vs)| && !IsEmptyVertex(point)
    ensures Packed(vs[index := point])
  {
    PackedFilledPrefix(vs);
    assert Filled(vs)[index] in Filled(vs);
  }

  // ----- Marker indices and vertex indices -----

  /** The slot behind marker `i`: the position in `vs` of the `i`-th filled slot. */
  function FilledIndex(vs: seq<NoirPoint>, i: nat): (k: nat)
    requires i < |Filled(vs)|
    ensures k < |vs| && vs[k] == Filled(vs)[i]
  {
    if IsEmptyVertex(vs[0]) then 1 + FilledIndex(vs[1..], i)
    else if i == 0 then 0
    else 1 + FilledIndex(vs[1..], i - 1)
  }

  /** A drag of marker `i` that moves the vertex the marker shows. */
  function MarkerDragged(vs: seq<NoirPoint>, i: nat, point: NoirPoint): (r: seq<NoirPoint>)
    requires i < |Filled(vs)|
    ensures |r| == |vs|
  {
    vs[FilledIndex(vs, i) := point]
  }

  /** Dragging marker `i` to a point other than (0, 0) moves that marker and
      no other: the filled slots are the old ones with entry `i` replaced. */
  lemma {:induction false} MarkerDragMovesMarker(vs: seq<NoirPoint>, i: nat, point: NoirPoint)
    requires i < |Filled(vs)| && !IsEmptyVertex(point)
    ensures Filled(MarkerDragged(vs, i, point)) == Filled(vs)[i := point]
    decreases |vs|
  {
    var k := FilledIndex(vs, i);
    var r := MarkerDragged(vs, i, point);
    if IsEmptyVertex(vs[0]) {
      MarkerDragMovesMarker(vs[1..], i, point);
      assert r[1..] == MarkerDragged(vs[1..], i, point);
    } else if i == 0 {
      assert r[1..] == vs[1..];
    } else {
      MarkerDragMovesMarker(vs[1..], i - 1, point);
      assert r[1..] == MarkerDragged(vs[1..], i - 1, point);
      assert Filled(vs) == [vs[0]] + Filled(vs[1..]);
    }
  }

  /** The markers after a drag of marker `i` to a point other than (0, 0):
      marker `i` is at the new position, every other marker where it was. */
  lemma MarkerDragMovesOneMarker(vs: seq<NoirPoint>, i: nat, point: NoirPoint)
    requires i < |Filled(vs)| && !IsEmptyVertex(point)
    ensures Markers(MarkerDragged(vs, i, point)) == Markers(vs)[i := NoirPointToLatLng(point)]
  {
    MarkerDragMovesMarker(vs, i, point);
  }

  /** On a packed list marker `i` shows vertex `i`, so the drag as written,
      which uses the marker index as a vertex index, is the marker-aware drag. */
  lemma {:induction false} PackedMarkerIndex(vs: seq<NoirPoint>, i: nat, point: NoirPoint)
    requires Packed(vs) && i < |Filled(vs)|
    ensures FilledIndex(vs, i) == i
    ensures vs[i := point] == MarkerDragged(vs, i, point)
    decreases |vs|
  {
    if IsEmptyVertex(vs[0]) {
      AllEmptyNothingFilled(vs);
      assert false;
    } else if i > 0 {
      assert Packed(vs[1..]) by {
        forall a, b | 0 <= a < b < |vs[1..]| && IsEmptyVertex(vs[1..][a])
          ensures IsEmptyVertex(vs[1..][b])
        {
          assert vs[1..][a] == vs[a + 1] && vs[1..][b] == vs[b + 1];
        }
      }
      PackedMarkerIndex(vs[1..], i - 1, point);
    }
  }

  /** The drag as written indexes the vertex list with the marker index.
      On the vertices `[(0, 0), (5, 5)]`, dragging the only marker, which
      shows (5, 5), to (0.07, 0.07) leaves (5, 5) on the map and adds a
      second marker; the marker-aware drag moves it. */
  lemma DragByMarkerIndexAddsMarker()
    ensures var vs := [EmptyVertex, NoirPoint(5, 5)];
      var after := vs[0 := LatLngToNoirPoint(LeafletLatLng(0.07, 0.07))];
      && |Markers(vs)| == 1
      && Filled(after) == [NoirPoint(7, 7), NoirPoint(5, 5)]
      && Filled(MarkerDragged(vs, 0, NoirPoint(7, 7))) == [NoirPoint(7, 7)]
  {
    var vs := [EmptyVertex, NoirPoint(5, 5)];
    assert Filled(vs[1..]) == [NoirPoint(5, 5)] by {
      assert vs[1..][1..] == [];
    }
    assert LatLngToNoirPoint(LeafletLatLng(0.07, 0.07)) == NoirPoint(7, 7);
    var after := vs[0 := NoirPoint(7, 7)];
    assert after[1..] == vs[1..];
    MarkerDragMovesMarker(vs, 0, NoirPoint(7, 7));
  }

  class MapSelector {
    var vertices: seq<NoirPoint>
    const maxVertices: nat

    constructor (vertices: seq<NoirPoint>, maxVertices: nat := DefaultMaxVertices)
      ensures this.vertices == vertices && this.maxVertices == maxVertices
    {
      this.vertices := vertices;
      this.maxVertices := maxVertices;
    }

    /** A click on the map at `e`: when fewer than `maxVertices` slots are
        filled, the rounded point goes into the first empty slot, or is
        appended while the list is shorter than `maxVertices`. */
    method Click(e: LeafletLatLng)
      modifies this
      ensures vertices == Clicked(old(vertices), maxVertices, LatLngToNoirPoint(e))
    {
      if |Filled(vertices)| < maxVertices {
        var point := LatLngToNoirPoint(e);
        var newVertices := vertices;
        var emptyIndex := FindEmptySlot(newVertices);
        assert emptyIndex == FirstEmptyIndex(newVertices);
        if emptyIndex != -1 {
          newVertices := newVertices[emptyIndex := point];
        } else if |newVertices| < maxVertices {
          newVertices := newVertices + [point];
        }
        vertices := newVertices;
      }
    }

    /** Marker `index` dragged to `ll`: that slot gets the rounded point. */
    method Drag(index: nat, ll: LeafletLatLng)
      requires index < |vertices|
      modifies this
      ensures vertices == old(vertices)[index := LatLngToNoirPoint(ll)]
    {
      var newVertices := vertices;
      newVertices := newVertices[index := LatLngToNoirPoint(ll)];
      vertices := newVertices;
    }

    /** The reset button: `maxVertices` empty slots. */
    method Reset()
      modifies this
      ensures vertices == ResetVertices(maxVertices)
    {
      vertices := seq(maxVertices, _ => EmptyVertex);
    }
  }
}
