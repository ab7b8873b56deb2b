/** The administrator's polygon form (src/components/AdminPage.tsx): four
    vertices edited one coordinate at a time, and a `saved` flag that a
    save sets and any edit clears. */
module AdminPage {
  import opened Types

  /** The coordinate an input field edits. */
  datatype Axis = X | Y

  function Coordinate(p: NoirPoint, axis: Axis): int {
    match axis
    case X => p.x
    case Y => p.y
  }

  function OtherAxis(axis: Axis): Axis {
    match axis
    case X => Y
    case Y => X
  }

  /** `{ ...v, [axis]: value }`. */
  function WithCoordinate(p: NoirPoint, axis: Axis, value: int): (q: NoirPoint)
    ensures Coordinate(q, axis) == value
    ensures Coordinate(q, OtherAxis(axis)) == Coordinate(p, OtherAxis(axis))
  {
    match axis
    case X => p.(x := value)
    case Y => p.(y := value)
  }

  /** The vertex list after an edit: `vertices.map((v, i) => i === index ? … : v)`.
      An index outside the list matches no vertex. */
  function UpdateVertex(vs: NoirRegion, index: int, axis: Axis, value: int): (r: NoirRegion)
    ensures |r| == |vs|
    ensures 0 <= index < |vs| ==> Coordinate(r[index], axis) == value
    ensures 0 <= index < |vs| ==> Coordinate(r[index], OtherAxis(axis)) == Coordinate(vs[index], OtherAxis(axis))
    ensures forall i :: 0 <= i < |vs| && i != index ==> r[i] == vs[i]
  {
    seq(|vs|, i requires 0 <= i < |vs| => if i == index then WithCoordinate(vs[i], axis, value) else vs[i])
  }

  /** The four empty vertices the form starts with. */
  const InitialVertices: NoirRegion := [EmptyVertex, EmptyVertex, EmptyVertex, EmptyVertex]

  /** An index outside the list leaves it unchanged. */
  lemma UpdateOutOfRange(vs: NoirRegion, index: int, axis: Axis, value: int)
    requires index < 0 || index >= |vs|
    ensures UpdateVertex(vs, index, axis, value) == vs
  {
  }

  /** Typing the value a coordinate already has changes nothing. */
  lemma UpdateSameValue(vs: NoirRegion, index: int, axis: Axis)
    requires 0 <= index < |vs|
    ensures UpdateVertex(vs, index, axis, Coordinate(vs[index], axis)) == vs
  {
    var r := UpdateVertex(vs, index, axis, Coordinate(vs[index], axis));
    assert r[index] == vs[index] by {
      match axis
      case X =>
      case Y =>
    }
  }

  /** The later of two edits to the same coordinate wins. */
  lemma UpdateLastWins(vs: NoirRegion, index: int, axis: Axis, a: int, b: int)
    ensures UpdateVertex(UpdateVertex(vs, index, axis, a), index, axis, b) == UpdateVertex(vs, index, axis, b)
  {
    var r1 := UpdateVertex(UpdateVertex(vs, index, axis, a), index, axis, b);
    var r2 := UpdateVertex(vs, index, axis, b);
    if 0 <= index < |vs| {
      assert r1[index] == r2[index] by {
        match axis
        case X =>
        case Y =>
      }
    }
  }

  /** Edits to the two coordinates of a vertex commute. */
  lemma UpdateAxesCommute(vs: NoirRegion, index: int, a: int, b: int)
    ensures UpdateVertex(UpdateVertex(vs, index, X, a), index, Y, b)
         == UpdateVertex(UpdateVertex(vs, index, Y, b), index, X, a)
  {
    var r1 := UpdateVertex(UpdateVertex(vs, index, X, a), index, Y, b);
    var r2 := UpdateVertex(UpdateVertex(vs, index, Y, b), index, X, a);
    if 0 <= index < |vs| {
      assert r1[index] == NoirPoint(a, b) == r2[index];
    }
  }

  class AdminPage {
    var vertices: NoirRegion
    var saved: bool

    /** The form as first shown: four empty vertices, not saved. */
    constructor ()
      ensures vertices == InitialVertices && !saved
    {
      vertices := InitialVertices;
      saved := false;
    }

    /** `handleVertexChange`: one coordinate of one vertex gets the new value
        and the form is no longer saved. */
    method HandleVertexChange(index: int, axis: Axis, value: int)
      modifies this
      ensures vertices == UpdateVertex(old(vertices), index, axis, value)
      ensures !saved
    {
      var newVertices := UpdateVertex(vertices, index, axis, value);
      vertices := newVertices;
      saved := false;
    }

    /** `handleSave`: the form is saved; the vertices are untouched. */
    method HandleSave()
      modifies this`saved
      ensures saved
      ensures vertices == old(vertices)
    {
      saved := true;
    }
  }
}
