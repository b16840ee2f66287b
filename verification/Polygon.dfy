/** The shoelace area of a ring, and the choice of the largest polygon of a multipolygon. */
module Polygons {
  import opened Reals
  import opened Wrappers

  datatype Point = Point(x: real, y: real)

  type Ring = seq<Point>

  /** Twice the signed area of the triangle with the origin. */
  function Cross(p: Point, q: Point): real {
    p.x * q.y - q.x * p.y
  }

  /** The sum along a path, edge by edge. */
  function Along(path: Ring): real {
    if |path| < 2 then 0.0 else Cross(path[0], path[1]) + Along(path[1..])
  }

  /** Twice the signed area that a ring encloses. */
  function Signed(ring: Ring): real {
    if ring == [] then 0.0 else Along(ring + [ring[0]])
  }

  function Area(ring: Ring): real {
    if |ring| < 3 then 0.0 else Abs(Signed(ring)) / 2.0
  }

  lemma {:induction false} AlongSplit(path: Ring, k: nat)
    requires k < |path|
    ensures Along(path) == Along(path[..k + 1]) + Along(path[k..])
  {
    hide Cross;
    if k > 0 {
      AlongSplit(path[1..], k - 1);
      assert path[..k + 1][1..] == path[1..][..k];
      assert path[1..][k - 1..] == path[k..];
    }
  }

  lemma AlongOneMore(path: Ring, p: Point)
    requires path != []
    ensures Along(path + [p]) == Along(path) + Cross(path[|path| - 1], p)
  {
    var n := |path| - 1;
    hide Cross;
    AlongSplit(path + [p], n);
    assert (path + [p])[..n + 1] == path;
    assert (path + [p])[n..] == [path[n], p];
    assert [path[n], p][1..] == [p];
  }

  function Successor(i: nat, n: nat): (j: nat)
    requires i < n
    ensures j == if i + 1 < n then i + 1 else 0
  {
    (i + 1) % n
  }

  lemma CrossIsEdge(sum: real, p: Point, q: Point)
    ensures sum + p.x * q.y - q.x * p.y == sum + Cross(p, q)
  {
  }

  /** The sum up to the i-th edge and the edge give the sum up to the next. */
  lemma EdgeAdds(coords: Ring, i: nat, sum: real)
    requires i < |coords| && sum == Along(coords[..i + 1])
    ensures var p, q := coords[i], coords[Successor(i, |coords|)];
            sum + p.x * q.y - q.x * p.y == if i + 1 < |coords| then Along(coords[..i + 2]) else Signed(coords)
  {
    hide Along, Cross;
    var q := coords[Successor(i, |coords|)];
    CrossIsEdge(sum, coords[i], q);
    AlongOneMore(coords[..i + 1], q);
    if i + 1 < |coords| {
      assert coords[..i + 1] + [q] == coords[..i + 2];
    } else {
      assert coords[..i + 1] == coords;
    }
  }

  /** `polygon_area`. */
  method PolygonArea(coords: Ring) returns (area: real)
    ensures area == Area(coords) >= 0.0
  {
    if |coords| < 3 { return 0.0; }
    var n := |coords|;
    var sum := 0.0;
    assert Along(coords[..1]) == 0.0;
    hide Along, Signed, Successor;
    for i := 0 to n
      invariant sum == if i < n then Along(coords[..i + 1]) else Signed(coords)
    {
      var j := Successor(i, n);
      EdgeAdds(coords, i, sum);
      sum := sum + coords[i].x * coords[j].y;
      sum := sum - coords[j].x * coords[i].y;
    }
    area := Abs(sum) / 2.0;
  }

  /** The ring read from its k-th vertex on. */
  function Rotate(ring: Ring, k: nat): Ring
    requires k <= |ring|
  {
    ring[k..] + ring[..k]
  }

  function Reverse(ring: Ring): (r: Ring)
    ensures |r| == |ring|
  {
    if ring == [] then [] else Reverse(ring[1..]) + [ring[0]]
  }

  function Shift(ring: Ring, dx: real, dy: real): (r: Ring)
    ensures |r| == |ring|
  {
    if ring == [] then [] else [Point(ring[0].x + dx, ring[0].y + dy)] + Shift(ring[1..], dx, dy)
  }

  /** Two paths that meet in a point. */
  lemma AlongJoin(a: Ring, p: Point, b: Ring)
    ensures Along(a + [p] + b) == Along(a + [p]) + Along([p] + b)
  {
    var path := a + [p] + b;
    AlongSplit(path, |a|);
    assert path[..|a| + 1] == a + [p] && path[|a|..] == [p] + b;
  }

  lemma SignedOfRotation(ring: Ring, k: nat)
    requires k <= |ring|
    ensures Signed(Rotate(ring, k)) == Signed(ring)
  {
    if k == |ring| || k == 0 {
      assert Rotate(ring, k) == ring;
    } else {
      var first, kth := ring[0], ring[k];
      var a, b := ring[1..k], ring[k + 1..];
      assert ring == [first] + a + [kth] + b;
      assert Rotate(ring, k) == [kth] + b + [first] + a;
      assert ring + [first] == ([first] + a) + [kth] + (b + [first]);
      assert Rotate(ring, k) + [kth] == ([kth] + b) + [first] + (a + [kth]);
      hide Along;
      AlongJoin([first] + a, kth, b + [first]);
      AlongJoin([kth] + b, first, a + [kth]);
      assert [kth] + (b + [first]) == ([kth] + b) + [first];
      assert [first] + (a + [kth]) == ([first] + a) + [kth];
    }
  }

  /** Where a ring starts does not matter. */
  lemma AreaOfRotation(ring: Ring, k: nat)
    requires k <= |ring|
    ensures Area(Rotate(ring, k)) == Area(ring)
  {
    SignedOfRotation(ring, k);
    hide Signed;
  }

  lemma {:induction false} AlongReverse(path: Ring)
    ensures Along(Reverse(path)) == -Along(path)
  {
    if |path| >= 2 {
      AlongReverse(path[1..]);
      var back := Reverse(path[1..]);
      assert back[|back| - 1] == path[1];
      AlongOneMore(back, path[0]);
    }
  }

  lemma {:induction false} ReverseOneMore(path: Ring, p: Point)
    ensures Reverse(path + [p]) == [p] + Reverse(path)
  {
    if path == [] {
      assert [p][1..] == [];
    } else {
      ReverseOneMore(path[1..], p);
      assert (path + [p])[1..] == path[1..] + [p];
    }
  }

  lemma SignedOfReverse(ring: Ring)
    ensures Signed(Reverse(ring)) == -Signed(ring)
  {
    if ring != [] {
      var back := Reverse(ring[1..]);
      ReverseOneMore(ring, ring[0]);
      AlongReverse(ring + [ring[0]]);
      SignedOfRotation(Reverse(ring), |back|);
      assert Rotate(Reverse(ring), |back|) == [ring[0]] + back;
      assert ([ring[0]] + back) + [ring[0]] == [ring[0]] + Reverse(ring);
      hide Along;
    }
  }

  /** Nor does the direction in which it is walked. */
  lemma AreaOfReverse(ring: Ring)
    ensures Area(Reverse(ring)) == Area(ring)
  {
    SignedOfReverse(ring);
    hide Signed, Reverse;
  }

  function Moved(p: Point, dx: real, dy: real): Point {
    Point(p.x + dx, p.y + dy)
  }

  /** What a shift adds at the end of an edge, and takes off at its beginning. */
  function Skew(p: Point, dx: real, dy: real): real {
    dx * p.y - dy * p.x
  }

  lemma CrossOfShift(p: Point, q: Point, dx: real, dy: real)
    ensures Cross(Moved(p, dx, dy), Moved(q, dx, dy)) == Cross(p, q) + Skew(q, dx, dy) - Skew(p, dx, dy)
  {
    assert (p.x + dx) * (q.y + dy) == p.x * q.y + p.x * dy + dx * q.y + dx * dy;
    assert (q.x + dx) * (p.y + dy) == q.x * p.y + q.x * dy + dx * p.y + dx * dy;
  }

  lemma AlongUnfolds(path: Ring)
    requires |path| >= 2
    ensures Along(path) == Cross(path[0], path[1]) + Along(path[1..])
  {
  }

  lemma ShiftUnfolds(path: Ring, dx: real, dy: real)
    requires path != []
    ensures Shift(path, dx, dy)[0] == Moved(path[0], dx, dy)
    ensures Shift(path, dx, dy)[1..] == Shift(path[1..], dx, dy)
  {
  }

  /** Shifting changes the sum along a path only by its ends. */
  lemma {:induction false} AlongShift(path: Ring, dx: real, dy: real)
    requires path != []
    ensures Along(Shift(path, dx, dy))
         == Along(path) + Skew(path[|path| - 1], dx, dy) - Skew(path[0], dx, dy)
  {
    if |path| >= 2 {
      hide Cross, Along, Shift, Skew, Moved;
      AlongShift(path[1..], dx, dy);
      CrossOfShift(path[0], path[1], dx, dy);
      ShiftUnfolds(path, dx, dy);
      ShiftUnfolds(path[1..], dx, dy);
      AlongUnfolds(path);
      AlongUnfolds(Shift(path, dx, dy));
    }
  }

  lemma {:induction false} ShiftOneMore(path: Ring, p: Point, dx: real, dy: real)
    ensures Shift(path + [p], dx, dy) == Shift(path, dx, dy) + [Point(p.x + dx, p.y + dy)]
  {
    if path == [] {
      assert [p][1..] == [];
    } else {
      ShiftOneMore(path[1..], p, dx, dy);
      assert (path + [p])[1..] == path[1..] + [p];
    }
  }

  /** Nor where the ring lies. */
  lemma AreaOfShift(ring: Ring, dx: real, dy: real)
    ensures Area(Shift(ring, dx, dy)) == Area(ring)
  {
    if ring != [] {
      var first, moved := ring[0], Shift(ring, dx, dy);
      var closed := ring + [first];
      assert closed[0] == closed[|closed| - 1] == first && moved[0] == Point(first.x + dx, first.y + dy);
      hide Along, Shift;
      AlongShift(closed, dx, dy);
      ShiftOneMore(ring, first, dx, dy);
      assert moved + [moved[0]] == Shift(closed, dx, dy);
      assert Signed(moved) == Signed(ring);
      hide Signed;
    }
  }

  /** A ring that repeats its first vertex at the end (section 3.1.6 of RFC 7946) has the area of
      the ring that does not. */
  lemma AreaOfClosedRing(ring: Ring)
    requires ring != []
    ensures Area(ring + [ring[0]]) == Area(ring)
  {
    var closed, first := ring + [ring[0]], ring[0];
    AlongOneMore(closed, first);
    assert closed[0] == first && Cross(first, first) == 0.0;
    assert Signed(closed) == Signed(ring);
    if |ring| == 2 {
      assert ring == [first, ring[1]];
      AlongOneMore(ring, first);
      assert [first, ring[1]][1..] == [ring[1]];
      assert Signed(ring) == 0.0;
    }
    hide Signed;
  }

  /** A cut along a diagonal conserves the signed area. */
  lemma CutConservesArea(ring: Ring, k: nat)
    requires k < |ring|
    ensures Signed(ring) == Signed(ring[..k + 1]) + Signed([ring[0]] + ring[k..])
  {
    var first, kth := ring[0], ring[k];
    var near, far := ring[..k + 1], [first] + ring[k..];
    assert ring + [first] == ring[..k] + [kth] + (ring[k + 1..] + [first]);
    AlongJoin(ring[..k], kth, ring[k + 1..] + [first]);
    assert near == ring[..k] + [kth];
    AlongOneMore(near, first);
    assert far + [first] == [first] + [kth] + (ring[k + 1..] + [first]);
    AlongJoin([first], kth, ring[k + 1..] + [first]);
    AlongOneMore([first], kth);
    assert Along([first]) == 0.0;
    hide Along;
  }

  /** The area of a triangle is half the product of two of its sides as vectors. */
  lemma AreaOfTriangle(a: Point, b: Point, c: Point)
    ensures Area([a, b, c]) == Abs(Cross(Point(b.x - a.x, b.y - a.y), Point(c.x - a.x, c.y - a.y))) / 2.0
  {
    assert [a, b, c] + [a] == [a, b, c, a];
    assert [a, b, c, a][1..] == [b, c, a] && [b, c, a][1..] == [c, a] && [c, a][1..] == [a];
    assert Along([c, a]) == Cross(c, a);
    assert Along([b, c, a]) == Cross(b, c) + Cross(c, a);
    assert Along([a, b, c, a]) == Cross(a, b) + Cross(b, c) + Cross(c, a);
    hide Along;
    CrossOfShift(b, c, -a.x, -a.y);
    assert Skew(c, -a.x, -a.y) - Skew(b, -a.x, -a.y) == Cross(a, b) + Cross(c, a);
  }

  datatype Geometry =
    | Polygon(rings: seq<Ring>)
    | MultiPolygon(polygons: seq<seq<Ring>>)
    | Other(kind: string)

  datatype Error = UnsupportedType | IndexError

  /** The first polygon whose outer ring encloses the largest area. */
  ghost predicate FirstLargest(polygons: seq<seq<Ring>>, i: nat)
    requires forall k :: 0 <= k < |polygons| ==> |polygons[k]| > 0
  {
    && i < |polygons|
    && (forall k :: 0 <= k < |polygons| ==> Area(polygons[k][0]) <= Area(polygons[i][0]))
    && (forall k :: 0 <= k < i ==> Area(polygons[k][0]) < Area(polygons[i][0]))
  }

  /** `multipolygon_to_polygon`. */
  method MultipolygonToPolygon(geometry: Geometry) returns (r: Result<Geometry, Error>, ghost chosen: nat)
    ensures r == Err(UnsupportedType) <==> geometry.Other?
    ensures geometry.Polygon? ==> r == Ok(geometry)
    ensures geometry.MultiPolygon? ==>
              var polygons := geometry.polygons;
              && (r == Err(IndexError) <==> polygons == [] || (|polygons| > 1 && [] in polygons))
              && (r.Ok? ==> chosen < |polygons| && r.value == Polygon(polygons[chosen]))
              && (r.Ok? && |polygons| > 1 ==> FirstLargest(polygons, chosen))
  {
    chosen := 0;
    if geometry.Polygon? { return Ok(geometry), chosen; }
    if !geometry.MultiPolygon? { return Err(UnsupportedType), chosen; }
    var polygons := geometry.polygons;
    if |polygons| == 1 { return Ok(Polygon(polygons[0])), chosen; }
    hide Area;
    var largestIdx, largestArea := 0, 0.0;
    for i := 0 to |polygons|
      invariant forall k :: 0 <= k < i ==> |polygons[k]| > 0
      invariant largestIdx < i || (i == 0 && largestIdx == 0 && largestArea == 0.0)
      invariant i > 0 ==> largestArea == Area(polygons[largestIdx][0])
      invariant forall k :: 0 <= k < i ==> Area(polygons[k][0]) <= largestArea
      invariant forall k :: 0 <= k < largestIdx ==> Area(polygons[k][0]) < largestArea
    {
      if polygons[i] == [] { return Err(IndexError), chosen; }
      var area := PolygonArea(polygons[i][0]);
      if area > largestArea {
        largestArea, largestIdx := area, i;
      }
    }
    if largestIdx >= |polygons| { return Err(IndexError), chosen; }
    chosen := largestIdx;
    r := Ok(Polygon(polygons[largestIdx]));
  }

  /** The choice is the only one there is. */
  lemma FirstLargestIsUnique(polygons: seq<seq<Ring>>, i: nat, j: nat)
    requires forall k :: 0 <= k < |polygons| ==> |polygons[k]| > 0
    requires FirstLargest(polygons, i) && FirstLargest(polygons, j)
    ensures i == j
  {
    assert Area(polygons[i][0]) <= Area(polygons[j][0]) <= Area(polygons[i][0]);
  }
}
