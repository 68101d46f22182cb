/**
 * The direct GeoJSON export (`DT.write_geojson`): one Point feature per live
 * vertex, then one Polygon feature per finite triangle.
 */
module GeoJson {
  import opened Outcomes
  import opened Decimal
  import opened Tin

  /** A 2D position [x, y], in units of 10^-prec. */
  datatype Position = Position(x: int, y: int)

  datatype GeoGeometry = Point(position: Position) | Polygon(rings: seq<seq<Position>>)

  /** A feature: its geometry and, for points, the string properties `id` and `z`. */
  datatype Feature = Feature(geometry: GeoGeometry, properties: Option<map<string, string>>)

  datatype FeatureCollection = FeatureCollection(features: seq<Feature>)

  /** The live vertex indices below `n`, in ascending order. */
  function LiveBelow(t: Triangulation, n: nat): seq<nat>
  {
    if n <= 1 then []
    else LiveBelow(t, n - 1) + (if Live(t, n - 1) then [n - 1] else [])
  }

  /** The indices of the vertices written as points. */
  function PointIndices(t: Triangulation): seq<nat>
  {
    LiveBelow(t, |t.vertices|)
  }

  function PositionOf(t: Triangulation, i: nat): Position
    requires i < |t.vertices|
  {
    Position(t.vertices[i].x, t.vertices[i].y)
  }

  /** The point feature of vertex `i`: its xy, and its index and z as strings. */
  function PointFeature(t: Triangulation, i: nat): Feature
    requires i < |t.vertices|
  {
    Feature(Point(PositionOf(t, i)),
            Some(map["id" := NatToString(i), "z" := DisplayDecimal(t.vertices[i].z, t.prec)]))
  }

  /** The polygon feature of a triangle: one ring v0, v1, v2, v0 and no properties. */
  function TriangleFeature(t: Triangulation, tr: Triangle): Feature
    requires tr.v0 < |t.vertices| && tr.v1 < |t.vertices| && tr.v2 < |t.vertices|
  {
    var p0 := PositionOf(t, tr.v0);
    Feature(Polygon([[p0, PositionOf(t, tr.v1), PositionOf(t, tr.v2), p0]]), None)
  }

  /**
   * Builds the feature collection: all the points first, in index order,
   * then all the triangles, in enumeration order.
   */
  method WriteGeoJson(t: Triangulation) returns (fc: FeatureCollection)
    requires Valid(t)
    ensures var ids := PointIndices(t);
      |fc.features| == |ids| + |t.triangles|
      && (forall k :: 0 <= k < |ids| ==> ids[k] < |t.vertices| && fc.features[k] == PointFeature(t, ids[k]))
      && (forall k :: 0 <= k < |t.triangles| ==>
            TriangleLive(t, t.triangles[k])
            && fc.features[|ids| + k] == TriangleFeature(t, t.triangles[k]))
  {
    var features: seq<Feature> := [];
    var i := 1;
    while i < |t.vertices|
      invariant 1 <= i <= |t.vertices|
      invariant |features| == |LiveBelow(t, i)|
      invariant forall k :: 0 <= k < |features| ==>
        LiveBelow(t, i)[k] < i && features[k] == PointFeature(t, LiveBelow(t, i)[k])
    {
      if i in t.removed {
        i := i + 1;
        continue;
      }
      var pt := Point(Position(t.vertices[i].x, t.vertices[i].y));
      var attributes := map["id" := NatToString(i)];
      attributes := attributes["z" := DisplayDecimal(t.vertices[i].z, t.prec)];
      features := features + [Feature(pt, Some(attributes))];
      i := i + 1;
    }
    var points := features;
    var npoints := |points|;
    var k := 0;
    while k < |t.triangles|
      invariant 0 <= k <= |t.triangles|
      invariant |features| == npoints + k
      invariant forall j :: 0 <= j < npoints ==> features[j] == points[j]
      invariant forall j :: 0 <= j < k ==> features[npoints + j] == TriangleFeature(t, t.triangles[j])
    {
      var tr := t.triangles[k];
      assert TriangleLive(t, tr);
      var l := [PositionOf(t, tr.v0), PositionOf(t, tr.v1), PositionOf(t, tr.v2), PositionOf(t, tr.v0)];
      features := features + [Feature(Polygon([l]), None)];
      k := k + 1;
    }
    fc := FeatureCollection(features);
  }

  // ---------------------------------------------------------------------------
  // Properties of the feature collection
  // ---------------------------------------------------------------------------

  lemma {:induction false} LiveBelowExactly(t: Triangulation, n: nat)
    ensures forall x :: x in LiveBelow(t, n) <==> 1 <= x < n && Live(t, x)
    ensures forall a, b :: 0 <= a < b < |LiveBelow(t, n)| ==> LiveBelow(t, n)[a] < LiveBelow(t, n)[b]
  {
    if n > 1 {
      LiveBelowExactly(t, n - 1);
      var prev := LiveBelow(t, n - 1);
      assert forall a :: 0 <= a < |prev| ==> prev[a] in prev;
    }
  }

  /**
   * The points are exactly the live vertices (the infinite vertex and the
   * removed ones are never written), each once, in ascending index order.
   */
  lemma PointsAreLiveVertices(t: Triangulation)
    ensures forall i :: i in PointIndices(t) <==> Live(t, i)
    ensures forall a, b :: 0 <= a < b < |PointIndices(t)| ==> PointIndices(t)[a] < PointIndices(t)[b]
  {
    LiveBelowExactly(t, |t.vertices|);
  }

  /** The live vertices below `n`, as a set. */
  function LiveSet(t: Triangulation, n: nat): set<nat>
  {
    set i: nat | 1 <= i < n && Live(t, i)
  }

  lemma {:induction false} LiveBelowCount(t: Triangulation, n: nat)
    ensures |LiveBelow(t, n)| == |LiveSet(t, n)|
  {
    if n <= 1 {
      assert LiveSet(t, n) == {};
    } else {
      LiveBelowCount(t, n - 1);
      if Live(t, n - 1) {
        assert LiveSet(t, n) == LiveSet(t, n - 1) + {n - 1};
      } else {
        assert LiveSet(t, n) == LiveSet(t, n - 1);
      }
    }
  }

  /** There are as many point features as live vertices. */
  lemma PointCountIsLiveCount(t: Triangulation)
    ensures |PointIndices(t)| == |LiveSet(t, |t.vertices|)|
  {
    LiveBelowCount(t, |t.vertices|);
  }

  /**
   * The string properties of a point read back as what they stand for: `id`
   * as the vertex index, `z` as the elevation.
   */
  lemma PointPropertiesReadBack(t: Triangulation, i: nat)
    requires i < |t.vertices|
    ensures var props := PointFeature(t, i).properties;
      props.Some? && props.value.Keys == {"id", "z"}
      && AllDigits(props.value["id"]) && DigitsValue(props.value["id"]) == i
      && ParseDecimal(props.value["z"], t.prec) == Some(t.vertices[i].z)
  {
    NatToStringValue(i);
    DisplayRoundTrip(t.vertices[i].z, t.prec);
  }

  /**
   * A triangle's ring is closed (four positions, the last equal to the
   * first) and visits the triangle's vertices in order.
   */
  lemma TriangleRingIsClosed(t: Triangulation, tr: Triangle)
    requires TriangleLive(t, tr)
    ensures var g := TriangleFeature(t, tr).geometry;
      g.Polygon? && |g.rings| == 1 && |g.rings[0]| == 4 && g.rings[0][3] == g.rings[0][0]
      && g.rings[0][..3] == [PositionOf(t, tr.v0), PositionOf(t, tr.v1), PositionOf(t, tr.v2)]
  {
  }
}
