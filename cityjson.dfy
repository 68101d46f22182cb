/**
 * The quantized CityJSON 2.0 export (`DT.write_cityjson`): one TINRelief
 * object whose vertices are integers under a scale/translate transform.
 */
module CityJson {
  import opened Outcomes
  import opened Decimal
  import opened Tin

  /** The two panics of the writer, surfaced to Python as an exception. */
  datatype ExportError =
    | PlaceholderMissing   // a removed vertex needs the placeholder, but no vertex is live
    | CoordinateOverflow   // a quantized coordinate does not fit an i64

  /** The `transform` member: `scale` and `translate`, one number per axis. */
  datatype Transform = Transform(scale: seq<real>, translate: seq<real>)

  datatype Geometry = Geometry(gtype: string, lod: string, boundaries: seq<seq<seq<int>>>)

  datatype CityObject = CityObject(otype: string, geometry: seq<Geometry>)

  /** The document, as the record serialised to the file. */
  datatype CityJsonDoc = CityJsonDoc(
    ctype: string,
    version: string,
    transform: Transform,
    cityObjects: map<string, CityObject>,
    vertices: seq<seq<int>>)

  /** A decimal in units of 10^-prec, as a real number. */
  function AsReal(v: int, prec: nat): real
  {
    v as real / Pow10(prec) as real
  }

  /** The transform: scale 10^-digits on every axis, translate (minx, miny, 0). */
  function TransformFor(t: Triangulation, digits: nat): (tr: Transform)
    ensures |tr.scale| == 3 && forall k :: 0 <= k < 3 ==> tr.scale[k] * Pow10(digits) as real == 1.0
    ensures tr.translate == [AsReal(t.minx, t.prec), AsReal(t.miny, t.prec), 0.0]
  {
    var d := 1.0 / Pow10(digits) as real;
    Transform([d, d, d], [AsReal(t.minx, t.prec), AsReal(t.miny, t.prec), 0.0])
  }

  /**
   * The point whose coordinates vertex `i` emits: its own when it is live,
   * the placeholder's when it was removed, none when no placeholder exists.
   */
  function EmittedPoint(t: Triangulation, i: nat): Option<Point3>
    requires 1 <= i < |t.vertices|
  {
    if i !in t.removed then Some(t.vertices[i])
    else match Placeholder(t)
      case None => None
      case Some(p) => Some(t.vertices[p])
  }

  /**
   * The integer triple for point `p`: x and y are taken relative to the
   * bounding-box minimum, z as it is, each rounded to `digits` fractional
   * digits and read as an i64 count of 10^-digits units.
   */
  function QuantizePoint(t: Triangulation, p: Point3, digits: nat): Option<seq<int>>
  {
    var qx := RoundedI64(p.x - t.minx, t.prec, digits);
    var qy := RoundedI64(p.y - t.miny, t.prec, digits);
    var qz := RoundedI64(p.z, t.prec, digits);
    if qx.Some? && qy.Some? && qz.Some? then Some([qx.value, qy.value, qz.value]) else None
  }

  /**
   * One coordinate as the writer handles it: formatted with `digits`
   * fractional digits, its '.' deleted, and parsed as an i64 (`None` is the
   * failed parse). The digits read back are the rounded value itself.
   */
  method QuantizeCoordinate(v: int, prec: nat, digits: nat) returns (q: Option<int>)
    ensures q == RoundedI64(v, prec, digits)
  {
    var s := RemoveDots(FormatFixed(v, prec, digits));
    q := ParseI64(s);
    QuantizeIsRounded(v, prec, digits);
  }

  /** What vertex `i` of the table contributes to the emitted vertex array. */
  function CityVertex(t: Triangulation, digits: nat, i: nat): Result<seq<int>, ExportError>
    requires 1 <= i < |t.vertices|
  {
    match EmittedPoint(t, i)
    case None => Err(PlaceholderMissing)
    case Some(p) =>
      match QuantizePoint(t, p, digits)
      case None => Err(CoordinateOverflow)
      case Some(q) => Ok(q)
  }

  /** A CityJSON boundary surface: the triangle with every index moved down by one. */
  function Shifted(tr: Triangle): seq<int>
  {
    [tr.v0 - 1, tr.v1 - 1, tr.v2 - 1]
  }

  /** `obj` is the terrain object holding one surface per triangle of `t`, in order. */
  predicate IsTerrainOf(t: Triangulation, obj: CityObject)
  {
    obj.otype == "TINRelief"
    && |obj.geometry| == 1
    && obj.geometry[0].gtype == "CompositeSurface"
    && obj.geometry[0].lod == "1"
    && |obj.geometry[0].boundaries| == |t.triangles|
    && forall k :: 0 <= k < |t.triangles| ==>
         obj.geometry[0].boundaries[k] == [Shifted(t.triangles[k])]
  }

  /**
   * The first live vertex (index >= 1) in table order, read in a loop that
   * stops at the first hit.
   */
  method FindPlaceholder(t: Triangulation) returns (onevertex: Option<Point3>)
    ensures onevertex.Some? <==> Placeholder(t).Some?
    ensures onevertex.Some? ==> onevertex.value == t.vertices[Placeholder(t).value]
  {
    onevertex := None;
    var i := 0;
    while i < |t.vertices|
      invariant 0 <= i <= |t.vertices|
      invariant onevertex.None?
      invariant i >= 1 ==> Placeholder(t) == FirstLiveFrom(t, i)
    {
      if i != 0 && i !in t.removed {
        onevertex := Some(t.vertices[i]);
        break;
      }
      i := i + 1;
    }
  }

  /** One pass of the vertex loop: the triple written for vertex `i`. */
  method VertexTriple(t: Triangulation, digits: nat, onevertex: Option<Point3>, i: nat)
    returns (q: Result<seq<int>, ExportError>)
    requires 1 <= i < |t.vertices|
    requires onevertex.Some? <==> Placeholder(t).Some?
    requires onevertex.Some? ==> onevertex.value == t.vertices[Placeholder(t).value]
    ensures q == CityVertex(t, digits, i)
  {
    var p := t.vertices[i];
    if i in t.removed {
      if onevertex.None? {
        return Err(PlaceholderMissing);
      }
      p := onevertex.value;
    }
    var x, y, z := p.x - t.minx, p.y - t.miny, p.z;
    var q0 := QuantizeCoordinate(x, t.prec, digits);
    var q1 := QuantizeCoordinate(y, t.prec, digits);
    var q2 := QuantizeCoordinate(z, t.prec, digits);
    if q0.None? || q1.None? || q2.None? {
      return Err(CoordinateOverflow);
    }
    q := Ok([q0.value, q1.value, q2.value]);
  }

  /**
   * The vertex array: entry `k` is the triple of table vertex `k + 1`; the
   * infinite vertex 0 is never written. Fails at the first vertex without one.
   */
  method QuantizedVertices(t: Triangulation, digits: nat) returns (r: Result<seq<seq<int>>, ExportError>)
    requires |t.vertices| >= 1
    ensures r.Ok? <==> forall i :: 1 <= i < |t.vertices| ==> CityVertex(t, digits, i).Ok?
    ensures r.Err? ==> exists i :: 1 <= i < |t.vertices| && CityVertex(t, digits, i) == Err(r.error)
                          && forall j :: 1 <= j < i ==> CityVertex(t, digits, j).Ok?
    ensures r.Ok? ==> (|r.value| == |t.vertices| - 1
                       && forall k :: 0 <= k < |r.value| ==> Ok(r.value[k]) == CityVertex(t, digits, k + 1))
  {
    var onevertex := FindPlaceholder(t);
    var allv: seq<seq<int>> := [];
    var i := 1;
    while i < |t.vertices|
      invariant 1 <= i <= |t.vertices|
      invariant |allv| == i - 1
      invariant forall j :: 1 <= j < i ==> CityVertex(t, digits, j).Ok?
      invariant forall k :: 0 <= k < i - 1 ==> Ok(allv[k]) == CityVertex(t, digits, k + 1)
    {
      var q := VertexTriple(t, digits, onevertex, i);
      if q.Err? {
        return Err(q.error);
      }
      allv := allv + [q.value];
      i := i + 1;
    }
    r := Ok(allv);
  }

  /** One surface `[[v0 - 1, v1 - 1, v2 - 1]]` per finite triangle, in order. */
  method Boundaries(t: Triangulation) returns (alltrs: seq<seq<seq<int>>>)
    ensures |alltrs| == |t.triangles|
    ensures forall j :: 0 <= j < |t.triangles| ==> alltrs[j] == [Shifted(t.triangles[j])]
  {
    alltrs := [];
    var k := 0;
    while k < |t.triangles|
      invariant 0 <= k <= |t.triangles|
      invariant |alltrs| == k
      invariant forall j :: 0 <= j < k ==> alltrs[j] == [Shifted(t.triangles[j])]
    {
      var tr := t.triangles[k];
      alltrs := alltrs + [[[tr.v0 - 1, tr.v1 - 1, tr.v2 - 1]]];
      k := k + 1;
    }
  }

  /**
   * Builds the document. It fails (the source panics) exactly when some
   * vertex has no triple; otherwise vertex `i` of the table (i >= 1) is
   * entry `i - 1` of the vertex array and the boundaries follow the
   * triangles.
   */
  method WriteCityJson(t: Triangulation, digits: nat) returns (r: Result<CityJsonDoc, ExportError>)
    requires Valid(t)
    ensures r.Ok? <==> forall i :: 1 <= i < |t.vertices| ==> CityVertex(t, digits, i).Ok?
    ensures r.Err? ==> exists i :: 1 <= i < |t.vertices| && CityVertex(t, digits, i) == Err(r.error)
                          && forall j :: 1 <= j < i ==> CityVertex(t, digits, j).Ok?
    ensures r.Ok? ==>
      var doc := r.value;
      doc.ctype == "CityJSON" && doc.version == "2.0"
      && doc.transform == TransformFor(t, digits)
      && doc.cityObjects.Keys == {"myterrain"} && IsTerrainOf(t, doc.cityObjects["myterrain"])
      && |doc.vertices| == |t.vertices| - 1
      && forall k :: 0 <= k < |doc.vertices| ==> Ok(doc.vertices[k]) == CityVertex(t, digits, k + 1)
  {
    var trans := TransformFor(t, digits);
    var allv := QuantizedVertices(t, digits);
    if allv.Err? {
      return Err(allv.error);
    }
    var alltrs := Boundaries(t);
    var cos := CityObject("TINRelief", [Geometry("CompositeSurface", "1", alltrs)]);
    r := Ok(CityJsonDoc("CityJSON", "2.0", trans, map["myterrain" := cos], allv.value));
  }

  // ---------------------------------------------------------------------------
  // Properties of the emitted vertices and boundaries
  // ---------------------------------------------------------------------------

  /**
   * A removed vertex emits exactly what the first live vertex of the table
   * emits, and nothing else about it matters.
   */
  lemma RemovedVertexCopiesFirstLive(t: Triangulation, digits: nat, i: nat, p: nat)
    requires 1 <= i < |t.vertices| && i in t.removed
    requires Live(t, p) && forall j: nat :: j < p ==> !Live(t, j)
    ensures CityVertex(t, digits, i) == CityVertex(t, digits, p)
  {
    PlaceholderIsFirstLive(t);
    var q := Placeholder(t).value;
    assert !(q < p) && !(p < q) by {
      assert Live(t, q) && Live(t, p);
    }
  }

  /** With no live vertex at all, any removed vertex makes the writer fail. */
  lemma RemovedVertexWithoutLiveFails(t: Triangulation, digits: nat, i: nat)
    requires 1 <= i < |t.vertices| && i in t.removed
    requires forall j: nat :: !Live(t, j)
    ensures CityVertex(t, digits, i) == Err(PlaceholderMissing)
  {
    PlaceholderIsFirstLive(t);
  }

  /** A live vertex emits its own coordinates, rounded, whatever the other vertices are. */
  lemma LiveVertexUsesOwnPoint(t: Triangulation, digits: nat, i: nat)
    requires Live(t, i)
    ensures CityVertex(t, digits, i).Ok? <==>
      InI64(Rounded(t.vertices[i].x - t.minx, t.prec, digits))
      && InI64(Rounded(t.vertices[i].y - t.miny, t.prec, digits))
      && InI64(Rounded(t.vertices[i].z, t.prec, digits))
    ensures CityVertex(t, digits, i).Ok? ==>
      (CityVertex(t, digits, i).value ==
         [Rounded(t.vertices[i].x - t.minx, t.prec, digits),
          Rounded(t.vertices[i].y - t.miny, t.prec, digits),
          Rounded(t.vertices[i].z, t.prec, digits)])
  {
  }

  /** From `q * b == w * a` over the integers, `q / a == w / b` over the reals. */
  lemma ExactQuotient(q: int, w: int, a: nat, b: nat)
    requires a >= 1 && b >= 1 && q * b == w * a
    ensures q as real * (1.0 / a as real) == w as real / b as real
  {
    var ra, rb := a as real, b as real;
    assert q as real * rb == w as real * ra;
    calc {
      q as real * (1.0 / ra);
      (q as real * rb) / (ra * rb);
      (w as real * ra) / (ra * rb);
      w as real / rb;
    }
  }

  /** Decoding `q` with the unit 1/a and the offset base/b, for an exact `q`. */
  lemma ExactDecode(q: int, v: int, base: int, a: nat, b: nat)
    requires a >= 1 && b >= 1 && q * b == (v - base) * a
    ensures q as real * (1.0 / a as real) + base as real / b as real == v as real / b as real
  {
    ExactQuotient(q, v - base, a, b);
  }

  /** The offset subtracted on each axis before quantizing: minx, miny and 0. */
  function Offset(t: Triangulation, axis: nat): int
  {
    if axis == 0 then t.minx else if axis == 1 then t.miny else 0
  }

  lemma TransformAxis(t: Triangulation, digits: nat, axis: nat)
    requires axis < 3
    ensures TransformFor(t, digits).scale[axis] == 1.0 / Pow10(digits) as real
    ensures TransformFor(t, digits).translate[axis] == Offset(t, axis) as real / Pow10(t.prec) as real
  {
  }

  /**
   * Decoding one axis with the document's transform: an integer that is the
   * translated coordinate scaled exactly gives back the coordinate.
   */
  lemma TransformDecodes(t: Triangulation, digits: nat, axis: nat, q: int, v: int)
    requires axis < 3
    requires q * Pow10(t.prec) == (v - Offset(t, axis)) * Pow10(digits)
    ensures var tr := TransformFor(t, digits);
      q as real * tr.scale[axis] + tr.translate[axis] == AsReal(v, t.prec)
  {
    TransformAxis(t, digits, axis);
    ExactDecode(q, v, Offset(t, axis), Pow10(digits), Pow10(t.prec));
  }

  /**
   * With at least as many digits as the coordinates carry, every emitted
   * integer is the translated coordinate scaled exactly (so decoding it with
   * `TransformDecodes` gives back the coordinate).
   */
  lemma DecodeIsExact(t: Triangulation, digits: nat, i: nat)
    requires 1 <= i < |t.vertices| && digits >= t.prec
    requires CityVertex(t, digits, i).Ok?
    ensures var q, p := CityVertex(t, digits, i).value, EmittedPoint(t, i).value;
      q[0] * Pow10(t.prec) == (p.x - t.minx) * Pow10(digits)
      && q[1] * Pow10(t.prec) == (p.y - t.miny) * Pow10(digits)
      && q[2] * Pow10(t.prec) == (p.z - 0) * Pow10(digits)
  {
    var p := EmittedPoint(t, i).value;
    RoundedExact(p.x - t.minx, t.prec, digits);
    RoundedExact(p.y - t.miny, t.prec, digits);
    RoundedExact(p.z, t.prec, digits);
  }

  /**
   * With fewer digits than the coordinates carry, each emitted integer is
   * within half a 10^-digits unit of the translated coordinate.
   */
  lemma DecodeIsNearest(t: Triangulation, digits: nat, i: nat)
    requires 1 <= i < |t.vertices| && digits < t.prec
    requires CityVertex(t, digits, i).Ok?
    ensures var q, p, u := CityVertex(t, digits, i).value, EmittedPoint(t, i).value, Pow10(t.prec - digits);
      2 * Abs(q[0] * u - (p.x - t.minx)) <= u
      && 2 * Abs(q[1] * u - (p.y - t.miny)) <= u
      && 2 * Abs(q[2] * u - p.z) <= u
  {
    var p := EmittedPoint(t, i).value;
    RoundedNearest(p.x - t.minx, t.prec, digits);
    RoundedNearest(p.y - t.miny, t.prec, digits);
    RoundedNearest(p.z, t.prec, digits);
  }

  /** When (minx, miny) bounds every live vertex from below, emitted x and y are never negative. */
  lemma TranslatedCoordinatesNonNegative(t: Triangulation, digits: nat, i: nat)
    requires 1 <= i < |t.vertices|
    requires forall j: nat :: Live(t, j) ==> t.minx <= t.vertices[j].x && t.miny <= t.vertices[j].y
    requires CityVertex(t, digits, i).Ok?
    ensures CityVertex(t, digits, i).value[0] >= 0 && CityVertex(t, digits, i).value[1] >= 0
  {
    PlaceholderIsFirstLive(t);
    var p := EmittedPoint(t, i).value;
    assert t.minx <= p.x && t.miny <= p.y by {
      if i in t.removed {
        assert Live(t, Placeholder(t).value);
      } else {
        assert Live(t, i);
      }
    }
  }

  /**
   * Every boundary index of the document points inside the emitted vertex
   * array, at the triple of the triangle's own (live) vertex.
   */
  lemma BoundaryIndexRefersToOwnVertex(t: Triangulation, digits: nat, k: nat, c: nat)
    requires Valid(t) && k < |t.triangles| && c < 3
    ensures var b := Shifted(t.triangles[k])[c];
      0 <= b < |t.vertices| - 1 && EmittedPoint(t, b + 1) == Some(t.vertices[b + 1])
      && Live(t, b + 1)
  {
    assert TriangleLive(t, t.triangles[k]);
  }
}
