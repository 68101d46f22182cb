/**
 * The triangulation as the binding sees it: a snapshot of what the startin
 * engine exposes to the exporters (vertex table, removed flags, bounding-box
 * minimum and finite triangles).
 *
 * Coordinates are exact decimals: every coordinate of one triangulation is an
 * integer number of units of 10^-prec.
 */
module Tin {
  import opened Outcomes

  /** A vertex [x, y, z], each coordinate in units of 10^-prec. */
  datatype Point3 = Point3(x: int, y: int, z: int)

  /** A finite triangle: three indices into the vertex table. */
  datatype Triangle = Triangle(v0: nat, v1: nat, v2: nat)

  /**
   * `vertices[0]` is the infinite vertex; `removed` holds the indices of the
   * vertices deleted but still kept in the table; `(minx, miny)` is the
   * lower-left corner of the bounding box; `triangles` lists the finite
   * triangles in the engine's enumeration order.
   */
  datatype Triangulation = Triangulation(
    prec: nat,
    vertices: seq<Point3>,
    removed: set<nat>,
    minx: int,
    miny: int,
    triangles: seq<Triangle>)

  /** Vertex `i` is a real (finite, not removed) vertex. */
  predicate Live(t: Triangulation, i: nat)
  {
    1 <= i < |t.vertices| && i !in t.removed
  }

  predicate TriangleLive(t: Triangulation, tr: Triangle)
  {
    Live(t, tr.v0) && Live(t, tr.v1) && Live(t, tr.v2)
  }

  /**
   * What the engine guarantees: the infinite vertex is always in the table,
   * and finite triangles only reference live vertices.
   */
  predicate Valid(t: Triangulation)
  {
    |t.vertices| >= 1
    && forall k :: 0 <= k < |t.triangles| ==> TriangleLive(t, t.triangles[k])
  }

  /** The first live vertex with index at least `i`, if any. */
  function FirstLiveFrom(t: Triangulation, i: nat): (r: Option<nat>)
    requires i >= 1
    ensures r.Some? ==> i <= r.value && Live(t, r.value)
    decreases |t.vertices| - i
  {
    if i >= |t.vertices| then None
    else if i !in t.removed then Some(i)
    else FirstLiveFrom(t, i + 1)
  }

  /**
   * The placeholder used by the CityJSON writer for removed vertices: the
   * first live vertex of the table (index 0 is never chosen).
   */
  function Placeholder(t: Triangulation): Option<nat>
  {
    FirstLiveFrom(t, 1)
  }

  lemma {:induction false} FirstLiveFromIsFirst(t: Triangulation, i: nat)
    requires i >= 1
    ensures FirstLiveFrom(t, i).Some? ==>
      forall j: nat :: i <= j < FirstLiveFrom(t, i).value ==> !Live(t, j)
    ensures FirstLiveFrom(t, i).None? ==> forall j: nat :: i <= j ==> !Live(t, j)
    decreases |t.vertices| - i
  {
    if i < |t.vertices| && i in t.removed {
      FirstLiveFromIsFirst(t, i + 1);
    }
  }

  /**
   * The placeholder is the live vertex of least index, and there is none
   * exactly when no vertex is live.
   */
  lemma PlaceholderIsFirstLive(t: Triangulation)
    ensures Placeholder(t).Some? <==> exists j: nat :: Live(t, j)
    ensures Placeholder(t).Some? ==>
      Live(t, Placeholder(t).value) && forall j: nat :: j < Placeholder(t).value ==> !Live(t, j)
  {
    FirstLiveFromIsFirst(t, 1);
  }
}
