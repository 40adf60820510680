/**
 The fill rule of the triangle rasterizer, in exact integer arithmetic: vertices in sixteenths
 of a pixel, samples at pixel centres, the y axis pointing down.
 */
module RasterCoverage {

  datatype Point = Point(x: int, y: int)

  const MAX_COORD := 4096

  /** Twice the signed area of the triangle a, b, p. */
  function Edge(a: Point, b: Point, p: Point): int {
    (b.x - a.x) * (p.y - a.y) - (b.y - a.y) * (p.x - a.x)
  }

  /** Samples exactly on a left or top edge belong to the triangle. */
  predicate Inclusive(a: Point, b: Point) { b.y < a.y || (b.y == a.y && b.x > a.x) }

  predicate Passes(a: Point, b: Point, p: Point) {
    Edge(a, b, p) > 0 || (Edge(a, b, p) == 0 && Inclusive(a, b))
  }

  /** Coverage by a triangle of positive orientation. */
  predicate InsideAll(a: Point, b: Point, c: Point, p: Point) {
    Passes(a, b, p) && Passes(b, c, p) && Passes(c, a, p)
  }

  /** The rasterizer first turns the triangle round if its orientation is negative. */
  predicate Covers(a: Point, b: Point, c: Point, p: Point) {
    var area := Edge(a, b, c);
    area != 0 && if area < 0 then InsideAll(a, c, b, p) else InsideAll(a, b, c, p)
  }

  // ---- Algebra of the edge function ----

  lemma EdgeFlips(a: Point, b: Point, p: Point)
    ensures Edge(b, a, p) == -Edge(a, b, p)
  {
    var u, v, w, z := b.x - a.x, b.y - a.y, p.x - a.x, p.y - a.y;
    assert Edge(a, b, p) == u * z - v * w;
    assert Edge(b, a, p) == -u * (z - v) - -v * (w - u);
    assert -u * (z - v) == -(u * z) + u * v;
    assert -v * (w - u) == -(v * w) + v * u;
  }

  lemma EdgeRotates(a: Point, b: Point, c: Point)
    ensures Edge(b, c, a) == Edge(a, b, c)
  {
    var u, v, w, z := b.x - a.x, b.y - a.y, c.x - a.x, c.y - a.y;
    assert Edge(a, b, c) == u * z - v * w;
    assert Edge(b, c, a) == (w - u) * -v - (z - v) * -u;
    assert (w - u) * -v == -(w * v) + u * v;
    assert (z - v) * -u == -(z * u) + v * u;
  }

  /** Coordinates within the limit keep every intermediate value far inside 64 bits. */
  lemma EdgeFits(a: Point, b: Point, p: Point)
    requires -MAX_COORD <= a.x <= MAX_COORD && -MAX_COORD <= a.y <= MAX_COORD
    requires -MAX_COORD <= b.x <= MAX_COORD && -MAX_COORD <= b.y <= MAX_COORD
    requires -MAX_COORD <= p.x <= MAX_COORD && -MAX_COORD <= p.y <= MAX_COORD
    ensures -0x1000_0000 <= Edge(a, b, p) <= 0x1000_0000
  {
    ProductBound(b.x - a.x, p.y - a.y, 2 * MAX_COORD);
    ProductBound(b.y - a.y, p.x - a.x, 2 * MAX_COORD);
  }

  lemma ProductBound(x: int, y: int, n: int)
    requires n >= 0 && -n <= x <= n && -n <= y <= n
    ensures -(n * n) <= x * y <= n * n
  {
    assert (n - x) * (n + y) >= 0 && (n + x) * (n - y) >= 0;
    assert (n - x) * (n - y) >= 0 && (n + x) * (n + y) >= 0;
    assert (n - x) * (n + y) + (n + x) * (n - y) == 2 * (n * n) - 2 * (x * y);
    assert (n - x) * (n - y) + (n + x) * (n + y) == 2 * (n * n) + 2 * (x * y);
  }

  // ---- Vertex order ----

  lemma RotationSame(a: Point, b: Point, c: Point, p: Point)
    ensures Covers(a, b, c, p) == Covers(b, c, a, p)
  {
    hide Passes, Edge;
    EdgeRotates(a, b, c);
  }

  lemma SwapSame(a: Point, b: Point, c: Point, p: Point)
    ensures Covers(a, b, c, p) == Covers(a, c, b, p)
  {
    hide Passes, Edge;
    EdgeFlips(a, b, c);
    EdgeRotates(b, a, c);
  }

  /** Coverage does not depend on the order in which the vertices are given. */
  lemma OrderDoesNotMatter(a: Point, b: Point, c: Point, p: Point)
    ensures Covers(a, b, c, p) == Covers(b, c, a, p) == Covers(c, a, b, p)
    ensures Covers(a, b, c, p) == Covers(a, c, b, p) == Covers(c, b, a, p)
    ensures Covers(a, b, c, p) == Covers(b, a, c, p)
  {
    hide Covers;
    RotationSame(a, b, c, p);
    RotationSame(b, c, a, p);
    SwapSame(a, b, c, p);
    RotationSame(a, c, b, p);
    RotationSame(c, b, a, p);
  }

  // ---- Shared edges ----

  /** The two directions of an edge split the samples of the plane between them. */
  lemma EdgeSplits(a: Point, b: Point, p: Point)
    requires a != b
    ensures Passes(a, b, p) <==> !Passes(b, a, p)
  {
    hide Edge;
    EdgeFlips(a, b, p);
  }

  lemma Degenerate(a: Point, b: Point, c: Point)
    requires Edge(a, b, c) != 0
    ensures a != b && b != c && a != c
  {
  }

  /** Two triangles on opposite sides of a shared edge never cover the same sample. */
  lemma NoOverlap(a: Point, b: Point, c: Point, d: Point, p: Point)
    requires Edge(a, b, c) > 0 && Edge(a, b, d) < 0
    ensures !(Covers(a, b, c, p) && Covers(a, b, d, p))
  {
    hide Edge, Passes;
    Degenerate(a, b, c);
    EdgeSplits(a, b, p);
  }

  /** Whatever lies inside the four outer edges is covered by exactly one of the two triangles. */
  lemma NoGap(a: Point, b: Point, c: Point, d: Point, p: Point)
    requires Edge(a, b, c) > 0 && Edge(a, b, d) < 0
    requires Passes(b, c, p) && Passes(c, a, p) && Passes(a, d, p) && Passes(d, b, p)
    ensures Covers(a, b, c, p) != Covers(a, b, d, p)
  {
    hide Edge, Passes;
    Degenerate(a, b, c);
    EdgeSplits(a, b, p);
  }

  /** `p` lies on the segment from `a` to `b`, strictly between its ends. */
  predicate Between(a: Point, b: Point, p: Point) {
    && Edge(a, b, p) == 0 && p != a && p != b
    && (a.x <= p.x <= b.x || b.x <= p.x <= a.x) && (a.y <= p.y <= b.y || b.y <= p.y <= a.y)
  }

  /** On the line through a and b the far edges scale with the distance from their own end. */
  lemma EdgeScales(a: Point, b: Point, c: Point, p: Point)
    requires Edge(a, b, p) == 0
    ensures Edge(b, c, p) * (b.x - a.x) == Edge(a, b, c) * (b.x - p.x)
    ensures Edge(b, c, p) * (b.y - a.y) == Edge(a, b, c) * (b.y - p.y)
  {
    var u, v := b.x - a.x, b.y - a.y;
    var w, z := c.x - a.x, c.y - a.y;
    var s, t := p.x - a.x, p.y - a.y;
    assert u * t == v * s;
    var e := (w - u) * (t - v) - (z - v) * (s - u);
    assert Edge(b, c, p) == e;
    assert e == w * t - w * v - u * t - z * s + z * u + v * s by { Expand(w, u, t, v, z, s); }
    assert e == w * t - w * v - z * s + z * u;
    ScaleX(u, v, w, z, s, t);
    ScaleY(u, v, w, z, s, t);
  }

  lemma Expand(w: int, u: int, t: int, v: int, z: int, s: int)
    ensures (w - u) * (t - v) - (z - v) * (s - u) == w * t - w * v - u * t - z * s + z * u + v * s
  {
    assert (w - u) * (t - v) == w * t - w * v - u * t + u * v;
    assert (z - v) * (s - u) == z * s - z * u - v * s + v * u;
  }

  lemma ScaleX(u: int, v: int, w: int, z: int, s: int, t: int)
    requires u * t == v * s
    ensures (w * t - w * v - z * s + z * u) * u == (u * z - v * w) * (u - s)
  {
    assert (w * t) * u == w * (u * t) == w * (v * s);
    assert (w * t - w * v - z * s + z * u) * u == w * (v * s) - (w * v) * u - (z * s) * u + (z * u) * u;
    assert (u * z - v * w) * (u - s) == (u * z) * u - (u * z) * s - (v * w) * u + (v * w) * s;
    assert w * (v * s) == (v * w) * s && (z * s) * u == (u * z) * s && (z * u) * u == (u * z) * u && (w * v) * u == (v * w) * u;
  }

  lemma ScaleY(u: int, v: int, w: int, z: int, s: int, t: int)
    requires u * t == v * s
    ensures (w * t - w * v - z * s + z * u) * v == (u * z - v * w) * (v - t)
  {
    assert (z * s) * v == z * (v * s) == z * (u * t);
    assert (w * t - w * v - z * s + z * u) * v == (w * t) * v - (w * v) * v - z * (u * t) + (z * u) * v;
    assert (u * z - v * w) * (v - t) == (u * z) * v - (u * z) * t - (v * w) * v + (v * w) * t;
    assert z * (u * t) == (u * z) * t && (w * t) * v == (v * w) * t && (w * v) * v == (v * w) * v && (z * u) * v == (u * z) * v;
  }

  lemma PositiveFactor(e: int, u: int, area: int, k: int)
    requires e * u == area * k && area > 0 && ((u > 0 && k > 0) || (u < 0 && k < 0))
    ensures e > 0
  {
    Signs(e, u);
    Signs(area, k);
  }

  lemma Signs(x: int, y: int)
    ensures x > 0 && y > 0 ==> x * y > 0
    ensures x > 0 && y < 0 ==> x * y < 0
    ensures x <= 0 && y > 0 ==> x * y <= 0
    ensures x <= 0 && y < 0 ==> x * y >= 0
  {
  }

  /** Inside the shared edge the far edges of a triangle are strictly positive. */
  lemma FarEdgePositive(a: Point, b: Point, c: Point, p: Point)
    requires Edge(a, b, c) > 0 && Between(a, b, p)
    ensures Edge(b, c, p) > 0
  {
    EdgeScales(a, b, c, p);
    if b.x != a.x && b.x != p.x {
      PositiveFactor(Edge(b, c, p), b.x - a.x, Edge(a, b, c), b.x - p.x);
    } else {
      BetweenOther(a, b, p);
      PositiveFactor(Edge(b, c, p), b.y - a.y, Edge(a, b, c), b.y - p.y);
    }
  }

  lemma BetweenOther(a: Point, b: Point, p: Point)
    requires Between(a, b, p) && (b.x == a.x || b.x == p.x)
    ensures b.y != p.y && b.y != a.y
  {
  }

  /** Every sample inside the shared edge is covered by exactly one of the two triangles. */
  lemma SharedEdgeIsWatertight(a: Point, b: Point, c: Point, d: Point, p: Point)
    requires Edge(a, b, c) > 0 && Edge(a, b, d) < 0 && Between(a, b, p)
    ensures Covers(a, b, c, p) != Covers(a, b, d, p)
  {
    FarEdgePositive(a, b, c, p);
    EdgeFlips(a, b, c);
    BetweenFlips(a, b, p);
    NearEdgePositive(a, b, c, p);
    EdgeFlips(a, b, d);
    EdgeRotates(b, a, d);
    FarEdgePositive(b, a, d, p);
    NearEdgePositive(b, a, d, p);
    hide Edge, Between;
    NoGap(a, b, c, d, p);
  }

  lemma BetweenFlips(a: Point, b: Point, p: Point)
    requires Between(a, b, p)
    ensures Between(b, a, p)
  {
    EdgeFlips(a, b, p);
  }

  lemma NearEdgePositive(a: Point, b: Point, c: Point, p: Point)
    requires Edge(a, b, c) > 0 && Between(a, b, p)
    ensures Edge(c, a, p) > 0
  {
    var sum := Edge(a, b, p) + Edge(b, c, p) + Edge(c, a, p);
    EdgeSum(a, b, c, p);
    EdgeBelow(a, b, c, p);
  }

  lemma EdgeSum(a: Point, b: Point, c: Point, p: Point)
    ensures Edge(a, b, p) + Edge(b, c, p) + Edge(c, a, p) == Edge(a, b, c)
  {
    var w, z := c.x - a.x, c.y - a.y;
    var u, v := b.x - a.x, b.y - a.y;
    var s, t := p.x - a.x, p.y - a.y;
    assert Edge(a, b, p) == u * t - v * s && Edge(a, b, c) == u * z - v * w;
    assert Edge(b, c, p) == (w - u) * (t - v) - (z - v) * (s - u);
    Expand(w, u, t, v, z, s);
    assert Edge(c, a, p) == -w * (t - z) - -z * (s - w);
    assert -w * (t - z) == -(w * t) + w * z && -z * (s - w) == -(z * s) + z * w;
  }

  /** The far edge stays below the whole area. */
  lemma EdgeBelow(a: Point, b: Point, c: Point, p: Point)
    requires Edge(a, b, c) > 0 && Between(a, b, p)
    ensures Edge(b, c, p) < Edge(a, b, c)
  {
    EdgeScales(a, b, c, p);
    var area, e := Edge(a, b, c), Edge(b, c, p);
    if b.x != a.x && p.x != a.x {
      SmallFactor(e, b.x - a.x, area, b.x - p.x);
    } else {
      BetweenFlips(a, b, p);
      BetweenOther(b, a, p);
      SmallFactor(e, b.y - a.y, area, b.y - p.y);
    }
  }

  lemma SmallFactor(e: int, u: int, area: int, k: int)
    requires e * u == area * k && area > 0 && ((0 <= k < u) || (u < k <= 0))
    ensures e < area
  {
    Signs(area, u - k);
    Signs(e - area, u);
    assert area * (u - k) == area * u - area * k && (e - area) * u == e * u - area * u;
  }

  // ---- A sample on a vertex ----

  /** Seen from `v`, the direction of `d` lies between those of `r` (included) and `s` (excluded). */
  predicate InSector(v: Point, r: Point, s: Point, d: Point) { Edge(v, r, d) >= 0 && Edge(v, d, s) > 0 }

  function Next(i: nat, n: nat): nat { if i + 1 < n then i + 1 else 0 }

  predicate SectorHas(v: Point, ring: seq<Point>, i: nat, d: Point)
    requires i < |ring|
  {
    InSector(v, ring[i], ring[Next(i, |ring|)], d)
  }

  ghost predicate InSomeSector(v: Point, ring: seq<Point>, d: Point) {
    exists i: nat :: i < |ring| && SectorHas(v, ring, i, d)
  }

  /** The triangles `v`, `ring[i]`, `ring[i + 1]` form a closed fan: every direction from `v` lies in exactly one. */
  ghost predicate ClosedFan(v: Point, ring: seq<Point>) {
    && (forall i: nat {:trigger ring[i]} :: i < |ring| ==> Edge(v, ring[i], ring[Next(i, |ring|)]) > 0)
    && (forall d :: d != v ==> InSomeSector(v, ring, d))
    && (forall d, i: nat, j: nat ::
          d != v && i < |ring| && j < |ring| && SectorHas(v, ring, i, d) && SectorHas(v, ring, j, d) ==> i == j)
  }

  /** A triangle covers its own vertex exactly if its sector contains the direction to the right. */
  lemma VertexRule(v: Point, r: Point, s: Point)
    requires Edge(v, r, s) > 0
    ensures Covers(v, r, s, v) <==> InSector(v, r, s, Point(v.x + 1, v.y))
  {
    var rx, ry, sx, sy := r.x - v.x, r.y - v.y, s.x - v.x, s.y - v.y;
    assert Edge(v, r, s) == rx * sy - ry * sx;
    assert Edge(v, r, v) == 0 && Edge(s, v, v) == 0;
    EdgeRotates(v, r, s);
    assert Edge(r, s, v) > 0;
    assert Edge(v, r, Point(v.x + 1, v.y)) == -ry && Edge(v, Point(v.x + 1, v.y), s) == sy;
    Signs(rx, sy);
    Signs(ry, sx);
  }

  /** A sample on the common vertex of a closed fan is covered by exactly one of its triangles. */
  lemma FanCoversVertexOnce(v: Point, ring: seq<Point>) returns (k: nat)
    requires ClosedFan(v, ring)
    ensures k < |ring|
    ensures forall i :: 0 <= i < |ring| ==> (Covers(v, ring[i], ring[Next(i, |ring|)], v) <==> i == k)
  {
    hide Covers, InSector, Edge;
    var d := Point(v.x + 1, v.y);
    assert InSomeSector(v, ring, d);
    k :| k < |ring| && SectorHas(v, ring, k, d);
    forall i | 0 <= i < |ring| ensures Covers(v, ring[i], ring[Next(i, |ring|)], v) <==> i == k {
      VertexRule(v, ring[i], ring[Next(i, |ring|)]);
      assert i == k || !SectorHas(v, ring, i, d);
    }
  }

  const COMPASS := [Point(1, 0), Point(0, 1), Point(-1, 0), Point(0, -1)]

  lemma CompassSectors(d: Point)
    ensures SectorHas(Point(0, 0), COMPASS, 0, d) <==> d.x > 0 && d.y >= 0
    ensures SectorHas(Point(0, 0), COMPASS, 1, d) <==> d.x <= 0 && d.y > 0
    ensures SectorHas(Point(0, 0), COMPASS, 2, d) <==> d.x < 0 && d.y <= 0
    ensures SectorHas(Point(0, 0), COMPASS, 3, d) <==> d.x >= 0 && d.y < 0
  {
  }

  /** Four triangles round the origin are such a fan. */
  lemma CompassIsClosed()
    ensures ClosedFan(Point(0, 0), COMPASS)
  {
    hide SectorHas;
    forall d | d != Point(0, 0) ensures InSomeSector(Point(0, 0), COMPASS, d) {
      CompassSectors(d);
    }
    forall d, i: nat, j: nat
      | d != Point(0, 0) && i < 4 && j < 4 && SectorHas(Point(0, 0), COMPASS, i, d) && SectorHas(Point(0, 0), COMPASS, j, d)
      ensures i == j
    {
      CompassSectors(d);
      assert i == 0 || i == 1 || i == 2 || i == 3;
      assert j == 0 || j == 1 || j == 2 || j == 3;
    }
  }
}
