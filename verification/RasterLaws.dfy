/**
 What the fill rule, the depth test and the blending come to, said without the edge function's
 tie rule, the comparison table or the blending formula.
 */
module RasterLaws {
  import opened RasterCoverage
  import opened RasterDraw

  // ---- The triangle as a set of points ----

  /** `p` is the mean of the vertices with these weights. */
  predicate Balances(a: Point, b: Point, c: Point, p: Point, u: int, v: int, w: int) {
    && u * (a.x - p.x) + v * (b.x - p.x) + w * (c.x - p.x) == 0
    && u * (a.y - p.y) + v * (b.y - p.y) + w * (c.y - p.y) == 0
  }

  predicate Collinear(a: Point, b: Point, c: Point) { (b.x - a.x) * (c.y - a.y) == (b.y - a.y) * (c.x - a.x) }

  function Cross(a1: int, a2: int, b1: int, b2: int): int { a1 * b2 - a2 * b1 }

  /** Seen from `p`, an edge value is a cross product. */
  lemma EdgeSeen(a: Point, b: Point, p: Point)
    ensures Edge(a, b, p) == Cross(a.x - p.x, a.y - p.y, b.x - p.x, b.y - p.y)
  {
    var a1, a2, b1, b2 := a.x - p.x, a.y - p.y, b.x - p.x, b.y - p.y;
    assert Edge(a, b, p) == (b1 - a1) * -a2 - (b2 - a2) * -a1;
    assert (b1 - a1) * -a2 == -(b1 * a2) + a1 * a2 && (b2 - a2) * -a1 == -(b2 * a1) + a2 * a1;
  }

  /** If a weighted sum vanishes, so does its cross product with the first vector. */
  lemma CrossOut(u: int, a1: int, a2: int, v: int, b1: int, b2: int, w: int, c1: int, c2: int)
    requires u * a1 + v * b1 + w * c1 == 0 && u * a2 + v * b2 + w * c2 == 0
    ensures v * Cross(a1, a2, b1, b2) == w * Cross(c1, c2, a1, a2)
  {
    assert a1 * (u * a2 + v * b2 + w * c2) - a2 * (u * a1 + v * b1 + w * c1) == 0;
    assert a1 * (u * a2 + v * b2 + w * c2) == u * (a1 * a2) + v * (a1 * b2) + w * (a1 * c2);
    assert a2 * (u * a1 + v * b1 + w * c1) == u * (a1 * a2) + v * (a2 * b1) + w * (a2 * c1);
    assert v * Cross(a1, a2, b1, b2) == v * (a1 * b2) - v * (a2 * b1);
    assert w * Cross(c1, c2, a1, a2) == w * (c1 * a2) - w * (c2 * a1);
  }

  lemma SameSign(v: int, x: int, w: int, y: int)
    requires v > 0 && w > 0 && v * x == w * y
    ensures (x > 0 <==> y > 0) && (x < 0 <==> y < 0)
  {
    Signs(x, v);
    Signs(y, w);
    assert x * v == v * x && y * w == w * y;
  }

  /** Every sample inside the triangle, with all three weights positive, is covered. */
  lemma InteriorIsCovered(a: Point, b: Point, c: Point, p: Point, u: int, v: int, w: int)
    requires !Collinear(a, b, c) && u > 0 && v > 0 && w > 0 && Balances(a, b, c, p, u, v, w)
    ensures Covers(a, b, c, p)
  {
    EdgeSeen(a, b, p);
    EdgeSeen(b, c, p);
    EdgeSeen(c, a, p);
    EdgeSum(a, b, c, p);
    CrossOut(u, a.x - p.x, a.y - p.y, v, b.x - p.x, b.y - p.y, w, c.x - p.x, c.y - p.y);
    CrossOut(v, b.x - p.x, b.y - p.y, w, c.x - p.x, c.y - p.y, u, a.x - p.x, a.y - p.y);
    var e, f, g := Edge(a, b, p), Edge(b, c, p), Edge(c, a, p);
    SameSign(v, e, w, g);
    SameSign(w, f, u, e);
    assert Edge(a, b, c) != 0 by { AreaIs(a, b, c); }
    hide Edge;
    if Edge(a, b, c) < 0 {
      EdgeFlips(a, b, p);
      EdgeFlips(b, c, p);
      EdgeFlips(c, a, p);
    }
  }

  lemma AreaIs(a: Point, b: Point, c: Point)
    ensures Edge(a, b, c) == 0 <==> Collinear(a, b, c)
  {
  }

  /** Every covered sample lies in the triangle or on its rim. */
  lemma CoveredIsInside(a: Point, b: Point, c: Point, p: Point) returns (u: int, v: int, w: int)
    requires Covers(a, b, c, p)
    ensures !Collinear(a, b, c) && u >= 0 && v >= 0 && w >= 0 && u + v + w > 0 && Balances(a, b, c, p, u, v, w)
  {
    AreaIs(a, b, c);
    EdgeSum(a, b, c, p);
    EdgeSeen(a, b, p);
    EdgeSeen(b, c, p);
    EdgeSeen(c, a, p);
    Weighted(a.x - p.x, a.y - p.y, b.x - p.x, b.y - p.y, c.x - p.x, c.y - p.y);
    u, v, w := Edge(b, c, p), Edge(c, a, p), Edge(a, b, p);
    hide Edge, Inclusive;
    if Edge(a, b, c) < 0 {
      EdgeFlips(a, b, p);
      EdgeFlips(b, c, p);
      EdgeFlips(c, a, p);
      Negated(u, a.x - p.x, v, b.x - p.x, w, c.x - p.x);
      Negated(u, a.y - p.y, v, b.y - p.y, w, c.y - p.y);
      u, v, w := -u, -v, -w;
    }
  }

  lemma Negated(u: int, x: int, v: int, y: int, w: int, z: int)
    requires u * x + v * y + w * z == 0
    ensures -u * x + -v * y + -w * z == 0
  {
    assert -u * x == -(u * x) && -v * y == -(v * y) && -w * z == -(w * z);
  }

  lemma Weighted(a1: int, a2: int, b1: int, b2: int, c1: int, c2: int)
    ensures Cross(b1, b2, c1, c2) * a1 + Cross(c1, c2, a1, a2) * b1 + Cross(a1, a2, b1, b2) * c1 == 0
    ensures Cross(b1, b2, c1, c2) * a2 + Cross(c1, c2, a1, a2) * b2 + Cross(a1, a2, b1, b2) * c2 == 0
  {
    assert Cross(b1, b2, c1, c2) * a1 == b1 * c2 * a1 - b2 * c1 * a1;
    assert Cross(c1, c2, a1, a2) * b1 == c1 * a2 * b1 - c2 * a1 * b1;
    assert Cross(a1, a2, b1, b2) * c1 == a1 * b2 * c1 - a2 * b1 * c1;
    assert Cross(b1, b2, c1, c2) * a2 == b1 * c2 * a2 - b2 * c1 * a2;
    assert Cross(c1, c2, a1, a2) * b2 == c1 * a2 * b2 - c2 * a1 * b2;
    assert Cross(a1, a2, b1, b2) * c2 == a1 * b2 * c2 - a2 * b1 * c2;
  }

  /**
   The tie rule: a sample on an edge belongs to the side that one step to the right leads into,
   or, along a horizontal edge, one step down.
   */
  lemma TieRule(a: Point, b: Point, p: Point)
    requires Edge(a, b, p) == 0
    ensures var right, down := Edge(a, b, Point(p.x + 1, p.y)), Edge(a, b, Point(p.x, p.y + 1));
      Passes(a, b, p) <==> right > 0 || (right == 0 && down > 0)
  {
    var u, v := b.x - a.x, b.y - a.y;
    assert Edge(a, b, Point(p.x + 1, p.y)) == Edge(a, b, p) - v by { Distribute(v, p.x - a.x); }
    assert Edge(a, b, Point(p.x, p.y + 1)) == Edge(a, b, p) + u by { Distribute(u, p.y - a.y); }
  }

  lemma Distribute(k: int, x: int)
    ensures k * (x + 1) == k * x + k
  {
  }

  /** Every proper mean of two different vertices lies between them on their edge. */
  lemma BetweenRule(a: Point, b: Point, p: Point, u: int, v: int)
    requires a != b && u > 0 && v > 0
    requires u * (a.x - p.x) + v * (b.x - p.x) == 0 && u * (a.y - p.y) + v * (b.y - p.y) == 0
    ensures Between(a, b, p)
  {
    EdgeSeen(a, b, p);
    CrossOut(u, a.x - p.x, a.y - p.y, v, b.x - p.x, b.y - p.y, 0, 0, 0);
    assert Edge(a, b, p) == 0 by { Vanishes(v, Edge(a, b, p)); }
    Opposite(u, a.x - p.x, v, b.x - p.x);
    Opposite(u, a.y - p.y, v, b.y - p.y);
  }

  lemma Vanishes(v: int, x: int)
    requires v > 0 && v * x == 0
    ensures x == 0
  {
    Signs(x, v);
    Signs(-x, v);
    assert x * v == v * x && -x * v == -(v * x);
  }

  /** Two differences whose positive multiples cancel point apart, or both vanish. */
  lemma Opposite(u: int, x: int, v: int, y: int)
    requires u > 0 && v > 0 && u * x + v * y == 0
    ensures (x < 0 && y > 0) || (x > 0 && y < 0) || (x == 0 && y == 0)
  {
    Signs(x, u);
    Signs(y, v);
    Signs(-x, u);
    Signs(-y, v);
    assert u * x == x * u && v * y == y * v && -x * u == -(x * u) && -y * v == -(y * v);
  }

  // ---- Depth ----

  /** "Less" takes what is nearer, "less or equal" also what is as near, the others everything. */
  lemma DepthRule(z: real, previous: real, nearer: real)
    requires nearer > 0.0
    ensures previous - z == nearer ==> DepthPasses(TestLess, z, previous) && DepthPasses(TestLessEqual, z, previous)
    ensures previous == z ==> !DepthPasses(TestLess, z, previous) && DepthPasses(TestLessEqual, z, previous)
    ensures z - previous == nearer ==> !DepthPasses(TestLess, z, previous) && !DepthPasses(TestLessEqual, z, previous)
    ensures DepthPasses(TestAlways, z, previous) && DepthPasses(TestOff, z, previous)
  {
  }

  /** Interpolated depth is moved into the unit interval, as little as possible. */
  lemma ClampRule(z: real)
    ensures 0.0 <= Clamp(z) <= 1.0 && (0.0 <= z <= 1.0 ==> Clamp(z) == z)
    ensures Clamp(z) > z ==> Clamp(z) == 0.0
    ensures Clamp(z) < z ==> Clamp(z) == 1.0
  {
  }

  // ---- How a quad goes ----

  /** A quad goes well exactly if its depths are finite and the shader, where it runs, keeps its promises. */
  lemma QuadRule(d: Draw, depth: Grid<real>, x: nat, y: nat)
    requires Rect(depth, d)
    ensures var passing := Passing(d, depth, x, y);
      QuadStatus(d, depth, x, y) == Ok <==>
        && (forall lane :: lane in Coverage(d, x, y) ==> d.depthAt(SampleX(x, lane), SampleY(y, lane)).Some?)
        && (passing != {} ==>
              var reply := d.shader(x, y, passing);
              reply.error == 0 && reply.outputs == 1 && forall lane :: lane in reply.live ==> lane in passing && lane in reply.color)
  {
    hide Passing, Coverage, SampleX, SampleY;
  }

  /** The shader's codes 1 to 7 come back as such, any other code and any broken promise as bad output. */
  lemma ReplyRule(reply: Reply, passing: set<nat>)
    ensures var status := ReplyStatus(reply, passing);
      && (forall code :: status == ShaderError(code) <==> reply.error == code && 1 <= code <= 7)
      && (status == Unsupported <==> reply.error == 0 && reply.outputs != 1)
      && status in {Ok, Unsupported, BadOutput, ShaderError(reply.error)}
  {
  }

  /** Samples fail the test, are discarded by the shader, or are written; the rest lie outside. */
  lemma FateRule(d: Draw, depth: Grid<real>, x: nat, y: nat, lane: nat)
    requires Rect(depth, d) && x % 2 == 0 && y % 2 == 0 && lane < 4 && QuadStatus(d, depth, x, y) == Ok
    ensures var fate, passing := FateOf(d, depth, SampleX(x, lane), SampleY(y, lane)), Passing(d, depth, x, y);
      && (fate != Outside <==> lane in Coverage(d, x, y))
      && (fate == Discarded || fate == Stored <==> lane in passing)
      && (fate == Stored <==> passing != {} && lane in d.shader(x, y, passing).live)
  {
    LaneSample(x, y, lane);
    hide SampleX, SampleY, LaneOf, Even, SampleCovered, DepthPasses, Clamp;
    var passing := Passing(d, depth, x, y);
    if passing != {} && lane in d.shader(x, y, passing).live {
      assert lane in passing;
    }
  }

  /** Every further row needs eight bytes a sample: four for the colour and four for the depth. */
  lemma ScratchRule(width: nat, height: nat)
    ensures ScratchBytes(width, 0) == 0 && ScratchBytes(width, height + 1) == ScratchBytes(width, height) + 8 * width
  {
    assert width * (height + 1) == width * height + width;
  }

  // ---- Blending ----

  predicate IsByte(v: int) { 0 <= v <= 255 }

  predicate Bytes(c: Rgba) { IsByte(c.r) && IsByte(c.g) && IsByte(c.b) && IsByte(c.a) }

  /** `out` is the quotient, rounded to the nearest integer, halves up. */
  predicate Rounds(num: int, den: int, out: int) { 2 * num < 2 * den * out + den && 2 * den * out <= 2 * num + den }

  lemma RoundedQuotient(num: int, den: int)
    requires den > 0 && num >= 0
    ensures Rounds(num, den, (num + den / 2) / den)
  {
    var n := num + den / 2;
    var q := n / den;
    assert n == q * den + n % den;
    assert 2 * den * q == 2 * (q * den);
  }

  /** The weight of a channel: source by its alpha, target by what the source lets through. */
  function Mixed(src: int, dst: int, sa: int, da: int): int { src * (sa * 255) + dst * (da * (255 - sa)) }

  lemma ChannelRule(src: int, dst: int, sa: int, da: int)
    requires IsByte(src) && IsByte(dst) && IsByte(sa) && IsByte(da) && sa * 255 + da * (255 - sa) > 0
    ensures Rounds(Mixed(src, dst, sa, da), sa * 255 + da * (255 - sa), Over(src, dst, sa, da, sa * 255 + da * (255 - sa)))
  {
    var x, y := sa * 255, da * (255 - sa);
    assert x >= 0 && y >= 0 by { NonNegative(da, 255 - sa); }
    NonNegative(src, x);
    NonNegative(dst, y);
    RoundedQuotient(src * x + dst * y, x + y);
    assert src * sa * 255 == src * x && dst * da * (255 - sa) == dst * y by { Regroup(src, sa, 255); Regroup(dst, da, 255 - sa); }
  }

  lemma NonNegative(x: int, y: int)
    requires x >= 0 && y >= 0
    ensures x * y >= 0
  {
  }

  lemma Regroup(x: int, y: int, z: int)
    ensures x * y * z == x * (y * z)
  {
  }

  /** Source over target: each channel is the rounded mean of the two by their weights; alpha is the rounded total. */
  lemma BlendRule(dst: Rgba, src: Rgba)
    requires Bytes(dst) && Bytes(src)
    ensures var out, n := SourceOver(dst, src), src.a * 255 + dst.a * (255 - src.a);
      && n >= 0 && Rounds(n, 255, out.a)
      && (n > 0 ==> Rounds(Mixed(src.r, dst.r, src.a, dst.a), n, out.r) && Rounds(Mixed(src.g, dst.g, src.a, dst.a), n, out.g)
                    && Rounds(Mixed(src.b, dst.b, src.a, dst.a), n, out.b))
      && (n == 0 ==> out == Rgba(0, 0, 0, 0))
  {
    var n := src.a * 255 + dst.a * (255 - src.a);
    NonNegative(dst.a, 255 - src.a);
    RoundedQuotient(n, 255);
    if n > 0 {
      ChannelRule(src.r, dst.r, src.a, dst.a);
      ChannelRule(src.g, dst.g, src.a, dst.a);
      ChannelRule(src.b, dst.b, src.a, dst.a);
    }
  }

  /** An opaque source replaces the target; a transparent one leaves an opaque target alone. */
  lemma BlendEnds(dst: Rgba, src: Rgba)
    requires Bytes(dst) && Bytes(src)
    ensures src.a == 255 ==> SourceOver(dst, src) == src
    ensures src.a == 0 && dst.a == 255 ==> SourceOver(dst, src) == dst
  {
  }
}
