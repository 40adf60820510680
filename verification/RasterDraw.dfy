/**
 Drawing one triangle: two passes over 2x2 quads, a scratch copy of the target that is
 committed only on success, and statistics that account for every covered sample.
 Interpolated depth and the shader are parameters.
 */
module RasterDraw {
  import opened Options
  import opened FiniteSets
  import opened RasterCoverage

  datatype Rgba = Rgba(r: int, g: int, b: int, a: int)

  datatype DepthTest = TestOff | TestLess | TestLessEqual | TestAlways

  /** What a shader run answers; a lane without a colour produced a value that is not finite. */
  datatype Reply = Reply(error: nat, outputs: nat, live: set<nat>, color: map<nat, Rgba>)

  /** `depthAt` is the interpolated depth, absent when it is not finite. */
  datatype Draw = Draw(width: nat, height: nat, a: Point, b: Point, c: Point, budget: nat, test: DepthTest,
                       depthWrite: bool, sourceOver: bool, depthAt: (nat, nat) -> Option<real>,
                       shader: (nat, nat, set<nat>) -> Reply)

  datatype Stats = Stats(covered: nat, quads: nat, rejected: nat, discarded: nat, written: nat, scratch: nat)

  datatype Status = Ok | Invalid | Limit | NoMemory | Unsupported | BadOutput | ShaderError(code: nat)

  const NO_STATS := Stats(0, 0, 0, 0, 0, 0)

  /** The shader's own error codes run from 1 to this. */
  const BACKEND_ERRORS := 7

  // ---- Samples ----

  function SampleX(x: nat, lane: nat): nat { x + lane % 2 }
  function SampleY(y: nat, lane: nat): nat { y + lane / 2 }

  predicate InTarget(d: Draw, px: nat, py: nat) { px < d.width && py < d.height }

  predicate SampleCovered(d: Draw, px: nat, py: nat) {
    InTarget(d, px, py) && InsideAll(d.a, d.b, d.c, Point(16 * px + 8, 16 * py + 8))
  }

  predicate LaneCovered(d: Draw, x: nat, y: nat, lane: nat) { SampleCovered(d, SampleX(x, lane), SampleY(y, lane)) }

  function Coverage(d: Draw, x: nat, y: nat): set<nat> {
    set lane: nat | lane < 4 && LaneCovered(d, x, y, lane)
  }

  predicate PassesAt(points: seq<Point>, sample: Point, k: nat)
    requires |points| == 3 && k < 3
  {
    Passes(points[k], points[(k + 1) % 3], sample)
  }

  /** The three edge tests, stopping at the first failure. */
  method InsideEdges(points: seq<Point>, sample: Point) returns (inside: bool)
    requires |points| == 3
    ensures inside <==> InsideAll(points[0], points[1], points[2], sample)
  {
    hide InsideAll;
    for j: nat := 0 to 3
      invariant forall k: nat :: k < j ==> PassesAt(points, sample, k)
    {
      var a, b := points[j], points[(j + 1) % 3];
      var e := Edge(a, b, sample);
      if e < 0 || (e == 0 && !Inclusive(a, b)) {
        assert !PassesAt(points, sample, j);
        OneFails(points, sample, j);
        return false;
      }
    }
    AllPass(points, sample);
    return true;
  }

  lemma OneFails(points: seq<Point>, sample: Point, k: nat)
    requires |points| == 3 && k < 3 && !PassesAt(points, sample, k)
    ensures !InsideAll(points[0], points[1], points[2], sample)
  {
    hide Passes;
  }

  lemma AllPass(points: seq<Point>, sample: Point)
    requires |points| == 3 && PassesAt(points, sample, 0) && PassesAt(points, sample, 1) && PassesAt(points, sample, 2)
    ensures InsideAll(points[0], points[1], points[2], sample)
  {
    hide Passes;
  }

  method CoverageMask(d: Draw, x: nat, y: nat) returns (mask: set<nat>)
    ensures mask == Coverage(d, x, y)
  {
    hide InsideAll, SampleX, SampleY;
    mask := {};
    for lane: nat := 0 to 4
      invariant mask == set k: nat | k < lane && LaneCovered(d, x, y, k)
    {
      var px, py := SampleX(x, lane), SampleY(y, lane);
      if InTarget(d, px, py) {
        var inside := InsideEdges([d.a, d.b, d.c], Point(16 * px + 8, 16 * py + 8));
        if inside {
          mask := mask + {lane};
        }
      }
    }
  }

  // ---- What should happen to one sample ----

  function Clamp(z: real): real { if z < 0.0 then 0.0 else if z > 1.0 then 1.0 else z }

  predicate DepthPasses(test: DepthTest, z: real, previous: real) {
    match test
    case TestLess => z < previous
    case TestLessEqual => z <= previous
    case _ => true
  }

  function Over(src: int, dst: int, sa: int, da: int, denominator: int): int
    requires denominator != 0
  {
    (src * sa * 255 + dst * da * (255 - sa) + denominator / 2) / denominator
  }

  /** Straight-alpha source-over in bytes. */
  function SourceOver(dst: Rgba, src: Rgba): Rgba {
    var sa, da := src.a, dst.a;
    var n := sa * 255 + da * (255 - sa);
    if n == 0 then Rgba(0, 0, 0, 0)
    else Rgba(Over(src.r, dst.r, sa, da, n), Over(src.g, dst.g, sa, da, n), Over(src.b, dst.b, sa, da, n), (n + 127) / 255)
  }

  function Blended(d: Draw, dst: Rgba, src: Rgba): Rgba { if d.sourceOver then SourceOver(dst, src) else src }

  /** Rows of a buffer; elements past the width are padding. */
  type Grid<T> = seq<seq<T>>

  ghost predicate Rect<T>(g: Grid<T>, d: Draw) {
    |g| == d.height && forall y :: 0 <= y < |g| ==> |g[y]| >= d.width
  }

  /** The interpolated depth passes the test against the target as it was. */
  ghost predicate SamplePasses(d: Draw, depth: Grid<real>, px: nat, py: nat)
    requires Rect(depth, d)
  {
    && InTarget(d, px, py) && d.depthAt(px, py).Some?
    && DepthPasses(d.test, Clamp(d.depthAt(px, py).value), depth[py][px])
  }

  ghost function Passing(d: Draw, depth: Grid<real>, x: nat, y: nat): set<nat>
    requires Rect(depth, d)
  {
    set lane: nat | lane in Coverage(d, x, y) && SamplePasses(d, depth, SampleX(x, lane), SampleY(y, lane))
  }

  /** The lanes that the shader keeps alive; it runs only if some lane passes. */
  ghost function Written(d: Draw, depth: Grid<real>, x: nat, y: nat): set<nat>
    requires Rect(depth, d)
  {
    var mask := Passing(d, depth, x, y);
    if mask == {} then {} else d.shader(x, y, mask).live
  }

  function Even(n: nat): nat { n - n % 2 }
  function LaneOf(px: nat, py: nat): nat { px % 2 + 2 * (py % 2) }

  ghost predicate SampleWritten(d: Draw, depth: Grid<real>, px: nat, py: nat)
    requires Rect(depth, d)
  {
    LaneOf(px, py) in Written(d, depth, Even(px), Even(py))
  }

  /** The colour a sample must end up with. */
  ghost predicate ColorIs(d: Draw, color: Grid<Rgba>, depth: Grid<real>, px: nat, py: nat, c: Rgba)
    requires Rect(color, d) && Rect(depth, d) && InTarget(d, px, py)
  {
    if SampleWritten(d, depth, px, py) then
      var reply := d.shader(Even(px), Even(py), Passing(d, depth, Even(px), Even(py)));
      LaneOf(px, py) in reply.color && c == Blended(d, color[py][px], reply.color[LaneOf(px, py)])
    else c == color[py][px]
  }

  ghost predicate DepthIs(d: Draw, depth: Grid<real>, px: nat, py: nat, z: real)
    requires Rect(depth, d) && InTarget(d, px, py)
  {
    if SampleWritten(d, depth, px, py) && d.depthWrite
    then d.depthAt(px, py).Some? && z == Clamp(d.depthAt(px, py).value)
    else z == depth[py][px]
  }

  /** The sample's quad comes before the quad at x, y. */
  predicate Before(x: nat, y: nat, px: nat, py: nat) { Even(py) < y || (Even(py) == y && Even(px) < x) }

  /** Finished samples hold their final values, the others what the target held. */
  ghost predicate Progress(d: Draw, color0: Grid<Rgba>, depth0: Grid<real>, color: Grid<Rgba>, depth: Grid<real>, x: nat, y: nat) {
    && Rect(color0, d) && Rect(depth0, d) && Rect(color, d) && Rect(depth, d)
    && forall px: nat, py: nat :: InTarget(d, px, py) ==> SampleDone(d, color0, depth0, color, depth, x, y, px, py)
  }

  ghost predicate SampleDone(d: Draw, color0: Grid<Rgba>, depth0: Grid<real>, color: Grid<Rgba>, depth: Grid<real>,
                             x: nat, y: nat, px: nat, py: nat)
    requires Rect(color0, d) && Rect(depth0, d) && Rect(color, d) && Rect(depth, d) && InTarget(d, px, py)
  {
    if Before(x, y, px, py)
    then ColorIs(d, color0, depth0, px, py, color[py][px]) && DepthIs(d, depth0, px, py, depth[py][px])
    else color[py][px] == color0[py][px] && depth[py][px] == depth0[py][px]
  }

  lemma LaneSample(x: nat, y: nat, lane: nat)
    requires x % 2 == 0 && y % 2 == 0 && lane < 4
    ensures Even(SampleX(x, lane)) == x && Even(SampleY(y, lane)) == y
    ensures LaneOf(SampleX(x, lane), SampleY(y, lane)) == lane
  {
  }

  lemma SampleLane(px: nat, py: nat)
    ensures LaneOf(px, py) < 4 && SampleX(Even(px), LaneOf(px, py)) == px && SampleY(Even(py), LaneOf(px, py)) == py
  {
  }

  // ---- What becomes of quads and samples ----

  datatype Fate = Outside | Rejected | Discarded | Stored

  /** What happens to a sample when its quad is drawn. */
  ghost function FateOf(d: Draw, depth: Grid<real>, px: nat, py: nat): Fate
    requires Rect(depth, d)
  {
    if !SampleCovered(d, px, py) then Outside
    else if !SamplePasses(d, depth, px, py) then Rejected
    else if SampleWritten(d, depth, px, py) then Stored
    else Discarded
  }

  ghost predicate DepthMissing(d: Draw, x: nat, y: nat) {
    exists lane: nat :: lane in Coverage(d, x, y) && d.depthAt(SampleX(x, lane), SampleY(y, lane)).None?
  }

  /** The answer of the shader, judged: its own errors first, then what it promises of its outputs. */
  ghost function ReplyStatus(reply: Reply, passing: set<nat>): Status {
    if reply.error != 0 then if reply.error <= BACKEND_ERRORS then ShaderError(reply.error) else BadOutput
    else if reply.outputs != 1 then Unsupported
    else if reply.live <= passing && reply.live <= reply.color.Keys then Ok
    else BadOutput
  }

  /** How the quad at x, y goes, from the target as it was before the draw. */
  ghost function QuadStatus(d: Draw, depth: Grid<real>, x: nat, y: nat): Status
    requires Rect(depth, d)
  {
    if DepthMissing(d, x, y) then BadOutput
    else
      var passing := Passing(d, depth, x, y);
      if passing == {} then Ok else ReplyStatus(d.shader(x, y, passing), passing)
  }

  /** Every quad before the one at x, y goes well. */
  ghost predicate FineBefore(d: Draw, depth: Grid<real>, x: nat, y: nat)
    requires Rect(depth, d)
  {
    forall px: nat, py: nat :: InTarget(d, px, py) && Before(x, y, px, py) ==> QuadStatus(d, depth, Even(px), Even(py)) == Ok
  }

  /** The draw goes as its first failing quad, in row order, if there is one. */
  ghost predicate DrawsAs(d: Draw, depth: Grid<real>, status: Status)
    requires Rect(depth, d)
  {
    if status == Ok then forall px: nat, py: nat :: InTarget(d, px, py) ==> QuadStatus(d, depth, Even(px), Even(py)) == Ok
    else exists x: nat, y: nat :: FailsAt(d, depth, x, y, status)
  }

  ghost predicate FailsAt(d: Draw, depth: Grid<real>, x: nat, y: nat, status: Status)
    requires Rect(depth, d)
  {
    InTarget(d, x, y) && x % 2 == 0 && y % 2 == 0 && FineBefore(d, depth, x, y) && QuadStatus(d, depth, x, y) == status
  }

  ghost function WithFate(d: Draw, depth: Grid<real>, fate: Fate, x: nat, y: nat): set<(nat, nat)>
    requires Rect(depth, d)
  {
    set px: nat, py: nat | px < d.width && py < d.height && FateOf(d, depth, px, py) == fate && Before(x, y, px, py) :: (px, py)
  }

  ghost predicate IsQuad(d: Draw, x: nat, y: nat) { InTarget(d, x, y) && x % 2 == 0 && y % 2 == 0 }

  ghost function CoveredQuads(d: Draw, x: nat, y: nat): set<(nat, nat)> {
    set px: nat, py: nat | px < d.width && py < d.height && IsQuad(d, px, py) && Coverage(d, px, py) != {} && Before(x, y, px, py) :: (px, py)
  }

  ghost function ShadedQuads(d: Draw, depth: Grid<real>, x: nat, y: nat): set<(nat, nat)>
    requires Rect(depth, d)
  {
    set px: nat, py: nat | px < d.width && py < d.height && IsQuad(d, px, py) && Passing(d, depth, px, py) != {} && Before(x, y, px, py) :: (px, py)
  }

  // ---- Counting covered samples ----

  ghost function CoveredBefore(d: Draw, x: nat, y: nat): set<(nat, nat)> {
    set px: nat, py: nat | px < d.width && py < d.height && SampleCovered(d, px, py) && Before(x, y, px, py) :: (px, py)
  }

  ghost function SamplesOf(x: nat, y: nat, mask: set<nat>): set<(nat, nat)> {
    set lane | lane in mask :: (SampleX(x, lane), SampleY(y, lane))
  }

  lemma {:induction false} SamplesCount(x: nat, y: nat, mask: set<nat>)
    requires x % 2 == 0 && y % 2 == 0 && forall lane :: lane in mask ==> lane < 4
    ensures |SamplesOf(x, y, mask)| == |mask|
  {
    if mask != {} {
      var lane :| lane in mask;
      var rest := mask - {lane};
      SamplesCount(x, y, rest);
      assert SamplesOf(x, y, mask) == SamplesOf(x, y, rest) + {(SampleX(x, lane), SampleY(y, lane))};
      assert (SampleX(x, lane), SampleY(y, lane)) !in SamplesOf(x, y, rest) by {
        forall k | k in rest ensures (SampleX(x, k), SampleY(y, k)) != (SampleX(x, lane), SampleY(y, lane)) {
          LaneSample(x, y, k);
          LaneSample(x, y, lane);
        }
      }
    }
  }

  lemma SamplesAre(x: nat, y: nat, lanes: set<nat>, px: nat, py: nat)
    requires x % 2 == 0 && y % 2 == 0 && forall lane :: lane in lanes ==> lane < 4
    ensures (px, py) in SamplesOf(x, y, lanes) <==> Even(px) == x && Even(py) == y && LaneOf(px, py) in lanes
  {
    SampleLane(px, py);
    forall lane | lane in lanes
      ensures Even(SampleX(x, lane)) == x && Even(SampleY(y, lane)) == y && LaneOf(SampleX(x, lane), SampleY(y, lane)) == lane
    {
      LaneSample(x, y, lane);
    }
    hide Even, LaneOf, SampleX, SampleY;
  }

  /** A set of samples that grows by lanes of one quad grows by their number. */
  lemma LanesCount(x: nat, y: nat, lanes: set<nat>, before: set<(nat, nat)>, after: set<(nat, nat)>)
    requires x % 2 == 0 && y % 2 == 0 && forall lane :: lane in lanes ==> lane < 4
    requires forall px: nat, py: nat :: (px, py) in before ==> !(Even(px) == x && Even(py) == y)
    requires forall px: nat, py: nat ::
      (px, py) in after <==> (px, py) in before || (Even(px) == x && Even(py) == y && LaneOf(px, py) in lanes)
    ensures |after| == |before| + |lanes|
  {
    hide SamplesOf, Even, LaneOf;
    var quad := SamplesOf(x, y, lanes);
    SamplesCount(x, y, lanes);
    forall px: nat, py: nat
      ensures (px, py) in after <==> (px, py) in before || (px, py) in quad
      ensures (px, py) !in before || (px, py) !in quad
    {
      SamplesAre(x, y, lanes, px, py);
    }
    JoinCount(before, quad, after);
  }

  lemma JoinCount(before: set<(nat, nat)>, more: set<(nat, nat)>, after: set<(nat, nat)>)
    requires forall px: nat, py: nat :: (px, py) in after <==> (px, py) in before || (px, py) in more
    requires forall px: nat, py: nat :: (px, py) !in before || (px, py) !in more
    ensures |after| == |before| + |more|
  {
    forall p: (nat, nat)
      ensures p in after <==> p in before || p in more
      ensures p !in before || p !in more
    {
      assert p == (p.0, p.1);
      assert (p.0, p.1) in after <==> (p.0, p.1) in before || (p.0, p.1) in more;
    }
    assert after == before + more;
    assert before !! more;
  }

  /** The lanes of a quad whose samples have this fate. */
  ghost function LanesOf(d: Draw, depth: Grid<real>, fate: Fate, x: nat, y: nat): set<nat>
    requires Rect(depth, d)
  {
    set lane: nat | lane < 4 && InTarget(d, SampleX(x, lane), SampleY(y, lane))
                    && FateOf(d, depth, SampleX(x, lane), SampleY(y, lane)) == fate
  }

  lemma FateCounts(d: Draw, depth: Grid<real>, fate: Fate, x: nat, y: nat)
    requires Rect(depth, d) && x % 2 == 0 && y % 2 == 0
    ensures |WithFate(d, depth, fate, x + 2, y)| == |WithFate(d, depth, fate, x, y)| + |LanesOf(d, depth, fate, x, y)|
  {
    hide FateOf;
    forall px: nat, py: nat
      ensures (px, py) in WithFate(d, depth, fate, x, y) ==> !(Even(px) == x && Even(py) == y)
      ensures (px, py) in WithFate(d, depth, fate, x + 2, y) <==>
        (px, py) in WithFate(d, depth, fate, x, y) || (Even(px) == x && Even(py) == y && LaneOf(px, py) in LanesOf(d, depth, fate, x, y))
    {
      BeforeNext(x, y, px, py);
      SampleLane(px, py);
      hide Before, Even, LaneOf, SampleX, SampleY;
    }
    LanesCount(x, y, LanesOf(d, depth, fate, x, y), WithFate(d, depth, fate, x, y), WithFate(d, depth, fate, x + 2, y));
  }

  /** The lanes of a quad by fate, as the drawing loop tells them apart. */
  lemma LanesOfAre(d: Draw, depth: Grid<real>, x: nat, y: nat)
    requires Rect(depth, d) && x % 2 == 0 && y % 2 == 0 && Written(d, depth, x, y) <= Passing(d, depth, x, y)
    ensures LanesOf(d, depth, Rejected, x, y) == Coverage(d, x, y) - Passing(d, depth, x, y)
    ensures LanesOf(d, depth, Discarded, x, y) == Passing(d, depth, x, y) - Written(d, depth, x, y)
    ensures LanesOf(d, depth, Stored, x, y) == Written(d, depth, x, y)
  {
    forall lane: nat
      ensures lane in LanesOf(d, depth, Rejected, x, y) <==> lane in Coverage(d, x, y) && lane !in Passing(d, depth, x, y)
      ensures lane in LanesOf(d, depth, Discarded, x, y) <==> lane in Passing(d, depth, x, y) && lane !in Written(d, depth, x, y)
      ensures lane in LanesOf(d, depth, Stored, x, y) <==> lane in Written(d, depth, x, y)
    {
      if lane < 4 {
        LaneSample(x, y, lane);
      }
      hide SampleX, SampleY, LaneOf, Even, Written, SamplePasses, SampleCovered;
      if lane in Coverage(d, x, y) {
        InTargetOf(d, SampleX(x, lane), SampleY(y, lane));
      }
    }
  }

  lemma Difference(a: set<nat>, b: set<nat>)
    requires b <= a
    ensures |a - b| + |b| == |a|
  {
    assert a == (a - b) + b;
  }

  lemma QuadBefore(d: Draw, x: nat, y: nat, px: nat, py: nat)
    requires x % 2 == 0 && y % 2 == 0 && IsQuad(d, px, py)
    ensures Before(x + 2, y, px, py) <==> Before(x, y, px, py) || (px == x && py == y)
    ensures !(Before(x, y, px, py) && px == x && py == y)
  {
    BeforeNext(x, y, px, py);
  }

  lemma CoveredQuadCounts(d: Draw, x: nat, y: nat)
    requires IsQuad(d, x, y)
    ensures |CoveredQuads(d, x + 2, y)| == |CoveredQuads(d, x, y)| + if Coverage(d, x, y) != {} then 1 else 0
  {
    forall px: nat, py: nat | IsQuad(d, px, py)
      ensures Before(x + 2, y, px, py) <==> Before(x, y, px, py) || (px == x && py == y)
      ensures !(Before(x, y, px, py) && px == x && py == y)
    {
      QuadBefore(d, x, y, px, py);
    }
    hide Before, Coverage;
    JoinCount(CoveredQuads(d, x, y), if Coverage(d, x, y) != {} then {(x, y)} else {}, CoveredQuads(d, x + 2, y));
  }

  lemma ShadedQuadCounts(d: Draw, depth: Grid<real>, x: nat, y: nat)
    requires Rect(depth, d) && IsQuad(d, x, y)
    ensures |ShadedQuads(d, depth, x + 2, y)| == |ShadedQuads(d, depth, x, y)| + if Passing(d, depth, x, y) != {} then 1 else 0
  {
    forall px: nat, py: nat | IsQuad(d, px, py)
      ensures Before(x + 2, y, px, py) <==> Before(x, y, px, py) || (px == x && py == y)
      ensures !(Before(x, y, px, py) && px == x && py == y)
    {
      QuadBefore(d, x, y, px, py);
    }
    hide Before, Passing;
    JoinCount(ShadedQuads(d, depth, x, y), if Passing(d, depth, x, y) != {} then {(x, y)} else {}, ShadedQuads(d, depth, x + 2, y));
  }

  /** One quad adds exactly its coverage to the count. */
  lemma QuadCounts(d: Draw, x: nat, y: nat)
    requires x % 2 == 0 && y % 2 == 0
    ensures |CoveredBefore(d, x + 2, y)| == |CoveredBefore(d, x, y)| + |Coverage(d, x, y)|
  {
    hide SampleCovered;
    forall px: nat, py: nat
      ensures (px, py) in CoveredBefore(d, x, y) ==> !(Even(px) == x && Even(py) == y)
      ensures (px, py) in CoveredBefore(d, x + 2, y) <==>
        (px, py) in CoveredBefore(d, x, y) || (Even(px) == x && Even(py) == y && LaneOf(px, py) in Coverage(d, x, y))
    {
      BeforeNext(x, y, px, py);
      SampleLane(px, py);
      hide Before, Even, LaneOf, SampleX, SampleY;
      if SampleCovered(d, px, py) {
        InTargetOf(d, px, py);
      }
    }
    LanesCount(x, y, Coverage(d, x, y), CoveredBefore(d, x, y), CoveredBefore(d, x + 2, y));
  }

  lemma InTargetOf(d: Draw, px: nat, py: nat)
    requires SampleCovered(d, px, py)
    ensures InTarget(d, px, py)
  {
  }

  lemma RowCounts(d: Draw, x: nat, y: nat)
    requires x % 2 == 0 && y % 2 == 0 && x >= d.width
    ensures CoveredBefore(d, x, y) == CoveredBefore(d, 0, y + 2)
  {
    forall px: nat, py: nat | px < d.width ensures Before(x, y, px, py) == Before(0, y + 2, px, py) {
      RowEnds(x, y, px, py);
    }
    hide Before, SampleCovered;
  }

  lemma RowEnds(x: nat, y: nat, px: nat, py: nat)
    requires y % 2 == 0 && px < x
    ensures Before(x, y, px, py) == Before(0, y + 2, px, py)
  {
  }

  lemma NothingBefore(d: Draw)
    ensures CoveredBefore(d, 0, 0) == {} && CoveredQuads(d, 0, 0) == {}
  {
    forall px: nat, py: nat ensures !Before(0, 0, px, py) {
    }
    hide Before, Coverage, SampleCovered;
  }

  // ---- One quad ----

  ghost predicate DepthsOf(d: Draw, x: nat, y: nat, lanes: set<nat>, z: map<nat, real>) {
    forall lane: nat :: lane in lanes ==>
      && lane in z && d.depthAt(SampleX(x, lane), SampleY(y, lane)).Some?
      && z[lane] == Clamp(d.depthAt(SampleX(x, lane), SampleY(y, lane)).value)
  }

  /** The depth test of a quad: the lanes that pass, and how many do not. */
  method TestDepth(d: Draw, x: nat, y: nat, mask: set<nat>, depth: Grid<real>)
    returns (ok: bool, passing: set<nat>, z: map<nat, real>, rejected: nat)
    requires Rect(depth, d) && mask == Coverage(d, x, y)
    ensures ok <==> !DepthMissing(d, x, y)
    ensures ok ==> passing == Passing(d, depth, x, y) && DepthsOf(d, x, y, passing, z) && rejected + |passing| == |mask|
  {
    hide SampleX, SampleY, Clamp, DepthPasses, SampleCovered, SamplePasses, Coverage;
    passing, z, rejected := mask, map[], 0;
    ghost var tested: set<nat> := {};
    for lane: nat := 0 to 4
      invariant forall k: nat :: k in tested <==> k in mask && k < lane
      invariant forall k: nat :: k in passing <==> k in mask && (k in tested ==> SamplePasses(d, depth, SampleX(x, k), SampleY(y, k)))
      invariant DepthsOf(d, x, y, tested, z) && rejected + |passing| == |mask|
    {
      if lane in mask {
        var px, py := SampleX(x, lane), SampleY(y, lane);
        CoverageLane(d, x, y, lane);
        var depthHere := d.depthAt(px, py);
        if depthHere.None? {
          return false, passing, z, rejected;
        }
        var value := Clamp(depthHere.value);
        z := z[lane := value];
        PassesIff(d, depth, px, py);
        if !DepthPasses(d.test, value, depth[py][px]) {
          passing := passing - {lane};
          rejected := rejected + 1;
        }
        tested := tested + {lane};
      }
    }
    assert forall k: nat :: k in mask ==> k < 4 by {
      forall k: nat | k in mask ensures k < 4 {
        CoverageLane(d, x, y, k);
      }
    }
    ok := true;
  }

  lemma CoverageLane(d: Draw, x: nat, y: nat, lane: nat)
    requires lane in Coverage(d, x, y)
    ensures lane < 4 && InTarget(d, SampleX(x, lane), SampleY(y, lane))
  {
    hide SampleCovered;
    InTargetOf(d, SampleX(x, lane), SampleY(y, lane));
  }

  lemma PassesIff(d: Draw, depth: Grid<real>, px: nat, py: nat)
    requires Rect(depth, d) && InTarget(d, px, py) && d.depthAt(px, py).Some?
    ensures SamplePasses(d, depth, px, py) <==> DepthPasses(d.test, Clamp(d.depthAt(px, py).value), depth[py][px])
  {
    hide DepthPasses, Clamp;
  }

  /** What one quad leaves of the scratch buffers: its surviving lanes replaced, all else kept. */
  ghost predicate QuadWritten(d: Draw, x: nat, y: nat, lanes: set<nat>, reply: Reply, z: map<nat, real>,
                              color: Grid<Rgba>, depth: Grid<real>, color': Grid<Rgba>, depth': Grid<real>) {
    && Rect(color, d) && Rect(depth, d) && Rect(color', d) && Rect(depth', d)
    && forall px: nat, py: nat :: InTarget(d, px, py) ==>
         SampleAfter(d, x, y, lanes, reply, z, color, depth, color', depth', px, py)
  }

  ghost predicate SampleAfter(d: Draw, x: nat, y: nat, lanes: set<nat>, reply: Reply, z: map<nat, real>,
                              color: Grid<Rgba>, depth: Grid<real>, color': Grid<Rgba>, depth': Grid<real>, px: nat, py: nat)
    requires Rect(color, d) && Rect(depth, d) && Rect(color', d) && Rect(depth', d) && InTarget(d, px, py)
  {
    var lane := LaneOf(px, py);
    if Even(px) == x && Even(py) == y && lane in lanes then
      && lane in reply.color && lane in z
      && color'[py][px] == Blended(d, color[py][px], reply.color[lane])
      && depth'[py][px] == if d.depthWrite then z[lane] else depth[py][px]
    else color'[py][px] == color[py][px] && depth'[py][px] == depth[py][px]
  }

  function Replaced<T>(g: Grid<T>, px: nat, py: nat, v: T): Grid<T>
    requires py < |g| && px < |g[py]|
  {
    g[py := g[py][px := v]]
  }

  lemma QuadAdds(d: Draw, x: nat, y: nat, lanes: set<nat>, lane: nat, reply: Reply, z: map<nat, real>,
                 color0: Grid<Rgba>, depth0: Grid<real>, color: Grid<Rgba>, depth: Grid<real>)
    requires x % 2 == 0 && y % 2 == 0 && lane < 4 && lane !in lanes && lane in reply.color && lane in z
    requires InTarget(d, SampleX(x, lane), SampleY(y, lane))
    requires QuadWritten(d, x, y, lanes, reply, z, color0, depth0, color, depth)
    ensures var px, py := SampleX(x, lane), SampleY(y, lane);
      QuadWritten(d, x, y, lanes + {lane}, reply, z, color0, depth0,
                  Replaced(color, px, py, Blended(d, color[py][px], reply.color[lane])),
                  if d.depthWrite then Replaced(depth, px, py, z[lane]) else depth)
  {
    hide Blended;
    var qx, qy := SampleX(x, lane), SampleY(y, lane);
    LaneSample(x, y, lane);
    var color' := Replaced(color, qx, qy, Blended(d, color[qy][qx], reply.color[lane]));
    var depth' := if d.depthWrite then Replaced(depth, qx, qy, z[lane]) else depth;
    assert SampleAfter(d, x, y, lanes, reply, z, color0, depth0, color, depth, qx, qy);
    forall px: nat, py: nat | InTarget(d, px, py)
      ensures SampleAfter(d, x, y, lanes + {lane}, reply, z, color0, depth0, color', depth', px, py)
    {
      assert SampleAfter(d, x, y, lanes, reply, z, color0, depth0, color, depth, px, py);
      SampleLane(px, py);
    }
  }

  /** The write loop over the lanes the shader kept. */
  method WriteLanes(d: Draw, x: nat, y: nat, alive: set<nat>, reply: Reply, z: map<nat, real>, color0: Grid<Rgba>, depth0: Grid<real>)
    returns (ok: bool, color: Grid<Rgba>, depth: Grid<real>, written: nat)
    requires x % 2 == 0 && y % 2 == 0 && Rect(color0, d) && Rect(depth0, d)
    requires forall lane :: lane in alive ==> lane < 4 && lane in z && InTarget(d, SampleX(x, lane), SampleY(y, lane))
    ensures ok <==> alive <= reply.color.Keys
    ensures ok ==> QuadWritten(d, x, y, alive, reply, z, color0, depth0, color, depth) && written == |alive|
  {
    hide Blended, QuadWritten, SampleX, SampleY, InTarget;
    color, depth, written := color0, depth0, 0;
    ghost var lanes: set<nat> := {};
    assert QuadWritten(d, x, y, lanes, reply, z, color0, depth0, color, depth) by { NothingWritten(d, x, y, reply, z, color0, depth0); }
    for lane: nat := 0 to 4
      invariant lanes == (set k: nat | k < lane && k in alive) && lanes <= reply.color.Keys
      invariant QuadWritten(d, x, y, lanes, reply, z, color0, depth0, color, depth) && written == |lanes|
    {
      if lane in alive {
        if lane !in reply.color {
          return false, color, depth, written;
        }
        var px, py := SampleX(x, lane), SampleY(y, lane);
        QuadRect(d, x, y, lanes, reply, z, color0, depth0, color, depth, px, py);
        QuadAdds(d, x, y, lanes, lane, reply, z, color0, depth0, color, depth);
        color := Replaced(color, px, py, Blended(d, color[py][px], reply.color[lane]));
        if d.depthWrite {
          depth := Replaced(depth, px, py, z[lane]);
        }
        written := written + 1;
        lanes := lanes + {lane};
      }
    }
    assert lanes == alive;
    ok := true;
  }

  lemma NothingWritten(d: Draw, x: nat, y: nat, reply: Reply, z: map<nat, real>, color: Grid<Rgba>, depth: Grid<real>)
    requires Rect(color, d) && Rect(depth, d)
    ensures QuadWritten(d, x, y, {}, reply, z, color, depth, color, depth)
  {
  }

  lemma QuadRect(d: Draw, x: nat, y: nat, lanes: set<nat>, reply: Reply, z: map<nat, real>,
                 color0: Grid<Rgba>, depth0: Grid<real>, color: Grid<Rgba>, depth: Grid<real>, px: nat, py: nat)
    requires QuadWritten(d, x, y, lanes, reply, z, color0, depth0, color, depth) && InTarget(d, px, py)
    ensures py < |color| && px < |color[py]| && py < |depth| && px < |depth[py]|
  {
  }

  /** Once its surviving lanes are written, a quad's samples have their final values. */
  lemma QuadProgress(d: Draw, x: nat, y: nat, reply: Reply, z: map<nat, real>, color0: Grid<Rgba>, depth0: Grid<real>,
                     color: Grid<Rgba>, depth: Grid<real>, color': Grid<Rgba>, depth': Grid<real>)
    requires x % 2 == 0 && y % 2 == 0 && Progress(d, color0, depth0, color, depth, x, y)
    requires QuadWritten(d, x, y, Written(d, depth0, x, y), reply, z, color, depth, color', depth')
    requires Written(d, depth0, x, y) != {} ==>
      reply == d.shader(x, y, Passing(d, depth0, x, y)) && DepthsOf(d, x, y, Passing(d, depth0, x, y), z)
    requires Written(d, depth0, x, y) <= Passing(d, depth0, x, y)
    ensures Progress(d, color0, depth0, color', depth', x + 2, y)
  {
    hide SampleDone, SampleAfter, Passing, Written, DepthsOf;
    forall px: nat, py: nat | InTarget(d, px, py) ensures SampleDone(d, color0, depth0, color', depth', x + 2, y, px, py) {
      assert SampleDone(d, color0, depth0, color, depth, x, y, px, py);
      assert SampleAfter(d, x, y, Written(d, depth0, x, y), reply, z, color, depth, color', depth', px, py);
      SampleProgress(d, x, y, reply, z, color0, depth0, color, depth, color', depth', px, py);
    }
  }

  lemma BeforeNext(x: nat, y: nat, px: nat, py: nat)
    requires x % 2 == 0
    ensures Before(x + 2, y, px, py) <==> Before(x, y, px, py) || (Even(px) == x && Even(py) == y)
    ensures !(Before(x, y, px, py) && Even(px) == x && Even(py) == y)
  {
  }

  lemma SampleProgress(d: Draw, x: nat, y: nat, reply: Reply, z: map<nat, real>, color0: Grid<Rgba>, depth0: Grid<real>,
                       color: Grid<Rgba>, depth: Grid<real>, color': Grid<Rgba>, depth': Grid<real>, px: nat, py: nat)
    requires x % 2 == 0 && y % 2 == 0 && InTarget(d, px, py)
    requires Rect(color0, d) && Rect(depth0, d) && Rect(color, d) && Rect(depth, d) && Rect(color', d) && Rect(depth', d)
    requires SampleDone(d, color0, depth0, color, depth, x, y, px, py)
    requires SampleAfter(d, x, y, Written(d, depth0, x, y), reply, z, color, depth, color', depth', px, py)
    requires Written(d, depth0, x, y) != {} ==>
      reply == d.shader(x, y, Passing(d, depth0, x, y)) && DepthsOf(d, x, y, Passing(d, depth0, x, y), z)
    requires Written(d, depth0, x, y) <= Passing(d, depth0, x, y)
    ensures SampleDone(d, color0, depth0, color', depth', x + 2, y, px, py)
  {
    BeforeNext(x, y, px, py);
    SampleLane(px, py);
    hide Blended, Clamp, Passing, Written, Rect, Before, Even, LaneOf, SampleX, SampleY;
    if Even(px) == x && Even(py) == y && LaneOf(px, py) in Written(d, depth0, x, y) {
      assert LaneOf(px, py) in Passing(d, depth0, x, y);
    }
  }

  lemma RowProgress(d: Draw, x: nat, y: nat, color0: Grid<Rgba>, depth0: Grid<real>, color: Grid<Rgba>, depth: Grid<real>)
    requires x % 2 == 0 && y % 2 == 0 && x >= d.width && Progress(d, color0, depth0, color, depth, x, y)
    ensures Progress(d, color0, depth0, color, depth, 0, y + 2)
  {
    hide ColorIs, DepthIs;
    forall px: nat, py: nat | InTarget(d, px, py) ensures SampleDone(d, color0, depth0, color, depth, 0, y + 2, px, py) {
      assert SampleDone(d, color0, depth0, color, depth, x, y, px, py);
    }
  }

  /** A quad not reached yet still sees the target's depths. */
  lemma PassingSame(d: Draw, x: nat, y: nat, color0: Grid<Rgba>, depth0: Grid<real>, color: Grid<Rgba>, depth: Grid<real>)
    requires x % 2 == 0 && y % 2 == 0 && Progress(d, color0, depth0, color, depth, x, y)
    ensures Passing(d, depth, x, y) == Passing(d, depth0, x, y)
  {
    hide ColorIs, DepthIs, DepthPasses, SampleCovered;
    forall lane: nat | lane in Coverage(d, x, y)
      ensures SamplePasses(d, depth, SampleX(x, lane), SampleY(y, lane)) == SamplePasses(d, depth0, SampleX(x, lane), SampleY(y, lane))
    {
      var px, py := SampleX(x, lane), SampleY(y, lane);
      LaneSample(x, y, lane);
      InTargetOf(d, px, py);
      assert SampleDone(d, color0, depth0, color, depth, x, y, px, py);
    }
  }

  method DrawQuad(d: Draw, x: nat, y: nat, stats: Stats, color: Grid<Rgba>, depth: Grid<real>,
                  ghost color0: Grid<Rgba>, ghost depth0: Grid<real>)
    returns (status: Status, stats': Stats, color': Grid<Rgba>, depth': Grid<real>)
    requires x % 2 == 0 && y % 2 == 0 && Progress(d, color0, depth0, color, depth, x, y)
    ensures status == QuadStatus(d, depth0, x, y)
    ensures status == Ok ==> Progress(d, color0, depth0, color', depth', x + 2, y) && Tallied(d, depth0, x, y, stats, stats')
  {
    hide Progress, QuadWritten, Passing, Coverage, DepthsOf, DepthMissing, LanesOf;
    stats', color', depth' := stats, color, depth;
    ProgressRect(d, color0, depth0, color, depth, x, y);
    PassingSame(d, x, y, color0, depth0, color, depth);
    var mask := CoverageMask(d, x, y);
    if mask == {} {
      EmptyQuad(d, x, y, color0, depth0, color, depth);
      NothingCoveredHere(d, depth0, x, y);
      return Ok, stats', color', depth';
    }
    var ok, passing, z, rejected := TestDepth(d, x, y, mask, depth);
    if !ok {
      return BadOutput, stats', color', depth';
    }
    stats' := stats'.(rejected := stats'.rejected + rejected);
    Difference(mask, passing) by { PassingCovered(d, depth0, x, y); }
    if passing == {} {
      LanesOfAre(d, depth0, x, y);
      EmptyQuad(d, x, y, color0, depth0, color, depth);
      return Ok, stats', color', depth';
    }
    var reply := d.shader(x, y, passing);
    if reply.error != 0 {
      return if reply.error <= BACKEND_ERRORS then ShaderError(reply.error) else BadOutput, stats', color', depth';
    }
    stats' := stats'.(quads := stats'.quads + 1);
    if reply.outputs != 1 {
      return Unsupported, stats', color', depth';
    }
    if !(reply.live <= passing) {
      return BadOutput, stats', color', depth';
    }
    var alive := reply.live;
    SubsetSize(alive, passing);
    Difference(passing, alive);
    LanesOfAre(d, depth0, x, y);
    stats' := stats'.(discarded := stats'.discarded + (|passing| - |alive|));
    PassingLanes(d, depth0, x, y, passing, z);
    var written;
    ok, color', depth', written := WriteLanes(d, x, y, alive, reply, z, color, depth);
    if !ok {
      return BadOutput, stats', color', depth';
    }
    stats' := stats'.(written := stats'.written + written);
    QuadProgress(d, x, y, reply, z, color0, depth0, color, depth, color', depth');
    status := Ok;
  }

  /** What the quad at x, y adds to the statistics when it goes well. */
  ghost predicate Tallied(d: Draw, depth: Grid<real>, x: nat, y: nat, stats: Stats, stats': Stats)
    requires Rect(depth, d)
  {
    stats' == Stats(stats.covered, stats.quads + (if Passing(d, depth, x, y) != {} then 1 else 0),
                    stats.rejected + |LanesOf(d, depth, Rejected, x, y)|, stats.discarded + |LanesOf(d, depth, Discarded, x, y)|,
                    stats.written + |LanesOf(d, depth, Stored, x, y)|, stats.scratch)
  }

  lemma PassingCovered(d: Draw, depth: Grid<real>, x: nat, y: nat)
    requires Rect(depth, d)
    ensures Passing(d, depth, x, y) <= Coverage(d, x, y)
  {
    hide Coverage;
  }

  lemma NothingCoveredHere(d: Draw, depth: Grid<real>, x: nat, y: nat)
    requires Rect(depth, d) && x % 2 == 0 && y % 2 == 0 && Coverage(d, x, y) == {}
    ensures !DepthMissing(d, x, y) && Passing(d, depth, x, y) == {}
    ensures forall fate :: fate != Outside ==> LanesOf(d, depth, fate, x, y) == {}
  {
    LanesOfAre(d, depth, x, y);
  }

  lemma ProgressRect(d: Draw, color0: Grid<Rgba>, depth0: Grid<real>, color: Grid<Rgba>, depth: Grid<real>, x: nat, y: nat)
    requires Progress(d, color0, depth0, color, depth, x, y)
    ensures Rect(color0, d) && Rect(depth0, d) && Rect(color, d) && Rect(depth, d)
  {
  }

  lemma PassingLanes(d: Draw, depth: Grid<real>, x: nat, y: nat, passing: set<nat>, z: map<nat, real>)
    requires Rect(depth, d) && passing == Passing(d, depth, x, y) && DepthsOf(d, x, y, passing, z)
    ensures forall lane :: lane in passing ==> lane < 4 && lane in z && InTarget(d, SampleX(x, lane), SampleY(y, lane))
  {
    hide SampleCovered, DepthPasses;
    forall lane: nat | lane in passing ensures lane < 4 && lane in z && InTarget(d, SampleX(x, lane), SampleY(y, lane)) {
      InTargetOf(d, SampleX(x, lane), SampleY(y, lane));
    }
  }

  /** A quad without passing lanes changes nothing. */
  lemma EmptyQuad(d: Draw, x: nat, y: nat, color0: Grid<Rgba>, depth0: Grid<real>, color: Grid<Rgba>, depth: Grid<real>)
    requires x % 2 == 0 && y % 2 == 0 && Progress(d, color0, depth0, color, depth, x, y)
    requires Coverage(d, x, y) == {} || Passing(d, depth0, x, y) == {}
    ensures Progress(d, color0, depth0, color, depth, x + 2, y)
  {
    hide SampleCovered;
    ProgressRect(d, color0, depth0, color, depth, x, y);
    assert Passing(d, depth0, x, y) == {};
    var reply := Reply(0, 1, {}, map[]);
    NothingWritten(d, x, y, reply, map[], color, depth);
    QuadProgress(d, x, y, reply, map[], color0, depth0, color, depth, color, depth);
  }

  // ---- The whole draw ----

  /** The triangle with its second and third vertex exchanged when its area is negative. */
  function Oriented(d: Draw): Draw {
    if Edge(d.a, d.b, d.c) < 0 then d.(b := d.c, c := d.b) else d
  }

  ghost function CoveredSamples(d: Draw): set<(nat, nat)> {
    set px: nat, py: nat | px < d.width && py < d.height && Covers(d.a, d.b, d.c, Point(16 * px + 8, 16 * py + 8)) :: (px, py)
  }

  lemma OrientedCovers(d: Draw, y: nat)
    requires Edge(d.a, d.b, d.c) != 0 && y >= d.height
    ensures CoveredBefore(Oriented(d), 0, y) == CoveredSamples(d)
  {
    hide InsideAll, Edge;
    forall px: nat, py: nat | px < d.width && py < d.height
      ensures SampleCovered(Oriented(d), px, py) == Covers(d.a, d.b, d.c, Point(16 * px + 8, 16 * py + 8))
      ensures Before(0, y, px, py)
    {
    }
  }

  /** Where a loop over rows of quads ends. */
  ghost function EndRow(d: Draw): nat { d.height + d.height % 2 }

  // ---- Totals ----

  ghost function Fated(d: Draw, depth: Grid<real>, fate: Fate): set<(nat, nat)>
    requires Rect(depth, d)
  {
    set px: nat, py: nat | px < d.width && py < d.height && FateOf(d, depth, px, py) == fate :: (px, py)
  }

  ghost function TouchedQuads(d: Draw): set<(nat, nat)> {
    set px: nat, py: nat | px < d.width && py < d.height && IsQuad(d, px, py) && Coverage(d, px, py) != {} :: (px, py)
  }

  ghost function RunQuads(d: Draw, depth: Grid<real>): set<(nat, nat)>
    requires Rect(depth, d)
  {
    set px: nat, py: nat | px < d.width && py < d.height && IsQuad(d, px, py) && Passing(d, depth, px, py) != {} :: (px, py)
  }

  /** The shader runs and the samples of each fate, over the whole target. */
  ghost function Totals(d: Draw, depth: Grid<real>, covered: nat, scratch: nat): Stats
    requires Rect(depth, d)
  {
    Stats(covered, |RunQuads(d, depth)|, |Fated(d, depth, Rejected)|, |Fated(d, depth, Discarded)|, |Fated(d, depth, Stored)|, scratch)
  }

  /** The statistics once the quads before x, y are drawn. */
  ghost predicate StatsAt(d: Draw, depth: Grid<real>, x: nat, y: nat, start: Stats, stats: Stats)
    requires Rect(depth, d)
  {
    stats == Stats(start.covered, |ShadedQuads(d, depth, x, y)|, |WithFate(d, depth, Rejected, x, y)|,
                   |WithFate(d, depth, Discarded, x, y)|, |WithFate(d, depth, Stored, x, y)|, start.scratch)
  }

  lemma StatsStart(d: Draw, depth: Grid<real>, start: Stats)
    requires Rect(depth, d) && start.quads == start.rejected == start.discarded == start.written == 0
    ensures StatsAt(d, depth, 0, 0, start, start) && FineBefore(d, depth, 0, 0)
  {
    forall px: nat, py: nat ensures !Before(0, 0, px, py) {
    }
    hide Before, FateOf, Passing;
    assert ShadedQuads(d, depth, 0, 0) == {};
    forall fate ensures WithFate(d, depth, fate, 0, 0) == {} {
    }
  }

  lemma StatsNext(d: Draw, depth: Grid<real>, x: nat, y: nat, start: Stats, stats: Stats, stats': Stats)
    requires Rect(depth, d) && IsQuad(d, x, y) && StatsAt(d, depth, x, y, start, stats) && Tallied(d, depth, x, y, stats, stats')
    ensures StatsAt(d, depth, x + 2, y, start, stats')
  {
    hide ShadedQuads, WithFate, LanesOf, Passing;
    ShadedQuadCounts(d, depth, x, y);
    FateCounts(d, depth, Rejected, x, y);
    FateCounts(d, depth, Discarded, x, y);
    FateCounts(d, depth, Stored, x, y);
  }

  lemma FineNext(d: Draw, depth: Grid<real>, x: nat, y: nat)
    requires Rect(depth, d) && IsQuad(d, x, y) && FineBefore(d, depth, x, y) && QuadStatus(d, depth, x, y) == Ok
    ensures FineBefore(d, depth, x + 2, y)
  {
    forall px: nat, py: nat | InTarget(d, px, py) && Before(x + 2, y, px, py)
      ensures QuadStatus(d, depth, Even(px), Even(py)) == Ok
    {
      BeforeNext(x, y, px, py);
    }
  }

  lemma RowsSame(d: Draw, x: nat, y: nat)
    requires y % 2 == 0 && x >= d.width
    ensures forall px: nat, py: nat :: px < d.width ==> Before(x, y, px, py) == Before(0, y + 2, px, py)
  {
    forall px: nat, py: nat | px < d.width ensures Before(x, y, px, py) == Before(0, y + 2, px, py) {
      RowEnds(x, y, px, py);
    }
  }

  lemma StatsRow(d: Draw, depth: Grid<real>, x: nat, y: nat, start: Stats, stats: Stats)
    requires Rect(depth, d) && y % 2 == 0 && x >= d.width && StatsAt(d, depth, x, y, start, stats) && FineBefore(d, depth, x, y)
    ensures StatsAt(d, depth, 0, y + 2, start, stats) && FineBefore(d, depth, 0, y + 2)
  {
    RowsSame(d, x, y);
    hide Before, FateOf, Passing, QuadStatus;
    assert ShadedQuads(d, depth, x, y) == ShadedQuads(d, depth, 0, y + 2);
    forall fate ensures WithFate(d, depth, fate, x, y) == WithFate(d, depth, fate, 0, y + 2) {
    }
  }

  lemma CoveredQuadsRow(d: Draw, x: nat, y: nat)
    requires y % 2 == 0 && x >= d.width
    ensures CoveredQuads(d, x, y) == CoveredQuads(d, 0, y + 2)
  {
    RowsSame(d, x, y);
    hide Before, Coverage;
  }

  lemma RowsDone(d: Draw)
    ensures forall px: nat, py: nat :: InTarget(d, px, py) ==> Before(0, EndRow(d), px, py)
  {
  }

  lemma TotalsAre(d: Draw, depth: Grid<real>, start: Stats, stats: Stats)
    requires Rect(depth, d) && StatsAt(d, depth, 0, EndRow(d), start, stats) && FineBefore(d, depth, 0, EndRow(d))
    ensures DrawsAs(d, depth, Ok)
    ensures stats == Totals(d, depth, start.covered, start.scratch)
  {
    RowsDone(d);
    hide Before, FateOf, Passing, QuadStatus, EndRow;
    assert ShadedQuads(d, depth, 0, EndRow(d)) == RunQuads(d, depth);
    forall fate ensures WithFate(d, depth, fate, 0, EndRow(d)) == Fated(d, depth, fate) {
    }
  }

  /** Every covered sample has exactly one of the three fates. */
  lemma FatesPartition(d: Draw, depth: Grid<real>, y: nat)
    requires Rect(depth, d) && y >= d.height
    ensures |CoveredBefore(d, 0, y)| == |Fated(d, depth, Rejected)| + |Fated(d, depth, Discarded)| + |Fated(d, depth, Stored)|
  {
    hide SampleCovered, SamplePasses, SampleWritten;
    var early := Fated(d, depth, Rejected) + Fated(d, depth, Discarded);
    forall px: nat, py: nat | py < d.height ensures Before(0, y, px, py) {
    }
    hide Before;
    JoinCount(Fated(d, depth, Rejected), Fated(d, depth, Discarded), early);
    JoinCount(early, Fated(d, depth, Stored), CoveredBefore(d, 0, y));
  }

  /** The first pass: quads with coverage, and covered samples. */
  method CountCoverage(d: Draw) returns (required: nat, covered: nat)
    ensures covered == |CoveredBefore(d, 0, EndRow(d))| && required == |TouchedQuads(d)|
  {
    hide CoveredBefore, CoveredQuads, TouchedQuads, Coverage;
    required, covered := 0, 0;
    var y := 0;
    NothingBefore(d);
    while y < d.height
      invariant y % 2 == 0 && 0 <= y <= EndRow(d)
      invariant covered == |CoveredBefore(d, 0, y)| && required == |CoveredQuads(d, 0, y)|
    {
      var x := 0;
      while x < d.width
        invariant x % 2 == 0 && 0 <= x && covered == |CoveredBefore(d, x, y)| && required == |CoveredQuads(d, x, y)|
      {
        var mask := CoverageMask(d, x, y);
        if mask != {} {
          required := required + 1;
        }
        covered := covered + |mask|;
        QuadCounts(d, x, y);
        CoveredQuadCounts(d, x, y);
        x := x + 2;
      }
      RowCounts(d, x, y);
      CoveredQuadsRow(d, x, y);
      y := y + 2;
    }
    AllTouched(d);
  }

  lemma AllTouched(d: Draw)
    ensures CoveredQuads(d, 0, EndRow(d)) == TouchedQuads(d)
  {
    RowsDone(d);
    hide Before, Coverage, EndRow;
  }

  /** The second pass, on the scratch buffers. */
  method DrawQuads(d: Draw, start: Stats, color0: Grid<Rgba>, depth0: Grid<real>)
    returns (status: Status, stats: Stats, color: Grid<Rgba>, depth: Grid<real>)
    requires Rect(color0, d) && Rect(depth0, d) && start.quads == start.rejected == start.discarded == start.written == 0
    ensures DrawsAs(d, depth0, status)
    ensures status == Ok ==>
      && Progress(d, color0, depth0, color, depth, 0, EndRow(d))
      && stats == Totals(d, depth0, start.covered, start.scratch)
  {
    hide Progress, StatsAt, Tallied, FineBefore, QuadStatus, RunQuads, Fated;
    status, stats, color, depth := Ok, start, color0, depth0;
    var y := 0;
    StatsStart(d, depth0, start);
    NothingDrawn(d, color0, depth0);
    while y < d.height
      invariant y % 2 == 0 && 0 <= y <= EndRow(d) && Progress(d, color0, depth0, color, depth, 0, y)
      invariant StatsAt(d, depth0, 0, y, start, stats) && FineBefore(d, depth0, 0, y)
    {
      var x := 0;
      while x < d.width
        invariant x % 2 == 0 && 0 <= x && Progress(d, color0, depth0, color, depth, x, y)
        invariant StatsAt(d, depth0, x, y, start, stats) && FineBefore(d, depth0, x, y)
      {
        ghost var was := stats;
        status, stats, color, depth := DrawQuad(d, x, y, stats, color, depth, color0, depth0);
        if status != Ok {
          assert FailsAt(d, depth0, x, y, status);
          return;
        }
        StatsNext(d, depth0, x, y, start, was, stats);
        FineNext(d, depth0, x, y);
        x := x + 2;
      }
      StatsRow(d, depth0, x, y, start, stats);
      RowProgress(d, x, y, color0, depth0, color, depth);
      y := y + 2;
    }
    TotalsAre(d, depth0, start, stats);
    status := Ok;
  }

  lemma NothingDrawn(d: Draw, color: Grid<Rgba>, depth: Grid<real>)
    requires Rect(color, d) && Rect(depth, d)
    ensures Progress(d, color, depth, color, depth, 0, 0)
  {
    hide ColorIs, DepthIs;
    forall px: nat, py: nat | InTarget(d, px, py) ensures SampleDone(d, color, depth, color, depth, 0, 0, px, py) {
    }
  }

  /** Copies the visible part of a buffer, row by row. */
  method CopyOut<T>(g: Grid<T>, d: Draw) returns (r: Grid<T>)
    requires Rect(g, d)
    ensures Rect(r, d) && forall y :: 0 <= y < d.height ==> r[y] == g[y][..d.width]
  {
    r := [];
    for y := 0 to d.height
      invariant |r| == y && forall k :: 0 <= k < y ==> r[k] == g[k][..d.width]
    {
      r := r + [g[y][..d.width]];
    }
  }

  /** Copies rows back over the visible part; padding stays. */
  method CopyBack<T>(g: Grid<T>, scratch: Grid<T>, d: Draw) returns (r: Grid<T>)
    requires Rect(g, d) && Rect(scratch, d)
    ensures Rect(r, d) && forall y :: 0 <= y < d.height ==> r[y] == scratch[y][..d.width] + g[y][d.width..]
  {
    r := g;
    for y := 0 to d.height
      invariant |r| == |g| && forall k :: 0 <= k < |g| ==> r[k] == if k < y then scratch[k][..d.width] + g[k][d.width..] else g[k]
    {
      r := r[y := scratch[y][..d.width] + g[y][d.width..]];
    }
  }

  class Surface {
    var color: Grid<Rgba>
    var depth: Grid<real>
  }

  /** Every visible sample has the value the draw gives it, and padding is as before. */
  ghost predicate Drawn(d: Draw, color0: Grid<Rgba>, depth0: Grid<real>, color: Grid<Rgba>, depth: Grid<real>) {
    && Rect(color0, d) && Rect(depth0, d) && Rect(color, d) && Rect(depth, d)
    && (forall y :: 0 <= y < d.height ==> color[y][d.width..] == color0[y][d.width..] && depth[y][d.width..] == depth0[y][d.width..])
    && forall px: nat, py: nat :: InTarget(d, px, py) ==>
         ColorIs(d, color0, depth0, px, py, color[py][px]) && DepthIs(d, depth0, px, py, depth[py][px])
  }

  /** Trimming rows does not change what the visible samples become. */
  lemma TrimmedSame(d: Draw, depth0: Grid<real>, trimmed: Grid<real>, x: nat, y: nat)
    requires Rect(depth0, d) && Rect(trimmed, d)
    requires forall y :: 0 <= y < d.height ==> trimmed[y] == depth0[y][..d.width]
    ensures Passing(d, depth0, x, y) == Passing(d, trimmed, x, y)
  {
    hide SampleCovered, DepthPasses, Clamp;
  }

  lemma Committed(d: Draw, color0: Grid<Rgba>, depth0: Grid<real>, colorS: Grid<Rgba>, depthS: Grid<real>,
                  color: Grid<Rgba>, depth: Grid<real>, end: nat, color': Grid<Rgba>, depth': Grid<real>)
    requires Rect(color0, d) && Rect(depth0, d) && Rect(colorS, d) && Rect(depthS, d)
    requires forall y :: 0 <= y < d.height ==> colorS[y] == color0[y][..d.width] && depthS[y] == depth0[y][..d.width]
    requires Progress(d, colorS, depthS, color, depth, 0, end) && end >= d.height
    requires Rect(color', d) && Rect(depth', d)
    requires forall y :: 0 <= y < d.height ==> color'[y] == color[y][..d.width] + color0[y][d.width..]
    requires forall y :: 0 <= y < d.height ==> depth'[y] == depth[y][..d.width] + depth0[y][d.width..]
    ensures Drawn(d, color0, depth0, color', depth')
  {
    hide Blended, Clamp, Passing;
    forall px: nat, py: nat | InTarget(d, px, py)
      ensures ColorIs(d, color0, depth0, px, py, color'[py][px]) && DepthIs(d, depth0, px, py, depth'[py][px])
    {
      assert SampleDone(d, colorS, depthS, color, depth, 0, end, px, py);
      TrimmedSame(d, depth0, depthS, Even(px), Even(py));
    }
  }

  lemma NothingCovered(d: Draw, color: Grid<Rgba>, depth: Grid<real>)
    requires Rect(color, d) && Rect(depth, d) && |TouchedQuads(d)| == 0
    ensures Drawn(d, color, depth, color, depth) && CoveredBefore(d, 0, EndRow(d)) == {}
  {
    NothingTouched(d);
    forall px: nat, py: nat | InTarget(d, px, py)
      ensures !SampleCovered(d, px, py) && Passing(d, depth, Even(px), Even(py)) == {}
    {
      SampleLane(px, py);
      assert LaneOf(px, py) !in Coverage(d, Even(px), Even(py));
      PassingCovered(d, depth, Even(px), Even(py));
    }
    hide SampleCovered, Blended, Passing, Coverage, TouchedQuads, Before;
  }

  /** Trimmed rows or not, every quad goes the same way and every sample has the same fate. */
  lemma TrimmedTotals(d: Draw, depth: Grid<real>, trimmed: Grid<real>, status: Status)
    requires Rect(depth, d) && Rect(trimmed, d) && DrawsAs(d, trimmed, status)
    requires forall y :: 0 <= y < d.height ==> trimmed[y] == depth[y][..d.width]
    ensures DrawsAs(d, depth, status) && RunQuads(d, depth) == RunQuads(d, trimmed)
    ensures forall fate :: Fated(d, depth, fate) == Fated(d, trimmed, fate)
  {
    forall x: nat, y: nat ensures Passing(d, depth, x, y) == Passing(d, trimmed, x, y) {
      TrimmedSame(d, depth, trimmed, x, y);
    }
    hide Passing, Before, ReplyStatus, DepthMissing, SampleCovered, DepthPasses, Clamp;
    forall x: nat, y: nat ensures QuadStatus(d, depth, x, y) == QuadStatus(d, trimmed, x, y) {
    }
    forall px: nat, py: nat | px < d.width && py < d.height ensures FateOf(d, depth, px, py) == FateOf(d, trimmed, px, py) {
    }
    hide FateOf, QuadStatus;
    if status != Ok {
      var x: nat, y: nat :| FailsAt(d, trimmed, x, y, status);
      assert FailsAt(d, depth, x, y, status);
    }
  }

  lemma NothingTouched(d: Draw)
    requires |TouchedQuads(d)| == 0
    ensures forall px: nat, py: nat :: InTarget(d, px, py) ==> Coverage(d, Even(px), Even(py)) == {}
  {
    assert TouchedQuads(d) == {};
    forall px: nat, py: nat | InTarget(d, px, py) ensures Coverage(d, Even(px), Even(py)) == {} {
      assert (Even(px), Even(py)) !in TouchedQuads(d);
    }
  }

  /** What a draw answers: refusals in their order, then how its quads go. */
  ghost predicate Outcome(d0: Draw, depth: Grid<real>, memory: nat, planes: bool, status: Status)
    requires Rect(depth, Oriented(d0))
  {
    var d, quads := Oriented(d0), |TouchedQuads(Oriented(d0))|;
    if Edge(d0.a, d0.b, d0.c) == 0 then status == Ok
    else if quads > d0.budget then status == Limit
    else if quads == 0 then status == Ok
    else if !planes then status == Invalid
    else if memory < 2 then status == NoMemory
    else DrawsAs(d, depth, status)
  }

  /** Four bytes of colour and four of depth for every sample. */
  function ScratchBytes(width: nat, height: nat): nat { 8 * (width * height) }

  /** Every count of a successful draw is the size of the set it stands for. */
  ghost predicate Accounts(d0: Draw, depth: Grid<real>, stats: Stats)
    requires Rect(depth, Oriented(d0))
  {
    var d := Oriented(d0);
    if Edge(d0.a, d0.b, d0.c) == 0 || |TouchedQuads(d)| == 0 then stats == NO_STATS
    else stats == Totals(d, depth, |CoveredSamples(d0)|, ScratchBytes(d0.width, d0.height))
  }

  /**
   `memory` counts the allocations that succeed; `planes` says whether interpolation stays finite.
   `was` is what the caller's statistics hold before.
   */
  method Execute(d0: Draw, surface: Surface, memory: nat, planes: bool, was: Stats) returns (status: Status, stats: Stats)
    requires Rect(surface.color, d0) && Rect(surface.depth, d0)
    modifies surface
    ensures Outcome(d0, old(surface.depth), memory, planes, status)
    ensures status != Ok ==> surface.color == old(surface.color) && surface.depth == old(surface.depth) && stats == was
    ensures status == Ok ==> Accounts(d0, old(surface.depth), stats)
    ensures status == Ok ==>
      stats.covered == stats.rejected + stats.discarded + stats.written && stats.covered == |CoveredSamples(d0)|
    ensures status == Ok ==>
      if Edge(d0.a, d0.b, d0.c) == 0 then surface.color == old(surface.color) && surface.depth == old(surface.depth)
      else Drawn(Oriented(d0), old(surface.color), old(surface.depth), surface.color, surface.depth)
  {
    hide CoveredBefore, CoveredSamples, Drawn, Progress, Edge, DrawsAs, TouchedQuads, RunQuads, Fated;
    stats := NO_STATS;
    if Edge(d0.a, d0.b, d0.c) == 0 {
      DegenerateCoversNothing(d0);
      return Ok, stats;
    }
    var d := Oriented(d0);
    ghost var end := EndRow(d);
    var required, covered := CountCoverage(d);
    OrientedCovers(d0, end);
    if required > d.budget {
      return Limit, was;
    }
    if required == 0 {
      NothingCovered(d, surface.color, surface.depth);
      return Ok, stats;
    }
    if !planes {
      return Invalid, was;
    }
    if memory < 2 {
      return NoMemory, was;
    }
    var colorS := CopyOut(surface.color, d);
    var depthS := CopyOut(surface.depth, d);
    var color, depth;
    status, stats, color, depth := DrawQuads(d, Stats(covered, 0, 0, 0, 0, ScratchBytes(d.width, d.height)), colorS, depthS);
    TrimmedTotals(d, surface.depth, depthS, status);
    if status != Ok {
      return status, was;
    }
    FatesPartition(d, surface.depth, end);
    ProgressRect(d, colorS, depthS, color, depth, 0, end);
    var newColor := CopyBack(surface.color, color, d);
    var newDepth := CopyBack(surface.depth, depth, d);
    Committed(d, surface.color, surface.depth, colorS, depthS, color, depth, end, newColor, newDepth);
    surface.color, surface.depth := newColor, newDepth;
  }

  lemma DegenerateCoversNothing(d: Draw)
    requires Edge(d.a, d.b, d.c) == 0
    ensures CoveredSamples(d) == {}
  {
    hide Edge;
  }
}
