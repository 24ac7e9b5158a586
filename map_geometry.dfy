/** The geometry the two map views share: the bounding box of the exterior
    rings of GeoJSON Polygon and MultiPolygon features (sections 3.1.6 and
    3.1.7 of RFC 7946), the uniform-scale projection into the 800 x 600 canvas
    with 40 units of padding and the y axis flipped, the SVG path of a feature
    as a sequence of moveto/lineto/closepath commands (section 8.3 of SVG 1.1),
    and the centre of a province as the mean of its projected exterior points.
    Coordinates are exact reals. */
module MapGeometry {
  import opened Collections

  datatype Point = Point(x: real, y: real)

  /** A linear ring: its positions in order. */
  type Ring = seq<Point>

  /** A polygon: its rings, the exterior ring first, then the holes. */
  type Polygon = seq<Ring>

  datatype Geometry =
    | PolygonGeom(rings: Polygon)
    | MultiPolygonGeom(polygons: seq<Polygon>)
    | OtherGeom   // Point, LineString, GeometryCollection, ...: not drawn

  /** Every polygon has a ring 0; reading `coordinates[0]` of one that has
      none throws. */
  predicate WellFormed(g: Geometry)
  {
    match g
    case PolygonGeom(rings) => |rings| > 0
    case MultiPolygonGeom(polys) => forall i :: 0 <= i < |polys| ==> |polys[i]| > 0
    case OtherGeom => true
  }

  /** The exterior rings of the members of a MultiPolygon, one after another. */
  function MultiExterior(polys: seq<Polygon>): seq<Point>
    requires forall i :: 0 <= i < |polys| ==> |polys[i]| > 0
  {
    if |polys| == 0 then [] else MultiExterior(polys[..|polys| - 1]) + polys[|polys| - 1][0]
  }

  /** The positions the views visit for one feature: exterior rings only. */
  function Exterior(g: Geometry): seq<Point>
    requires WellFormed(g)
  {
    match g
    case PolygonGeom(rings) => rings[0]
    case MultiPolygonGeom(polys) => MultiExterior(polys)
    case OtherGeom => []
  }

  function AllExterior(features: seq<Geometry>): seq<Point>
    requires forall i :: 0 <= i < |features| ==> WellFormed(features[i])
  {
    if |features| == 0 then []
    else AllExterior(features[..|features| - 1]) + Exterior(features[|features| - 1])
  }

  /** The `bounds` object: `NoPoints` is the initial +Infinity/-Infinity
      sentinel state, which no position has replaced. */
  datatype Extent = NoPoints | Box(minX: real, minY: real, maxX: real, maxY: real)

  function Min(a: real, b: real): real { if a <= b then a else b }

  function Max(a: real, b: real): real { if a >= b then a else b }

  /** The four `Math.min`/`Math.max` updates for one position. */
  function Extend(b: Extent, p: Point): Extent
  {
    match b
    case NoPoints => Box(p.x, p.y, p.x, p.y)
    case Box(x0, y0, x1, y1) => Box(Min(x0, p.x), Min(y0, p.y), Max(x1, p.x), Max(y1, p.y))
  }

  /** The bounds after visiting ps in order. */
  function ExtentOf(ps: seq<Point>): Extent
  {
    if |ps| == 0 then NoPoints else Extend(ExtentOf(ps[..|ps| - 1]), ps[|ps| - 1])
  }

  predicate Inside(p: Point, b: Extent)
  {
    b.Box? && b.minX <= p.x <= b.maxX && b.minY <= p.y <= b.maxY
  }

  /** The bounds are the tightest box around the positions: each one lies
      inside, and each side is reached by one of them. With no position there
      is no box. */
  lemma {:induction false} ExtentOfBounds(ps: seq<Point>)
    ensures ExtentOf(ps).NoPoints? <==> |ps| == 0
    ensures forall p :: p in ps ==> Inside(p, ExtentOf(ps))
    ensures ExtentOf(ps).Box? ==>
              var b := ExtentOf(ps);
              b.minX <= b.maxX && b.minY <= b.maxY
              && (exists p :: p in ps && p.x == b.minX) && (exists p :: p in ps && p.x == b.maxX)
              && (exists p :: p in ps && p.y == b.minY) && (exists p :: p in ps && p.y == b.maxY)
  {
    ExtentHolds(ps);
    if |ps| > 0 {
      var a, b, c, d := ExtentReached(ps);
    }
  }

  /** Every position lies inside the bounds, which are a box once there is one. */
  lemma {:induction false} ExtentHolds(ps: seq<Point>)
    ensures ExtentOf(ps).NoPoints? <==> |ps| == 0
    ensures forall i :: 0 <= i < |ps| ==> Inside(ps[i], ExtentOf(ps))
  {
    if |ps| > 0 {
      var ps0 := ps[..|ps| - 1];
      ExtentHolds(ps0);
      forall i | 0 <= i < |ps|
        ensures Inside(ps[i], ExtentOf(ps))
      {
        if i < |ps| - 1 {
          assert ps[i] == ps0[i];
        }
      }
    }
  }

  /** The positions that reach the four sides, by index. */
  lemma {:induction false} ExtentReached(ps: seq<Point>) returns (a: nat, b: nat, c: nat, d: nat)
    requires |ps| > 0
    ensures ExtentOf(ps).Box?
    ensures a < |ps| && ps[a].x == ExtentOf(ps).minX
    ensures b < |ps| && ps[b].x == ExtentOf(ps).maxX
    ensures c < |ps| && ps[c].y == ExtentOf(ps).minY
    ensures d < |ps| && ps[d].y == ExtentOf(ps).maxY
  {
    var n := |ps| - 1;
    if n == 0 {
      a, b, c, d := 0, 0, 0, 0;
    } else {
      var ps0 := ps[..n];
      a, b, c, d := ExtentReached(ps0);
      var e0 := ExtentOf(ps0);
      var q := ps[n];
      assert ps[a] == ps0[a] && ps[b] == ps0[b] && ps[c] == ps0[c] && ps[d] == ps0[d];
      if q.x < e0.minX { a := n; }
      if q.x > e0.maxX { b := n; }
      if q.y < e0.minY { c := n; }
      if q.y > e0.maxY { d := n; }
    }
  }

  /** `getBounds(features)`: one pass over the features, and within each over
      the exterior ring of the polygon or of every member polygon, extending
      the bounds by each position. */
  method GetBounds(features: seq<Geometry>) returns (b: Extent)
    requires forall i :: 0 <= i < |features| ==> WellFormed(features[i])
    ensures b == ExtentOf(AllExterior(features))
  {
    b := NoPoints;
    var i := 0;
    while i < |features|
      invariant 0 <= i <= |features|
      invariant b == ExtentOf(AllExterior(features[..i]))
    {
      assert features[..i + 1][..i] == features[..i];
      b := ExtendByFeature(b, AllExterior(features[..i]), features[i]);
      i := i + 1;
    }
    assert features[..i] == features;
  }

  /** The body of `features.forEach`: the exterior ring of a Polygon, those of
      every member of a MultiPolygon, nothing for other types. */
  method ExtendByFeature(b0: Extent, ghost seen: seq<Point>, g: Geometry) returns (b: Extent)
    requires WellFormed(g) && b0 == ExtentOf(seen)
    ensures b == ExtentOf(seen + Exterior(g))
  {
    match g {
      case MultiPolygonGeom(polys) =>
        b := b0;
        var j := 0;
        assert seen + MultiExterior(polys[..0]) == seen;
        while j < |polys|
          invariant 0 <= j <= |polys|
          invariant b == ExtentOf(seen + MultiExterior(polys[..j]))
        {
          b := ExtendByRing(b, seen + MultiExterior(polys[..j]), polys[j][0]);
          assert polys[..j + 1][..j] == polys[..j];
          assert seen + MultiExterior(polys[..j + 1]) == seen + MultiExterior(polys[..j]) + polys[j][0];
          j := j + 1;
        }
        assert polys[..j] == polys;
      case PolygonGeom(rings) =>
        b := ExtendByRing(b0, seen, rings[0]);
      case OtherGeom =>
        b := b0;
        assert seen + [] == seen;
    }
  }

  /** The inner `forEach` over one ring. */
  method ExtendByRing(b0: Extent, ghost seen: seq<Point>, ring: Ring) returns (b: Extent)
    requires b0 == ExtentOf(seen)
    ensures b == ExtentOf(seen + ring)
  {
    b := b0;
    var k := 0;
    assert seen + ring[..0] == seen;
    while k < |ring|
      invariant 0 <= k <= |ring|
      invariant b == ExtentOf(seen + ring[..k])
    {
      assert (seen + ring[..k + 1])[..|seen| + k] == seen + ring[..k];
      b := Extend(b, ring[k]);
      k := k + 1;
    }
    assert ring[..k] == ring;
  }

  /** Every exterior position of every drawn feature lies inside the bounds. */
  lemma BoundsContainExterior(features: seq<Geometry>, b: Extent)
    requires forall i :: 0 <= i < |features| ==> WellFormed(features[i])
    requires b == ExtentOf(AllExterior(features))
    ensures forall i, p :: 0 <= i < |features| && p in Exterior(features[i]) ==> Inside(p, b)
  {
    ExtentOfBounds(AllExterior(features));
    forall i, p | 0 <= i < |features| && p in Exterior(features[i])
      ensures p in AllExterior(features)
    {
      ExteriorInAll(features, i);
    }
  }

  lemma {:induction false} ExteriorInAll(features: seq<Geometry>, i: int)
    requires forall i :: 0 <= i < |features| ==> WellFormed(features[i])
    requires 0 <= i < |features|
    ensures forall p :: p in Exterior(features[i]) ==> p in AllExterior(features)
  {
    var n := |features|;
    if i < n - 1 {
      assert features[..n - 1][i] == features[i];
      ExteriorInAll(features[..n - 1], i);
    }
  }

  const Width: real := 800.0
  const Height: real := 600.0
  const Padding: real := 40.0

  /** What the projection needs from the bounds: their corner and one scale. */
  datatype Frame = Frame(minX: real, minY: real, scale: real)

  /** `scale = Math.min(scaleX, scaleY)` with scaleX = 720 / (maxX - minX) and
      scaleY = 520 / (maxY - minY). A zero span divides to +Infinity, which
      `Math.min` passes over; with both spans zero, or no bounds at all, every
      projected coordinate is NaN and there is no frame. */
  function MakeFrame(b: Extent): (f: Option<Frame>)
    ensures f.Some? <==> b.Box? && b.minX <= b.maxX && b.minY <= b.maxY && (b.maxX > b.minX || b.maxY > b.minY)
    ensures f.Some? ==> b.Box? && f.value.scale > 0.0 && f.value.minX == b.minX && f.value.minY == b.minY
    ensures f.Some? && b.maxX > b.minX ==> f.value.scale <= Fit(Width - 2.0 * Padding, b.maxX - b.minX)
    ensures f.Some? && b.maxY > b.minY ==> f.value.scale <= Fit(Height - 2.0 * Padding, b.maxY - b.minY)
    ensures f.Some? && b.maxX > b.minX && b.maxY > b.minY ==>
              f.value.scale == Min(Fit(Width - 2.0 * Padding, b.maxX - b.minX), Fit(Height - 2.0 * Padding, b.maxY - b.minY))
    ensures f.Some? && b.maxX > b.minX && b.maxY == b.minY ==> f.value.scale == Fit(Width - 2.0 * Padding, b.maxX - b.minX)
    ensures f.Some? && b.maxX == b.minX && b.maxY > b.minY ==> f.value.scale == Fit(Height - 2.0 * Padding, b.maxY - b.minY)
  {
    if b.NoPoints? || b.maxX < b.minX || b.maxY < b.minY then None
    else if b.maxX > b.minX && b.maxY > b.minY then
      Some(Frame(b.minX, b.minY, Min(Fit(Width - 2.0 * Padding, b.maxX - b.minX), Fit(Height - 2.0 * Padding, b.maxY - b.minY))))
    else if b.maxX > b.minX then Some(Frame(b.minX, b.minY, Fit(Width - 2.0 * Padding, b.maxX - b.minX)))
    else if b.maxY > b.minY then Some(Frame(b.minX, b.minY, Fit(Height - 2.0 * Padding, b.maxY - b.minY)))
    else None
  }

  /** The scale that stretches a span over the room: room / span. */
  function Fit(room: real, span: real): (s: real)
    requires room > 0.0 && span > 0.0
    ensures s > 0.0 && s * span == room
  {
    room / span
  }

  /** A difference within the span, scaled by a positive scale that is at
      most the fitting one when the span is not empty, stays within the room. */
  lemma ScaledWithin(d: real, span: real, room: real, s: real)
    requires room > 0.0 && 0.0 <= d <= span && s > 0.0
    requires span > 0.0 ==> s <= Fit(room, span)
    ensures 0.0 <= d * s <= room
  {
    if span > 0.0 {
      var t := Fit(room, span);
      assert d * s <= span * s;
      assert span * s <= span * t;
    } else {
      assert d == 0.0;
    }
  }

  /** `projectPoint(coord, bounds)`. */
  function Project(p: Point, f: Frame): Point
  {
    Point(Padding + (p.x - f.minX) * f.scale, Height - (Padding + (p.y - f.minY) * f.scale))
  }

  /** The same scale on both axes: differences of positions are scaled by
      one factor, x keeps its direction and y is flipped. */
  lemma ProjectUniform(p: Point, q: Point, f: Frame)
    requires f.scale > 0.0
    ensures Project(q, f).x - Project(p, f).x == (q.x - p.x) * f.scale
    ensures Project(q, f).y - Project(p, f).y == -(q.y - p.y) * f.scale
    ensures p.x <= q.x ==> Project(p, f).x <= Project(q, f).x
    ensures p.y <= q.y ==> Project(p, f).y >= Project(q, f).y
  {
  }

  /** A position inside the bounds lands in the padded canvas, [40, 760] x [40, 560]. */
  lemma ProjectInCanvas(p: Point, b: Extent)
    requires MakeFrame(b).Some? && Inside(p, b)
    ensures var q := Project(p, MakeFrame(b).value);
            Padding <= q.x <= Width - Padding && Padding <= q.y <= Height - Padding
  {
    var f := MakeFrame(b).value;
    var ex, ey := (p.x - f.minX) * f.scale, (p.y - f.minY) * f.scale;
    ScaledWithin(p.x - f.minX, b.maxX - b.minX, Width - 2.0 * Padding, f.scale);
    ScaledWithin(p.y - f.minY, b.maxY - b.minY, Height - 2.0 * Padding, f.scale);
    assert Project(p, f) == Point(Padding + ex, Height - (Padding + ey));
  }

  /** The SVG path commands `M x,y`, `L x,y` and `Z`. */
  datatype PathCmd = MoveTo(p: Point) | LineTo(p: Point) | ClosePath

  /** `ring.map((coord, index) => (index === 0 ? 'M' : 'L') + ...)`, then 'Z'. */
  function RingPath(ring: Ring, f: Frame): (cmds: seq<PathCmd>)
    ensures |cmds| == |ring| + 1 && cmds[|ring|] == ClosePath
    ensures forall k :: 0 <= k < |ring| ==>
              cmds[k] == (if k == 0 then MoveTo(Project(ring[k], f)) else LineTo(Project(ring[k], f)))
  {
    seq(|ring|, k requires 0 <= k < |ring| =>
      if k == 0 then MoveTo(Project(ring[k], f)) else LineTo(Project(ring[k], f))) + [ClosePath]
  }

  function MultiPath(polys: seq<Polygon>, f: Frame): seq<PathCmd>
    requires forall i :: 0 <= i < |polys| ==> |polys[i]| > 0
  {
    if |polys| == 0 then [] else MultiPath(polys[..|polys| - 1], f) + RingPath(polys[|polys| - 1][0], f)
  }

  /** `generatePath(geometry, bounds)`: one closed subpath per exterior ring; an
      unknown type draws nothing; a polygon without ring 0 makes the code throw,
      which the `catch` turns into the empty path. */
  function GeneratePath(g: Geometry, f: Frame): seq<PathCmd>
  {
    if !WellFormed(g) then []
    else match g
      case PolygonGeom(rings) => RingPath(rings[0], f)
      case MultiPolygonGeom(polys) => MultiPath(polys, f)
      case OtherGeom => []
  }

  function Count(cmds: seq<PathCmd>, close: bool): nat
  {
    if |cmds| == 0 then 0
    else Count(cmds[..|cmds| - 1], close) + (if (close && cmds[|cmds| - 1].ClosePath?) || (!close && cmds[|cmds| - 1].MoveTo?) then 1 else 0)
  }

  lemma {:induction false} CountAppend(a: seq<PathCmd>, b: seq<PathCmd>, close: bool)
    ensures Count(a + b, close) == Count(a, close) + Count(b, close)
    decreases |b|
  {
    if |b| > 0 {
      assert (a + b)[..|a + b| - 1] == a + b[..|b| - 1];
      CountAppend(a, b[..|b| - 1], close);
    } else {
      assert a + b == a;
    }
  }

  /** A ring's path has one Z, at its end, and one M exactly when the ring has a position. */
  lemma RingPathCounts(ring: Ring, f: Frame)
    ensures Count(RingPath(ring, f), true) == 1
    ensures Count(RingPath(ring, f), false) == (if |ring| > 0 then 1 else 0)
  {
    var cmds := RingPath(ring, f);
    var body := cmds[..|ring|];
    assert cmds == body + [ClosePath];
    CountAppend(body, [ClosePath], true);
    CountAppend(body, [ClosePath], false);
    assert [ClosePath][..0] == [];
    BodyCounts(ring, f, |ring|);
  }

  lemma {:induction false} BodyCounts(ring: Ring, f: Frame, n: nat)
    requires n <= |ring|
    ensures Count(RingPath(ring, f)[..n], true) == 0
    ensures Count(RingPath(ring, f)[..n], false) == (if n > 0 then 1 else 0)
  {
    if n > 0 {
      var cmds := RingPath(ring, f);
      assert cmds[..n][..n - 1] == cmds[..n - 1];
      BodyCounts(ring, f, n - 1);
    }
  }

  /** A MultiPolygon draws one M...Z subpath per member polygon (members with
      an empty exterior ring draw a bare Z). */
  lemma {:induction false} MultiPathSubpaths(polys: seq<Polygon>, f: Frame)
    requires forall i :: 0 <= i < |polys| ==> |polys[i]| > 0
    ensures Count(MultiPath(polys, f), true) == |polys|
    ensures (forall i :: 0 <= i < |polys| ==> |polys[i][0]| > 0) ==> Count(MultiPath(polys, f), false) == |polys|
  {
    if |polys| > 0 {
      var p0 := polys[..|polys| - 1];
      MultiPathSubpaths(p0, f);
      var last := polys[|polys| - 1][0];
      CountAppend(MultiPath(p0, f), RingPath(last, f), true);
      CountAppend(MultiPath(p0, f), RingPath(last, f), false);
      RingPathCounts(last, f);
    }
  }

  /** The positions a path visits, in order. */
  function Vertices(cmds: seq<PathCmd>): seq<Point>
  {
    if |cmds| == 0 then []
    else Vertices(cmds[..|cmds| - 1]) + (if cmds[|cmds| - 1].ClosePath? then [] else [cmds[|cmds| - 1].p])
  }

  lemma {:induction false} VerticesAppend(a: seq<PathCmd>, b: seq<PathCmd>)
    ensures Vertices(a + b) == Vertices(a) + Vertices(b)
    decreases |b|
  {
    if |b| > 0 {
      assert (a + b)[..|a + b| - 1] == a + b[..|b| - 1];
      VerticesAppend(a, b[..|b| - 1]);
    } else {
      assert a + b == a;
    }
  }

  function ProjectAll(ps: seq<Point>, f: Frame): (qs: seq<Point>)
    ensures |qs| == |ps| && forall k :: 0 <= k < |ps| ==> qs[k] == Project(ps[k], f)
  {
    seq(|ps|, k requires 0 <= k < |ps| => Project(ps[k], f))
  }

  lemma {:induction false} RingPathVertices(ring: Ring, f: Frame, n: nat)
    requires n <= |ring|
    ensures Vertices(RingPath(ring, f)[..n]) == ProjectAll(ring[..n], f)
  {
    if n > 0 {
      var cmds := RingPath(ring, f);
      assert cmds[..n][..n - 1] == cmds[..n - 1];
      RingPathVertices(ring, f, n - 1);
    }
  }

  /** The path of a drawn feature visits exactly the projections of its
      exterior positions, in order. */
  lemma {:induction false} PathVisitsExterior(g: Geometry, f: Frame)
    requires WellFormed(g)
    ensures Vertices(GeneratePath(g, f)) == ProjectAll(Exterior(g), f)
  {
    match g
    case PolygonGeom(rings) =>
      RingVertices(rings[0], f);
    case MultiPolygonGeom(polys) =>
      MultiPathVertices(polys, f);
    case OtherGeom =>
  }

  lemma RingVertices(ring: Ring, f: Frame)
    ensures Vertices(RingPath(ring, f)) == ProjectAll(ring, f)
  {
    var cmds := RingPath(ring, f);
    assert cmds == cmds[..|ring|] + [ClosePath];
    VerticesAppend(cmds[..|ring|], [ClosePath]);
    assert [ClosePath][..0] == [];
    RingPathVertices(ring, f, |ring|);
    assert ring[..|ring|] == ring;
  }

  lemma {:induction false} MultiPathVertices(polys: seq<Polygon>, f: Frame)
    requires forall i :: 0 <= i < |polys| ==> |polys[i]| > 0
    ensures Vertices(MultiPath(polys, f)) == ProjectAll(MultiExterior(polys), f)
  {
    if |polys| > 0 {
      var p0 := polys[..|polys| - 1];
      var last := polys[|polys| - 1][0];
      MultiPathVertices(p0, f);
      VerticesAppend(MultiPath(p0, f), RingPath(last, f));
      RingVertices(last, f);
      assert ProjectAll(MultiExterior(p0) + last, f) == ProjectAll(MultiExterior(p0), f) + ProjectAll(last, f);
    }
  }

  /** Drawn with the frame of its own map's bounds, every vertex of every
      province outline lies in the padded canvas. */
  lemma PathInCanvas(features: seq<Geometry>, i: int)
    requires forall i :: 0 <= i < |features| ==> WellFormed(features[i])
    requires 0 <= i < |features|
    requires MakeFrame(ExtentOf(AllExterior(features))).Some?
    ensures var f := MakeFrame(ExtentOf(AllExterior(features))).value;
            forall q :: q in Vertices(GeneratePath(features[i], f)) ==>
              Padding <= q.x <= Width - Padding && Padding <= q.y <= Height - Padding
  {
    var b := ExtentOf(AllExterior(features));
    var f := MakeFrame(b).value;
    PathVisitsExterior(features[i], f);
    BoundsContainExterior(features, b);
    var ext := Exterior(features[i]);
    forall q | q in Vertices(GeneratePath(features[i], f))
      ensures Padding <= q.x <= Width - Padding && Padding <= q.y <= Height - Padding
    {
      var k :| 0 <= k < |ext| && ProjectAll(ext, f)[k] == q;
      assert ext[k] in ext;
      ProjectInCanvas(ext[k], b);
    }
  }

  /** A geometry that is neither a Polygon nor a MultiPolygon, or that lacks a
      ring 0, draws the empty path. */
  lemma PathOfUndrawn(g: Geometry, f: Frame)
    requires g.OtherGeom? || !WellFormed(g)
    ensures GeneratePath(g, f) == []
  {
  }

  function SumX(ps: seq<Point>): real
  {
    if |ps| == 0 then 0.0 else SumX(ps[..|ps| - 1]) + ps[|ps| - 1].x
  }

  function SumY(ps: seq<Point>): real
  {
    if |ps| == 0 then 0.0 else SumY(ps[..|ps| - 1]) + ps[|ps| - 1].y
  }

  /** `getProvinceCenter(geometry, bounds)`: the mean of the projected exterior
      positions; with none, both means are 0 / 0, NaN. */
  function ProvinceCenter(g: Geometry, f: Frame): Option<Point>
    requires WellFormed(g)
  {
    var ps := ProjectAll(Exterior(g), f);
    if |ps| == 0 then None
    else Some(Point(SumX(ps) / (|ps| as real), SumY(ps) / (|ps| as real)))
  }

  lemma {:induction false} SumXBetween(ps: seq<Point>, lo: real, hi: real)
    requires forall k :: 0 <= k < |ps| ==> lo <= ps[k].x <= hi
    ensures (|ps| as real) * lo <= SumX(ps) <= (|ps| as real) * hi
  {
    if |ps| > 0 {
      var ps0 := ps[..|ps| - 1];
      assert forall k :: 0 <= k < |ps0| ==> ps0[k] == ps[k];
      SumXBetween(ps0, lo, hi);
      AddOneBetween(|ps0| as real, SumX(ps0), ps[|ps| - 1].x, lo, hi);
    }
  }

  lemma {:induction false} SumYBetween(ps: seq<Point>, lo: real, hi: real)
    requires forall k :: 0 <= k < |ps| ==> lo <= ps[k].y <= hi
    ensures (|ps| as real) * lo <= SumY(ps) <= (|ps| as real) * hi
  {
    if |ps| > 0 {
      var ps0 := ps[..|ps| - 1];
      assert forall k :: 0 <= k < |ps0| ==> ps0[k] == ps[k];
      SumYBetween(ps0, lo, hi);
      AddOneBetween(|ps0| as real, SumY(ps0), ps[|ps| - 1].y, lo, hi);
    }
  }

  lemma AddOneBetween(n: real, s: real, x: real, lo: real, hi: real)
    requires n * lo <= s <= n * hi && lo <= x <= hi
    ensures (n + 1.0) * lo <= s + x <= (n + 1.0) * hi
  {
    assert (n + 1.0) * lo == n * lo + lo;
    assert (n + 1.0) * hi == n * hi + hi;
  }

  /** The centre lies in any box that holds all the projected exterior
      positions, in particular in their own bounding box and, for a province
      of the drawn map, in the padded canvas. */
  lemma CenterInside(g: Geometry, f: Frame, lo: Point, hi: Point)
    requires WellFormed(g)
    requires forall q :: q in ProjectAll(Exterior(g), f) ==> lo.x <= q.x <= hi.x && lo.y <= q.y <= hi.y
    ensures ProvinceCenter(g, f).None? <==> |Exterior(g)| == 0
    ensures ProvinceCenter(g, f).Some? ==>
              var c := ProvinceCenter(g, f).value;
              lo.x <= c.x <= hi.x && lo.y <= c.y <= hi.y
  {
    var ps := ProjectAll(Exterior(g), f);
    if |ps| > 0 {
      MeanBetween(ps, lo, hi);
    }
  }

  lemma MeanBetween(ps: seq<Point>, lo: Point, hi: Point)
    requires |ps| > 0
    requires forall q :: q in ps ==> lo.x <= q.x <= hi.x && lo.y <= q.y <= hi.y
    ensures lo.x <= SumX(ps) / (|ps| as real) <= hi.x
    ensures lo.y <= SumY(ps) / (|ps| as real) <= hi.y
  {
    assert forall k :: 0 <= k < |ps| ==> ps[k] in ps;
    MeanXBetween(ps, lo.x, hi.x);
    MeanYBetween(ps, lo.y, hi.y);
  }

  lemma MeanXBetween(ps: seq<Point>, lo: real, hi: real)
    requires |ps| > 0
    requires forall k :: 0 <= k < |ps| ==> lo <= ps[k].x <= hi
    ensures lo <= SumX(ps) / (|ps| as real) <= hi
  {
    SumXBetween(ps, lo, hi);
    DivideBetween(SumX(ps), |ps| as real, lo, hi);
  }

  lemma MeanYBetween(ps: seq<Point>, lo: real, hi: real)
    requires |ps| > 0
    requires forall k :: 0 <= k < |ps| ==> lo <= ps[k].y <= hi
    ensures lo <= SumY(ps) / (|ps| as real) <= hi
  {
    SumYBetween(ps, lo, hi);
    DivideBetween(SumY(ps), |ps| as real, lo, hi);
  }

  lemma DivideBetween(s: real, n: real, lo: real, hi: real)
    requires n > 0.0 && n * lo <= s <= n * hi
    ensures lo <= s / n <= hi
  {
    assert s / n * n == s;
  }
}
