/** Fitting a track's samples into the map's padded box. */
module TrackProjection {
  import opened Support

  /** A coordinate that is not a finite number is None. */
  datatype Point = Point(x: Option<real>, y: Option<real>)

  predicate Valid(p: Point) {
    p.x.Some? && p.y.Some?
  }

  type Axis = Point -> real

  function X(p: Point): real {
    if p.x.Some? then p.x.value else 0.0
  }

  function Y(p: Point): real {
    if p.y.Some? then p.y.value else 0.0
  }

  function Least(axis: Axis, s: seq<Point>): (least: real)
    requires s != []
    ensures (forall i :: 0 <= i < |s| ==> least <= axis(s[i])) && exists i :: 0 <= i < |s| && axis(s[i]) == least
  {
    if |s| == 1 then axis(s[0])
    else
      var rest := Least(axis, s[1..]);
      assert s[1..] + [] == s[1..] && forall i :: 1 <= i < |s| ==> s[i] == s[1..][i - 1];
      assert exists i :: 0 <= i < |s| && axis(s[i]) == rest by {
        var i :| 0 <= i < |s[1..]| && axis(s[1..][i]) == rest;
        assert s[i + 1] == s[1..][i];
      }
      if axis(s[0]) < rest then axis(s[0]) else rest
  }

  function Greatest(axis: Axis, s: seq<Point>): real
    requires s != []
  {
    -Least((p: Point) => -axis(p), s)
  }

  datatype Projection = Projection(
    scale: real, minX: real, minY: real, offsetX: real, offsetY: real, height: real)

  datatype Screen = Screen(x: real, y: real)

  function Project(t: Projection, p: Point): Screen {
    Screen(Along(t.offsetX, X(p) - t.minX, t.scale), t.height - Along(t.offsetY, Y(p) - t.minY, t.scale))
  }

  function Along(offset: real, distance: real, scale: real): real {
    offset + distance * scale
  }

  /** What is left on either side of a scaled span. */
  function Margin(size: real, span: real, scale: real): real {
    (size - span * scale) / 2.0
  }

  function MinReal(a: real, b: real): real {
    if a < b then a else b
  }

  function Ratio(a: real, b: real): real
    requires b > 0.0
  {
    a / b
  }

  lemma RatioFacts(a: real, b: real)
    requires b > 0.0
    ensures Ratio(a, b) * b == b * Ratio(a, b) == a
    ensures a >= 0.0 ==> Ratio(a, b) >= 0.0
  {
  }

  function Span(axis: Axis, points: seq<Point>): real
    requires points != []
  {
    Greatest(axis, points) - Least(axis, points)
  }

  /** The largest scale at which both spans fit the room inside the padding. */
  function ScaleFor(roomX: real, roomY: real, spanX: real, spanY: real): real
    requires spanX > 0.0 && spanY > 0.0
  {
    MinReal(Ratio(roomX, spanX), Ratio(roomY, spanY))
  }

  function Fit(positions: seq<Point>, width: real, height: real, padding: real): Option<Projection> {
    var points := Keep(Valid, positions);
    if |points| < 2 then None
    else
      var spanX, spanY := Span(X, points), Span(Y, points);
      if spanX <= 0.0 || spanY <= 0.0 then None
      else
        var scale := ScaleFor(width - padding * 2.0, height - padding * 2.0, spanX, spanY);
        Some(Projection(scale, Least(X, points), Least(Y, points),
                        Margin(width, spanX, scale), Margin(height, spanY, scale), height))
  }

  lemma MulMonotone(a: real, b: real, factor: real)
    requires a <= b && factor >= 0.0
    ensures a * factor <= b * factor
  {
  }

  /** Along one axis: a scaled span no longer than the room, centred, stays inside the padding. */
  lemma CentredInside(span: real, at: real, scale: real, size: real, padding: real)
    requires 0.0 <= at <= span && span > 0.0 && 0.0 <= scale <= Ratio(size - padding * 2.0, span)
    ensures padding <= Along(Margin(size, span, scale), at, scale) <= size - padding
  {
    hide Ratio;
    RatioFacts(size - padding * 2.0, span);
    MulMonotone(scale, Ratio(size - padding * 2.0, span), span);
    MulMonotone(at, span, scale);
    MulMonotone(0.0, at, scale);
    Centred(size, padding, span * scale, at * scale);
  }

  lemma Centred(size: real, padding: real, wide: real, run: real)
    requires 0.0 <= run <= wide <= size - padding * 2.0
    ensures padding <= (size - wide) / 2.0 + run <= size - padding
  {
  }

  lemma SpanContains(axis: Axis, points: seq<Point>, p: Point)
    requires p in points
    ensures 0.0 <= axis(p) - Least(axis, points) <= Span(axis, points)
  {
    var i :| 0 <= i < |points| && points[i] == p;
    var negated := (q: Point) => -axis(q);
    assert Least(negated, points) <= negated(points[i]);
  }

  /** One axis of the fit: the sample's offset from the least one, scaled and centred. */
  lemma AxisInside(axis: Axis, points: seq<Point>, p: Point, scale: real, size: real, padding: real)
    requires p in points && Span(axis, points) > 0.0 && size >= padding * 2.0
    requires 0.0 <= scale <= Ratio(size - padding * 2.0, Span(axis, points))
    ensures padding <= Along(Margin(size, Span(axis, points), scale), axis(p) - Least(axis, points), scale) <= size - padding
  {
    hide Ratio, Span, Least, Along, Margin;
    SpanContains(axis, points, p);
    CentredInside(Span(axis, points), axis(p) - Least(axis, points), scale, size, padding);
  }

  /** With room inside the padding, every valid sample lands inside the padded box. */
  lemma ProjectsInsidePaddedBox(positions: seq<Point>, width: real, height: real, padding: real, p: Point)
    requires Fit(positions, width, height, padding).Some?
    requires p in positions && Valid(p) && width >= padding * 2.0 && height >= padding * 2.0
    ensures var screen := Project(Fit(positions, width, height, padding).value, p);
            padding <= screen.x <= width - padding && padding <= screen.y <= height - padding
  {
    hide Ratio, Span, Least, Along, Margin;
    var points := Keep(Valid, positions);
    var scale := Fit(positions, width, height, padding).value.scale;
    KeepMember(Valid, positions, p);
    RatioFacts(width - padding * 2.0, Span(X, points));
    RatioFacts(height - padding * 2.0, Span(Y, points));
    AxisInside(X, points, p, scale, width, padding);
    AxisInside(Y, points, p, scale, height, padding);
  }

  lemma Distribute(a: real, b: real, base: real, factor: real)
    ensures (b - base) * factor - (a - base) * factor == (b - a) * factor
    ensures factor > 0.0 && a < b ==> (b - a) * factor > 0.0
  {
  }

  /** One uniform scale on both axes, with y turned over. */
  lemma UniformScaleFlippedY(t: Projection, p: Point, q: Point)
    ensures Project(t, q).x - Project(t, p).x == (X(q) - X(p)) * t.scale
    ensures Project(t, q).y - Project(t, p).y == -((Y(q) - Y(p)) * t.scale)
    ensures t.scale > 0.0 && Y(p) < Y(q) ==> Project(t, p).y > Project(t, q).y
  {
    Distribute(X(p), X(q), t.minX, t.scale);
    Distribute(Y(p), Y(q), t.minY, t.scale);
  }

  /** The scale is as large as the box allows: one axis fills its room exactly. */
  lemma ScaleIsMaximal(positions: seq<Point>, width: real, height: real, padding: real)
    requires Fit(positions, width, height, padding).Some?
    ensures var t := Fit(positions, width, height, padding).value;
            var points := Keep(Valid, positions);
            points != [] &&
            (Span(X, points) * t.scale == width - padding * 2.0 || Span(Y, points) * t.scale == height - padding * 2.0)
  {
    hide Ratio, Span, Margin;
    var points := Keep(Valid, positions);
    RatioFacts(width - padding * 2.0, Span(X, points));
    RatioFacts(height - padding * 2.0, Span(Y, points));
  }

  // ----- When there is a map, and where it sits -----

  predicate Placed(p: Point) {
    p.x.Some? && p.y.Some?
  }

  /** Two placed samples that differ along the axis. */
  ghost predicate Extends(axis: Axis, positions: seq<Point>) {
    exists i, j :: 0 <= i < |positions| && 0 <= j < |positions| && Placed(positions[i]) && Placed(positions[j]) &&
      axis(positions[i]) < axis(positions[j])
  }

  lemma SpanAttained(axis: Axis, points: seq<Point>) returns (least: nat, greatest: nat)
    requires points != []
    ensures least < |points| && greatest < |points|
    ensures axis(points[least]) == Least(axis, points) && axis(points[greatest]) == Least(axis, points) + Span(axis, points)
  {
    least :| 0 <= least < |points| && axis(points[least]) == Least(axis, points);
    var negated := (q: Point) => -axis(q);
    greatest :| 0 <= greatest < |points| && negated(points[greatest]) == Least(negated, points);
  }

  lemma SpanPositive(axis: Axis, positions: seq<Point>)
    ensures Keep(Valid, positions) != [] && Span(axis, Keep(Valid, positions)) > 0.0 <==> Extends(axis, positions)
  {
    var points := Keep(Valid, positions);
    if points != [] {
      var a, b := SpanAttained(axis, points);
      KeepMember(Valid, positions, points[a]);
      KeepMember(Valid, positions, points[b]);
      var i :| 0 <= i < |positions| && positions[i] == points[a];
      var j :| 0 <= j < |positions| && positions[j] == points[b];
    }
    if Extends(axis, positions) {
      var i, j :| 0 <= i < |positions| && 0 <= j < |positions| && Placed(positions[i]) && Placed(positions[j]) &&
        axis(positions[i]) < axis(positions[j]);
      KeepMember(Valid, positions, positions[i]);
      KeepMember(Valid, positions, positions[j]);
      SpanContains(axis, points, positions[i]);
      SpanContains(axis, points, positions[j]);
    }
  }

  /** There is a map exactly when placed samples differ along both axes. */
  lemma FitExactly(positions: seq<Point>, width: real, height: real, padding: real)
    ensures Fit(positions, width, height, padding).Some? <==> Extends(X, positions) && Extends(Y, positions)
  {
    hide Span, Least, Ratio;
    SpanPositive(X, positions);
    SpanPositive(Y, positions);
    var points := Keep(Valid, positions);
    if |points| == 1 {
      OnePointHasNoSpan(X, points);
    }
  }

  lemma OnePointHasNoSpan(axis: Axis, points: seq<Point>)
    requires |points| == 1
    ensures Span(axis, points) == 0.0
  {
  }

  /** The track sits in the middle of the map: along each axis, its two ends are equally far from the edges. */
  lemma TrackIsCentred(positions: seq<Point>, width: real, height: real, padding: real)
    returns (west: Point, east: Point, south: Point, north: Point)
    requires Fit(positions, width, height, padding).Some?
    ensures west in positions && east in positions && south in positions && north in positions
    ensures Placed(west) && Placed(east) && Placed(south) && Placed(north)
    ensures forall i :: 0 <= i < |positions| && Placed(positions[i]) ==>
              X(west) <= X(positions[i]) <= X(east) && Y(south) <= Y(positions[i]) <= Y(north)
    ensures var t := Fit(positions, width, height, padding).value;
            && Project(t, west).x + Project(t, east).x == width
            && Project(t, south).y + Project(t, north).y == height
  {
    var points := Keep(Valid, positions);
    west, east := Ends(X, positions);
    south, north := Ends(Y, positions);
    FitParts(positions, width, height, padding);
    hide Span, Least, Fit, Project;
    var t := Fit(positions, width, height, padding).value;
    EndsMirror(t, width, west, east, south, north, Span(X, points), Span(Y, points));
  }

  lemma EndsMirror(t: Projection, width: real, west: Point, east: Point, south: Point, north: Point, spanX: real, spanY: real)
    requires X(west) == t.minX && X(east) - t.minX == spanX && t.offsetX == Margin(width, spanX, t.scale)
    requires Y(south) == t.minY && Y(north) - t.minY == spanY && t.offsetY == Margin(t.height, spanY, t.scale)
    ensures Project(t, west).x + Project(t, east).x == width
    ensures Project(t, south).y + Project(t, north).y == t.height
  {
    hide Along, Margin;
    MirrorEnds(width, spanX, t.scale);
    MirrorEnds(t.height, spanY, t.scale);
  }

  lemma FitParts(positions: seq<Point>, width: real, height: real, padding: real)
    requires Fit(positions, width, height, padding).Some?
    ensures var points, t := Keep(Valid, positions), Fit(positions, width, height, padding).value;
            && points != [] && t.minX == Least(X, points) && t.minY == Least(Y, points) && t.height == height
            && t.offsetX == Margin(width, Span(X, points), t.scale) && t.offsetY == Margin(height, Span(Y, points), t.scale)
  {
    hide Span, Least, Margin, Ratio;
  }

  /** The two ends of the placed samples along an axis. */
  lemma Ends(axis: Axis, positions: seq<Point>) returns (low: Point, high: Point)
    requires Keep(Valid, positions) != []
    ensures low in positions && high in positions && Placed(low) && Placed(high)
    ensures forall i :: 0 <= i < |positions| && Placed(positions[i]) ==> axis(low) <= axis(positions[i]) <= axis(high)
    ensures var points := Keep(Valid, positions);
            axis(low) == Least(axis, points) && axis(high) - Least(axis, points) == Span(axis, points)
  {
    var points := Keep(Valid, positions);
    var a, b := SpanAttained(axis, points);
    low, high := points[a], points[b];
    KeepMember(Valid, positions, low);
    KeepMember(Valid, positions, high);
    hide Span, Least;
    forall i | 0 <= i < |positions| && Placed(positions[i])
      ensures axis(low) <= axis(positions[i]) <= axis(high)
    {
      KeepMember(Valid, positions, positions[i]);
      SpanContains(axis, points, positions[i]);
    }
  }

  lemma MirrorEnds(size: real, span: real, scale: real)
    ensures Along(Margin(size, span, scale), 0.0, scale) + Along(Margin(size, span, scale), span, scale) == size
  {
    var run := span * scale;
    assert 0.0 * scale == 0.0;
  }

  // ----- The sampled path -----

  const SAMPLES: nat := 700

  function Stride(n: nat): nat
    ensures Stride(n) >= 1
  {
    if n <= SAMPLES then 1 else (n + SAMPLES - 1) / SAMPLES
  }

  /** The indices below k that the path of n samples keeps. */
  function Sampled(n: nat, k: nat): seq<nat>
    requires k <= n
  {
    if k == 0 then []
    else Sampled(n, k - 1) + if (k - 1) % Stride(n) == 0 || k - 1 == n - 1 then [k - 1] else []
  }

  lemma {:induction false} SampledCount(n: nat, k: nat)
    requires k <= n
    ensures |Sampled(n, k)| <= (k + Stride(n) - 1) / Stride(n) + if k == n then 1 else 0
    ensures forall i :: i in Sampled(n, k) ==> 0 <= i < k
  {
    var stride := Stride(n);
    if k > 0 {
      SampledCount(n, k - 1);
      CeilStep(k - 1, stride);
    }
  }

  /** ceil(k / d) grows by one exactly when k is a multiple of d. */
  lemma CeilStep(k: nat, d: nat)
    requires d > 0
    ensures (k + d) / d == (k + d - 1) / d + if k % d == 0 then 1 else 0
  {
    var q, r := k / d, k % d;
    assert k == q * d + r;
    assert (k + d) / d == q + 1 by {
      QuotientIs(k + d, d, q + 1, r);
    }
    if r == 0 {
      assert k + d - 1 == q * d + (d - 1);
      QuotientIs(k + d - 1, d, q, d - 1);
    } else {
      assert k + d - 1 == (q + 1) * d + (r - 1);
      QuotientIs(k + d - 1, d, q + 1, r - 1);
    }
  }

  lemma QuotientIs(x: int, d: int, q: int, r: int)
    requires d > 0 && 0 <= r < d && x == q * d + r
    ensures x / d == q
  {
    var gap := q - x / d;
    assert gap * d == x % d - r;
    FewerThan(gap, 1, d);
    FewerThan(-1, gap, d);
  }

  /** The path has at most 701 points and keeps the first and the last sample. */
  lemma SampledPath(n: nat)
    requires n > 0
    ensures |Sampled(n, n)| <= SAMPLES + 1
    ensures 0 in Sampled(n, n) && n - 1 in Sampled(n, n)
  {
    var stride := Stride(n);
    SampledCount(n, n);
    KeepsFirst(n, n);
    if n > SAMPLES {
      assert SAMPLES * stride >= n;
      var ceil := (n + stride - 1) / stride;
      assert ceil * stride <= n + stride - 1 < (SAMPLES + 1) * stride;
      FewerThan(ceil, SAMPLES + 1, stride);
    } else {
      QuotientIs(n + stride - 1, 1, n, 0);
    }
  }

  lemma FewerThan(a: int, b: int, d: int)
    requires d > 0 && a * d < b * d
    ensures a < b
  {
    assert (b - a) * d > 0;
  }

  lemma {:induction false} KeepsFirst(n: nat, k: nat)
    requires 0 < k <= n
    ensures 0 in Sampled(n, k)
  {
    if k > 1 {
      KeepsFirst(n, k - 1);
    } else {
      assert 0 % Stride(n) == 0;
    }
  }

  /** The path keeps every stride-th sample and the last one, in order, and nothing else; the stride is the least
      that leaves at most seven hundred of the former. */
  lemma {:induction false} SampledExactly(n: nat, k: nat, i: nat)
    requires k <= n
    ensures i in Sampled(n, k) <==> i < k && (i % Stride(n) == 0 || i == n - 1)
  {
    if k > 0 {
      SampledExactly(n, k - 1, i);
    }
  }

  lemma {:induction false} SampledAscends(n: nat, k: nat)
    requires k <= n
    ensures forall i, j :: 0 <= i < j < |Sampled(n, k)| ==> Sampled(n, k)[i] < Sampled(n, k)[j]
  {
    if k > 0 {
      SampledAscends(n, k - 1);
      hide Stride;
      var before := Sampled(n, k - 1);
      forall i | 0 <= i < |before|
        ensures before[i] < k - 1
      {
        SampledExactly(n, k - 1, before[i]);
      }
    }
  }

  lemma StrideIsLeast(n: nat, stride: nat)
    ensures Stride(n) >= 1 && 700 * Stride(n) >= n
    ensures stride >= 1 && 700 * stride >= n ==> stride >= Stride(n)
  {
  }
}
