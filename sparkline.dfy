/** Sparkline coordinates: how the SVG variant and the canvas variant place each
    data point in their drawing box. Only the coordinates are modelled; the SVG
    markup, the gradient id and the canvas calls are not. */
module Sparkline {
  import opened Wrappers

  datatype Point = Point(x: real, y: real)

  function MaxOf(data: seq<real>): (m: real)
    requires data != []
    ensures forall k :: 0 <= k < |data| ==> data[k] <= m
    ensures exists k :: 0 <= k < |data| && data[k] == m
  {
    if |data| == 1 then data[0]
    else
      var rest := MaxOf(data[1..]);
      assert forall k :: 1 <= k < |data| ==> data[k] == data[1..][k - 1];
      if data[0] >= rest then data[0] else rest
  }

  function MinOf(data: seq<real>): (m: real)
    requires data != []
    ensures forall k :: 0 <= k < |data| ==> m <= data[k]
    ensures exists k :: 0 <= k < |data| && data[k] == m
  {
    if |data| == 1 then data[0]
    else
      var rest := MinOf(data[1..]);
      assert forall k :: 1 <= k < |data| ==> data[k] == data[1..][k - 1];
      if data[0] <= rest then data[0] else rest
  }

  /** `max - min || 1`: the spread of the data, or 1 for flat data. */
  function Range(data: seq<real>): (r: real)
    requires data != []
    ensures r > 0.0
    ensures MaxOf(data) != MinOf(data) ==> r == MaxOf(data) - MinOf(data)
    ensures MaxOf(data) == MinOf(data) ==> r == 1.0
  {
    var spread := MaxOf(data) - MinOf(data);
    if spread != 0.0 then spread else 1.0
  }

  /** Where a value sits between the minimum (0) and the maximum (1). */
  function Level(data: seq<real>, v: real): real
    requires data != []
  {
    (v - MinOf(data)) / Range(data)
  }

  lemma LevelInUnit(data: seq<real>, k: nat)
    requires k < |data|
    ensures 0.0 <= Level(data, data[k]) <= 1.0
  {
    var d, r := data[k] - MinOf(data), Range(data);
    assert 0.0 <= d <= r;
    FractionInUnit(d, r);
  }

  lemma LevelOfMin(data: seq<real>)
    requires data != []
    ensures Level(data, MinOf(data)) == 0.0
  {
  }

  lemma LevelOfMax(data: seq<real>)
    requires data != [] && MaxOf(data) != MinOf(data)
    ensures Level(data, MaxOf(data)) == 1.0
  {
    var d := MaxOf(data) - MinOf(data);
    assert Range(data) == d;
    FractionInUnit(d, d);
  }

  lemma FractionInUnit(d: real, r: real)
    requires 0.0 <= d <= r && r > 0.0
    ensures 0.0 <= d / r <= 1.0
    ensures d == r ==> d / r == 1.0
  {
    var q := d / r;
    assert q * r == d;
    NonNegativeFactor(q, r);
    assert (1.0 - q) * r == r - d;
    NonNegativeFactor(1.0 - q, r);
    if d == r {
      assert (q - 1.0) * r == 0.0;
      NonNegativeFactor(q - 1.0, r);
    }
  }

  /** A factor of a non-negative product with a positive factor is non-negative. */
  lemma NonNegativeFactor(a: real, r: real)
    requires r > 0.0 && a * r >= 0.0
    ensures a >= 0.0
  {
  }

  // ---------------------------------------------------------------------
  // createSVGSparkline
  // ---------------------------------------------------------------------

  function SvgX(i: nat, n: nat, width: real): real
    requires n >= 2
  {
    (i as real / (n - 1) as real) * width
  }

  function SvgY(data: seq<real>, v: real, height: real): real
    requires data != []
  {
    height - Level(data, v) * height
  }

  /** The polyline's points, or nothing (`null`) for fewer than two values. */
  function SvgPoints(data: seq<real>, width: real, height: real): (pts: Option<seq<Point>>)
    ensures pts.None? <==> |data| < 2
    ensures pts.Some? ==> |pts.value| == |data|
  {
    if |data| < 2 then None
    else Some(seq(|data|, i requires 0 <= i < |data| => Point(SvgX(i, |data|, width), SvgY(data, data[i], height))))
  }

  /** The x coordinates start at 0 and end at the width... */
  lemma SvgXEnds(data: seq<real>, width: real, height: real)
    requires |data| >= 2
    ensures SvgPoints(data, width, height).value[0].x == 0.0
    ensures SvgPoints(data, width, height).value[|data| - 1].x == width
  {
    var n := (|data| - 1) as real;
    assert (|data| - 1) as real / n == 1.0;
  }

  /** ...and strictly increase in between. */
  lemma SvgXIncreasing(data: seq<real>, width: real, height: real, i: nat, j: nat)
    requires |data| >= 2 && i < j < |data| && width > 0.0
    ensures SvgPoints(data, width, height).value[i].x < SvgPoints(data, width, height).value[j].x
  {
    StepIncreases(i as real, j as real, (|data| - 1) as real, width);
  }

  lemma StepIncreases(a: real, b: real, n: real, w: real)
    requires a < b && n > 0.0 && w > 0.0
    ensures (a / n) * w < (b / n) * w
  {
    assert a / n < b / n;
  }

  /** Every y lies in the box [0, height]. */
  lemma SvgYInBox(data: seq<real>, width: real, height: real, k: nat)
    requires |data| >= 2 && k < |data| && height >= 0.0
    ensures 0.0 <= SvgPoints(data, width, height).value[k].y <= height
  {
    LevelInUnit(data, k);
    ComplementInBox(Level(data, data[k]), height);
  }

  /** The minimum is drawn at the bottom (y = height), the maximum at the top
      (y = 0) unless the data is flat, and flat data lies along the bottom. */
  lemma SvgYExtremes(data: seq<real>, width: real, height: real, k: nat)
    requires |data| >= 2 && k < |data|
    ensures data[k] == MinOf(data) ==> SvgPoints(data, width, height).value[k].y == height
    ensures MaxOf(data) != MinOf(data) && data[k] == MaxOf(data) ==>
      SvgPoints(data, width, height).value[k].y == 0.0
    ensures MaxOf(data) == MinOf(data) ==> SvgPoints(data, width, height).value[k].y == height
  {
    LevelOfMin(data);
    if MaxOf(data) != MinOf(data) {
      LevelOfMax(data);
    } else {
      assert data[k] == MinOf(data);
    }
  }

  lemma ComplementInBox(f: real, h: real)
    requires 0.0 <= f <= 1.0 && h >= 0.0
    ensures 0.0 <= h - f * h <= h
  {
    assert f * h <= h;
  }

  // ---------------------------------------------------------------------
  // drawSparkline (coordinates only)
  // ---------------------------------------------------------------------

  /** The canvas coordinate of the i-th value inside a padded box. */
  function CanvasPoint(data: seq<real>, i: nat, width: real, height: real, padding: real): Point
    requires |data| >= 2 && i < |data|
  {
    Point(CanvasX(|data|, i, width, padding), CanvasY(data, data[i], height, padding))
  }

  /** `padding + i * stepX`, with `stepX = (width - padding * 2) / (data.length - 1)`. */
  function CanvasX(n: nat, i: nat, width: real, padding: real): real
    requires n >= 2
  {
    var stepX := (width - padding * 2.0) / (n - 1) as real;
    padding + i as real * stepX
  }

  /** `padding + (1 - (val - min) / range) * (height - padding * 2)`. */
  function CanvasY(data: seq<real>, v: real, height: real, padding: real): real
    requires data != []
  {
    padding + (1.0 - Level(data, v)) * (height - padding * 2.0)
  }

  /** With room for the padding, every canvas y stays inside the padded band. */
  lemma CanvasYInBand(data: seq<real>, i: nat, width: real, height: real, padding: real)
    requires |data| >= 2 && i < |data| && height >= 2.0 * padding
    ensures padding <= CanvasPoint(data, i, width, height, padding).y <= height - padding
  {
    LevelInUnit(data, i);
    ComplementScaled(1.0 - Level(data, data[i]), height - padding * 2.0);
  }

  lemma ComplementScaled(g: real, h: real)
    requires 0.0 <= g <= 1.0 && h >= 0.0
    ensures 0.0 <= g * h <= h
  {
  }

  /** The end dot sits on the last point of the line. */
  function EndDot(data: seq<real>, width: real, height: real, padding: real): (p: Point)
    requires |data| >= 2
    ensures p == CanvasPoint(data, |data| - 1, width, height, padding)
  {
    Point(CanvasX(|data|, |data| - 1, width, padding), CanvasY(data, data[|data| - 1], height, padding))
  }
}
