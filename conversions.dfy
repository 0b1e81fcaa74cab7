/** Conversions between a touch position and a colour channel (hue strip,
    saturation/value square, alpha strip), and from a channel back to the
    tracker position drawn on its panel. The float arithmetic of the widget
    is idealised as `real`; the alpha conversion is on Java ints. */
module Conversions {
  import opened Numerics
  import opened Geometry

  /** `x * 255` stays inside the int range for every x between 0 and w. */
  predicate ScaleFitsInt32(w: int) {
    -INT_MAX <= w * 255 <= INT_MAX
  }

  /** The clamping step shared by the three `pointTo*` methods on one axis:
      below `lo` gives 0, above `hi` gives the extent, otherwise the offset. */
  function ClampOffset(x: int, lo: int, hi: int): int {
    if x < lo then 0 else if x > hi then hi - lo else x - lo
  }

  function ClampOffsetReal(x: real, lo: int, hi: int): real {
    if x < lo as real then 0.0
    else if x > hi as real then (hi - lo) as real
    else x - lo as real
  }

  // ---------------------------------------------------------------- alpha

  /** `pointToAlpha`: clamp x into the strip, then 255 - offset*255/width
      with Java's truncating int division. */
  function PointToAlpha(x: int, r: Rect): (a: int)
    requires r.Width() != 0
    requires ScaleFitsInt32(r.Width())
    ensures 0 <= a <= 255
    ensures x < r.left ==> a == 255
    ensures x == r.left && r.left < r.right ==> a == 255
    ensures x >= r.left && x >= r.right ==> a == 0
  {
    var c := ClampOffset(x, r.left, r.right);
    AlphaScaleBounds(c, r.Width());
    0xff - TruncDiv(c * 0xff, r.Width())
  }

  /** Within the strip the scaled offset stays in [0, 255]; outside it the
      clamp makes the offset 0 or the full width. */
  lemma AlphaScaleBounds(c: int, w: int)
    requires w != 0
    requires c == 0 || c == w || (w > 0 && 0 <= c <= w)
    ensures 0 <= TruncDiv(c * 255, w) <= 255
    ensures c == 0 ==> TruncDiv(c * 255, w) == 0
    ensures c == w ==> TruncDiv(c * 255, w) == 255
  {
    if c == w {
      DivExact(Abs(w));
      assert Abs(c * 255) == Abs(w) * 255;
    } else if c != 0 {
      DivExact(w);
      MulDivMonotone(c, w, w);
    }
  }

  /** The quotient is determined by the bracket it falls in. */
  lemma DivUnique(a: int, d: int, q: int)
    requires d > 0 && q * d <= a < q * d + d
    ensures a / d == q
  {
    var r := a / d;
    assert r * d + a % d == a;
    if r < q {
      MulLe(r + 1, q, d);
    } else if r > q {
      MulLe(q + 1, r, d);
    }
  }

  lemma DivExact(w: int)
    requires w > 0
    ensures (w * 255) / w == 255
  {
    DivUnique(w * 255, w, 255);
  }

  /** Scaling by 255/d is monotone on non-negative offsets. */
  lemma MulDivMonotone(a: int, b: int, d: int)
    requires 0 <= a <= b && d > 0
    ensures (a * 255) / d <= (b * 255) / d
  {
    var x, y := a * 255, b * 255;
    var qx, qy := x / d, y / d;
    assert qx * d + x % d == x;
    assert qy * d + y % d == y;
    if qx > qy {
      MulLe(qy + 1, qx, d);
    }
  }

  /** The alpha strip maps left to right onto 255 down to 0 without ever
      increasing. */
  lemma {:induction false} PointToAlphaNonIncreasing(x1: int, x2: int, r: Rect)
    requires r.Width() != 0 && ScaleFitsInt32(r.Width())
    requires x1 <= x2
    ensures PointToAlpha(x1, r) >= PointToAlpha(x2, r)
  {
    var c1 := ClampOffset(x1, r.left, r.right);
    var c2 := ClampOffset(x2, r.left, r.right);
    if r.Width() > 0 {
      assert 0 <= c1 <= c2 <= r.Width();
      MulDivMonotone(c1, c2, r.Width());
    }
  }

  /** The scaling truncates: inside the strip, 255 - a is the largest k with
      k * width <= offset * 255, not the nearest integer to the exact ratio. */
  lemma PointToAlphaTruncates(x: int, r: Rect)
    requires 0 < r.Width() && ScaleFitsInt32(r.Width())
    requires r.left <= x <= r.right
    ensures var k := 255 - PointToAlpha(x, r);
      k * r.Width() <= (x - r.left) * 255 < (k + 1) * r.Width()
  {
    var w, c := r.Width(), x - r.left;
    var q := (c * 255) / w;
    assert TruncDiv(c * 255, w) == q;
    assert q * w + (c * 255) % w == c * 255;
  }

  /** One pixel into a 100 px strip the exact alpha is 255 - 2.55 = 252.45;
      the truncating division gives 253 where rounding would give 252. The
      middle of a 2 px strip (exactly 127.5) gives 128. The clamps give 255
      left of the strip and 0 at its right edge. */
  lemma PointToAlphaExamples()
    ensures PointToAlpha(1, Rect(0, 0, 2, 1)) == 128
    ensures PointToAlpha(1, Rect(0, 0, 100, 1)) == 253
    ensures PointToAlpha(-5, Rect(0, 0, 100, 1)) == 255
    ensures PointToAlpha(100, Rect(0, 0, 100, 1)) == 0
  {
    assert TruncDiv(255, 2) == 127;
    assert TruncDiv(255, 100) == 2;
  }

  // ------------------------------------------------------------------ hue

  /** `pointToHue`: clamp x into the strip, then 360 - offset*360/width. */
  function PointToHue(x: real, r: Rect): (h: real)
    requires r.Width() != 0
    ensures 0.0 <= h <= 360.0
    ensures x <= r.left as real && r.left < r.right ==> h == 360.0
    ensures x < r.left as real ==> h == 360.0
    ensures x >= r.left as real && x >= r.right as real ==> h == 0.0
  {
    var w := r.Width() as real;
    var c := ClampOffsetReal(x, r.left, r.right);
    RatioBounds(c, w);
    DivScale(c, 360.0, w);
    360.0 - (c * 360.0 / w)
  }

  /** Moving right along the hue strip never increases the hue. */
  lemma PointToHueNonIncreasing(x1: real, x2: real, r: Rect)
    requires r.Width() != 0
    requires x1 <= x2
    ensures PointToHue(x1, r) >= PointToHue(x2, r)
  {
    var w := r.Width() as real;
    var c1 := ClampOffsetReal(x1, r.left, r.right);
    var c2 := ClampOffsetReal(x2, r.left, r.right);
    if w > 0.0 {
      DivMonotone(c1, c2, w);
      DivScale(c1, 360.0, w);
      DivScale(c2, 360.0, w);
    }
  }

  // ------------------------------------------------------ saturation/value

  datatype SatVal = SatVal(sat: real, val: real)

  /** `pointToSatVal`: clamp (x, y) into the square; saturation grows
      left to right from 0 to 1 and value falls top to bottom from 1 to 0. */
  function PointToSatVal(x: real, y: real, r: Rect): (sv: SatVal)
    requires r.Width() != 0 && r.Height() != 0
    ensures 0.0 <= sv.sat <= 1.0 && 0.0 <= sv.val <= 1.0
    ensures x < r.left as real ==> sv.sat == 0.0
    ensures x >= r.left as real && x >= r.right as real ==> sv.sat == 1.0
    ensures y < r.top as real ==> sv.val == 1.0
    ensures y >= r.top as real && y >= r.bottom as real ==> sv.val == 0.0
  {
    var w := r.Width() as real;
    var h := r.Height() as real;
    var cx := ClampOffsetReal(x, r.left, r.right);
    var cy := ClampOffsetReal(y, r.top, r.bottom);
    RatioBounds(cx, w);
    RatioBounds(cy, h);
    ReciprocalTimes(cx, w);
    ReciprocalTimes(cy, h);
    SatVal(1.0 / w * cx, 1.0 - (1.0 / h * cy))
  }

  /** Saturation depends on x alone and never decreases to the right; value
      depends on y alone and never increases downwards. */
  lemma PointToSatValMonotone(x1: real, y1: real, x2: real, y2: real, r: Rect)
    requires r.Width() != 0 && r.Height() != 0
    ensures x1 <= x2 ==> PointToSatVal(x1, y1, r).sat <= PointToSatVal(x2, y2, r).sat
    ensures y1 <= y2 ==> PointToSatVal(x1, y1, r).val >= PointToSatVal(x2, y2, r).val
    ensures x1 == x2 ==> PointToSatVal(x1, y1, r).sat == PointToSatVal(x2, y2, r).sat
    ensures y1 == y2 ==> PointToSatVal(x1, y1, r).val == PointToSatVal(x2, y2, r).val
  {
    var w := r.Width() as real;
    var h := r.Height() as real;
    var cx1 := ClampOffsetReal(x1, r.left, r.right);
    var cx2 := ClampOffsetReal(x2, r.left, r.right);
    var cy1 := ClampOffsetReal(y1, r.top, r.bottom);
    var cy2 := ClampOffsetReal(y2, r.top, r.bottom);
    ReciprocalTimes(cx1, w);
    ReciprocalTimes(cx2, w);
    ReciprocalTimes(cy1, h);
    ReciprocalTimes(cy2, h);
    if x1 <= x2 && w > 0.0 {
      DivMonotone(cx1, cx2, w);
    }
    if y1 <= y2 && h > 0.0 {
      DivMonotone(cy1, cy2, h);
    }
  }

  // -------------------------------------------- real arithmetic used above

  lemma MulPos(a: real, b: real)
    requires a > 0.0 && b > 0.0
    ensures a * b > 0.0
  {
  }

  lemma MulCancel(a: real, b: real, w: real)
    requires w != 0.0 && a * w == b * w
    ensures a == b
  {
    assert (a - b) * w == 0.0;
  }

  /** Java's `c * k / w` and `k * (c / w)` agree on reals. */
  lemma DivScale(c: real, k: real, w: real)
    requires w != 0.0
    ensures c * k / w == k * (c / w)
  {
    var a, b := c * k / w, c / w;
    assert a * w == c * k;
    assert b * w == c;
    assert (k * b) * w == k * c;
    MulCancel(a, k * b, w);
  }

  /** Java's `1f / w * c` is c / w on reals. */
  lemma ReciprocalTimes(c: real, w: real)
    requires w != 0.0
    ensures 1.0 / w * c == c / w
  {
    var a, b := 1.0 / w, c / w;
    assert a * w == 1.0;
    assert b * w == c;
    assert (a * c) * w == c;
    MulCancel(a * c, b, w);
  }

  lemma DivMonotone(c1: real, c2: real, w: real)
    requires w > 0.0 && c1 <= c2
    ensures c1 / w <= c2 / w
  {
    var q1, q2 := c1 / w, c2 / w;
    assert q1 * w == c1 && q2 * w == c2;
    if q1 > q2 {
      MulPos(q1 - q2, w);
    }
  }

  /** For 0 <= v <= m, the share v * w / m of a non-negative extent w lies
      within [0, w]. */
  lemma FractionOfExtent(v: real, m: real, w: real)
    requires 0.0 <= v <= m && m > 0.0 && w >= 0.0
    ensures 0.0 <= v * w / m <= w
  {
    DivScale(v, w, m);
    RatioBounds(v, m);
    var q := v / m;
    if w > 0.0 && q > 0.0 {
      MulPos(q, w);
      if q < 1.0 {
        MulPos(1.0 - q, w);
      }
    }
  }

  /** A clamped offset divided by its extent lies in [0, 1], and is 0 or 1
      at the two ends. */
  lemma RatioBounds(c: real, w: real)
    requires w != 0.0
    requires c == 0.0 || c == w || (w > 0.0 && 0.0 <= c <= w)
    ensures 0.0 <= c / w <= 1.0
    ensures c == 0.0 ==> c / w == 0.0
    ensures c == w ==> c / w == 1.0
  {
    var q := c / w;
    assert q * w == c;
    if c == w {
      MulCancel(q, 1.0, w);
    } else if c != 0.0 {
      if q > 1.0 {
        MulPos(q - 1.0, w);
      } else if q < 0.0 {
        MulPos(-q, w);
      }
    }
  }

  // ------------------------------------------------------ tracker positions

  /** A rectangle whose edges are Java ints, with its edges in order. */
  predicate Int32Rect(r: Rect) {
    IsInt32(r.left) && IsInt32(r.top) && IsInt32(r.right) && IsInt32(r.bottom)
    && r.left <= r.right && r.top <= r.bottom
  }

  /** `hueToPoint`: the hue tracker sits on the top edge of the strip, at
      (int)(width - hue*width/360 + left); for a hue in [0, 360] the cast
      lands within the strip's horizontal extent. */
  function HueToPoint(hue: real, r: Rect): (p: Point)
    requires Int32Rect(r)
    requires 0.0 <= hue <= 360.0
    ensures r.left <= p.x <= r.right && p.y == r.top
  {
    var w := r.Width() as real;
    var x := w - (hue * w / 360.0) + r.left as real;
    FractionOfExtent(hue, 360.0, w);
    FloatToIntBetween(x, r.left, r.right);
    Point(FloatToInt(x), r.top)
  }

  /** `satValToPoint`: (int)(sat*width + left), (int)((1 - val)*height + top);
      for channels in [0, 1] the tracker lies in the closed square. */
  function SatValToPoint(sat: real, val: real, r: Rect): (p: Point)
    requires Int32Rect(r)
    requires 0.0 <= sat <= 1.0 && 0.0 <= val <= 1.0
    ensures r.left <= p.x <= r.right && r.top <= p.y <= r.bottom
  {
    var w := r.Width() as real;
    var h := r.Height() as real;
    var x := sat * w + r.left as real;
    var y := (1.0 - val) * h + r.top as real;
    FractionOfExtent(sat, 1.0, w);
    FractionOfExtent(1.0 - val, 1.0, h);
    FloatToIntBetween(x, r.left, r.right);
    FloatToIntBetween(y, r.top, r.bottom);
    Point(FloatToInt(x), FloatToInt(y))
  }

  /** `alphaToPoint`: (int)(width - alpha*width/255 + left) on the top edge;
      for alpha in [0, 255] it lies within the strip's horizontal extent. */
  function AlphaToPoint(alpha: int, r: Rect): (p: Point)
    requires Int32Rect(r)
    requires 0 <= alpha <= 255
    ensures r.left <= p.x <= r.right && p.y == r.top
  {
    var w := r.Width() as real;
    var x := w - (alpha as real * w / 255.0) + r.left as real;
    FractionOfExtent(alpha as real, 255.0, w);
    FloatToIntBetween(x, r.left, r.right);
    Point(FloatToInt(x), r.top)
  }
}
