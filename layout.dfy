/** Sizing and layout of the picker: the minimum padding, the measurement
    table that picks the content size from the parent's constraints, and
    the three stacked panels carved out of the drawing rectangle. Pixel
    sizes are unbounded ints (Java's int overflow is not modelled here). */
module Layout {
  import opened Geometry

  /** The one-pixel border drawn around every panel. */
  const BORDER_WIDTH_PX: int := 1

  /** Pixel sizes fixed when the view is created (converted from dp by the
      toolkit): the height of the hue strip, of the alpha strip, and the gap
      between panels. */
  datatype PanelDims = PanelDims(hueHeight: nat, alphaHeight: nat, spacing: nat)

  datatype Paddings = Paddings(left: int, top: int, right: int, bottom: int)

  // --------------------------------------------------------------- padding

  /** `getPaddingTop/Bottom/Left/Right`: the padding set on the view, raised
      to the required minimum. */
  function Padding(raw: int, required: int): (p: int)
    ensures p >= required && p >= raw
    ensures p == raw || p == required
  {
    if raw > required then raw else required
  }

  /** The four effective paddings. */
  function Effective(raw: Paddings, required: int): (e: Paddings)
    ensures e.left >= required && e.top >= required
    ensures e.right >= required && e.bottom >= required
    ensures e.left >= raw.left && e.top >= raw.top
    ensures e.right >= raw.right && e.bottom >= raw.bottom
  {
    Paddings(Padding(raw.left, required), Padding(raw.top, required),
             Padding(raw.right, required), Padding(raw.bottom, required))
  }

  // ----------------------------------------------------------- measurement

  /** The mode of a measure spec; the picker only asks whether it is EXACTLY. */
  datatype Mode = Exactly | AtMost | Unspecified

  datatype MeasureSpec = MeasureSpec(mode: Mode, size: int)

  datatype Size = Size(width: int, height: int)

  /** What the panels below the saturation/value square add to its height:
      the hue strip and, when shown, the alpha strip, each after a gap. */
  function StripsHeight(dims: PanelDims, showAlpha: bool): (s: int)
    ensures s >= dims.spacing + dims.hueHeight
    ensures !showAlpha ==> s == dims.spacing + dims.hueHeight
    ensures showAlpha ==> s == 2 * dims.spacing + dims.hueHeight + dims.alphaHeight
  {
    dims.spacing + dims.hueHeight + (if showAlpha then dims.spacing + dims.alphaHeight else 0)
  }

  /** The branch table of `onMeasure`: the content size chosen from the two
      modes and the sizes allowed once padding is taken off. The square
      saturation/value panel drives it: a width implies a height of
      width + strips, and a height implies a width of height - strips. */
  function ContentSize(widthMode: Mode, heightMode: Mode, widthAllowed: int, heightAllowed: int,
                       dims: PanelDims, showAlpha: bool): (s: Size)
    ensures widthMode == Exactly ==> s.width == widthAllowed
    ensures heightMode == Exactly ==> s.height == heightAllowed
    ensures s == Size(widthAllowed, heightAllowed)
         || (s.height == s.width + StripsHeight(dims, showAlpha)
             && s.width <= widthAllowed && s.height <= heightAllowed)
  {
    if widthMode == Exactly || heightMode == Exactly then
      if widthMode == Exactly && heightMode != Exactly then
        var h := widthAllowed + dims.spacing + dims.hueHeight
                 + (if showAlpha then dims.spacing + dims.alphaHeight else 0);
        Size(widthAllowed, if h > heightAllowed then heightAllowed else h)
      else if heightMode == Exactly && widthMode != Exactly then
        var w := heightAllowed - dims.spacing - dims.hueHeight
                 - (if showAlpha then dims.spacing + dims.alphaHeight else 0);
        Size(if w > widthAllowed then widthAllowed else w, heightAllowed)
      else
        Size(widthAllowed, heightAllowed)
    else
      var widthNeeded := heightAllowed - dims.spacing - dims.hueHeight
                         - (if showAlpha then dims.spacing + dims.alphaHeight else 0);
      var heightNeeded := widthAllowed + dims.spacing + dims.hueHeight
                          + (if showAlpha then dims.spacing + dims.alphaHeight else 0);
      var widthOk := widthNeeded <= widthAllowed;
      var heightOk := heightNeeded <= heightAllowed;
      if widthOk && heightOk then Size(widthAllowed, heightNeeded)
      else if !heightOk && widthOk then Size(widthNeeded, heightAllowed)
      else if !widthOk && heightOk then Size(widthAllowed, heightNeeded)
      else Size(widthAllowed, heightAllowed)
  }

  /** `onMeasure`: the measured dimension is the content size plus the
      effective padding on both sides. It honours the parent's constraints:
      an EXACTLY dimension is measured at exactly the spec size, and no
      dimension exceeds the spec size. */
  function Measure(widthSpec: MeasureSpec, heightSpec: MeasureSpec, raw: Paddings, required: int,
                   dims: PanelDims, showAlpha: bool): (m: Size)
    ensures widthSpec.mode == Exactly ==> m.width == widthSpec.size
    ensures heightSpec.mode == Exactly ==> m.height == heightSpec.size
    ensures m.width <= widthSpec.size && m.height <= heightSpec.size
    ensures var e := Effective(raw, required);
      var c := ContentSize(widthSpec.mode, heightSpec.mode,
                           widthSpec.size - e.left - e.right, heightSpec.size - e.bottom - e.top,
                           dims, showAlpha);
      m.width == c.width + e.left + e.right && m.height == c.height + e.top + e.bottom
  {
    var e := Effective(raw, required);
    var c := ContentSize(widthSpec.mode, heightSpec.mode,
                         widthSpec.size - e.left - e.right, heightSpec.size - e.bottom - e.top,
                         dims, showAlpha);
    Size(c.width + e.left + e.right, c.height + e.top + e.bottom)
  }

  /** Both modes EXACTLY: the view takes exactly the allowed size. */
  lemma MeasureBothExactly(wa: int, ha: int, dims: PanelDims, showAlpha: bool)
    ensures ContentSize(Exactly, Exactly, wa, ha, dims, showAlpha) == Size(wa, ha)
  {
  }

  /** Only the width EXACTLY: the width is the allowed width and the height
      is what a square saturation/value panel of that width needs, cut down
      to the allowed height. */
  lemma MeasureWidthExactly(hm: Mode, wa: int, ha: int, dims: PanelDims, showAlpha: bool)
    requires hm != Exactly
    ensures var s := ContentSize(Exactly, hm, wa, ha, dims, showAlpha);
      var need := wa + StripsHeight(dims, showAlpha);
      s.width == wa && s.height == (if need <= ha then need else ha)
  {
  }

  /** Only the height EXACTLY: the height is the allowed height and the
      width is what a square saturation/value panel of that height allows,
      cut down to the allowed width. */
  lemma MeasureHeightExactly(wm: Mode, wa: int, ha: int, dims: PanelDims, showAlpha: bool)
    requires wm != Exactly
    ensures var s := ContentSize(wm, Exactly, wa, ha, dims, showAlpha);
      var need := ha - StripsHeight(dims, showAlpha);
      s.height == ha && s.width == (if need <= wa then need else wa)
  {
  }

  /** Neither mode EXACTLY: the content always fits the allowance, always
      gives a square saturation/value panel, and fills the allowance on at
      least one axis. So the table's fourth case (neither the needed width
      nor the needed height fits) can never be taken. */
  lemma MeasureNeitherExactly(wm: Mode, hm: Mode, wa: int, ha: int, dims: PanelDims, showAlpha: bool)
    requires wm != Exactly && hm != Exactly
    ensures var strips := StripsHeight(dims, showAlpha);
      (ha - strips <= wa) || (wa + strips <= ha)
    ensures var s := ContentSize(wm, hm, wa, ha, dims, showAlpha);
      s.width <= wa && s.height <= ha
      && s.height == s.width + StripsHeight(dims, showAlpha)
      && (s.width == wa || s.height == ha)
  {
  }

  // ---------------------------------------------------------------- panels

  /** `onSizeChanged`: the drawing rectangle is the view's size less the
      effective padding. */
  function DrawingRect(w: int, h: int, e: Paddings): (d: Rect)
    ensures d.Width() == w - e.left - e.right && d.Height() == h - e.top - e.bottom
    ensures d.left == e.left && d.top == e.top
  {
    Rect(e.left, e.top, w - e.right, h - e.bottom)
  }

  /** `setUpSatValRect`: the square at the top, inside the border, above the
      hue strip (and the alpha strip when shown) and their gaps. */
  function SatValRect(d: Rect, dims: PanelDims, showAlpha: bool): (r: Rect)
    ensures r.left == d.left + BORDER_WIDTH_PX && r.right == d.right - BORDER_WIDTH_PX
    ensures r.top == d.top + BORDER_WIDTH_PX
    ensures r.Height() == d.Height() - 2 * BORDER_WIDTH_PX - StripsHeight(dims, showAlpha)
  {
    var bottom := d.bottom - BORDER_WIDTH_PX - dims.spacing - dims.hueHeight
                  - (if showAlpha then dims.alphaHeight + dims.spacing else 0);
    Rect(d.left + BORDER_WIDTH_PX, d.top + BORDER_WIDTH_PX, d.right - BORDER_WIDTH_PX, bottom)
  }

  /** `setUpHueRect`: the hue strip at the bottom of the drawing rectangle,
      or above the alpha strip and its gap when that is shown. */
  function HueRect(d: Rect, dims: PanelDims, showAlpha: bool): (r: Rect)
    ensures r.left == d.left + BORDER_WIDTH_PX && r.right == d.right - BORDER_WIDTH_PX
    ensures r.Height() == dims.hueHeight - 2 * BORDER_WIDTH_PX
    ensures !showAlpha ==> r.bottom == d.bottom - BORDER_WIDTH_PX
    ensures showAlpha ==> r.bottom == d.bottom - BORDER_WIDTH_PX - dims.alphaHeight - dims.spacing
  {
    var top := d.bottom - dims.hueHeight + BORDER_WIDTH_PX
               - (if showAlpha then dims.alphaHeight + dims.spacing else 0);
    var bottom := d.bottom - BORDER_WIDTH_PX
                  - (if showAlpha then dims.alphaHeight + dims.spacing else 0);
    Rect(d.left + BORDER_WIDTH_PX, top, d.right - BORDER_WIDTH_PX, bottom)
  }

  /** `setUpAlphaRect` when the alpha strip is shown: the strip at the
      bottom of the drawing rectangle. */
  function AlphaRect(d: Rect, dims: PanelDims): (r: Rect)
    ensures r.left == d.left + BORDER_WIDTH_PX && r.right == d.right - BORDER_WIDTH_PX
    ensures r.Height() == dims.alphaHeight - 2 * BORDER_WIDTH_PX
    ensures r.bottom == d.bottom - BORDER_WIDTH_PX
  {
    Rect(d.left + BORDER_WIDTH_PX, d.bottom - dims.alphaHeight + BORDER_WIDTH_PX,
         d.right - BORDER_WIDTH_PX, d.bottom - BORDER_WIDTH_PX)
  }

  /** The panels are stacked top to bottom with a gap of the panel spacing
      plus the two border pixels between neighbours, so no point lies in
      two of them. */
  lemma PanelsStacked(d: Rect, dims: PanelDims, showAlpha: bool, x: int, y: int)
    ensures var sv, hue := SatValRect(d, dims, showAlpha), HueRect(d, dims, showAlpha);
      sv.bottom + dims.spacing + 2 * BORDER_WIDTH_PX == hue.top
      && !(sv.Contains(x, y) && hue.Contains(x, y))
    ensures showAlpha ==>
      var sv, hue, alpha := SatValRect(d, dims, true), HueRect(d, dims, true), AlphaRect(d, dims);
      hue.bottom + dims.spacing + 2 * BORDER_WIDTH_PX == alpha.top
      && !(hue.Contains(x, y) && alpha.Contains(x, y))
      && !(sv.Contains(x, y) && alpha.Contains(x, y))
  {
  }

  /** When the drawing rectangle is at least as tall as the strips below the
      square, every panel lies inside it, one border pixel in. */
  lemma PanelsInsideDrawing(d: Rect, dims: PanelDims, showAlpha: bool, x: int, y: int)
    requires d.Height() >= StripsHeight(dims, showAlpha)
    ensures SatValRect(d, dims, showAlpha).Contains(x, y) ==> d.left < x < d.right - 1 && d.top < y < d.bottom - 1
    ensures HueRect(d, dims, showAlpha).Contains(x, y) ==> d.left < x < d.right - 1 && d.top < y < d.bottom - 1
    ensures showAlpha && AlphaRect(d, dims).Contains(x, y) ==> d.left < x < d.right - 1 && d.top < y < d.bottom - 1
  {
  }

  /** Measured and laid out without an EXACTLY constraint, the view gets a
      square saturation/value panel: the measured size, handed back to
      `onSizeChanged`, gives a drawing rectangle whose top panel is exactly
      as tall as it is wide. */
  lemma {:induction false} MeasuredSatValSquare(widthSpec: MeasureSpec, heightSpec: MeasureSpec,
                                                raw: Paddings, required: int, dims: PanelDims, showAlpha: bool)
    requires widthSpec.mode != Exactly && heightSpec.mode != Exactly
    ensures var m := Measure(widthSpec, heightSpec, raw, required, dims, showAlpha);
      var sv := SatValRect(DrawingRect(m.width, m.height, Effective(raw, required)), dims, showAlpha);
      sv.Width() == sv.Height()
  {
    var e := Effective(raw, required);
    MeasureNeitherExactly(widthSpec.mode, heightSpec.mode,
                          widthSpec.size - e.left - e.right, heightSpec.size - e.bottom - e.top,
                          dims, showAlpha);
  }
}
